/** What the text forms mean, character by character. */
module TextLaws {
  import opened Options
  import opened Text

  // -------------------------------------------------------------------- numbers

  predicate OneOf(c: char, base: Base) {
    '0' <= c <= if base.Octal? then '7' else '9'
  }

  /** A number is a text of digits that is not empty. */
  lemma {:induction false} NatReads(s: string, base: Base)
    ensures ParseNat(s, base).Some? <==> s != "" && forall i :: 0 <= i < |s| ==> OneOf(s[i], base)
    decreases |s|
  {
    if |s| > 1 {
      var n := |s| - 1;
      NatReads(s[..n], base);
      assert forall i :: 0 <= i < n ==> s[..n][i] == s[i];
    }
  }

  lemma NatDigit(c: char, base: Base)
    requires OneOf(c, base)
    ensures ParseNat([c], base) == Some(c as nat - '0' as nat)
  {
    DigitIs(c, base);
    hide DigitOf, IsDigit, OneOf;
  }

  /** The value of a number is positional. */
  lemma NatGrows(s: string, c: char, base: Base)
    requires OneOf(c, base) && ParseNat(s, base).Some?
    ensures var n, d := ParseNat(s, base).value, c as nat - '0' as nat;
      ParseNat(s + [c], base) == Some(if base.Octal? then 8 * n + d else 10 * n + d)
  {
    DigitIs(c, base);
    hide DigitOf, IsDigit, OneOf;
    var t := s + [c];
    assert t[..|t| - 1] == s && t[|t| - 1] == c && |t| > 1;
    assert ParseNat(t, base) == Some(base.Times(ParseNat(s, base).value) + DigitOf(c).value);
    hide ParseNat;
  }

  lemma DigitIs(c: char, base: Base)
    requires OneOf(c, base)
    ensures IsDigit(c, base) && DigitOf(c) == Some(c as nat - '0' as nat)
  {
  }

  /** A printed number has no leading zero. */
  lemma {:induction false} NatCanonical(n: nat, base: Base)
    ensures ShowNat(n, base) != "" && (ShowNat(n, base)[0] == '0' <==> n == 0)
    decreases n
  {
    if n >= base.Size() { NatCanonical(base.Quotient(n), base); }
  }

  /** An integer is a number with an optional sign, within the limits. */
  lemma IntReads(s: string, limit: int)
    requires ParseNat(s, Decimal).Some?
    ensures var n: int := ParseNat(s, Decimal).value;
      && ParseInt(s, limit) == ParseInt("+" + s, limit) == (if -limit <= n < limit then Some(n) else None)
      && ParseInt("-" + s, limit) == (if -limit <= -n < limit then Some(-n) else None)
  {
    NatReads(s, Decimal);
    assert ("+" + s)[1..] == s && ("-" + s)[1..] == s;
  }

  // --------------------------------------------------------------------- blanks

  predicate Blank(c: char) {
    c in {' ', '\t', '\n', '\r', 11 as char, 12 as char}
  }

  /** Trimming takes the blanks away at both ends, and nothing else. */
  lemma {:induction false} TrimIs(s: string) returns (i: nat, j: nat)
    ensures i <= j <= |s| && TrimSpace(s) == s[i..j]
    ensures (forall k :: 0 <= k < i || j <= k < |s| ==> Blank(s[k])) && (i < j ==> !Blank(s[i]) && !Blank(s[j - 1]))
    decreases |s|
  {
    if s != "" && IsSpace(s[0]) {
      i, j := TrimIs(s[1..]);
      i, j := i + 1, j + 1;
      assert forall k :: 0 < k < |s| ==> s[k] == s[1..][k - 1];
    } else if s != "" && IsSpace(s[|s| - 1]) {
      i, j := TrimIs(s[..|s| - 1]);
    } else {
      i, j := 0, |s|;
    }
  }

  // ----------------------------------------------------------- percent-encoding

  function Lower(c: char): char {
    if 'A' <= c <= 'F' then (c as nat + 32) as char else c
  }

  /** Escapes may be written in lower case. */
  lemma LowerInverts(c: char, tail: string, mode: Mode)
    requires c as nat < 256
    ensures var hi, lo := DigitAt(c as nat / 16), DigitAt(c as nat % 16);
      && Unescape(['%', hi, lo] + tail, mode) == Prepend(c, Unescape(tail, mode))
      && Unescape(['%', Lower(hi), Lower(lo)] + tail, mode) == Prepend(c, Unescape(tail, mode))
  {
    LowerDigit(c as nat / 16);
    LowerDigit(c as nat % 16);
    hide DigitOf, DigitAt, Lower;
    var hi, lo := DigitAt(c as nat / 16), DigitAt(c as nat % 16);
    assert (['%', hi, lo] + tail)[3..] == tail && (['%', Lower(hi), Lower(lo)] + tail)[3..] == tail;
  }

  lemma LowerDigit(n: nat)
    requires n < 16
    ensures DigitOf(DigitAt(n)) == Some(n) == DigitOf(Lower(DigitAt(n)))
  {
    DigitInverts(n);
  }

  predicate Hex(c: char) {
    '0' <= c <= '9' || 'A' <= c <= 'F' || 'a' <= c <= 'f'
  }

  /** An escape without two hexadecimal digits is refused, wherever it stands. */
  lemma {:induction false} BadEscape(a: string, x: string, mode: Mode)
    requires '%' !in a && (|x| < 2 || !Hex(x[0]) || !Hex(x[1]))
    ensures Unescape(a + "%" + x, mode).None?
    decreases |a|
  {
    if a == "" {
      assert a + "%" + x == "%" + x;
    } else {
      BadEscape(a[1..], x, mode);
      assert (a + "%" + x)[1..] == a[1..] + "%" + x;
    }
  }
}
