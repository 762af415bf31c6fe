/** Splitting and joining text, numbers in text, and percent-encoding (section 2.1 of
    RFC 3986). A string is a sequence of bytes. */
module Text {
  import opened Options

  // ------------------------------------------------------------------ splitting

  function Split(s: string, sep: char): (parts: seq<string>)
    ensures parts != []
  {
    if s == "" then [""]
    else
      var rest := Split(s[1..], sep);
      if s[0] == sep then [""] + rest else [[s[0]] + rest[0]] + rest[1..]
  }

  function Join(parts: seq<string>, sep: char): string {
    if parts == [] then ""
    else if |parts| == 1 then parts[0]
    else parts[0] + [sep] + Join(parts[1..], sep)
  }

  predicate AllLack(parts: seq<string>, sep: char) {
    forall i :: 0 <= i < |parts| ==> sep !in parts[i]
  }

  lemma {:induction false} SplitPlain(s: string, sep: char)
    requires sep !in s
    ensures Split(s, sep) == [s]
  {
    if s != "" {
      SplitPlain(s[1..], sep);
      assert [s[0]] + s[1..] == s;
    }
  }

  lemma {:induction false} SplitFirst(a: string, rest: string, sep: char)
    requires sep !in a
    ensures Split(a + [sep] + rest, sep) == [a] + Split(rest, sep)
    decreases |a|
  {
    var s := a + [sep] + rest;
    if a == "" {
      assert s[1..] == rest;
    } else {
      assert s[1..] == a[1..] + [sep] + rest;
      SplitFirst(a[1..], rest, sep);
      assert [s[0]] + a[1..] == a;
    }
  }

  lemma {:induction false} SplitJoin(parts: seq<string>, sep: char)
    requires parts != [] && AllLack(parts, sep)
    ensures Split(Join(parts, sep), sep) == parts
    decreases |parts|
  {
    if |parts| == 1 {
      SplitPlain(parts[0], sep);
    } else {
      SplitJoin(parts[1..], sep);
      SplitFirst(parts[0], Join(parts[1..], sep), sep);
      assert [parts[0]] + parts[1..] == parts;
    }
  }

  lemma {:induction false} JoinSplit(s: string, sep: char)
    ensures Join(Split(s, sep), sep) == s && AllLack(Split(s, sep), sep)
    decreases |s|
  {
    if s != "" {
      JoinSplit(s[1..], sep);
      var rest := Split(s[1..], sep);
      if s[0] == sep {
        assert ([""] + rest)[1..] == rest;
      } else {
        assert ([[s[0]] + rest[0]] + rest[1..])[1..] == rest[1..];
      }
      assert [s[0]] + s[1..] == s;
    }
  }

  /** The text before and after the first separator. */
  function Cut(s: string, sep: char): Option<(string, string)> {
    if s == "" then None
    else if s[0] == sep then Some(("", s[1..]))
    else
      match Cut(s[1..], sep)
      case None => None
      case Some(r) => Some(([s[0]] + r.0, r.1))
  }

  lemma {:induction false} CutAt(k: string, v: string, sep: char)
    requires sep !in k
    ensures Cut(k + [sep] + v, sep) == Some((k, v))
    decreases |k|
  {
    var s := k + [sep] + v;
    if k == "" {
      assert s[1..] == v;
    } else {
      assert s[1..] == k[1..] + [sep] + v;
      CutAt(k[1..], v, sep);
      assert [k[0]] + k[1..] == k;
    }
  }

  /** The ASCII blanks that strings.TrimSpace removes. */
  predicate IsSpace(c: char) {
    c == ' ' || c == '\t' || c == '\n' || c == '\r' || c == 11 as char || c == 12 as char
  }

  function TrimSpace(s: string): string {
    if s != "" && IsSpace(s[0]) then TrimSpace(s[1..])
    else if s != "" && IsSpace(s[|s| - 1]) then TrimSpace(s[..|s| - 1])
    else s
  }

  /** Text without blanks. */
  predicate Solid(s: string) {
    forall i :: 0 <= i < |s| ==> !IsSpace(s[i])
  }

  predicate Trimmed(s: string) {
    s == "" || (!IsSpace(s[0]) && !IsSpace(s[|s| - 1]))
  }

  // -------------------------------------------------------------------- numbers

  const DIGITS := "0123456789ABCDEF"

  function DigitAt(n: nat): char
    requires n < 16
  {
    DIGITS[n]
  }

  /** The value of a digit, also a lower case one. */
  function DigitOf(c: char): Option<nat> {
    if '0' <= c <= '9' then Some(c as nat - '0' as nat)
    else if 'A' <= c <= 'F' then Some(c as nat - 'A' as nat + 10)
    else if 'a' <= c <= 'f' then Some(c as nat - 'a' as nat + 10)
    else None
  }

  lemma DigitInverts(n: nat)
    requires n < 16
    ensures DigitOf(DigitAt(n)) == Some(n) && (n < 10 ==> '0' <= DigitAt(n) <= '9')
  {
  }

  datatype Base = Octal | Decimal {
    function Size(): nat {
      if Octal? then 8 else 10
    }

    function Times(n: nat): nat {
      if Octal? then 8 * n else 10 * n
    }

    function Quotient(n: nat): nat {
      if Octal? then n / 8 else n / 10
    }

    function Remainder(n: nat): (r: nat)
      ensures r < Size()
    {
      if Octal? then n % 8 else n % 10
    }
  }

  predicate IsDigit(c: char, base: Base) {
    DigitOf(c).Some? && DigitOf(c).value < base.Size()
  }

  function ShowNat(n: nat, base: Base): string {
    if n < base.Size() then [DigitAt(n)] else ShowNat(base.Quotient(n), base) + [DigitAt(base.Remainder(n))]
  }

  function ParseNat(s: string, base: Base): Option<nat> {
    if s == "" then None
    else
      var n := |s| - 1;
      var before := if n == 0 then Some(0) else ParseNat(s[..n], base);
      if before.None? || !IsDigit(s[n], base) then None
      else Some(base.Times(before.value) + DigitOf(s[n]).value)
  }

  predicate AllDigits(s: string, base: Base) {
    s != "" && forall i :: 0 <= i < |s| ==> IsDigit(s[i], base)
  }

  lemma {:induction false} NatInverts(n: nat, base: Base)
    ensures ParseNat(ShowNat(n, base), base) == Some(n) && AllDigits(ShowNat(n, base), base)
    decreases n
  {
    hide DigitOf, DigitAt;
    if n < base.Size() {
      DigitInverts(n);
    } else {
      DigitInverts(base.Remainder(n));
      var s, d := ShowNat(base.Quotient(n), base), DigitAt(base.Remainder(n));
      NatInverts(base.Quotient(n), base);
      assert (s + [d])[..|s|] == s;
    }
  }

  function ShowInt(n: int): string {
    if n < 0 then "-" + ShowNat(-n, Decimal) else ShowNat(n, Decimal)
  }

  /** strconv.ParseInt with base 10: digits with an optional sign, at least `-limit` and
      less than `limit`. */
  function ParseInt(s: string, limit: int): Option<int> {
    var signed := s != "" && (s[0] == '-' || s[0] == '+');
    var n := ParseNat(if signed then s[1..] else s, Decimal);
    if n.None? then None
    else
      var v: int := if signed && s[0] == '-' then -(n.value as int) else n.value;
      if -limit <= v < limit then Some(v) else None
  }

  lemma IntInverts(n: int, limit: int)
    requires -limit <= n < limit
    ensures ParseInt(ShowInt(n), limit) == Some(n)
  {
    var m: nat := if n < 0 then -n else n;
    NatInverts(m, Decimal);
    var s := ShowNat(m, Decimal);
    assert IsDigit(s[0], Decimal);
    if n < 0 { assert ShowInt(n)[1..] == s; }
  }

  // ----------------------------------------------------------- percent-encoding

  /** url.PathEscape and url.QueryEscape. */
  datatype Mode = InPath | InQuery

  predicate Unreserved(c: char) {
    'a' <= c <= 'z' || 'A' <= c <= 'Z' || '0' <= c <= '9' || c == '-' || c == '_' || c == '.' || c == '~'
  }

  predicate Verbatim(c: char, mode: Mode) {
    Unreserved(c) || (mode.InPath? && c in "$&+:=@")
  }

  function EscapeChar(c: char, mode: Mode): string {
    if Verbatim(c, mode) || c as nat >= 256 then [c]
    else if mode.InQuery? && c == ' ' then "+"
    else ['%', DigitAt(c as nat / 16), DigitAt(c as nat % 16)]
  }

  function Escape(s: string, mode: Mode): string {
    if s == "" then "" else EscapeChar(s[0], mode) + Escape(s[1..], mode)
  }

  function Unescape(s: string, mode: Mode): Option<string> {
    if s == "" then Some("")
    else if s[0] == '%' then
      if |s| < 3 || DigitOf(s[1]).None? || DigitOf(s[2]).None? then None
      else Prepend((DigitOf(s[1]).value * 16 + DigitOf(s[2]).value) as char, Unescape(s[3..], mode))
    else Prepend(if s[0] == '+' && mode.InQuery? then ' ' else s[0], Unescape(s[1..], mode))
  }

  function Prepend(c: char, s: Option<string>): Option<string> {
    if s.Some? then Some([c] + s.value) else None
  }

  predicate Bytes(s: string) {
    forall i :: 0 <= i < |s| ==> s[i] as nat < 256
  }

  /** The characters that escaped text consists of. */
  predicate EscapedChar(c: char, mode: Mode) {
    Verbatim(c, mode) || c == '%' || c == '+'
  }

  lemma EscapedCharSafe(c: char, mode: Mode)
    requires c as nat < 256
    ensures forall i :: 0 <= i < |EscapeChar(c, mode)| ==> EscapedChar(EscapeChar(c, mode)[i], mode)
  {
    DigitInverts(c as nat / 16);
    DigitInverts(c as nat % 16);
  }

  lemma UnescapeChar(c: char, tail: string, mode: Mode)
    requires c as nat < 256
    ensures Unescape(EscapeChar(c, mode) + tail, mode) == Prepend(c, Unescape(tail, mode))
  {
    hide DigitOf, DigitAt;
    var head := EscapeChar(c, mode);
    DigitInverts(c as nat / 16);
    DigitInverts(c as nat % 16);
    assert (head + tail)[|head|..] == tail;
  }

  /** Any bytes come back, and the encoded text has no separators in it. */
  lemma {:induction false} EscapeInverts(s: string, mode: Mode)
    requires Bytes(s)
    ensures Unescape(Escape(s, mode), mode) == Some(s)
    ensures forall i :: 0 <= i < |Escape(s, mode)| ==> EscapedChar(Escape(s, mode)[i], mode)
    decreases |s|
  {
    hide EscapedChar, EscapeChar;
    if s != "" {
      EscapeInverts(s[1..], mode);
      EscapedCharSafe(s[0], mode);
      UnescapeChar(s[0], Escape(s[1..], mode), mode);
      assert [s[0]] + s[1..] == s;
    }
  }
}
