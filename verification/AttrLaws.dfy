/** What any text of attributes means, whoever wrote it: which texts are accepted, and which
    of several values of a key counts. */
module AttrLaws {
  import opened FsTypes
  import opened Options
  import opened Text
  import opened AttrText

  // ------------------------------------------------------------- which are accepted

  /** A value that its key allows. Keys that nobody knows allow any. */
  predicate GoodValue(k: string, v: string) {
    if k == "mode" then ParseNat(v, Octal).Some? && ParseNat(v, Octal).value < 0x1_0000_0000
    else if k == "usr" then ParseUser(v).Some?
    else if k in {"size", "mtime", "atime"} then ParseInt(v, 0x8000_0000_0000_0000).Some?
    else if k == "link" then DecodePath(v).Some?
    else if k == "http" then Unescape(v, InQuery).Some?
    else if |k| >= 6 && k[..6] == "xattr." then Unescape(k[6..], InQuery).Some? && Unescape(v, InQuery).Some?
    else true
  }

  predicate GoodToken(e: string) {
    Cut(e, '=').Some? && GoodValue(Cut(e, '=').value.0, Cut(e, '=').value.1)
  }

  predicate GoodTokens(tokens: seq<string>) {
    forall i :: 0 <= i < |tokens| ==> GoodToken(tokens[i])
  }

  lemma TokenGood(r: NodeAttrs, e: string)
    ensures ParseToken(r, e).Some? <==> GoodToken(e)
  {
    var kv := Cut(e, '=');
    if kv.Some? { assert "xattr." <= kv.value.0 <==> |kv.value.0| >= 6 && kv.value.0[..6] == "xattr."; }
  }

  /** Attributes are accepted exactly if each has a key and a value that the key allows. */
  lemma {:induction false} AcceptedIff(r: NodeAttrs, tokens: seq<string>)
    ensures ParseTokens(r, tokens).Some? <==> GoodTokens(tokens)
    decreases |tokens|
  {
    hide ParseToken, GoodToken;
    if tokens != [] {
      TokenGood(r, tokens[0]);
      var next := ParseToken(r, tokens[0]);
      if next.Some? { AcceptedIff(next.value, tokens[1..]); }
      assert GoodTokens(tokens) <==> GoodToken(tokens[0]) && GoodTokens(tokens[1..]) by {
        assert forall i :: 0 <= i < |tokens| - 1 ==> tokens[1..][i] == tokens[i + 1];
        if GoodToken(tokens[0]) && GoodTokens(tokens[1..]) {
          forall i | 0 <= i < |tokens| ensures GoodToken(tokens[i]) {
            if i > 0 { assert tokens[i] == tokens[1..][i - 1]; }
          }
        }
      }
    }
  }

  // ------------------------------------------------------------- which value counts

  /** The last value of a key. */
  function LastOf(tokens: seq<string>, k: string): Option<string> {
    if tokens == [] then None
    else
      var n := |tokens| - 1;
      var kv := Cut(tokens[n], '=');
      if kv.Some? && kv.value.0 == k then Some(kv.value.1) else LastOf(tokens[..n], k)
  }

  /** The last value of an extended attribute, whose name may be encoded in several ways. */
  function LastXattr(tokens: seq<string>, name: string): Option<string> {
    if tokens == [] then None
    else
      var n := |tokens| - 1;
      var kv := Cut(tokens[n], '=');
      if kv.Some? && |kv.value.0| >= 6 && kv.value.0[..6] == "xattr." &&
        Unescape(kv.value.0[6..], InQuery) == Some(name)
      then Unescape(kv.value.1, InQuery)
      else LastXattr(tokens[..n], name)
  }

  function Given(v: Option<string>): string {
    if v.Some? then v.value else ""
  }

  function Number(v: Option<string>, missing: int): int {
    if v.None? then missing
    else if ParseInt(v.value, 0x8000_0000_0000_0000).Some? then ParseInt(v.value, 0x8000_0000_0000_0000).value
    else 0
  }

  predicate TextMeans(r: NodeAttrs, tokens: seq<string>) {
    && r.kind == Given(LastOf(tokens, "type"))
    && r.hash == Given(LastOf(tokens, "hash"))
    && r.url == Given(LastOf(tokens, "url"))
  }

  predicate CodeMeans(r: NodeAttrs, tokens: seq<string>) {
    && Unescape(Given(LastOf(tokens, "http")), InQuery) == Some(r.http)
    && DecodePath(Given(LastOf(tokens, "link"))) == Some(r.attrs.symlink)
  }

  predicate ModeMeans(r: NodeAttrs, tokens: seq<string>) {
    && (match LastOf(tokens, "mode")
        case None => r.attrs.perm == 0
        case Some(v) => ParseNat(v, Octal) == Some(r.attrs.perm))
    && (match LastOf(tokens, "usr")
        case None => r.attrs.uid == r.attrs.gid == 0
        case Some(v) => ParseUser(v) == Some((r.attrs.uid, r.attrs.gid)))
  }

  predicate NumberMeans(r: NodeAttrs, tokens: seq<string>) {
    && r.attrs.size == Number(LastOf(tokens, "size"), 0)
    && r.attrs.mtime == Number(LastOf(tokens, "mtime"), ZERO_TIME)
    && r.attrs.atime == Number(LastOf(tokens, "atime"), ZERO_TIME)
  }

  ghost predicate XattrMeans(r: NodeAttrs, tokens: seq<string>) {
    forall name :: LastXattr(tokens, name) == if name in r.attrs.xattrs then Some(r.attrs.xattrs[name]) else None
  }

  /** The attributes are what the last value of each key says. */
  ghost predicate Means(r: NodeAttrs, tokens: seq<string>) {
    TextMeans(r, tokens) && CodeMeans(r, tokens) && ModeMeans(r, tokens) && NumberMeans(r, tokens) &&
    XattrMeans(r, tokens)
  }

  lemma NothingMeans()
    ensures Means(NO_NODE, [])
  {
    assert Split("", '/') == [""];
  }

  lemma LastSnoc(tokens: seq<string>, e: string, k: string)
    ensures var kv := Cut(e, '=');
      LastOf(tokens + [e], k) == if kv.Some? && kv.value.0 == k then Some(kv.value.1) else LastOf(tokens, k)
  {
    assert (tokens + [e])[..|tokens|] == tokens;
  }

  lemma XattrSnoc(tokens: seq<string>, e: string, name: string)
    ensures var kv := Cut(e, '=');
      LastXattr(tokens + [e], name) ==
        if kv.Some? && |kv.value.0| >= 6 && kv.value.0[..6] == "xattr." &&
          Unescape(kv.value.0[6..], InQuery) == Some(name)
        then Unescape(kv.value.1, InQuery) else LastXattr(tokens, name)
  {
    assert (tokens + [e])[..|tokens|] == tokens;
  }

  lemma TextToken(r: NodeAttrs, tokens: seq<string>, e: string)
    requires TextMeans(r, tokens) && ParseToken(r, e).Some?
    ensures TextMeans(ParseToken(r, e).value, tokens + [e])
  {
    LastSnoc(tokens, e, "type");
    LastSnoc(tokens, e, "hash");
    LastSnoc(tokens, e, "url");
    hide LastOf, Unescape, ParseNat, ParseInt, ParseUser, DecodePath, Cut;
  }

  lemma CodeToken(r: NodeAttrs, tokens: seq<string>, e: string)
    requires CodeMeans(r, tokens) && ParseToken(r, e).Some?
    ensures CodeMeans(ParseToken(r, e).value, tokens + [e])
  {
    LastSnoc(tokens, e, "http");
    LastSnoc(tokens, e, "link");
    hide LastOf, Unescape, ParseNat, ParseInt, ParseUser, DecodePath, Cut;
  }

  lemma ModeToken(r: NodeAttrs, tokens: seq<string>, e: string)
    requires ModeMeans(r, tokens) && ParseToken(r, e).Some?
    ensures ModeMeans(ParseToken(r, e).value, tokens + [e])
  {
    LastSnoc(tokens, e, "mode");
    LastSnoc(tokens, e, "usr");
    hide LastOf, Unescape, ParseNat, ParseInt, ParseUser, DecodePath, Cut;
  }

  lemma NumberToken(r: NodeAttrs, tokens: seq<string>, e: string)
    requires NumberMeans(r, tokens) && ParseToken(r, e).Some?
    ensures NumberMeans(ParseToken(r, e).value, tokens + [e])
  {
    LastSnoc(tokens, e, "size");
    LastSnoc(tokens, e, "mtime");
    LastSnoc(tokens, e, "atime");
    hide LastOf, Unescape, ParseNat, ParseInt, ParseUser, DecodePath, Cut;
  }

  lemma XattrToken(r: NodeAttrs, tokens: seq<string>, e: string)
    requires XattrMeans(r, tokens) && ParseToken(r, e).Some?
    ensures XattrMeans(ParseToken(r, e).value, tokens + [e])
  {
    hide LastXattr, Unescape, ParseNat, ParseInt, ParseUser, DecodePath, Cut;
    var kv, r' := Cut(e, '=').value, ParseToken(r, e).value;
    assert "xattr." <= kv.0 <==> |kv.0| >= 6 && kv.0[..6] == "xattr.";
    forall name
      ensures LastXattr(tokens + [e], name) == if name in r'.attrs.xattrs then Some(r'.attrs.xattrs[name]) else None
    {
      XattrSnoc(tokens, e, name);
    }
  }

  lemma TokenMeans(r: NodeAttrs, tokens: seq<string>, e: string)
    requires Means(r, tokens) && ParseToken(r, e).Some?
    ensures Means(ParseToken(r, e).value, tokens + [e])
  {
    hide TextMeans, CodeMeans, ModeMeans, NumberMeans, XattrMeans, ParseToken;
    TextToken(r, tokens, e);
    CodeToken(r, tokens, e);
    ModeToken(r, tokens, e);
    NumberToken(r, tokens, e);
    XattrToken(r, tokens, e);
  }

  /** Accepted attributes mean, key by key, the last value given for the key; keys that
      nobody knows mean nothing. */
  lemma {:induction false} LastCounts(tokens: seq<string>)
    requires ParseTokens(NO_NODE, tokens).Some?
    ensures Means(ParseTokens(NO_NODE, tokens).value, tokens)
    decreases |tokens|
  {
    hide ParseToken, Means;
    if tokens == [] {
      NothingMeans();
    } else {
      var n := |tokens| - 1;
      var before, e := tokens[..n], tokens[n];
      assert tokens == before + [e];
      ParseConcat(NO_NODE, before, [e]);
      LastCounts(before);
      var r := ParseTokens(NO_NODE, before).value;
      assert [e][1..] == [];
      assert ParseTokens(r, [e]) == ParseToken(r, e);
      TokenMeans(r, before, e);
    }
  }

  /** ParseNodeAttrs of any text: when it succeeds, and that missing times are completed. */
  lemma TextMeaning(s: string, now: int) returns (r: NodeAttrs)
    ensures ParseNodeAttrs(s, now).Some? <==> GoodTokens(Split(s, ' '))
    ensures ParseNodeAttrs(s, now).Some? ==>
      && Means(r, Split(s, ' '))
      && var mtime := if r.attrs.mtime == ZERO_TIME then now else r.attrs.mtime;
         var atime := if r.attrs.atime == ZERO_TIME then mtime else r.attrs.atime;
         ParseNodeAttrs(s, now).value == r.(attrs := r.attrs.(mtime := mtime, atime := atime))
  {
    hide Means, GoodTokens, ParseTokens;
    var tokens := Split(s, ' ');
    AcceptedIff(NO_NODE, tokens);
    r := NO_NODE;
    if ParseTokens(NO_NODE, tokens).Some? {
      LastCounts(tokens);
      r := ParseTokens(NO_NODE, tokens).value;
    }
  }
}
