/** Node attributes as text: printing and parsing the attributes of a spec line. */
module AttrText {
  import opened FsTypes
  import opened Options
  import opened Text

  datatype NodeAttrs = NodeAttrs(kind: string, attrs: FileAttrs, hash: string, url: string, http: string)

  const NO_NODE := NodeAttrs("", NO_ATTRS, "", "", "")

  const INT64 := 0x8000_0000_0000_0000

  // ------------------------------------------------------------- encoded paths

  function EscapeAll(parts: seq<string>): (r: seq<string>)
    ensures |r| == |parts|
  {
    seq(|parts|, i requires 0 <= i < |parts| => Escape(parts[i], InPath))
  }

  function UnescapeAll(parts: seq<string>): Option<seq<string>> {
    if parts == [] then Some([])
    else
      var first, rest := Unescape(parts[0], InPath), UnescapeAll(parts[1..]);
      if first.Some? && rest.Some? then Some([first.value] + rest.value) else None
  }

  function EncodePath(p: string): string {
    Join(EscapeAll(Split(p, '/')), '/')
  }

  function DecodePath(p: string): Option<string> {
    var parts := UnescapeAll(Split(p, '/'));
    if parts.Some? then Some(Join(parts.value, '/')) else None
  }

  lemma EscapedLacks(s: string, mode: Mode)
    requires Bytes(s)
    ensures '/' !in Escape(s, mode) && (mode.InQuery? ==> '=' !in Escape(s, mode)) && Solid(Escape(s, mode))
  {
    hide Escape, Unescape;
    EscapeInverts(s, mode);
  }

  lemma {:induction false} UnescapeAllInverts(parts: seq<string>)
    requires forall i :: 0 <= i < |parts| ==> Bytes(parts[i])
    ensures UnescapeAll(EscapeAll(parts)) == Some(parts)
    decreases |parts|
  {
    hide Escape, Unescape, Bytes;
    if parts != [] {
      EscapeInverts(parts[0], InPath);
      UnescapeAllInverts(parts[1..]);
      assert EscapeAll(parts)[1..] == EscapeAll(parts[1..]);
      assert [parts[0]] + parts[1..] == parts;
    } else {
      assert EscapeAll(parts) == [];
    }
  }

  lemma EscapeAllLacks(parts: seq<string>)
    requires forall i :: 0 <= i < |parts| ==> Bytes(parts[i])
    ensures AllLack(EscapeAll(parts), '/') && forall i :: 0 <= i < |parts| ==> Solid(EscapeAll(parts)[i])
  {
    hide Escape, Bytes, Solid;
    forall i | 0 <= i < |parts|
      ensures '/' !in EscapeAll(parts)[i] && Solid(EscapeAll(parts)[i])
    {
      EscapedLacks(parts[i], InPath);
    }
  }

  lemma {:induction false} BytesSplit(s: string, sep: char)
    requires Bytes(s)
    ensures forall i :: 0 <= i < |Split(s, sep)| ==> Bytes(Split(s, sep)[i])
    decreases |s|
  {
    if s != "" { BytesSplit(s[1..], sep); }
  }

  lemma {:induction false} JoinSolid(parts: seq<string>, sep: char)
    requires !IsSpace(sep) && forall i :: 0 <= i < |parts| ==> Solid(parts[i])
    ensures Solid(Join(parts, sep))
    decreases |parts|
  {
    if |parts| > 1 { JoinSolid(parts[1..], sep); }
  }

  /** A symlink target comes back, whatever bytes it has. */
  lemma PathInverts(p: string)
    requires Bytes(p)
    ensures DecodePath(EncodePath(p)) == Some(p) && Solid(EncodePath(p))
  {
    hide Split, Join, EscapeAll, Solid, Bytes;
    var parts := Split(p, '/');
    BytesSplit(p, '/');
    UnescapeAllInverts(parts);
    EscapeAllLacks(parts);
    SplitJoin(EscapeAll(parts), '/');
    JoinSplit(p, '/');
    JoinSolid(EscapeAll(parts), '/');
  }

  // ------------------------------------------------------------------ printing

  function UserTokens(a: FileAttrs): seq<string> {
    if a.uid == 0 && a.gid == 0 then [] else ["usr=" + ShowInt(a.uid) + ":" + ShowInt(a.gid)]
  }

  function ModeTokens(a: FileAttrs): seq<string> {
    if a.perm == 0 then [] else ["mode=" + ShowNat(a.perm, Octal)]
  }

  function SizeTokens(a: FileAttrs): seq<string> {
    if a.size <= 0 then [] else ["size=" + ShowInt(a.size)]
  }

  function LinkTokens(a: FileAttrs): seq<string> {
    if a.symlink == "" then [] else ["link=" + EncodePath(a.symlink)]
  }

  function XattrTokens(keys: seq<string>, xattrs: map<string, string>): (r: seq<string>)
    requires forall i :: 0 <= i < |keys| ==> keys[i] in xattrs
    ensures |r| == |keys|
  {
    seq(|keys|, i requires 0 <= i < |keys| => XattrToken(keys[i], xattrs[keys[i]]))
  }

  function XattrToken(k: string, v: string): string {
    "xattr." + Escape(k, InQuery) + "=" + Escape(v, InQuery)
  }

  function TimeTokens(key: string, time: int): seq<string> {
    if time == ZERO_TIME then [] else [key + "=" + ShowInt(time)]
  }

  /** The keys of the extended attributes in some order; the source sorts them. */
  predicate Lists(keys: seq<string>, xattrs: map<string, string>) {
    (forall i :: 0 <= i < |keys| ==> keys[i] in xattrs) && (forall k :: k in xattrs ==> k in keys)
  }

  function FileTokens(a: FileAttrs, keys: seq<string>): seq<string>
    requires Lists(keys, a.xattrs)
  {
    UserTokens(a) + ModeTokens(a) + SizeTokens(a) + LinkTokens(a) + XattrTokens(keys, a.xattrs)
    + TimeTokens("mtime", a.mtime) + TimeTokens("atime", a.atime)
  }

  function DerivedTokens(a: NodeAttrs): seq<string> {
    (if a.hash == "" then [] else ["hash=" + a.hash])
    + (if a.url == "" then []
       else ["url=" + a.url] + (if a.http == "" then [] else ["http=" + Escape(a.http, InQuery)]))
  }

  function Spaced(tokens: seq<string>): string {
    if tokens == [] then "" else " " + tokens[0] + Spaced(tokens[1..])
  }

  /** NodeAttrs.AttrString with all attributes: the type, the file attributes and the
      derived ones. */
  function AttrString(a: NodeAttrs, keys: seq<string>): string
    requires Lists(keys, a.attrs.xattrs)
  {
    "type=" + a.kind + " " + Join(FileTokens(a.attrs, keys), ' ') + Spaced(DerivedTokens(a))
  }

  // ------------------------------------------------------------------- parsing

  /** idutils.ParseUser and User.ToIds. */
  function ParseUser(v: string): Option<(nat, nat)> {
    var parts := Cut(v, ':');
    var user := TrimSpace(if parts.Some? then parts.value.0 else v);
    var group := TrimSpace(if parts.Some? then parts.value.1 else "");
    var uid := ParseInt(if user == "" then "0" else user, INT64);
    var gid := ParseInt(if user == "" && group == "" then "0" else group, INT64);
    if uid.Some? && gid.Some? && uid.value >= 0 && gid.value >= 0 then Some((uid.value, gid.value)) else None
  }

  function ParseToken(r: NodeAttrs, e: string): Option<NodeAttrs> {
    match Cut(e, '=')
    case None => None
    case Some(kv) => ParseAttr(r, kv.0, kv.1)
  }

  function ParseAttr(r: NodeAttrs, k: string, v: string): Option<NodeAttrs> {
    if k == "type" then Some(r.(kind := v))
    else if k == "mode" then
      var m := ParseNat(v, Octal);
      if m.Some? && m.value < 0x1_0000_0000 then Some(r.(attrs := r.attrs.(perm := m.value))) else None
    else if k == "usr" then
      var u := ParseUser(v);
      if u.Some? then Some(r.(attrs := r.attrs.(uid := u.value.0, gid := u.value.1))) else None
    else if k == "size" then
      var n := ParseInt(v, INT64);
      if n.Some? then Some(r.(attrs := r.attrs.(size := n.value))) else None
    else if k == "link" then
      var p := DecodePath(v);
      if p.Some? then Some(r.(attrs := r.attrs.(symlink := p.value))) else None
    else if k == "hash" then Some(r.(hash := v))
    else if k == "url" then Some(r.(url := v))
    else if k == "http" then
      var h := Unescape(v, InQuery);
      if h.Some? then Some(r.(http := h.value)) else None
    else if k == "mtime" then
      var n := ParseInt(v, INT64);
      if n.Some? then Some(r.(attrs := r.attrs.(mtime := n.value))) else None
    else if k == "atime" then
      var n := ParseInt(v, INT64);
      if n.Some? then Some(r.(attrs := r.attrs.(atime := n.value))) else None
    else if "xattr." <= k then
      var name, value := Unescape(k[6..], InQuery), Unescape(v, InQuery);
      if name.Some? && value.Some? then Some(r.(attrs := r.attrs.(xattrs := r.attrs.xattrs[name.value := value.value])))
      else None
    else Some(r)
  }

  function ParseTokens(r: NodeAttrs, tokens: seq<string>): Option<NodeAttrs>
    decreases |tokens|
  {
    if tokens == [] then Some(r)
    else
      match ParseToken(r, tokens[0])
      case None => None
      case Some(next) => ParseTokens(next, tokens[1..])
  }

  /** The times that are missing. */
  function Completed(r: NodeAttrs, now: int): NodeAttrs {
    var mtime := if r.attrs.mtime == ZERO_TIME then now else r.attrs.mtime;
    var atime := if r.attrs.atime == ZERO_TIME then mtime else r.attrs.atime;
    r.(attrs := r.attrs.(mtime := mtime, atime := atime))
  }

  function ParseNodeAttrs(s: string, now: int): Option<NodeAttrs> {
    match ParseTokens(NO_NODE, Split(s, ' '))
    case None => None
    case Some(r) => Some(Completed(r, now))
  }

  /** ParseNodeAttrs' loop over the attributes. */
  method ParseLoop(s: string, now: int) returns (r: Option<NodeAttrs>)
    ensures r == ParseNodeAttrs(s, now)
  {
    var tokens := Split(s, ' ');
    var a := NO_NODE;
    var i := 0;
    while i < |tokens|
      invariant 0 <= i <= |tokens|
      invariant ParseTokens(NO_NODE, tokens) == ParseTokens(a, tokens[i..])
    {
      assert tokens[i..][1..] == tokens[i + 1..];
      var next := ParseToken(a, tokens[i]);
      if next.None? { return None; }
      a := next.value;
      i := i + 1;
    }
    return Some(Completed(a, now));
  }

  // ------------------------------------------------------------ they are inverse

  /** The values that Go's types have, and no blanks in what is printed as it is. */
  predicate Printable(a: NodeAttrs) {
    && a.attrs.uid < INT64 && a.attrs.gid < INT64 && a.attrs.perm <= 0x1FF
    && -INT64 <= a.attrs.size < INT64 && -INT64 <= a.attrs.mtime < INT64 && -INT64 <= a.attrs.atime < INT64
    && Bytes(a.attrs.symlink) && Bytes(a.http)
    && (forall k :: k in a.attrs.xattrs ==> Bytes(k) && Bytes(a.attrs.xattrs[k]))
    && ' ' !in a.kind && ' ' !in a.hash && ' ' !in a.url
  }

  lemma {:induction false} ParseConcat(r: NodeAttrs, xs: seq<string>, ys: seq<string>)
    ensures ParseTokens(r, xs + ys) ==
      if ParseTokens(r, xs).Some? then ParseTokens(ParseTokens(r, xs).value, ys) else None
    decreases |xs|
  {
    hide ParseToken;
    if xs == [] {
      assert xs + ys == ys;
    } else {
      assert (xs + ys)[1..] == xs[1..] + ys;
      var next := ParseToken(r, xs[0]);
      if next.Some? { ParseConcat(next.value, xs[1..], ys); }
    }
  }

  lemma NoTokens(r: NodeAttrs)
    ensures ParseTokens(r, []) == Some(r)
  {
  }

  lemma ParseOne(r: NodeAttrs, k: string, v: string)
    requires '=' !in k
    ensures ParseTokens(r, [k + "=" + v]) == ParseAttr(r, k, v)
  {
    hide ParseAttr;
    assert k + "=" + v == k + ['='] + v;
    CutAt(k, v, '=');
    assert [k + "=" + v][1..] == [];
  }

  lemma DigitsPlain(s: string, base: Base)
    requires AllDigits(s, base)
    ensures Solid(s) && ':' !in s
  {
  }

  lemma ShownPlain(n: int)
    ensures Solid(ShowInt(n)) && ':' !in ShowInt(n) && ShowInt(n) != ""
  {
    var m: nat := if n < 0 then -n else n;
    NatInverts(m, Decimal);
    DigitsPlain(ShowNat(m, Decimal), Decimal);
  }

  lemma UserInverts(r: NodeAttrs, a: FileAttrs)
    requires a.uid < INT64 && a.gid < INT64 && r.attrs.uid == 0 && r.attrs.gid == 0
    ensures ParseTokens(r, UserTokens(a)) == Some(r.(attrs := r.attrs.(uid := a.uid, gid := a.gid)))
  {
    if UserTokens(a) != [] {
      var u, g := ShowInt(a.uid), ShowInt(a.gid);
      ShownPlain(a.uid);
      ShownPlain(a.gid);
      IntInverts(a.uid, INT64);
      IntInverts(a.gid, INT64);
      var v := u + [':'] + g;
      CutAt(u, g, ':');
      assert TrimSpace(u) == u && TrimSpace(g) == g;
      assert ParseUser(v) == Some((a.uid, a.gid));
      assert "usr" + "=" + v == "usr=" + ShowInt(a.uid) + ":" + ShowInt(a.gid);
      ParseOne(r, "usr", v);
    }
  }

  lemma ModeInverts(r: NodeAttrs, a: FileAttrs)
    requires a.perm <= 0x1FF && r.attrs.perm == 0
    ensures ParseTokens(r, ModeTokens(a)) == Some(r.(attrs := r.attrs.(perm := a.perm)))
  {
    if ModeTokens(a) != [] {
      var v := ShowNat(a.perm, Octal);
      NatInverts(a.perm, Octal);
      DigitsPlain(v, Octal);
      assert "mode" + "=" + v == "mode=" + v;
      ParseOne(r, "mode", v);
    }
  }

  lemma SizeInverts(r: NodeAttrs, a: FileAttrs)
    requires a.size < INT64 && r.attrs.size == 0
    ensures ParseTokens(r, SizeTokens(a)) == Some(r.(attrs := r.attrs.(size := if a.size > 0 then a.size else 0)))
  {
    if SizeTokens(a) != [] {
      var v := ShowInt(a.size);
      ShownPlain(a.size);
      IntInverts(a.size, INT64);
      assert "size" + "=" + v == "size=" + v;
      ParseOne(r, "size", v);
    }
  }

  lemma LinkInverts(r: NodeAttrs, a: FileAttrs)
    requires Bytes(a.symlink) && r.attrs.symlink == ""
    ensures ParseTokens(r, LinkTokens(a)) == Some(r.(attrs := r.attrs.(symlink := a.symlink)))
  {
    hide EncodePath, DecodePath, ParseTokens, Bytes;
    if LinkTokens(a) != [] {
      var v := EncodePath(a.symlink);
      PathInverts(a.symlink);
      assert "link" + "=" + v == "link=" + v;
      ParseOne(r, "link", v);
    } else {
      NoTokens(r);
    }
  }

  lemma MtimeInverts(r: NodeAttrs, time: int)
    requires -INT64 <= time < INT64 && r.attrs.mtime == ZERO_TIME
    ensures ParseTokens(r, TimeTokens("mtime", time)) == Some(r.(attrs := r.attrs.(mtime := time)))
  {
    if time != ZERO_TIME {
      ShownPlain(time);
      IntInverts(time, INT64);
      ParseOne(r, "mtime", ShowInt(time));
    }
  }

  lemma AtimeInverts(r: NodeAttrs, time: int)
    requires -INT64 <= time < INT64 && r.attrs.atime == ZERO_TIME
    ensures ParseTokens(r, TimeTokens("atime", time)) == Some(r.(attrs := r.attrs.(atime := time)))
  {
    if time != ZERO_TIME {
      ShownPlain(time);
      IntInverts(time, INT64);
      ParseOne(r, "atime", ShowInt(time));
    }
  }

  lemma XattrInverts(r: NodeAttrs, k: string, v: string)
    requires Bytes(k) && Bytes(v)
    ensures ParseTokens(r, [XattrToken(k, v)]) == Some(r.(attrs := r.attrs.(xattrs := r.attrs.xattrs[k := v])))
  {
    hide Escape, Unescape, Bytes, ParseTokens;
    EscapeInverts(k, InQuery);
    EscapeInverts(v, InQuery);
    EscapedLacks(k, InQuery);
    EscapedLacks(v, InQuery);
    var key := "xattr." + Escape(k, InQuery);
    assert key[6..] == Escape(k, InQuery);
    assert XattrToken(k, v) == key + "=" + Escape(v, InQuery);
    assert key[..6] == "xattr." && key[5] == '.';
    ParseOne(r, key, Escape(v, InQuery));
  }

  lemma {:induction false} XattrsInvert(r: NodeAttrs, keys: seq<string>, xattrs: map<string, string>)
    requires forall i :: 0 <= i < |keys| ==> keys[i] in xattrs && Bytes(keys[i]) && Bytes(xattrs[keys[i]])
    ensures var p := ParseTokens(r, XattrTokens(keys, xattrs));
      && p.Some? && p.value == r.(attrs := r.attrs.(xattrs := p.value.attrs.xattrs))
      && p.value.attrs.xattrs == r.attrs.xattrs + (map k | k in keys && k in xattrs :: xattrs[k])
    decreases |keys|
  {
    hide ParseToken, XattrToken;
    if keys == [] {
      assert XattrTokens(keys, xattrs) == [];
    } else {
      var n := |keys| - 1;
      var before, last := keys[..n], keys[n];
      XattrsInvert(r, before, xattrs);
      var tokens := XattrTokens(keys, xattrs);
      assert tokens == XattrTokens(before, xattrs) + [XattrToken(last, xattrs[last])];
      var p := ParseTokens(r, XattrTokens(before, xattrs)).value;
      ParseConcat(r, XattrTokens(before, xattrs), [XattrToken(last, xattrs[last])]);
      XattrInverts(p, last, xattrs[last]);
      assert forall k :: k in keys <==> k in before || k == last;
    }
  }

  lemma DerivedInverts(r: NodeAttrs, a: NodeAttrs)
    requires Bytes(a.http) && ' ' !in a.hash && ' ' !in a.url && r.hash == "" && r.url == "" && r.http == ""
    ensures ParseTokens(r, DerivedTokens(a)) ==
      Some(r.(hash := a.hash, url := a.url, http := if a.url == "" then "" else a.http))
  {
    hide ParseTokens, Escape, Unescape, Bytes;
    EscapeInverts(a.http, InQuery);
    EscapedLacks(a.http, InQuery);
    NoTokens(r);
    var h := if a.hash == "" then [] else ["hash=" + a.hash];
    var u := if a.url == "" then [] else ["url=" + a.url];
    var t := if a.url == "" || a.http == "" then [] else ["http=" + Escape(a.http, InQuery)];
    assert DerivedTokens(a) == h + (u + t);
    var r1 := r.(hash := a.hash);
    var r2 := r1.(url := a.url);
    assert "hash" + "=" + a.hash == "hash=" + a.hash && "url" + "=" + a.url == "url=" + a.url;
    assert "http" + "=" + Escape(a.http, InQuery) == "http=" + Escape(a.http, InQuery);
    ParseOne(r, "hash", a.hash);
    ParseOne(r1, "url", a.url);
    ParseOne(r2, "http", Escape(a.http, InQuery));
    NoTokens(r1);
    NoTokens(r2);
    ParseConcat(r, h, u + t);
    ParseConcat(r1, u, t);
  }

  /** What is left of the attributes when they are read again: negative sizes, and header
      values without a URL, are not printed. */
  function Printed(a: NodeAttrs): NodeAttrs {
    a.(attrs := a.attrs.(size := if a.attrs.size > 0 then a.attrs.size else 0),
       http := if a.url == "" then "" else a.http)
  }

  lemma FileInverts(r: NodeAttrs, a: FileAttrs, keys: seq<string>)
    requires r.attrs == NO_ATTRS && Lists(keys, a.xattrs) && Printable(NodeAttrs("", a, "", "", ""))
    ensures ParseTokens(r, FileTokens(a, keys)) == Some(r.(attrs := a.(size := if a.size > 0 then a.size else 0)))
  {
    hide ParseTokens, UserTokens, ModeTokens, SizeTokens, LinkTokens, XattrTokens, TimeTokens;
    var x := XattrTokens(keys, a.xattrs);
    var m, t := TimeTokens("mtime", a.mtime), TimeTokens("atime", a.atime);
    UserInverts(r, a);
    var r1 := r.(attrs := r.attrs.(uid := a.uid, gid := a.gid));
    ModeInverts(r1, a);
    var r2 := r1.(attrs := r1.attrs.(perm := a.perm));
    SizeInverts(r2, a);
    var r3 := r2.(attrs := r2.attrs.(size := if a.size > 0 then a.size else 0));
    LinkInverts(r3, a);
    var r4 := r3.(attrs := r3.attrs.(symlink := a.symlink));
    XattrsInvert(r4, keys, a.xattrs);
    assert (map k | k in keys && k in a.xattrs :: a.xattrs[k]) == a.xattrs;
    var r5 := r4.(attrs := r4.attrs.(xattrs := a.xattrs));
    assert r4.attrs.xattrs + a.xattrs == a.xattrs;
    assert ParseTokens(r4, x) == Some(r5);
    MtimeInverts(r5, a.mtime);
    var r6 := r5.(attrs := r5.attrs.(mtime := a.mtime));
    AtimeInverts(r6, a.atime);
    assert r6.(attrs := r6.attrs.(atime := a.atime)) == r.(attrs := a.(size := if a.size > 0 then a.size else 0));
    ParseConcat(r, UserTokens(a), ModeTokens(a));
    ParseConcat(r, UserTokens(a) + ModeTokens(a), SizeTokens(a));
    ParseConcat(r, UserTokens(a) + ModeTokens(a) + SizeTokens(a), LinkTokens(a));
    ParseConcat(r, UserTokens(a) + ModeTokens(a) + SizeTokens(a) + LinkTokens(a), x);
    ParseConcat(r, UserTokens(a) + ModeTokens(a) + SizeTokens(a) + LinkTokens(a) + x, m);
    ParseConcat(r, UserTokens(a) + ModeTokens(a) + SizeTokens(a) + LinkTokens(a) + x + m, t);
  }

  predicate AllSolid(tokens: seq<string>) {
    forall i :: 0 <= i < |tokens| ==> Solid(tokens[i]) && tokens[i] != ""
  }

  lemma XattrTokensSolid(keys: seq<string>, xattrs: map<string, string>)
    requires forall i :: 0 <= i < |keys| ==> keys[i] in xattrs && Bytes(keys[i]) && Bytes(xattrs[keys[i]])
    ensures AllSolid(XattrTokens(keys, xattrs))
  {
    hide Escape, Bytes;
    forall i | 0 <= i < |keys|
      ensures Solid(XattrToken(keys[i], xattrs[keys[i]]))
    {
      EscapedLacks(keys[i], InQuery);
      EscapedLacks(xattrs[keys[i]], InQuery);
    }
  }

  lemma UserTokensSolid(a: FileAttrs)
    ensures AllSolid(UserTokens(a))
  {
    hide ShowInt;
    ShownPlain(a.uid);
    ShownPlain(a.gid);
  }

  lemma NumberTokensSolid(a: FileAttrs)
    ensures AllSolid(ModeTokens(a)) && AllSolid(SizeTokens(a))
  {
    hide ShowInt, ShowNat, ParseNat;
    NatInverts(a.perm, Octal);
    DigitsPlain(ShowNat(a.perm, Octal), Octal);
    ShownPlain(a.size);
  }

  lemma TimeTokensSolid(key: string, time: int)
    requires Solid(key)
    ensures AllSolid(TimeTokens(key, time))
  {
    hide ShowInt;
    ShownPlain(time);
  }

  lemma LinkTokensSolid(a: FileAttrs)
    requires Bytes(a.symlink)
    ensures AllSolid(LinkTokens(a))
  {
    hide EncodePath;
    PathInverts(a.symlink);
  }

  lemma FileTokensSolid(a: FileAttrs, keys: seq<string>)
    requires Lists(keys, a.xattrs) && Printable(NodeAttrs("", a, "", "", ""))
    ensures AllSolid(FileTokens(a, keys))
  {
    hide Solid, UserTokens, ModeTokens, SizeTokens, LinkTokens, TimeTokens, XattrTokens, Bytes;
    UserTokensSolid(a);
    NumberTokensSolid(a);
    LinkTokensSolid(a);
    XattrTokensSolid(keys, a.xattrs);
    TimesSolid(a);
  }

  lemma TimesSolid(a: FileAttrs)
    ensures AllSolid(TimeTokens("mtime", a.mtime)) && AllSolid(TimeTokens("atime", a.atime))
  {
    TimeTokensSolid("mtime", a.mtime);
    TimeTokensSolid("atime", a.atime);
  }

  lemma DerivedTokensLack(a: NodeAttrs, c: char)
    requires IsSpace(c) && Bytes(a.http) && c !in a.hash && c !in a.url
    ensures AllLack(DerivedTokens(a), c)
  {
    hide Escape, Bytes;
    EscapedLacks(a.http, InQuery);
    assert c !in Escape(a.http, InQuery);
  }

  lemma {:induction false} SpacedTokens(head: string, tokens: seq<string>)
    requires ' ' !in head && AllLack(tokens, ' ')
    ensures Split(head + Spaced(tokens), ' ') == [head] + tokens
    decreases |tokens|
  {
    if tokens == [] {
      SplitPlain(head, ' ');
      assert head + "" == head;
    } else {
      SpacedTokens(tokens[0], tokens[1..]);
      assert head + Spaced(tokens) == head + [' '] + (tokens[0] + Spaced(tokens[1..]));
      SplitFirst(head, tokens[0] + Spaced(tokens[1..]), ' ');
      assert [tokens[0]] + tokens[1..] == tokens;
    }
  }

  lemma {:induction false} JoinSpaced(tokens: seq<string>)
    requires tokens != []
    ensures " " + Join(tokens, ' ') == Spaced(tokens)
    decreases |tokens|
  {
    if |tokens| > 1 {
      JoinSpaced(tokens[1..]);
      assert " " + (tokens[0] + [' '] + Join(tokens[1..], ' ')) == " " + tokens[0] + (" " + Join(tokens[1..], ' '));
    } else {
      assert Spaced(tokens) == " " + tokens[0] + Spaced([]);
    }
  }

  lemma {:induction false} SpacedConcat(xs: seq<string>, ys: seq<string>)
    ensures Spaced(xs + ys) == Spaced(xs) + Spaced(ys)
    decreases |xs|
  {
    if xs == [] {
      assert xs + ys == ys;
    } else {
      SpacedConcat(xs[1..], ys);
      assert (xs + ys)[1..] == xs[1..] + ys;
    }
  }

  /** The tokens that the parser sees: an empty one where no file attribute is printed. */
  lemma StringTokens(a: NodeAttrs, keys: seq<string>)
    requires Printable(a) && Lists(keys, a.attrs.xattrs)
    ensures var files := FileTokens(a.attrs, keys);
      Split(AttrString(a, keys), ' ') == ["type=" + a.kind] + (if files == [] then [""] else files) + DerivedTokens(a)
  {
    hide FileTokens, DerivedTokens, ParseTokens;
    var files, derived := FileTokens(a.attrs, keys), DerivedTokens(a);
    FileTokensSolid(a.attrs, keys);
    DerivedTokensLack(a, ' ');
    var rest := if files == [] then [""] else files;
    if files == [] { assert Spaced([""]) == " " + "" + Spaced([]); } else { JoinSpaced(files); }
    assert " " + Join(files, ' ') == Spaced(rest);
    SpacedConcat(rest, derived);
    var head := "type=" + a.kind;
    assert AttrString(a, keys) == head + Spaced(rest + derived);
    SpacedTokens(head, rest + derived);
    assert [head] + (rest + derived) == [head] + rest + derived;
  }

  /** What parsing the printed attributes gives: an error if no file attribute is printed,
      and else the attributes with their missing times completed. */
  lemma AttrsParse(a: NodeAttrs, keys: seq<string>, now: int)
    requires Printable(a) && Lists(keys, a.attrs.xattrs)
    ensures ParseNodeAttrs(AttrString(a, keys), now) ==
      if FileTokens(a.attrs, keys) == [] then None else Some(Completed(Printed(a), now))
  {
    hide AttrString, FileTokens, DerivedTokens, Split;
    StringTokens(a, keys);
    var files, derived := FileTokens(a.attrs, keys), DerivedTokens(a);
    var head := ["type=" + a.kind];
    assert "type" + "=" + a.kind == "type=" + a.kind;
    ParseOne(NO_NODE, "type", a.kind);
    var r := NO_NODE.(kind := a.kind);
    hide ParseTokens;
    if files == [] {
      NoAttrs(r);
      ParseConcat(NO_NODE, head, [""]);
      ParseConcat(NO_NODE, head + [""], derived);
    } else {
      FileInverts(r, a.attrs, keys);
      ParseConcat(NO_NODE, head, files);
      ParseConcat(NO_NODE, head + files, derived);
      DerivedInverts(ParseTokens(r, files).value, a);
    }
  }

  lemma NoAttrs(r: NodeAttrs)
    ensures ParseTokens(r, [""]).None?
  {
  }

  /** Attribute strings invert: exactly the attributes with both times set, no negative
      size and no header values without a URL come back, unless the clock happens to
      show the zero time. */
  lemma AttrsInvertIff(a: NodeAttrs, keys: seq<string>, now: int)
    requires Printable(a) && Lists(keys, a.attrs.xattrs) && now != ZERO_TIME
    ensures ParseNodeAttrs(AttrString(a, keys), now) == Some(a) <==>
      a.attrs.mtime != ZERO_TIME && a.attrs.atime != ZERO_TIME && a.attrs.size >= 0 && (a.url == "" ==> a.http == "")
  {
    hide AttrString, ParseNodeAttrs;
    AttrsParse(a, keys, now);
    var m := TimeTokens("mtime", a.attrs.mtime);
    if a.attrs.mtime != ZERO_TIME {
      assert m[0] in FileTokens(a.attrs, keys);
    }
  }

  /** A file without printed attributes but with a hash cannot be read back. */
  lemma HashAloneIsRefused(hash: string, now: int)
    requires hash != "" && ' ' !in hash
    ensures ParseNodeAttrs(AttrString(NodeAttrs("file", NO_ATTRS, hash, "", ""), []), now) == None
  {
    var a := NodeAttrs("file", NO_ATTRS, hash, "", "");
    AttrsParse(a, [], now);
    assert XattrTokens([], map[]) == [];
  }
}
