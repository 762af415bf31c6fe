/** The text form of a file system tree: printing its spec lines and parsing them. */
module FsSpec {
  import opened FsTypes
  import opened PathWalk
  import opened Options
  import opened Text
  import opened AttrText

  /** The order in which the extended attributes of a node are printed. */
  type KeyOrder = map<string, string> -> seq<string>

  ghost predicate Orders(keys: KeyOrder) {
    forall m :: Lists(keys(m), m)
  }

  // ------------------------------------------------------------------ printing

  function KindName(k: Kind): string {
    match k
    case File => "file"
    case Dir => "dir"
    case Symlink => "symlink"
    case Fifo => "fifo"
    case Device => "dev"
    case Whiteout => "whiteout"
  }

  function KindNamed(s: string): Option<Kind> {
    if s == "file" then Some(File)
    else if s == "dir" then Some(Dir)
    else if s == "symlink" then Some(Symlink)
    else if s == "fifo" then Some(Fifo)
    else if s == "dev" then Some(Device)
    else if s == "whiteout" then Some(Whiteout)
    else None
  }

  /** The attributes printed for a node. Only files and nodes that were read from a spec
      have a hash to print. */
  function NodeText(s: Source): NodeAttrs {
    NodeAttrs(KindName(KindOf(s)), Info(s).attrs,
              if KindOf(s) == File || IsLower(Origin(s)) then Hash(s) else "", "", "")
  }

  function PathText(p: Path): string {
    "/" + Join(p, '/')
  }

  function Label(p: Path): string {
    if p == [] then "." else p[|p| - 1]
  }

  function EntryLine(p: Path, attrs: string): string {
    Escape(Label(p), InPath) + " " + attrs
  }

  /** What the writer does so far: the lines, and the first path of each source. */
  datatype Output = Output(lines: seq<string>, written: map<Source, Path>)

  /** Source.Write on a StringWriter. */
  function PrintNode(w: Output, p: Path, s: Source, keys: KeyOrder): Output
    requires Lists(keys(Info(s).attrs.xattrs), Info(s).attrs.xattrs)
  {
    var attrs := EntryLine(p, AttrString(NodeText(s), keys(Info(s).attrs.xattrs)));
    if s.Removed? then w.(lines := w.lines + [EntryLine(p, WHITEOUT_TEXT)])
    else if s.ParentDir? then w.(lines := w.lines + [EntryLine(p, "type=dir")])
    else if KindOf(s) == Dir && !IsLower(s) then w.(lines := w.lines + [attrs])
    else if Origin(s) in w.written then w.(lines := w.lines + [EntryLine(p, "hlink=" + PathText(w.written[Origin(s)]))])
    else Output(w.lines + [attrs], w.written[Origin(s) := p])
  }

  /** A step of the traversal: a node is entered, or a directory is left. */
  datatype Visit = Enter(path: Path) | Leave

  function SpecText(lines: seq<string>): string {
    if lines == [] then "" else lines[0] + "\n" + SpecText(lines[1..])
  }

  // ------------------------------------------------------------------- parsing

  /** The tree read so far, the current directory, the nodes that links may name and the
      number of nodes allocated. */
  datatype Parser = Parser(tree: Tree, current: Path, seen: map<Path, Source>, next: nat)

  const NEW_PARSER := Parser(NEW_FS, [], map[], 0)

  function AddLower(st: Parser, p: Path, s: Source): Parser {
    st.(tree := SetSource(st.tree, p, s))
  }

  /** A line without a blank is a path to go to. */
  function GoTo(st: Parser, line: string): Option<Parser> {
    var route := Clean(line);
    var start := if route.abs then [] else st.current;
    if start !in st.tree then None
    else
      var r := Walk(st.tree, start, route.ups, route.names, Lookup, 0);
      if r.Failed? then None else Some(st.(current := r.path))
  }

  function AddEntry(st: Parser, p: Path, attrs: string, now: int): Option<Parser> {
    if "hlink=" <= attrs then
      var dest := Clean(attrs[6..]);
      if !dest.abs || dest.names !in st.seen then None
      else Some(AddLower(st, p, st.seen[dest.names]))
    else if attrs == "type=dir" then Some(AddLower(st, p, ParentDir).(current := p))
    else
      match ParseNodeAttrs(attrs, now)
      case None => None
      case Some(a) =>
        match KindNamed(a.kind)
        case None => None
        case Some(Whiteout) => Some(AddLower(st, p, Removed))
        case Some(kind) =>
          var s := Src(st.next, true, NodeInfo(kind, a.attrs), a.hash);
          Some(AddLower(st, p, s).(next := st.next + 1, seen := st.seen[p := s],
                                   current := if kind == Dir then p else st.current))
  }

  /** One iteration of ParseFsSpec. */
  function ParseLine(st: Parser, raw: string, now: int): Option<Parser> {
    var line := TrimSpace(raw);
    match Cut(line, ' ')
    case None => GoTo(st, line)
    case Some(parts) =>
      match Unescape(parts.0, InPath)
      case None => None
      case Some(name) =>
        if name == "." then AddEntry(st, st.current, TrimSpace(parts.1), now)
        else if !ProperName(name) then None
        else AddEntry(st, st.current + [name], TrimSpace(parts.1), now)
  }

  function ParseLines(lines: seq<string>, now: int): Option<Parser> {
    if lines == [] then Some(NEW_PARSER)
    else
      var n := |lines| - 1;
      match ParseLines(lines[..n], now)
      case None => None
      case Some(st) => ParseLine(st, lines[n], now)
  }

  function ParseFsSpec(text: string, now: int): Option<Tree> {
    match ParseLines(Split(text, '\n'), now)
    case None => None
    case Some(st) => Some(st.tree)
  }

  /** ParseFsSpec's loop. */
  method Parse(text: string, now: int) returns (r: Option<Tree>)
    ensures r == ParseFsSpec(text, now)
  {
    var lines := Split(text, '\n');
    var st := NEW_PARSER;
    var i := 0;
    while i < |lines|
      invariant 0 <= i <= |lines|
      invariant ParseLines(lines[..i], now) == Some(st)
    {
      assert lines[..i + 1][..i] == lines[..i];
      var next := ParseLine(st, lines[i], now);
      if next.None? {
        FailureStays(lines, i + 1, now);
        return None;
      }
      st := next.value;
      i := i + 1;
    }
    assert lines[..i] == lines;
    return Some(st.tree);
  }

  lemma {:induction false} FailureStays(lines: seq<string>, n: nat, now: int)
    requires n <= |lines| && ParseLines(lines[..n], now).None?
    ensures ParseLines(lines, now).None?
    decreases |lines|
  {
    hide ParseLine;
    if n == |lines| {
      assert lines[..n] == lines;
    } else {
      var m := |lines| - 1;
      assert lines[..m][..n] == lines[..n];
      FailureStays(lines[..m], n, now);
    }
  }

  // -------------------------------------------------------- trees a spec can hold

  predicate GoodName(n: Name) {
    ProperName(n) && Bytes(n)
  }

  /** Whiteouts, implicit directories, and nodes with a modification time whose other
      attributes can be printed. */
  predicate GoodSource(s: Source) {
    s.Removed? || s.ParentDir? ||
    (&& KindOf(s) != Whiteout && (s.Linked? ==> KindOf(s) != Dir)
     && Info(s).attrs.mtime != ZERO_TIME && Info(s).attrs.size >= 0
     && Printable(NodeText(s)) && Solid(Hash(s)) && (Hash(s) != "" ==> KindOf(s) == File || IsLower(Origin(s))))
  }

  /** Nodes that are one file under several paths. */
  predicate Shares(s: Source, o: Source) {
    Origin(s) == Origin(o) && !s.Removed? && !s.ParentDir? && (KindOf(s) != Dir || IsLower(s))
  }

  predicate LinkableText(p: Path) {
    '\n' !in PathText(p) && Trimmed(PathText(p))
  }

  /** No blanks at the end of linked paths, no line breaks in them, and no shared
      directories. */
  predicate GoodLinks(t: Tree) {
    forall p, q :: p in t && q in t && p != q && Shares(t[p], t[q]) ==> KindOf(t[p]) != Dir && LinkableText(p)
  }

  predicate Specable(t: Tree) {
    && Valid(t) && GoodLinks(t)
    && (forall p :: p in t ==> GoodSource(t[p]) && forall i :: 0 <= i < |p| ==> GoodName(p[i]))
  }

  // --------------------------------------------------------------- the traversal

  function Cursor(t: Tree, plan: seq<Visit>): Path {
    if plan == [] then []
    else
      var n := |plan| - 1;
      var here := Cursor(t, plan[..n]);
      match plan[n]
      case Enter(p) => if p in t && KindOf(t[p]) == Dir then p else here
      case Leave => if here == [] then [] else Parent(here)
  }

  function Entered(plan: seq<Visit>): set<Path> {
    set i | 0 <= i < |plan| && plan[i].Enter? :: plan[i].path
  }

  /** The root comes first, every other node while its directory is current, and none
      twice. */
  predicate Planned(t: Tree, plan: seq<Visit>)
    decreases |plan|
  {
    plan == [] ||
    var n := |plan| - 1;
    && Planned(t, plan[..n])
    && match plan[n]
       case Leave => n > 0 && Cursor(t, plan[..n]) != []
       case Enter(p) =>
         && p in t && p !in Entered(plan[..n])
         && (if n == 0 then p == [] else p != [] && Parent(p) == Cursor(t, plan[..n]))
  }

  /** The lines of a traversal. */
  ghost function Print(t: Tree, plan: seq<Visit>, keys: KeyOrder): Output
    requires Planned(t, plan) && Orders(keys)
  {
    if plan == [] then Output([], map[])
    else
      var n := |plan| - 1;
      var w := Print(t, plan[..n], keys);
      if plan[n].Leave? then w.(lines := w.lines + [".."]) else PrintNode(w, plan[n].path, t[plan[n].path], keys)
  }

  // ------------------------------------------------------------- one line of text

  lemma {:induction false} TrimmedStays(s: string)
    requires Trimmed(s)
    ensures TrimSpace(s) == s
  {
  }

  lemma LabelEscaped(p: Path)
    requires p == [] || GoodName(p[|p| - 1])
    ensures var e := Escape(Label(p), InPath);
      e != "" && Solid(e) && Unescape(e, InPath) == Some(Label(p))
  {
    hide Escape, Unescape;
    EscapeInverts(Label(p), InPath);
    EscapedLacks(Label(p), InPath);
    if Escape(Label(p), InPath) == "" { UnescapeNothing(); }
  }

  lemma UnescapeNothing()
    ensures Unescape("", InPath) == Some("")
  {
  }

  lemma EntryParses(st: Parser, p: Path, attrs: string, now: int)
    requires if p == [] then st.current == [] else st.current == Parent(p) && GoodName(p[|p| - 1])
    requires Trimmed(attrs) && attrs != ""
    ensures ParseLine(st, EntryLine(p, attrs), now) == AddEntry(st, p, attrs, now)
  {
    hide AddEntry, Escape, Unescape, TrimSpace, Cut, GoTo;
    var e := Escape(Label(p), InPath);
    LabelEscaped(p);
    var line := EntryLine(p, attrs);
    assert line == e + [' '] + attrs;
    assert line[0] == e[0] && line[|line| - 1] == attrs[|attrs| - 1];
    TrimmedStays(line);
    CutAt(e, attrs, ' ');
    TrimmedStays(attrs);
    if p != [] { assert Parent(p) + [p[|p| - 1]] == p; }
  }

  lemma {:induction false} SpacedLast(tokens: seq<string>)
    requires tokens != [] && tokens[|tokens| - 1] != ""
    ensures var s, last := Spaced(tokens), tokens[|tokens| - 1];
      s != "" && s[|s| - 1] == last[|last| - 1]
    decreases |tokens|
  {
    if |tokens| > 1 { SpacedLast(tokens[1..]); } else { assert Spaced(tokens) == " " + tokens[0] + Spaced([]); }
  }

  /** The attributes of a good node: neither a link nor an implicit directory. */
  predicate Proper(s: Source) {
    GoodSource(s) && !s.Removed? && !s.ParentDir?
  }

  lemma FileTokensSome(a: FileAttrs, keys: seq<string>)
    requires Lists(keys, a.xattrs) && a.mtime != ZERO_TIME
    ensures FileTokens(a, keys) != []
  {
    var m := TimeTokens("mtime", a.mtime);
    assert m[0] in FileTokens(a, keys);
  }

  /** The tokens behind the type of a good node. */
  function Tokens(a: NodeAttrs, keys: seq<string>): seq<string>
    requires Lists(keys, a.attrs.xattrs)
  {
    FileTokens(a.attrs, keys) + (if a.hash == "" then [] else ["hash=" + a.hash])
  }

  lemma AttrsTrimmed(s: Source, keys: seq<string>)
    requires Proper(s) && Lists(keys, Info(s).attrs.xattrs)
    ensures var text := AttrString(NodeText(s), keys);
      text != "" && Trimmed(text) && text[0] == 't' && ' ' in text && '\n' !in text
  {
    hide GoodSource, Tokens, AttrString, AllSolid, KindName;
    var a := NodeText(s);
    ProperString(s, keys);
    ProperTokens(s, keys);
    var tokens := Tokens(a, keys);
    SolidEnd(tokens);
    SpacedLast(tokens);
    SpacedLacks(tokens);
    KindSolid(KindOf(s));
    assert Spaced(tokens)[0] == ' ';
  }

  lemma SolidEnd(tokens: seq<string>)
    requires AllSolid(tokens) && tokens != []
    ensures var last := tokens[|tokens| - 1];
      last != "" && !IsSpace(last[|last| - 1])
  {
    assert Solid(tokens[|tokens| - 1]);
  }

  lemma KindSolid(k: Kind)
    ensures Solid(KindName(k)) && '\n' !in KindName(k)
  {
  }

  lemma ProperString(s: Source, keys: seq<string>)
    requires Proper(s) && Lists(keys, Info(s).attrs.xattrs)
    ensures var a := NodeText(s);
      Tokens(a, keys) != [] && AttrString(a, keys) == "type=" + a.kind + Spaced(Tokens(a, keys))
  {
    hide FileTokens, Printable, Solid;
    var a := NodeText(s);
    var files := FileTokens(a.attrs, keys);
    FileTokensSome(a.attrs, keys);
    JoinSpaced(files);
    var derived := if a.hash == "" then [] else ["hash=" + a.hash];
    assert DerivedTokens(a) == derived;
    SpacedConcat(files, derived);
  }

  lemma ProperTokens(s: Source, keys: seq<string>)
    requires Proper(s) && Lists(keys, Info(s).attrs.xattrs)
    ensures AllSolid(Tokens(NodeText(s), keys))
  {
    hide FileTokens, Lists;
    FileTokensSolid(NodeText(s).attrs, keys);
  }

  lemma {:induction false} SpacedLacks(tokens: seq<string>)
    requires AllSolid(tokens)
    ensures '\n' !in Spaced(tokens)
    decreases |tokens|
  {
    if tokens != [] {
      SpacedLacks(tokens[1..]);
      assert '\n' !in tokens[0];
    }
  }

  /** The node that is read back for `s`. */
  function ReadBack(s: Source, ref: nat): Source {
    var a := Info(s).attrs;
    Src(ref, true, NodeInfo(KindOf(s), a.(atime := if a.atime == ZERO_TIME then a.mtime else a.atime)), Hash(s))
  }

  function WithNode(st: Parser, p: Path, s: Source): Parser {
    AddLower(st, p, s).(next := st.next + 1, seen := st.seen[p := s],
                        current := if KindOf(s) == Dir then p else st.current)
  }

  lemma KindInverts(k: Kind)
    ensures KindNamed(KindName(k)) == Some(k)
  {
  }

  lemma AttrEntry(st: Parser, p: Path, s: Source, keys: seq<string>, now: int)
    requires Proper(s) && Lists(keys, Info(s).attrs.xattrs)
    ensures AddEntry(st, p, AttrString(NodeText(s), keys), now) == Some(WithNode(st, p, ReadBack(s, st.next)))
  {
    hide AttrString, ParseNodeAttrs, KindName, KindNamed, FileTokens, Printable, AddLower;
    var text := AttrString(NodeText(s), keys);
    AttrsTrimmed(s, keys);
    AttrsParse(NodeText(s), keys, now);
    FileTokensSome(Info(s).attrs, keys);
    KindInverts(KindOf(s));
    assert text != "type=dir" && !("hlink=" <= text);
  }

  const WHITEOUT_TEXT := "type=whiteout"

  lemma MarkParses(now: int)
    ensures ParseNodeAttrs(WHITEOUT_TEXT, now) == Some(Completed(NO_NODE.(kind := "whiteout"), now))
  {
    hide ParseTokens, Split;
    assert ' ' !in WHITEOUT_TEXT;
    SplitPlain(WHITEOUT_TEXT, ' ');
    assert "type" + "=" + "whiteout" == WHITEOUT_TEXT;
    ParseOne(NO_NODE, "type", "whiteout");
  }

  lemma MarkEntry(st: Parser, p: Path, now: int)
    ensures AddEntry(st, p, WHITEOUT_TEXT, now) == Some(AddLower(st, p, Removed))
  {
    hide AddLower, ParseNodeAttrs;
    MarkParses(now);
    assert WHITEOUT_TEXT[0] == 't' && |WHITEOUT_TEXT| == 13 && |"type=dir"| == 8;
  }

  lemma {:induction false} CleanNames(r: Route, names: seq<Name>)
    requires forall i :: 0 <= i < |names| ==> GoodName(names[i])
    ensures CleanSegments(r, names) == r.(names := r.names + names)
    decreases |names|
  {
    if names == [] {
      assert r.names + names == r.names;
    } else {
      CleanNames(r.(names := r.names + [names[0]]), names[1..]);
      assert r.names + [names[0]] + names[1..] == r.names + names;
    }
  }

  lemma PathTextCleans(p: Path)
    requires p != [] && forall i :: 0 <= i < |p| ==> GoodName(p[i])
    ensures Clean(PathText(p)) == Route(true, 0, p)
  {
    var text := Join(p, '/');
    SplitJoin(p, '/');
    SplitFirst("", text, '/');
    assert "" + ['/'] + text == PathText(p);
    var r := Route(true, 0, []);
    CleanNames(r, p);
    assert ([""] + p)[1..] == p;
    assert [] + p == p;
  }

  lemma LinkEntry(st: Parser, p: Path, target: Path, now: int)
    requires target != [] && (forall i :: 0 <= i < |target| ==> GoodName(target[i])) && target in st.seen
    ensures AddEntry(st, p, "hlink=" + PathText(target), now) == Some(AddLower(st, p, st.seen[target]))
  {
    hide Clean, AddLower;
    PathTextCleans(target);
    var attrs := "hlink=" + PathText(target);
    assert attrs[6..] == PathText(target) && attrs[..6] == "hlink=";
  }

  // --------------------------------------------- the parser follows the writer

  /** Nodes that the writer remembers. */
  predicate Linky(s: Source) {
    !s.Removed? && !s.ParentDir? && (KindOf(s) != Dir || IsLower(s))
  }

  predicate Reads(u: Source, s: Source) {
    if s.Removed? || s.ParentDir? then u == s else u.Src? && u == ReadBack(s, u.ref)
  }

  /** The nodes of `done` were read, and nothing else. */
  ghost predicate TreeRead(t: Tree, st: Parser, done: set<Path>) {
    && Valid(st.tree) && st.tree.Keys == done + {[]}
    && (forall q :: q in done ==> q in t && Reads(st.tree[q], t[q]) && (st.tree[q].Src? ==> st.tree[q].ref < st.next))
  }

  /** Nodes are read as one exactly when the writer saw one source. */
  ghost predicate LinksRead(t: Tree, w: map<Source, Path>, u: Tree, done: set<Path>) {
    && (forall q :: q in done && q in t && q in u && Linky(t[q]) ==>
         Origin(t[q]) in w && w[Origin(t[q])] in u && u[q] == u[w[Origin(t[q])]])
    && (forall o, o' :: o in w && o' in w && w[o] in u && w[o'] in u && o != o' ==> u[w[o]] != u[w[o']])
  }

  ghost predicate WrittenRead(t: Tree, w: map<Source, Path>, st: Parser, done: set<Path>) {
    forall o :: o in w ==>
      && w[o] in done && w[o] in t && Linky(t[w[o]]) && Origin(t[w[o]]) == o
      && w[o] in st.tree && w[o] in st.seen && st.seen[w[o]] == st.tree[w[o]]
  }

  ghost predicate Matches(t: Tree, w: map<Source, Path>, st: Parser, done: set<Path>) {
    TreeRead(t, st, done) && LinksRead(t, w, st.tree, done) && WrittenRead(t, w, st, done)
  }

  /** `p` is the next node to read. */
  ghost predicate Due(t: Tree, st: Parser, done: set<Path>, p: Path) {
    && p in t && p !in done
    && if p == [] then done == {} && st.current == []
       else st.current == Parent(p) && Parent(p) in done && [] in done && Parent(p) in t && KindOf(t[Parent(p)]) == Dir
  }

  lemma ReadsKind(u: Source, s: Source)
    requires Reads(u, s)
    ensures KindOf(u) == KindOf(s)
  {
  }

  lemma PlaceNode(t: Tree, st: Parser, done: set<Path>, p: Path, s: Source)
    requires Valid(t) && TreeRead(t, st, done) && Due(t, st, done, p) && Reads(s, t[p])
    ensures SetSource(st.tree, p, s) == st.tree[p := s] && Valid(st.tree[p := s])
  {
    ReadsKind(s, t[p]);
    if p != [] {
      assert Reads(st.tree[Parent(p)], t[Parent(p)]);
      ReadsKind(st.tree[Parent(p)], t[Parent(p)]);
      forall q | q in st.tree ensures !(p < q) {
        if p < q { AncestorIsDir(st.tree, p, q); }
      }
      assert p !in st.tree;
      SetSourceValid(st.tree, p, s);
    }
    assert SetSource(st.tree, p, s) == st.tree[p := s];
  }

  lemma TreeReadStep(t: Tree, st: Parser, done: set<Path>, p: Path, s: Source, st': Parser)
    requires Valid(t) && TreeRead(t, st, done) && Due(t, st, done, p) && Reads(s, t[p])
    requires st'.tree == SetSource(st.tree, p, s) && st'.next >= st.next && (s.Src? ==> s.ref < st'.next)
    ensures TreeRead(t, st', done + {p}) && st'.tree == st.tree[p := s]
  {
    hide Reads, Valid;
    PlaceNode(t, st, done, p, s);
  }

  lemma LinksReadNew(t: Tree, w: map<Source, Path>, u: Tree, done: set<Path>, p: Path, s: Source)
    requires LinksRead(t, w, u, done) && p in t && p !in done && Linky(t[p]) && Origin(t[p]) !in w
    requires forall o :: o in w ==> w[o] in done && w[o] in u && u[w[o]] != s
    ensures LinksRead(t, w[Origin(t[p]) := p], u[p := s], done + {p})
  {
    hide Linky, Origin;
  }

  lemma LinksReadOld(t: Tree, w: map<Source, Path>, u: Tree, done: set<Path>, p: Path, s: Source)
    requires LinksRead(t, w, u, done) && p in t && p !in done
    requires forall o :: o in w ==> w[o] in done && w[o] in u
    requires Linky(t[p]) ==> Origin(t[p]) in w && s == u[w[Origin(t[p])]]
    ensures LinksRead(t, w, u[p := s], done + {p})
  {
    hide Linky, Origin;
  }

  lemma WrittenReadStep(t: Tree, w: map<Source, Path>, st: Parser, done: set<Path>, p: Path, s: Source, st': Parser)
    requires WrittenRead(t, w, st, done) && p !in done && st'.tree == st.tree[p := s]
    requires st'.seen == st.seen || st'.seen == st.seen[p := s]
    ensures WrittenRead(t, w, st', done + {p})
    ensures forall o :: o in w ==> w[o] in done && w[o] in st.tree
  {
    hide Linky, Origin;
  }

  lemma FreshDiffers(t: Tree, w: map<Source, Path>, st: Parser, done: set<Path>, s: Source)
    requires TreeRead(t, st, done) && WrittenRead(t, w, st, done) && s.Src? && s.ref >= st.next
    ensures forall o :: o in w ==> w[o] in done && w[o] in st.tree && st.tree[w[o]] != s
  {
    hide Valid, Reads, Linky, Origin;
  }

  lemma WrittenReadNew(t: Tree, w: map<Source, Path>, st: Parser, done: set<Path>, p: Path, s: Source, st': Parser)
    requires WrittenRead(t, w, st, done) && p !in done && p in t && Linky(t[p])
    requires st'.tree == st.tree[p := s] && st'.seen == st.seen[p := s]
    ensures WrittenRead(t, w[Origin(t[p]) := p], st', done + {p})
  {
    hide Linky, Origin;
  }

  /** A node with a source of its own. */
  lemma NewMatches(t: Tree, w: map<Source, Path>, st: Parser, done: set<Path>, p: Path)
    requires Valid(t) && Matches(t, w, st, done) && Due(t, st, done, p) && Proper(t[p])
    requires Linky(t[p]) ==> Origin(t[p]) !in w
    ensures var st' := WithNode(st, p, ReadBack(t[p], st.next));
      var w' := if Linky(t[p]) then w[Origin(t[p]) := p] else w;
      Matches(t, w', st', done + {p})
  {
    hide Valid, GoodSource, SetSource, LinksRead, WrittenRead, TreeRead, ReadBack, Reads, Origin, KindOf, Linky;
    var s := ReadBack(t[p], st.next);
    ReadBackReads(t[p], st.next);
    var st' := WithNode(st, p, s);
    FreshDiffers(t, w, st, done, s);
    TreeReadStep(t, st, done, p, s, st');
    if Linky(t[p]) {
      WrittenReadNew(t, w, st, done, p, s, st');
      LinksReadNew(t, w, st.tree, done, p, s);
    } else {
      WrittenReadStep(t, w, st, done, p, s, st');
      LinksReadOld(t, w, st.tree, done, p, s);
    }
  }

  lemma ReadBackReads(s: Source, ref: nat)
    requires Proper(s)
    ensures var u := ReadBack(s, ref);
      Reads(u, s) && u.Src? && u.ref == ref
  {
  }

  /** A node that is a link to one that was read. */
  lemma LinkMatches(t: Tree, w: map<Source, Path>, st: Parser, done: set<Path>, p: Path)
    requires Valid(t) && Matches(t, w, st, done) && Due(t, st, done, p) && Linky(t[p]) && Origin(t[p]) in w
    ensures w[Origin(t[p])] in st.seen
    ensures Matches(t, w, AddLower(st, p, st.seen[w[Origin(t[p])]]), done + {p})
  {
    hide Valid, SetSource, LinksRead, ReadBack, Reads, Origin, KindOf;
    var q := w[Origin(t[p])];
    var s := st.tree[q];
    assert q in done && st.seen[q] == s && Reads(s, t[q]);
    OriginReads(t[q], t[p], s);
    var st' := AddLower(st, p, s);
    TreeReadStep(t, st, done, p, s, st');
    WrittenReadStep(t, w, st, done, p, s, st');
    LinksReadOld(t, w, st.tree, done, p, s);
  }

  lemma OriginReads(s: Source, o: Source, u: Source)
    requires Origin(s) == Origin(o) && Linky(s) && Linky(o) && Reads(u, s)
    ensures Reads(u, o)
  {
    assert Info(s) == Info(Origin(s)) && Hash(s) == Hash(Origin(s));
    assert Info(o) == Info(Origin(o)) && Hash(o) == Hash(Origin(o));
  }

  /** A whiteout or an implicit directory. */
  lemma MarkMatches(t: Tree, w: map<Source, Path>, st: Parser, done: set<Path>, p: Path, here: Path)
    requires Valid(t) && Matches(t, w, st, done) && Due(t, st, done, p) && (t[p].Removed? || t[p].ParentDir?)
    ensures Matches(t, w, AddLower(st, p, t[p]).(current := here), done + {p})
  {
    var s := t[p];
    assert Reads(s, t[p]) && !s.Src?;
    hide Valid, SetSource, LinksRead, ReadBack, Reads, Origin, KindOf;
    var st' := AddLower(st, p, s).(current := here);
    TreeReadStep(t, st, done, p, s, st');
    WrittenReadStep(t, w, st, done, p, s, st');
    LinksReadOld(t, w, st.tree, done, p, s);
  }

  // ----------------------------------------------------------------- whole specs

  function LineOf(w: Output, p: Path, s: Source, keys: KeyOrder): string
    requires Lists(keys(Info(s).attrs.xattrs), Info(s).attrs.xattrs)
  {
    EntryLine(p, AttrsOf(w.written, s, keys))
  }

  /** What is printed behind the name. */
  function AttrsOf(w: map<Source, Path>, s: Source, keys: KeyOrder): string
    requires Lists(keys(Info(s).attrs.xattrs), Info(s).attrs.xattrs)
  {
    if s.Removed? then WHITEOUT_TEXT
    else if s.ParentDir? then "type=dir"
    else if Linky(s) && Origin(s) in w then "hlink=" + PathText(w[Origin(s)])
    else AttrString(NodeText(s), keys(Info(s).attrs.xattrs))
  }

  lemma PrintsLine(w: Output, p: Path, s: Source, keys: KeyOrder)
    requires Lists(keys(Info(s).attrs.xattrs), Info(s).attrs.xattrs)
    ensures var w' := PrintNode(w, p, s, keys);
      && w'.lines == w.lines + [LineOf(w, p, s, keys)]
      && w'.written == if Linky(s) && Origin(s) !in w.written then w.written[Origin(s) := p] else w.written
  {
    hide AttrString, EntryLine;
  }

  /** The path that a link line names is one that the parser has seen. */
  lemma TargetGood(t: Tree, w: map<Source, Path>, st: Parser, done: set<Path>, p: Path)
    requires Specable(t) && WrittenRead(t, w, st, done) && p in t && p !in done && Linky(t[p]) && Origin(t[p]) in w
    ensures var q := w[Origin(t[p])];
      q in st.seen && q != [] && LinkableText(q) && forall i :: 0 <= i < |q| ==> GoodName(q[i])
  {
    hide GoodSource, GoodName, LinkableText;
    var q := w[Origin(t[p])];
    assert q in t && q != p && Shares(t[q], t[p]);
  }

  lemma LinkTextGood(q: Path)
    requires LinkableText(q)
    ensures var attrs := "hlink=" + PathText(q);
      Trimmed(attrs) && '\n' !in attrs
  {
  }

  lemma AttrsGood(t: Tree, w: map<Source, Path>, st: Parser, done: set<Path>, p: Path, keys: KeyOrder)
    requires Specable(t) && WrittenRead(t, w, st, done) && p in t && p !in done && Orders(keys)
    ensures var attrs := AttrsOf(w, t[p], keys);
      attrs != "" && Trimmed(attrs) && '\n' !in attrs
  {
    hide WrittenRead, AttrString, NodeText, GoodSource, GoodName, GoodLinks, Valid, PathText, LinkableText, Linky,
         Origin;
    var s := t[p];
    assert GoodSource(s);
    if s.Removed? || s.ParentDir? {
      assert !IsSpace('t') && !IsSpace('r');
    } else if Linky(s) && Origin(s) in w {
      TargetGood(t, w, st, done, p);
      LinkTextGood(w[Origin(s)]);
    } else {
      AttrsTrimmed(s, keys(Info(s).attrs.xattrs));
    }
  }

  lemma LineLacks(p: Path, attrs: string)
    requires (p == [] || GoodName(p[|p| - 1])) && '\n' !in attrs
    ensures '\n' !in EntryLine(p, attrs)
  {
    hide Escape;
    LabelEscaped(p);
  }

  /** The parser makes of the attributes what the writer meant. */
  lemma AttrsRead(t: Tree, w: map<Source, Path>, st: Parser, done: set<Path>, p: Path, keys: KeyOrder, now: int)
    requires Specable(t) && Matches(t, w, st, done) && Due(t, st, done, p) && Orders(keys)
    ensures var r := AddEntry(st, p, AttrsOf(w, t[p], keys), now);
      var w' := if Linky(t[p]) && Origin(t[p]) !in w then w[Origin(t[p]) := p] else w;
      r.Some? && Matches(t, w', r.value, done + {p}) && r.value.current == if KindOf(t[p]) == Dir then p else st.current
  {
    hide AddEntry, AttrString, NodeText, PathText, TreeRead, LinksRead;
    assert GoodSource(t[p]) && Valid(t);
    var s := t[p];
    if s.Removed? {
      MarkEntry(st, p, now);
      MarkMatches(t, w, st, done, p, st.current);
    } else if s.ParentDir? {
      DirEntry(st, p, now);
      MarkMatches(t, w, st, done, p, p);
    } else if Linky(s) && Origin(s) in w {
      TargetGood(t, w, st, done, p);
      LinkEntry(st, p, w[Origin(s)], now);
      LinkMatches(t, w, st, done, p);
      LinkIsNoDir(t, w, st, done, p);
    } else {
      AttrEntry(st, p, s, keys(Info(s).attrs.xattrs), now);
      NewMatches(t, w, st, done, p);
    }
  }

  lemma LinkIsNoDir(t: Tree, w: map<Source, Path>, st: Parser, done: set<Path>, p: Path)
    requires Specable(t) && WrittenRead(t, w, st, done) && p in t && p !in done && Linky(t[p]) && Origin(t[p]) in w
    ensures KindOf(t[p]) != Dir
  {
    hide GoodSource, GoodName, LinkableText;
    var q := w[Origin(t[p])];
    assert q in t && q != p && Shares(t[p], t[q]);
  }

  lemma DirEntry(st: Parser, p: Path, now: int)
    ensures AddEntry(st, p, "type=dir", now) == Some(AddLower(st, p, ParentDir).(current := p))
  {
    hide AddLower, ParseNodeAttrs;
    assert "type=dir"[0] == 't';
  }

  /** Entering a node: its line is read as that node. */
  lemma EnterStep(t: Tree, w: Output, st: Parser, done: set<Path>, p: Path, keys: KeyOrder, now: int)
    requires Specable(t) && Matches(t, w.written, st, done) && Due(t, st, done, p) && Orders(keys)
    ensures var w' := PrintNode(w, p, t[p], keys);
      && |w'.lines| == |w.lines| + 1 && w'.lines[..|w.lines|] == w.lines
      && var line := w'.lines[|w.lines|];
         var r := ParseLine(st, line, now);
         && '\n' !in line && r.Some? && Matches(t, w'.written, r.value, done + {p})
         && r.value.current == if KindOf(t[p]) == Dir then p else st.current
  {
    hide Matches, ParseLine, AttrsOf, PrintNode, EntryLine;
    assert WrittenRead(t, w.written, st, done) by { MatchesWritten(t, w.written, st, done); }
    PrintsLine(w, p, t[p], keys);
    var attrs := AttrsOf(w.written, t[p], keys);
    AttrsGood(t, w.written, st, done, p, keys);
    assert p != [] ==> GoodName(p[|p| - 1]);
    LineLacks(p, attrs);
    EntryParses(st, p, attrs, now);
    AttrsRead(t, w.written, st, done, p, keys, now);
  }

  lemma MatchesWritten(t: Tree, w: map<Source, Path>, st: Parser, done: set<Path>)
    requires Matches(t, w, st, done)
    ensures WrittenRead(t, w, st, done)
  {
  }

  lemma MovedMatches(t: Tree, w: map<Source, Path>, st: Parser, done: set<Path>, here: Path)
    requires Matches(t, w, st, done)
    ensures Matches(t, w, st.(current := here), done)
  {
    hide Valid, Reads, Linky, LinksRead, Origin;
  }

  /** The current directory and the one above it. */
  lemma AboveCurrent(t: Tree, st: Parser, done: set<Path>)
    requires TreeRead(t, st, done) && st.current in done && st.current in t && KindOf(t[st.current]) == Dir
    ensures st.current in st.tree && KindOf(st.tree[st.current]) == Dir
    ensures st.current != [] ==> Parent(st.current) in st.tree && KindOf(st.tree[Parent(st.current)]) == Dir
  {
    ReadsKind(st.tree[st.current], t[st.current]);
  }

  lemma WalkUp(t: Tree, here: Path)
    requires here in t && here != [] && KindOf(t[here]) == Dir && Parent(here) in t && KindOf(t[Parent(here)]) == Dir
    ensures Walk(t, here, 1, [], Lookup, 0) == At(t, Parent(here))
  {
    hide KindOf, Parent;
    assert Onward(t, Parent(here), 0, [], Lookup, 0) == At(t, Parent(here));
    assert Walk(t, Parent(here), 0, [], Lookup, 0) == At(t, Parent(here));
    assert Onward(t, here, 1, [], Lookup, 0) == At(t, Parent(here));
  }

  /** Leaving a directory. */
  lemma LeaveStep(t: Tree, w: map<Source, Path>, st: Parser, done: set<Path>, now: int)
    requires Matches(t, w, st, done) && st.current in done && st.current in t && st.current != []
    requires KindOf(t[st.current]) == Dir
    ensures ParseLine(st, "..", now) == Some(st.(current := Parent(st.current)))
    ensures Matches(t, w, st.(current := Parent(st.current)), done)
  {
    hide AddEntry, LinksRead, WrittenRead, TreeRead, Clean, KindOf, Walk, Parent;
    DotsClean();
    assert ".."[1..] == "." && "."[1..] == "";
    assert Cut(".", ' ') == None && Cut("..", ' ') == None && TrimSpace("..") == "..";
    AboveCurrent(t, st, done);
    WalkUp(st.tree, st.current);
    MovedMatches(t, w, st, done, Parent(st.current));
  }

  lemma DotsClean()
    ensures Clean("..") == Route(false, 1, []) && Clean("") == Route(false, 0, [])
  {
    SplitPlain("..", '/');
    SplitPlain("", '/');
    var r := Route(false, 0, []);
    assert [".."][1..] == [] && [""][1..] == [];
    assert CleanSegments(r, [".."]) == CleanSegments(r.(ups := 1), []);
  }

  predicate NoBreaks(lines: seq<string>) {
    forall i :: 0 <= i < |lines| ==> '\n' !in lines[i]
  }

  /** Where the parser is after the lines of a traversal. */
  ghost predicate Followed(t: Tree, plan: seq<Visit>, w: Output, r: Option<Parser>) {
    && NoBreaks(w.lines)
    && r.Some? && Matches(t, w.written, r.value, Entered(plan)) && r.value.current == Cursor(t, plan)
    && (plan != [] ==> [] in Entered(plan) && Cursor(t, plan) in Entered(plan))
    && Cursor(t, plan) in t && KindOf(t[Cursor(t, plan)]) == Dir
  }

  lemma EnteredSnoc(plan: seq<Visit>, v: Visit)
    ensures Entered(plan + [v]) == Entered(plan) + if v.Enter? then {v.path} else {}
  {
    var more := plan + [v];
    assert more[|plan|] == v;
    assert forall i :: 0 <= i < |plan| ==> more[i] == plan[i];
    forall p | p in Entered(plan) ensures p in Entered(more) {
      var i :| 0 <= i < |plan| && plan[i].Enter? && plan[i].path == p;
      assert more[i].Enter? && more[i].path == p;
    }
  }

  lemma StartMatches(t: Tree)
    ensures Matches(t, map[], NEW_PARSER, {})
  {
  }

  lemma ParseSnoc(lines: seq<string>, line: string, now: int)
    requires ParseLines(lines, now).Some?
    ensures ParseLines(lines + [line], now) == ParseLine(ParseLines(lines, now).value, line, now)
  {
    hide ParseLine;
    assert (lines + [line])[..|lines|] == lines;
  }

  lemma FollowEnter(t: Tree, pre: seq<Visit>, p: Path, keys: KeyOrder, now: int)
    requires Specable(t) && Orders(keys) && Planned(t, pre) && Planned(t, pre + [Enter(p)])
    requires Followed(t, pre, Print(t, pre, keys), ParseLines(Print(t, pre, keys).lines, now))
    ensures var plan := pre + [Enter(p)];
      Followed(t, plan, Print(t, plan, keys), ParseLines(Print(t, plan, keys).lines, now))
  {
    hide Matches, ParseLine, ParseLines, PrintNode, Specable, Entered;
    var plan := pre + [Enter(p)];
    assert plan[..|pre|] == pre;
    EnteredSnoc(pre, Enter(p));
    var w := Print(t, pre, keys);
    var st := ParseLines(w.lines, now).value;
    EnterDue(t, pre, p, st);
    EnterStep(t, w, st, Entered(pre), p, keys, now);
    var w' := PrintNode(w, p, t[p], keys);
    assert w'.lines == w.lines + [w'.lines[|w.lines|]];
    ParseSnoc(w.lines, w'.lines[|w.lines|], now);
  }

  lemma EnterDue(t: Tree, pre: seq<Visit>, p: Path, st: Parser)
    requires Planned(t, pre + [Enter(p)]) && st.current == Cursor(t, pre)
    requires pre != [] ==> [] in Entered(pre) && Cursor(t, pre) in Entered(pre)
    requires Cursor(t, pre) in t && KindOf(t[Cursor(t, pre)]) == Dir
    ensures Due(t, st, Entered(pre), p)
  {
    var plan := pre + [Enter(p)];
    assert plan[..|pre|] == pre;
    if pre == [] { assert Entered(pre) == {}; }
  }

  lemma FollowLeave(t: Tree, pre: seq<Visit>, keys: KeyOrder, now: int)
    requires Specable(t) && Orders(keys) && Planned(t, pre) && Planned(t, pre + [Leave])
    requires Followed(t, pre, Print(t, pre, keys), ParseLines(Print(t, pre, keys).lines, now))
    ensures var plan := pre + [Leave];
      Followed(t, plan, Print(t, plan, keys), ParseLines(Print(t, plan, keys).lines, now))
  {
    hide Matches, ParseLine, ParseLines, PrintNode, Entered, GoodLinks, GoodSource, GoodName;
    var plan := pre + [Leave];
    assert plan[..|pre|] == pre;
    EnteredSnoc(pre, Leave);
    var w := Print(t, pre, keys);
    var st := ParseLines(w.lines, now).value;
    LeaveStep(t, w.written, st, Entered(pre), now);
    ParentEntered(t, w.written, st, Entered(pre));
    ParseSnoc(w.lines, "..", now);
    assert Print(t, plan, keys) == w.(lines := w.lines + [".."]);
    assert Entered(plan) == Entered(pre);
  }

  lemma ParentEntered(t: Tree, w: map<Source, Path>, st: Parser, done: set<Path>)
    requires Valid(t) && Matches(t, w, st, done) && st.current in done && st.current != [] && [] in done
    ensures Parent(st.current) in done && Parent(st.current) in t && KindOf(t[Parent(st.current)]) == Dir
  {
    hide LinksRead, WrittenRead, Reads;
    assert Parent(st.current) in st.tree;
  }

  lemma StartFollowed(t: Tree, keys: KeyOrder, now: int)
    requires Valid(t) && Orders(keys)
    ensures Followed(t, [], Print(t, [], keys), ParseLines(Print(t, [], keys).lines, now))
  {
    hide Matches;
    StartMatches(t);
    assert Entered([]) == {};
  }

  /** Every traversal of the tree is followed. */
  lemma {:induction false} PlanFollowed(t: Tree, plan: seq<Visit>, keys: KeyOrder, now: int)
    requires Specable(t) && Orders(keys) && Planned(t, plan)
    ensures Followed(t, plan, Print(t, plan, keys), ParseLines(Print(t, plan, keys).lines, now))
    decreases |plan|
  {
    hide Followed, GoodLinks, GoodSource, GoodName, Print, ParseLines, Cursor, Entered, Valid;
    if plan == [] {
      StartFollowed(t, keys, now);
    } else {
      var n := |plan| - 1;
      PlanFollowed(t, plan[..n], keys, now);
      assert plan == plan[..n] + [plan[n]];
      match plan[n]
      case Enter(p) => FollowEnter(t, plan[..n], p, keys, now);
      case Leave => FollowLeave(t, plan[..n], keys, now);
    }
  }

  lemma {:induction false} TextSplits(lines: seq<string>)
    requires NoBreaks(lines)
    ensures Split(SpecText(lines), '\n') == lines + [""]
    decreases |lines|
  {
    if lines == [] {
      assert lines + [""] == [""];
    } else {
      TextSplits(lines[1..]);
      assert SpecText(lines) == lines[0] + ['\n'] + SpecText(lines[1..]);
      SplitFirst(lines[0], SpecText(lines[1..]), '\n');
      assert [lines[0]] + (lines[1..] + [""]) == lines + [""];
    }
  }

  /** The end of the text is an empty line, which changes nothing. */
  lemma LastLine(t: Tree, w: map<Source, Path>, st: Parser, done: set<Path>, now: int)
    requires Matches(t, w, st, done) && st.current in t && KindOf(t[st.current]) == Dir && st.current in done
    ensures ParseLine(st, "", now) == Some(st)
  {
    hide LinksRead, WrittenRead, TreeRead, Clean, KindOf;
    DotsClean();
    AboveCurrent(t, st, done);
    assert Walk(st.tree, st.current, 0, [], Lookup, 0) == At(st.tree, st.current);
  }

  /** The spec round trip: parsing the printed tree gives its paths and equal nodes, and
      two paths are one file exactly when they were. */
  lemma SpecRoundTrip(t: Tree, plan: seq<Visit>, keys: KeyOrder, now: int)
    requires Specable(t) && Orders(keys) && Planned(t, plan) && Entered(plan) == t.Keys
    ensures var r := ParseFsSpec(SpecText(Print(t, plan, keys).lines), now);
      && r.Some? && SameTree(r.value, t)
      && (forall p :: p in t ==> Reads(r.value[p], t[p]))
      && (forall p, q :: p in t && q in t && Linky(t[p]) && Linky(t[q]) ==>
            (r.value[p] == r.value[q] <==> Origin(t[p]) == Origin(t[q])))
  {
    hide Specable, ParseLine, ParseLines, Print, Cursor, Entered;
    PlanFollowed(t, plan, keys, now);
    var w := Print(t, plan, keys);
    var st := ParseLines(w.lines, now).value;
    TextSplits(w.lines);
    RootEntered(t, plan);
    LastLine(t, w.written, st, t.Keys, now);
    ParseSnoc(w.lines, "", now);
    TreeSame(t, st);
    LinksSame(t, w.written, st);
  }

  lemma RootEntered(t: Tree, plan: seq<Visit>)
    requires Specable(t) && Entered(plan) == t.Keys
    ensures plan != []
  {
  }

  lemma TreeSame(t: Tree, st: Parser)
    requires TreeRead(t, st, t.Keys) && [] in t.Keys
    ensures SameTree(st.tree, t) && forall p :: p in t ==> p in st.tree && Reads(st.tree[p], t[p])
  {
    hide Valid;
    assert st.tree.Keys == t.Keys;
    forall p | p in t ensures SameNode(st.tree[p], t[p]) {
      assert Reads(st.tree[p], t[p]);
    }
  }

  lemma LinksSame(t: Tree, w: map<Source, Path>, st: Parser)
    requires Matches(t, w, st, t.Keys)
    ensures forall p, q :: p in t && q in t && Linky(t[p]) && Linky(t[q]) ==>
      p in st.tree && q in st.tree && (st.tree[p] == st.tree[q] <==> Origin(t[p]) == Origin(t[q]))
  {
    hide Linky, Reads, Valid, Origin;
  }
}
