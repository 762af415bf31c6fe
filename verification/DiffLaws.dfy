/** What follows from a tree being the difference of two others, and where the code
    departs from that. */
module DiffLaws {
  import opened FsTypes
  import opened PathWalk
  import opened Text
  import opened TreeDiff

  /** Whiteouts are exactly the topmost deleted paths under a directory of `b`. */
  lemma WhiteoutsExact(d: Tree, a: Tree, b: Tree, q: Path)
    requires Valid(a) && Valid(b) && IsDiff(d, a, b)
    ensures q in d && q !in b <==> Gone(a, b, q)
    ensures Gone(a, b, q) ==> d[q] == Removed
  {
    var core := Core(a, b);
    if q in d && q !in b {
      assert q in Cover(core + Relinks(a, b));
      var p :| p in core + Relinks(a, b) && q <= p;
      if q != p { PlacedAncestor(b, q, p); }
    }
    if Gone(a, b, q) {
      assert q in core;
      CoverMonotone(core, core + Relinks(a, b));
    }
  }

  /** Every directory has an explicit source with a modification time, and no
      directory has a content hash. */
  predicate ExplicitDirs(b: Tree) {
    forall p :: p in b && KindOf(b[p]) == Dir ==>
      !b[p].ParentDir? && Info(b[p]).attrs.mtime != ZERO_TIME && Hash(b[p]) == ""
  }

  /** Parents that are in the diff for a relinked path alone. */
  predicate Stray(a: Tree, b: Tree, q: Path) {
    q in Cover(Relinks(a, b)) && q !in Cover(Core(a, b)) + Relinks(a, b)
  }

  /** Diff is confluent: two runs agree at every path, whatever their orders and
      clocks; the times of stray default directories are the one exception. */
  lemma DiffConfluent(d: Tree, e: Tree, a: Tree, b: Tree)
    requires ExplicitDirs(b) && IsDiff(d, a, b) && IsDiff(e, a, b)
    ensures d.Keys == e.Keys
    ensures forall q :: q in d ==> SameNode(d[q], e[q]) || (Stray(a, b, q) && DefaultDir(d[q]) && DefaultDir(e[q]))
  {
    var known := Cover(Core(a, b)) + Relinks(a, b);
    forall q | q in d && !SameNode(d[q], e[q])
      ensures Stray(a, b, q) && DefaultDir(d[q]) && DefaultDir(e[q])
    {
      assert DiffNode(d[q], b, known, q) && DiffNode(e[q], b, known, q);
      if q in known { MirrorsAgree(d[q], e[q], b, q); }
      CoverUnion(Core(a, b), Relinks(a, b), q);
    }
  }

  lemma MirrorsAgree(s: Source, s': Source, b: Tree, q: Path)
    requires ExplicitDirs(b) && q in b && Mirrors(s, b[q]) && Mirrors(s', b[q])
    ensures SameNode(s, s') && SameNode(s, b[q])
  {
  }

  lemma CoverUnion(ps: set<Path>, rs: set<Path>, q: Path)
    ensures q in Cover(ps + rs) <==> q in Cover(ps) || q in Cover(rs)
  {
    if p :| p in ps && q <= p { assert p in ps + rs; }
    if p :| p in rs && q <= p { assert p in ps + rs; }
    if p :| p in ps + rs && q <= p { assert p in ps || p in rs; }
  }

  /** A path that shares its source with an added or changed one is in the diff, with
      that very source unless it is a directory. */
  lemma HardLinksComplete(d: Tree, a: Tree, b: Tree, p: Path, q: Path)
    requires IsDiff(d, a, b) && p in b && Changed(a, b, q) && b[p] == b[q]
    ensures p in d && Mirrors(d[p], b[p]) && (KindOf(b[p]) != Dir ==> d[p] == b[p])
  {
    assert q in Core(a, b);
    assert p in Core(a, b) + Relinks(a, b);
    CoverMonotone(Core(a, b), Core(a, b) + Relinks(a, b));
    CoverMonotone(Core(a, b), Core(a, b));
  }

  // ------------------------------------------------------------- the empty layer

  /** FsNode.Empty. */
  predicate IsEmpty(d: Tree) {
    [] in d && d[[]] == ParentDir
  }

  lemma CoreEmpty(a: Tree, b: Tree)
    requires Valid(a) && Valid(b)
    ensures Core(a, b) == {} <==> SameTree(a, b)
  {
    if Core(a, b) == {} {
      forall p | p in b
        ensures p in a && SameNode(a[p], b[p])
      {
        assert Changed(a, b, p) ==> p in Core(a, b);
      }
      forall p | p in a
        ensures p in b
      {
        SharedPath(a, b, p);
      }
    } else {
      var p :| p in Core(a, b);
    }
  }

  lemma {:induction false} SharedPath(a: Tree, b: Tree, p: Path)
    requires Valid(a) && Valid(b) && Core(a, b) == {} && p in a
    requires forall q :: q in b ==> q in a && SameNode(a[q], b[q])
    ensures p in b
    decreases |p|
  {
    if p != [] {
      SharedPath(a, b, Parent(p));
      assert Gone(a, b, p) ==> p in Core(a, b);
    }
  }

  /** The test for an empty layer gives the right answer in every run against `b`. */
  ghost predicate EmptyTestRight(b: Tree) {
    forall a, adds, dels, relinks, depth ::
      Fit(a, b) && IsRun(a, b, adds, dels, relinks) ==> EmptyTestAgrees(a, b, DiffRun(a, b, adds, dels, relinks, depth))
  }

  predicate EmptyTestAgrees(a: Tree, b: Tree, r: Outcome) {
    r.Done? && (IsEmpty(r.tree) <==> SameTree(a, b))
  }

  lemma EmptyTestWithRoot(d: Tree, a: Tree, b: Tree)
    requires Valid(a) && Valid(b) && IsDiff(d, a, b) && b[[]] != ParentDir
    ensures IsEmpty(d) <==> SameTree(a, b)
  {
    CoreEmpty(a, b);
    assert [] in Cover(Core(a, b)) && [] in Cover(Core(a, b) + Relinks(a, b));
  }

  lemma {:induction false} Enumeration(ks: set<Path>) returns (steps: seq<Step>)
    ensures Paths(steps) == ks
  {
    if ks == {} {
      steps := [];
    } else {
      var k :| k in ks;
      steps := Enumeration(ks - {k});
      PathsAfter(steps, Step(k, 0));
      steps := steps + [Step(k, 0)];
    }
  }

  /** A root with its own owner, unlike any implicit root. */
  const OTHER_ROOT: Tree := map[[] := Src(0, false, NodeInfo(Dir, DIR_ATTRS.(uid := 1)), "")]

  lemma RootLast(b: Tree, others: seq<Step>)
    requires Valid(b) && Named(b) && b[[]] == ParentDir
    ensures var r := AddAll(OTHER_ROOT, b, others + [Step([], 0)], 0);
      r.Done? && IsEmpty(r.tree)
  {
    var a, adds := OTHER_ROOT, others + [Step([], 0)];
    AddAllHolds(a, b, others, 0);
    var d := AddAll(a, b, others, 0).tree;
    HoldsPlain(d, b, ChangedOf(a, b, others), []);
    PlainAdd(d, [], ParentDir, 0, 0);
    assert adds[..|adds| - 1] == others;
    assert AddStep(d, a, b, Step([], 0), 0) == Done(SetSource(Opened(d, [], [], 0), [], ParentDir));
  }

  lemma OtherRootFits(b: Tree)
    requires Valid(b) && Named(b) && b[[]] == ParentDir
    ensures Fit(OTHER_ROOT, b) && Relinks(OTHER_ROOT, b) == {} && !SameTree(OTHER_ROOT, b)
  {
    forall k | k in b
      ensures Changed(OTHER_ROOT, b, k)
    {
    }
    assert !SameNode(OTHER_ROOT[[]], b[[]]);
  }

  /** With an implicit root in `b`, a run that visits the root last looks empty. */
  lemma EmptyTestFooled(b: Tree) returns (adds: seq<Step>, dels: seq<Step>)
    requires Valid(b) && Named(b) && b[[]] == ParentDir
    ensures Fit(OTHER_ROOT, b) && IsRun(OTHER_ROOT, b, adds, dels, [])
    ensures !EmptyTestAgrees(OTHER_ROOT, b, DiffRun(OTHER_ROOT, b, adds, dels, [], 0))
  {
    var root := Step([], 0);
    var others := Enumeration(b.Keys - {[]});
    PathsAfter(others, root);
    PathsAfter([], root);
    adds, dels := others + [root], [] + [root];
    OtherRootFits(b);
    RootLast(b, others);
    assert dels[..0] == [];
    assert DelAll(AddAll(OTHER_ROOT, b, adds, 0).tree, b, dels, 0) == AddAll(OTHER_ROOT, b, adds, 0);
  }

  /** Empty() can be trusted exactly when the root of `b` is explicit. */
  lemma EmptyTestIff(b: Tree)
    requires Valid(b) && Named(b)
    ensures EmptyTestRight(b) <==> b[[]] != ParentDir
  {
    if b[[]] != ParentDir {
      forall a, adds, dels, relinks, depth: nat | Fit(a, b) && IsRun(a, b, adds, dels, relinks)
        ensures EmptyTestAgrees(a, b, DiffRun(a, b, adds, dels, relinks, depth))
      {
        DiffExact(a, b, adds, dels, relinks, depth);
        EmptyTestWithRoot(DiffRun(a, b, adds, dels, relinks, depth).tree, a, b);
      }
    } else {
      var adds, dels := EmptyTestFooled(b);
    }
  }

  // ------------------------------------------------- a directory becomes a symlink

  lemma CleanName(n: string)
    requires ProperName(n)
    ensures Clean(n) == Route(false, 0, [n])
  {
    SplitPlain(n, '/');
    assert n[0] in n;
    assert [n][1..] == [] && [] + [n] == [n];
    assert CleanSegments(Route(false, 0, []), [n]) == CleanSegments(Route(false, 0, [n]), []);
  }

  function Plain(ref: nat, kind: Kind, link: string): Source {
    Src(ref, false, NodeInfo(kind, NO_ATTRS.(mtime := 1, symlink := link)), "")
  }

  const ROOT := Plain(0, Dir, "")
  const DIRECTORY := Plain(1, Dir, "")
  const CONTENT := Plain(2, File, "")
  const OTHER := Plain(3, File, "")
  const LINK := Plain(4, Symlink, "e")

  const D: Path := ["d"]
  const E: Path := ["e"]
  const DX: Path := ["d", "x"]
  const EX: Path := ["e", "x"]

  /** The directory /d with an entry, and the unrelated file /e ... */
  const WITH_DIR: Tree := map[[] := ROOT, D := DIRECTORY, DX := CONTENT, E := OTHER]
  /** ... become a symlink from /d to e and the same file. */
  const WITH_LINK: Tree := map[[] := ROOT, D := LINK, E := OTHER]

  /** A diff tree that has the symlink and nothing at its target. */
  predicate LinkOnly(d: Tree) {
    [] in d && KindOf(d[[]]) == Dir && D in d && d[D] == LINK && forall q :: q in d ==> !(E <= q)
  }

  /** Where the whiteout of /d/x ends up: below the target of the symlink. */
  lemma WalkThroughLink(d: Tree, now: int, depth: nat)
    requires LinkOnly(d) && depth > 0
    ensures Walk(d, [], 0, D, MkdirsUpper(now), depth) ==
            At(d[[] := Reopened(d, [], now)][E := NewDir(DIR_ATTRS, now)], E)
  {
    var w := MkdirsUpper(now);
    var d1 := d[[] := Reopened(d, [], now)];
    assert D == [] + [D[0]] && E == [] + [E[0]] && D[1..] == [] && E[1..] == [];
    assert Walk(d, [], 0, D, w, depth) == Onward(d, [], 0, D, w, depth);
    assert Onward(d, [], 0, D, w, depth) == Walk(d1, D, 0, [], w, depth);
    CleanName("e");
    assert Resolve(d1, D, w, depth) == Walk(d1, [], 0, E, w, depth - 1);
    var d2 := d1[E := NewDir(DIR_ATTRS, now)];
    assert Walk(d1, [], 0, E, w, depth - 1) == Onward(d1, [], 0, E, w, depth - 1);
    assert Visit(d1, [], w) == d1;
    assert Onward(d1, [], 0, E, w, depth - 1) == Walk(d2, E, 0, [], w, depth - 1);
    assert Walk(d2, E, 0, [], w, depth - 1) == At(d2, E);
    assert Walk(d1, D, 0, [], w, depth) == Onward(d2, E, 0, [], w, depth) == At(d2, E);
  }

  /** applyParents then gives the target the symlink's own source. */
  lemma LinkCopied(d: Tree, b: Tree, now: int)
    requires LinkOnly(d) && d[[]].FreshDir? && [] in b && b[[]] == ROOT && D in b && b[D] == LINK
    ensures ApplyParents(d[E := NewDir(DIR_ATTRS, now)][EX := Removed], EX, b, DX) == Done(d[[] := ROOT][E := LINK])
  {
    assert Parent(DX) == D && Parent(EX) == E && Parent(E) == [] && Parent(D) == [];
    assert E < EX;
    var d0 := d[E := NewDir(DIR_ATTRS, now)][EX := Removed];
    var d1 := SetSource(d0, E, LINK);
    assert d1 == d[E := LINK];
    assert ApplyParents(d0, EX, b, DX) == ApplyParents(d1, E, b, D);
    var d2 := SetSource(d1, [], ROOT);
    assert d2 == d[[] := ROOT][E := LINK];
    assert ApplyParents(d1, E, b, D) == ApplyParents(d2, [], b, []);
  }

  lemma WhiteoutThroughLink(d: Tree, b: Tree, now: int, depth: nat)
    requires LinkOnly(d) && depth > 0 && [] in b && b[[]] == ROOT && D in b && b[D] == LINK
    ensures AddNew(d, b, DX, Removed, now, depth) == Done(d[[] := ROOT][E := LINK])
  {
    WalkThroughLink(d, now, depth);
    assert Parent(DX) == D && E + [DX[|DX| - 1]] == EX;
    var d1 := d[[] := Reopened(d, [], now)];
    var d2 := d1[E := NewDir(DIR_ATTRS, now)];
    assert SetSource(d2, EX, Removed) == d2[EX := Removed];
    assert Add(d, DX, Removed, MkdirsUpper(now), depth) == At(d2[EX := Removed], EX);
    LinkCopied(d1, b, now);
    assert d1[[] := ROOT] == d[[] := ROOT];
  }

  lemma OpenedRoot(d: Tree, now: int)
    requires [] in d
    ensures Opened(d, [], [], now) == d[[] := Reopened(d, [], now)]
  {
    var one := Opened(d, [], [], now);
    forall q
      ensures q in one <==> q in d
      ensures q in d ==> one[q] == d[[] := Reopened(d, [], now)][q]
    {
      if q <= [] { assert q == []; }
    }
  }

  lemma LeafSet(d: Tree, k: Path, src: Source)
    requires forall q :: q in d ==> !(k < q)
    ensures SetSource(d, k, src) == d[k := src]
  {
  }

  lemma RootEntryAdd(d: Tree, k: Path, src: Source, now: int, depth: nat)
    requires |k| == 1 && [] in d && KindOf(d[[]]) == Dir && forall q :: q in d ==> !(k < q)
    ensures Add(d, k, src, MkdirsUpper(now), depth) == At(d[[] := Reopened(d, [], now)][k := src], k)
  {
    assert Up(k) == [];
    PlainAdd(d, k, src, now, depth);
    OpenedRoot(d, now);
    hide Add, Opened, SetSource, Reopened;
    LeafSet(d[[] := Reopened(d, [], now)], k, src);
  }

  /** An addition below the root gives the root its own source. */
  lemma RootEntryAdded(d: Tree, b: Tree, k: Path, src: Source, now: int, depth: nat)
    requires |k| == 1 && [] in d && KindOf(d[[]]) == Dir && [] in b && b[[]] == ROOT && forall q :: q in d ==> !(k < q)
    ensures AddNew(d, b, k, src, now, depth) == Done(d[[] := ROOT][k := src])
  {
    RootEntryAdd(d, k, src, now, depth);
    var two := d[[] := Reopened(d, [], now)][k := src];
    hide Add;
    assert Parent(k) == [];
    var three := SetSource(two, [], ROOT);
    assert three == d[[] := ROOT][k := src];
    assert ApplyParents(two, k, b, k) == ApplyParents(three, [], b, []);
  }

  lemma AddAllSnoc(a: Tree, b: Tree, d: Tree, steps: seq<Step>, s: Step, depth: nat)
    requires AddAll(a, b, steps, depth) == Done(d)
    ensures AddAll(a, b, steps + [s], depth) == AddStep(d, a, b, s, depth)
  {
    assert (steps + [s])[..|steps|] == steps;
  }

  lemma DelAllSnoc(b: Tree, d: Tree, d': Tree, steps: seq<Step>, s: Step, depth: nat)
    requires DelAll(d, b, steps, depth) == Done(d')
    ensures DelAll(d, b, steps + [s], depth) == DelStep(d', b, s, depth)
  {
    assert (steps + [s])[..|steps|] == steps;
  }

  lemma LinkAdds(now: int, depth: nat)
    ensures AddAll(WITH_DIR, WITH_LINK, [Step([], now)] + [Step(E, now)] + [Step(D, now)], depth) ==
            Done(map[[] := ROOT, D := LINK])
  {
    var a, b := WITH_DIR, WITH_LINK;
    var r, e, d := Step([], now), Step(E, now), Step(D, now);
    assert Changed(a, b, D) && !Changed(a, b, E) && !Changed(a, b, []);
    hide Changed, AddNew;
    assert [] + [r] == [r];
    AddAllSnoc(a, b, NEW_FS, [], r, depth);
    AddAllSnoc(a, b, NEW_FS, [r], e, depth);
    AddAllSnoc(a, b, NEW_FS, [r] + [e], d, depth);
    RootEntryAdded(NEW_FS, b, D, LINK, now, depth);
    assert NEW_FS[[] := ROOT][D := LINK] == map[[] := ROOT, D := LINK];
  }

  lemma LinkDels(d1: Tree, now: int, depth: nat)
    requires depth > 0 && d1 == map[[] := ROOT, D := LINK]
    ensures DelAll(d1, WITH_LINK, [Step([], now)] + [Step(D, now)] + [Step(E, now)] + [Step(DX, now)], depth) ==
            Done(map[[] := ROOT, D := LINK, E := LINK])
  {
    var b := WITH_LINK;
    var r, e, d, x := Step([], now), Step(E, now), Step(D, now), Step(DX, now);
    hide AddNew;
    assert [] + [r] == [r];
    DelAllSnoc(b, d1, d1, [], r, depth);
    DelAllSnoc(b, d1, d1, [r], d, depth);
    DelAllSnoc(b, d1, d1, [r] + [d], e, depth);
    DelAllSnoc(b, d1, d1, [r] + [d] + [e], x, depth);
    assert Parent(DX) == D && DX !in b && D in b;
    assert D[0] != E[0] && !(E <= D);
    WhiteoutThroughLink(d1, b, now, depth);
    assert d1[[] := ROOT][E := LINK] == map[[] := ROOT, D := LINK, E := LINK];
  }

  /** The file /e, which is the same in both trees, is a symlink in the diff. */
  lemma DirToLinkOverwrites(now: int, depth: nat)
    requires depth > 0
    ensures var adds := [Step([], now)] + [Step(E, now)] + [Step(D, now)];
      var dels := [Step([], now)] + [Step(D, now)] + [Step(E, now)] + [Step(DX, now)];
      && SameNode(WITH_DIR[E], WITH_LINK[E])
      && DiffRun(WITH_DIR, WITH_LINK, adds, dels, [], depth) == Done(map[[] := ROOT, D := LINK, E := LINK])
  {
    hide AddAll, DelAll;
    LinkAdds(now, depth);
    LinkDels(map[[] := ROOT, D := LINK], now, depth);
  }
}
