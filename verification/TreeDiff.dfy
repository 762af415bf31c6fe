/** The difference of two file system trees as the tree of a new image layer. */
module TreeDiff {
  import opened FsTypes
  import opened PathWalk

  datatype Outcome = Done(tree: Tree) | Error(why: Failure)

  /** One iteration of a loop over a Go map: the key and the clock at that time. */
  datatype Step = Step(path: Path, now: int)

  // -------------------------------------------------------------- the algorithm

  /** FsNode.applyParents on the parents of the added node and of its counterpart:
      copies sources upwards and stops at the first parent that has its own already. */
  function ApplyParents(d: Tree, added: Path, b: Tree, k: Path): Outcome
    decreases |added|
  {
    if added == [] then Done(d)
    else if k == [] || Parent(added) !in d || Parent(k) !in b then Error(NilParent)
    else if d[Parent(added)] == b[Parent(k)] then Done(d)
    else ApplyParents(SetSource(d, Parent(added), b[Parent(k)]), Parent(added), b, Parent(k))
  }

  function AddNew(d: Tree, b: Tree, k: Path, src: Source, now: int, depth: nat): Outcome {
    if [] !in d then Error(NilParent)
    else
      var r := Add(d, k, src, MkdirsUpper(now), depth);
      if r.Failed? then Error(r.why) else ApplyParents(r.tree, r.path, b, k)
  }

  /** The node at `k` is new in `b` or differs from the one in `a`. */
  predicate Changed(a: Tree, b: Tree, k: Path) {
    k in b && (k !in a || !SameNode(b[k], a[k]))
  }

  function AddStep(d: Tree, a: Tree, b: Tree, s: Step, depth: nat): Outcome {
    if Changed(a, b, s.path) then AddNew(d, b, s.path, b[s.path], s.now, depth) else Done(d)
  }

  function DelStep(d: Tree, b: Tree, s: Step, depth: nat): Outcome {
    if s.path !in b && s.path != [] && Parent(s.path) in b
    then AddNew(d, b, s.path, Removed, s.now, depth)
    else Done(d)
  }

  function RelinkStep(d: Tree, b: Tree, s: Step, depth: nat): Outcome {
    if [] !in d || s.path !in b then Error(NilParent)
    else
      var r := Add(d, s.path, b[s.path], MkdirsUpper(s.now), depth);
      if r.Failed? then Error(r.why) else Done(r.tree)
  }

  function AddAll(a: Tree, b: Tree, steps: seq<Step>, depth: nat): Outcome {
    if steps == [] then Done(NEW_FS)
    else
      var r := AddAll(a, b, steps[..|steps| - 1], depth);
      if r.Error? then r else AddStep(r.tree, a, b, steps[|steps| - 1], depth)
  }

  function DelAll(d: Tree, b: Tree, steps: seq<Step>, depth: nat): Outcome {
    if steps == [] then Done(d)
    else
      var r := DelAll(d, b, steps[..|steps| - 1], depth);
      if r.Error? then r else DelStep(r.tree, b, steps[|steps| - 1], depth)
  }

  function RelinkAll(d: Tree, b: Tree, steps: seq<Step>, depth: nat): Outcome {
    if steps == [] then Done(d)
    else
      var r := RelinkAll(d, b, steps[..|steps| - 1], depth);
      if r.Error? then r else RelinkStep(r.tree, b, steps[|steps| - 1], depth)
  }

  /** A run of FsNode.Diff: the two maps are iterated in the orders of `adds` and
      `dels`, then the unchanged hard links of added nodes are added again. */
  function DiffRun(a: Tree, b: Tree, adds: seq<Step>, dels: seq<Step>, relinks: seq<Step>, depth: nat): Outcome {
    var added := AddAll(a, b, adds, depth);
    if added.Error? then added
    else
      var deleted := DelAll(added.tree, b, dels, depth);
      if deleted.Error? then deleted else RelinkAll(deleted.tree, b, relinks, depth)
  }

  function Paths(steps: seq<Step>): set<Path> {
    set i | 0 <= i < |steps| :: steps[i].path
  }

  // ------------------------------------------------------------ what a diff is

  /** Paths of `a` that have no node in `b` although their parent is a directory there. */
  predicate Gone(a: Tree, b: Tree, k: Path) {
    k in a && k !in b && k != [] && Parent(k) in b && KindOf(b[Parent(k)]) == Dir
  }

  /** Unchanged paths that share their source with an added or changed one. */
  predicate Relinked(a: Tree, b: Tree, k: Path) {
    k in b && !Changed(a, b, k) && exists q :: q in b && Changed(a, b, q) && b[q] == b[k]
  }

  function Core(a: Tree, b: Tree): set<Path> {
    (set k | k in b && Changed(a, b, k)) + (set k | k in a && Gone(a, b, k))
  }

  function Relinks(a: Tree, b: Tree): set<Path> {
    set k | k in b && Relinked(a, b, k)
  }

  /** The root and every prefix of the given paths. */
  function Cover(ps: set<Path>): (c: set<Path>)
    ensures forall q :: q in c <==> q == [] || exists p :: p in ps && q <= p
  {
    var c := {[]} + set p, q | p in ps && q in Prefixes(p) :: q;
    assert forall p, q :: p in ps && q in Prefixes(p) ==> q in c;
    assert forall p, q :: p in ps && q <= p ==> q in Prefixes(p);
    c
  }

  /** `s` is the source `o`, or a new directory with the attributes of `o`. */
  predicate Mirrors(s: Source, o: Source) {
    s == o ||
    (KindOf(o) == Dir && s.FreshDir? &&
     (s.attrs == Info(o).attrs ||
      (Info(o).attrs.mtime == ZERO_TIME && s.attrs.(mtime := ZERO_TIME) == Info(o).attrs)))
  }

  predicate Good(d: Tree, b: Tree, q: Path) {
    q in d && if q in b then Mirrors(d[q], b[q]) else d[q] == Removed
  }

  /** The sources of an input tree were not allocated by the running diff. */
  predicate Named(b: Tree) {
    forall p :: p in b ==> !b[p].FreshDir?
  }

  /** An entry that is lost with its directory, which is a symlink in `b`. */
  predicate UnderLink(a: Tree, b: Tree, k: Path) {
    k in a && k !in b && k != [] && Parent(k) in b && KindOf(b[Parent(k)]) == Symlink
  }

  /** No directory of `a` that loses an entry is a symlink in `b`. */
  predicate NoDirToLink(a: Tree, b: Tree) {
    forall k :: k in a ==> !UnderLink(a, b, k)
  }

  /** Two trees that Diff handles as it should. */
  predicate Fit(a: Tree, b: Tree) {
    Valid(a) && Valid(b) && Named(b) && NoDirToLink(a, b)
  }

  predicate Placed(b: Tree, p: Path) {
    p in b || (p != [] && Parent(p) in b && KindOf(b[Parent(p)]) == Dir)
  }

  /** The diff tree after the nodes of `ps` were added with their parents. */
  predicate Holds(d: Tree, b: Tree, ps: set<Path>) {
    && (forall p :: p in ps ==> Placed(b, p))
    && d.Keys == Cover(ps)
    && if ps == {} then d == NEW_FS else forall q :: q in d ==> Good(d, b, q)
  }

  // ---------------------------------------------------------------- one addition

  lemma PlacedAncestor(b: Tree, q: Path, p: Path)
    requires Valid(b) && Placed(b, p) && q < p
    ensures q in b && KindOf(b[q]) == Dir
  {
    assert q <= Parent(p);
    if p in b {
      AncestorIsDir(b, q, p);
    } else if q != Parent(p) {
      AncestorIsDir(b, q, Parent(p));
    }
  }

  predicate GoodAbove(d: Tree, b: Tree, q: Path) {
    forall q' :: q' in d && q' < q ==> Good(d, b, q')
  }

  /** Stopping at the first parent that has its own source already is enough when
      everything above such a parent is in place. */
  lemma {:induction false} ApplyParentsMirrors(d: Tree, b: Tree, c: Path)
    requires forall q :: q < c ==> q in d && q in b && KindOf(b[q]) == Dir
    requires forall q :: q in d && !(q < c) ==> Good(d, b, q)
    requires forall q :: q in d && q < c && d[q] == b[q] ==> GoodAbove(d, b, q)
    ensures var r := ApplyParents(d, c, b, c);
      r.Done? && r.tree.Keys == d.Keys && forall q :: q in d ==> Good(r.tree, b, q)
    decreases |c|
  {
    if c != [] {
      var f := Parent(c);
      assert f < c;
      assert forall q :: q in d && q < c ==> q == f || q < f;
      if d[f] != b[f] {
        var d' := SetSource(d, f, b[f]);
        assert d' == d[f := b[f]];
        forall q | q in d' && q < f && d'[q] == b[q]
          ensures GoodAbove(d', b, q)
        {
          assert GoodAbove(d, b, q);
        }
        ApplyParentsMirrors(d', b, f);
      } else {
        assert GoodAbove(d, b, f);
      }
    }
  }

  /** The tree after addUpper of a placed path, before applyParents. */
  function Placing(d: Tree, b: Tree, k: Path, now: int): Tree {
    SetSource(Opened(d, [], Up(k), now), k, if k in b then b[k] else Removed)
  }

  lemma HoldsPlain(d: Tree, b: Tree, ps: set<Path>, k: Path)
    requires Valid(b) && Holds(d, b, ps) && Placed(b, k)
    ensures [] in d && PlainTo(d, Up(k))
  {
    forall q | q in d && (q == [] || q < k)
      ensures KindOf(d[q]) == Dir
    {
      if q < k { PlacedAncestor(b, q, k); }
    }
  }

  lemma CoverAdd(ps: set<Path>, k: Path)
    ensures Cover(ps + {k}) == Cover(ps) + Prefixes(k)
  {
    var c := Cover(ps + {k});
    forall q
      ensures q in c <==> q in Cover(ps) + Prefixes(k)
    {
      if q <= k { assert k in ps + {k}; }
      if p :| p in ps && q <= p { assert p in ps + {k}; }
    }
  }

  lemma PlacingKeys(d: Tree, b: Tree, ps: set<Path>, k: Path, now: int)
    requires Valid(b) && Holds(d, b, ps) && Placed(b, k)
    ensures Placing(d, b, k, now).Keys == Cover(ps + {k})
  {
    forall q | q in d && k < q
      ensures k in b && KindOf(b[k]) == Dir
    {
      var p :| p in ps && q <= p;
      PlacedAncestor(b, k, p);
    }
    CoverAdd(ps, k);
    PlainAddKeys(d, k, if k in b then b[k] else Removed, now);
  }

  lemma ReopenedMirrors(d: Tree, b: Tree, q: Path, now: int)
    requires q in b && Good(d, b, q) && KindOf(b[q]) == Dir
    ensures Mirrors(Reopened(d, q, now), b[q])
  {
  }

  /** Only the ancestors of the added path can differ from their counterparts, and
      one that has its counterpart's source has only mirrors above it. */
  lemma PlacingGood(d: Tree, b: Tree, ps: set<Path>, k: Path, now: int, q: Path)
    requires Valid(b) && Named(b) && Holds(d, b, ps) && Placed(b, k)
    requires q in Placing(d, b, k, now)
    ensures var e := Placing(d, b, k, now);
      && (!(q < k) ==> Good(e, b, q))
      && (q < k && q in d && ps != {} ==> Good(e, b, q))
      && (q < k && (q !in d || ps == {}) ==> e[q].FreshDir?)
  {
    if q < k {
      PlacedAncestor(b, q, k);
      if q in d && ps != {} { ReopenedMirrors(d, b, q, now); }
    }
  }

  /** The tree applyParents starts from. */
  lemma PlacingReady(d: Tree, b: Tree, ps: set<Path>, k: Path, now: int)
    requires Valid(b) && Named(b) && Holds(d, b, ps) && Placed(b, k)
    ensures var e := Placing(d, b, k, now);
      && (forall q :: q < k ==> q in e && q in b && KindOf(b[q]) == Dir)
      && (forall q :: q in e && !(q < k) ==> Good(e, b, q))
      && (forall q :: q in e && q < k && e[q] == b[q] ==> GoodAbove(e, b, q))
  {
    PlacingKeys(d, b, ps, k, now);
    var e := Placing(d, b, k, now);
    forall q | q in e
      ensures !(q < k) ==> Good(e, b, q)
      ensures q < k && q in d && ps != {} ==> Good(e, b, q)
      ensures q < k && (q !in d || ps == {}) ==> e[q].FreshDir?
    {
      PlacingGood(d, b, ps, k, now, q);
    }
    forall q | q < k
      ensures q in e && q in b && KindOf(b[q]) == Dir
    {
      PlacedAncestor(b, q, k);
    }
    forall q | q in e && q < k && e[q] == b[q]
      ensures GoodAbove(e, b, q)
    {
      assert q in d;
    }
  }

  /** Adding one placed node keeps every node of the diff a mirror of its counterpart. */
  lemma AddPlaced(d: Tree, b: Tree, ps: set<Path>, k: Path, now: int, depth: nat)
    requires Valid(b) && Named(b) && Holds(d, b, ps) && Placed(b, k)
    ensures var r := AddNew(d, b, k, if k in b then b[k] else Removed, now, depth);
      r.Done? && Holds(r.tree, b, ps + {k})
  {
    var e := Placing(d, b, k, now);
    assert AddNew(d, b, k, if k in b then b[k] else Removed, now, depth) == ApplyParents(e, k, b, k) by {
      HoldsPlain(d, b, ps, k);
      PlainAdd(d, k, if k in b then b[k] else Removed, now, depth);
    }
    PlacingReady(d, b, ps, k, now);
    ApplyParentsMirrors(e, b, k);
    PlacingKeys(d, b, ps, k, now);
  }

  /** A node that is no directory in `b` is a leaf of the diff. */
  lemma FileIsLeaf(d: Tree, b: Tree, ps: set<Path>, f: Path, q: Path)
    requires Valid(b) && Holds(d, b, ps) && f in b && KindOf(b[f]) != Dir && q in d
    ensures !(f < q)
  {
    if f < q {
      var p :| p in ps && q <= p;
      PlacedAncestor(b, f, p);
    }
  }

  lemma FileInDiff(d: Tree, b: Tree, ps: set<Path>, f: Path)
    requires Valid(b) && Holds(d, b, ps) && f in ps && f in b && KindOf(b[f]) != Dir
    ensures f in d && d[f] == b[f]
    ensures forall q :: q in d ==> !(f < q)
    ensures forall q :: q < f ==> q in d && q in b && KindOf(b[q]) == Dir && KindOf(d[q]) == Dir
  {
    forall q | q in d
      ensures !(f < q)
    {
      FileIsLeaf(d, b, ps, f, q);
    }
    forall q | q < f
      ensures q in d && q in b && KindOf(b[q]) == Dir && KindOf(d[q]) == Dir
    {
      PlacedAncestor(b, q, f);
      assert q in d && Good(d, b, q);
    }
    assert Good(d, b, f);
  }

  /** A whiteout below a node that is a file in `b` leaves no trace: the walk turns
      the file into a directory, and applyParents turns it back without entries. */
  lemma WhiteoutUnderFile(d: Tree, b: Tree, ps: set<Path>, k: Path, now: int, depth: nat)
    requires Valid(b) && Named(b) && Holds(d, b, ps)
    requires k !in b && k != [] && Parent(k) in ps && Parent(k) in b
    requires KindOf(b[Parent(k)]) != Dir && KindOf(b[Parent(k)]) != Symlink
    ensures var r := AddNew(d, b, k, Removed, now, depth);
      r.Done? && Holds(r.tree, b, ps)
  {
    var f := Parent(k);
    FileInDiff(d, b, ps, f);
    assert forall q :: q in d && q <= f ==> q == f || q < f;
    FileReturns(d, b, k, now, depth);
    FileRestored(d, b, k, now);
    ApplyParentsMirrors(SetSource(SetSource(Opened(d, [], f, now), k, Removed), f, b[f]), b, f);
  }

  lemma FileReturns(d: Tree, b: Tree, k: Path, now: int, depth: nat)
    requires Named(b) && k != [] && [] in d && Parent(k) in d && Parent(k) in b && PlainTo(d, Parent(k))
    requires KindOf(d[Parent(k)]) != Dir
    ensures var f := Parent(k);
      AddNew(d, b, k, Removed, now, depth) ==
      ApplyParents(SetSource(SetSource(Opened(d, [], f, now), k, Removed), f, b[f]), f, b, f)
  {
    var f := Parent(k);
    PlainAdd(d, k, Removed, now, depth);
    var e := SetSource(Opened(d, [], f, now), k, Removed);
    assert f < k && f in e;
    assert e[f] == NewDir(DIR_ATTRS, now);
  }

  lemma FileRestored(d: Tree, b: Tree, k: Path, now: int)
    requires k != [] && Parent(k) in d && Parent(k) in b && KindOf(b[Parent(k)]) != Dir
    requires forall q :: q in d ==> !(Parent(k) < q)
    requires forall q :: q in d ==> Good(d, b, q)
    requires forall q :: q < Parent(k) ==> q in d && q in b && KindOf(b[q]) == Dir
    ensures var f := Parent(k);
      var e' := SetSource(SetSource(Opened(d, [], f, now), k, Removed), f, b[f]);
      e'.Keys == d.Keys && forall q :: q in d ==> Good(e', b, q)
  {
    var f := Parent(k);
    var e := SetSource(Opened(d, [], f, now), k, Removed);
    var e' := SetSource(e, f, b[f]);
    forall q
      ensures q in e' <==> q in d
      ensures q in d ==> Good(e', b, q)
    {
      if q <= f && q != f { ReopenedMirrors(d, b, q, now); }
      assert q in e ==> q in d || q == k;
      assert f < k;
    }
  }

  // -------------------------------------------------------------- the three loops

  /** The changed paths among the keys iterated so far. */
  function ChangedOf(a: Tree, b: Tree, steps: seq<Step>): set<Path> {
    if steps == [] then {}
    else
      var s := steps[|steps| - 1];
      ChangedOf(a, b, steps[..|steps| - 1]) + if Changed(a, b, s.path) then {s.path} else {}
  }

  function GoneOf(a: Tree, b: Tree, steps: seq<Step>): set<Path> {
    if steps == [] then {}
    else
      var s := steps[|steps| - 1];
      GoneOf(a, b, steps[..|steps| - 1]) + if Gone(a, b, s.path) then {s.path} else {}
  }

  lemma {:induction false} ChangedOfPaths(a: Tree, b: Tree, steps: seq<Step>)
    ensures forall k :: k in ChangedOf(a, b, steps) <==> k in Paths(steps) && Changed(a, b, k)
    ensures forall k :: k in GoneOf(a, b, steps) <==> k in Paths(steps) && Gone(a, b, k)
    decreases |steps|
  {
    if steps != [] {
      ChangedOfPaths(a, b, steps[..|steps| - 1]);
      PathsSnoc(steps);
    }
  }

  lemma PathsSnoc(steps: seq<Step>)
    requires steps != []
    ensures Paths(steps) == Paths(steps[..|steps| - 1]) + {steps[|steps| - 1].path}
  {
    var n := |steps| - 1;
    forall p | p in Paths(steps)
      ensures p in Paths(steps[..n]) || p == steps[n].path
    {
      var i :| 0 <= i < |steps| && steps[i].path == p;
      if i < n { assert steps[..n][i].path == p; }
    }
    forall p | p in Paths(steps[..n])
      ensures p in Paths(steps)
    {
      var i :| 0 <= i < n && steps[..n][i].path == p;
      assert steps[i].path == p;
    }
    assert steps[n].path in Paths(steps);
  }

  lemma PathsNonEmpty(steps: seq<Step>)
    ensures steps != [] ==> Paths(steps) != {}
  {
    if steps != [] { assert steps[0].path in Paths(steps); }
  }

  /** In every order, the first loop adds exactly the new and the changed nodes. */
  lemma {:induction false} AddAllHolds(a: Tree, b: Tree, steps: seq<Step>, depth: nat)
    requires Valid(b) && Named(b)
    ensures var r := AddAll(a, b, steps, depth);
      r.Done? && Holds(r.tree, b, ChangedOf(a, b, steps))
    decreases |steps|
  {
    if steps != [] {
      var n := |steps| - 1;
      var s := steps[n];
      AddAllHolds(a, b, steps[..n], depth);
      if Changed(a, b, s.path) {
        AddPlaced(AddAll(a, b, steps[..n], depth).tree, b, ChangedOf(a, b, steps[..n]), s.path, s.now, depth);
      } else {
        assert ChangedOf(a, b, steps) == ChangedOf(a, b, steps[..n]);
      }
    }
  }

  /** In every order, the second loop adds a whiteout for exactly the topmost deleted
      paths under a directory of `b`, as long as it meets none under a symlink. */
  lemma {:induction false} DelAllHolds(a: Tree, b: Tree, d: Tree, ps: set<Path>, steps: seq<Step>, depth: nat)
    requires Valid(a) && Valid(b) && Named(b)
    requires Holds(d, b, ps) && forall k :: Changed(a, b, k) ==> k in ps
    requires forall i :: 0 <= i < |steps| ==> steps[i].path in a && !UnderLink(a, b, steps[i].path)
    ensures var r := DelAll(d, b, steps, depth);
      r.Done? && Holds(r.tree, b, ps + GoneOf(a, b, steps))
    decreases |steps|
  {
    if steps == [] {
      assert ps + GoneOf(a, b, steps) == ps;
    } else {
      var n := |steps| - 1;
      DelAllHolds(a, b, d, ps, steps[..n], depth);
      var before := ps + GoneOf(a, b, steps[..n]);
      assert ps + GoneOf(a, b, steps) == before + if Gone(a, b, steps[n].path) then {steps[n].path} else {};
      DelStepHolds(a, b, DelAll(d, b, steps[..n], depth).tree, before, steps[n], depth);
    }
  }

  lemma DelStepHolds(a: Tree, b: Tree, d: Tree, ps: set<Path>, s: Step, depth: nat)
    requires Valid(a) && Valid(b) && Named(b)
    requires Holds(d, b, ps) && forall k :: Changed(a, b, k) ==> k in ps
    requires s.path in a && !UnderLink(a, b, s.path)
    ensures var r := DelStep(d, b, s, depth);
      r.Done? && Holds(r.tree, b, ps + if Gone(a, b, s.path) then {s.path} else {})
  {
    var k := s.path;
    if Gone(a, b, k) {
      AddPlaced(d, b, ps, k, s.now, depth);
    } else {
      assert ps + {} == ps;
      if k !in b && Parent(k) in b {
        assert Changed(a, b, Parent(k));
        WhiteoutUnderFile(d, b, ps, k, s.now, depth);
      }
    }
  }

  predicate DefaultDir(s: Source) {
    s.FreshDir? && s.attrs.(mtime := ZERO_TIME) == DIR_ATTRS
  }

  /** A node of the diff after unchanged hard links were added again: a parent that
      was not part of it before is a directory with default attributes. */
  predicate GoodOrDefault(d: Tree, b: Tree, known: set<Path>, q: Path) {
    if q in known then Good(d, b, q) else q in d && q in b && KindOf(b[q]) == Dir && DefaultDir(d[q])
  }

  predicate HoldsRelinked(d: Tree, b: Tree, ps: set<Path>, rs: set<Path>) {
    && ps != {}
    && (forall p :: p in ps + rs ==> Placed(b, p))
    && d.Keys == Cover(ps + rs)
    && forall q :: q in d ==> GoodOrDefault(d, b, Cover(ps) + rs, q)
  }

  lemma RelinkDir(d: Tree, b: Tree, known: set<Path>, q: Path, k: Path)
    requires Valid(b) && k in b && (q == [] || q < k)
    requires GoodOrDefault(d, b, known, q)
    ensures q in b && KindOf(b[q]) == Dir && KindOf(d[q]) == Dir
  {
    if q < k { AncestorIsDir(b, q, k); }
  }

  lemma RelinkLeaf(d: Tree, b: Tree, ps: set<Path>, k: Path, q: Path)
    requires Valid(b) && k in b && KindOf(b[k]) != Dir
    requires (forall p :: p in ps ==> Placed(b, p)) && q in Cover(ps)
    ensures !(k < q)
  {
    if k < q {
      var p :| p in ps && q <= p;
      PlacedAncestor(b, k, p);
    }
  }

  lemma RelinkedNode(d: Tree, b: Tree, known: set<Path>, k: Path, now: int, q: Path)
    requires Valid(b) && k in b
    requires q in d ==> GoodOrDefault(d, b, known, q)
    requires q in d || (q <= k && q !in known)
    requires [] in known
    requires q == k || KindOf(b[k]) == Dir || !(k < q)
    ensures var e := SetSource(Opened(d, [], Up(k), now), k, b[k]);
      GoodOrDefault(e, b, known + {k}, q)
  {
    assert q <= k ==> q == k || q < k;
    if q < k {
      AncestorIsDir(b, q, k);
      assert q <= Parent(k);
      if q in d && Good(d, b, q) { ReopenedMirrors(d, b, q, now); }
    }
  }

  lemma RelinkAdds(d: Tree, b: Tree, ps: set<Path>, rs: set<Path>, s: Step, depth: nat)
    requires Valid(b) && HoldsRelinked(d, b, ps, rs) && s.path in b
    ensures var k := s.path;
      var e := SetSource(Opened(d, [], Up(k), s.now), k, b[k]);
      && RelinkStep(d, b, s, depth) == Done(e)
      && e.Keys == Cover(ps + rs + {k}) == d.Keys + Prefixes(k)
      && (KindOf(b[k]) == Dir || forall q :: q in d ==> !(k < q))
  {
    var k := s.path;
    var up := Up(k);
    forall q | q in d && q <= up
      ensures KindOf(d[q]) == Dir
    {
      RelinkDir(d, b, Cover(ps) + rs, q, k);
    }
    PlainAdd(d, k, b[k], s.now, depth);
    if KindOf(b[k]) != Dir {
      forall q | q in d ensures !(k < q) { RelinkLeaf(d, b, ps + rs, k, q); }
    }
    PlainAddKeys(d, k, b[k], s.now);
    CoverAdd(ps + rs, k);
  }

  lemma RelinkPlaced(d: Tree, b: Tree, ps: set<Path>, rs: set<Path>, s: Step, depth: nat)
    requires Valid(b) && HoldsRelinked(d, b, ps, rs) && s.path in b
    ensures var r := RelinkStep(d, b, s, depth);
      r.Done? && HoldsRelinked(r.tree, b, ps, rs + {s.path})
  {
    var k := s.path;
    RelinkAdds(d, b, ps, rs, s, depth);
    var known := Cover(ps) + rs;
    CoverMonotone(ps, ps + rs);
    var e := RelinkStep(d, b, s, depth).tree;
    forall q | q in e
      ensures GoodOrDefault(e, b, known + {k}, q)
    {
      RelinkedNode(d, b, known, k, s.now, q);
    }
    assert ps + (rs + {k}) == ps + rs + {k};
    assert known + {k} == Cover(ps) + (rs + {k});
  }

  lemma CoverMonotone(ps: set<Path>, qs: set<Path>)
    requires ps <= qs
    ensures Cover(ps) <= Cover(qs) && qs <= Cover(qs)
  {
  }

  lemma {:induction false} RelinkAllHolds(d: Tree, b: Tree, ps: set<Path>, steps: seq<Step>, depth: nat)
    requires Valid(b) && ps != {} && Holds(d, b, ps) && Paths(steps) <= b.Keys
    ensures var r := RelinkAll(d, b, steps, depth);
      r.Done? && HoldsRelinked(r.tree, b, ps, Paths(steps))
    decreases |steps|
  {
    if steps == [] {
      assert ps + Paths(steps) == ps;
      assert Cover(ps) + Paths(steps) == Cover(ps);
    } else {
      var n := |steps| - 1;
      PathsSnoc(steps);
      RelinkAllHolds(d, b, ps, steps[..n], depth);
      RelinkPlaced(RelinkAll(d, b, steps[..n], depth).tree, b, ps, Paths(steps[..n]), steps[n], depth);
    }
  }

  // ------------------------------------------------------------------ the results

  /** `d` is the difference of `a` and `b`: its paths are the new, changed, deleted
      and relinked ones with their ancestors. A node mirrors its counterpart in `b`
      or is a whiteout; only a parent that is there for a relinked path alone is a
      default directory instead. */
  predicate IsDiff(d: Tree, a: Tree, b: Tree) {
    if Core(a, b) == {} then d == NEW_FS else DiffOf(d, b, Core(a, b), Relinks(a, b))
  }

  predicate DiffOf(d: Tree, b: Tree, core: set<Path>, links: set<Path>) {
    d.Keys == Cover(core + links) && forall q :: q in d ==> DiffNode(d[q], b, Cover(core) + links, q)
  }

  predicate DiffNode(s: Source, b: Tree, known: set<Path>, q: Path) {
    if q !in b then s == Removed else if q in known then Mirrors(s, b[q]) else DefaultDir(s)
  }

  /** The orders in which Diff may iterate its maps, and the links it adds again. */
  predicate IsRun(a: Tree, b: Tree, adds: seq<Step>, dels: seq<Step>, relinks: seq<Step>) {
    Paths(adds) == b.Keys && Paths(dels) == a.Keys && Paths(relinks) == Relinks(a, b)
  }

  lemma RelinkedIsDiff(d: Tree, a: Tree, b: Tree)
    requires HoldsRelinked(d, b, Core(a, b), Relinks(a, b))
    ensures IsDiff(d, a, b)
  {
    var known := Cover(Core(a, b)) + Relinks(a, b);
    forall q | q in d
      ensures DiffNode(d[q], b, known, q)
    {
      assert GoodOrDefault(d, b, known, q);
    }
  }

  lemma CoreOf(a: Tree, b: Tree, adds: seq<Step>, dels: seq<Step>)
    requires Paths(adds) == b.Keys && Paths(dels) == a.Keys
    ensures ChangedOf(a, b, adds) + GoneOf(a, b, dels) == Core(a, b)
  {
    ChangedOfPaths(a, b, adds);
    ChangedOfPaths(a, b, dels);
  }

  /** The diff tree after the first loop and part of the second. */
  lemma DeletesHold(a: Tree, b: Tree, adds: seq<Step>, dels: seq<Step>, depth: nat)
    requires Valid(a) && Valid(b) && Named(b) && Paths(adds) == b.Keys && Paths(dels) <= a.Keys
    requires forall k :: k in Paths(dels) ==> !UnderLink(a, b, k)
    ensures var d := AddAll(a, b, adds, depth);
      && d.Done?
      && var r := DelAll(d.tree, b, dels, depth);
         r.Done? && Holds(r.tree, b, ChangedOf(a, b, adds) + GoneOf(a, b, dels))
  {
    AddAllHolds(a, b, adds, depth);
    ChangedOfPaths(a, b, adds);
    assert forall i :: 0 <= i < |dels| ==> dels[i].path in Paths(dels);
    DelAllHolds(a, b, AddAll(a, b, adds, depth).tree, ChangedOf(a, b, adds), dels, depth);
  }

  lemma NothingToRelink(a: Tree, b: Tree, relinks: seq<Step>)
    requires Core(a, b) == {} && Paths(relinks) <= Relinks(a, b)
    ensures relinks == []
  {
    PathsNonEmpty(relinks);
    forall q | q in b
      ensures !Changed(a, b, q)
    {
      assert Changed(a, b, q) ==> q in Core(a, b);
    }
  }

  predicate PartlyRelinked(d: Tree, a: Tree, b: Tree, rs: set<Path>) {
    if Core(a, b) == {} then d == NEW_FS else HoldsRelinked(d, b, Core(a, b), rs)
  }

  /** The diff tree after the first two loops and part of the third. */
  lemma RelinksHold(a: Tree, b: Tree, adds: seq<Step>, dels: seq<Step>, relinks: seq<Step>, depth: nat)
    requires Fit(a, b) && Paths(adds) == b.Keys && Paths(dels) == a.Keys && Paths(relinks) <= Relinks(a, b)
    ensures var r := DiffRun(a, b, adds, dels, relinks, depth);
      r.Done? && PartlyRelinked(r.tree, a, b, Paths(relinks))
  {
    DeletesHold(a, b, adds, dels, depth);
    CoreOf(a, b, adds, dels);
    var d := DelAll(AddAll(a, b, adds, depth).tree, b, dels, depth).tree;
    assert Holds(d, b, Core(a, b));
    if Core(a, b) == {} {
      NothingToRelink(a, b, relinks);
    } else {
      assert Relinks(a, b) <= b.Keys;
      RelinkAllHolds(d, b, Core(a, b), relinks, depth);
    }
  }

  /** Every run of Diff ends with the difference, whatever the iteration orders. */
  lemma DiffExact(a: Tree, b: Tree, adds: seq<Step>, dels: seq<Step>, relinks: seq<Step>, depth: nat)
    requires Fit(a, b) && IsRun(a, b, adds, dels, relinks)
    ensures var r := DiffRun(a, b, adds, dels, relinks, depth);
      r.Done? && IsDiff(r.tree, a, b)
  {
    RelinksHold(a, b, adds, dels, relinks, depth);
    if Core(a, b) != {} {
      RelinkedIsDiff(DiffRun(a, b, adds, dels, relinks, depth).tree, a, b);
    }
  }

  // ------------------------------------------------------------------ the method

  /** No sequence of additions of the given links fails. */
  ghost predicate Relinkable(b: Tree, d: Tree, links: set<Path>, depth: nat) {
    forall rs :: Paths(rs) <= links ==> RelinkAll(d, b, rs, depth).Done?
  }

  lemma FitRelinkable(a: Tree, b: Tree, d: Tree, adds: seq<Step>, dels: seq<Step>, depth: nat)
    requires Fit(a, b) && Paths(adds) == b.Keys && Paths(dels) == a.Keys
    requires DiffRun(a, b, adds, dels, [], depth) == Done(d)
    ensures Relinkable(b, d, Relinks(a, b), depth)
  {
    forall rs | Paths(rs) <= Relinks(a, b)
      ensures RelinkAll(d, b, rs, depth).Done?
    {
      RelinksHold(a, b, adds, dels, rs, depth);
    }
  }

  /** The unchanged paths per source among the keys seen so far. */
  predicate Shared(a: Tree, b: Tree, seen: set<Path>, shared: map<Source, seq<Path>>) {
    && (forall s, k :: s in shared && k in shared[s] ==> k in seen && k in b && !Changed(a, b, k) && b[k] == s)
    && (forall k :: k in seen && k in b && !Changed(a, b, k) ==> b[k] in shared && k in shared[b[k]])
  }

  /** The sources of the nodes added so far. */
  predicate Added(a: Tree, b: Tree, seen: set<Path>, added: seq<Source>) {
    && (forall s :: s in added ==> exists k :: k in seen && Changed(a, b, k) && b[k] == s)
    && (forall k :: k in seen && Changed(a, b, k) ==> b[k] in added)
  }

  function Share(shared: map<Source, seq<Path>>, s: Source, k: Path): map<Source, seq<Path>> {
    shared[s := (if s in shared then shared[s] else []) + [k]]
  }

  lemma Collecting(a: Tree, b: Tree, seen: set<Path>, shared: map<Source, seq<Path>>, added: seq<Source>, k: Path)
    requires Shared(a, b, seen, shared) && Added(a, b, seen, added) && k in b && k !in seen
    ensures Changed(a, b, k) ==> Shared(a, b, seen + {k}, shared) && Added(a, b, seen + {k}, added + [b[k]])
    ensures !Changed(a, b, k) ==> Shared(a, b, seen + {k}, Share(shared, b[k], k)) && Added(a, b, seen + {k}, added)
  {
  }

  lemma PathsAfter(steps: seq<Step>, s: Step)
    ensures Paths(steps + [s]) == Paths(steps) + {s.path}
    ensures (steps + [s])[..|steps|] == steps
  {
    assert (steps + [s])[..|steps|] == steps;
    PathsSnoc(steps + [s]);
  }

  method AddLoop(a: Tree, b: Tree, depth: nat)
    returns (r: Outcome, shared: map<Source, seq<Path>>, added: seq<Source>, ghost adds: seq<Step>)
    ensures r == AddAll(a, b, adds, depth)
    ensures r.Done? ==> Paths(adds) == b.Keys && Shared(a, b, b.Keys, shared) && Added(a, b, b.Keys, added)
    ensures Fit(a, b) ==> r.Done?
  {
    r, shared, added, adds := Done(NEW_FS), map[], [], [];
    var todo := b.Keys;
    ghost var seen := {};
    while todo != {}
      invariant todo !! seen && todo + seen == b.Keys && Paths(adds) == seen
      invariant r.Done? && r == AddAll(a, b, adds, depth)
      invariant Shared(a, b, seen, shared) && Added(a, b, seen, added)
      decreases todo
    {
      var k :| k in todo;
      var now: int := *;
      r := AddStep(r.tree, a, b, Step(k, now), depth);
      PathsAfter(adds, Step(k, now));
      adds := adds + [Step(k, now)];
      if Fit(a, b) { AddAllHolds(a, b, adds, depth); }
      if r.Error? { return; }
      Collecting(a, b, seen, shared, added, k);
      if Changed(a, b, k) {
        added := added + [b[k]];
      } else {
        shared := Share(shared, b[k], k);
      }
      todo, seen := todo - {k}, seen + {k};
    }
  }

  method DelLoop(a: Tree, b: Tree, d: Tree, depth: nat, ghost adds: seq<Step>)
    returns (r: Outcome, ghost dels: seq<Step>)
    requires AddAll(a, b, adds, depth) == Done(d) && Paths(adds) == b.Keys
    ensures r == DelAll(d, b, dels, depth)
    ensures r.Done? ==> Paths(dels) == a.Keys
    ensures Fit(a, b) ==> r.Done?
  {
    r, dels := Done(d), [];
    var todo := a.Keys;
    ghost var seen := {};
    while todo != {}
      invariant todo !! seen && todo + seen == a.Keys && Paths(dels) == seen
      invariant r.Done? && r == DelAll(d, b, dels, depth)
      decreases todo
    {
      var k :| k in todo;
      var now: int := *;
      r := DelStep(r.tree, b, Step(k, now), depth);
      PathsAfter(dels, Step(k, now));
      dels := dels + [Step(k, now)];
      if Fit(a, b) { DeletesHold(a, b, adds, dels, depth); }
      if r.Error? { return; }
      todo, seen := todo - {k}, seen + {k};
    }
  }

  /** The links to add again are the unchanged paths of the added sources. */
  predicate LinksOf(b: Tree, shared: map<Source, seq<Path>>, added: seq<Source>, links: set<Path>) {
    && (forall s, k :: s in added && s in shared && k in shared[s] ==> k in b && k in links)
    && (forall k :: k in links ==> k in b && b[k] in added && b[k] in shared && k in shared[b[k]])
  }

  lemma SharedAreLinks(a: Tree, b: Tree, shared: map<Source, seq<Path>>, added: seq<Source>)
    requires Shared(a, b, b.Keys, shared) && Added(a, b, b.Keys, added)
    ensures LinksOf(b, shared, added, Relinks(a, b))
  {
  }

  predicate AllIn(shared: map<Source, seq<Path>>, s: Source, ks: set<Path>) {
    s in shared ==> forall k :: k in shared[s] ==> k in ks
  }

  method RelinkPaths(b: Tree, ghost d: Tree, node: Tree, paths: seq<Path>, depth: nat,
                     ghost before: seq<Step>, ghost links: set<Path>)
    returns (r: Outcome, ghost relinks: seq<Step>, ghost linked: set<Path>)
    requires RelinkAll(d, b, before, depth) == Done(node) && Paths(before) <= links
    requires forall k :: k in paths ==> k in b && k in links
    ensures r == RelinkAll(d, b, relinks, depth) && Paths(relinks) == linked
    ensures r.Done? ==> Paths(before) <= linked <= links && forall k :: k in paths ==> k in linked
    ensures Relinkable(b, d, links, depth) ==> r.Done?
  {
    r, relinks, linked := Done(node), before, Paths(before);
    var j := 0;
    while j < |paths|
      invariant 0 <= j <= |paths|
      invariant r.Done? && r == RelinkAll(d, b, relinks, depth) && Paths(relinks) == linked
      invariant Paths(before) <= linked <= links
      invariant forall m :: 0 <= m < j ==> paths[m] in linked
    {
      var now: int := *;
      r := RelinkStep(r.tree, b, Step(paths[j], now), depth);
      PathsAfter(relinks, Step(paths[j], now));
      relinks, linked := relinks + [Step(paths[j], now)], linked + {paths[j]};
      if r.Error? { return; }
      j := j + 1;
    }
  }

  method RelinkLoop(b: Tree, d: Tree, shared: map<Source, seq<Path>>, added: seq<Source>, depth: nat,
                    ghost links: set<Path>)
    returns (r: Outcome, ghost relinks: seq<Step>)
    requires LinksOf(b, shared, added, links)
    ensures r == RelinkAll(d, b, relinks, depth)
    ensures r.Done? ==> Paths(relinks) == links
    ensures Relinkable(b, d, links, depth) ==> r.Done?
  {
    r, relinks := Done(d), [];
    ghost var linked := {};
    var i := 0;
    while i < |added|
      invariant 0 <= i <= |added|
      invariant r.Done? && r == RelinkAll(d, b, relinks, depth) && Paths(relinks) == linked <= links
      invariant forall j :: 0 <= j < i ==> AllIn(shared, added[j], linked)
    {
      if added[i] in shared {
        r, relinks, linked := RelinkPaths(b, d, r.tree, shared[added[i]], depth, relinks, links);
        if r.Error? { return; }
      }
      i := i + 1;
    }
    forall k | k in links
      ensures k in linked
    {
      assert AllIn(shared, b[k], linked);
    }
  }

  /** FsNode.Diff. The keys of both maps come in any order, and so does the clock. */
  method Diff(a: Tree, b: Tree, depth: nat)
    returns (r: Outcome, ghost adds: seq<Step>, ghost dels: seq<Step>, ghost relinks: seq<Step>)
    ensures r == DiffRun(a, b, adds, dels, relinks, depth)
    ensures r.Done? ==> IsRun(a, b, adds, dels, relinks)
    ensures Fit(a, b) ==> r.Done? && IsDiff(r.tree, a, b)
  {
    var shared, added;
    r, shared, added, adds := AddLoop(a, b, depth);
    dels, relinks := [], [];
    if r.Error? { return; }
    var d1 := r.tree;
    r, dels := DelLoop(a, b, d1, depth, adds);
    if r.Error? { return; }
    var d2 := r.tree;
    SharedAreLinks(a, b, shared, added);
    if Fit(a, b) { FitRelinkable(a, b, d2, adds, dels, depth); }
    r, relinks := RelinkLoop(b, d2, shared, added, depth, Relinks(a, b));
    if Fit(a, b) { DiffExact(a, b, adds, dels, relinks, depth); }
  }
}
