/** Diffs in which a directory that has entries becomes a symlink: the whiteouts of its
    entries are written through the symlink. */
module DirToLink {
  import opened FsTypes
  import opened PathWalk
  import opened TreeDiff
  import opened DiffLaws
  import opened LayerFold
  import WalkDepth

  predicate IsLink(e: Tree, q: Path) {
    q in e && KindOf(e[q]) == Symlink
  }

  /** A symlink that belongs into the diff. */
  predicate Due(b: Tree, core: set<Path>, q: Path) {
    q in Cover(core) && IsLink(b, q)
  }

  /** Every symlink that belongs into the diff is there, or another symlink stands above it. */
  ghost predicate LinksStand(e: Tree, b: Tree, core: set<Path>) {
    forall g :: Due(b, core, g) ==> LinkAbove(e, g)
  }

  ghost predicate LinkAbove(e: Tree, g: Path) {
    exists y :: y <= g && IsLink(e, y)
  }

  /** The diff has a symlink that does not belong there. */
  ghost predicate WrongLink(e: Tree, b: Tree, core: set<Path>) {
    exists q :: IsLink(e, q) && !Due(b, core, q)
  }

  /** A walk changes no symlink. */
  lemma WalkKeepsLinks(t: Tree, at: Path, ups: nat, names: seq<Name>, w: Walker, depth: nat, q: Path)
    requires Valid(t) && at in t && Walk(t, at, ups, names, w, depth).At?
    ensures IsLink(Walk(t, at, ups, names, w, depth).tree, q) <==> IsLink(t, q)
  {
    WalkDepth.WalkFollows(t, at, ups, names, w, depth);
    var u := Walk(t, at, ups, names, w, depth).tree;
    assert IsLink(t, q) <==> q in WalkDepth.MapOf(t, w).links;
    assert IsLink(u, q) <==> q in WalkDepth.MapOf(u, w).links;
  }

  /** In a valid tree no symlink stands above a node. */
  lemma NothingUnderLink(t: Tree, y: Path, q: Path)
    requires Valid(t) && q in t && y < q
    ensures !IsLink(t, y)
  {
    AncestorIsDir(t, y, q);
  }

  /** A walk never ends at a symlink that belongs into the diff. */
  lemma EndIsNotDue(e: Tree, u: Tree, b: Tree, core: set<Path>, x: Path)
    requires LinksStand(e, b, core) && Valid(u) && x in u && KindOf(u[x]) == Dir
    requires forall q :: IsLink(u, q) <==> IsLink(e, q)
    ensures !Due(b, core, x)
  {
    if Due(b, core, x) {
      var y :| y <= x && IsLink(e, y);
      assert IsLink(u, y) && y != x;
      NothingUnderLink(u, y, x);
    }
  }

  /** What applyParents does above the node it starts at: it gives directories other
      sources. */
  predicate AboveOnly(d: Tree, e: Tree, at: Path) {
    d.Keys == e.Keys && forall q :: q in d ==> e[q] == d[q] || (q < at && KindOf(e[q]) == Dir)
  }

  lemma {:induction false} ParentsAboveOnly(d: Tree, at: Path, b: Tree, p: Path)
    requires Valid(b) && p in b
    ensures var r := ApplyParents(d, at, b, p); r.Done? ==> AboveOnly(d, r.tree, at)
    decreases |at|
  {
    if at != [] && p != [] && Parent(at) in d && d[Parent(at)] != b[Parent(p)] {
      var up := Parent(at);
      var e := SetSource(d, up, b[Parent(p)]);
      assert Parent(p) in b && KindOf(b[Parent(p)]) == Dir;
      ParentsAboveOnly(e, up, b, Parent(p));
      assert up < at;
      var r := ApplyParents(e, up, b, Parent(p));
      if r.Done? {
        forall q | q in d
          ensures r.tree[q] == d[q] || (q < at && KindOf(r.tree[q]) == Dir)
        {
          assert q < up ==> q < at;
        }
      }
    }
  }

  /** The whiteout is set below `x`, then `x` gets the source of the symlink. */
  function Overwritten(u: Tree, x: Path, name: Name, link: Source): Tree {
    SetSource(SetSource(u, x + [name], Removed), x, link)
  }

  lemma OverwrittenLinks(u: Tree, x: Path, name: Name, link: Source, q: Path)
    requires Valid(u) && x in u && KindOf(u[x]) == Dir && KindOf(link) == Symlink
    ensures var f := Overwritten(u, x, name, link);
      IsLink(f, q) <==> q == x || (IsLink(u, q) && !(x < q))
  {
    assert x < x + [name];
    assert x + [name] < q ==> x < q;
  }

  lemma OverwrittenValid(u: Tree, x: Path, name: Name, link: Source)
    requires Valid(u) && x in u && KindOf(u[x]) == Dir && x != []
    ensures Valid(Overwritten(u, x, name, link))
  {
    var node := x + [name];
    assert Parent(node) == x;
    SetSourceValid(u, node, Removed);
    var f := SetSource(u, node, Removed);
    AncestorIsDir(u, Parent(x), x);
    assert !(node < Parent(x));
    SetSourceValid(f, x, link);
  }

  /** The step of a whiteout whose directory is a symlink: the walk ends at some directory
      `x`, which becomes a symlink. */
  lemma WrittenThrough(e: Tree, b: Tree, k: Path, now: int, depth: nat)
    requires Valid(e) && Valid(b) && k != [] && IsLink(b, Parent(k))
    ensures var w := Walk(e, [], 0, Parent(k), MkdirsUpper(now), depth);
      AddNew(e, b, k, Removed, now, depth) ==
      if w.Failed? then Error(w.why)
      else ApplyParents(Overwritten(w.tree, w.path, k[|k| - 1], b[Parent(k)]), w.path, b, Parent(k))
  {
    var w := Walk(e, [], 0, Parent(k), MkdirsUpper(now), depth);
    if w.At? {
      WalkValid(e, [], 0, Parent(k), MkdirsUpper(now), depth);
      var node := w.path + [k[|k| - 1]];
      var f := SetSource(w.tree, node, Removed);
      assert Parent(node) == w.path && w.path < node;
      assert w.path in f && f[w.path] == w.tree[w.path];
    }
  }

  lemma AboveKeepsLinks(f: Tree, e: Tree, x: Path, q: Path)
    requires Valid(f) && x in f && AboveOnly(f, e, x)
    ensures IsLink(e, q) <==> IsLink(f, q)
  {
    if q in f && q < x { AncestorIsDir(f, q, x); }
  }

  lemma AboveKeepsValid(f: Tree, e: Tree, x: Path)
    requires Valid(f) && AboveOnly(f, e, x)
    ensures Valid(e)
  {
    forall p | p in e && p != []
      ensures Parent(p) in e && KindOf(e[Parent(p)]) == Dir
    {
      assert Parent(p) in f;
    }
  }

  /** The state of a run after whiteouts were written through symlinks. */
  ghost predicate Spoilt(e: Tree, b: Tree, core: set<Path>) {
    WrongLink(e, b, core) && Shaped(e) && (IsLink(e, []) || (Valid(e) && LinksStand(e, b, core)))
  }

  lemma StandsAfter(e: Tree, u: Tree, r: Tree, b: Tree, core: set<Path>, x: Path)
    requires LinksStand(e, b, core)
    requires forall q :: IsLink(u, q) <==> IsLink(e, q)
    requires forall q :: IsLink(r, q) <==> q == x || (IsLink(u, q) && !(x < q))
    ensures LinksStand(r, b, core)
  {
    hide Due;
    forall g | Due(b, core, g)
      ensures LinkAbove(r, g)
    {
      var y :| y <= g && IsLink(e, y);
      assert IsLink(u, y);
      if x < y {
        assert x <= g && IsLink(r, x);
      } else {
        assert IsLink(r, y);
      }
    }
  }

  lemma ThroughLink(e: Tree, b: Tree, core: set<Path>, k: Path, now: int, depth: nat)
    requires Valid(e) && LinksStand(e, b, core) && Valid(b) && k != [] && IsLink(b, Parent(k))
    ensures var r := AddNew(e, b, k, Removed, now, depth); r.Done? ==> Spoilt(r.tree, b, core)
  {
    WrittenThrough(e, b, k, now, depth);
    var w := Walk(e, [], 0, Parent(k), MkdirsUpper(now), depth);
    var r := AddNew(e, b, k, Removed, now, depth);
    hide AddNew, LinksStand, Due, Valid, Walk;
    if r.Done? {
      RootIn(e);
      WalkValid(e, [], 0, Parent(k), MkdirsUpper(now), depth);
      var u, x, link := w.tree, w.path, b[Parent(k)];
      forall q ensures IsLink(u, q) <==> IsLink(e, q) {
        WalkKeepsLinks(e, [], 0, Parent(k), MkdirsUpper(now), depth, q);
      }
      EndIsNotDue(e, u, b, core, x);
      var f := Overwritten(u, x, k[|k| - 1], link);
      forall q ensures IsLink(f, q) <==> q == x || (IsLink(u, q) && !(x < q)) {
        OverwrittenLinks(u, x, k[|k| - 1], link, q);
      }
      hide Overwritten;
      assert IsLink(f, x);
      if x != [] {
        OverwrittenValid(u, x, k[|k| - 1], link);
        ParentsAboveOnly(f, x, b, Parent(k));
        forall q ensures IsLink(r.tree, q) <==> IsLink(f, q) { AboveKeepsLinks(f, r.tree, x, q); }
        AboveKeepsValid(f, r.tree, x);
        StandsAfter(e, u, r.tree, b, core, x);
        ValidIsShaped(r.tree);
      } else {
        RootShaped(u, k[|k| - 1], link);
      }
      assert IsLink(r.tree, x) && !Due(b, core, x);
    }
  }

  lemma ValidIsShaped(e: Tree)
    requires Valid(e)
    ensures Shaped(e)
  {
  }

  lemma RootShaped(u: Tree, name: Name, link: Source)
    requires Valid(u) && KindOf(link) != Dir
    ensures Shaped(Overwritten(u, [], name, link))
  {
    assert Parent([] + [name]) == [];
    SetSourceValid(u, [] + [name], Removed);
    SetShaped(SetSource(u, [] + [name], Removed), [], link);
  }

  lemma RootIn(e: Tree)
    requires Valid(e)
    ensures [] in e
  {
  }

  /** Nothing is added any more to a tree whose root is a symlink. */
  lemma RootLinkFails(e: Tree, b: Tree, k: Path, now: int, depth: nat)
    requires IsLink(e, [])
    ensures AddNew(e, b, k, Removed, now, depth).Error?
  {
    assert Resolve(e, [], MkdirsUpper(now), depth).Failed?;
    assert Walk(e, [], 0, if k == [] then [] else Parent(k), MkdirsUpper(now), depth).Failed?;
  }

  lemma {:induction false} AllThroughLinks(a: Tree, b: Tree, core: set<Path>, d: Tree, steps: seq<Step>, depth: nat)
    requires Valid(d) && LinksStand(d, b, core) && Valid(b)
    requires forall i :: 0 <= i < |steps| ==> UnderLink(a, b, steps[i].path)
    ensures var r := DelAll(d, b, steps, depth);
      r.Done? ==> if steps == [] then r.tree == d else Spoilt(r.tree, b, core)
    decreases |steps|
  {
    hide LinksStand, Due, Valid;
    if steps != [] {
      var n := |steps| - 1;
      AllThroughLinks(a, b, core, d, steps[..n], depth);
      var t := DelAll(d, b, steps[..n], depth);
      var k := steps[n].path;
      assert UnderLink(a, b, k);
      if t.Done? {
        if IsLink(t.tree, []) {
          RootLinkFails(t.tree, b, k, steps[n].now, depth);
        } else {
          ThroughLink(t.tree, b, core, k, steps[n].now, depth);
        }
      }
    }
  }

  // --------------------------------------------------------------------- the iff

  lemma {:induction false} DelAllAppend(d: Tree, b: Tree, first: seq<Step>, steps: seq<Step>, depth: nat)
    ensures var r := DelAll(d, b, first, depth);
      DelAll(d, b, first + steps, depth) == if r.Error? then r else DelAll(r.tree, b, steps, depth)
    decreases |steps|
  {
    if steps == [] {
      assert first + steps == first;
    } else {
      var n := |steps| - 1;
      DelAllAppend(d, b, first, steps[..n], depth);
      assert (first + steps)[..|first + steps| - 1] == first + steps[..n];
    }
  }

  /** The diff tree before the whiteouts that go through symlinks. */
  lemma HoldsStands(d: Tree, b: Tree, core: set<Path>)
    requires Valid(b) && core != {} && Holds(d, b, core)
    ensures Valid(d) && LinksStand(d, b, core)
  {
    forall p | p in d && p != []
      ensures Parent(p) in d && KindOf(d[Parent(p)]) == Dir
    {
      var c :| c in core && p <= c;
      assert Parent(p) < c;
      PlacedAncestor(b, Parent(p), c);
      assert Good(d, b, Parent(p));
    }
    assert Good(d, b, []);
    forall g | Due(b, core, g)
      ensures LinkAbove(d, g)
    {
      assert Good(d, b, g);
      assert IsLink(d, g);
    }
  }

  /** A symlink of the difference belongs there, or is a relinked path. */
  lemma DiffLinkBelongs(d: Tree, a: Tree, b: Tree, q: Path)
    requires IsDiff(d, a, b) && IsLink(d, q)
    ensures Due(b, Core(a, b), q) || q in Relinks(a, b)
  {
    var core, links := Core(a, b), Relinks(a, b);
    hide Core, Relinks, Cover;
    assert DiffNode(d[q], b, Cover(core) + links, q);
  }

  lemma WrongIsNoDiff(d: Tree, a: Tree, b: Tree)
    requires Relinks(a, b) == {} && WrongLink(d, b, Core(a, b))
    ensures !IsDiff(d, a, b)
  {
    hide Core, Relinks, Due, IsDiff;
    var q :| IsLink(d, q) && !Due(b, Core(a, b), q);
    if IsDiff(d, a, b) { DiffLinkBelongs(d, a, b, q); }
  }

  predicate RunIsDiff(a: Tree, b: Tree, adds: seq<Step>, dels: seq<Step>, relinks: seq<Step>, depth: nat) {
    var r := DiffRun(a, b, adds, dels, relinks, depth);
    r.Done? && IsDiff(r.tree, a, b)
  }

  /** The first two loops of a run that comes to the entries of such directories last. */
  lemma LoopsSpoil(a: Tree, b: Tree, adds: seq<Step>, others: seq<Step>, under: seq<Step>, depth: nat)
    requires Valid(a) && Valid(b) && Named(b) && under != []
    requires Paths(adds) == b.Keys && Paths(others) + Paths(under) == a.Keys
    requires forall k :: k in Paths(others) ==> !UnderLink(a, b, k)
    requires forall k :: k in Paths(under) ==> UnderLink(a, b, k)
    ensures AddAll(a, b, adds, depth).Done? && !LoopsHold(a, b, adds, others + under, depth)
    ensures var r := DelAll(AddAll(a, b, adds, depth).tree, b, others + under, depth);
      r.Done? ==> WrongLink(r.tree, b, Core(a, b)) && Shaped(r.tree)
  {
    hide LinksStand, Due, Holds, Relinks, Cover, Changed, Gone;
    DeletesHold(a, b, adds, others, depth);
    CoreWithout(a, b, adds, others, under);
    var core := Core(a, b);
    hide Core;
    var d := AddAll(a, b, adds, depth).tree;
    var e := DelAll(d, b, others, depth).tree;
    HoldsStands(e, b, core);
    forall i | 0 <= i < |under| ensures UnderLink(a, b, under[i].path) { assert under[i].path in Paths(under); }
    AllThroughLinks(a, b, core, e, under, depth);
    DelAllAppend(d, b, others, under, depth);
    var r := DelAll(d, b, others + under, depth);
    if r.Done? {
      var q :| IsLink(r.tree, q) && !Due(b, core, q);
      if Holds(r.tree, b, core) { HeldLinkIsDue(r.tree, b, core, q); }
    }
  }

  /** Every run that comes to the entries of such directories last fails or ends with
      something else than the difference. */
  lemma LastThroughLinks(a: Tree, b: Tree, adds: seq<Step>, others: seq<Step>, under: seq<Step>, depth: nat)
    requires Valid(a) && Valid(b) && Named(b) && Relinks(a, b) == {} && under != []
    requires Paths(adds) == b.Keys && Paths(others) + Paths(under) == a.Keys
    requires forall k :: k in Paths(others) ==> !UnderLink(a, b, k)
    requires forall k :: k in Paths(under) ==> UnderLink(a, b, k)
    ensures !RunIsDiff(a, b, adds, others + under, [], depth)
  {
    hide Core, Relinks, Valid, Named, UnderLink, Due, IsDiff, Shaped, LoopsHold;
    LoopsSpoil(a, b, adds, others, under, depth);
    var r := DiffRun(a, b, adds, others + under, [], depth);
    if r.Done? { WrongIsNoDiff(r.tree, a, b); }
  }

  /** A run with the entries of directories that became symlinks last. */
  lemma OffendersLast(a: Tree, b: Tree) returns (adds: seq<Step>, others: seq<Step>, under: seq<Step>)
    requires !NoDirToLink(a, b)
    ensures under != [] && Paths(adds) == b.Keys && Paths(others) + Paths(under) == Paths(others + under) == a.Keys
    ensures forall k :: k in Paths(others) ==> !UnderLink(a, b, k)
    ensures forall k :: k in Paths(under) ==> UnderLink(a, b, k)
  {
    hide UnderLink;
    var bad := set k | k in a && UnderLink(a, b, k);
    adds := Enumeration(b.Keys);
    others := Enumeration(a.Keys - bad);
    under := Enumeration(bad);
    PathsAppend(others, under);
    assert Paths(others) + Paths(under) == a.Keys;
    assert under != [];
  }

  lemma CoreWithout(a: Tree, b: Tree, adds: seq<Step>, others: seq<Step>, under: seq<Step>)
    requires Valid(a) && Paths(adds) == b.Keys && Paths(others) + Paths(under) == a.Keys && under != []
    requires forall k :: k in Paths(under) ==> UnderLink(a, b, k)
    ensures ChangedOf(a, b, adds) + GoneOf(a, b, others) == Core(a, b) != {}
  {
    ChangedOfPaths(a, b, adds);
    ChangedOfPaths(a, b, others);
    var core := Core(a, b);
    forall k
      ensures k in ChangedOf(a, b, adds) + GoneOf(a, b, others) <==> k in core
    {
    }
    var k := under[0].path;
    assert k in Paths(under);
    assert Changed(a, b, Parent(k));
  }

  ghost predicate AlwaysDiff(a: Tree, b: Tree, depth: nat) {
    forall adds, dels, relinks :: IsRun(a, b, adds, dels, relinks) ==> RunIsDiff(a, b, adds, dels, relinks, depth)
  }

  /** Without hard links, every run with every clock ends with the difference if and only
      if no directory that loses an entry becomes a symlink, however deep symlinks may
      nest. */
  lemma DiffIffNoDirToLink(a: Tree, b: Tree, depth: nat)
    requires Valid(a) && Valid(b) && Named(b) && Relinks(a, b) == {}
    ensures AlwaysDiff(a, b, depth) <==> NoDirToLink(a, b)
  {
    hide Valid, Named, Relinks, DiffOf, UnderLink, DiffRun;
    if NoDirToLink(a, b) {
      forall adds, dels, relinks | IsRun(a, b, adds, dels, relinks)
        ensures RunIsDiff(a, b, adds, dels, relinks, depth)
      {
        DiffExact(a, b, adds, dels, relinks, depth);
      }
    } else {
      var adds, others, under := OffendersLast(a, b);
      LastThroughLinks(a, b, adds, others, under, depth);
      assert Paths([]) == {} && IsRun(a, b, adds, others + under, []);
    }
  }

  lemma PathsAppend(s: seq<Step>, u: seq<Step>)
    ensures Paths(s + u) == Paths(s) + Paths(u)
  {
    forall p | p in Paths(s) + Paths(u)
      ensures p in Paths(s + u)
    {
      if p in Paths(s) {
        var i :| 0 <= i < |s| && s[i].path == p;
        assert (s + u)[i].path == p;
      } else {
        var i :| 0 <= i < |u| && u[i].path == p;
        assert (s + u)[|s| + i].path == p;
      }
    }
  }

  // ------------------------------------------------------------ with hard links

  /** The first two loops are right in every order if and only if no directory that loses
      an entry became a symlink, with hard links or without. */
  lemma LoopsHoldIff(a: Tree, b: Tree, depth: nat)
    requires Valid(a) && Valid(b) && Named(b)
    ensures AlwaysHolds(a, b, depth) <==> NoDirToLink(a, b)
  {
    hide Valid, Named, Holds, UnderLink, AddAll, DelAll;
    if NoDirToLink(a, b) {
      forall adds, dels | Paths(adds) == b.Keys && Paths(dels) == a.Keys
        ensures LoopsHold(a, b, adds, dels, depth)
      {
        DeletesHold(a, b, adds, dels, depth);
        CoreOf(a, b, adds, dels);
      }
    } else {
      var adds, others, under := OffendersLast(a, b);
      LoopsSpoil(a, b, adds, others, under, depth);
      assert !LoopsHold(a, b, adds, others + under, depth);
    }
  }

  predicate LoopsHold(a: Tree, b: Tree, adds: seq<Step>, dels: seq<Step>, depth: nat) {
    var d := AddAll(a, b, adds, depth);
    d.Done? && var r := DelAll(d.tree, b, dels, depth); r.Done? && Holds(r.tree, b, Core(a, b))
  }

  ghost predicate AlwaysHolds(a: Tree, b: Tree, depth: nat) {
    forall adds, dels :: Paths(adds) == b.Keys && Paths(dels) == a.Keys ==> LoopsHold(a, b, adds, dels, depth)
  }

  lemma HeldLinkIsDue(d: Tree, b: Tree, core: set<Path>, q: Path)
    requires Holds(d, b, core) && IsLink(d, q)
    ensures Due(b, core, q)
  {
    assert core != {} && Good(d, b, q);
  }

  // ------------------------------------------------------------------- the repair

  /** Where a relinked path is added. */
  function Lands(d: Tree, b: Tree, s: Step, depth: nat): Walked {
    if [] !in d || s.path !in b then Failed(NilParent) else Add(d, s.path, b[s.path], MkdirsUpper(s.now), depth)
  }

  /** No relinked path is added at or above `q`. */
  predicate Misses(d: Tree, b: Tree, steps: seq<Step>, depth: nat, q: Path)
    decreases |steps|
  {
    steps == [] ||
    var n := |steps| - 1;
    var r := RelinkAll(d, b, steps[..n], depth);
    && Misses(d, b, steps[..n], depth, q)
    && (r.Done? ==> var l := Lands(r.tree, b, steps[n], depth); l.At? ==> !(l.path <= q))
  }

  lemma SetKeepsLink(t: Tree, p: Path, s: Source, q: Path)
    requires IsLink(t, q) && !(p <= q)
    ensures IsLink(SetSource(t, p, s), q)
  {
  }

  lemma RelinkKeepsLink(d: Tree, b: Tree, s: Step, depth: nat, q: Path)
    requires Shaped(d) && IsLink(d, q)
    requires var l := Lands(d, b, s, depth); l.At? ==> !(l.path <= q)
    ensures var r := RelinkStep(d, b, s, depth); r.Done? ==> Shaped(r.tree) && IsLink(r.tree, q)
  {
    var r := RelinkStep(d, b, s, depth);
    if r.Done? {
      var k := s.path;
      var names := if k == [] then [] else Parent(k);
      AddShaped(d, k, b[k], s.now, depth);
      if !Valid(d) { RootWalk(d, names, s.now, depth); }
      hide Valid, Shaped, Walk;
      WalkKeepsLinks(d, [], 0, names, MkdirsUpper(s.now), depth, q);
      var w := Walk(d, [], 0, names, MkdirsUpper(s.now), depth);
      SetKeepsLink(w.tree, Lands(d, b, s, depth).path, b[k], q);
    }
  }

  lemma {:induction false} LinkStays(d: Tree, b: Tree, steps: seq<Step>, depth: nat, q: Path)
    requires Shaped(d) && IsLink(d, q) && Misses(d, b, steps, depth, q)
    ensures var r := RelinkAll(d, b, steps, depth); r.Done? ==> Shaped(r.tree) && IsLink(r.tree, q)
    decreases |steps|
  {
    hide Shaped, IsLink, RelinkStep, Lands;
    if steps != [] {
      var n := |steps| - 1;
      LinkStays(d, b, steps[..n], depth, q);
      var r := RelinkAll(d, b, steps[..n], depth);
      if r.Done? { RelinkKeepsLink(r.tree, b, steps[n], depth, q); }
    }
  }

  lemma RepairNeeded(a: Tree, b: Tree, e: Tree, relinks: seq<Step>, depth: nat, q: Path)
    requires Shaped(e) && IsLink(e, q) && !Due(b, Core(a, b), q) && q !in Relinks(a, b)
    requires var r := RelinkAll(e, b, relinks, depth); r.Done? && IsDiff(r.tree, a, b)
    ensures !Misses(e, b, relinks, depth, q)
  {
    hide *;
    if Misses(e, b, relinks, depth, q) {
      LinkStays(e, b, relinks, depth, q);
      DiffLinkBelongs(RelinkAll(e, b, relinks, depth).tree, a, b, q);
    }
  }

  /** What whiteouts overwrote is put right by hard links only: a run that comes to the
      entries of such directories last and still ends with the difference adds a relinked
      path at or above every symlink that does not belong there. There is such a symlink. */
  lemma OnlyLinksRepair(a: Tree, b: Tree, adds: seq<Step>, others: seq<Step>, under: seq<Step>, relinks: seq<Step>,
                        depth: nat)
    requires Valid(a) && Valid(b) && Named(b) && under != [] && Paths(relinks) == Relinks(a, b)
    requires Paths(adds) == b.Keys && Paths(others) + Paths(under) == a.Keys
    requires forall k :: k in Paths(others) ==> !UnderLink(a, b, k)
    requires forall k :: k in Paths(under) ==> UnderLink(a, b, k)
    requires RunIsDiff(a, b, adds, others + under, relinks, depth)
    ensures var e := DelAll(AddAll(a, b, adds, depth).tree, b, others + under, depth);
      && AddAll(a, b, adds, depth).Done? && e.Done? && WrongLink(e.tree, b, Core(a, b))
      && forall q :: IsLink(e.tree, q) && !Due(b, Core(a, b), q) && q !in Relinks(a, b) ==>
           !Misses(e.tree, b, relinks, depth, q)
  {
    hide Due, Valid, Named, Relinks, Core, UnderLink, Misses, IsDiff, RelinkAll, WrongLink, LoopsHold, Shaped, AddAll,
         DelAll;
    LoopsSpoil(a, b, adds, others, under, depth);
    var e := DelAll(AddAll(a, b, adds, depth).tree, b, others + under, depth).tree;
    forall q | IsLink(e, q) && !Due(b, Core(a, b), q) && q !in Relinks(a, b)
      ensures !Misses(e, b, relinks, depth, q)
    {
      RepairNeeded(a, b, e, relinks, depth, q);
    }
  }

  // ------------------------------------------------------------ a repaired run

  /** The symlink as before, and a new hard link to the file at its target. */
  const G: Path := ["g"]
  const HARD_LINK: Tree := WITH_LINK[G := OTHER]

  lemma RepairedCore()
    ensures Core(WITH_DIR, HARD_LINK) == {D, G} && Relinks(WITH_DIR, HARD_LINK) == {E} &&
      UnderLink(WITH_DIR, HARD_LINK, DX)
  {
    var a, b := WITH_DIR, HARD_LINK;
    assert Parent(DX) == D && Parent(D) == [] && Parent(E) == [];
    assert Changed(a, b, D) && Changed(a, b, G) && !Changed(a, b, E) && !Changed(a, b, []);
    assert b[G] == b[E] != b[[]];
    assert forall q :: q in b ==> q == [] || q == D || q == E || q == G;
    assert forall q :: q in a ==> !Gone(a, b, q);
    assert Relinked(a, b, E) && !Relinked(a, b, []);
  }

  lemma CoverNames(ps: set<Path>)
    requires forall p :: p in ps ==> |p| == 1
    ensures Cover(ps) == {[]} + ps
  {
    forall q
      ensures q in Cover(ps) <==> q == [] || q in ps
    {
      if q in ps { assert q <= q; }
      if p :| p in ps && q <= p {
        assert |q| == 0 || |q| == |p|;
        assert q == p[..|q|] && p[..|p|] == p;
      }
    }
  }

  lemma NamesDiff(d: Tree, a: Tree, b: Tree, core: set<Path>, links: set<Path>)
    requires core != {} && Core(a, b) == core && Relinks(a, b) == links && forall p :: p in core + links ==> |p| == 1
    requires d.Keys == {[]} + core + links && forall q :: q in d ==> DiffNode(d[q], b, {[]} + core + links, q)
    ensures IsDiff(d, a, b)
  {
    hide *;
    CoverNames(core);
    CoverNames(core + links);
    assert {[]} + (core + links) == {[]} + core + links;
    DiffIs(d, a, b, core, links);
  }

  lemma DiffIs(d: Tree, a: Tree, b: Tree, core: set<Path>, links: set<Path>)
    requires core != {} && Core(a, b) == core && Relinks(a, b) == links && d.Keys == Cover(core + links)
    requires forall q :: q in d ==> DiffNode(d[q], b, Cover(core) + links, q)
    ensures IsDiff(d, a, b)
  {
  }

  lemma NodesMirror(d: Tree, b: Tree, known: set<Path>, now: int)
    requires d.Keys == known && [] in d && d[[]] == NewDir(Info(ROOT).attrs, now) && [] in b && b[[]] == ROOT
    requires forall q :: q in known ==> q in b && (q == [] || d[q] == b[q])
    ensures forall q :: q in d ==> DiffNode(d[q], b, known, q)
  {
  }

  lemma RelinkedBack(d: Tree, b: Tree, now: int, depth: nat)
    requires [] in d && KindOf(d[[]]) == Dir && d[[]] == ROOT && (forall q :: q in d ==> !(E < q)) && E in b
    ensures RelinkStep(d, b, Step(E, now), depth) == Done(d[[] := NewDir(Info(ROOT).attrs, now)][E := b[E]])
  {
    RootEntryAdd(d, E, b[E], now, depth);
    hide Add;
  }

  lemma RepairAdds(a: Tree, b: Tree, now: int, depth: nat)
    requires [] in b && b[[]] == ROOT && D in b && b[D] == LINK && G in b && b[G] == OTHER
    requires Changed(a, b, D) && Changed(a, b, G) && !Changed(a, b, E) && !Changed(a, b, [])
    ensures AddAll(a, b, [Step([], now)] + [Step(E, now)] + [Step(D, now)] + [Step(G, now)], depth) ==
            Done(NEW_FS[[] := ROOT][D := LINK][G := OTHER])
  {
    hide Changed, AddNew;
    var r, e, d, g := Step([], now), Step(E, now), Step(D, now), Step(G, now);
    var d1 := NEW_FS[[] := ROOT][D := LINK];
    assert [] + [r] == [r];
    AddAllSnoc(a, b, NEW_FS, [], r, depth);
    AddAllSnoc(a, b, NEW_FS, [r], e, depth);
    AddAllSnoc(a, b, NEW_FS, [r] + [e], d, depth);
    RootEntryAdded(NEW_FS, b, D, LINK, now, depth);
    AddAllSnoc(a, b, d1, [r] + [e] + [d], g, depth);
    RootEntryAdded(d1, b, G, OTHER, now, depth);
    assert d1[[] := ROOT] == d1;
  }

  lemma RepairDels(d: Tree, b: Tree, now: int, depth: nat)
    requires depth > 0 && LinkOnly(d) && [] in b && b[[]] == ROOT && D in b && b[D] == LINK && DX !in b && E in b
    ensures DelAll(d, b, [Step([], now)] + [Step(D, now)] + [Step(E, now)] + [Step(DX, now)], depth) ==
            Done(d[[] := ROOT][E := LINK])
  {
    var r, e, l, x := Step([], now), Step(E, now), Step(D, now), Step(DX, now);
    hide AddNew, LinkOnly;
    assert [] + [r] == [r];
    DelAllSnoc(b, d, d, [], r, depth);
    DelAllSnoc(b, d, d, [r], l, depth);
    DelAllSnoc(b, d, d, [r] + [l], e, depth);
    DelAllSnoc(b, d, d, [r] + [l] + [e], x, depth);
    assert Parent(DX) == D;
    WhiteoutThroughLink(d, b, now, depth);
  }

  lemma RepairedRun(a: Tree, b: Tree, now: int, depth: nat)
    requires depth > 0 && b.Keys == {[], D, G, E}
    requires b[[]] == ROOT && b[D] == LINK && b[G] == OTHER && b[E] == OTHER
    requires Changed(a, b, D) && Changed(a, b, G) && !Changed(a, b, E) && !Changed(a, b, [])
    requires Core(a, b) == {D, G} && Relinks(a, b) == {E}
    ensures RunIsDiff(a, b, [Step([], now)] + [Step(E, now)] + [Step(D, now)] + [Step(G, now)],
                      [Step([], now)] + [Step(D, now)] + [Step(E, now)] + [Step(DX, now)], [Step(E, now)], depth)
  {
    hide Changed, Core, Relinks, AddAll, DelAll, RelinkStep, IsDiff, RunIsDiff;
    RepairAdds(a, b, now, depth);
    var d2 := NEW_FS[[] := ROOT][D := LINK][G := OTHER];
    assert D[0] != E[0] && G[0] != E[0] && !(E <= D) && !(E <= G);
    RepairDels(d2, b, now, depth);
    var d3 := d2[[] := ROOT][E := LINK];
    RelinkedBack(d3, b, now, depth);
    var d4 := d3[[] := NewDir(Info(ROOT).attrs, now)][E := OTHER];
    NodesMirror(d4, b, {[]} + {D, G} + {E}, now);
    NamesDiff(d4, a, b, {D, G}, {E});
    LoopsRun(a, b, [Step([], now)] + [Step(E, now)] + [Step(D, now)] + [Step(G, now)],
             [Step([], now)] + [Step(D, now)] + [Step(E, now)] + [Step(DX, now)], Step(E, now), d2, d3, d4, depth);
  }

  /** A hard link puts right what the whiteout overwrote: with relinked paths a run can end
      with the difference although a directory that loses an entry became a symlink. */
  lemma HardLinkRepairs(now: int, depth: nat)
    requires depth > 0
    ensures var adds := [Step([], now)] + [Step(E, now)] + [Step(D, now)] + [Step(G, now)];
      var dels := [Step([], now)] + [Step(D, now)] + [Step(E, now)] + [Step(DX, now)];
      && !NoDirToLink(WITH_DIR, HARD_LINK)
      && RunIsDiff(WITH_DIR, HARD_LINK, adds, dels, [Step(E, now)], depth)
  {
    var a, b := WITH_DIR, HARD_LINK;
    RepairedCore();
    assert Changed(a, b, D) && Changed(a, b, G) && !Changed(a, b, E) && !Changed(a, b, []);
    hide Changed, Core, Relinks, UnderLink, RunIsDiff;
    RepairedRun(a, b, now, depth);
    NotAll(a, b, DX);
  }

  lemma NotAll(a: Tree, b: Tree, k: Path)
    requires k in a && UnderLink(a, b, k)
    ensures !NoDirToLink(a, b)
  {
  }

  lemma LoopsRun(a: Tree, b: Tree, adds: seq<Step>, dels: seq<Step>, s: Step, d2: Tree, d3: Tree, d4: Tree, depth: nat)
    requires AddAll(a, b, adds, depth) == Done(d2) && DelAll(d2, b, dels, depth) == Done(d3)
    requires RelinkStep(d3, b, s, depth) == Done(d4) && IsDiff(d4, a, b)
    ensures RunIsDiff(a, b, adds, dels, [s], depth)
  {
    hide AddAll, DelAll, RelinkStep, IsDiff;
    assert [s][..0] == [];
    assert RelinkAll(d3, b, [], depth) == Done(d3);
  }
}
