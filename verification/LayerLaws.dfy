/** When committing a tree can go wrong: exactly when it has a directory that the layer
    holds for a relinked path alone. */
module LayerLaws {
  import opened FsTypes
  import opened PathWalk
  import opened TreeDiff
  import opened DiffLaws
  import opened Layer

  // ------------------------------------------------------------ runs with one clock

  predicate ClockIs(steps: seq<Step>, now: int) {
    forall i :: 0 <= i < |steps| ==> steps[i].now == now
  }

  lemma {:induction false} StepsFor(ks: set<Path>, now: int) returns (steps: seq<Step>)
    ensures Paths(steps) == ks && ClockIs(steps, now)
  {
    if ks == {} {
      steps := [];
    } else {
      var k :| k in ks;
      var before := StepsFor(ks - {k}, now);
      steps := before + [Step(k, now)];
      PathsAfter(before, Step(k, now));
    }
  }

  lemma BelowBelow(q: Path, r: Path, p: Path)
    requires q < r && r < p
    ensures q < p
  {
    assert forall i :: 0 <= i < |q| ==> q[i] == r[i] == p[i];
  }

  lemma {:induction false} Topmost(todo: set<Path>) returns (p: Path)
    requires todo != {}
    ensures p in todo && forall q :: q in todo ==> !(q < p)
  {
    p :| p in todo;
    var above := set q | q in todo && q < p;
    assert forall q :: q in todo && q < p ==> q in above;
    if above != {} {
      assert p !in above && above < todo;
      var top := Topmost(above);
      forall q | q in todo && q < top ensures q in above { BelowBelow(q, top, p); }
      p := top;
    }
  }

  /** Every set of paths can be listed from the top down. */
  lemma {:induction false} TopDownOrder(todo: set<Path>) returns (order: seq<Path>)
    ensures forall q :: q in todo <==> q in order
    ensures forall i, j :: 0 <= i < j < |order| ==> order[i] != order[j] && !(order[j] < order[i])
  {
    if todo == {} {
      order := [];
    } else {
      var p := Topmost(todo);
      var rest := TopDownOrder(todo - {p});
      order := [p] + rest;
      forall i, j | 0 <= i < j < |order| ensures order[i] != order[j] && !(order[j] < order[i]) {
        assert order[j] == rest[j - 1] && rest[j - 1] in rest;
        if i > 0 { assert order[i] == rest[i - 1]; }
      }
    }
  }

  // ------------------------------------------------------------------ stray parents

  predicate HasClock(s: Source, now: int) {
    s.FreshDir? && s.attrs.mtime == now
  }

  lemma StrayOpened(d: Tree, k: Path, src: Source, now: int, q: Path)
    requires q != [] && q != k && q in d.Keys + Prefixes(k)
    requires KindOf(src) == Dir || !(k < q)
    requires q in d ==> HasClock(d[q], now)
    ensures var e := SetSource(Opened(d, [], Up(k), now), k, src);
      q in e && HasClock(e[q], now)
  {
    var o := Opened(d, [], Up(k), now);
    if q !in d {
      assert q < k;
      assert q <= Up(k);
    }
    assert q in o && HasClock(o[q], now);
  }

  lemma RelinkStepTime(d: Tree, b: Tree, ps: set<Path>, rs: set<Path>, s: Step, depth: nat, q: Path)
    requires Valid(b) && HoldsRelinked(d, b, ps, rs) && s.path in b
    requires q != [] && q != s.path && q in Cover(ps + rs + {s.path})
    requires q in d ==> HasClock(d[q], s.now)
    ensures var r := RelinkStep(d, b, s, depth);
      r.Done? && q in r.tree && HasClock(r.tree[q], s.now)
  {
    hide HoldsRelinked, RelinkStep, Cover, HasClock, Valid, Opened, SetSource, Prefixes;
    RelinkAdds(d, b, ps, rs, s, depth);
    if KindOf(b[s.path]) != Dir && s.path < q {
      BelowIsNew(d, s.path, q);
    }
    StrayOpened(d, s.path, b[s.path], s.now, q);
  }

  lemma BelowIsNew(d: Tree, k: Path, q: Path)
    requires q in d.Keys + Prefixes(k)
    ensures k < q ==> q in d
  {
  }

  /** A directory that is there for a relinked path alone has the time of the clock. */
  lemma {:induction false} StrayTime(d: Tree, b: Tree, ps: set<Path>, steps: seq<Step>, now: int, depth: nat, q: Path)
    requires Valid(b) && ps != {} && Holds(d, b, ps) && Paths(steps) <= b.Keys && ClockIs(steps, now)
    requires q in Cover(Paths(steps)) && q !in Cover(ps) + Paths(steps)
    ensures var r := RelinkAll(d, b, steps, depth);
      r.Done? && q in r.tree && HasClock(r.tree[q], now)
    decreases |steps|
  {
    hide Holds, Cover, HasClock, RelinkStep, HoldsRelinked;
    if steps != [] {
      var n := |steps| - 1;
      var before, rs := steps[..n], Paths(steps[..n]);
      PathsSnoc(steps);
      RelinkAllHolds(d, b, ps, before, depth);
      StrayCases(ps, rs, steps[n].path, q);
      RootCovered(ps, q);
      var t := RelinkAll(d, b, before, depth).tree;
      RelinkedKeys(t, b, ps, rs);
      if q in Cover(rs) {
        StrayTime(d, b, ps, before, now, depth, q);
      }
      RelinkStepTime(t, b, ps, rs, steps[n], depth, q);
    } else {
      NoStray(ps, Paths(steps), q);
    }
  }

  lemma NoStray(ps: set<Path>, rs: set<Path>, q: Path)
    requires rs == {}
    ensures !(q in Cover(rs) && q !in Cover(ps))
  {
  }

  lemma RelinkedKeys(t: Tree, b: Tree, ps: set<Path>, rs: set<Path>)
    requires HoldsRelinked(t, b, ps, rs)
    ensures t.Keys == Cover(ps + rs)
  {
  }

  lemma RootCovered(ps: set<Path>, q: Path)
    requires q !in Cover(ps)
    ensures q != []
  {
  }

  lemma StrayCases(ps: set<Path>, rs: set<Path>, k: Path, q: Path)
    requires q in Cover(rs + {k}) && q !in Cover(ps)
    ensures q in Cover(ps + rs + {k}) && (q in Cover(ps + rs) <==> q in Cover(rs))
  {
    CoverUnion(ps, rs, q);
    CoverUnion(ps + rs, {k}, q);
    CoverUnion(rs, {k}, q);
  }

  // --------------------------------------------------------------- the round trip

  /** After a run whose links were added at `clock`, every stray directory of the diff
      has that time. */
  lemma StrayDated(a: Tree, b: Tree, adds: seq<Step>, dels: seq<Step>, relinks: seq<Step>, clock: int, depth: nat,
                   q: Path)
    requires Fit(a, b) && IsRun(a, b, adds, dels, relinks) && Core(a, b) != {} && ClockIs(relinks, clock)
    requires Stray(a, b, q)
    ensures var r := DiffRun(a, b, adds, dels, relinks, depth);
      r.Done? && q in r.tree && HasClock(r.tree[q], clock)
  {
    hide Cover, Core, Relinks, HasClock, Fit, Holds, Named, UnderLink;
    FitValid(a, b);
    DeletesHold(a, b, adds, dels, depth);
    CoreOf(a, b, adds, dels);
    var d := DelAll(AddAll(a, b, adds, depth).tree, b, dels, depth).tree;
    RelinksKept(a, b);
    StrayTime(d, b, Core(a, b), relinks, clock, depth, q);
  }

  lemma FitValid(a: Tree, b: Tree)
    requires Fit(a, b)
    ensures Valid(a) && Valid(b) && Named(b) && forall k :: k in a ==> !UnderLink(a, b, k)
  {
  }

  lemma RelinksKept(a: Tree, b: Tree)
    ensures Relinks(a, b) <= b.Keys
  {
  }

  lemma ClockDated(d: Tree, a: Tree, b: Tree, clock: int)
    requires ExplicitDirs(b) && IsDiff(d, a, b) && Core(a, b) != {} && clock != ZERO_TIME
    requires forall q :: Stray(a, b, q) ==> q in d && HasClock(d[q], clock)
    ensures Dated(d)
  {
    hide Core, Relinks, Cover, DiffOf, ExplicitDirs;
    var core, links := Core(a, b), Relinks(a, b);
    forall q | q in d && d[q].FreshDir?
      ensures d[q].attrs.mtime != ZERO_TIME
    {
      if !Stray(a, b, q) { DatedAt(d, b, core, links, q); }
    }
  }

  predicate Restores(a: Tree, b: Tree, d: Tree, order: seq<Path>, now: int, depth: nat)
    requires TopDown(d, order)
  {
    var u := Unpack(a, Tar(d, order), now, depth);
    u.Done? && SameTree(Stripped(u.tree), b)
  }

  /** A stray directory is lost: with any clock but the directory's own time, the layer
      does not restore `b`. */
  lemma StrayIsLost(a: Tree, b: Tree, adds: seq<Step>, dels: seq<Step>, relinks: seq<Step>, clock: int,
                    order: seq<Path>, now: int, depth: nat, q: Path)
    requires Fit(a, b) && IsRun(a, b, adds, dels, relinks) && !SameTree(a, b) && Portable(a, b) && TarSafe(b)
    requires ClockIs(relinks, clock) && clock != ZERO_TIME
    requires q in b && Stray(a, b, q) && Info(b[q]).attrs.mtime != clock
    requires var r := DiffRun(a, b, adds, dels, relinks, depth);
      r.Done? ==> TopDown(r.tree, order)
    ensures var r := DiffRun(a, b, adds, dels, relinks, depth);
      r.Done? && !Restores(a, b, r.tree, order, now, depth)
  {
    hide Cover, Core, Relinks, HasClock, Stray, DiffOf, TopDown, TarSafe;
    DiffExact(a, b, adds, dels, relinks, depth);
    var d := DiffRun(a, b, adds, dels, relinks, depth).tree;
    CoreEmpty(a, b);
    forall p | Stray(a, b, p)
      ensures p in d && HasClock(d[p], clock)
    {
      StrayDated(a, b, adds, dels, relinks, clock, depth, p);
    }
    ClockDated(d, a, b, clock);
    LayerRoundTrip(a, b, d, order, now, depth);
    ClockDiffers(d[q], b[q], clock);
  }

  lemma ClockDiffers(s: Source, o: Source, clock: int)
    requires HasClock(s, clock) && Info(o).attrs.mtime != clock
    ensures !SameNode(s, o)
  {
  }

  ghost predicate AlwaysRestores(a: Tree, b: Tree) {
    forall adds, dels, relinks, order, now, depth :: IsRun(a, b, adds, dels, relinks) ==>
      RunRestores(a, b, adds, dels, relinks, order, now, depth)
  }

  predicate RunRestores(a: Tree, b: Tree, adds: seq<Step>, dels: seq<Step>, relinks: seq<Step>,
                        order: seq<Path>, now: int, depth: nat)
  {
    var r := DiffRun(a, b, adds, dels, relinks, depth);
    r.Done? && (TopDown(r.tree, order) ==> Restores(a, b, r.tree, order, now, depth))
  }

  lemma StrayRun(a: Tree, b: Tree, q: Path)
    requires Fit(a, b) && !SameTree(a, b) && Portable(a, b) && TarSafe(b)
    requires q in b && Stray(a, b, q)
    ensures !AlwaysRestores(a, b)
  {
    hide Fit, SameTree, Portable, TarSafe, Stray, Restores, DiffOf, DiffRun, ClockIs, Relinks;
    var mtime := Info(b[q]).attrs.mtime;
    var clock := if mtime == ZERO_TIME + 1 then ZERO_TIME + 2 else ZERO_TIME + 1;
    var adds := StepsFor(b.Keys, clock);
    var dels := StepsFor(a.Keys, clock);
    var relinks := StepsFor(Relinks(a, b), clock);
    DiffExact(a, b, adds, dels, relinks, 0);
    var d := DiffRun(a, b, adds, dels, relinks, 0).tree;
    var order := TopDownOrder(d.Keys);
    StrayIsLost(a, b, adds, dels, relinks, clock, order, 0, 0, q);
    assert !RunRestores(a, b, adds, dels, relinks, order, 0, 0);
  }

  /** Every run of a commit, with every clock, can be restored if and only if no
      directory is in the layer for a relinked path alone. */
  lemma RestoredUnlessStray(a: Tree, b: Tree)
    requires Fit(a, b) && !SameTree(a, b) && Portable(a, b) && TarSafe(b)
    ensures AlwaysRestores(a, b) <==> forall q :: q in b ==> !Stray(a, b, q)
  {
    hide Fit, SameTree, Portable, TarSafe, Stray, IsRun, TopDown;
    if q :| q in b && Stray(a, b, q) {
      StrayRun(a, b, q);
    } else {
      forall adds, dels, relinks, order, now, depth: nat | IsRun(a, b, adds, dels, relinks)
        ensures RunRestores(a, b, adds, dels, relinks, order, now, depth)
      {
        DiffExact(a, b, adds, dels, relinks, depth);
        if TopDown(DiffRun(a, b, adds, dels, relinks, depth).tree, order) {
          CommitRoundTrip(a, b, adds, dels, relinks, order, now, depth);
        }
      }
    }
  }
}
