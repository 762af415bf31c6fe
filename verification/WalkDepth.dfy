/** How deep the resolution of symlinks has to nest: what a walk does depends on the
    symlinks of the tree alone, and the number of symlinks bounds the nesting. */
module WalkDepth {
  import opened FsTypes
  import opened PathWalk
  import opened Options

  // ----------------------------------------------------------- walks without a tree

  datatype Trail = Ends(path: Path) | Stuck(why: Failure)

  /** The symlinks of a tree and what a walk finds: the nodes of the tree for a lookup,
      anything for a walk that creates what is missing. */
  datatype Map = Map(links: map<Path, string>, nodes: Option<set<Path>>)

  predicate Finds(m: Map, p: Path) {
    m.nodes.Some? ==> p in m.nodes.value
  }

  /** The way of a walk, over the symlinks alone. */
  function Trace(m: Map, at: Path, ups: nat, names: seq<Name>, depth: nat): Trail
    decreases depth, ups + |names|, 1
  {
    var here := Target(m, at, depth);
    if here.Stuck? then here else Go(m, here.path, ups, names, depth)
  }

  function Target(m: Map, at: Path, depth: nat): Trail
    decreases depth, 0, 0
  {
    if at !in m.links then Ends(at)
    else if depth == 0 then Stuck(TooDeep)
    else if at == [] || !Finds(m, Start(m, at)) then Stuck(NilParent)
    else Trace(m, Start(m, at), Clean(m.links[at]).ups, Clean(m.links[at]).names, depth - 1)
  }

  /** Where the target of a symlink starts. */
  function Start(m: Map, at: Path): Path
    requires at in m.links && at != []
  {
    if Clean(m.links[at]).abs then [] else Parent(at)
  }

  function Go(m: Map, at: Path, ups: nat, names: seq<Name>, depth: nat): Trail
    decreases depth, ups + |names|, 0
  {
    if ups > 0 then
      if at == [] then Stuck(OutsideRoot)
      else if !Finds(m, Parent(at)) then Stuck(NilParent)
      else Trace(m, Parent(at), ups - 1, names, depth)
    else if names == [] then Ends(at)
    else if !Finds(m, at + [names[0]]) then Stuck(NotFound)
    else Trace(m, at + [names[0]], 0, names[1..], depth)
  }

  function Links(t: Tree): set<Path> {
    set p | p in t && KindOf(t[p]) == Symlink
  }

  function MapOf(t: Tree, w: Walker): Map {
    Map(map p | p in Links(t) :: Info(t[p]).attrs.symlink, if w.Lookup? then Some(t.Keys) else None)
  }

  /** Walkers that create need a tree whose nodes have their parents. */
  predicate Walkable(t: Tree, w: Walker) {
    w.Lookup? || Valid(t)
  }

  /** The walk goes the way of the trail, and the symlinks stay what they are. */
  predicate Follows(r: Walked, trail: Trail, t: Tree, w: Walker) {
    match r
    case Failed(why) => trail == Stuck(why)
    case At(u, p) => trail == Ends(p) && MapOf(u, w) == MapOf(t, w) && p !in MapOf(u, w).links && Walkable(u, w)
  }

  lemma OnMap(t: Tree, p: Path, w: Walker)
    requires p in t
    ensures var m := MapOf(t, w);
      (KindOf(t[p]) == Symlink <==> p in m.links) && (p in m.links ==> m.links[p] == Info(t[p]).attrs.symlink)
  {
  }

  lemma FindsNode(t: Tree, p: Path, w: Walker)
    ensures Finds(MapOf(t, w), p) <==> !w.Lookup? || p in t
  {
  }

  lemma ParentFound(t: Tree, p: Path, w: Walker)
    requires Walkable(t, w) && p in t && p != []
    ensures !w.Lookup? ==> Parent(p) in t && [] in t
  {
  }

  lemma VisitKeepsMap(t: Tree, p: Path, w: Walker)
    requires p in t && KindOf(t[p]) != Symlink
    ensures MapOf(Visit(t, p, w), w) == MapOf(t, w) && Visit(t, p, w).Keys == t.Keys
    ensures Walkable(t, w) ==> Walkable(Visit(t, p, w), w)
    ensures !w.Lookup? ==> KindOf(Visit(t, p, w)[p]) == Dir
  {
    var u := Visit(t, p, w);
    if Valid(t) { VisitValid(t, p, w); }
    hide Valid;
    forall q | q in t
      ensures q in Links(u) <==> q in Links(t)
      ensures q in Links(t) ==> u[q] == t[q]
    {
    }
    hide Visit;
    assert Links(u) == Links(t);
  }

  lemma WalkableValid(t: Tree, w: Walker)
    requires Walkable(t, w) && !w.Lookup?
    ensures Valid(t)
  {
  }

  lemma NewDirKeepsMap(t: Tree, p: Path, w: Walker)
    requires p !in t && p != [] && Parent(p) in t && KindOf(t[Parent(p)]) == Dir && !w.Lookup? && Valid(t)
    ensures var u := t[p := NewDir(DIR_ATTRS, w.now)]; MapOf(u, w) == MapOf(t, w) && Walkable(u, w)
  {
    var u := t[p := NewDir(DIR_ATTRS, w.now)];
    assert Links(u) == Links(t);
  }

  lemma {:induction false} WalkFollows(t: Tree, at: Path, ups: nat, names: seq<Name>, w: Walker, depth: nat)
    requires at in t && Walkable(t, w)
    ensures Follows(Walk(t, at, ups, names, w, depth), Trace(MapOf(t, w), at, ups, names, depth), t, w)
    decreases depth, ups + |names|, 1
  {
    hide MapOf, Walkable;
    ResolveFollows(t, at, w, depth);
    var here := Resolve(t, at, w, depth);
    if here.At? {
      OnMap(here.tree, here.path, w);
      OnwardFollows(here.tree, here.path, ups, names, w, depth);
    }
  }

  lemma {:induction false} ResolveFollows(t: Tree, at: Path, w: Walker, depth: nat)
    requires at in t && Walkable(t, w)
    ensures Follows(Resolve(t, at, w, depth), Target(MapOf(t, w), at, depth), t, w)
    decreases depth, 0, 0
  {
    hide MapOf, Walkable;
    OnMap(t, at, w);
    if KindOf(t[at]) == Symlink && depth > 0 && at != [] {
      ParentFound(t, at, w);
      var link := Clean(Info(t[at]).attrs.symlink);
      var start := if link.abs then [] else Parent(at);
      FindsNode(t, start, w);
      if start in t { WalkFollows(t, start, link.ups, link.names, w, depth - 1); }
    }
  }

  lemma {:induction false} OnwardFollows(t: Tree, at: Path, ups: nat, names: seq<Name>, w: Walker, depth: nat)
    requires at in t && Walkable(t, w) && KindOf(t[at]) != Symlink
    ensures Follows(Onward(t, at, ups, names, w, depth), Go(MapOf(t, w), at, ups, names, depth), t, w)
    decreases depth, ups + |names|, 0
  {
    hide MapOf, Walkable, Valid, Visit;
    VisitKeepsMap(t, at, w);
    OnMap(t, at, w);
    var u := Visit(t, at, w);
    if ups > 0 {
      if at != [] {
        ParentFound(t, at, w);
        FindsNode(t, Parent(at), w);
      }
      if at != [] && Parent(at) in u { WalkFollows(u, Parent(at), ups - 1, names, w, depth); }
    } else if names != [] {
      var child := at + [names[0]];
      FindsNode(t, child, w);
      if child in u {
        WalkFollows(u, child, 0, names[1..], w, depth);
      } else if !w.Lookup? {
        assert Parent(child) == at;
        WalkableValid(u, w);
        NewDirKeepsMap(u, child, w);
        WalkFollows(u[child := NewDir(DIR_ATTRS, w.now)], child, 0, names[1..], w, depth);
      }
    }
  }

  // -------------------------------------------------- the number of symlinks is enough

  /** A trail that stays within its depth bound is not changed by a larger one. */
  lemma {:induction false} TraceMonotone(m: Map, at: Path, ups: nat, names: seq<Name>, depth: nat)
    requires Trace(m, at, ups, names, depth) != Stuck(TooDeep)
    ensures Trace(m, at, ups, names, depth + 1) == Trace(m, at, ups, names, depth)
    decreases depth, ups + |names|, 1
  {
    TargetMonotone(m, at, depth);
    var here := Target(m, at, depth);
    if here.Ends? {
      var p := here.path;
      if ups > 0 {
        if p != [] && Finds(m, Parent(p)) { TraceMonotone(m, Parent(p), ups - 1, names, depth); }
      } else if names != [] && Finds(m, p + [names[0]]) {
        TraceMonotone(m, p + [names[0]], 0, names[1..], depth);
      }
    }
  }

  lemma {:induction false} TargetMonotone(m: Map, at: Path, depth: nat)
    requires Target(m, at, depth) != Stuck(TooDeep)
    ensures Target(m, at, depth + 1) == Target(m, at, depth)
    decreases depth, 0, 0
  {
    if at in m.links && at != [] && Finds(m, Start(m, at)) {
      TraceMonotone(m, Start(m, at), Clean(m.links[at]).ups, Clean(m.links[at]).names, depth - 1);
    }
  }

  /** The symlinks that can be resolved when resolutions nest at most `depth` deep. */
  function Solved(m: Map, depth: nat): set<Path> {
    set p | p in m.links && Target(m, p, depth) != Stuck(TooDeep)
  }

  lemma SolvedGrows(m: Map, depth: nat)
    ensures Solved(m, depth) <= Solved(m, depth + 1) <= m.links.Keys
  {
    forall p | p in Solved(m, depth) ensures p in Solved(m, depth + 1) { TargetMonotone(m, p, depth); }
  }

  /** Once one more level solves no further symlink, it changes no trail at all. */
  lemma {:induction false} SettledTrace(m: Map, at: Path, ups: nat, names: seq<Name>, depth: nat)
    requires Solved(m, depth) == Solved(m, depth + 1)
    ensures Trace(m, at, ups, names, depth + 1) == Trace(m, at, ups, names, depth)
    decreases ups + |names|
  {
    var here := Target(m, at, depth);
    if here != Stuck(TooDeep) {
      TargetMonotone(m, at, depth);
      if here.Ends? {
        var p := here.path;
        if ups > 0 {
          if p != [] && Finds(m, Parent(p)) { SettledTrace(m, Parent(p), ups - 1, names, depth); }
        } else if names != [] && Finds(m, p + [names[0]]) {
          SettledTrace(m, p + [names[0]], 0, names[1..], depth);
        }
      }
    } else {
      assert at !in Solved(m, depth + 1);
    }
  }

  lemma SettledStaysSettled(m: Map, depth: nat)
    requires Solved(m, depth) == Solved(m, depth + 1)
    ensures Solved(m, depth + 1) == Solved(m, depth + 2)
  {
    SolvedGrows(m, depth + 1);
    var solved, more := Solved(m, depth + 1), Solved(m, depth + 2);
    forall p | p in more
      ensures p in solved
    {
      if p != [] && Finds(m, Start(m, p)) {
        SettledTrace(m, Start(m, p), Clean(m.links[p]).ups, Clean(m.links[p]).names, depth);
      }
    }
  }

  /** Each level either solves a new symlink or is the last one that matters. */
  lemma {:induction false} SolvesOrSettles(m: Map, depth: nat)
    ensures Solved(m, depth) == Solved(m, depth + 1) || |Solved(m, depth + 1)| > depth
  {
    SolvedGrows(m, depth);
    if depth > 0 {
      SolvesOrSettles(m, depth - 1);
      if Solved(m, depth - 1) == Solved(m, depth) {
        SettledStaysSettled(m, depth - 1);
      }
    }
    if Solved(m, depth) != Solved(m, depth + 1) {
      CardGrows(Solved(m, depth), Solved(m, depth + 1));
    }
  }

  lemma CardGrows<T>(s: set<T>, u: set<T>)
    requires s < u
    ensures |s| < |u|
  {
    assert u == s + (u - s);
    assert u - s != {};
  }

  lemma CardMonotone<T>(s: set<T>, u: set<T>)
    requires s <= u
    ensures |s| <= |u|
  {
    assert u == s + (u - s);
  }

  lemma Settles(m: Map, depth: nat)
    requires depth >= |m.links.Keys|
    ensures Solved(m, depth) == Solved(m, depth + 1)
  {
    SolvesOrSettles(m, depth);
    SolvedGrows(m, depth);
    CardMonotone(Solved(m, depth + 1), m.links.Keys);
  }

  lemma {:induction false} TraceSettles(m: Map, at: Path, ups: nat, names: seq<Name>, depth: nat)
    requires depth >= |m.links.Keys|
    ensures Trace(m, at, ups, names, depth) == Trace(m, at, ups, names, |m.links.Keys|)
    decreases depth
  {
    if depth > |m.links.Keys| {
      TraceSettles(m, at, ups, names, depth - 1);
      Settles(m, depth - 1);
      SettledTrace(m, at, ups, names, depth - 1);
    }
  }

  lemma {:induction false} WalkMonotone(t: Tree, at: Path, ups: nat, names: seq<Name>, w: Walker, few: nat, depth: nat)
    requires at in t && few <= depth && Walk(t, at, ups, names, w, few) != Failed(TooDeep)
    ensures Walk(t, at, ups, names, w, depth) == Walk(t, at, ups, names, w, few)
    decreases depth
  {
    if few < depth {
      WalkMonotone(t, at, ups, names, w, few, depth - 1);
      DepthMonotone(t, at, ups, names, w, depth - 1);
    }
  }

  /** A walk that nests deeper than the tree has symlinks never ends: with any bound from
      the number of symlinks on, the outcome is the same, for lookups and for both walks
      that create directories. */
  lemma WalkSettles(t: Tree, at: Path, ups: nat, names: seq<Name>, w: Walker, depth: nat)
    requires at in t && Walkable(t, w) && depth >= |Links(t)|
    ensures Walk(t, at, ups, names, w, depth) == Walk(t, at, ups, names, w, |Links(t)|)
  {
    var m, n := MapOf(t, w), |Links(t)|;
    assert m.links.Keys == Links(t);
    WalkFollows(t, at, ups, names, w, depth);
    WalkFollows(t, at, ups, names, w, n);
    TraceSettles(m, at, ups, names, depth);
    if Walk(t, at, ups, names, w, n) != Failed(TooDeep) {
      WalkMonotone(t, at, ups, names, w, n, depth);
    }
  }

  // ----------------------------------------------------------------- which walks end

  /** The symlinks that a walk itself meets, not those behind them. */
  function Met(m: Map, at: Path, ups: nat, names: seq<Name>, depth: nat): set<Path>
    decreases ups + |names|
  {
    var met := if at in m.links then {at} else {};
    var here := Target(m, at, depth);
    if here.Stuck? then met
    else if ups > 0 then
      if here.path == [] || !Finds(m, Parent(here.path)) then met
      else met + Met(m, Parent(here.path), ups - 1, names, depth)
    else if names == [] || !Finds(m, here.path + [names[0]]) then met
    else met + Met(m, here.path + [names[0]], 0, names[1..], depth)
  }

  /** A walk ends within its bound exactly when all symlinks it meets can be resolved. */
  lemma {:induction false} MetSolved(m: Map, at: Path, ups: nat, names: seq<Name>, depth: nat)
    ensures Met(m, at, ups, names, depth) <= m.links.Keys
    ensures Met(m, at, ups, names, depth) <= Solved(m, depth) <==> Trace(m, at, ups, names, depth) != Stuck(TooDeep)
    decreases ups + |names|
  {
    var here := Target(m, at, depth);
    if here.Ends? {
      var p := here.path;
      if ups > 0 {
        if p != [] && Finds(m, Parent(p)) { MetSolved(m, Parent(p), ups - 1, names, depth); }
      } else if names != [] && Finds(m, p + [names[0]]) {
        MetSolved(m, p + [names[0]], 0, names[1..], depth);
      }
    }
  }

  lemma {:induction false} MetMonotone(m: Map, at: Path, ups: nat, names: seq<Name>, few: nat, depth: nat)
    requires few <= depth && Trace(m, at, ups, names, few) != Stuck(TooDeep)
    ensures Met(m, at, ups, names, depth) == Met(m, at, ups, names, few)
    decreases ups + |names|
  {
    TargetStays(m, at, few, depth);
    var here := Target(m, at, few);
    if here.Ends? {
      var p := here.path;
      if ups > 0 {
        if p != [] && Finds(m, Parent(p)) { MetMonotone(m, Parent(p), ups - 1, names, few, depth); }
      } else if names != [] && Finds(m, p + [names[0]]) {
        MetMonotone(m, p + [names[0]], 0, names[1..], few, depth);
      }
    }
  }

  lemma {:induction false} TargetStays(m: Map, at: Path, few: nat, depth: nat)
    requires few <= depth && Target(m, at, few) != Stuck(TooDeep)
    ensures Target(m, at, depth) == Target(m, at, few)
    decreases depth
  {
    if few < depth {
      TargetStays(m, at, few, depth - 1);
      TargetMonotone(m, at, depth - 1);
    }
  }

  /** The symlinks on the way to the target of a symlink. */
  function Behind(m: Map, p: Path, depth: nat): set<Path>
    requires p in m.links
  {
    if p == [] || !Finds(m, Start(m, p)) then {}
    else Met(m, Start(m, p), Clean(m.links[p]).ups, Clean(m.links[p]).names, depth)
  }

  /** A symlink can be resolved one level deeper than all symlinks behind it. */
  lemma BehindSolved(m: Map, p: Path, depth: nat)
    requires p in m.links
    ensures Behind(m, p, depth) <= m.links.Keys
    ensures p in Solved(m, depth + 1) <==> Behind(m, p, depth) <= Solved(m, depth)
  {
    if p != [] && Finds(m, Start(m, p)) {
      MetSolved(m, Start(m, p), Clean(m.links[p]).ups, Clean(m.links[p]).names, depth);
    }
  }

  /** Every symlink has a higher rank than those on the way to its target. */
  predicate Falls(m: Map, rank: map<Path, nat>) {
    && rank.Keys == m.links.Keys
    && forall p, q :: p in m.links && q in Behind(m, p, |m.links.Keys|) ==> q in rank && rank[q] < rank[p]
  }

  lemma {:induction false} FallingSolves(m: Map, rank: map<Path, nat>, p: Path)
    requires Falls(m, rank) && p in m.links
    ensures p in Solved(m, |m.links.Keys|)
    decreases rank[p]
  {
    var n := |m.links.Keys|;
    forall q | q in Behind(m, p, n)
      ensures q in Solved(m, n)
    {
      BehindSolved(m, p, n);
      FallingSolves(m, rank, q);
    }
    BehindSolved(m, p, n);
    Settles(m, n);
  }

  /** The least depth that resolves the symlink. */
  function Level(m: Map, p: Path, depth: nat): (l: nat)
    requires p in Solved(m, depth)
    ensures 0 < l <= depth && p in Solved(m, l) && p !in Solved(m, l - 1)
    decreases depth
  {
    if p in Solved(m, depth - 1) then Level(m, p, depth - 1) else depth
  }

  lemma {:induction false} SolvedStays(m: Map, p: Path, few: nat, depth: nat)
    requires few <= depth && p in Solved(m, few)
    ensures p in Solved(m, depth)
    decreases depth
  {
    if few < depth {
      SolvedStays(m, p, few, depth - 1);
      SolvedGrows(m, depth - 1);
    }
  }

  lemma BehindStays(m: Map, p: Path, few: nat, depth: nat)
    requires few <= depth && p in m.links && p in Solved(m, few + 1)
    ensures Behind(m, p, depth) == Behind(m, p, few)
  {
    hide Met;
    if p != [] && Finds(m, Start(m, p)) {
      MetMonotone(m, Start(m, p), Clean(m.links[p]).ups, Clean(m.links[p]).names, few, depth);
    }
  }

  lemma LevelFalls(m: Map, p: Path, q: Path, depth: nat)
    requires p in Solved(m, depth) && p in m.links && q in Solved(m, depth) && q in Behind(m, p, depth)
    ensures Level(m, q, depth) < Level(m, p, depth)
  {
    hide Behind, Solved, Level;
    var l := Level(m, p, depth);
    BehindSolved(m, p, l - 1);
    BehindStays(m, p, l - 1, depth);
    assert q in Solved(m, l - 1);
    if Level(m, q, depth) >= l {
      SolvedStays(m, q, l - 1, Level(m, q, depth) - 1);
    }
  }

  ghost predicate Ranked(m: Map) {
    exists rank :: Falls(m, rank)
  }

  lemma RankedIff(m: Map)
    ensures Ranked(m) <==> Solved(m, |m.links.Keys|) == m.links.Keys
  {
    hide Behind, Solved, Level;
    var n := |m.links.Keys|;
    SolvedGrows(m, n);
    if rank :| Falls(m, rank) {
      forall p | p in m.links ensures p in Solved(m, n) { FallingSolves(m, rank, p); }
    }
    if Solved(m, n) == m.links.Keys {
      var rank: map<Path, nat> := map p | p in Solved(m, n) :: Level(m, p, n);
      forall p, q | p in m.links && q in Behind(m, p, n)
        ensures q in rank && rank[q] < rank[p]
      {
        BehindSolved(m, p, n);
        LevelFalls(m, p, q, n);
      }
      assert Falls(m, rank);
    }
  }

  ghost predicate AlwaysEnds(t: Tree, w: Walker) {
    forall at, ups, names, depth :: at in t && depth >= |Links(t)| ==>
      Walk(t, at, ups, names, w, depth) != Failed(TooDeep)
  }

  /** Every walk ends, whatever its path, if and only if the symlinks can be ranked so that
      the way to a target meets only symlinks of lower rank. */
  lemma EndsIffRanked(t: Tree, w: Walker)
    requires Walkable(t, w)
    ensures AlwaysEnds(t, w) <==> Ranked(MapOf(t, w))
  {
    var m, n := MapOf(t, w), |Links(t)|;
    assert m.links.Keys == Links(t);
    RankedIff(m);
    if Ranked(m) {
      forall at, ups: nat, names, depth | at in t && depth >= n
        ensures Walk(t, at, ups, names, w, depth) != Failed(TooDeep)
      {
        WalkSettles(t, at, ups, names, w, depth);
        WalkFollows(t, at, ups, names, w, n);
        MetSolved(m, at, ups, names, n);
      }
    }
    if AlwaysEnds(t, w) {
      forall p | p in m.links
        ensures p in Solved(m, n)
      {
        assert Walk(t, p, 0, [], w, n) != Failed(TooDeep);
        WalkFollows(t, p, 0, [], w, n);
        MetSolved(m, p, 0, [], n);
      }
    }
  }
}
