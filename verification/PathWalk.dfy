/** Path walking over a file system tree: symlink resolution, creation of missing
    directories, and insertion of nodes below the directory a path resolves to. */
module PathWalk {
  import opened FsTypes
  import opened Text

  // ---------------------------------------------------------------- clean paths

  /** The name of one entry, which no walk reads as anything else. */
  predicate ProperName(n: Name) {
    n != "" && n != "." && n != ".." && '/' !in n
  }

  /** A cleaned path: absolute or relative, with `ups` leading ".." components. */
  datatype Route = Route(abs: bool, ups: nat, names: seq<Name>)

  function CleanSegments(r: Route, segments: seq<string>): Route
    decreases |segments|
  {
    if segments == [] then r
    else
      var s := segments[0];
      var r' :=
        if s == "" || s == "." then r
        else if s != ".." then r.(names := r.names + [s])
        else if r.names != [] then r.(names := r.names[..|r.names| - 1])
        else if r.abs then r
        else r.(ups := r.ups + 1);
      CleanSegments(r', segments[1..])
  }

  /** filepath.Clean followed by the split into components. */
  function Clean(s: string): Route {
    CleanSegments(Route(s != "" && s[0] == '/', 0, []), Split(s, '/'))
  }

  // -------------------------------------------------------------------- walking

  datatype Walker =
    | Lookup
    | MkdirsLower(now: int)
    | MkdirsUpper(now: int)

  /** Why a walk does not return a node. `TooDeep` is the model's bound on nested
      symlink resolution, `NilParent` the dereference of a missing parent. */
  datatype Failure = NotFound | OutsideRoot | NilParent | TooDeep

  datatype Walked =
    | At(tree: Tree, path: Path)
    | Failed(why: Failure)

  /** What the walker does to a node it visits. */
  function Visit(t: Tree, p: Path, w: Walker): Tree
    requires p in t
  {
    match w
    case Lookup => t
    case MkdirsLower(now) =>
      if KindOf(t[p]) != Dir then t[p := NewDir(DIR_ATTRS, now)] else t
    case MkdirsUpper(now) =>
      if KindOf(t[p]) != Dir then t[p := NewDir(DIR_ATTRS, now)]
      else if IsLower(t[p]) || p == [] then t[p := NewDir(Info(t[p]).attrs, now)]
      else t
  }

  /** FsNode.walkPath from the node at `at` along `ups` parents and then `names`.
      `depth` bounds how deep symlink resolutions nest. */
  function Walk(t: Tree, at: Path, ups: nat, names: seq<Name>, w: Walker, depth: nat): (r: Walked)
    requires at in t
    ensures r.At? ==> r.path in r.tree
    decreases depth, ups + |names|, 1
  {
    var here := Resolve(t, at, w, depth);
    if here.Failed? then here
    else Onward(here.tree, here.path, ups, names, w, depth)
  }

  /** The node a walk goes on from: the target if the node is a symlink. */
  function Resolve(t: Tree, at: Path, w: Walker, depth: nat): (r: Walked)
    requires at in t
    ensures r.At? ==> r.path in r.tree
    decreases depth, 0, 0
  {
    if KindOf(t[at]) != Symlink then At(t, at)
    else if depth == 0 then Failed(TooDeep)
    else if at == [] then Failed(NilParent)
    else
      var link := Clean(Info(t[at]).attrs.symlink);
      var start := if link.abs then [] else Parent(at);
      if start !in t then Failed(NilParent)
      else Walk(t, start, link.ups, link.names, w, depth - 1)
  }

  /** Visits the node and takes the next step of the path. */
  function Onward(t: Tree, at: Path, ups: nat, names: seq<Name>, w: Walker, depth: nat): (r: Walked)
    requires at in t
    ensures r.At? ==> r.path in r.tree
    decreases depth, ups + |names|, 0
  {
    var t' := Visit(t, at, w);
    if ups > 0 then
      if at == [] then Failed(OutsideRoot)
      else if Parent(at) !in t' then Failed(NilParent)
      else Walk(t', Parent(at), ups - 1, names, w, depth)
    else if names == [] then At(t', at)
    else
      var child := at + [names[0]];
      if child in t' then Walk(t', child, 0, names[1..], w, depth)
      else if w.Lookup? then Failed(NotFound)
      else Walk(t'[child := NewDir(DIR_ATTRS, w.now)], child, 0, names[1..], w, depth)
  }

  /** FsNode.add for an absolute path: walks to the parent directory and sets the
      source of its (possibly new) entry. The last component is not resolved. */
  function Add(t: Tree, path: Path, src: Source, w: Walker, depth: nat): (r: Walked)
    requires [] in t
    ensures r.At? ==> r.path in r.tree
  {
    if path == [] then
      var root := Walk(t, [], 0, [], w, depth);
      if root.Failed? then root else At(SetSource(root.tree, root.path, src), root.path)
    else
      var dir := Walk(t, [], 0, Parent(path), w, depth);
      if dir.Failed? then dir
      else
        var node := dir.path + [path[|path| - 1]];
        At(SetSource(dir.tree, node, src), node)
  }

  // ------------------------------------------------- walks keep the tree's shape

  lemma VisitValid(t: Tree, p: Path, w: Walker)
    requires Valid(t) && p in t
    ensures Valid(Visit(t, p, w))
    ensures Visit(t, p, w).Keys == t.Keys
    ensures !w.Lookup? ==> KindOf(Visit(t, p, w)[p]) == Dir
  {
  }

  /** Every walk over a valid tree ends in a valid tree; a walk that creates
      directories ends at a directory. */
  lemma {:induction false} WalkValid(t: Tree, at: Path, ups: nat, names: seq<Name>, w: Walker, depth: nat)
    requires Valid(t) && at in t
    ensures var r := Walk(t, at, ups, names, w, depth);
      r.At? ==>
        && Valid(r.tree)
        && t.Keys <= r.tree.Keys
        && KindOf(r.tree[r.path]) != Symlink
        && (!w.Lookup? ==> KindOf(r.tree[r.path]) == Dir)
    decreases depth, ups + |names|, 1
  {
    if KindOf(t[at]) == Symlink && depth > 0 && at != [] {
      var link := Clean(Info(t[at]).attrs.symlink);
      var start := if link.abs then [] else Parent(at);
      if start in t {
        WalkValid(t, start, link.ups, link.names, w, depth - 1);
      }
    }
    var here := Resolve(t, at, w, depth);
    if here.At? {
      OnwardValid(here.tree, here.path, ups, names, w, depth);
    }
  }

  lemma {:induction false} OnwardValid(t: Tree, at: Path, ups: nat, names: seq<Name>, w: Walker, depth: nat)
    requires Valid(t) && at in t && KindOf(t[at]) != Symlink
    ensures var r := Onward(t, at, ups, names, w, depth);
      r.At? ==>
        && Valid(r.tree)
        && t.Keys <= r.tree.Keys
        && KindOf(r.tree[r.path]) != Symlink
        && (!w.Lookup? ==> KindOf(r.tree[r.path]) == Dir)
    decreases depth, ups + |names|, 0
  {
    VisitValid(t, at, w);
    var t' := Visit(t, at, w);
    if ups > 0 {
      if at != [] && Parent(at) in t' {
        WalkValid(t', Parent(at), ups - 1, names, w, depth);
      }
    } else if names != [] {
      var child := at + [names[0]];
      if child in t' {
        WalkValid(t', child, 0, names[1..], w, depth);
      } else if !w.Lookup? {
        assert Parent(child) == at;
        var t'' := t'[child := NewDir(DIR_ATTRS, w.now)];
        assert Valid(t'');
        WalkValid(t'', child, 0, names[1..], w, depth);
      }
    }
  }

  // ------------------------------------------------------------ the depth bound

  /** A walk that stays within its depth bound is not changed by a larger one. */
  lemma {:induction false} DepthMonotone(t: Tree, at: Path, ups: nat, names: seq<Name>, w: Walker, depth: nat)
    requires at in t
    requires Walk(t, at, ups, names, w, depth) != Failed(TooDeep)
    ensures Walk(t, at, ups, names, w, depth + 1) == Walk(t, at, ups, names, w, depth)
    decreases depth, ups + |names|, 1
  {
    if KindOf(t[at]) == Symlink && depth > 0 && at != [] {
      var link := Clean(Info(t[at]).attrs.symlink);
      var start := if link.abs then [] else Parent(at);
      if start in t {
        DepthMonotone(t, start, link.ups, link.names, w, depth - 1);
      }
    }
    var here := Resolve(t, at, w, depth);
    assert Resolve(t, at, w, depth + 1) == here;
    if here.At? {
      DepthMonotoneOnward(here.tree, here.path, ups, names, w, depth);
    }
  }

  lemma {:induction false} DepthMonotoneOnward(t: Tree, at: Path, ups: nat, names: seq<Name>, w: Walker, depth: nat)
    requires at in t
    requires Onward(t, at, ups, names, w, depth) != Failed(TooDeep)
    ensures Onward(t, at, ups, names, w, depth + 1) == Onward(t, at, ups, names, w, depth)
    decreases depth, ups + |names|, 0
  {
    var t' := Visit(t, at, w);
    if ups > 0 {
      if at != [] && Parent(at) in t' {
        DepthMonotone(t', Parent(at), ups - 1, names, w, depth);
      }
    } else if names != [] {
      var child := at + [names[0]];
      if child in t' {
        DepthMonotone(t', child, 0, names[1..], w, depth);
      } else if !w.Lookup? {
        DepthMonotone(t'[child := NewDir(DIR_ATTRS, w.now)], child, 0, names[1..], w, depth);
      }
    }
  }

  // ----------------------------------------------------- what creating paths does

  /** What creating directories may do to a tree: symlinks stay, directories keep
      their attributes, other nodes may become directories, new nodes are
      default directories. */
  predicate Touched(t: Tree, u: Tree, now: int) {
    t.Keys <= u.Keys &&
    forall p :: p in u ==>
      if p !in t then u[p] == NewDir(DIR_ATTRS, now)
      else if KindOf(t[p]) == Symlink then u[p] == t[p]
      else u[p] == t[p] || u[p] == NewDir(if KindOf(t[p]) == Dir then Info(t[p]).attrs else DIR_ATTRS, now)
  }

  lemma TouchedTransitive(t: Tree, u: Tree, v: Tree, now: int)
    requires Touched(t, u, now) && Touched(u, v, now)
    ensures Touched(t, v, now)
  {
  }

  /** Directories created on the way to `path` make a lookup of the same path, in
      this tree or a later one, end at the same node. */
  lemma {:induction false} MkdirsThenLookup(
    t: Tree, at: Path, ups: nat, names: seq<Name>, w: Walker, depth: nat, later: Tree)
    requires at in t && !w.Lookup?
    requires Walk(t, at, ups, names, w, depth).At?
    ensures var end := Walk(t, at, ups, names, w, depth);
      Touched(t, end.tree, w.now) && KindOf(end.tree[end.path]) == Dir
    ensures Touched(Walk(t, at, ups, names, w, depth).tree, later, w.now) ==>
              Walk(later, at, ups, names, Lookup, depth) == At(later, Walk(t, at, ups, names, w, depth).path)
    decreases depth, ups + |names|, 1
  {
    var here := Resolve(t, at, w, depth);
    var end := Walk(t, at, ups, names, w, depth);
    if KindOf(t[at]) == Symlink {
      var link := Clean(Info(t[at]).attrs.symlink);
      MkdirsThenLookup(t, if link.abs then [] else Parent(at), link.ups, link.names, w, depth - 1, later);
    }
    MkdirsThenLookupOnward(here.tree, here.path, ups, names, w, depth, later);
    TouchedTransitive(t, here.tree, end.tree, w.now);
    if Touched(end.tree, later, w.now) {
      TouchedTransitive(here.tree, end.tree, later, w.now);
      assert Resolve(later, at, Lookup, depth) == At(later, here.path);
    }
  }

  lemma {:induction false} MkdirsThenLookupOnward(
    t: Tree, at: Path, ups: nat, names: seq<Name>, w: Walker, depth: nat, later: Tree)
    requires at in t && !w.Lookup?
    requires Onward(t, at, ups, names, w, depth).At?
    requires KindOf(t[at]) != Symlink
    ensures var end := Onward(t, at, ups, names, w, depth);
      Touched(t, end.tree, w.now) && KindOf(end.tree[end.path]) == Dir
    ensures Touched(Onward(t, at, ups, names, w, depth).tree, later, w.now) ==>
              Onward(later, at, ups, names, Lookup, depth) == At(later, Onward(t, at, ups, names, w, depth).path)
    decreases depth, ups + |names|, 0
  {
    var t' := Visit(t, at, w);
    assert Touched(t, t', w.now);
    var end := Onward(t, at, ups, names, w, depth);
    if ups > 0 {
      MkdirsThenLookup(t', Parent(at), ups - 1, names, w, depth, later);
      TouchedTransitive(t, t', end.tree, w.now);
    } else if names != [] {
      var child := at + [names[0]];
      var t'' := if child in t' then t' else t'[child := NewDir(DIR_ATTRS, w.now)];
      assert Touched(t, t'', w.now);
      MkdirsThenLookup(t'', child, 0, names[1..], w, depth, later);
      TouchedTransitive(t, t'', end.tree, w.now);
    }
  }

  // -------------------------------------------------- walks that meet no symlink

  /** No prefix of `p` is a symlink. */
  predicate PlainTo(t: Tree, p: Path) {
    forall q :: q in t && q <= p ==> KindOf(t[q]) != Symlink
  }

  function Prefixes(p: Path): (s: set<Path>)
    ensures forall q :: q in s <==> q <= p
  {
    var s := set i | 0 <= i <= |p| :: p[..i];
    assert forall q :: q <= p ==> q == p[..|q|];
    s
  }

  /** The source of a node on the way after mkdirsUpper went through it. */
  function Reopened(t: Tree, q: Path, now: int): Source {
    if q !in t || KindOf(t[q]) != Dir then NewDir(DIR_ATTRS, now)
    else if IsLower(t[q]) || q == [] then NewDir(Info(t[q]).attrs, now)
    else t[q]
  }

  /** The tree after mkdirsUpper walked from `at` down to `p` without meeting a symlink. */
  function Opened(t: Tree, at: Path, p: Path, now: int): Tree {
    map q | q in t.Keys + Prefixes(p) && (q in t || at <= q) ::
      if at <= q <= p then Reopened(t, q, now) else t[q]
  }

  lemma PrefixStep(at: Path, q: Path, p: Path)
    requires at < p && at <= q <= p
    ensures q == at || p[..|at| + 1] <= q
  {
    if q != at {
      assert q == p[..|q|];
    }
  }

  /** One step down: open `at`, make sure the next directory exists, go on from there. */
  lemma OpenedStep(t: Tree, at: Path, p: Path, now: int)
    requires at in t && at < p
    ensures var child := p[..|at| + 1];
      var t' := t[at := Reopened(t, at, now)];
      var t'' := if child in t' then t' else t'[child := NewDir(DIR_ATTRS, now)];
      Opened(t'', child, p, now) == Opened(t, at, p, now)
  {
    var child := p[..|at| + 1];
    var t' := t[at := Reopened(t, at, now)];
    var t'' := if child in t' then t' else t'[child := NewDir(DIR_ATTRS, now)];
    var one, two := Opened(t'', child, p, now), Opened(t, at, p, now);
    assert at < child <= p;
    forall q
      ensures q in one <==> q in two
      ensures q in one ==> one[q] == two[q]
    {
      if at <= q <= p { PrefixStep(at, q, p); }
    }
  }

  lemma {:induction false} PlainWalk(t: Tree, at: Path, names: seq<Name>, now: int, depth: nat)
    requires at in t && PlainTo(t, at + names)
    ensures Walk(t, at, 0, names, MkdirsUpper(now), depth) == At(Opened(t, at, at + names, now), at + names)
    decreases |names|
  {
    var p := at + names;
    var t' := Visit(t, at, MkdirsUpper(now));
    assert KindOf(t[at]) != Symlink;
    assert t' == t[at := Reopened(t, at, now)];
    if names == [] {
      assert p == at;
      var one := Opened(t, at, at, now);
      forall q
        ensures q in one <==> q in t'
        ensures q in one ==> one[q] == t'[q]
      {
        if at <= q <= at { assert q == at; }
      }
      assert one == t';
    } else {
      var child := at + [names[0]];
      assert child == p[..|at| + 1];
      var t'' := if child in t' then t' else t'[child := NewDir(DIR_ATTRS, now)];
      assert child + names[1..] == p;
      PlainWalk(t'', child, names[1..], now, depth);
      OpenedStep(t, at, p, now);
    }
  }

  /** The directory addUpper walks to: the root for the root itself. */
  function Up(k: Path): Path {
    if k == [] then [] else Parent(k)
  }

  /** addUpper of a path none of whose ancestors is a symlink. */
  lemma PlainAdd(t: Tree, k: Path, src: Source, now: int, depth: nat)
    requires [] in t && PlainTo(t, Up(k))
    ensures Add(t, k, src, MkdirsUpper(now), depth) == At(SetSource(Opened(t, [], Up(k), now), k, src), k)
  {
    var d := Up(k);
    var dir := Walk(t, [], 0, d, MkdirsUpper(now), depth);
    assert dir == At(Opened(t, [], d, now), d) by {
      assert [] + d == d;
      PlainWalk(t, [], d, now, depth);
    }
    if k != [] { assert d + [k[|k| - 1]] == k; }
  }

  lemma PlainAddKeys(t: Tree, k: Path, src: Source, now: int)
    requires [] in t
    requires KindOf(src) == Dir || forall q :: q in t ==> !(k < q)
    ensures SetSource(Opened(t, [], Up(k), now), k, src).Keys == t.Keys + Prefixes(k)
  {
    var up := Up(k);
    var opening := Opened(t, [], up, now);
    var e := SetSource(opening, k, src);
    forall q
      ensures q in e <==> q in t || q <= k
    {
      assert q in opening <==> q in t || q <= up;
      assert q <= k <==> q == k || q <= up by {
        if q <= k && q != k { assert q == k[..|q|] == up[..|q|]; }
      }
      assert q <= up ==> !(k < q);
    }
    assert e.Keys == t.Keys + Prefixes(k);
  }

  /** A lookup that meets no symlink ends at the path itself. */
  lemma {:induction false} PlainLookup(t: Tree, at: Path, names: seq<Name>, depth: nat)
    requires forall q :: at <= q <= at + names ==> q in t && KindOf(t[q]) != Symlink
    ensures at in t && Walk(t, at, 0, names, Lookup, depth) == At(t, at + names)
    decreases |names|
  {
    var p := at + names;
    assert at <= at <= p;
    if names == [] {
      assert p == at;
    } else {
      var child := at + [names[0]];
      assert child + names[1..] == p;
      assert at <= child <= p;
      PlainLookup(t, child, names[1..], depth);
    }
  }
}
