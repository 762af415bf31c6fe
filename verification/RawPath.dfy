/** What cleaning a path means: a walk along the cleaned path ends where the segments of the
    raw path, taken one by one, end. */
module RawPath {
  import opened FsTypes
  import opened Options
  import opened PathWalk
  import opened Text

  // ------------------------------------------------------------- segments one by one

  /** Where the segments of a path lead to: "" and "." stay, ".." goes to the parent and a
      name to the entry. Above the root there is nothing, but an absolute path stays there. */
  function RawEnd(at: Path, abs: bool, segments: seq<string>): Option<Path>
    decreases |segments|
  {
    if segments == [] then Some(at)
    else
      match segments[0]
      case "" => RawEnd(at, abs, segments[1..])
      case "." => RawEnd(at, abs, segments[1..])
      case ".." =>
        if at != [] then RawEnd(Parent(at), abs, segments[1..])
        else if abs then RawEnd([], abs, segments[1..])
        else None
      case name => RawEnd(at + [name], abs, segments[1..])
  }

  predicate Absolute(s: string) {
    s != "" && s[0] == '/'
  }

  function Start(at: Path, abs: bool): Path {
    if abs then [] else at
  }

  /** Where `s`, read at the node `at`, leads to. */
  function Target(at: Path, s: string): Option<Path> {
    RawEnd(Start(at, Absolute(s)), Absolute(s), Split(s, '/'))
  }

  /** Where a route leads to. */
  function RouteEnd(at: Path, r: Route): Option<Path> {
    if r.abs then Some(r.names)
    else if r.ups <= |at| then Some(at[..|at| - r.ups] + r.names)
    else None
  }

  lemma {:induction false} CleanKeepsEnd(at: Path, r: Route, segments: seq<string>)
    requires r.abs ==> r.ups == 0
    ensures var c := CleanSegments(r, segments);
      c.abs == r.abs && c.ups >= r.ups && (r.abs ==> c.ups == 0)
    ensures var from := RouteEnd(at, r);
      from.Some? ==> RouteEnd(at, CleanSegments(r, segments)) == RawEnd(from.value, r.abs, segments)
    decreases |segments|
  {
    if segments != [] {
      var s, rest := segments[0], segments[1..];
      var from := RouteEnd(at, r);
      if s == "" || s == "." {
        CleanKeepsEnd(at, r, rest);
      } else if s != ".." {
        var r' := r.(names := r.names + [s]);
        CleanKeepsEnd(at, r', rest);
        if from.Some? { assert RouteEnd(at, r').value == from.value + [s]; }
      } else if r.names != [] {
        var r' := r.(names := r.names[..|r.names| - 1]);
        CleanKeepsEnd(at, r', rest);
        if from.Some? { assert RouteEnd(at, r').value == Parent(from.value); }
      } else if r.abs {
        CleanKeepsEnd(at, r, rest);
      } else {
        var r' := r.(ups := r.ups + 1);
        CleanKeepsEnd(at, r', rest);
        if from.Some? && from.value != [] {
          assert RouteEnd(at, r').value == Parent(from.value);
        }
      }
    }
  }

  /** A cleaned path leads to where the raw one does. */
  lemma CleanEnds(at: Path, s: string)
    ensures RouteEnd(at, Clean(s)) == Target(at, s)
    ensures Clean(s).abs <==> Absolute(s)
    ensures Clean(s).abs ==> Clean(s).ups == 0
  {
    var r := Route(Absolute(s), 0, []);
    CleanKeepsEnd(at, r, Split(s, '/'));
    assert RouteEnd(at, r).value == Start(at, r.abs);
  }

  // ------------------------------------------------------------ walks along a route

  /** The end of a walk to `p` over the tree `t`: a lookup finds the node there, if there is
      one, the other walkers make it a directory. */
  predicate EndsAt(t: Tree, p: Path, w: Walker, r: Walked) {
    if w.Lookup? then r == if p in t then At(t, p) else Failed(NotFound)
    else r.At? && r.path == p && p in r.tree && KindOf(r.tree[p]) == Dir
  }

  /** Only directories have entries. */
  predicate Nested(t: Tree) {
    [] in t && forall p {:trigger Parent(p)} :: p in t && p != [] ==> Parent(p) in t && KindOf(t[Parent(p)]) == Dir
  }

  lemma {:induction false} AboveIsDir(t: Tree, q: Path, p: Path)
    requires Nested(t) && p in t && q < p
    ensures q in t && KindOf(t[q]) == Dir
    decreases |p|
  {
    var d := Parent(p);
    assert q <= d;
    if q != d { AboveIsDir(t, q, d); }
  }

  lemma VisitKeeps(t: Tree, at: Path, w: Walker, p: Path)
    requires Nested(t) && at in t
    ensures var u := Visit(t, at, w);
      && Nested(u) && u.Keys == t.Keys && (!w.Lookup? ==> KindOf(u[at]) == Dir)
      && (PlainTo(t, p) ==> PlainTo(u, p)) && (KindOf(t[at]) != Symlink ==> KindOf(u[at]) != Symlink)
  {
  }

  /** A walk down that meets no symlink ends at the path itself. */
  lemma {:induction false} DownWalk(t: Tree, at: Path, names: seq<Name>, w: Walker, depth: nat)
    requires Nested(t) && at in t && PlainTo(t, at + names)
    ensures EndsAt(t, at + names, w, Walk(t, at, 0, names, w, depth))
    decreases |names|
  {
    var p := at + names;
    assert at <= p;
    VisitKeeps(t, at, w, p);
    var t' := Visit(t, at, w);
    if names == [] {
      assert p == at;
    } else {
      var child := at + [names[0]];
      assert child + names[1..] == p;
      if child in t' {
        DownWalk(t', child, names[1..], w, depth);
      } else if w.Lookup? {
        if p in t && child != p { AboveIsDir(t, child, p); }
      } else {
        assert Parent(child) == at;
        DownWalk(t'[child := NewDir(DIR_ATTRS, w.now)], child, names[1..], w, depth);
      }
    }
  }

  lemma {:induction false} UpWalk(t: Tree, at: Path, r: Route, w: Walker, depth: nat)
    requires Nested(t) && at in t && KindOf(t[at]) != Symlink && !r.abs
    requires RouteEnd(at, r).Some? ==> PlainTo(t, RouteEnd(at, r).value)
    ensures var o := Walk(t, at, r.ups, r.names, w, depth);
      match RouteEnd(at, r)
      case None => o == Failed(OutsideRoot)
      case Some(e) => EndsAt(t, e, w, o)
    decreases r.ups
  {
    if r.ups == 0 {
      assert at[..|at|] == at;
      DownWalk(t, at, r.names, w, depth);
    } else if at != [] {
      var t', r' := Visit(t, at, w), r.(ups := r.ups - 1);
      VisitKeeps(t, at, w, if r.ups <= |at| then RouteEnd(at, r).value else []);
      if r.ups <= |at| {
        assert Parent(at)[..|Parent(at)| - r'.ups] == at[..|at| - r.ups];
      }
      assert RouteEnd(Parent(at), r') == RouteEnd(at, r);
      UpWalk(t', Parent(at), r', w, depth);
    }
  }

  /** The end of walkPath along the text of a path, read at the node `at`. */
  predicate EndsAtTarget(t: Tree, at: Path, s: string, w: Walker, r: Walked) {
    match Target(at, s)
    case None => r == Failed(OutsideRoot)
    case Some(e) => EndsAt(t, e, w, r)
  }

  /** No symlink lies on the way to where the path leads to. */
  predicate PlainWay(t: Tree, at: Path, s: string) {
    Target(at, s).Some? ==> PlainTo(t, Target(at, s).value)
  }

  /** walkPath ends where the segments of the path lead to, unless it meets a symlink. */
  lemma WalkEndsAtTarget(t: Tree, at: Path, s: string, w: Walker, depth: nat)
    requires Nested(t) && at in t && (KindOf(t[at]) != Symlink || Absolute(s)) && PlainWay(t, at, s)
    ensures var c := Clean(s);
      Start(at, c.abs) in t && EndsAtTarget(t, at, s, w, Walk(t, Start(at, c.abs), c.ups, c.names, w, depth))
  {
    CleanEnds(at, s);
    var c := Clean(s);
    if c.abs {
      assert [] + c.names == c.names;
      DownWalk(t, [], c.names, w, depth);
    } else {
      UpWalk(t, at, c, w, depth);
    }
  }

  /** A symlink leads to where its text, read in the directory of the link, leads to. */
  lemma LinkEndsAtTarget(t: Tree, at: Path, w: Walker, depth: nat)
    requires Nested(t) && at in t && KindOf(t[at]) == Symlink && at != []
    requires PlainWay(t, Parent(at), Info(t[at]).attrs.symlink)
    ensures EndsAtTarget(t, Parent(at), Info(t[at]).attrs.symlink, w, Resolve(t, at, w, depth + 1))
  {
    WalkEndsAtTarget(t, Parent(at), Info(t[at]).attrs.symlink, w, depth);
  }

  /** A path to an existing node that is no symlink has none on the way. */
  lemma PlainToNode(t: Tree, p: Path)
    requires Nested(t) && p in t && KindOf(t[p]) != Symlink
    ensures PlainTo(t, p)
  {
    forall q | q in t && q <= p ensures KindOf(t[q]) != Symlink {
      if q != p { AboveIsDir(t, q, p); }
    }
  }

  /** The lookup of an existing node that is no symlink finds it. */
  lemma LookupFinds(t: Tree, at: Path, s: string, e: Path, depth: nat)
    requires Nested(t) && at in t && (KindOf(t[at]) != Symlink || Absolute(s))
    requires Target(at, s) == Some(e) && e in t && KindOf(t[e]) != Symlink
    ensures var c := Clean(s);
      Start(at, c.abs) in t && Walk(t, Start(at, c.abs), c.ups, c.names, Lookup, depth) == At(t, e)
  {
    PlainToNode(t, e);
    WalkEndsAtTarget(t, at, s, Lookup, depth);
  }
}
