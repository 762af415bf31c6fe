/** The difference of two trees and the layer round trip, field by field. */
module DiffFields {
  import opened FsTypes
  import opened PathWalk
  import opened TreeDiff
  import opened DiffLaws

  /** Two nodes that a layer has to tell apart: the access time is not looked at. */
  predicate Differ(s: Source, o: Source) {
    var x, y := Info(s), Info(o);
    x.kind != y.kind || x.attrs.perm != y.attrs.perm || x.attrs.uid != y.attrs.uid || x.attrs.gid != y.attrs.gid ||
    x.attrs.mtime != y.attrs.mtime || x.attrs.size != y.attrs.size || x.attrs.symlink != y.attrs.symlink ||
    x.attrs.xattrs != y.attrs.xattrs || Hash(s) != Hash(o)
  }

  /** A path of `b` that is new, or whose node is not the one of `a`. */
  predicate New(a: Tree, b: Tree, q: Path) {
    q in b && (q !in a || Differ(a[q], b[q]))
  }

  /** A path of `a` that is no longer there, in a directory that still is. */
  predicate Lost(a: Tree, b: Tree, q: Path) {
    q in a && q !in b && q != [] && Parent(q) in b && Info(b[Parent(q)]).kind == Dir
  }

  /** A path of both trees whose node is also at a path that is new. */
  predicate Again(a: Tree, b: Tree, q: Path) {
    q in b && !New(a, b, q) && exists p :: p in b && New(a, b, p) && b[p] == b[q]
  }

  lemma ChangedIsNew(a: Tree, b: Tree, q: Path)
    ensures Changed(a, b, q) <==> New(a, b, q)
    ensures Gone(a, b, q) <==> Lost(a, b, q)
  {
    if q in b && q in a {
      var x, y := Info(b[q]).attrs, Info(a[q]).attrs;
      assert x.(atime := 0) == y.(atime := 0) <==>
             x.perm == y.perm && x.uid == y.uid && x.gid == y.gid && x.mtime == y.mtime && x.size == y.size &&
             x.symlink == y.symlink && x.xattrs == y.xattrs;
    }
  }

  lemma RelinkedIsAgain(a: Tree, b: Tree, q: Path)
    ensures Relinked(a, b, q) <==> Again(a, b, q)
  {
    forall p ensures Changed(a, b, p) <==> New(a, b, p) { ChangedIsNew(a, b, p); }
  }

  /** The source that the layer has for a node of `b`: a directory may be another one, and
      one without a modification time gets some. */
  predicate Stands(s: Source, o: Source) {
    if Info(o).kind != Dir then s == o
    else
      && Info(s).kind == Dir
      && Info(s).attrs.(mtime := 0) == Info(o).attrs.(mtime := 0)
      && (Info(o).attrs.mtime != ZERO_TIME ==> Info(s).attrs.mtime == Info(o).attrs.mtime)
  }

  /** The root or a directory on the way to a path that is new or lost. */
  ghost predicate Above(a: Tree, b: Tree, q: Path) {
    q == [] || exists p :: q <= p && (New(a, b, p) || Lost(a, b, p))
  }

  /** A directory on the way to a path whose node is also at a new one. */
  ghost predicate AboveAgain(a: Tree, b: Tree, q: Path) {
    exists p :: q <= p && Again(a, b, p)
  }

  /** What the layer tree `d` has at `q`. */
  ghost predicate LayerNode(d: Tree, a: Tree, b: Tree, q: Path)
    requires q in d
  {
    if q !in b then d[q] == Removed
    else if New(a, b, q) || Again(a, b, q) || Above(a, b, q) then Stands(d[q], b[q])
    else Info(d[q]).kind == Dir && Info(d[q]).attrs.(mtime := ZERO_TIME) == DIR_ATTRS
  }

  /** What a layer tree is, in terms of the nodes of the two trees. */
  ghost predicate IsLayer(d: Tree, a: Tree, b: Tree) {
    && (forall q :: q in d <==> Above(a, b, q) || AboveAgain(a, b, q))
    && (forall q :: q in d ==> LayerNode(d, a, b, q))
  }

  ghost predicate Same(a: Tree, b: Tree) {
    forall q :: !New(a, b, q) && !Lost(a, b, q)
  }

  lemma CoreIsNew(a: Tree, b: Tree, q: Path)
    ensures q in Core(a, b) <==> New(a, b, q) || Lost(a, b, q)
    ensures q in Relinks(a, b) <==> Again(a, b, q)
  {
    ChangedIsNew(a, b, q);
    RelinkedIsAgain(a, b, q);
  }

  lemma CoversAre(a: Tree, b: Tree, q: Path)
    ensures q in Cover(Core(a, b)) <==> Above(a, b, q)
    ensures q in Cover(Relinks(a, b)) <==> q == [] || AboveAgain(a, b, q)
  {
    forall p ensures p in Core(a, b) <==> New(a, b, p) || Lost(a, b, p)
             ensures p in Relinks(a, b) <==> Again(a, b, p)
    {
      CoreIsNew(a, b, p);
    }
  }

  lemma MirrorStands(s: Source, o: Source)
    requires Mirrors(s, o)
    ensures Stands(s, o)
  {
  }

  lemma DiffIsLayer(d: Tree, a: Tree, b: Tree)
    requires DiffOf(d, b, Core(a, b), Relinks(a, b))
    ensures IsLayer(d, a, b)
  {
    var core, links := Core(a, b), Relinks(a, b);
    hide Core, Relinks, Cover, Mirrors, New, Lost, Again, Stands, Above, AboveAgain;
    forall q
      ensures q in d <==> Above(a, b, q) || AboveAgain(a, b, q)
      ensures q in d ==> LayerNode(d, a, b, q)
    {
      CoversAre(a, b, q);
      CoreIsNew(a, b, q);
      CoverUnion(core, links, q);
      RootAbove(a, b, q);
      if q in d {
        assert DiffNode(d[q], b, Cover(core) + links, q);
        if q in b && Mirrors(d[q], b[q]) { MirrorStands(d[q], b[q]); }
      }
    }
  }

  lemma RootAbove(a: Tree, b: Tree, q: Path)
    ensures q == [] || New(a, b, q) || Lost(a, b, q) ==> Above(a, b, q)
  {
  }

  /** Every run of Diff ends with the layer tree that the nodes of both trees call for. */
  lemma DiffInFields(a: Tree, b: Tree, adds: seq<Step>, dels: seq<Step>, relinks: seq<Step>, depth: nat)
    requires Fit(a, b) && IsRun(a, b, adds, dels, relinks)
    ensures var r := DiffRun(a, b, adds, dels, relinks, depth);
      r.Done? && if Same(a, b) then r.tree == NEW_FS else IsLayer(r.tree, a, b)
  {
    DiffExact(a, b, adds, dels, relinks, depth);
    var d := DiffRun(a, b, adds, dels, relinks, depth).tree;
    hide DiffRun, Core, Relinks, Fit, IsRun, New, Lost, IsLayer, DiffOf;
    forall q ensures q in Core(a, b) <==> New(a, b, q) || Lost(a, b, q) { CoreIsNew(a, b, q); }
    if Core(a, b) != {} {
      var q :| q in Core(a, b);
      DiffIsLayer(d, a, b);
    }
  }

  /** Nothing differs exactly when both trees have the same paths with the same nodes. */
  lemma SameIff(a: Tree, b: Tree)
    requires Valid(a) && Valid(b)
    ensures Same(a, b) <==> a.Keys == b.Keys && forall q :: q in a ==> !Differ(a[q], b[q])
  {
    if Same(a, b) {
      forall p | p in a ensures p in b { StillThere(a, b, p); }
      forall p | p in b ensures p in a && !Differ(a[p], b[p]) { assert !New(a, b, p); }
    }
  }

  lemma {:induction false} StillThere(a: Tree, b: Tree, p: Path)
    requires Valid(a) && Valid(b) && Same(a, b) && p in a
    ensures p in b
    decreases |p|
  {
    if p != [] {
      StillThere(a, b, Parent(p));
      assert !New(a, b, Parent(p)) && !Lost(a, b, p);
    }
  }
}
