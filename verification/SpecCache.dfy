/** The file system specs that are cached per layer chain: every cached tree is what the
    layers make, up to the times of directories that no layer dates. */
module SpecCache {
  import opened FsTypes
  import opened PathWalk
  import opened TreeDiff
  import opened DiffLaws
  import opened Layer
  import opened LayerFold
  import LayerLaws
  import opened Digests
  import opened Options

  // -------------------------------------------------------------- up to some times

  lemma StrippedAt(t: Tree, q: Path)
    ensures q in Stripped(t) <==> q in t && KindOf(t[q]) != Whiteout
    ensures q in Stripped(t) ==> Stripped(t)[q] == t[q]
  {
  }

  predicate SameButTime(s: Source, o: Source) {
    KindOf(s) == Dir && KindOf(o) == Dir && Hash(s) == Hash(o) &&
    AttrsEqual(Info(s).attrs.(mtime := ZERO_TIME), Info(o).attrs.(mtime := ZERO_TIME))
  }

  predicate SameUpTo(s: Source, o: Source, late: bool) {
    SameNode(s, o) || (late && SameButTime(s, o))
  }

  /** Both trees have a node there that is no whiteout, and the nodes are equal, or neither
      has one. */
  predicate AgreeAt(t: Tree, u: Tree, late: set<Path>, q: Path) {
    && (q in Stripped(t) <==> q in Stripped(u))
    && (q in Stripped(t) ==> SameUpTo(Stripped(t)[q], Stripped(u)[q], q in late))
  }

  /** Equal up to whiteouts and the times of some directories. */
  ghost predicate UpTo(t: Tree, u: Tree, late: set<Path>) {
    forall q :: AgreeAt(t, u, late, q)
  }

  lemma UpToTransitive(t: Tree, u: Tree, v: Tree, late: set<Path>)
    requires UpTo(t, u, late) && UpTo(u, v, late)
    ensures UpTo(t, v, late)
  {
    forall q ensures AgreeAt(t, v, late, q) {
      assert AgreeAt(t, u, late, q) && AgreeAt(u, v, late, q);
    }
  }

  /** With no such directory the trees are equal up to whiteouts. */
  lemma UpToNothing(t: Tree, u: Tree)
    ensures UpTo(t, u, {}) <==> SameTree(Stripped(t), Stripped(u))
  {
    if UpTo(t, u, {}) {
      forall q
        ensures q in Stripped(t) <==> q in Stripped(u)
        ensures q in Stripped(t) ==> SameNode(Stripped(t)[q], Stripped(u)[q])
      {
        assert AgreeAt(t, u, {}, q);
      }
      assert Stripped(t).Keys == Stripped(u).Keys;
    }
  }

  lemma SameIsUpTo(t: Tree, u: Tree, late: set<Path>)
    requires SameTree(Stripped(t), Stripped(u))
    ensures UpTo(t, u, late)
  {
  }

  // ------------------------------------------------ a layer on another tree than its own

  lemma CutBelow(d: Tree, p: Path, q: Path)
    requires p < q && Cut(d, d.Keys, p)
    ensures Cut(d, d.Keys, q)
  {
    var c :| c in d && c < p && KindOf(d[c]) != Dir;
    assert c < q;
  }

  lemma ReplayedValid(t: Tree, t0: Tree, d: Tree)
    requires Valid(t0) && Replayed(t, t0, d, d.Keys)
    requires [] in d && KindOf(d[[]]) == Dir
    requires forall k, q :: k in d && q < k ==> q in d && KindOf(d[q]) == Dir
    ensures Valid(t)
  {
    forall q | q in t && q != []
      ensures Parent(q) in t && KindOf(t[Parent(q)]) == Dir
    {
      var p := Parent(q);
      assert p < q;
      if q !in d.Keys {
        assert Kept(t, t0, d, d.Keys, q);
        if p !in d.Keys {
          assert Kept(t, t0, d, d.Keys, p);
          if Cut(d, d.Keys, p) { CutBelow(d, p, q); }
        }
      }
    }
  }

  /** What a commit of `b` needs of the parent tree. */
  predicate Committable(a: Tree, b: Tree) {
    && Fit(a, b) && Portable(a, b) && TarSafe(b)
    && forall q :: q in b ==> !Stray(a, b, q)
  }

  lemma CommitWrites(a: Tree, b: Tree, d: Tree, order: seq<Path>)
    requires Committable(a, b) && !SameTree(a, b) && IsDiff(d, a, b) && TopDown(d, order)
    ensures Writable(d, a) && Dated(d) && Faithful(d, b)
    ensures var ops, layer := WriteAll(d, order).ops, Tar(d, order);
      seq(|layer|, i requires 0 <= i < |layer| => Decode(layer[i])) == ops
  {
    hide SameTree, TarSafe, DiffOf, Valid, Tar, Decode, TopDown;
    var core, links := Core(a, b), Relinks(a, b);
    assert ExplicitDirs(b);
    hide ExplicitDirs, Portable;
    CoreEmpty(a, b);
    CorePlaced(a, b);
    CoreIsCore(a, b);
    hide Core, Relinks;
    UnstrayDated(d, a, b);
    FaithfulUnlessStray(d, a, b);
    DiffWritable(d, a, b, core, links);
    hide Writable;
    TarKeepsOps(d, b, a, core, links, order);
  }

  lemma UnpackIsReplay(t: Tree, d: Tree, order: seq<Path>, now: int, depth: nat)
    requires TopDown(d, order)
    requires var ops, layer := WriteAll(d, order).ops, Tar(d, order);
      seq(|layer|, i requires 0 <= i < |layer| => Decode(layer[i])) == ops
    ensures Unpack(t, Tar(d, order), now, depth) == ReplayAll(t, WriteAll(d, order).ops, now, depth)
  {
  }

  lemma ReplaysDiff(t: Tree, d: Tree, order: seq<Path>, now: int, depth: nat)
    requires Valid(t) && Writable(d, t) && TopDown(d, order)
    ensures var r := ReplayAll(t, WriteAll(d, order).ops, now, depth);
      r.Done? && Replayed(r.tree, t, d, d.Keys)
  {
    hide Writable, Replayed, ReplayAll;
    TopDownOrdered(d, t, order, |order|);
    assert order[..|order|] == order && PathsOf(order) == d.Keys;
    WrittenReplays(t, d, order, now, depth);
  }

  /** The directories of the diff that the layer does not write, as they are in `t0`. */
  function Retimed(d: Tree, t0: Tree): Tree {
    map q | q in d ::
      if IsLower(d[q]) && KindOf(d[q]) == Dir && q in t0 then Src(d[q].ref, true, Info(t0[q]), Hash(t0[q])) else d[q]
  }

  /** The directories without a time of their own have one. */
  predicate LateDated(t0: Tree, late: set<Path>) {
    forall q :: q in late && q in t0 && KindOf(t0[q]) == Dir ==> Info(t0[q]).attrs.mtime != ZERO_TIME
  }

  lemma RetimedNode(d: Tree, a: Tree, t0: Tree, late: set<Path>, q: Path)
    requires q in d && WritableNode(a, q, d[q]) && AgreeAt(a, t0, late, q) && LateDated(t0, late)
    ensures var s := Retimed(d, t0)[q];
      && WritableNode(t0, q, s) && KindOf(s) == KindOf(d[q])
      && s.Removed? == d[q].Removed? && IsLower(s) == IsLower(d[q])
      && (s == d[q] || (KindOf(s) == Dir && q in t0 && q in a && SameNode(t0[q], s) && SameNode(a[q], d[q])))
  {
    StrippedAt(a, q);
    StrippedAt(t0, q);
  }

  lemma RetimedWritable(d: Tree, a: Tree, t0: Tree, late: set<Path>)
    requires Writable(d, a) && UpTo(a, t0, late) && LateDated(t0, late)
    ensures Writable(Retimed(d, t0), t0)
  {
    hide AgreeAt, LateDated, WritableNode;
    var e := Retimed(d, t0);
    assert e.Keys == d.Keys;
    forall q | q in d
      ensures WritableNode(t0, q, e[q]) && KindOf(e[q]) == KindOf(d[q]) && (e[q] == d[q] || KindOf(e[q]) == Dir)
    {
      assert AgreeAt(a, t0, late, q) && WritableNode(a, q, d[q]);
      RetimedNode(d, a, t0, late, q);
    }
    hide Retimed;
    forall p, q | p in e && q in e && p != q && Origin(e[p]) == Origin(e[q])
      ensures KindOf(e[p]) != Symlink
    {
      OriginSame(e[p], e[q]);
    }
  }

  lemma {:induction false} RetimedWrites(d: Tree, e: Tree, order: seq<Path>)
    requires forall i :: 0 <= i < |order| ==> order[i] in d && order[i] in e
    requires forall q :: q in d && q in e ==>
      e[q] == d[q] || (KindOf(e[q]) == Dir && KindOf(d[q]) == Dir && IsLower(e[q]) && IsLower(d[q]))
    ensures WriteAll(d, order) == WriteAll(e, order)
    decreases |order|
  {
    if order != [] { RetimedWrites(d, e, order[..|order| - 1]); }
  }

  lemma CutSame(d: Tree, e: Tree, q: Path)
    requires d.Keys == e.Keys && forall p :: p in d ==> KindOf(d[p]) == KindOf(e[p])
    ensures Cut(d, d.Keys, q) <==> Cut(e, d.Keys, q)
  {
    if Cut(d, d.Keys, q) {
      var p :| p in d.Keys && p in d && p < q && KindOf(d[p]) != Dir;
      assert p in e;
    }
    if Cut(e, d.Keys, q) {
      var p :| p in d.Keys && p in e && p < q && KindOf(e[p]) != Dir;
      assert p in d;
    }
  }

  /** What the layer makes of `a` at `q`, against what it makes of `t0`. */
  predicate MadeAt(u: Tree, t: Tree, t0: Tree, late: set<Path>, q: Path) {
    && (q in Stripped(u) <==> q in Stripped(t))
    && (q in Stripped(u) ==>
          || SameNode(u[q], t[q])
          || (q in late && SameButTime(u[q], t[q]) && q in t0 && SameNode(t0[q], t[q])))
  }

  lemma MadeAlike(t: Tree, t0: Tree, u: Tree, a: Tree, d: Tree, e: Tree, late: set<Path>, q: Path)
    requires Replayed(t, t0, e, d.Keys) && Replayed(u, a, d, d.Keys) && d.Keys == e.Keys && AgreeAt(a, t0, late, q)
    requires forall p :: p in d ==> KindOf(d[p]) == KindOf(e[p])
    requires q in d ==>
      || e[q] == d[q]
      || (KindOf(e[q]) == Dir && q in t0 && q in a && SameNode(t0[q], e[q]) && SameNode(a[q], d[q]))
    ensures MadeAt(u, t, t0, late, q)
  {
    StrippedAt(t0, q);
    StrippedAt(a, q);
    if q !in d {
      CutSame(d, e, q);
      assert Kept(t, t0, e, d.Keys, q) && Kept(u, a, d, d.Keys, q);
    }
  }

  lemma RetimedAlike(d: Tree, a: Tree, t0: Tree, late: set<Path>, q: Path)
    requires Writable(d, a) && UpTo(a, t0, late) && LateDated(t0, late) && q in d
    ensures var e := Retimed(d, t0);
      && KindOf(d[q]) == KindOf(e[q])
      && (e[q] == d[q] || (KindOf(e[q]) == Dir && q in t0 && q in a && SameNode(t0[q], e[q]) && SameNode(a[q], d[q])))
      && (e[q] == d[q] || (KindOf(e[q]) == Dir && KindOf(d[q]) == Dir && IsLower(e[q]) && IsLower(d[q])))
  {
    assert AgreeAt(a, t0, late, q) && WritableNode(a, q, d[q]);
    RetimedNode(d, a, t0, late, q);
  }

  /** The diff as it is on `t0`, and the replay of the layer there. */
  lemma ReplaysRetimed(a: Tree, d: Tree, order: seq<Path>, t0: Tree, late: set<Path>, now: int, depth: nat)
    requires Writable(d, a) && TopDown(d, order) && Valid(t0) && UpTo(a, t0, late) && LateDated(t0, late)
    ensures var e := Retimed(d, t0);
      var r := ReplayAll(t0, WriteAll(d, order).ops, now, depth);
      e.Keys == d.Keys && r.Done? && Valid(r.tree) && Replayed(r.tree, t0, e, d.Keys)
  {
    hide Valid, Replayed, ReplayAll, UpTo, LateDated, Writable, SameNode, Retimed;
    RetimedWritable(d, a, t0, late);
    var e := Retimed(d, t0);
    RetimedKeys(d, t0, order);
    forall q | q in d && q in e
      ensures e[q] == d[q] || (KindOf(e[q]) == Dir && KindOf(d[q]) == Dir && IsLower(e[q]) && IsLower(d[q]))
    {
      RetimedAlike(d, a, t0, late, q);
    }
    RetimedWrites(d, e, order);
    ReplaysDiff(t0, e, order, now, depth);
    MadeValid(ReplayAll(t0, WriteAll(d, order).ops, now, depth).tree, t0, e);
  }

  lemma MadeOf(t: Tree, t0: Tree, u: Tree, a: Tree, b: Tree, d: Tree, late: set<Path>, q: Path)
    requires Writable(d, a) && UpTo(a, t0, late) && LateDated(t0, late) && Portable(a, b)
    requires Replayed(t, t0, Retimed(d, t0), d.Keys) && Replayed(u, a, d, d.Keys) && SameTree(Stripped(u), b)
    ensures MadeAt(b, t, t0, late, q)
  {
    var e := Retimed(d, t0);
    assert e.Keys == d.Keys;
    hide Writable, UpTo, LateDated, Retimed, Replayed, MadeAt, SameTree, SameNode, Stripped, IsLower, AgreeAt;
    forall p | p in d
      ensures KindOf(d[p]) == KindOf(e[p])
      ensures
        || e[p] == d[p]
        || (KindOf(e[p]) == Dir && p in t0 && p in a && SameNode(t0[p], e[p]) && SameNode(a[p], d[p]))
    {
      RetimedAlike(d, a, t0, late, p);
    }
    UpToAt(a, t0, late, q);
    MadeAlike(t, t0, u, a, d, e, late, q);
    MadeSame(u, b, t, t0, late, q);
  }

  /** The layer of `b` on top of `a`, unpacked on a tree that equals `a` up to whiteouts
      and the times of some directories, makes `b` up to such times. */
  lemma CommitOnOther(a: Tree, b: Tree, d: Tree, order: seq<Path>, t0: Tree, late: set<Path>, now: int, depth: nat)
    requires Committable(a, b) && !SameTree(a, b) && IsDiff(d, a, b) && TopDown(d, order)
    requires Valid(t0) && UpTo(a, t0, late) && LateDated(t0, late)
    ensures var r := Unpack(t0, Tar(d, order), now, depth);
      r.Done? && Valid(r.tree) && forall q :: MadeAt(b, r.tree, t0, late, q)
  {
    hide Unpack, Tar, SameTree, Stripped, Portable, TarSafe, Valid, Replayed, ReplayAll, IsDiff, Faithful, Dated,
         Decode, Stray, UpTo, LateDated, Retimed, MadeAt, Writable;
    CommitWrites(a, b, d, order);
    LayerRoundTrip(a, b, d, order, now, depth);
    ReplaysDiff(a, d, order, now, depth);
    ReplaysRetimed(a, d, order, t0, late, now, depth);
    UnpackIsReplay(a, d, order, now, depth);
    UnpackIsReplay(t0, d, order, now, depth);
    var t, u := Unpack(t0, Tar(d, order), now, depth).tree, Unpack(a, Tar(d, order), now, depth).tree;
    forall q ensures MadeAt(b, t, t0, late, q) {
      MadeOf(t, t0, u, a, b, d, late, q);
    }
  }

  lemma MadeValid(t: Tree, t0: Tree, e: Tree)
    requires Valid(t0) && Writable(e, t0) && Replayed(t, t0, e, e.Keys)
    ensures Valid(t)
  {
    ReplayedValid(t, t0, e);
  }

  lemma UpToAt(t: Tree, u: Tree, late: set<Path>, q: Path)
    requires UpTo(t, u, late)
    ensures AgreeAt(t, u, late, q)
  {
  }

  lemma RetimedKeys(d: Tree, t0: Tree, order: seq<Path>)
    requires TopDown(d, order)
    ensures Retimed(d, t0).Keys == d.Keys && TopDown(Retimed(d, t0), order)
  {
  }

  lemma MadeSame(u: Tree, b: Tree, t: Tree, t0: Tree, late: set<Path>, q: Path)
    requires SameTree(Stripped(u), b) && MadeAt(u, t, t0, late, q)
    requires forall k :: k in b ==> KindOf(b[k]) != Whiteout
    ensures MadeAt(b, t, t0, late, q)
  {
    StrippedAt(u, q);
    StrippedAt(b, q);
  }

  // ------------------------------------------------------------------ normalization

  /** The source under which the normalizing writer adds a node to its new tree, where
      nodes of a stored spec are added like all others. */
  function Copied(s: Source): Source {
    match s
    case Src(ref, lower, info, hash) => Src(if lower then 2 * ref + 1 else 2 * ref, false, info, hash)
    case Linked(id, of) => Linked(id, Copied(of))
    case _ => s
  }

  lemma {:induction false} CopiedSame(s: Source)
    ensures Info(Copied(s)) == Info(s) && Hash(Copied(s)) == Hash(s) && Origin(Copied(s)) == Copied(Origin(s))
  {
    if s.Linked? { CopiedSame(s.of); }
  }

  lemma {:induction false} CopiedInjective(s: Source, o: Source)
    requires Copied(s) == Copied(o)
    ensures s == o
  {
    if s.Linked? { CopiedInjective(s.of, o.of); }
  }

  function CopiedTree(b: Tree): Tree {
    map q | q in b :: Copied(b[q])
  }

  /** FsNode.Normalized: the tree written into a new one, without the whiteouts. */
  function Normalized(b: Tree, order: seq<Path>, now: int, depth: nat): Outcome
    requires forall i :: 0 <= i < |order| ==> order[i] in b
  {
    match ReplayAll(NEW_FS, WriteAll(CopiedTree(b), order).ops, now, depth)
    case Error(why) => Error(why)
    case Done(t) => Done(Stripped(t))
  }

  lemma CopiedUnshared(b: Tree, p: Path, q: Path)
    requires Portable(b, b) && p in b && q in b && p != q && Origin(Copied(b[p])) == Origin(Copied(b[q]))
    ensures KindOf(Copied(b[p])) != Symlink
  {
    CopiedSame(b[p]);
    CopiedSame(b[q]);
    CopiedInjective(Origin(b[p]), Origin(b[q]));
  }

  lemma CopiedWritableNode(b: Tree, q: Path)
    requires Portable(b, b) && q in b
    ensures WritableNode(NEW_FS, q, Copied(b[q]))
  {
    CopiedSame(b[q]);
  }

  lemma CopiedWritable(b: Tree)
    requires Valid(b) && Portable(b, b)
    ensures Writable(CopiedTree(b), NEW_FS)
  {
    hide Portable, Valid, Copied, WritableNode;
    var d := CopiedTree(b);
    forall q | q in d ensures WritableNode(NEW_FS, q, d[q]) {
      CopiedWritableNode(b, q);
    }
    forall k, q | k in d && q < k ensures q in d && KindOf(d[q]) == Dir {
      AncestorIsDir(b, q, k);
      CopiedSame(b[q]);
    }
    forall p, q | p in d && q in d && p != q && Origin(d[p]) == Origin(d[q]) ensures KindOf(d[p]) != Symlink {
      CopiedUnshared(b, p, q);
    }
    RootDir(b);
    CopiedSame(b[[]]);
  }

  lemma NewFsValid()
    ensures Valid(NEW_FS)
  {
  }

  lemma RootDir(b: Tree)
    requires Valid(b)
    ensures [] in b && KindOf(b[[]]) == Dir
  {
  }

  lemma NormalizedAt(t: Tree, b: Tree, q: Path)
    requires Portable(b, b) && [] in b && Replayed(t, NEW_FS, CopiedTree(b), b.Keys)
    ensures if q in b then q in Stripped(t) && SameNode(Stripped(t)[q], b[q]) else q !in Stripped(t)
  {
    if q in b { CopiedSame(b[q]); } else { assert Kept(t, NEW_FS, CopiedTree(b), b.Keys, q); }
  }

  /** Normalizing a tree without whiteouts gives an equal tree. */
  lemma NormalizedSame(b: Tree, order: seq<Path>, now: int, depth: nat)
    requires Valid(b) && Portable(b, b) && TopDown(b, order)
    ensures var r := Normalized(b, order, now, depth);
      r.Done? && SameTree(r.tree, b)
  {
    hide Portable, Valid, Replayed, Writable, ReplayAll, Stripped, SameNode;
    var d := CopiedTree(b);
    assert d.Keys == b.Keys;
    NewFsValid();
    CopiedWritable(b);
    ReplaysDiff(NEW_FS, d, order, now, depth);
    RootDir(b);
    var t := ReplayAll(NEW_FS, WriteAll(d, order).ops, now, depth).tree;
    forall q ensures if q in b then q in Stripped(t) && SameNode(Stripped(t)[q], b[q]) else q !in Stripped(t) {
      NormalizedAt(t, b, q);
    }
    assert Stripped(t).Keys == b.Keys;
  }

  // ------------------------------------------------------------------- the invariant

  function Base(blobs: LayerBlobs, chain: seq<Digest>, depth: nat): Outcome {
    Fold(blobs, chain, ZERO_TIME, depth)
  }

  /** The directories of the chain that have the time of unpacking. */
  function LateIn(blobs: LayerBlobs, chain: seq<Digest>, depth: nat): set<Path> {
    var r := Base(blobs, chain, depth);
    if r.Done? then Late(r.tree) else {}
  }

  /** The spec is what the layers make, up to whiteouts and the times of directories that
      no layer dates. */
  ghost predicate SpecOk(spec: Tree, blobs: LayerBlobs, chain: seq<Digest>, depth: nat) {
    Base(blobs, chain, depth).Done? && UpTo(spec, Base(blobs, chain, depth).tree, LateIn(blobs, chain, depth))
  }

  lemma AgedUpTo(t: Tree, now: int)
    ensures UpTo(t, AgedTree(t, now), Late(t)) && UpTo(AgedTree(t, now), t, Late(t))
  {
    forall q ensures AgreeAt(t, AgedTree(t, now), Late(t), q) && AgreeAt(AgedTree(t, now), t, Late(t), q) {
      StrippedAt(t, q);
      StrippedAt(AgedTree(t, now), q);
    }
  }

  /** The spec is what the layers make whenever they are unpacked: up to the time of
      unpacking, and exactly if every directory has a time of its own. */
  lemma SpecAtAnyTime(spec: Tree, blobs: LayerBlobs, chain: seq<Digest>, now: int, depth: nat)
    requires SpecOk(spec, blobs, chain, depth)
    ensures var r := Fold(blobs, chain, now, depth);
      && r.Done? && UpTo(spec, r.tree, LateIn(blobs, chain, depth))
      && (Timeless(blobs, chain, depth) ==> SameTree(Stripped(spec), Stripped(r.tree)))
  {
    hide Fold, UpTo, Stripped, SameTree, AgedTree, Late;
    FoldAged(blobs, chain, now, depth);
    var t := Base(blobs, chain, depth).tree;
    AgedUpTo(t, now);
    UpToTransitive(spec, t, AgedTree(t, now), Late(t));
    TimelessIff(blobs, chain, depth);
    UpToNothing(spec, Fold(blobs, chain, now, depth).tree);
  }

  /** The fold at any one time serves as the spec, with or without its whiteouts. */
  lemma FoldIsSpec(blobs: LayerBlobs, chain: seq<Digest>, now: int, depth: nat)
    ensures var r := Fold(blobs, chain, now, depth);
      && (r.Done? <==> Base(blobs, chain, depth).Done?)
      && (r.Done? ==> SpecOk(r.tree, blobs, chain, depth) && SpecOk(Stripped(r.tree), blobs, chain, depth))
  {
    hide Fold, UpTo, AgedTree, Late;
    FoldAged(blobs, chain, now, depth);
    var r := Base(blobs, chain, depth);
    if r.Done? {
      AgedUpTo(r.tree, now);
      StrippedUpTo(AgedTree(r.tree, now), r.tree, Late(r.tree));
    }
  }

  lemma StrippedUpTo(t: Tree, u: Tree, late: set<Path>)
    requires UpTo(t, u, late)
    ensures UpTo(Stripped(t), u, late)
  {
    assert Stripped(Stripped(t)) == Stripped(t);
    forall q ensures AgreeAt(Stripped(t), u, late, q) { assert AgreeAt(t, u, late, q); }
  }

  ghost predicate ImageOk(blobs: LayerBlobs, specs: map<Digest, Tree>, chain: seq<Digest>, depth: nat) {
    && chain != [] && Digests.Blobs(chain)
    && (ChainId(chain) in specs ==> SpecOk(specs[ChainId(chain)], blobs, chain, depth))
  }

  predicate Extends(blobs: LayerBlobs, more: LayerBlobs) {
    forall k :: k in blobs ==> k in more && more[k] == blobs[k]
  }

  lemma SameExtends(blobs: LayerBlobs)
    ensures Extends(blobs, blobs)
  {
  }

  lemma {:induction false} FoldExtends(blobs: LayerBlobs, more: LayerBlobs, chain: seq<Digest>, now: int, depth: nat)
    requires Extends(blobs, more) && Fold(blobs, chain, now, depth).Done?
    ensures Fold(more, chain, now, depth) == Fold(blobs, chain, now, depth)
    decreases |chain|
  {
    if chain != [] { FoldExtends(blobs, more, chain[..|chain| - 1], now, depth); }
  }

  lemma SpecExtends(blobs: LayerBlobs, more: LayerBlobs, spec: Tree, chain: seq<Digest>, depth: nat)
    requires Extends(blobs, more) && SpecOk(spec, blobs, chain, depth)
    ensures SpecOk(spec, more, chain, depth) && LateIn(more, chain, depth) == LateIn(blobs, chain, depth)
  {
    hide Fold, Extends, UpTo;
    FoldExtends(blobs, more, chain, ZERO_TIME, depth);
  }

  lemma ImageExtends(blobs: LayerBlobs, more: LayerBlobs, specs: map<Digest, Tree>, chain: seq<Digest>, depth: nat)
    requires Extends(blobs, more) && ImageOk(blobs, specs, chain, depth)
    ensures ImageOk(more, specs, chain, depth)
  {
    hide SpecOk;
    if ChainId(chain) in specs { SpecExtends(blobs, more, specs[ChainId(chain)], chain, depth); }
  }

  /** A spec of the chain put into the cache. */
  lemma PutKeepsImage(blobs: LayerBlobs, specs: map<Digest, Tree>, chain: seq<Digest>, spec: Tree, other: seq<Digest>,
                      depth: nat)
    requires ImageOk(blobs, specs, other, depth) && Digests.Blobs(chain) && SpecOk(spec, blobs, chain, depth)
    ensures ImageOk(blobs, specs[ChainId(chain) := spec], other, depth)
  {
    hide SpecOk;
    if ChainId(other) == ChainId(chain) { ChainIdInjective(other, chain); }
  }

  // ------------------------------------------------------------------ a commit's chain

  function Times(t: Tree): set<int> {
    set q | q in t :: Info(t[q]).attrs.mtime
  }

  lemma {:induction false} OtherTime(times: set<int>) returns (now: int)
    ensures forall x :: x in times ==> x < now
  {
    now := 0;
    if x :| x in times {
      now := OtherTime(times - {x});
      if now <= x { now := x + 1; }
      assert forall y :: y in times ==> y == x || y in times - {x};
    }
  }

  /** A tree that equals a valid one is valid as well if it was made of layers. */
  lemma ShapedValid(a: Tree, t: Tree, late: set<Path>)
    requires Valid(a) && Shaped(t) && UpTo(a, t, late)
    ensures Valid(t)
  {
    assert AgreeAt(a, t, late, []);
    StrippedAt(a, []);
    StrippedAt(t, []);
  }

  lemma AgedValid(t: Tree, now: int)
    requires Valid(t)
    ensures Valid(AgedTree(t, now))
  {
    forall p | p in AgedTree(t, now) && p != []
      ensures Parent(p) in AgedTree(t, now) && KindOf(AgedTree(t, now)[Parent(p)]) == Dir
    {
      assert Parent(p) in t;
    }
  }

  lemma AgedDated(t: Tree, now: int)
    requires now != ZERO_TIME
    ensures LateDated(AgedTree(t, now), Late(t))
  {
  }

  /** Unpacking the committed layer at a time that occurs nowhere. */
  lemma MadeIsSpec(b: Tree, t: Tree, now: int, base: Tree, next: Tree, q: Path)
    requires t == AgedTree(next, now) && MadeAt(b, t, AgedTree(base, now), Late(base), q)
    requires now !in Times(b) && now !in Times(next)
    ensures AgreeAt(b, next, Late(next), q) && (q in Late(next) ==> q in Late(base))
  {
    StrippedAt(b, q);
    StrippedAt(t, q);
    StrippedAt(next, q);
    TimeIn(b, q);
    TimeIn(next, q);
  }

  lemma TimeIn(t: Tree, q: Path)
    ensures q in t ==> Info(t[q]).attrs.mtime in Times(t)
  {
  }

  /** The layer of a commit, unpacked on what the parent's layers make. */
  lemma CommitUnpacks(a: Tree, b: Tree, d: Tree, order: seq<Path>, base: Tree, now: int, depth: nat)
    requires Committable(a, b) && !SameTree(a, b) && IsDiff(d, a, b) && TopDown(d, order)
    requires Shaped(base) && UpTo(a, base, Late(base)) && now != ZERO_TIME
    ensures var r := Unpack(base, Tar(d, order), ZERO_TIME, depth);
      r.Done? && forall q :: MadeAt(b, AgedTree(r.tree, now), AgedTree(base, now), Late(base), q)
  {
    hide Unpack, Tar, SameTree, IsDiff, UpTo, LateDated, MadeAt, Committable, Shaped, Valid, AgedTree, Late;
    var t0, late := AgedTree(base, now), Late(base);
    CommittableValid(a, b);
    ShapedValid(a, base, late);
    AgedValid(base, now);
    AgedUpTo(base, now);
    UpToTransitive(a, base, t0, late);
    AgedDated(base, now);
    CommitOnOther(a, b, d, order, t0, late, now, depth);
    UnpackAged(base, Tar(d, order), depth, now);
  }

  lemma CommittableValid(a: Tree, b: Tree)
    requires Committable(a, b)
    ensures Valid(a) && Portable(a, b)
  {
  }

  /** The committed tree is a spec of the longer chain, and no more directories of the
      longer chain have the time of unpacking. */
  lemma CommitFolds(blobs: LayerBlobs, chain: seq<Digest>, a: Tree, b: Tree, d: Tree, order: seq<Path>, id: Digest,
                    spec: Tree, depth: nat)
    requires Committable(a, b) && !SameTree(a, b) && IsDiff(d, a, b) && TopDown(d, order)
    requires SpecOk(a, blobs, chain, depth)
    requires id in blobs && blobs[id] == Tar(d, order) && SameTree(Stripped(spec), b)
    ensures SpecOk(spec, blobs, chain + [id], depth)
    ensures LateIn(blobs, chain + [id], depth) <= LateIn(blobs, chain, depth)
  {
    hide Fold, SameTree, Stripped, Committable, IsDiff, TopDown, Tar, UpTo, Unpack, Shaped, AgedTree, MadeAt, Late,
         Times;
    var base := Base(blobs, chain, depth).tree;
    FoldShaped(blobs, chain, ZERO_TIME, depth);
    FoldSnoc(blobs, chain, id, ZERO_TIME, depth);
    CommitUnpacks(a, b, d, order, base, ZERO_TIME + 1, depth);
    var next := Unpack(base, blobs[id], ZERO_TIME, depth).tree;
    var now := OtherTime(Times(b) + Times(next) + {ZERO_TIME});
    CommitUnpacks(a, b, d, order, base, now, depth);
    forall q
      ensures AgreeAt(b, next, Late(next), q)
      ensures q in Late(next) ==> q in Late(base)
    {
      MadeIsSpec(b, AgedTree(next, now), now, base, next, q);
    }
    assert UpTo(b, next, Late(next)) by { AllAgree(b, next, Late(next)); }
    CommittableValid(a, b);
    StrippedPortable(a, b);
    SameIsUpTo(spec, b, Late(next));
    UpToTransitive(spec, b, next, Late(next));
  }

  lemma AllAgree(t: Tree, u: Tree, late: set<Path>)
    requires forall q :: AgreeAt(t, u, late, q)
    ensures UpTo(t, u, late)
  {
  }

  lemma StrippedPortable(a: Tree, b: Tree)
    requires Portable(a, b)
    ensures Stripped(b) == b
  {
  }

  lemma FoldSnoc(blobs: LayerBlobs, chain: seq<Digest>, id: Digest, now: int, depth: nat)
    requires id in blobs
    ensures var r := Fold(blobs, chain, now, depth);
      Fold(blobs, chain + [id], now, depth) == if r.Error? then r else Unpack(r.tree, blobs[id], now, depth)
  {
    hide Unpack;
    assert (chain + [id])[..|chain|] == chain;
  }

  lemma NoLayersOk(blobs: LayerBlobs, depth: nat)
    ensures SpecOk(NEW_FS, blobs, [], depth)
  {
    assert Fold(blobs, [], ZERO_TIME, depth) == Done(NEW_FS);
  }

  // ---------------------------------------------------------------------- traversal

  /** The nodes of a tree in any order in which no node comes after its descendants, as
      FsNode.write visits them. */
  method Traverse(d: Tree) returns (order: seq<Path>)
    ensures TopDown(d, order)
  {
    order := [];
    var todo := d.Keys;
    while todo != {}
      invariant todo <= d.Keys
      invariant forall q :: q in d ==> (q in order <==> q !in todo)
      invariant forall i :: 0 <= i < |order| ==> order[i] in d
      invariant forall i, j :: 0 <= i < j < |order| ==> order[i] != order[j] && !(order[j] < order[i])
      invariant forall i, q :: 0 <= i < |order| && q in todo ==> !(q < order[i])
      decreases todo
    {
      ghost var top := LayerLaws.Topmost(todo);
      var p :| p in todo && forall q :: q in todo ==> !(q < p);
      assert p !in order;
      order, todo := order + [p], todo - {p};
    }
  }

  // -------------------------------------------------------------------------- store

  /** MockDevices: device nodes become empty files of their own. */
  function Mocked(t: Tree): (r: Tree)
    ensures r.Keys == t.Keys && NoDevices(r)
    ensures forall q :: q in t ==> Info(r[q]).attrs == Info(t[q]).attrs && (KindOf(t[q]) != Device ==> r[q] == t[q])
  {
    map q | q in t :: if KindOf(t[q]) == Device then Made(q, Info(t[q]).(kind := File), "") else t[q]
  }

  predicate NoWhiteouts(t: Tree) {
    forall q :: q in t ==> KindOf(t[q]) != Whiteout
  }

  predicate NoDevices(t: Tree) {
    forall q :: q in t ==> KindOf(t[q]) != Device
  }

  /** Every cached spec is that of a stored image. */
  ghost predicate Owned(specs: map<Digest, Tree>, images: set<seq<Digest>>) {
    forall c :: c in specs ==> exists chain :: chain in images && ChainId(chain) == c
  }

  lemma OwnedKnown(specs: map<Digest, Tree>, images: set<seq<Digest>>, chain: seq<Digest>, blobs: LayerBlobs,
                   depth: nat)
    requires Owned(specs, images) && Digests.Blobs(chain)
    requires forall c :: c in images ==> ImageOk(blobs, specs, c, depth)
    ensures ChainId(chain) in specs ==> chain in images
  {
    hide SpecOk;
    if ChainId(chain) in specs {
      var c :| c in images && ChainId(c) == ChainId(chain);
      assert ImageOk(blobs, specs, c, depth);
      ChainIdInjective(c, chain);
    }
  }

  /** What AddLayer returns: the parent has no tree, nothing changed, or the new chain. */
  datatype AddResult = NoParent | NoLayer | Added(chain: seq<Digest>)

  lemma SpecMade(spec: Tree, blobs: LayerBlobs, chain: seq<Digest>, depth: nat)
    requires SpecOk(spec, blobs, chain, depth)
    ensures Base(blobs, chain, depth).Done?
  {
  }

  /** The layer blobs, the spec cache and the layer chains of the stored images. `depth`
      bounds how deep symlinks nest. */
  class OciStore {
    const depth: nat
    var blobs: LayerBlobs
    var count: nat
    var specs: map<Digest, Tree>
    var images: set<seq<Digest>>

    ghost predicate Coherent()
      reads this
    {
      && (forall k :: k in blobs ==> k.Blob? && k.n < count)
      && (forall chain :: chain in images ==> ImageOk(blobs, specs, chain, depth))
      && Owned(specs, images)
    }

    constructor (bound: nat)
      ensures Coherent() && images == {} && specs == map[]
    {
      depth, blobs, count, specs, images := bound, map[], 0, map[], {};
    }

    /** Puts a blob under its digest: equal content gets the same one. */
    method PutBlob(layer: seq<Entry>) returns (id: Digest)
      requires Coherent()
      modifies this`blobs, this`count
      ensures Coherent() && id.Blob? && Extends(old(blobs), blobs)
      ensures id in blobs && blobs[id] == layer
    {
      if k :| k in blobs && blobs[k] == layer {
        return k;
      }
      id := Blob(count);
      blobs, count := blobs[id := layer], count + 1;
      forall chain | chain in images ensures ImageOk(blobs, specs, chain, depth) {
        ImageExtends(old(blobs), blobs, specs, chain, depth);
      }
    }

    /** Any image that comes from elsewhere, without a spec. */
    method Import(layers: seq<Digest>)
      requires Coherent() && layers != [] && Digests.Blobs(layers)
      modifies this`images
      ensures Coherent() && images == old(images) + {layers}
    {
      hide SpecOk;
      OwnedKnown(specs, images, layers, blobs, depth);
      images := images + {layers};
    }

    /** FSSpec returns what the layers make, or fails if they make nothing. */
    method FSSpec(chain: seq<Digest>, now: int) returns (r: Outcome)
      requires Coherent() && chain in images
      modifies this`specs
      ensures Coherent() && (r.Done? <==> Base(blobs, chain, depth).Done?)
      ensures r.Done? ==> SpecOk(r.tree, blobs, chain, depth)
      ensures specs == if r.Done? then old(specs)[ChainId(chain) := r.tree] else old(specs)
      ensures ChainId(chain) in old(specs) ==> r == Done(old(specs)[ChainId(chain)])
    {
      hide UpTo, Stripped, Fold;
      assert ImageOk(blobs, specs, chain, depth);
      if ChainId(chain) in specs { return Done(specs[ChainId(chain)]); }
      r := Fold(blobs, chain, now, depth);
      FoldIsSpec(blobs, chain, now, depth);
      if r.Error? { return; }
      r := Done(Stripped(r.tree));
      StoreSpec(chain, r.tree);
    }

    method StoreSpec(chain: seq<Digest>, spec: Tree)
      requires Coherent() && chain in images && SpecOk(spec, blobs, chain, depth)
      modifies this`specs
      ensures Coherent() && specs == old(specs)[ChainId(chain) := spec]
    {
      assert ImageOk(blobs, specs, chain, depth);
      forall other | other in images ensures ImageOk(blobs, specs[ChainId(chain) := spec], other, depth) {
        PutKeepsImage(blobs, specs, chain, spec, other, depth);
      }
      specs := specs[ChainId(chain) := spec];
    }

    /** UnpackLayers, of which only the cached spec is modelled: it keeps its whiteouts. */
    method UnpackLayers(chain: seq<Digest>, now: int) returns (ok: bool)
      requires Coherent() && chain in images
      modifies this`specs
      ensures Coherent() && (ok <==> Base(blobs, chain, depth).Done?)
      ensures ChainId(chain) in old(specs) || !ok ==> specs == old(specs)
      ensures ChainId(chain) !in old(specs) && ok ==>
        var r := Fold(blobs, chain, now, depth);
        r.Done? && specs == old(specs)[ChainId(chain) := r.tree]
    {
      hide UpTo, Fold;
      assert ImageOk(blobs, specs, chain, depth);
      FoldIsSpec(blobs, chain, now, depth);
      var r := Fold(blobs, chain, now, depth);
      ok := r.Done?;
      if ok && ChainId(chain) !in specs {
        StoreSpec(chain, r.tree);
      }
    }

    /** AddLayer: the difference of `b` to the parent becomes a layer, and `b` the spec
        of the longer chain. `a` is the spec of the parent, which may have whiteouts: with
        them even an unchanged file system makes a layer. */
    method AddLayer(parent: seq<Digest>, b: Tree, rootless: bool, now: int) returns (r: AddResult, ghost a: Tree)
      requires Coherent() && (parent == [] || parent in images)
      modifies this
      ensures r.NoParent? <==> Base(old(blobs), parent, depth).Error?
      ensures r.NoParent? ==> Coherent() && blobs == old(blobs) && images == old(images) && specs == old(specs)
      ensures !r.NoParent? ==> SpecOk(a, old(blobs), parent, depth) && Extends(old(blobs), blobs)
      ensures !r.NoParent? && Supported(a, b, rootless) ==> Coherent() && (r.NoLayer? <==> SameTree(a, b))
      ensures !r.NoParent? && Supported(a, b, rootless) ==> RefusedIff(a, b, r.NoLayer?)
      ensures !r.NoParent? && Supported(a, b, rootless) && r.Added? ==>
        && r.chain in images && |r.chain| == |parent| + 1 && r.chain[..|parent|] == parent
        && ChainId(r.chain) in specs && SameTree(specs[ChainId(r.chain)], b)
        && LateIn(blobs, r.chain, depth) <= LateIn(old(blobs), parent, depth)
    {
      hide SpecOk, Tar, IsDiff, TopDown, SameTree, Committable, Mocked, NoDevices, Fit, Valid, Stripped, ImageOk,
           Owned, Extends, LateIn, RefusedIff;
      var spec := NEW_FS;
      if parent != [] {
        var got := FSSpec(parent, now);
        if got.Error? { return NoParent, spec; }
        spec := got.tree;
      } else {
        NoLayersOk(blobs, depth);
        SpecMade(spec, blobs, parent, depth);
      }
      a := spec;
      SpecMade(spec, blobs, parent, depth);
      if rootless { spec := Mocked(spec); }
      if Supported(a, b, rootless) { SupportedFits(a, b, rootless); }
      RefusedIfSame(a, b);
      var layer, d, order := LayerOf(spec, b, depth);
      if layer.None? { SameExtends(blobs); return NoLayer, a; }
      var id := PutBlob(layer.value);
      var n := Normalize(b, now, depth);
      r := Added(parent + [id]);
      if Supported(a, b, rootless) {
        SpecExtends(old(blobs), blobs, a, parent, depth);
        PutCommits(parent, a, b, d, order, id, n.tree);
      }
      images := images + {r.chain};
      if n.Done? { specs := specs[ChainId(r.chain) := n.tree]; }
    }

    lemma PutCommits(parent: seq<Digest>, a: Tree, b: Tree, d: Tree, order: seq<Path>, id: Digest, spec: Tree)
      requires Coherent() && (parent == [] || parent in images)
      requires Committable(a, b) && !SameTree(a, b) && IsDiff(d, a, b) && TopDown(d, order)
      requires SpecOk(a, blobs, parent, depth) && id.Blob? && id in blobs && blobs[id] == Tar(d, order)
      requires SameTree(Stripped(spec), b)
      ensures LateIn(blobs, parent + [id], depth) <= LateIn(blobs, parent, depth)
      ensures forall c :: c in images + {parent + [id]} ==>
        ImageOk(blobs, specs[ChainId(parent + [id]) := spec], c, depth)
      ensures Owned(specs[ChainId(parent + [id]) := spec], images + {parent + [id]})
    {
      hide SpecOk, Tar, IsDiff, SameTree, Committable, Stripped, LateIn;
      assert parent != [] ==> ImageOk(blobs, specs, parent, depth);
      CommitFolds(blobs, parent, a, b, d, order, id, spec, depth);
      AddedOk(blobs, specs, images, parent + [id], spec, depth);
    }
  }

  /** The layer of a tree on top of another one, unless it is empty. */
  method LayerOf(a: Tree, b: Tree, depth: nat)
    returns (layer: Option<seq<Entry>>, ghost d: Tree, ghost order: seq<Path>)
    ensures Fit(a, b) && [] in b && b[[]] != ParentDir ==> (layer.None? <==> SameTree(a, b))
    ensures layer.Some? ==> TopDown(d, order) && layer.value == Tar(d, order) && (Fit(a, b) ==> IsDiff(d, a, b))
  {
    hide Tar, IsDiff, SameTree;
    d, order := NEW_FS, [];
    var r, adds, dels, relinks := Diff(a, b, depth);
    if r.Error? { return None, d, order; }
    d := r.tree;
    if Fit(a, b) && b[[]] != ParentDir { EmptyTestWithRoot(d, a, b); }
    if IsEmpty(r.tree) { return None, d, order; }
    var visited := Traverse(r.tree);
    return Some(Tar(r.tree, visited)), r.tree, visited;
  }

  method Normalize(b: Tree, now: int, depth: nat) returns (n: Outcome)
    ensures Valid(b) && Portable(b, b) ==>
      n.Done? && Valid(n.tree) && SameTree(n.tree, b) && SameTree(Stripped(n.tree), b)
  {
    hide Normalized, Portable, Valid, SameTree, Stripped;
    var order := Traverse(b);
    n := Normalized(b, order, now, depth);
    if Valid(b) && Portable(b, b) { NormalizedSpec(b, order, now, depth); }
  }

  /** What AddLayer needs to commit `b` on top of `a`. */
  predicate Supported(a: Tree, b: Tree, rootless: bool) {
    Committable(a, b) && (rootless ==> NoDevices(a))
  }

  lemma SupportedFits(a: Tree, b: Tree, rootless: bool)
    requires Supported(a, b, rootless)
    ensures Fit(a, b) && Valid(b) && Portable(b, b) && [] in b && b[[]] != ParentDir
    ensures rootless ==> Mocked(a) == a
  {
    PortableSelf(a, b);
    hide Portable, TarSafe, Stray;
    if rootless { MockedSame(a); }
  }

  lemma MockedSame(a: Tree)
    requires NoDevices(a)
    ensures Mocked(a) == a
  {
  }

  lemma PortableSelf(a: Tree, b: Tree)
    requires Valid(b) && Portable(a, b)
    ensures Portable(b, b) && b[[]] != ParentDir
  {
    forall k | k in b
      ensures !Changed(b, b, k)
    {
    }
    hide Changed;
  }

  lemma NormalizedSpec(b: Tree, order: seq<Path>, now: int, depth: nat)
    requires Valid(b) && Portable(b, b) && TopDown(b, order)
    ensures var n := Normalized(b, order, now, depth);
      n.Done? && Valid(n.tree) && SameTree(n.tree, b) && SameTree(Stripped(n.tree), b)
  {
    hide Normalized, Portable, SameTree, Valid, Stripped;
    NormalizedSame(b, order, now, depth);
    SameTreeValid(Normalized(b, order, now, depth).tree, b);
  }

  lemma SameTreeValid(t: Tree, b: Tree)
    requires Valid(b) && SameTree(t, b) && Portable(b, b)
    ensures Valid(t) && Stripped(t) == t
  {
    assert forall q :: q in t ==> KindOf(t[q]) == KindOf(b[q]);
  }

  lemma AddedOk(blobs: LayerBlobs, specs: map<Digest, Tree>, images: set<seq<Digest>>, chain: seq<Digest>, spec: Tree,
                depth: nat)
    requires forall c :: c in images ==> ImageOk(blobs, specs, c, depth)
    requires chain != [] && Digests.Blobs(chain) && SpecOk(spec, blobs, chain, depth)
    ensures forall c :: c in images + {chain} ==> ImageOk(blobs, specs[ChainId(chain) := spec], c, depth)
  {
    hide SpecOk;
    forall c | c in images ensures ImageOk(blobs, specs[ChainId(chain) := spec], c, depth) {
      PutKeepsImage(blobs, specs, chain, spec, c, depth);
    }
  }

  // -------------------------------------------------------------- where it departs

  /** An unchanged file system is refused exactly if the spec has no whiteouts. */
  predicate RefusedIff(a: Tree, b: Tree, refused: bool) {
    SameTree(Stripped(a), b) ==> (refused <==> NoWhiteouts(a))
  }

  lemma WhiteoutsDiffer(a: Tree, b: Tree)
    requires SameTree(Stripped(a), b)
    ensures SameTree(a, b) <==> NoWhiteouts(a)
  {
    if NoWhiteouts(a) {
      assert Stripped(a) == a;
    } else {
      var q :| q in a && KindOf(a[q]) == Whiteout;
      assert q !in Stripped(a) && q !in b;
    }
  }

  lemma RefusedIfSame(a: Tree, b: Tree)
    ensures RefusedIff(a, b, SameTree(a, b))
  {
    if SameTree(Stripped(a), b) { WhiteoutsDiffer(a, b); }
  }

  /** The difference of a file system that did not change to a cached spec is empty if and
      only if the spec has no whiteouts, which those cached while unpacking can have. */
  lemma UnchangedIsEmptyIff(d: Tree, a: Tree, b: Tree)
    requires Valid(a) && Valid(b) && IsDiff(d, a, b) && b[[]] != ParentDir && SameTree(Stripped(a), b)
    ensures IsEmpty(d) <==> NoWhiteouts(a)
  {
    hide IsDiff, SameTree, Stripped, NoWhiteouts, IsEmpty;
    EmptyTestWithRoot(d, a, b);
    WhiteoutsDiffer(a, b);
  }

  /** A parent whose spec keeps a whiteout can be committed on. */
  const WITH_WHITEOUT: Tree := map[[] := ROOT, ["f"] := Removed]

  lemma WhiteoutsSupported(rootless: bool)
    ensures var a, b := WITH_WHITEOUT, map[[] := ROOT];
      Supported(a, b, rootless) && SameTree(Stripped(a), b) && !NoWhiteouts(a)
  {
    var a, b: Tree := WITH_WHITEOUT, map[[] := ROOT];
    assert Parent(["f"]) == [];
    assert ["f"] in a && KindOf(a[["f"]]) == Whiteout;
    assert !Changed(a, b, []);
    assert Relinks(a, b) == {};
    assert Cover({}) == {[]};
  }

  const NO_NODE := NodeInfo(File, NO_ATTRS)

  lemma UnpackOne(t: Tree, e: Entry, now: int, depth: nat)
    ensures Unpack(t, [e], now, depth) == Replay(t, Decode(e), now, depth)
  {
    hide Replay, Decode;
    var ops := seq(1, i requires 0 <= i < 1 => Decode([e][i]));
    assert ops == [Decode(e)] && ops[..0] == [];
    assert ReplayAll(t, [], now, depth) == Done(t);
  }

  lemma RemovalDecodes()
    ensures Decode(NodeEntry([".wh.f"], NO_NODE, "")) == Remove(["f"])
  {
    var e := NodeEntry([".wh.f"], NO_NODE, "");
    assert ".wh.f"[4..] == "f" && Last(e.path) == ".wh.f" && Parent(e.path) == [];
  }

  /** Unpacking a removal leaves a whiteout in the tree. */
  lemma WhiteoutIsKept(now: int, depth: nat)
    ensures var r := Unpack(NEW_FS, [NodeEntry([".wh.f"], NO_NODE, "")], now, depth);
      r.Done? && ["f"] in r.tree && KindOf(r.tree[["f"]]) == Whiteout
  {
    hide Unpack, Add, Walk, Opened, Decode;
    UnpackOne(NEW_FS, NodeEntry([".wh.f"], NO_NODE, ""), now, depth);
    RemovalDecodes();
    assert Up(["f"]) == [];
    PlainAdd(NEW_FS, ["f"], Removed, now, depth);
  }

  /** A layer whose directory is implicit makes a tree that depends on the clock. */
  lemma ImplicitDirHasItsTime(now: int, depth: nat)
    requires now != ZERO_TIME
    ensures var r := Unpack(NEW_FS, [NodeEntry(["d", "f"], NO_NODE, "")], now, depth);
      r.Done? && ["d"] in r.tree && Info(r.tree[["d"]]).attrs.mtime == now
  {
    hide Unpack, Add, Walk;
    var e := NodeEntry(["d", "f"], NO_NODE, "");
    UnpackOne(NEW_FS, e, now, depth);
    assert Last(e.path) == "f" && !(WHITEOUT_PREFIX <= "f");
    var op := Put(["d", "f"], Carried(NO_NODE), "");
    assert Decode(e) == op;
    assert Up(op.path) == ["d"];
    PlainAdd(NEW_FS, op.path, NewSource(op.path, op.info, op.hash, now), now, depth);
  }
}
