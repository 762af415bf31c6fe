/** Image layers: writing a diff tree into tar entries and unpacking them on another tree. */
module Layer {
  import opened FsTypes
  import opened PathWalk
  import opened TreeDiff
  import opened DiffLaws

  // --------------------------------------------------------------------- writing

  /** The calls a node's source makes on a writer. */
  datatype Op =
    | Put(path: Path, info: NodeInfo, hash: string)
    | Link(path: Path, target: Path)
    | Remove(path: Path)

  datatype Written = Written(ops: seq<Op>, first: map<Source, Path>)

  /** Source.Write: the second node of a source becomes a hard link to the first one.
      Directories are never linked, and nodes of a stored spec are not written. */
  function WriteNode(w: Written, p: Path, s: Source): Written {
    var origin := Origin(s);
    if s.Removed? then w.(ops := w.ops + [Remove(p)])
    else if KindOf(s) == Dir then
      if IsLower(s) then w else w.(ops := w.ops + [Put(p, Info(s), Hash(s))])
    else if origin in w.first && (!IsLower(origin) || s.Linked?) then
      w.(ops := w.ops + [Link(p, w.first[origin])])
    else if IsLower(origin) then w.(first := if origin in w.first then w.first else w.first[origin := p])
    else Written(w.ops + [Put(p, Info(s), Hash(s))], w.first[origin := p])
  }

  /** FsNode.write over the nodes in the given order. */
  function WriteAll(d: Tree, order: seq<Path>): Written
    requires forall i :: 0 <= i < |order| ==> order[i] in d
  {
    if order == [] then Written([], map[])
    else
      var n := |order| - 1;
      WriteNode(WriteAll(d, order[..n]), order[n], d[order[n]])
  }

  /** Every node once, and no node after its descendants. */
  predicate TopDown(d: Tree, order: seq<Path>) {
    && (forall i :: 0 <= i < |order| ==> order[i] in d)
    && (forall q :: q in d ==> q in order)
    && (forall i, j :: 0 <= i < j < |order| ==> order[i] != order[j] && !(order[j] < order[i]))
  }

  // ------------------------------------------------------------------------- tar

  const WHITEOUT_PREFIX := ".wh."

  datatype Entry =
    | NodeEntry(path: Path, info: NodeInfo, hash: string)
    | LinkEntry(path: Path, target: Path)

  function Last(p: Path): Name
    requires p != []
  {
    p[|p| - 1]
  }

  /** TarWriter: a removal becomes an empty file with the whiteout prefix. */
  function Encode(op: Op): Entry {
    match op
    case Put(p, info, hash) => NodeEntry(p, info, hash)
    case Link(p, target) => LinkEntry(p, target)
    case Remove(p) =>
      NodeEntry(if p == [] then [WHITEOUT_PREFIX] else Parent(p) + [WHITEOUT_PREFIX + Last(p)],
                NodeInfo(File, NO_ATTRS), "")
  }

  /** The attributes that a tar header carries for a node of that kind. */
  function Carried(info: NodeInfo): NodeInfo {
    info.(attrs := info.attrs.(
      size := if info.kind == File then info.attrs.size else 0,
      symlink := if info.kind == Symlink then info.attrs.symlink else "",
      perm := if info.kind == Symlink then 0 else info.attrs.perm))
  }

  predicate IsWhiteoutName(p: Path) {
    p != [] && WHITEOUT_PREFIX <= Last(p)
  }

  /** unpackTarEntry: the name decides first whether an entry is a removal. */
  function Decode(e: Entry): Op {
    if IsWhiteoutName(e.path) then Remove(Parent(e.path) + [Last(e.path)[|WHITEOUT_PREFIX|..]])
    else
      match e
      case NodeEntry(p, info, hash) => Put(p, Carried(info), if info.kind == File then hash else "")
      case LinkEntry(p, target) => Link(p, target)
  }

  /** What a tar entry can hold: content of files, targets of symlinks and modes of the rest. */
  predicate FitsEntry(info: NodeInfo, hash: string) {
    && (info.kind != File ==> info.attrs.size == 0 && hash == "")
    && (if info.kind == Symlink then info.attrs.perm == 0 else info.attrs.symlink == "")
  }

  /** An operation survives the tar archive exactly when it removes a node below the
      root, or has no whiteout name and only attributes that an entry can hold. */
  lemma TarRoundTrip(op: Op)
    ensures Decode(Encode(op)) == op <==>
              match op
              case Remove(p) => p != []
              case Link(p, _) => p != [] ==> !(".wh." <= p[|p| - 1])
              case Put(p, info, hash) => (p != [] ==> !(".wh." <= p[|p| - 1])) && FitsEntry(info, hash)
  {
    if op.Remove? && op.path != [] {
      var p, q := op.path, Encode(op).path;
      assert Last(q) == WHITEOUT_PREFIX + Last(p) && Parent(q) == Parent(p);
      assert Last(q)[|WHITEOUT_PREFIX|..] == Last(p);
      assert Parent(p) + [Last(p)] == p;
    } else if op.Remove? {
      assert Last(Encode(op).path) == WHITEOUT_PREFIX;
      assert Decode(Encode(op)).path != [];
    }
  }

  // ------------------------------------------------------------------- unpacking

  /** FsNodeWriter: every call adds a node with a new upper source. */
  function Replay(t: Tree, op: Op, now: int, depth: nat): Outcome {
    if [] !in t then Error(NilParent)
    else
      match op
      case Put(p, info, hash) => Result(Add(t, p, NewSource(p, info, hash, now), MkdirsUpper(now), depth))
      case Remove(p) => Result(Add(t, p, Removed, MkdirsUpper(now), depth))
      case Link(p, target) =>
        var found := Walk(t, [], 0, target, Lookup, depth);
        if found.Failed? then Error(found.why)
        else if KindOf(NodeAt(found)) == Dir || found.path == [] then Error(NotFound)
        else Result(Add(t, p, Linked(0, Origin(NodeAt(found))), MkdirsUpper(now), depth))
  }

  function NodeAt(found: Walked): Source
    requires found.At? && found.path in found.tree
  {
    found.tree[found.path]
  }

  function Result(r: Walked): Outcome {
    if r.Failed? then Error(r.why) else Done(r.tree)
  }

  function NewSource(p: Path, info: NodeInfo, hash: string, now: int): Source {
    if info.kind == Dir then NewDir(info.attrs, now) else Made(p, info, hash)
  }

  function ReplayAll(t: Tree, ops: seq<Op>, now: int, depth: nat): Outcome {
    if ops == [] then Done(t)
    else
      var r := ReplayAll(t, ops[..|ops| - 1], now, depth);
      if r.Error? then r else Replay(r.tree, ops[|ops| - 1], now, depth)
  }

  /** FsNode.RemoveWhiteouts. */
  function Stripped(t: Tree): Tree {
    map p | p in t && KindOf(t[p]) != Whiteout :: t[p]
  }

  // ------------------------------------------------------- replaying a diff on `a`

  /** `q` lies below a replayed node that is no directory. */
  predicate Cut(d: Tree, done: set<Path>, q: Path) {
    exists p :: p in done && p in d && p < q && KindOf(d[p]) != Dir
  }

  predicate Kept(t: Tree, a: Tree, d: Tree, done: set<Path>, q: Path) {
    if q in a && !Cut(d, done, q) then q in t && t[q] == a[q] else q !in t
  }

  /** The tree after the nodes of `done` were replayed: they are in place, nothing is
      left below the ones that are no directories, and the rest is as in `a`. */
  ghost predicate Replayed(t: Tree, a: Tree, d: Tree, done: set<Path>) {
    && (forall q :: q in done ==> q in d && q in t && SameNode(t[q], d[q]))
    && (forall q :: q !in done ==> Kept(t, a, d, done, q))
  }

  /** The next node to replay: its ancestors are done, its descendants are not. */
  ghost predicate Next(d: Tree, done: set<Path>, k: Path) {
    && k in d && k !in done
    && (forall q :: q < k ==> q in done && q in d && KindOf(d[q]) == Dir && Info(d[q]).attrs.mtime != ZERO_TIME)
    && (forall q :: q in done ==> !(k < q))
  }

  lemma ReopenedSame(t: Tree, d: Tree, q: Path, now: int)
    requires q in t && q in d && SameNode(t[q], d[q]) && KindOf(d[q]) == Dir
    requires Info(d[q]).attrs.mtime != ZERO_TIME && Hash(d[q]) == ""
    ensures SameNode(Reopened(t, q, now), d[q])
  {
  }

  lemma PutAdds(t: Tree, a: Tree, d: Tree, done: set<Path>, k: Path, src: Source, now: int, depth: nat)
    requires Valid(a) && Replayed(t, a, d, done) && Next(d, done, k)
    ensures [] in t
    ensures Add(t, k, src, MkdirsUpper(now), depth) == At(SetSource(Opened(t, [], Up(k), now), k, src), k)
  {
    RootKept(t, a, d, done, k);
    forall q | q in t && q <= Up(k)
      ensures KindOf(t[q]) == Dir
    {
      if q < k { assert SameNode(t[q], d[q]); }
    }
    PlainAdd(t, k, src, now, depth);
  }

  lemma DoneAfter(t: Tree, a: Tree, d: Tree, done: set<Path>, k: Path, src: Source, now: int, q: Path)
    requires Replayed(t, a, d, done) && Next(d, done, k) && SameNode(src, d[k]) && q in done + {k}
    requires KindOf(d[q]) == Dir ==> Hash(d[q]) == ""
    ensures var u := SetSource(Opened(t, [], Up(k), now), k, src);
      q in d && q in u && SameNode(u[q], d[q])
  {
    if q < k { ReopenedSame(t, d, q, now); }
  }

  /** A replayed node takes its place and touches nothing else. */
  lemma PutReplayed(t: Tree, a: Tree, d: Tree, done: set<Path>, k: Path, src: Source, now: int, depth: nat)
    requires Valid(a) && Replayed(t, a, d, done) && Next(d, done, k) && SameNode(src, d[k])
    requires forall q :: q in d && KindOf(d[q]) == Dir ==> Hash(d[q]) == ""
    ensures var r := Add(t, k, src, MkdirsUpper(now), depth);
      [] in t && r.At? && Replayed(r.tree, a, d, done + {k})
  {
    var u := SetSource(Opened(t, [], Up(k), now), k, src);
    PutAdds(t, a, d, done, k, src, now, depth);
    forall q | q in done + {k}
      ensures q in d && q in u && SameNode(u[q], d[q])
    {
      DoneAfter(t, a, d, done, k, src, now, q);
    }
    forall q | q !in done + {k}
      ensures Kept(u, a, d, done + {k}, q)
    {
      KeptAfter(t, a, d, done, k, src, now, q);
    }
    hide Add, Next, Valid, Kept, SetSource, Opened;
  }

  lemma RootKept(t: Tree, a: Tree, d: Tree, done: set<Path>, k: Path)
    requires Valid(a) && Replayed(t, a, d, done) && Next(d, done, k)
    ensures [] in t && KindOf(t[[]]) == Dir
  {
    if k == [] {
      assert forall p :: p in done ==> !(p < k);
      assert Kept(t, a, d, done, []);
      assert !Cut(d, done, []);
    } else {
      assert [] < k;
      assert SameNode(t[[]], d[[]]);
    }
  }

  lemma KeptAfter(t: Tree, a: Tree, d: Tree, done: set<Path>, k: Path, src: Source, now: int, q: Path)
    requires Valid(a) && Replayed(t, a, d, done) && Next(d, done, k) && SameNode(src, d[k])
    requires q !in done + {k}
    ensures Kept(SetSource(Opened(t, [], Up(k), now), k, src), a, d, done + {k}, q)
  {
    var u := SetSource(Opened(t, [], Up(k), now), k, src);
    assert Kept(t, a, d, done, q);
    assert !(q < k) && !(q <= Up(k));
    assert q in u <==> q in t && !(k < q && KindOf(src) != Dir);
    assert Cut(d, done + {k}, q) <==> Cut(d, done, q) || (k < q && KindOf(d[k]) != Dir) by {
      if k < q && KindOf(d[k]) != Dir { assert k in done + {k}; }
      if Cut(d, done, q) {
        var p :| p in done && p in d && p < q && KindOf(d[p]) != Dir;
        assert p in done + {k};
      }
    }
  }

  // ---------------------------------------------------- writing and replaying a diff

  /** A node of a diff on top of `a` that the writers and readers of layers handle. */
  predicate WritableNode(a: Tree, q: Path, s: Source) {
    if KindOf(s) == Dir then
      !s.ParentDir? && Info(s).attrs.mtime != ZERO_TIME && Hash(s) == "" &&
      (IsLower(s) ==> q in a && SameNode(a[q], s))
    else s.Removed? || (KindOf(s) != Whiteout && !IsLower(Origin(s)))
  }

  ghost predicate Writable(d: Tree, a: Tree) {
    && [] in d && KindOf(d[[]]) == Dir
    && (forall q :: q in d ==> WritableNode(a, q, d[q]))
    && (forall k, q :: k in d && q < k ==> q in d && KindOf(d[q]) == Dir)
    && (forall p, q :: p in d && q in d && p != q && Origin(d[p]) == Origin(d[q]) ==> KindOf(d[p]) != Symlink)
  }

  /** Ancestors come first. */
  ghost predicate Ordered(d: Tree, order: seq<Path>) {
    order == [] ||
    (Ordered(d, order[..|order| - 1]) && Follows(d, order[..|order| - 1], order[|order| - 1]))
  }

  ghost predicate Follows(d: Tree, before: seq<Path>, k: Path) {
    && k in d && k !in before
    && (forall q :: q < k ==> q in before)
    && (forall q :: q in before ==> !(k < q))
  }

  ghost predicate Closed(done: set<Path>) {
    forall p, q :: p in done && q < p ==> q in done
  }

  predicate FirstOk(d: Tree, first: map<Source, Path>, done: set<Path>) {
    forall o :: o in first ==>
      first[o] in done && first[o] in d && Origin(d[first[o]]) == o && KindOf(d[first[o]]) != Dir &&
        !d[first[o]].Removed?
  }

  lemma OriginSame(s: Source, o: Source)
    requires Origin(s) == Origin(o)
    ensures SameNode(s, o)
  {
  }

  lemma PutOpReplayed(t: Tree, a: Tree, d: Tree, done: set<Path>, k: Path, now: int, depth: nat)
    requires Valid(a) && Writable(d, a) && Replayed(t, a, d, done) && Next(d, done, k)
    ensures var op := if d[k].Removed? then Remove(k) else Put(k, Info(d[k]), Hash(d[k]));
      var r := Replay(t, op, now, depth);
      r.Done? && Replayed(r.tree, a, d, done + {k})
  {
    var s := d[k];
    var src := if s.Removed? then Removed else NewSource(k, Info(s), Hash(s), now);
    assert SameNode(src, s) by { assert WritableNode(a, k, s); }
    assert forall q :: q in d && KindOf(d[q]) == Dir ==> Hash(d[q]) == "" by {
      assert forall q :: q in d ==> WritableNode(a, q, d[q]);
    }
    PutReplayed(t, a, d, done, k, src, now, depth);
  }

  lemma LinkReplayed(t: Tree, a: Tree, d: Tree, done: set<Path>, k: Path, target: Path, now: int, depth: nat)
    requires Valid(a) && Writable(d, a) && Replayed(t, a, d, done) && Next(d, done, k) && Closed(done)
    requires target in done && target in d && KindOf(d[target]) != Dir && Origin(d[target]) == Origin(d[k])
    ensures var r := Replay(t, Link(k, target), now, depth);
      r.Done? && Replayed(r.tree, a, d, done + {k})
  {
    assert KindOf(d[target]) != Symlink;
    TargetFound(t, a, d, done, target, depth);
    OriginSame(d[target], d[k]);
    var src := Linked(0, Origin(t[target]));
    OriginSame(src, t[target]);
    assert SameNode(t[target], d[target]);
    assert forall q :: q in d ==> WritableNode(a, q, d[q]);
    hide Writable;
    PutReplayed(t, a, d, done, k, src, now, depth);
  }

  lemma TargetFound(t: Tree, a: Tree, d: Tree, done: set<Path>, p: Path, depth: nat)
    requires Writable(d, a) && Replayed(t, a, d, done) && Closed(done)
    requires p in done && p in d && KindOf(d[p]) != Dir && KindOf(d[p]) != Symlink
    ensures [] in t && p != [] && Walk(t, [], 0, p, Lookup, depth) == At(t, p) && p in t && KindOf(t[p]) != Dir
  {
    assert SameNode(t[p], d[p]);
    assert [] + p == p;
    forall q | [] <= q <= [] + p
      ensures q in t && KindOf(t[q]) != Symlink
    {
      if q != p { assert q < p; assert SameNode(t[q], d[q]); }
    }
    PlainLookup(t, [], p, depth);
  }

  lemma FirstStep(a: Tree, d: Tree, done: set<Path>, k: Path, w: Written)
    requires k in d && WritableNode(a, k, d[k]) && FirstOk(d, w.first, done)
    ensures FirstOk(d, WriteNode(w, k, d[k]).first, done + {k})
  {
  }

  /** The call made for a writable node: none for a directory of a stored spec, a link
      for a source written before, and otherwise the node itself. */
  function Call(first: map<Source, Path>, k: Path, s: Source): seq<Op> {
    if IsLower(s) then []
    else if s.Removed? then [Remove(k)]
    else if KindOf(s) != Dir && Origin(s) in first then [Link(k, first[Origin(s)])]
    else [Put(k, Info(s), Hash(s))]
  }

  lemma WritesCall(a: Tree, w: Written, k: Path, s: Source)
    requires WritableNode(a, k, s)
    ensures WriteNode(w, k, s).ops == w.ops + Call(w.first, k, s)
  {
  }

  /** Replaying the call made for one node. */
  lemma NodeReplayed(t: Tree, a: Tree, d: Tree, done: set<Path>, k: Path, first: map<Source, Path>, now: int,
                     depth: nat)
    requires Valid(a) && Writable(d, a) && Replayed(t, a, d, done) && Next(d, done, k)
    requires Closed(done) && FirstOk(d, first, done)
    ensures var call := Call(first, k, d[k]);
      if call == [] then Replayed(t, a, d, done + {k})
      else var r := Replay(t, call[0], now, depth);
        r.Done? && Replayed(r.tree, a, d, done + {k})
  {
    var s := d[k];
    assert WritableNode(a, k, s);
    hide Writable, Replayed, Closed, Replay;
    if IsLower(s) {
      LowerReplayed(t, a, d, done, k);
    } else if !s.Removed? && KindOf(s) != Dir && Origin(s) in first {
      LinkReplayed(t, a, d, done, k, first[Origin(s)], now, depth);
    } else {
      PutOpReplayed(t, a, d, done, k, now, depth);
    }
  }

  lemma LowerReplayed(t: Tree, a: Tree, d: Tree, done: set<Path>, k: Path)
    requires Replayed(t, a, d, done) && Next(d, done, k)
    requires KindOf(d[k]) == Dir && k in a && SameNode(a[k], d[k])
    ensures Replayed(t, a, d, done + {k})
  {
    assert Kept(t, a, d, done, k);
    assert !Cut(d, done, k);
    forall q | q !in done + {k}
      ensures Kept(t, a, d, done + {k}, q)
    {
      assert Kept(t, a, d, done, q);
      assert Cut(d, done + {k}, q) <==> Cut(d, done, q) by {
        if Cut(d, done, q) {
          var p :| p in done && p in d && p < q && KindOf(d[p]) != Dir;
          assert p in done + {k};
        }
      }
    }
  }

  function PathsOf(order: seq<Path>): set<Path> {
    set q | q in order
  }

  lemma PathsOfSnoc(before: seq<Path>, k: Path)
    ensures PathsOf(before + [k]) == PathsOf(before) + {k}
  {
  }

  lemma {:induction false} OrderedClosed(d: Tree, order: seq<Path>)
    requires Ordered(d, order)
    ensures Closed(PathsOf(order))
    decreases |order|
  {
    if order != [] {
      var before, k := order[..|order| - 1], order[|order| - 1];
      OrderedClosed(d, before);
      assert order == before + [k];
      PathsOfSnoc(before, k);
      assert Follows(d, before, k);
      assert forall q :: q < k ==> q in PathsOf(before);
      hide PathsOf, Ordered;
    }
  }

  lemma FollowsNext(d: Tree, a: Tree, before: seq<Path>, k: Path)
    requires Writable(d, a) && Follows(d, before, k)
    ensures Next(d, PathsOf(before), k)
  {
    forall q | q < k
      ensures q in before && q in d && KindOf(d[q]) == Dir && Info(d[q]).attrs.mtime != ZERO_TIME
    {
      assert WritableNode(a, q, d[q]);
    }
  }

  ghost predicate InPlace(a: Tree, d: Tree, done: set<Path>, w: Written, now: int, depth: nat) {
    var r := ReplayAll(a, w.ops, now, depth);
    r.Done? && Replayed(r.tree, a, d, done) && FirstOk(d, w.first, done)
  }

  lemma InPlaceStart(a: Tree, d: Tree, now: int, depth: nat)
    ensures InPlace(a, d, {}, Written([], map[]), now, depth)
  {
    forall q ensures Kept(a, a, d, {}, q) {
      assert !Cut(d, {}, q);
    }
  }

  lemma InPlaceStep(a: Tree, d: Tree, done: set<Path>, w: Written, k: Path, now: int, depth: nat)
    requires Valid(a) && Writable(d, a) && InPlace(a, d, done, w, now, depth) && Next(d, done, k) && Closed(done)
    ensures InPlace(a, d, done + {k}, WriteNode(w, k, d[k]), now, depth)
  {
    var t := ReplayAll(a, w.ops, now, depth).tree;
    assert WritableNode(a, k, d[k]);
    NodeReplayed(t, a, d, done, k, w.first, now, depth);
    FirstStep(a, d, done, k, w);
    WritesCall(a, w, k, d[k]);
    hide Writable, Replayed, Next, Replay, WriteNode;
    var call := Call(w.first, k, d[k]);
    if call != [] {
      assert w.ops + call == w.ops + [call[0]];
      assert (w.ops + call)[..|w.ops|] == w.ops;
    } else {
      assert w.ops + call == w.ops;
    }
  }

  /** Replaying what was written for the nodes of a diff puts them all in place. */
  lemma {:induction false} WrittenReplays(a: Tree, d: Tree, order: seq<Path>, now: int, depth: nat)
    requires Valid(a) && Writable(d, a) && Ordered(d, order)
    requires forall i :: 0 <= i < |order| ==> order[i] in d
    ensures InPlace(a, d, PathsOf(order), WriteAll(d, order), now, depth)
    decreases |order|
  {
    hide Writable, InPlace;
    if order == [] {
      InPlaceStart(a, d, now, depth);
      assert PathsOf(order) == {};
    } else {
      var n := |order| - 1;
      var before := order[..n];
      WrittenReplays(a, d, before, now, depth);
      OrderedClosed(d, before);
      FollowsNext(d, a, before, order[n]);
      InPlaceStep(a, d, PathsOf(before), WriteAll(d, before), order[n], now, depth);
      assert order == before + [order[n]];
      assert PathsOf(order) == PathsOf(before) + {order[n]};
    }
  }

  lemma TopDownFollows(d: Tree, order: seq<Path>, n: nat)
    requires TopDown(d, order) && n < |order|
    requires forall q :: q < order[n] ==> q in d
    ensures Follows(d, order[..n], order[n])
  {
    forall q | q in d && q < order[n]
      ensures q in order[..n]
    {
      var j :| 0 <= j < |order| && order[j] == q;
      assert order[..n][j] == q;
    }
  }

  lemma AncestorsWritten(d: Tree, a: Tree, order: seq<Path>, n: nat)
    requires Writable(d, a) && TopDown(d, order) && n < |order|
    ensures forall q :: q < order[n] ==> q in d
  {
  }

  lemma {:induction false} TopDownOrdered(d: Tree, a: Tree, order: seq<Path>, n: nat)
    requires Writable(d, a) && TopDown(d, order) && n <= |order|
    ensures Ordered(d, order[..n])
  {
    hide Follows, Writable, TopDown;
    if n > 0 {
      TopDownOrdered(d, a, order, n - 1);
      assert order[..n][..n - 1] == order[..n - 1];
      AncestorsWritten(d, a, order, n - 1);
      TopDownFollows(d, order, n - 1);
    }
  }

  // -------------------------------------------------------------- the layer round trip

  /** A tree whose changes with respect to `a` a layer can hold. */
  predicate Portable(a: Tree, b: Tree) {
    && ExplicitDirs(b)
    && (forall k :: k in b ==> KindOf(b[k]) != Whiteout)
    && (forall k :: k in b && Changed(a, b, k) ==> !IsLower(Origin(b[k])))
    && (forall p, q :: p in b && q in b && p != q && Origin(b[p]) == Origin(b[q]) ==> KindOf(b[p]) != Symlink)
  }

  predicate AllPlaced(b: Tree, ps: set<Path>) {
    forall p :: p in ps ==> Placed(b, p)
  }

  lemma CorePlaced(a: Tree, b: Tree)
    ensures AllPlaced(b, Core(a, b) + Relinks(a, b))
  {
  }

  lemma DiffAncestor(d: Tree, b: Tree, core: set<Path>, links: set<Path>, p: Path, r: Path)
    requires Valid(b) && DiffOf(d, b, core, links) && AllPlaced(b, core + links) && p in core + links && r < p
    ensures r in d && r in b && KindOf(b[r]) == Dir && KindOf(d[r]) == Dir
  {
    PlacedAncestor(b, r, p);
    assert r in Cover(core + links);
    assert DiffNode(d[r], b, Cover(core) + links, r);
  }

  lemma RootInDiff(d: Tree, b: Tree, core: set<Path>, links: set<Path>)
    requires Valid(b) && DiffOf(d, b, core, links)
    ensures [] in d && KindOf(d[[]]) == Dir
  {
    assert [] in Cover(core + links);
    assert DiffNode(d[[]], b, Cover(core) + links, []);
  }

  /** In the diff only directories stand above other nodes, and every other node is an
      added, changed, relinked or deleted one. */
  lemma DiffShape(d: Tree, b: Tree, core: set<Path>, links: set<Path>, q: Path)
    requires Valid(b) && DiffOf(d, b, core, links) && AllPlaced(b, core + links) && q in d
    ensures q in core + links || (q in b && KindOf(b[q]) == Dir && KindOf(d[q]) == Dir)
    ensures forall r :: r < q ==> r in d && r in b && KindOf(b[r]) == Dir && KindOf(d[r]) == Dir
  {
    if q == [] {
      RootInDiff(d, b, core, links);
    } else {
      var p :| p in core + links && q <= p;
      if q != p { DiffAncestor(d, b, core, links, p, q); }
      forall r | r < q
        ensures r in d && r in b && KindOf(b[r]) == Dir && KindOf(d[r]) == Dir
      {
        DiffAncestor(d, b, core, links, p, r);
      }
    }
  }

  /** Unchanged paths of `b` are in `a`, and the sources of a layer's nodes are upper. */
  predicate CoreIs(a: Tree, b: Tree, core: set<Path>, links: set<Path>) {
    && (forall q :: q in b && q !in core ==> q in a && SameNode(b[q], a[q]))
    && (forall q :: q in b && q in core + links ==> !IsLower(Origin(b[q])))
    && (forall q {:trigger Gone(a, b, q)} :: q in a && Gone(a, b, q) ==> q in core)
  }

  /** The clock never shows the zero time. */
  predicate Dated(d: Tree) {
    forall q :: q in d && d[q].FreshDir? ==> d[q].attrs.mtime != ZERO_TIME
  }

  lemma CoreIsCore(a: Tree, b: Tree)
    requires Portable(a, b)
    ensures CoreIs(a, b, Core(a, b), Relinks(a, b))
  {
    var core, links := Core(a, b), Relinks(a, b);
    forall q | q in b && q !in core
      ensures q in a && SameNode(b[q], a[q])
    {
      assert !Changed(a, b, q);
    }
  }

  lemma DiffWritableNode(d: Tree, a: Tree, b: Tree, core: set<Path>, links: set<Path>, q: Path)
    requires Valid(b) && DiffOf(d, b, core, links) && AllPlaced(b, core + links) && CoreIs(a, b, core, links)
    requires Portable(a, b) && q in d
    requires Dated(d)
    ensures WritableNode(a, q, d[q])
    ensures KindOf(d[q]) != Dir && q in b ==> d[q] == b[q]
  {
    DiffShape(d, b, core, links, q);
    assert DiffNode(d[q], b, Cover(core) + links, q);
  }

  lemma UnsharedSymlinks(d: Tree, a: Tree, b: Tree, p: Path, q: Path)
    requires Portable(a, b) && p in d && q in d && p != q && Origin(d[p]) == Origin(d[q])
    requires KindOf(d[p]) != Dir && p in b ==> d[p] == b[p]
    requires KindOf(d[q]) != Dir && q in b ==> d[q] == b[q]
    requires (p !in b ==> d[p] == Removed) && (q !in b ==> d[q] == Removed)
    ensures KindOf(d[p]) != Symlink
  {
    OriginSame(d[p], d[q]);
  }

  lemma DiffWritable(d: Tree, a: Tree, b: Tree, core: set<Path>, links: set<Path>)
    requires Valid(b) && DiffOf(d, b, core, links) && AllPlaced(b, core + links) && CoreIs(a, b, core, links)
    requires Portable(a, b) && Dated(d)
    ensures Writable(d, a)
  {
    RootInDiff(d, b, core, links);
    forall q | q in d
      ensures WritableNode(a, q, d[q])
    {
      DiffWritableNode(d, a, b, core, links, q);
    }
    forall k, q | k in d && q < k
      ensures q in d && KindOf(d[q]) == Dir
    {
      DiffShape(d, b, core, links, k);
    }
    forall p, q | p in d && q in d && p != q && Origin(d[p]) == Origin(d[q])
      ensures KindOf(d[p]) != Symlink
    {
      DiffWritableNode(d, a, b, core, links, p);
      DiffWritableNode(d, a, b, core, links, q);
      assert DiffNode(d[p], b, Cover(core) + links, p) && DiffNode(d[q], b, Cover(core) + links, q);
      UnsharedSymlinks(d, a, b, p, q);
    }
  }

  lemma CoreInDiff(d: Tree, b: Tree, core: set<Path>, links: set<Path>, q: Path)
    requires DiffOf(d, b, core, links) && q in core
    ensures q in d
  {
    CoverMonotone(core, core + links);
    assert q in core + links;
  }

  lemma TopmostInCore(a: Tree, b: Tree, core: set<Path>, links: set<Path>, q: Path)
    requires Valid(a) && CoreIs(a, b, core, links)
    requires q in a && q !in b && q != [] && Parent(q) in b
    ensures (if KindOf(b[Parent(q)]) == Dir then q else Parent(q)) in core
  {
    if KindOf(b[Parent(q)]) == Dir { assert Gone(a, b, q); }
  }

  /** The topmost path that `b` no longer has, or the node above it, ends the tree there. */
  lemma TopmostDeleted(d: Tree, a: Tree, b: Tree, core: set<Path>, links: set<Path>, q: Path)
    requires Valid(a) && DiffOf(d, b, core, links) && CoreIs(a, b, core, links)
    requires q in a && q !in b && q != [] && Parent(q) in b
    ensures var p := if KindOf(b[Parent(q)]) == Dir then q else Parent(q);
      p in d && p <= q && KindOf(d[p]) != Dir
  {
    TopmostInCore(a, b, core, links, q);
    var p := if KindOf(b[Parent(q)]) == Dir then q else Parent(q);
    CoreInDiff(d, b, core, links, p);
    assert p in Cover(core) by { CoverMonotone(core, core); }
    hide Valid, CoreIs;
    assert DiffNode(d[p], b, Cover(core) + links, p);
  }

  /** What `b` no longer has lies at or below a node of the diff that is no directory. */
  lemma {:induction false} DeletedIsCovered(d: Tree, a: Tree, b: Tree, core: set<Path>, links: set<Path>, q: Path)
    returns (p: Path)
    requires Valid(a) && Valid(b) && DiffOf(d, b, core, links) && CoreIs(a, b, core, links)
    requires q in a && q !in b
    ensures p in d && p <= q && KindOf(d[p]) != Dir
    decreases |q|
  {
    var up := Parent(q);
    assert up in a;
    if up !in b {
      p := DeletedIsCovered(d, a, b, core, links, up);
      assert p <= q;
    } else {
      TopmostDeleted(d, a, b, core, links, q);
      p := if KindOf(b[up]) == Dir then q else up;
    }
  }

  lemma NotCut(d: Tree, b: Tree, core: set<Path>, links: set<Path>, q: Path)
    requires Valid(b) && DiffOf(d, b, core, links) && q in b
    ensures !Cut(d, d.Keys, q)
  {
    forall p | p in d && p < q
      ensures KindOf(d[p]) == Dir
    {
      AncestorIsDir(b, p, q);
      assert DiffNode(d[p], b, Cover(core) + links, p);
    }
  }

  lemma UnchangedStays(t: Tree, d: Tree, a: Tree, b: Tree, core: set<Path>, links: set<Path>, q: Path)
    requires Valid(b) && DiffOf(d, b, core, links) && CoreIs(a, b, core, links)
    requires Kept(t, a, d, d.Keys, q) && q in b && q !in d
    ensures q in t && SameNode(t[q], b[q])
  {
    if q in core { CoreInDiff(d, b, core, links, q); }
    NotCut(d, b, core, links, q);
  }

  lemma DeletedGoes(t: Tree, d: Tree, a: Tree, b: Tree, core: set<Path>, links: set<Path>, q: Path)
    requires Valid(a) && Valid(b) && DiffOf(d, b, core, links) && CoreIs(a, b, core, links)
    requires Kept(t, a, d, d.Keys, q) && q !in b && q !in d
    ensures q !in t
  {
    if q in a {
      var p := DeletedIsCovered(d, a, b, core, links, q);
      assert p in d.Keys && p < q;
    }
  }

  /** The replayed tree at one path. */
  ghost predicate Tripped(t: Tree, d: Tree, b: Tree, q: Path) {
    && (q in b ==> q in t && if q in d then SameNode(t[q], d[q]) else SameNode(t[q], b[q]))
    && (q !in b && q in t ==> KindOf(t[q]) == Whiteout)
  }

  lemma TripNode(t: Tree, d: Tree, a: Tree, b: Tree, core: set<Path>, links: set<Path>, q: Path)
    requires Valid(a) && Valid(b) && DiffOf(d, b, core, links) && CoreIs(a, b, core, links)
    requires Replayed(t, a, d, d.Keys)
    ensures Tripped(t, d, b, q)
  {
    if q in d {
      assert DiffNode(d[q], b, Cover(core) + links, q);
    } else {
      assert Kept(t, a, d, d.Keys, q);
      if q in b {
        UnchangedStays(t, d, a, b, core, links, q);
      } else {
        DeletedGoes(t, d, a, b, core, links, q);
      }
    }
  }

  /** A diff whose nodes all equal their counterparts in `b`. */
  predicate Faithful(d: Tree, b: Tree) {
    forall q :: q in d && q in b ==> SameNode(d[q], b[q])
  }

  lemma TripSame(t: Tree, d: Tree, b: Tree)
    requires forall q :: Tripped(t, d, b, q)
    requires forall k :: k in b ==> KindOf(b[k]) != Whiteout
    requires forall k :: k in d && k in b ==> KindOf(d[k]) != Whiteout
    ensures SameTree(Stripped(t), b) <==> Faithful(d, b)
  {
    var u := Stripped(t);
    forall q
      ensures q in u <==> q in b
    {
      assert Tripped(t, d, b, q);
    }
    assert u.Keys == b.Keys;
    forall q | q in b
      ensures SameNode(u[q], b[q]) <==> (q in d ==> SameNode(d[q], b[q]))
    {
      assert Tripped(t, d, b, q);
    }
    if SameTree(u, b) {
      forall q | q in d && q in b ensures SameNode(d[q], b[q]) { assert q in u; }
    }
  }

  /** The layer written for a diff, as tar entries. */
  function Tar(d: Tree, order: seq<Path>): seq<Entry>
    requires forall i :: 0 <= i < |order| ==> order[i] in d
  {
    var ops := WriteAll(d, order).ops;
    seq(|ops|, i requires 0 <= i < |ops| => Encode(ops[i]))
  }

  /** Unpacking a layer on a tree: decode every entry and replay it. */
  function Unpack(t: Tree, layer: seq<Entry>, now: int, depth: nat): Outcome {
    ReplayAll(t, seq(|layer|, i requires 0 <= i < |layer| => Decode(layer[i])), now, depth)
  }

  /** Names and attributes that survive a tar archive. */
  predicate TarSafe(b: Tree) {
    forall k :: k in b ==>
      !IsWhiteoutName(k) && FitsEntry(Info(b[k]), Hash(b[k]))
  }

  /** The layer round trip. Unpacking the layer of a diff on `a` and dropping the
      whiteouts restores `b` exactly when every node of the diff equals its
      counterpart; this fails only for a stray parent of a relinked path. */
  lemma LayerRoundTrip(a: Tree, b: Tree, d: Tree, order: seq<Path>, now: int, depth: nat)
    requires Valid(a) && Valid(b) && Portable(a, b) && TarSafe(b)
    requires !SameTree(a, b) && IsDiff(d, a, b) && Dated(d) && TopDown(d, order)
    ensures var r := Unpack(a, Tar(d, order), now, depth);
      r.Done? && (SameTree(Stripped(r.tree), b) <==> Faithful(d, b))
  {
    var core, links := Core(a, b), Relinks(a, b);
    CoreEmpty(a, b);
    CorePlaced(a, b);
    CoreIsCore(a, b);
    DiffRoundTrip(a, b, d, core, links, order, now, depth);
    TarKeepsOps(d, b, a, core, links, order);
  }

  lemma DiffRoundTrip(a: Tree, b: Tree, d: Tree, core: set<Path>, links: set<Path>, order: seq<Path>, now: int,
                      depth: nat)
    requires Valid(a) && Valid(b) && Portable(a, b) && Dated(d) && TopDown(d, order)
    requires DiffOf(d, b, core, links) && AllPlaced(b, core + links) && CoreIs(a, b, core, links)
    ensures Writable(d, a)
    ensures var r := ReplayAll(a, WriteAll(d, order).ops, now, depth);
      r.Done? && (SameTree(Stripped(r.tree), b) <==> Faithful(d, b))
  {
    DiffWritable(d, a, b, core, links);
    TopDownOrdered(d, a, order, |order|);
    assert order[..|order|] == order && PathsOf(order) == d.Keys;
    WrittenReplays(a, d, order, now, depth);
    var t := ReplayAll(a, WriteAll(d, order).ops, now, depth).tree;
    forall q ensures Tripped(t, d, b, q) { TripNode(t, d, a, b, core, links, q); }
    forall k | k in d && k in b ensures KindOf(d[k]) != Whiteout {
      assert DiffNode(d[k], b, Cover(core) + links, k);
    }
    TripSame(t, d, b);
  }

  /** Every operation written for a diff survives the tar archive. */
  lemma {:induction false} OpsTarSafe(d: Tree, order: seq<Path>)
    requires forall i :: 0 <= i < |order| ==> order[i] in d && NodeTarSafe(order[i], d[order[i]])
    ensures forall i :: 0 <= i < |WriteAll(d, order).ops| ==>
      Decode(Encode(WriteAll(d, order).ops[i])) == WriteAll(d, order).ops[i]
    decreases |order|
  {
    if order != [] {
      var n := |order| - 1;
      OpsTarSafe(d, order[..n]);
      var w, w' := WriteAll(d, order[..n]), WriteAll(d, order);
      if w'.ops != w.ops {
        TarRoundTrip(w'.ops[|w'.ops| - 1]);
        assert NodeTarSafe(order[n], d[order[n]]);
      }
    }
  }

  predicate NodeTarSafe(q: Path, s: Source) {
    if s.Removed? then q != []
    else !IsWhiteoutName(q) && FitsEntry(Info(s), Hash(s))
  }

  lemma DiffNodeTarSafe(d: Tree, b: Tree, a: Tree, core: set<Path>, links: set<Path>, q: Path)
    requires Valid(b) && TarSafe(b) && DiffOf(d, b, core, links) && Writable(d, a) && q in d
    ensures NodeTarSafe(q, d[q])
  {
    hide Cover;
    assert DiffNode(d[q], b, Cover(core) + links, q);
    assert WritableNode(a, q, d[q]);
  }

  lemma TarKeepsOps(d: Tree, b: Tree, a: Tree, core: set<Path>, links: set<Path>, order: seq<Path>)
    requires Valid(b) && TarSafe(b) && DiffOf(d, b, core, links) && TopDown(d, order) && Writable(d, a)
    ensures var ops, layer := WriteAll(d, order).ops, Tar(d, order);
      seq(|layer|, i requires 0 <= i < |layer| => Decode(layer[i])) == ops
  {
    hide Decode, Encode, Cover, NodeTarSafe;
    forall i | 0 <= i < |order|
      ensures NodeTarSafe(order[i], d[order[i]])
    {
      DiffNodeTarSafe(d, b, a, core, links, order[i]);
    }
    hide DiffOf, Writable, TarSafe, Valid;
    OpsTarSafe(d, order);
  }

  // ------------------------------------------------------------ stray parents

  lemma DefaultNotSame(s: Source, o: Source)
    requires DefaultDir(s) && SameNode(s, o)
    ensures Info(o).attrs.(mtime := ZERO_TIME, atime := ZERO_TIME) == DIR_ATTRS
  {
  }

  /** A diff is faithful exactly when its stray directories happen to equal their
      counterparts: never if one of those has its own owner or permissions. */
  lemma FaithfulUnlessStray(d: Tree, a: Tree, b: Tree)
    requires Valid(b) && ExplicitDirs(b) && IsDiff(d, a, b) && Core(a, b) != {}
    ensures Faithful(d, b) <==> forall q :: q in d && q in b && Stray(a, b, q) ==> SameNode(d[q], b[q])
    ensures (forall q :: q in d ==> !Stray(a, b, q)) ==> Faithful(d, b)
    ensures (exists q :: q in d && q in b && Stray(a, b, q)
               && Info(b[q]).attrs.(mtime := ZERO_TIME, atime := ZERO_TIME) != DIR_ATTRS) ==> !Faithful(d, b)
  {
    var core, links := Core(a, b), Relinks(a, b);
    forall q | q in d && q in b
      ensures Stray(a, b, q) || SameNode(d[q], b[q])
      ensures Stray(a, b, q) ==> DefaultDir(d[q])
    {
      StrayOrMirror(d, b, core, links, q);
    }
    if q :| q in d && q in b && Stray(a, b, q)
            && Info(b[q]).attrs.(mtime := ZERO_TIME, atime := ZERO_TIME) != DIR_ATTRS
    {
      if SameNode(d[q], b[q]) { DefaultNotSame(d[q], b[q]); }
    }
  }

  lemma StrayOrMirror(d: Tree, b: Tree, core: set<Path>, links: set<Path>, q: Path)
    requires ExplicitDirs(b) && DiffOf(d, b, core, links) && q in d && q in b
    ensures if q in Cover(links) && q !in Cover(core) + links then DefaultDir(d[q]) else SameNode(d[q], b[q])
  {
    assert DiffNode(d[q], b, Cover(core) + links, q);
    CoverUnion(core, links, q);
    if q in Cover(core) + links { MirrorsAgree(d[q], d[q], b, q); }
  }

  lemma DatedAt(d: Tree, b: Tree, core: set<Path>, links: set<Path>, q: Path)
    requires ExplicitDirs(b) && DiffOf(d, b, core, links) && q in d && d[q].FreshDir?
    requires q in Cover(links) ==> q in Cover(core) + links
    ensures d[q].attrs.mtime != ZERO_TIME
  {
    hide Cover;
    assert DiffNode(d[q], b, Cover(core) + links, q);
    if q in b { StrayOrMirror(d, b, core, links, q); }
  }

  lemma UnstrayDated(d: Tree, a: Tree, b: Tree)
    requires ExplicitDirs(b) && IsDiff(d, a, b) && Core(a, b) != {} && forall q :: q in b ==> !Stray(a, b, q)
    ensures Dated(d)
  {
    hide Core, Relinks, Cover, DiffOf, ExplicitDirs;
    var core, links := Core(a, b), Relinks(a, b);
    forall q | q in d && d[q].FreshDir?
      ensures d[q].attrs.mtime != ZERO_TIME
    {
      FreshDirKept(d, b, core, links, q);
      assert !Stray(a, b, q);
      DatedAt(d, b, core, links, q);
    }
  }

  lemma FreshDirKept(d: Tree, b: Tree, core: set<Path>, links: set<Path>, q: Path)
    requires DiffOf(d, b, core, links) && q in d && d[q].FreshDir?
    ensures q in b
  {
    hide Cover;
    assert DiffNode(d[q], b, Cover(core) + links, q);
  }

  /** Committing `b` on top of `a`: whatever the orders and the clocks, unpacking the
      layer on `a` restores `b`. */
  lemma CommitRoundTrip(a: Tree, b: Tree, adds: seq<Step>, dels: seq<Step>, relinks: seq<Step>,
                        order: seq<Path>, now: int, depth: nat)
    requires Fit(a, b) && IsRun(a, b, adds, dels, relinks) && !SameTree(a, b)
    requires Portable(a, b) && TarSafe(b) && forall q :: q in b ==> !Stray(a, b, q)
    requires var r := DiffRun(a, b, adds, dels, relinks, depth);
      r.Done? ==> TopDown(r.tree, order)
    ensures var r := DiffRun(a, b, adds, dels, relinks, depth);
      && r.Done?
      && var u := Unpack(a, Tar(r.tree, order), now, depth);
         && u.Done? && SameTree(Stripped(u.tree), b) && Stripped(u.tree).Keys == b.Keys
         && forall q :: q in b ==>
              var s, o := Stripped(u.tree)[q], b[q];
              && Info(s).kind == Info(o).kind && Info(s).attrs.(atime := 0) == Info(o).attrs.(atime := 0)
              && Hash(s) == Hash(o)
  {
    DiffExact(a, b, adds, dels, relinks, depth);
    var d := DiffRun(a, b, adds, dels, relinks, depth).tree;
    CoreEmpty(a, b);
    FaithfulUnlessStray(d, a, b);
    UnstrayDated(d, a, b);
    LayerRoundTrip(a, b, d, order, now, depth);
    SameTreeFields(Stripped(Unpack(a, Tar(d, order), now, depth).tree), b);
  }

  lemma SameTreeFields(t: Tree, u: Tree)
    requires SameTree(t, u)
    ensures t.Keys == u.Keys && forall q :: q in u ==>
      && Info(t[q]).kind == Info(u[q]).kind && Info(t[q]).attrs.(atime := 0) == Info(u[q]).attrs.(atime := 0)
      && Hash(t[q]) == Hash(u[q])
  {
  }

  /** Two paths with one source: the unchanged one stands below a directory that has
      its own owner. */
  const OWNED_DIR := Src(5, false, NodeInfo(Dir, DIR_ATTRS.(uid := 7, mtime := 1)), "")
  const BEFORE: Tree := map[[] := ROOT, ["p"] := OWNED_DIR, ["p", "f"] := CONTENT]
  const AFTER: Tree := BEFORE[["g"] := CONTENT]

  lemma ExampleCore()
    ensures Valid(BEFORE) && Valid(AFTER) && Core(BEFORE, AFTER) == {["g"]} && Relinks(BEFORE, AFTER) == {["p", "f"]}
  {
    var a, b := BEFORE, AFTER;
    var g, p, f: Path := ["g"], ["p"], ["p", "f"];
    assert Parent(g) == [] && Parent(p) == [] && Parent(f) == p;
    assert Changed(a, b, g) && !Changed(a, b, f) && !Changed(a, b, p) && !Changed(a, b, []);
    assert b[g] == b[f] != b[p];
    assert forall q :: q in b ==> q == [] || q == g || q == p || q == f;
    assert Relinked(a, b, f) && !Relinked(a, b, p) && !Relinked(a, b, []);
  }

  /** The new hard link /g brings /p/f into the layer, and with it a /p that lost its
      attributes. */
  lemma RelinkedParentIsStray(d: Tree)
    requires IsDiff(d, BEFORE, AFTER)
    ensures Valid(BEFORE) && Valid(AFTER) && Stray(BEFORE, AFTER, ["p"]) && !Faithful(d, AFTER)
  {
    ExampleCore();
    var g, p, f: Path := ["g"], ["p"], ["p", "f"];
    assert p <= f && f in {f};
    CoverUnion({g}, {f}, p);
    assert !(p <= g);
    assert DiffNode(d[p], AFTER, Cover({g}) + {f}, p);
    if SameNode(d[p], AFTER[p]) { DefaultNotSame(d[p], AFTER[p]); }
  }

  // --------------------------------------------------- links follow their targets

  /** TarWriter.written: the paths a hard link may name. */
  function Linkable(ops: seq<Op>): set<Path> {
    if ops == [] then {}
    else
      var op := ops[|ops| - 1];
      var before := Linkable(ops[..|ops| - 1]);
      match op
      case Put(p, info, _) => if info.kind == Dir then before else before + {p}
      case Link(p, _) => before + {p}
      case Remove(p) => before - {p}
  }

  /** The operation at `j` wrote `p`, which none removed since. */
  predicate WroteLast(ops: seq<Op>, j: nat, p: Path) {
    && j < |ops| && (ops[j].Link? || (ops[j].Put? && ops[j].info.kind != Dir)) && ops[j].path == p
    && forall k :: j < k < |ops| ==> ops[k] != Remove(p)
  }

  /** A link may name exactly what was written before and not removed since. */
  lemma {:induction false} LinkableIff(ops: seq<Op>, p: Path)
    ensures p in Linkable(ops) <==> exists j: nat :: WroteLast(ops, j, p)
    decreases |ops|
  {
    if ops != [] {
      var n := |ops| - 1;
      LinkableIff(ops[..n], p);
      forall j: nat | j < n && ops[n] != Remove(p) ensures WroteLast(ops[..n], j, p) <==> WroteLast(ops, j, p) {
        assert forall k :: j < k < n ==> ops[..n][k] == ops[k];
      }
      assert ops[n] == Remove(p) ==> forall j: nat :: !WroteLast(ops, j, p);
      if p in Linkable(ops) && p !in Linkable(ops[..n]) { assert WroteLast(ops, n, p); }
      if (ops[n].Link? || (ops[n].Put? && ops[n].info.kind != Dir)) && ops[n].path == p { assert WroteLast(ops, n, p); }
    }
  }

  predicate LinksFound(ops: seq<Op>) {
    forall i :: 0 <= i < |ops| && ops[i].Link? ==> ops[i].target in Linkable(ops[..i])
  }

  predicate LinksOk(d: Tree, done: set<Path>, w: Written) {
    && LinksFound(w.ops) && FirstOk(d, w.first, done)
    && forall o :: o in w.first ==> w.first[o] in Linkable(w.ops)
  }

  /** TarWriter.Link never misses its target: every link names a path that was written
      before it and not removed since. */
  lemma {:induction false} LinksFollowTargets(a: Tree, d: Tree, order: seq<Path>)
    requires Writable(d, a) && Ordered(d, order)
    requires forall i :: 0 <= i < |order| ==> order[i] in d
    ensures LinksOk(d, PathsOf(order), WriteAll(d, order))
    decreases |order|
  {
    if order != [] {
      var n := |order| - 1;
      var before, k := order[..n], order[n];
      LinksFollowTargets(a, d, before);
      assert order == before + [k] && PathsOf(order) == PathsOf(before) + {k};
      assert WritableNode(a, k, d[k]) && k !in before;
      hide Writable, LinksOk;
      LinksOkStep(a, d, PathsOf(before), WriteAll(d, before), k);
    }
  }

  lemma LinksOkStep(a: Tree, d: Tree, done: set<Path>, w: Written, k: Path)
    requires LinksOk(d, done, w) && k in d && k !in done && WritableNode(a, k, d[k])
    ensures LinksOk(d, done + {k}, WriteNode(w, k, d[k]))
  {
    FirstStep(a, d, done, k, w);
    WritesCall(a, w, k, d[k]);
    var call := Call(w.first, k, d[k]);
    if call == [] {
      assert w.ops + call == w.ops;
    } else {
      LinkStep(w.ops, call[0]);
      assert w.ops + call == w.ops + [call[0]];
    }
  }

  lemma LinkStep(ops: seq<Op>, op: Op)
    requires LinksFound(ops)
    ensures (op.Link? ==> op.target in Linkable(ops)) ==> LinksFound(ops + [op])
    ensures (ops + [op])[..|ops|] == ops
  {
    var more := ops + [op];
    assert more[..|ops|] == ops;
    assert forall i :: 0 <= i < |ops| ==> more[..i] == ops[..i];
  }
}
