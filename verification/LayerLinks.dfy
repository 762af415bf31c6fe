/** Hard links through a layer: every file is written once, its other paths are written as
    links to the first one, and unpacking makes them links of that file again. */
module LayerLinks {
  import opened FsTypes
  import opened Options
  import opened PathWalk
  import opened TreeDiff
  import opened DiffLaws
  import opened Layer

  // --------------------------------------------------------------- what is written

  predicate AllIn(d: Tree, order: seq<Path>) {
    forall i :: 0 <= i < |order| ==> order[i] in d
  }

  /** A node that is written as a file or as a link to one. */
  predicate IsFile(s: Source) {
    !s.Removed? && Info(s).kind != Dir
  }

  /** The first of the nodes before `n` that is a file of that source. */
  function FirstWith(d: Tree, order: seq<Path>, o: Source, n: nat): (r: Option<nat>)
    requires AllIn(d, order) && n <= |order|
    ensures r.Some? ==> r.value < n && IsFile(d[order[r.value]]) && Origin(d[order[r.value]]) == o
    ensures forall j :: 0 <= j < n && IsFile(d[order[j]]) && Origin(d[order[j]]) == o ==> r.Some? && r.value <= j
  {
    if n == 0 then None
    else
      var before := FirstWith(d, order, o, n - 1);
      if before.Some? then before
      else if IsFile(d[order[n - 1]]) && Origin(d[order[n - 1]]) == o then Some(n - 1)
      else None
  }

  /** What is written for a node: the node, or a link if its source was written before. */
  function CallAt(d: Tree, order: seq<Path>, n: nat): seq<Op>
    requires AllIn(d, order) && n < |order|
  {
    var k, s := order[n], d[order[n]];
    if s.Removed? then [Remove(k)]
    else if IsFile(s) then
      match FirstWith(d, order, Origin(s), n)
      case Some(j) => [Link(k, order[j])]
      case None => [Put(k, Info(s), Hash(s))]
    else if IsLower(s) then []
    else [Put(k, Info(s), Hash(s))]
  }

  function Calls(d: Tree, order: seq<Path>, n: nat): seq<Op>
    requires AllIn(d, order) && n <= |order|
  {
    if n == 0 then [] else Calls(d, order, n - 1) + CallAt(d, order, n - 1)
  }

  ghost predicate KnowsFirst(first: map<Source, Path>, d: Tree, order: seq<Path>, n: nat)
    requires AllIn(d, order) && n <= |order|
  {
    forall o ::
      && (o in first <==> FirstWith(d, order, o, n).Some?)
      && (o in first ==> first[o] == order[FirstWith(d, order, o, n).value])
  }

  lemma FirstGrows(w: Written, a: Tree, d: Tree, order: seq<Path>, n: nat)
    requires AllIn(d, order) && n < |order| && WritableNode(a, order[n], d[order[n]]) &&
      KnowsFirst(w.first, d, order, n)
    ensures KnowsFirst(WriteNode(w, order[n], d[order[n]]).first, d, order, n + 1)
  {
    var s, first := d[order[n]], WriteNode(w, order[n], d[order[n]]).first;
    assert first == if IsFile(s) && Origin(s) !in w.first then w.first[Origin(s) := order[n]] else w.first;
    hide WriteNode, WritableNode;
  }

  lemma CallWritten(w: Written, a: Tree, d: Tree, order: seq<Path>, n: nat)
    requires AllIn(d, order) && n < |order| && WritableNode(a, order[n], d[order[n]]) &&
      KnowsFirst(w.first, d, order, n)
    ensures WriteNode(w, order[n], d[order[n]]).ops == w.ops + CallAt(d, order, n)
  {
    WritesCall(a, w, order[n], d[order[n]]);
    hide WriteNode;
  }

  /** The writer's map of written sources finds what a search through the nodes before
      finds: each file is written once, and linked to its first path after that. */
  lemma {:induction false} WritesCalls(a: Tree, d: Tree, order: seq<Path>, n: nat)
    requires Writable(d, a) && AllIn(d, order) && n <= |order|
    ensures var w := WriteAll(d, order[..n]);
      w.ops == Calls(d, order, n) && KnowsFirst(w.first, d, order, n)
  {
    if n > 0 {
      hide Writable, KnowsFirst, WriteNode, CallAt;
      WritesCalls(a, d, order, n - 1);
      assert order[..n][..n - 1] == order[..n - 1];
      assert WritableNode(a, order[n - 1], d[order[n - 1]]) by { NodesWritable(a, d, order[n - 1]); }
      FirstGrows(WriteAll(d, order[..n - 1]), a, d, order, n - 1);
      CallWritten(WriteAll(d, order[..n - 1]), a, d, order, n - 1);
    } else {
      assert order[..0] == [];
    }
  }

  lemma NodesWritable(a: Tree, d: Tree, q: Path)
    requires Writable(d, a) && q in d
    ensures WritableNode(a, q, d[q])
  {
  }

  // -------------------------------------------------------------- what is unpacked

  /** The node that unpacking makes of the n-th node: a new file, or a link of the one that
      was made for the first path of its source. */
  function Remade(d: Tree, order: seq<Path>, n: nat): Source
    requires AllIn(d, order) && n < |order|
  {
    var s := d[order[n]];
    match FirstWith(d, order, Origin(s), n)
    case Some(i) => Linked(0, Made(order[i], Info(s), Hash(s)))
    case None => Made(order[n], Info(s), Hash(s))
  }

  ghost predicate FilesMade(t: Tree, d: Tree, order: seq<Path>, n: nat)
    requires AllIn(d, order) && n <= |order|
  {
    forall j :: 0 <= j < n && IsFile(d[order[j]]) ==> order[j] in t && t[order[j]] == Remade(d, order, j)
  }

  /** Adding a node leaves the other files as they are. */
  lemma FilesStay(t: Tree, d: Tree, done: set<Path>, k: Path, src: Source, now: int, q: Path)
    requires Next(d, done, k) && q in done && q in d && Info(d[q]).kind != Dir && q in t
    ensures var u := SetSource(Opened(t, [], Up(k), now), k, src); q in u && u[q] == t[q]
  {
    assert !(q < k) && q != k && !(k < q);
  }

  lemma FilesKept(t: Tree, d: Tree, order: seq<Path>, n: nat, src: Source, now: int)
    requires AllIn(d, order) && n < |order| && FilesMade(t, d, order, n) && Next(d, PathsOf(order[..n]), order[n])
    requires IsFile(d[order[n]]) ==> src == Remade(d, order, n)
    ensures FilesMade(SetSource(Opened(t, [], Up(order[n]), now), order[n], src), d, order, n + 1)
  {
    var k, done := order[n], PathsOf(order[..n]);
    var u := SetSource(Opened(t, [], Up(k), now), k, src);
    assert k in u && u[k] == src;
    hide Next, Opened, Remade, SetSource, FirstWith;
    forall j | 0 <= j < n && IsFile(d[order[j]]) ensures order[j] in u && u[order[j]] == Remade(d, order, j) {
      assert order[j] == order[..n][j];
      FilesStay(t, d, done, k, src, now, order[j]);
    }
  }

  lemma FileAdded(t: Tree, a: Tree, d: Tree, order: seq<Path>, n: nat, src: Source, now: int, depth: nat)
    requires AllIn(d, order) && n < |order| && FilesMade(t, d, order, n)
    requires Valid(a) && Replayed(t, a, d, PathsOf(order[..n])) && Next(d, PathsOf(order[..n]), order[n])
    requires IsFile(d[order[n]]) ==> src == Remade(d, order, n)
    ensures [] in t
    ensures var r := Result(Add(t, order[n], src, MkdirsUpper(now), depth));
      r.Done? && FilesMade(r.tree, d, order, n + 1)
  {
    hide Next, Replayed, Add, Opened, Remade, SetSource, FilesMade, Valid, PathsOf;
    PutAdds(t, a, d, PathsOf(order[..n]), order[n], src, now, depth);
    FilesKept(t, d, order, n, src, now);
  }

  lemma LinkMade(t: Tree, d: Tree, order: seq<Path>, n: nat, j: nat)
    requires AllIn(d, order) && n < |order| && FilesMade(t, d, order, n)
    requires IsFile(d[order[n]]) && FirstWith(d, order, Origin(d[order[n]]), n) == Some(j)
    ensures order[j] in t && Linked(0, Origin(t[order[j]])) == Remade(d, order, n)
  {
    assert FirstWith(d, order, Origin(d[order[j]]), j).None?;
  }

  lemma LinkMakes(t: Tree, a: Tree, d: Tree, order: seq<Path>, n: nat, j: nat, now: int, depth: nat)
    requires AllIn(d, order) && n < |order| && FilesMade(t, d, order, n) && Valid(a) && Writable(d, a)
    requires Replayed(t, a, d, PathsOf(order[..n])) && Next(d, PathsOf(order[..n]), order[n])
    requires Closed(PathsOf(order[..n]))
    requires IsFile(d[order[n]]) && FirstWith(d, order, Origin(d[order[n]]), n) == Some(j)
    ensures var r := Replay(t, Link(order[n], order[j]), now, depth); r.Done? && FilesMade(r.tree, d, order, n + 1)
  {
    var p, done := order[j], PathsOf(order[..n]);
    NotShared(a, d, p, order[n]);
    assert p == order[..n][j];
    hide Replayed, Next, Writable, FilesMade, Remade, Closed, Valid;
    TargetFound(t, a, d, done, p, depth);
    LinkMade(t, d, order, n, j);
    FileAdded(t, a, d, order, n, Linked(0, Origin(t[p])), now, depth);
  }

  lemma NotShared(a: Tree, d: Tree, p: Path, q: Path)
    requires Writable(d, a) && p in d && q in d && IsFile(d[p]) && Origin(d[p]) == Origin(d[q])
    ensures KindOf(d[p]) != Dir && (p != q ==> KindOf(d[p]) != Symlink)
  {
  }

  lemma CallMakes(t: Tree, a: Tree, d: Tree, order: seq<Path>, n: nat, now: int, depth: nat)
    requires AllIn(d, order) && n < |order| && FilesMade(t, d, order, n) && Valid(a) && Writable(d, a)
    requires Replayed(t, a, d, PathsOf(order[..n])) && Next(d, PathsOf(order[..n]), order[n])
    requires Closed(PathsOf(order[..n]))
    ensures var call := CallAt(d, order, n);
      if call == [] then FilesMade(t, d, order, n + 1)
      else var r := Replay(t, call[0], now, depth); r.Done? && FilesMade(r.tree, d, order, n + 1)
  {
    var k, s := order[n], d[order[n]];
    NodesWritable(a, d, k);
    if s.Removed? {
      FileAdded(t, a, d, order, n, Removed, now, depth);
    } else if !IsFile(s) {
      if !IsLower(s) { FileAdded(t, a, d, order, n, NewSource(k, Info(s), Hash(s), now), now, depth); }
    } else {
      hide Replayed, Next, Writable, FilesMade, Closed, Valid;
      match FirstWith(d, order, Origin(s), n)
      case None => FileAdded(t, a, d, order, n, NewSource(k, Info(s), Hash(s), now), now, depth);
      case Some(j) => LinkMakes(t, a, d, order, n, j, now, depth);
    }
  }

  /** What the first `n` calls are replayed to. */
  ghost predicate Unpacked(a: Tree, d: Tree, order: seq<Path>, n: nat, now: int, depth: nat)
    requires AllIn(d, order) && n <= |order|
  {
    var r := ReplayAll(a, Calls(d, order, n), now, depth);
    r.Done? && FilesMade(r.tree, d, order, n)
  }

  lemma UnpackStep(a: Tree, d: Tree, order: seq<Path>, n: nat, now: int, depth: nat)
    requires AllIn(d, order) && n < |order| && Valid(a) && Writable(d, a) && Unpacked(a, d, order, n, now, depth)
    requires Next(d, PathsOf(order[..n]), order[n]) && Closed(PathsOf(order[..n]))
    requires Replayed(ReplayAll(a, Calls(d, order, n), now, depth).tree, a, d, PathsOf(order[..n]))
    ensures Unpacked(a, d, order, n + 1, now, depth)
  {
    hide Writable, FilesMade, Replayed, Next, Closed, CallAt, Valid, ReplayAll, Replay;
    var t := ReplayAll(a, Calls(d, order, n), now, depth).tree;
    CallMakes(t, a, d, order, n, now, depth);
    CallIsOne(d, order, n);
    ReplaySnoc(a, Calls(d, order, n), CallAt(d, order, n), now, depth);
  }

  /** The next node of a top-down order, where the nodes before it were replayed. */
  lemma ReadyFor(a: Tree, d: Tree, order: seq<Path>, n: nat, now: int, depth: nat)
    requires Valid(a) && Writable(d, a) && TopDown(d, order) && AllIn(d, order) && n < |order|
    ensures Next(d, PathsOf(order[..n]), order[n]) && Closed(PathsOf(order[..n]))
    ensures var r := ReplayAll(a, Calls(d, order, n), now, depth);
      r.Done? && Replayed(r.tree, a, d, PathsOf(order[..n]))
  {
    hide Valid, Writable, TopDown, Replayed, Next, Closed, Ordered, Follows, PathsOf, WriteAll, Calls, ReplayAll,
         KnowsFirst;
    var before := order[..n];
    TopDownOrdered(d, a, order, n);
    AncestorsWritten(d, a, order, n);
    TopDownFollows(d, order, n);
    FollowsNext(d, a, before, order[n]);
    OrderedClosed(d, before);
    AllInBefore(d, order, n);
    WrittenReplays(a, d, before, now, depth);
    WritesCalls(a, d, order, n);
  }

  lemma AllInBefore(d: Tree, order: seq<Path>, n: nat)
    requires AllIn(d, order) && n <= |order|
    ensures forall i :: 0 <= i < |order[..n]| ==> order[..n][i] in d
  {
  }

  lemma {:induction false} CallsUnpacked(a: Tree, d: Tree, order: seq<Path>, n: nat, now: int, depth: nat)
    requires Valid(a) && Writable(d, a) && TopDown(d, order) && AllIn(d, order) && n <= |order|
    ensures Unpacked(a, d, order, n, now, depth)
  {
    hide *;
    if n == 0 {
      NothingUnpacked(a, d, order, now, depth);
    } else {
      CallsUnpacked(a, d, order, n - 1, now, depth);
      ReadyFor(a, d, order, n - 1, now, depth);
      UnpackStep(a, d, order, n - 1, now, depth);
    }
  }

  /** Unpacking what was written for a tree, in any top-down order: each file is made once,
      at its first path, and its other paths are links of that file. */
  lemma LinksUnpacked(a: Tree, d: Tree, order: seq<Path>, now: int, depth: nat)
    requires Valid(a) && Writable(d, a) && TopDown(d, order) && AllIn(d, order)
    ensures var r := ReplayAll(a, WriteAll(d, order).ops, now, depth);
      r.Done? && FilesMade(r.tree, d, order, |order|)
  {
    hide Writable, TopDown, FilesMade;
    CallsUnpacked(a, d, order, |order|, now, depth);
    WritesCalls(a, d, order, |order|);
    assert order[..|order|] == order;
  }

  lemma NothingUnpacked(a: Tree, d: Tree, order: seq<Path>, now: int, depth: nat)
    requires AllIn(d, order)
    ensures Unpacked(a, d, order, 0, now, depth)
  {
  }

  lemma CallIsOne(d: Tree, order: seq<Path>, n: nat)
    requires AllIn(d, order) && n < |order|
    ensures |CallAt(d, order, n)| <= 1
  {
  }

  lemma ReplaySnoc(t: Tree, ops: seq<Op>, call: seq<Op>, now: int, depth: nat)
    requires |call| <= 1
    ensures var r := ReplayAll(t, ops, now, depth);
      ReplayAll(t, ops + call, now, depth) == if call == [] || r.Error? then r else Replay(r.tree, call[0], now, depth)
  {
    hide Replay;
    if call == [] {
      assert ops + call == ops;
    } else {
      assert (ops + call)[..|ops|] == ops;
    }
  }

  // ------------------------------------------------------------ links of a commit

  /** The paths of the layer that are one file. */
  predicate OneFile(d: Tree, p: Path, q: Path) {
    p in d && q in d && IsFile(d[p]) && IsFile(d[q]) && Origin(d[p]) == Origin(d[q])
  }

  /** `f` is the file of the group of `p` in `u`, and every other path of it a link of `f`. */
  ghost predicate Grouped(u: Tree, d: Tree, p: Path, f: Path) {
    && OneFile(d, p, f) && f in u && u[f] == Made(f, Info(d[p]), Hash(d[p]))
    && forall g :: OneFile(d, p, g) && g != f ==> g in u && u[g] == Linked(0, u[f])
  }

  lemma MemberMade(u: Tree, d: Tree, order: seq<Path>, j: nat, i: nat)
    requires AllIn(d, order) && FilesMade(u, d, order, |order|) && j < |order| && IsFile(d[order[j]])
    requires FirstWith(d, order, Origin(d[order[j]]), |order|) == Some(i)
    ensures order[i] in u && u[order[i]] == Made(order[i], Info(d[order[j]]), Hash(d[order[j]]))
    ensures order[j] in u && (j != i ==> u[order[j]] == Linked(0, u[order[i]]))
  {
    assert u[order[i]] == Remade(d, order, i) && u[order[j]] == Remade(d, order, j);
    assert FirstWith(d, order, Origin(d[order[i]]), i).None?;
    assert j != i ==> FirstWith(d, order, Origin(d[order[j]]), j).Some?;
  }

  lemma GroupMade(u: Tree, d: Tree, order: seq<Path>, p: Path) returns (f: Path)
    requires (forall q :: q in d ==> q in order) && AllIn(d, order) && FilesMade(u, d, order, |order|)
    requires p in d && IsFile(d[p])
    ensures Grouped(u, d, p, f)
  {
    hide FilesMade;
    var n :| 0 <= n < |order| && order[n] == p;
    var i := FirstWith(d, order, Origin(d[p]), |order|).value;
    f := order[i];
    MemberMade(u, d, order, n, i);
    hide FirstWith;
    forall g | OneFile(d, p, g) && g != f ensures g in u && u[g] == Linked(0, u[f]) {
      var j :| 0 <= j < |order| && order[j] == g;
      MemberMade(u, d, order, j, i);
    }
  }

  /** The paths that are one file are those that were. */
  ghost predicate SameGroups(u: Tree, d: Tree) {
    forall p, q :: p in d && q in d && IsFile(d[p]) && IsFile(d[q]) ==>
      p in u && q in u && (Origin(u[p]) == Origin(u[q]) <==> OneFile(d, p, q))
  }

  lemma GroupsApart(u: Tree, d: Tree, p: Path, f: Path, q: Path, g: Path)
    requires Grouped(u, d, p, f) && Grouped(u, d, q, g) && p in d && q in d
    ensures p in u && q in u && (Origin(u[p]) == Origin(u[q]) <==> OneFile(d, p, q))
  {
    assert OneFile(d, p, p) && OneFile(d, q, q);
    assert Origin(u[p]) == u[f] && Origin(u[q]) == u[g];
    if OneFile(d, p, q) {
      assert OneFile(d, q, f);
    }
  }

  lemma GroupsMade(u: Tree, d: Tree, order: seq<Path>)
    requires (forall q :: q in d ==> q in order) && AllIn(d, order) && FilesMade(u, d, order, |order|)
    ensures SameGroups(u, d)
  {
    hide FilesMade, AllIn, Grouped;
    forall p, q | p in d && q in d && IsFile(d[p]) && IsFile(d[q])
      ensures p in u && q in u && (Origin(u[p]) == Origin(u[q]) <==> OneFile(d, p, q))
    {
      var f := GroupMade(u, d, order, p);
      var g := GroupMade(u, d, order, q);
      GroupsApart(u, d, p, f, q, g);
    }
  }

  /** The nodes that the layer does not have are those of the old tree. */
  ghost predicate OthersStay(u: Tree, a: Tree, d: Tree) {
    forall q :: q in u && q !in d ==> q in a && u[q] == a[q]
  }

  lemma OthersUnpacked(a: Tree, d: Tree, order: seq<Path>, now: int, depth: nat)
    requires Valid(a) && Writable(d, a) && TopDown(d, order)
    ensures var r := ReplayAll(a, WriteAll(d, order).ops, now, depth); r.Done? && OthersStay(r.tree, a, d)
  {
    TopDownOrdered(d, a, order, |order|);
    assert order[..|order|] == order && PathsOf(order) == d.Keys;
    WrittenReplays(a, d, order, now, depth);
    var u := ReplayAll(a, WriteAll(d, order).ops, now, depth).tree;
    hide Writable, TopDown, WriteAll, ReplayAll, Valid, Ordered, PathsOf;
    forall q | q in u && q !in d ensures q in a && u[q] == a[q] {
      assert Kept(u, a, d, d.Keys, q);
    }
  }

  lemma LinksOf(a: Tree, d: Tree, order: seq<Path>, now: int, depth: nat)
    requires Valid(a) && Writable(d, a) && TopDown(d, order)
    ensures var r := ReplayAll(a, WriteAll(d, order).ops, now, depth);
      r.Done? && SameGroups(r.tree, d) && OthersStay(r.tree, a, d)
  {
    assert AllIn(d, order);
    OthersUnpacked(a, d, order, now, depth);
    hide Writable, Valid, WriteAll, ReplayAll, FilesMade, SameGroups, OthersStay, AllIn, IsFile;
    LinksUnpacked(a, d, order, now, depth);
    GroupsMade(ReplayAll(a, WriteAll(d, order).ops, now, depth).tree, d, order);
  }

  lemma UnpackIsReplay(a: Tree, b: Tree, d: Tree, order: seq<Path>, now: int, depth: nat)
    requires Valid(a) && Valid(b) && Portable(a, b) && TarSafe(b)
    requires !SameTree(a, b) && IsDiff(d, a, b) && Dated(d) && TopDown(d, order)
    ensures Writable(d, a) && Unpack(a, Tar(d, order), now, depth) == ReplayAll(a, WriteAll(d, order).ops, now, depth)
  {
    var core, links := Core(a, b), Relinks(a, b);
    CoreEmpty(a, b);
    CorePlaced(a, b);
    CoreIsCore(a, b);
    assert DiffOf(d, b, core, links);
    hide Core, Relinks, Portable, TarSafe, Valid, Dated, Writable, AllPlaced, CoreIs, DiffOf, ReplayAll, WriteAll;
    DiffWritable(d, a, b, core, links);
    TarKeepsOps(d, b, a, core, links, order);
  }

  lemma FileOfDiff(a: Tree, b: Tree, d: Tree, p: Path)
    requires !SameTree(a, b) && Valid(a) && Valid(b) && IsDiff(d, a, b) && p in d && IsFile(d[p])
    ensures p in b && d[p] == b[p]
  {
    CoreEmpty(a, b);
    assert DiffNode(d[p], b, Cover(Core(a, b)) + Relinks(a, b), p);
    hide Cover, Core, Relinks, SameTree, Valid;
  }

  /** Hard links survive a commit: after the layer was unpacked two of its paths are one file
      if and only if they are one in the committed tree, and the nodes that the layer does not
      have are those of the old tree. */
  lemma LinksRestored(a: Tree, b: Tree, d: Tree, order: seq<Path>, now: int, depth: nat)
    requires Valid(a) && Valid(b) && Portable(a, b) && TarSafe(b)
    requires !SameTree(a, b) && IsDiff(d, a, b) && Dated(d) && TopDown(d, order)
    ensures forall p :: p in d && IsFile(d[p]) ==> p in b && d[p] == b[p]
    ensures var r := Unpack(a, Tar(d, order), now, depth);
      r.Done? && SameGroups(r.tree, d) && OthersStay(r.tree, a, d)
  {
    hide SameTree, IsDiff, Portable, TarSafe, Valid, Dated, Writable, SameGroups, OthersStay, IsFile, ReplayAll,
         WriteAll, Unpack, Tar;
    UnpackIsReplay(a, b, d, order, now, depth);
    forall p | p in d && IsFile(d[p]) ensures p in b && d[p] == b[p] { FileOfDiff(a, b, d, p); }
    LinksOf(a, d, order, now, depth);
  }
}
