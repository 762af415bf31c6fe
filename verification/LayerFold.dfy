/** Folding the layers of an image into a tree, and what the clock has to do with it: the
    directories that no entry dates get the time of unpacking. */
module LayerFold {
  import opened FsTypes
  import opened PathWalk
  import opened TreeDiff
  import opened Layer
  import opened Digests
  import WalkDepth

  // ------------------------------------------------------------ folding the layers

  type LayerBlobs = map<Digest, seq<Entry>>

  /** fsFromManifest, written into a new tree: the layers unpacked one after the other. */
  function Fold(blobs: LayerBlobs, chain: seq<Digest>, now: int, depth: nat): Outcome {
    if chain == [] then Done(NEW_FS)
    else
      var n := |chain| - 1;
      var r := Fold(blobs, chain[..n], now, depth);
      if r.Error? then r
      else if chain[n] !in blobs then Error(NotFound)
      else Unpack(r.tree, blobs[chain[n]], now, depth)
  }

  // ---------------------------------------------------------------- another clock

  /** A directory that was made without a time, at Go's zero time. */
  predicate Undated(s: Source) {
    s.FreshDir? && s.attrs.mtime == ZERO_TIME
  }

  /** What the source is if it is made at another time. */
  function Aged(s: Source, now: int): Source {
    if Undated(s) then FreshDir(s.attrs.(mtime := now)) else s
  }

  function AgedTree(t: Tree, now: int): Tree {
    map q | q in t :: Aged(t[q], now)
  }

  function AgedWalked(r: Walked, now: int): Walked {
    if r.Failed? then r else At(AgedTree(r.tree, now), r.path)
  }

  function AgedOutcome(r: Outcome, now: int): Outcome {
    if r.Error? then r else Done(AgedTree(r.tree, now))
  }

  function AtClock(w: Walker, now: int): Walker {
    match w
    case Lookup => Lookup
    case MkdirsLower(_) => MkdirsLower(now)
    case MkdirsUpper(_) => MkdirsUpper(now)
  }

  lemma VisitAged(t: Tree, p: Path, w: Walker, now: int)
    requires p in t
    ensures Visit(AgedTree(t, now), p, AtClock(w, now)) == AgedTree(Visit(t, p, AtClock(w, ZERO_TIME)), now)
  {
    hide InfoEqual;
    var u, v := AgedTree(Visit(t, p, AtClock(w, ZERO_TIME)), now), Visit(AgedTree(t, now), p, AtClock(w, now));
    assert u.Keys == v.Keys == t.Keys;
    assert forall q :: q in t ==> u[q] == v[q];
  }

  lemma NewDirAged(t: Tree, p: Path, now: int)
    ensures AgedTree(t, now)[p := NewDir(DIR_ATTRS, now)] == AgedTree(t[p := NewDir(DIR_ATTRS, ZERO_TIME)], now)
  {
  }

  lemma AgedNode(t: Tree, p: Path, now: int)
    ensures p in AgedTree(t, now) <==> p in t
    ensures p in t ==> KindOf(AgedTree(t, now)[p]) == KindOf(t[p])
    ensures p in t && KindOf(t[p]) != Dir ==> AgedTree(t, now)[p] == t[p]
  {
  }

  /** A walk takes the same way at any time. */
  lemma {:induction false} WalkAged(t: Tree, at: Path, ups: nat, names: seq<Name>, w: Walker, depth: nat, now: int)
    requires at in t
    ensures at in AgedTree(t, now)
    ensures Walk(AgedTree(t, now), at, ups, names, AtClock(w, now), depth) ==
            AgedWalked(Walk(t, at, ups, names, AtClock(w, ZERO_TIME), depth), now)
    decreases depth, ups + |names|, 1
  {
    hide AgedTree;
    AgedNode(t, at, now);
    ResolveAged(t, at, w, depth, now);
    var here := Resolve(t, at, AtClock(w, ZERO_TIME), depth);
    if here.At? { OnwardAged(here.tree, here.path, ups, names, w, depth, now); }
  }

  lemma {:induction false} ResolveAged(t: Tree, at: Path, w: Walker, depth: nat, now: int)
    requires at in t
    ensures at in AgedTree(t, now)
    ensures Resolve(AgedTree(t, now), at, AtClock(w, now), depth) ==
            AgedWalked(Resolve(t, at, AtClock(w, ZERO_TIME), depth), now)
    decreases depth, 0, 0
  {
    hide AgedTree;
    AgedNode(t, at, now);
    if KindOf(t[at]) == Symlink && depth > 0 && at != [] {
      var link := Clean(Info(t[at]).attrs.symlink);
      var start := if link.abs then [] else Parent(at);
      AgedNode(t, start, now);
      if start in t { WalkAged(t, start, link.ups, link.names, w, depth - 1, now); }
    }
  }

  lemma {:induction false} OnwardAged(t: Tree, at: Path, ups: nat, names: seq<Name>, w: Walker, depth: nat, now: int)
    requires at in t
    ensures at in AgedTree(t, now)
    ensures Onward(AgedTree(t, now), at, ups, names, AtClock(w, now), depth) ==
            AgedWalked(Onward(t, at, ups, names, AtClock(w, ZERO_TIME), depth), now)
    decreases depth, ups + |names|, 0
  {
    hide AgedTree, Visit;
    AgedNode(t, at, now);
    VisitAged(t, at, w, now);
    var u := Visit(t, at, AtClock(w, ZERO_TIME));
    if ups > 0 {
      if at != [] {
        AgedNode(u, Parent(at), now);
        if Parent(at) in u { WalkAged(u, Parent(at), ups - 1, names, w, depth, now); }
      }
    } else if names != [] {
      var child := at + [names[0]];
      AgedNode(u, child, now);
      if child in u {
        WalkAged(u, child, 0, names[1..], w, depth, now);
      } else if !w.Lookup? {
        NewDirAged(u, child, now);
        WalkAged(u[child := NewDir(DIR_ATTRS, ZERO_TIME)], child, 0, names[1..], w, depth, now);
      }
    }
  }

  lemma SetSourceAged(t: Tree, p: Path, s: Source, now: int)
    ensures SetSource(AgedTree(t, now), p, Aged(s, now)) == AgedTree(SetSource(t, p, s), now)
  {
    var u, v := SetSource(AgedTree(t, now), p, Aged(s, now)), AgedTree(SetSource(t, p, s), now);
    forall q
      ensures q in u <==> q in v
      ensures q in u ==> u[q] == v[q]
    {
    }
  }

  lemma AddAged(t: Tree, p: Path, s: Source, depth: nat, now: int)
    requires [] in t
    ensures [] in AgedTree(t, now)
    ensures Add(AgedTree(t, now), p, Aged(s, now), MkdirsUpper(now), depth) ==
            AgedWalked(Add(t, p, s, MkdirsUpper(ZERO_TIME), depth), now)
  {
    hide AgedTree, SetSource, Walk, Aged;
    var w, names := MkdirsUpper(ZERO_TIME), if p == [] then [] else Parent(p);
    WalkAged(t, [], 0, names, w, depth, now);
    var r := Walk(t, [], 0, names, w, depth);
    if r.At? { SetSourceAged(r.tree, if p == [] then r.path else r.path + [p[|p| - 1]], s, now); }
  }

  lemma ReplayAged(t: Tree, op: Op, depth: nat, now: int)
    ensures Replay(AgedTree(t, now), op, now, depth) == AgedOutcome(Replay(t, op, ZERO_TIME, depth), now)
  {
    hide AgedTree, Walk, Add;
    AgedNode(t, [], now);
    if [] in t {
      match op
      case Put(p, info, hash) =>
        assert Aged(NewSource(p, info, hash, ZERO_TIME), now) == NewSource(p, info, hash, now);
        AddAged(t, p, NewSource(p, info, hash, ZERO_TIME), depth, now);
      case Remove(p) =>
        assert Aged(Removed, now) == Removed;
        AddAged(t, p, Removed, depth, now);
      case Link(p, target) =>
        WalkAged(t, [], 0, target, Lookup, depth, now);
        var found := Walk(t, [], 0, target, Lookup, depth);
        if found.At? {
          AgedNode(found.tree, found.path, now);
          var s := Linked(0, Origin(NodeAt(found)));
          assert Aged(s, now) == s;
          AddAged(t, p, s, depth, now);
        }
    }
  }

  lemma {:induction false} ReplayAllAged(t: Tree, ops: seq<Op>, depth: nat, now: int)
    ensures ReplayAll(AgedTree(t, now), ops, now, depth) == AgedOutcome(ReplayAll(t, ops, ZERO_TIME, depth), now)
    decreases |ops|
  {
    hide AgedTree, Replay;
    if ops != [] {
      var n := |ops| - 1;
      ReplayAllAged(t, ops[..n], depth, now);
      var r := ReplayAll(t, ops[..n], ZERO_TIME, depth);
      if r.Done? { ReplayAged(r.tree, ops[n], depth, now); }
    }
  }

  lemma UnpackAged(t: Tree, layer: seq<Entry>, depth: nat, now: int)
    ensures Unpack(AgedTree(t, now), layer, now, depth) == AgedOutcome(Unpack(t, layer, ZERO_TIME, depth), now)
  {
    ReplayAllAged(t, seq(|layer|, i requires 0 <= i < |layer| => Decode(layer[i])), depth, now);
  }

  /** The tree of the layers at any time is the one at the zero time with its undated
      directories dated. */
  lemma {:induction false} FoldAged(blobs: LayerBlobs, chain: seq<Digest>, now: int, depth: nat)
    ensures Fold(blobs, chain, now, depth) == AgedOutcome(Fold(blobs, chain, ZERO_TIME, depth), now)
    decreases |chain|
  {
    if chain == [] {
      assert AgedTree(NEW_FS, now) == NEW_FS;
    } else {
      var n := |chain| - 1;
      FoldAged(blobs, chain[..n], now, depth);
      var r := Fold(blobs, chain[..n], ZERO_TIME, depth);
      if r.Done? && chain[n] in blobs { UnpackAged(r.tree, blobs[chain[n]], depth, now); }
    }
  }

  /** The directories that have the time of unpacking. */
  function Late(t: Tree): set<Path> {
    set q | q in t && Undated(t[q])
  }

  ghost predicate SameOutcome(r: Outcome, o: Outcome) {
    if r.Done? && o.Done? then SameTree(Stripped(r.tree), Stripped(o.tree)) else r == o
  }

  /** The layers make the same at any time. */
  ghost predicate Timeless(blobs: LayerBlobs, chain: seq<Digest>, depth: nat) {
    forall now, now' {:trigger Fold(blobs, chain, now, depth), Fold(blobs, chain, now', depth)} ::
      SameOutcome(Fold(blobs, chain, now, depth), Fold(blobs, chain, now', depth))
  }

  lemma LateDiffers(t: Tree, q: Path, now: int, now': int)
    requires q in Late(t) && now != now'
    ensures !SameTree(Stripped(AgedTree(t, now)), Stripped(AgedTree(t, now')))
  {
    var u, v := Stripped(AgedTree(t, now)), Stripped(AgedTree(t, now'));
    assert q in u && q in v;
    assert !SameNode(u[q], v[q]);
  }

  lemma NoneLate(t: Tree, now: int)
    requires Late(t) == {}
    ensures AgedTree(t, now) == t
  {
    forall q | q in t
      ensures Aged(t[q], now) == t[q]
    {
      assert q !in Late(t);
    }
  }

  lemma SameTreeReflexive(t: Tree)
    ensures SameTree(t, t)
  {
  }

  /** What the layers make depends on the clock exactly if a directory of the tree has no
      time of its own. */
  lemma TimelessIff(blobs: LayerBlobs, chain: seq<Digest>, depth: nat)
    ensures Timeless(blobs, chain, depth) <==>
      var r := Fold(blobs, chain, ZERO_TIME, depth);
      r.Done? ==> Late(r.tree) == {}
  {
    hide Fold, AgedTree, SameTree, Stripped, Late;
    var r := Fold(blobs, chain, ZERO_TIME, depth);
    if r.Done? && Late(r.tree) != {} {
      var q :| q in Late(r.tree);
      FoldAged(blobs, chain, 0, depth);
      FoldAged(blobs, chain, 1, depth);
      LateDiffers(r.tree, q, 0, 1);
      assert !SameOutcome(Fold(blobs, chain, 0, depth), Fold(blobs, chain, 1, depth));
    } else {
      forall now ensures Fold(blobs, chain, now, depth) == r {
        FoldAged(blobs, chain, now, depth);
        if r.Done? { NoneLate(r.tree, now); }
      }
      if r.Done? { SameTreeReflexive(Stripped(r.tree)); }
    }
  }

  // ------------------------------------------------------- which entries date which

  /** What is known of a node from the entries alone. */
  datatype Mark = NoNode | Leaf | Pointer | BareRoot | DatedDir | UndatedDir

  function MarkOf(t: Tree, q: Path): Mark {
    if q !in t then NoNode
    else if KindOf(t[q]) == Symlink then Pointer
    else if KindOf(t[q]) != Dir then Leaf
    else if t[q].ParentDir? then BareRoot
    else if Undated(t[q]) then UndatedDir
    else DatedDir
  }

  function OpMark(op: Op): Mark {
    match op
    case Put(_, info, _) =>
      if info.kind == Symlink then Pointer
      else if info.kind != Dir then Leaf
      else if info.attrs.mtime == ZERO_TIME then UndatedDir else DatedDir
    case Link(_, _) => Leaf
    case Remove(_) => Leaf
  }

  /** An entry sets its own node, opens the directories above it, which become undated
      directories unless they are dated ones, and cuts off what is below unless it is a
      directory. */
  function Marked(ops: seq<Op>, q: Path): Mark
    decreases |ops|
  {
    if ops == [] then if q == [] then BareRoot else NoNode
    else
      var op, before := ops[|ops| - 1], Marked(ops[..|ops| - 1], q);
      if q == op.path then OpMark(op)
      else if q < op.path then if before == DatedDir then DatedDir else UndatedDir
      else if op.path < q && OpMark(op) != DatedDir && OpMark(op) != UndatedDir then NoNode
      else before
  }

  /** No entry lies below a symlink. */
  predicate Plain(ops: seq<Op>)
    decreases |ops|
  {
    ops == [] ||
    var n := |ops| - 1;
    Plain(ops[..n]) && forall q :: q in Prefixes(Up(ops[n].path)) ==> Marked(ops[..n], q) != Pointer
  }

  /** By the end, every directory that an entry names or lies in has a time of its own. */
  predicate DirsDated(ops: seq<Op>) {
    forall i, q :: 0 <= i < |ops| && q in Prefixes(ops[i].path) ==> Marked(ops, q) != UndatedDir
  }

  /** The directories of a tree that was made of layers. */
  predicate FreshDirs(t: Tree) {
    [] in t && forall q :: q in t && KindOf(t[q]) == Dir ==> t[q].FreshDir? || (t[q].ParentDir? && q == [])
  }

  ghost predicate MarksMatch(t: Tree, ops: seq<Op>) {
    FreshDirs(t) && forall q :: MarkOf(t, q) == Marked(ops, q)
  }

  /** The source that an operation puts. */
  ghost predicate Puts(src: Source, op: Op) {
    && MarkOf(map[[] := src], []) == OpMark(op)
    && (KindOf(src) == Dir ==> src.FreshDir?)
  }

  lemma PlainStep(t: Tree, ops: seq<Op>, op: Op, src: Source, depth: nat)
    requires MarksMatch(t, ops) && Puts(src, op)
    requires forall q :: q in Prefixes(Up(op.path)) ==> Marked(ops, q) != Pointer
    ensures var r := Add(t, op.path, src, MkdirsUpper(ZERO_TIME), depth);
      r.At? && MarksMatch(r.tree, ops + [op])
  {
    hide Add, Marked, Puts, KindOf, Undated, SetSource, Opened, Up;
    var k := op.path;
    forall q | q in t && q <= Up(k)
      ensures KindOf(t[q]) != Symlink
    {
      assert q in Prefixes(Up(k)) && MarkOf(t, q) == Marked(ops, q);
    }
    PlainAdd(t, k, src, ZERO_TIME, depth);
    var u := SetSource(Opened(t, [], Up(k), ZERO_TIME), k, src);
    SetAt(t, k, src, []);
    forall q
      ensures MarkOf(u, q) == Marked(ops + [op], q)
      ensures q in u && KindOf(u[q]) == Dir ==> u[q].FreshDir? || (u[q].ParentDir? && q == [])
    {
      assert MarkOf(t, q) == Marked(ops, q);
      SetMark(t, ops, op, src, q);
    }
  }

  lemma SetAt(t: Tree, k: Path, src: Source, q: Path)
    ensures var u := SetSource(Opened(t, [], Up(k), ZERO_TIME), k, src);
      if q == k then q in u && u[q] == src
      else if q < k then q in u && u[q] == Reopened(t, q, ZERO_TIME)
      else (q in u <==> q in t && !(k < q && KindOf(src) != Dir)) && (q in u ==> u[q] == t[q])
  {
    assert q < k ==> q <= Up(k);
    assert q <= Up(k) ==> q < k || q == k;
  }

  lemma SetMark(t: Tree, ops: seq<Op>, op: Op, src: Source, q: Path)
    requires FreshDirs(t) && MarkOf(t, q) == Marked(ops, q) && Puts(src, op)
    ensures var u := SetSource(Opened(t, [], Up(op.path), ZERO_TIME), op.path, src);
      && MarkOf(u, q) == Marked(ops + [op], q)
      && (q in u && KindOf(u[q]) == Dir ==> u[q].FreshDir? || (u[q].ParentDir? && q == []))
  {
    hide SetSource, Opened, Up, Hash;
    assert (ops + [op])[..|ops|] == ops;
    SetAt(t, op.path, src, q);
  }

  lemma LinkTarget(t: Tree, target: Path, depth: nat)
    requires [] in t
    ensures var found := Walk(t, [], 0, target, Lookup, depth);
      found.At? ==> found.path in found.tree && KindOf(NodeAt(found)) != Symlink
  {
    WalkDepth.WalkFollows(t, [], 0, target, Lookup, depth);
  }

  lemma OriginKind(s: Source)
    ensures KindOf(Linked(0, Origin(s))) == KindOf(s)
  {
  }

  lemma PlainReplay(t: Tree, ops: seq<Op>, op: Op, depth: nat)
    requires MarksMatch(t, ops)
    requires forall q :: q in Prefixes(Up(op.path)) ==> Marked(ops, q) != Pointer
    ensures var r := Replay(t, op, ZERO_TIME, depth); r.Done? ==> MarksMatch(r.tree, ops + [op])
  {
    hide MarksMatch, Marked, Add, Walk;
    assert [] in t by { MarksRoot(t, ops); }
    match op
    case Put(p, info, hash) => PlainStep(t, ops, op, NewSource(p, info, hash, ZERO_TIME), depth);
    case Remove(p) => PlainStep(t, ops, op, Removed, depth);
    case Link(p, target) =>
      var found := Walk(t, [], 0, target, Lookup, depth);
      LinkTarget(t, target, depth);
      if found.At? && KindOf(NodeAt(found)) != Dir {
        OriginKind(NodeAt(found));
        PlainStep(t, ops, op, Linked(0, Origin(NodeAt(found))), depth);
      }
  }

  lemma MarksRoot(t: Tree, ops: seq<Op>)
    requires MarksMatch(t, ops)
    ensures [] in t
  {
  }

  /** The entries tell what every node of the tree is. */
  lemma {:induction false} MarksTell(ops: seq<Op>, depth: nat)
    requires Plain(ops)
    ensures var r := ReplayAll(NEW_FS, ops, ZERO_TIME, depth); r.Done? ==> MarksMatch(r.tree, ops)
    decreases |ops|
  {
    hide MarksMatch, Marked, Replay;
    if ops == [] {
      NewFsMarks();
    } else {
      var n := |ops| - 1;
      MarksTell(ops[..n], depth);
      var r := ReplayAll(NEW_FS, ops[..n], ZERO_TIME, depth);
      if r.Done? { PlainReplay(r.tree, ops[..n], ops[n], depth); }
      assert ops[..n] + [ops[n]] == ops;
    }
  }

  lemma NewFsMarks()
    ensures MarksMatch(NEW_FS, [])
  {
  }

  /** Only nodes that an entry names or lies in are undated directories. */
  lemma {:induction false} UndatedIsNamed(ops: seq<Op>, q: Path)
    requires Marked(ops, q) == UndatedDir
    ensures exists i :: 0 <= i < |ops| && q in Prefixes(ops[i].path)
    decreases |ops|
  {
    var n := |ops| - 1;
    if q <= ops[n].path {
      assert q in Prefixes(ops[n].path);
    } else {
      UndatedIsNamed(ops[..n], q);
      var i :| 0 <= i < n && q in Prefixes(ops[..n][i].path);
      assert q in Prefixes(ops[i].path);
    }
  }

  lemma LateIffUndated(t: Tree, ops: seq<Op>)
    requires MarksMatch(t, ops)
    ensures Late(t) == {} <==> DirsDated(ops)
  {
    hide Marked, FreshDirs;
    forall q
      ensures q in Late(t) <==> Marked(ops, q) == UndatedDir
    {
      assert MarkOf(t, q) == Marked(ops, q);
    }
    if q :| q in Late(t) {
      UndatedIsNamed(ops, q);
    }
  }

  // ------------------------------------------------------------- all layers as one

  function Decoded(layer: seq<Entry>): seq<Op> {
    seq(|layer|, i requires 0 <= i < |layer| => Decode(layer[i]))
  }

  predicate AllThere(blobs: LayerBlobs, chain: seq<Digest>) {
    forall i :: 0 <= i < |chain| ==> chain[i] in blobs
  }

  function AllOps(blobs: LayerBlobs, chain: seq<Digest>): seq<Op>
    requires AllThere(blobs, chain)
  {
    if chain == [] then []
    else
      var n := |chain| - 1;
      AllOps(blobs, chain[..n]) + Decoded(blobs[chain[n]])
  }

  lemma {:induction false} ReplayAppend(t: Tree, first: seq<Op>, ops: seq<Op>, now: int, depth: nat)
    ensures var r := ReplayAll(t, first, now, depth);
      ReplayAll(t, first + ops, now, depth) == if r.Error? then r else ReplayAll(r.tree, ops, now, depth)
    decreases |ops|
  {
    hide Replay;
    if ops == [] {
      assert first + ops == first;
    } else {
      var n := |ops| - 1;
      ReplayAppend(t, first, ops[..n], now, depth);
      assert (first + ops)[..|first + ops| - 1] == first + ops[..n];
    }
  }

  lemma {:induction false} FoldIsReplay(blobs: LayerBlobs, chain: seq<Digest>, now: int, depth: nat)
    requires AllThere(blobs, chain)
    ensures Fold(blobs, chain, now, depth) == ReplayAll(NEW_FS, AllOps(blobs, chain), now, depth)
    decreases |chain|
  {
    hide ReplayAll, Decoded;
    if chain == [] {
      ReplayNothing(now, depth);
    } else {
      var n := |chain| - 1;
      FoldIsReplay(blobs, chain[..n], now, depth);
      ReplayAppend(NEW_FS, AllOps(blobs, chain[..n]), Decoded(blobs[chain[n]]), now, depth);
      var r := Fold(blobs, chain[..n], now, depth);
      if r.Done? { UnpackReplays(r.tree, blobs[chain[n]], now, depth); }
    }
  }

  lemma UnpackReplays(t: Tree, layer: seq<Entry>, now: int, depth: nat)
    ensures Unpack(t, layer, now, depth) == ReplayAll(t, Decoded(layer), now, depth)
  {
    assert Decoded(layer) == seq(|layer|, i requires 0 <= i < |layer| => Decode(layer[i]));
  }

  lemma ReplayNothing(now: int, depth: nat)
    ensures ReplayAll(NEW_FS, [], now, depth) == Done(NEW_FS)
  {
  }

  /** For layers whose entries do not lie below symlinks, the entries decide: what the
      layers make is the same at any time if and only if every directory that an entry
      names or lies in, the root included, has a time of its own by the end. */
  lemma TimelessIffDated(blobs: LayerBlobs, chain: seq<Digest>, depth: nat)
    requires AllThere(blobs, chain) && Plain(AllOps(blobs, chain)) && Fold(blobs, chain, ZERO_TIME, depth).Done?
    ensures Timeless(blobs, chain, depth) <==> DirsDated(AllOps(blobs, chain))
  {
    hide Timeless, Late, Plain, Fold, DirsDated;
    var ops := AllOps(blobs, chain);
    FoldIsReplay(blobs, chain, ZERO_TIME, depth);
    MarksTell(ops, depth);
    LateIffUndated(Fold(blobs, chain, ZERO_TIME, depth).tree, ops);
    TimelessIff(blobs, chain, depth);
  }

  // ------------------------------------------------------------------- valid trees

  /** A valid tree, or a root alone that is no directory. */
  predicate Shaped(t: Tree) {
    [] in t && (Valid(t) || (t.Keys == {[]} && KindOf(t[[]]) != Dir))
  }

  /** A walk from a root alone opens the root first. */
  lemma RootWalk(t: Tree, names: seq<Name>, now: int, depth: nat)
    requires t.Keys == {[]} && KindOf(t[[]]) != Dir
    ensures KindOf(t[[]]) == Symlink ==> Walk(t, [], 0, names, MkdirsUpper(now), depth).Failed?
    ensures KindOf(t[[]]) != Symlink ==>
      Walk(t, [], 0, names, MkdirsUpper(now), depth) ==
        Walk(map[[] := NewDir(DIR_ATTRS, now)], [], 0, names, MkdirsUpper(now), depth)
  {
    var w, u := MkdirsUpper(now), map[[] := NewDir(DIR_ATTRS, now)];
    if KindOf(t[[]]) != Symlink {
      assert Visit(t, [], w) == u == Visit(u, [], w);
      assert Resolve(t, [], w, depth) == At(t, []) && Resolve(u, [], w, depth) == At(u, []);
      assert Onward(t, [], 0, names, w, depth) == Onward(u, [], 0, names, w, depth);
    } else {
      assert Resolve(t, [], w, depth).Failed?;
    }
  }

  lemma WalkShaped(t: Tree, names: seq<Name>, now: int, depth: nat)
    requires Shaped(t)
    ensures var r := Walk(t, [], 0, names, MkdirsUpper(now), depth);
      r.At? ==> Valid(r.tree) && r.path in r.tree && KindOf(r.tree[r.path]) == Dir
  {
    if Valid(t) {
      WalkValid(t, [], 0, names, MkdirsUpper(now), depth);
    } else {
      RootWalk(t, names, now, depth);
      WalkValid(map[[] := NewDir(DIR_ATTRS, now)], [], 0, names, MkdirsUpper(now), depth);
    }
  }

  lemma SetShaped(t: Tree, p: Path, src: Source)
    requires Valid(t) && (p == [] || (Parent(p) in t && KindOf(t[Parent(p)]) == Dir))
    ensures Shaped(SetSource(t, p, src))
  {
    if p != [] || KindOf(src) == Dir {
      SetSourceValid(t, p, src);
    } else {
      var u := SetSource(t, p, src);
      forall q ensures q in u <==> q == [] {
        assert q == [] || [] < q;
      }
      assert u.Keys == {[]};
    }
  }

  lemma AddShaped(t: Tree, p: Path, src: Source, now: int, depth: nat)
    requires Shaped(t)
    ensures var r := Add(t, p, src, MkdirsUpper(now), depth); r.At? ==> Shaped(r.tree)
  {
    hide SetSource, Walk;
    var names := if p == [] then [] else Parent(p);
    WalkShaped(t, names, now, depth);
    var r := Walk(t, [], 0, names, MkdirsUpper(now), depth);
    if r.At? {
      var node := if p == [] then r.path else r.path + [p[|p| - 1]];
      if p != [] {
        assert Parent(node) == r.path;
      } else if r.path != [] {
        AncestorIsDir(r.tree, Parent(r.path), r.path);
      }
      SetShaped(r.tree, node, src);
    }
  }

  lemma {:induction false} ReplayShaped(t: Tree, ops: seq<Op>, now: int, depth: nat)
    requires Shaped(t)
    ensures var r := ReplayAll(t, ops, now, depth); r.Done? ==> Shaped(r.tree)
    decreases |ops|
  {
    hide Shaped, Add, Walk;
    if ops != [] {
      var n := |ops| - 1;
      ReplayShaped(t, ops[..n], now, depth);
      var r := ReplayAll(t, ops[..n], now, depth);
      if r.Done? {
        match ops[n]
        case Put(p, info, hash) => AddShaped(r.tree, p, NewSource(p, info, hash, now), now, depth);
        case Remove(p) => AddShaped(r.tree, p, Removed, now, depth);
        case Link(p, target) =>
          if [] in r.tree {
            var found := Walk(r.tree, [], 0, target, Lookup, depth);
            if found.At? { AddShaped(r.tree, p, Linked(0, Origin(NodeAt(found))), now, depth); }
          }
      }
    }
  }

  /** Whatever the layers are, the tree they make is valid unless its root is no directory. */
  lemma {:induction false} FoldShaped(blobs: LayerBlobs, chain: seq<Digest>, now: int, depth: nat)
    ensures var r := Fold(blobs, chain, now, depth); r.Done? ==> Shaped(r.tree)
    decreases |chain|
  {
    hide ReplayAll;
    if chain != [] {
      var n := |chain| - 1;
      FoldShaped(blobs, chain[..n], now, depth);
      var r := Fold(blobs, chain[..n], now, depth);
      if r.Done? && chain[n] in blobs {
        var layer := blobs[chain[n]];
        ReplayShaped(r.tree, seq(|layer|, i requires 0 <= i < |layer| => Decode(layer[i])), now, depth);
      }
    }
  }
}
