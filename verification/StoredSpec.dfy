/** The specs of the cache as they are stored: printed from linked nodes and parsed again. */
module StoredSpec {
  import opened FsTypes
  import Layer
  import opened LayerFold
  import opened SpecCache
  import opened Digests
  import FsSpec
  import SpecOrder
  import opened NodeTree

  lemma SameStripped(t: Tree, u: Tree)
    requires SameTree(t, u)
    ensures SameTree(Layer.Stripped(t), Layer.Stripped(u))
  {
  }

  /** A cached spec that was stored and loaded is still a spec of its chain. */
  lemma StoredSpecOk(root: SpecOrder.Node, keys: FsSpec.KeyOrder, now: int, blobs: LayerBlobs, chain: seq<Digest>,
                     depth: nat)
    requires SpecOrder.WellFormed(root.kids) && FsSpec.Specable(SpecOrder.TreeOf(root)) && FsSpec.Orders(keys)
    requires SpecOk(SpecOrder.TreeOf(root), blobs, chain, depth)
    ensures SpecOrder.IsDir(root) && FsSpec.Planned(SpecOrder.TreeOf(root), SpecOrder.Plan(root))
    ensures var text := FsSpec.SpecText(FsSpec.Print(SpecOrder.TreeOf(root), SpecOrder.Plan(root), keys).lines);
      var r := FsSpec.ParseFsSpec(text, now);
      r.Some? && SpecOk(r.value, blobs, chain, depth)
  {
    hide FsSpec.Print, FsSpec.ParseFsSpec, SameTree, UpTo, Layer.Stripped, SpecOrder.Plan, FsSpec.Planned, Base, LateIn;
    SpecOrder.PrintedTreeParses(root, keys, now);
    var t := SpecOrder.TreeOf(root);
    var u := FsSpec.ParseFsSpec(FsSpec.SpecText(FsSpec.Print(t, SpecOrder.Plan(root), keys).lines), now).value;
    var late := LateIn(blobs, chain, depth);
    SameStripped(u, t);
    SameIsUpTo(u, t, late);
    UpToTransitive(u, t, Base(blobs, chain, depth).tree, late);
  }

  // ---------------------------------------------------------- the linked nodes as lists

  /** The node at `p` with the list of its entries. */
  ghost function NodeOf(at: NodeTree.Nodes, v: View, p: Path): SpecOrder.Node
    requires WellLinked(at, v) && p in v
    decreases |Under(v.Keys, p)|, 1, 0
  {
    SpecOrder.Node(v[p].name, v[p].source, KidsOf(at, v, p, |v[p].kids|))
  }

  ghost function KidsOf(at: NodeTree.Nodes, v: View, p: Path, n: nat): (kids: seq<SpecOrder.Node>)
    requires WellLinked(at, v) && p in v && n <= |v[p].kids|
    ensures |kids| == n
    decreases |Under(v.Keys, p)|, 0, n
  {
    if n == 0 then []
    else
      KidAt(at, v, p, n - 1);
      UnderKid(v.Keys, p, v[p].kids[n - 1]);
      KidsOf(at, v, p, n - 1) + [NodeOf(at, v, Sub(p, v[p].kids[n - 1]))]
  }

  lemma {:induction false} KidsNamed(at: NodeTree.Nodes, v: View, p: Path, n: nat, i: nat)
    requires WellLinked(at, v) && p in v && i < n <= |v[p].kids|
    ensures KidsOf(at, v, p, n)[i].name == v[p].kids[i]
    decreases n
  {
    hide WellLinked, Sub;
    KidAt(at, v, p, n - 1);
    if i < n - 1 { KidsNamed(at, v, p, n - 1, i); }
  }

  lemma LeafKids(at: NodeTree.Nodes, v: View, p: Path)
    requires WellLinked(at, v) && p in v && KindOf(v[p].source) != Dir
    ensures v[p].kids == []
  {
    hide Sub, Ascending, Names;
    assert NodeOk(at, v, p);
  }

  /** The lists have different names, and only directories have entries. */
  lemma {:induction false} KidsFormed(at: NodeTree.Nodes, v: View, p: Path, n: nat)
    requires WellLinked(at, v) && p in v && n <= |v[p].kids|
    ensures SpecOrder.WellFormed(KidsOf(at, v, p, n))
    decreases |Under(v.Keys, p)|, n
  {
    hide WellLinked, Sub, KindOf;
    if n > 0 {
      KidAt(at, v, p, n - 1);
      UnderKid(v.Keys, p, v[p].kids[n - 1]);
      var kids, k := KidsOf(at, v, p, n), Sub(p, v[p].kids[n - 1]);
      assert kids[..n - 1] == KidsOf(at, v, p, n - 1) && kids[n - 1] == NodeOf(at, v, k);
      KidsFormed(at, v, p, n - 1);
      KidsFormed(at, v, k, |v[k].kids|);
      if KindOf(v[k].source) != Dir { LeafKids(at, v, k); }
      forall i | 0 <= i < n - 1
        ensures kids[i].name != kids[n - 1].name
      {
        KidsNamed(at, v, p, n, i);
        KidsNamed(at, v, p, n, n - 1);
        KidsDiffer(at, v, p, i, n - 1);
      }
    }
  }

  predicate Among(p: Path, kids: seq<Name>, n: nat, q: Path)
    requires n <= |kids|
  {
    exists j :: 0 <= j < n && Within(Sub(p, kids[j]), q)
  }

  ghost function First(v: View, p: Path, n: nat): Tree
    requires p in v && n <= |v[p].kids|
  {
    map q | q in v && Among(p, v[p].kids, n, q) :: v[q].source
  }

  lemma {:induction false} PrefixIn(at: NodeTree.Nodes, v: View, p: Path, q: Path)
    requires WellLinked(at, v) && q in v && p <= q
    ensures p in v
    decreases |q|
  {
    hide Sub, Ascending, Names;
    if p != q {
      assert NodeOk(at, v, q);
      assert p <= Parent(q);
      PrefixIn(at, v, p, Parent(q));
    }
  }

  /** What lies below a node lies in one of its entries. */
  lemma BelowAmong(at: NodeTree.Nodes, v: View, p: Path, q: Path)
    requires WellLinked(at, v) && p in v && q in v && p < q
    ensures Among(p, v[p].kids, |v[p].kids|, q)
  {
    var x := q[|p|];
    assert Sub(p, x) <= q;
    PrefixIn(at, v, Sub(p, x), q);
    assert NodeOk(at, v, p);
    assert x in Names(v[p].kids);
    var j :| 0 <= j < |v[p].kids| && v[p].kids[j] == x;
    assert Within(Sub(p, v[p].kids[j]), q);
  }

  lemma AmongBelow(p: Path, kids: seq<Name>, n: nat, q: Path)
    requires n <= |kids| && Among(p, kids, n, q)
    ensures p < q
  {
    var j :| 0 <= j < n && Within(Sub(p, kids[j]), q);
    assert p < Sub(p, kids[j]);
  }

  lemma AmongSnoc(p: Path, kids: seq<Name>, n: nat, q: Path)
    requires 0 < n <= |kids|
    ensures Among(p, kids, n, q) <==> Among(p, kids, n - 1, q) || Within(Sub(p, kids[n - 1]), q)
  {
    hide Within, Sub;
  }

  /** The nodes of the lists are those of the tree. */
  lemma {:induction false} KidsNodes(at: NodeTree.Nodes, v: View, p: Path, n: nat)
    requires WellLinked(at, v) && p in v && n <= |v[p].kids|
    ensures SpecOrder.Nodes(KidsOf(at, v, p, n), p) == First(v, p, n)
    decreases |Under(v.Keys, p)|, n
  {
    hide WellLinked, Among, Sub, Within;
    if n == 0 {
      NoneAmong(v, p);
    } else {
      KidAt(at, v, p, n - 1);
      UnderKid(v.Keys, p, v[p].kids[n - 1]);
      var kids, k := KidsOf(at, v, p, n), Sub(p, v[p].kids[n - 1]);
      assert kids[..n - 1] == KidsOf(at, v, p, n - 1) && kids[n - 1] == NodeOf(at, v, k);
      KidsNodes(at, v, p, n - 1);
      KidsNodes(at, v, k, |v[k].kids|);
      assert kids[n - 1].name == v[p].kids[n - 1];
      IsSub(p, v[p].kids[n - 1]);
      FirstSnoc(at, v, p, n);
    }
  }

  lemma IsSub(p: Path, x: Name)
    ensures p + [x] == Sub(p, x)
  {
  }

  lemma NoneAmong(v: View, p: Path)
    requires p in v
    ensures First(v, p, 0) == map[]
  {
  }

  lemma FirstSnoc(at: NodeTree.Nodes, v: View, p: Path, n: nat)
    requires WellLinked(at, v) && p in v && 0 < n <= |v[p].kids| && Sub(p, v[p].kids[n - 1]) in v
    ensures var k := Sub(p, v[p].kids[n - 1]);
      First(v, p, n) == First(v, p, n - 1) + First(v, k, |v[k].kids|)[k := v[k].source]
  {
    hide WellLinked, Sub, Among;
    var k := Sub(p, v[p].kids[n - 1]);
    var one, two := First(v, p, n), First(v, p, n - 1) + First(v, k, |v[k].kids|)[k := v[k].source];
    forall q
      ensures q in one <==> q in two
      ensures q in one ==> one[q] == two[q]
    {
      AmongSnoc(p, v[p].kids, n, q);
      assert Within(k, q) <==> q == k || k < q;
      if q in v && k < q { BelowAmong(at, v, k, q); }
      if Among(k, v[k].kids, |v[k].kids|, q) { AmongBelow(k, v[k].kids, |v[k].kids|, q); }
    }
  }

  lemma ListedTree(at: NodeTree.Nodes, v: View)
    requires WellLinked(at, v)
    ensures SpecOrder.WellFormed(NodeOf(at, v, []).kids)
    ensures SpecOrder.TreeOf(NodeOf(at, v, [])) == NodeTree.TreeOf(v)
  {
    hide Among, Sub;
    assert [] in v;
    KidsFormed(at, v, [], |v[[]].kids|);
    KidsNodes(at, v, [], |v[[]].kids|);
    hide WellLinked;
    var t, u := SpecOrder.TreeOf(NodeOf(at, v, [])), NodeTree.TreeOf(v);
    forall q
      ensures q in t <==> q in u
      ensures q in t ==> t[q] == u[q]
    {
      if q in v && q != [] {
        assert [] < q;
        BelowAmong(at, v, [], q);
      }
    }
  }

  /** Storing the linked nodes of a spec and loading the text gives a spec of the chain. */
  lemma StoredNodesOk(fs: FileSystem, keys: FsSpec.KeyOrder, now: int, blobs: LayerBlobs, chain: seq<Digest>,
                      depth: nat)
    requires fs.Valid() && FsSpec.Specable(fs.Tree()) && FsSpec.Orders(keys) && SpecOk(fs.Tree(), blobs, chain, depth)
    ensures WellLinked(fs.at, fs.Seen()) && [] in fs.Seen()
    ensures var root := NodeOf(fs.at, fs.Seen(), []);
      && SpecOrder.TreeOf(root) == fs.Tree() && FsSpec.Planned(fs.Tree(), SpecOrder.Plan(root))
      && var r := FsSpec.ParseFsSpec(FsSpec.SpecText(FsSpec.Print(fs.Tree(), SpecOrder.Plan(root), keys).lines), now);
         r.Some? && SpecOk(r.value, blobs, chain, depth)
  {
    hide FsSpec.Specable, SpecOk, NodeOf, SpecOrder.TreeOf, SpecOrder.Plan, FsSpec.Planned, FsSpec.Print,
         FsSpec.ParseFsSpec, NodeTree.TreeOf;
    fs.RootHas();
    ListedTree(fs.at, fs.Seen());
    StoredSpecOk(NodeOf(fs.at, fs.Seen(), []), keys, now, blobs, chain, depth);
  }
}
