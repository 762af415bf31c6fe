/** The order in which a spec is printed: in every directory the files come first, then
    the directories with their entries. */
module SpecOrder {
  import opened FsTypes
  import opened FsSpec
  import opened Text
  import opened AttrText

  /** A node with the list of its entries. */
  datatype Node = Node(name: Name, source: Source, kids: seq<Node>)

  predicate IsDir(n: Node) {
    KindOf(n.source) == Dir
  }

  /** genFileSpecLines. */
  function FilePlan(kids: seq<Node>, dir: Path): seq<Visit>
    decreases |kids|
  {
    if kids == [] then []
    else
      var n := |kids| - 1;
      FilePlan(kids[..n], dir) + if IsDir(kids[n]) then [] else [Enter(dir + [kids[n].name])]
  }

  /** genDirSpecLines. */
  function DirPlan(kids: seq<Node>, dir: Path): seq<Visit>
    decreases kids, 0
  {
    if kids == [] then []
    else
      var n := |kids| - 1;
      DirPlan(kids[..n], dir) + if IsDir(kids[n]) then SubPlan(kids[n], dir) else []
  }

  function SubPlan(k: Node, dir: Path): seq<Visit>
    decreases k.kids, 1
  {
    var p := dir + [k.name];
    [Enter(p)] + (FilePlan(k.kids, p) + DirPlan(k.kids, p)) + [Leave]
  }

  /** FsNode.writeTo. */
  function Plan(root: Node): seq<Visit> {
    [Enter([])] + (FilePlan(root.kids, []) + DirPlan(root.kids, []))
  }

  function Nodes(kids: seq<Node>, dir: Path): Tree
    decreases kids
  {
    if kids == [] then map[]
    else
      var n := |kids| - 1;
      var k := kids[n];
      var p := dir + [k.name];
      Nodes(kids[..n], dir) + Nodes(k.kids, p)[p := k.source]
  }

  function TreeOf(root: Node): Tree {
    Nodes(root.kids, [])[[] := root.source]
  }

  /** Different names in a directory, and entries only there. */
  predicate WellFormed(kids: seq<Node>)
    decreases kids
  {
    kids == [] ||
    var n := |kids| - 1;
    && WellFormed(kids[..n]) && WellFormed(kids[n].kids)
    && (!IsDir(kids[n]) ==> kids[n].kids == [])
    && forall i :: 0 <= i < n ==> kids[i].name != kids[n].name
  }

  // ------------------------------------------------------------------- prefixes

  predicate Under(kids: seq<Node>, dir: Path, p: Path) {
    exists i :: 0 <= i < |kids| && dir + [kids[i].name] <= p
  }

  lemma UnderOne(dir: Path, a: Name, b: Name, p: Path)
    requires dir + [a] <= p && dir + [b] <= p
    ensures a == b
  {
    assert p[|dir|] == (dir + [a])[|dir|] == (dir + [b])[|dir|];
  }

  lemma UnderSnoc(kids: seq<Node>, dir: Path, p: Path)
    requires kids != []
    ensures var n := |kids| - 1;
      Under(kids, dir, p) <==> Under(kids[..n], dir, p) || dir + [kids[n].name] <= p
  {
    var n := |kids| - 1;
    if Under(kids[..n], dir, p) {
      var i :| 0 <= i < n && dir + [kids[..n][i].name] <= p;
      assert dir + [kids[i].name] <= p;
    }
    if Under(kids, dir, p) && !(dir + [kids[n].name] <= p) {
      var i :| 0 <= i < |kids| && dir + [kids[i].name] <= p;
      assert dir + [kids[..n][i].name] <= p;
    }
  }

  /** The last entry's paths are not below the others. */
  lemma LastApart(kids: seq<Node>, dir: Path, p: Path)
    requires kids != [] && WellFormed(kids) && dir + [kids[|kids| - 1].name] <= p
    ensures !Under(kids[..|kids| - 1], dir, p)
  {
    var n := |kids| - 1;
    if Under(kids[..n], dir, p) {
      var i :| 0 <= i < n && dir + [kids[..n][i].name] <= p;
      UnderOne(dir, kids[..n][i].name, kids[n].name, p);
    }
  }

  // -------------------------------------------------------- the plan is complete

  lemma EnteredConcat(xs: seq<Visit>, ys: seq<Visit>)
    ensures Entered(xs + ys) == Entered(xs) + Entered(ys)
  {
    var zs := xs + ys;
    forall p | p in Entered(xs) ensures p in Entered(zs) {
      var i :| 0 <= i < |xs| && xs[i].Enter? && xs[i].path == p;
      assert zs[i].Enter? && zs[i].path == p;
    }
    forall p | p in Entered(ys) ensures p in Entered(zs) {
      var i :| 0 <= i < |ys| && ys[i].Enter? && ys[i].path == p;
      assert zs[|xs| + i].Enter? && zs[|xs| + i].path == p;
    }
  }

  lemma EnteredOne(v: Visit)
    ensures Entered([v]) == if v.Enter? then {v.path} else {}
  {
    assert [v][0] == v;
  }

  lemma EnteredSub(k: Node, dir: Path)
    ensures var p := dir + [k.name];
      Entered(SubPlan(k, dir)) == {p} + Entered(FilePlan(k.kids, p)) + Entered(DirPlan(k.kids, p))
  {
    hide Entered;
    var p := dir + [k.name];
    var files, dirs := FilePlan(k.kids, p), DirPlan(k.kids, p);
    EnteredOne(Enter(p));
    EnteredOne(Leave);
    EnteredConcat(files, dirs);
    EnteredConcat([Enter(p)], files + dirs);
    EnteredConcat([Enter(p)] + (files + dirs), [Leave]);
  }

  /** What is entered for the entries are their nodes, each below one of them. */
  lemma {:induction false} EnteredNodes(kids: seq<Node>, dir: Path)
    requires WellFormed(kids)
    ensures Entered(FilePlan(kids, dir)) + Entered(DirPlan(kids, dir)) == Nodes(kids, dir).Keys
    ensures forall p :: p in Nodes(kids, dir) ==> Under(kids, dir, p)
    decreases kids
  {
    hide Entered, Under;
    if kids == [] {
      EnteredNothing();
    } else {
      var n := |kids| - 1;
      var k := kids[n];
      var p := dir + [k.name];
      EnteredNodes(kids[..n], dir);
      EnteredNodes(k.kids, p);
      EnteredOne(Enter(p));
      EnteredSub(k, dir);
      hide SubPlan;
      if !IsDir(k) {
        assert Nodes(k.kids, p) == map[];
        EnteredConcat(FilePlan(kids[..n], dir), [Enter(p)]);
        assert DirPlan(kids, dir) == DirPlan(kids[..n], dir);
      } else {
        EnteredConcat(DirPlan(kids[..n], dir), SubPlan(k, dir));
        assert FilePlan(kids, dir) == FilePlan(kids[..n], dir);
      }
      forall q | q in Nodes(kids, dir) ensures Under(kids, dir, q) {
        UnderSnoc(kids, dir, q);
        if q !in Nodes(kids[..n], dir) && q != p {
          UnderPrefix(k.kids, p, q);
        }
      }
    }
  }

  lemma EnteredNothing()
    ensures Entered([]) == {}
  {
  }

  lemma UnderPrefix(kids: seq<Node>, dir: Path, q: Path)
    requires Under(kids, dir, q)
    ensures dir <= q
  {
    var i :| 0 <= i < |kids| && dir + [kids[i].name] <= q;
    assert dir <= dir + [kids[i].name];
  }

  // -------------------------------------------------------- the plan is followed

  /** The entries are in the tree, with their kinds. */
  ghost predicate Holds(t: Tree, kids: seq<Node>, dir: Path)
    decreases kids
  {
    kids == [] ||
    var n := |kids| - 1;
    var p := dir + [kids[n].name];
    && Holds(t, kids[..n], dir) && Holds(t, kids[n].kids, p)
    && p in t && KindOf(t[p]) == KindOf(kids[n].source)
  }

  lemma PlanSnoc(t: Tree, pre: seq<Visit>, v: Visit)
    requires pre != [] && Planned(t, pre)
    requires v.Leave? ==> Cursor(t, pre) != []
    requires v.Enter? ==> v.path in t && v.path != [] && Parent(v.path) == Cursor(t, pre) && v.path !in Entered(pre)
    ensures Planned(t, pre + [v])
    ensures Cursor(t, pre + [v]) ==
      if v.Leave? then Parent(Cursor(t, pre)) else if KindOf(t[v.path]) == Dir then v.path else Cursor(t, pre)
  {
    hide Entered;
    assert (pre + [v])[..|pre|] == pre;
  }

  /** No entry was entered yet. */
  ghost predicate Apart(pre: seq<Visit>, kids: seq<Node>, dir: Path) {
    forall p :: p in Entered(pre) ==> !Under(kids, dir, p)
  }

  lemma ApartPrefix(pre: seq<Visit>, kids: seq<Node>, dir: Path)
    requires kids != [] && Apart(pre, kids, dir)
    ensures Apart(pre, kids[..|kids| - 1], dir)
    ensures forall p :: p in Entered(pre) ==> !(dir + [kids[|kids| - 1].name] <= p)
  {
    hide Entered, Under;
    forall p | p in Entered(pre)
      ensures !Under(kids[..|kids| - 1], dir, p) && !(dir + [kids[|kids| - 1].name] <= p)
    {
      UnderSnoc(kids, dir, p);
    }
  }

  lemma FilesUnder(kids: seq<Node>, dir: Path, p: Path)
    requires WellFormed(kids) && (p in Entered(FilePlan(kids, dir)) || p in Entered(DirPlan(kids, dir)))
    ensures Under(kids, dir, p)
  {
    hide Entered, Under;
    EnteredNodes(kids, dir);
    assert p in Nodes(kids, dir);
  }

  lemma {:induction false} FilesPlanned(t: Tree, pre: seq<Visit>, kids: seq<Node>, dir: Path)
    requires pre != [] && Planned(t, pre) && Cursor(t, pre) == dir
    requires WellFormed(kids) && Holds(t, kids, dir) && Apart(pre, kids, dir)
    ensures Planned(t, pre + FilePlan(kids, dir)) && Cursor(t, pre + FilePlan(kids, dir)) == dir
    decreases |kids|
  {
    hide Entered, Under, Planned, Cursor, Apart;
    if kids == [] {
      assert pre + FilePlan(kids, dir) == pre;
    } else {
      var n := |kids| - 1;
      var before, p := FilePlan(kids[..n], dir), dir + [kids[n].name];
      ApartPrefix(pre, kids, dir);
      FilesPlanned(t, pre, kids[..n], dir);
      if IsDir(kids[n]) {
        assert FilePlan(kids, dir) == before;
      } else {
        EnteredConcat(pre, before);
        LastApart(kids, dir, p);
        if p in Entered(before) { FilesUnder(kids[..n], dir, p); }
        assert Parent(p) == dir;
        PlanSnoc(t, pre + before, Enter(p));
        assert pre + FilePlan(kids, dir) == pre + before + [Enter(p)];
      }
    }
  }

  /** No directory among the entries was entered yet. */
  ghost predicate DirsApart(pre: seq<Visit>, kids: seq<Node>, dir: Path) {
    forall p, i :: p in Entered(pre) && 0 <= i < |kids| ==> !InDir(kids[i], dir, p)
  }

  predicate InDir(k: Node, dir: Path, p: Path) {
    IsDir(k) && dir + [k.name] <= p
  }

  lemma {:induction false} FilesAreFiles(kids: seq<Node>, dir: Path, p: Path, i: nat)
    requires WellFormed(kids) && p in Entered(FilePlan(kids, dir)) && i < |kids| && IsDir(kids[i])
    ensures !(dir + [kids[i].name] <= p)
    decreases |kids|
  {
    hide Entered;
    EnteredNothing();
    var n := |kids| - 1;
    var last := dir + [kids[n].name];
    var before := FilePlan(kids[..n], dir);
    if !IsDir(kids[n]) {
      EnteredConcat(before, [Enter(last)]);
      EnteredOne(Enter(last));
    } else {
      assert FilePlan(kids, dir) == before;
    }
    if p in Entered(before) {
      if i < n {
        FilesAreFiles(kids[..n], dir, p, i);
      } else {
        FilesUnder(kids[..n], dir, p);
        if last <= p { LastApart(kids, dir, p); }
      }
    } else {
      if dir + [kids[i].name] <= p { UnderOne(dir, kids[i].name, kids[n].name, p); }
    }
  }

  lemma LastFormed(t: Tree, kids: seq<Node>, dir: Path)
    requires kids != [] && WellFormed(kids) && Holds(t, kids, dir)
    ensures var n := |kids| - 1;
      var p := dir + [kids[n].name];
      && WellFormed(kids[..n]) && WellFormed(kids[n].kids) && Holds(t, kids[..n], dir) && Holds(t, kids[n].kids, p)
      && p in t && KindOf(t[p]) == KindOf(kids[n].source)
  {
  }

  lemma {:induction false} DirsPlanned(t: Tree, pre: seq<Visit>, kids: seq<Node>, dir: Path)
    requires pre != [] && Planned(t, pre) && Cursor(t, pre) == dir
    requires WellFormed(kids) && Holds(t, kids, dir) && DirsApart(pre, kids, dir)
    ensures Planned(t, pre + DirPlan(kids, dir)) && Cursor(t, pre + DirPlan(kids, dir)) == dir
    decreases kids, 0
  {
    hide Entered, Under, Planned, Cursor, DirsApart, WellFormed, Holds, FilePlan, SubPlan;
    if kids == [] {
      assert pre + DirPlan(kids, dir) == pre;
    } else {
      var n := |kids| - 1;
      var k, before := kids[n], DirPlan(kids[..n], dir);
      LastFormed(t, kids, dir);
      DirsApartPrefix(pre, kids, dir);
      DirsPlanned(t, pre, kids[..n], dir);
      if IsDir(k) {
        LastDirApart(pre, kids, dir);
        SubdirPlanned(t, pre + before, k, dir);
        assert pre + DirPlan(kids, dir) == pre + before + SubPlan(k, dir);
      } else {
        assert DirPlan(kids, dir) == before;
      }
    }
  }

  lemma DirsApartPrefix(pre: seq<Visit>, kids: seq<Node>, dir: Path)
    requires kids != [] && DirsApart(pre, kids, dir)
    ensures DirsApart(pre, kids[..|kids| - 1], dir)
  {
    hide Entered, InDir;
    assert forall i :: 0 <= i < |kids| - 1 ==> kids[..|kids| - 1][i] == kids[i];
  }

  lemma LastDirApart(pre: seq<Visit>, kids: seq<Node>, dir: Path)
    requires kids != [] && WellFormed(kids) && DirsApart(pre, kids, dir) && IsDir(kids[|kids| - 1])
    ensures var n := |kids| - 1;
      forall q :: q in Entered(pre + DirPlan(kids[..n], dir)) ==> !(dir + [kids[n].name] <= q)
  {
    hide Entered, Under;
    var n := |kids| - 1;
    EnteredConcat(pre, DirPlan(kids[..n], dir));
    forall q | q in Entered(pre + DirPlan(kids[..n], dir))
      ensures !(dir + [kids[n].name] <= q)
    {
      if q in Entered(DirPlan(kids[..n], dir)) {
        FilesUnder(kids[..n], dir, q);
        if dir + [kids[n].name] <= q { LastApart(kids, dir, q); }
      }
    }
  }

  /** A directory with all of its entries. */
  lemma {:induction false} SubdirPlanned(t: Tree, pre: seq<Visit>, k: Node, dir: Path)
    requires pre != [] && Planned(t, pre) && Cursor(t, pre) == dir && IsDir(k)
    requires WellFormed(k.kids) && Holds(t, k.kids, dir + [k.name])
    requires var p := dir + [k.name];
      p in t && KindOf(t[p]) == Dir && forall q :: q in Entered(pre) ==> !(p <= q)
    ensures Planned(t, pre + SubPlan(k, dir)) && Cursor(t, pre + SubPlan(k, dir)) == dir
    decreases k.kids, 1
  {
    hide Entered, Under, Planned, Cursor, DirsApart, Apart, WellFormed, Holds, FilePlan, DirPlan;
    var p := dir + [k.name];
    var files, dirs := FilePlan(k.kids, p), DirPlan(k.kids, p);
    assert Parent(p) == dir && p <= p;
    PlanSnoc(t, pre, Enter(p));
    var pre1 := pre + [Enter(p)];
    EntriesApart(pre, k.kids, p);
    FilesPlanned(t, pre1, k.kids, p);
    DirsPlanned(t, pre1 + files, k.kids, p);
    PlanSnoc(t, pre1 + files + dirs, Leave);
    assert pre + SubPlan(k, dir) == pre1 + files + dirs + [Leave];
  }

  lemma Deeper(p: Path, x: Name, q: Path)
    ensures p + [x] <= q ==> p < q
  {
    assert p < p + [x];
  }

  /** After a directory was entered, its entries are yet to be entered; after its files
      were, its directories are. */
  lemma EntriesApart(pre: seq<Visit>, kids: seq<Node>, p: Path)
    requires WellFormed(kids) && forall q :: q in Entered(pre) ==> !(p < q)
    ensures Apart(pre + [Enter(p)], kids, p)
    ensures DirsApart(pre + [Enter(p)] + FilePlan(kids, p), kids, p)
  {
    hide Entered;
    var pre1 := pre + [Enter(p)];
    EnteredConcat(pre, [Enter(p)]);
    EnteredOne(Enter(p));
    EnteredConcat(pre1, FilePlan(kids, p));
    forall q, i | q in Entered(pre1 + FilePlan(kids, p)) && 0 <= i < |kids|
      ensures !InDir(kids[i], p, q)
      ensures q in Entered(pre1) ==> !(p + [kids[i].name] <= q)
    {
      Deeper(p, kids[i].name, q);
      if q in Entered(FilePlan(kids, p)) && IsDir(kids[i]) { FilesAreFiles(kids, p, q, i); }
    }
  }

  // ------------------------------------------------------------------ whole trees

  predicate Has(t: Tree, u: Tree) {
    forall p :: p in u ==> p in t && t[p] == u[p]
  }

  /** The nodes of the last entry and those of the others do not overwrite each other. */
  lemma NodesSnoc(t: Tree, kids: seq<Node>, dir: Path)
    requires kids != [] && WellFormed(kids) && Has(t, Nodes(kids, dir))
    ensures var n := |kids| - 1;
      var p := dir + [kids[n].name];
      Has(t, Nodes(kids[..n], dir)) && Has(t, Nodes(kids[n].kids, p)) && p in t && t[p] == kids[n].source
  {
    hide Entered, Under;
    var n := |kids| - 1;
    var p := dir + [kids[n].name];
    var before, sub := Nodes(kids[..n], dir), Nodes(kids[n].kids, p);
    EnteredNodes(kids[..n], dir);
    EnteredNodes(kids[n].kids, p);
    assert Nodes(kids, dir) == before + sub[p := kids[n].source];
    hide Nodes, WellFormed;
    forall q | q in sub ensures p <= q && p != q { SubPath(kids[n].kids, p, q); }
    forall q | q in before ensures !(p <= q) { if p <= q { LastApart(kids, dir, q); } }
  }

  lemma {:induction false} NodesHeld(t: Tree, kids: seq<Node>, dir: Path)
    requires WellFormed(kids) && Has(t, Nodes(kids, dir))
    ensures Holds(t, kids, dir)
    decreases kids
  {
    hide Nodes, Has;
    if kids != [] {
      var n := |kids| - 1;
      NodesSnoc(t, kids, dir);
      NodesHeld(t, kids[..n], dir);
      NodesHeld(t, kids[n].kids, dir + [kids[n].name]);
    }
  }

  lemma SubPath(kids: seq<Node>, p: Path, q: Path)
    requires Under(kids, p, q)
    ensures p <= q && p != q
  {
    var i :| 0 <= i < |kids| && p + [kids[i].name] <= q;
    assert p < p + [kids[i].name];
  }

  lemma RootPlanned(t: Tree)
    requires [] in t
    ensures Planned(t, [Enter([])]) && Cursor(t, [Enter([])]) == []
  {
    EnteredNothing();
    assert [Enter([])][..0] == [];
  }

  lemma RootKeys(root: Node)
    requires WellFormed(root.kids)
    ensures Entered(Plan(root)) == TreeOf(root).Keys && Has(TreeOf(root), Nodes(root.kids, []))
  {
    hide Entered, Under, WellFormed, Nodes, FilePlan, DirPlan;
    var kids := root.kids;
    EnteredNodes(kids, []);
    EnteredOne(Enter([]));
    EnteredConcat(FilePlan(kids, []), DirPlan(kids, []));
    EnteredConcat([Enter([])], FilePlan(kids, []) + DirPlan(kids, []));
    forall p | p in Nodes(kids, []) ensures p != [] { SubPath(kids, [], p); }
  }

  /** Printing visits every node of the tree once, each while its directory is current. */
  lemma PlanComplete(root: Node)
    requires WellFormed(root.kids) && IsDir(root)
    ensures Planned(TreeOf(root), Plan(root)) && Entered(Plan(root)) == TreeOf(root).Keys
  {
    hide Entered, Under, Apart, DirsApart, WellFormed, Nodes, FilePlan, DirPlan, Holds, Planned, Cursor, Has;
    var t, kids := TreeOf(root), root.kids;
    var first := [Enter([])];
    var files, dirs := FilePlan(kids, []), DirPlan(kids, []);
    RootKeys(root);
    NodesHeld(t, kids, []);
    RootPlanned(t);
    EnteredNothing();
    assert [] + first == first;
    EntriesApart([], kids, []);
    FilesPlanned(t, first, kids, []);
    DirsPlanned(t, first + files, kids, []);
    assert Plan(root) == first + files + dirs;
  }

  /** The spec of a tree, printed in the order of its lists, is read back as that tree. */
  lemma PrintedTreeParses(root: Node, keys: KeyOrder, now: int)
    requires WellFormed(root.kids) && Specable(TreeOf(root)) && Orders(keys)
    ensures IsDir(root) && Planned(TreeOf(root), Plan(root))
    ensures var t := TreeOf(root);
      var r := ParseFsSpec(SpecText(Print(t, Plan(root), keys).lines), now);
      && r.Some? && SameTree(r.value, t)
      && (forall p, q :: p in t && q in t && Linky(t[p]) && Linky(t[q]) ==>
            (r.value[p] == r.value[q] <==> Origin(t[p]) == Origin(t[q])))
  {
    hide Print, ParseFsSpec, GoodLinks, GoodSource, SameTree, Plan, Planned;
    assert TreeOf(root)[[]] == root.source;
    PlanComplete(root);
    SpecRoundTrip(TreeOf(root), Plan(root), keys, now);
  }
}
