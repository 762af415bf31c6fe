/** The file system tree as linked nodes: every node has its first entry and its next
    sibling. The operations on the nodes do what the operations on trees as values do. */
module NodeTree {
  import opened FsTypes
  import opened PathWalk
  import opened RawPath
  import opened Text
  import T = FsTypes

  // -------------------------------------------------------------- order of names

  /** The order of Go strings. */
  predicate Before(a: Name, b: Name) {
    b != "" && (a == "" || a[0] < b[0] || (a[0] == b[0] && Before(a[1..], b[1..])))
  }

  lemma {:induction false} BeforeTotal(a: Name, b: Name)
    ensures a == b || Before(a, b) || Before(b, a)
    decreases |a|
  {
    if a != "" && b != "" {
      BeforeTotal(a[1..], b[1..]);
      assert a == [a[0]] + a[1..] && b == [b[0]] + b[1..];
    }
  }

  lemma {:induction false} BeforeTransitive(a: Name, b: Name, c: Name)
    requires Before(a, b) && Before(b, c)
    ensures Before(a, c)
    decreases |a|
  {
    if a != "" && a[0] == b[0] && b[0] == c[0] { BeforeTransitive(a[1..], b[1..], c[1..]); }
  }

  lemma {:induction false} BeforeIrreflexive(a: Name)
    ensures !Before(a, a)
    decreases |a|
  {
    if a != "" { BeforeIrreflexive(a[1..]); }
  }

  predicate Ascending(names: seq<Name>) {
    forall i, j :: 0 <= i < j < |names| ==> Before(names[i], names[j])
  }

  function Names(kids: seq<Name>): set<Name> {
    set x | x in kids
  }

  lemma NamesAt(kids: seq<Name>, i: nat)
    requires i < |kids|
    ensures kids[i] in Names(kids)
  {
  }

  /** A name that lies between two entries is none of them. */
  lemma NotAmong(kids: seq<Name>, i: nat, x: Name)
    requires Ascending(kids) && i <= |kids|
    requires forall j :: 0 <= j < i ==> Before(kids[j], x)
    requires i < |kids| ==> Before(x, kids[i])
    ensures x !in Names(kids)
  {
    BeforeIrreflexive(x);
    forall j | 0 <= j < |kids| ensures kids[j] != x {
      if j > i { BeforeTransitive(x, kids[i], kids[j]); }
    }
  }

  function Inserting(kids: seq<Name>, i: nat, x: Name): seq<Name>
    requires i <= |kids|
  {
    kids[..i] + [x] + kids[i..]
  }

  lemma InsertAt(kids: seq<Name>, i: nat, x: Name)
    requires i <= |kids|
    ensures var more := Inserting(kids, i, x);
      && |more| == |kids| + 1 && more[i] == x
      && (forall j :: 0 <= j < i ==> more[j] == kids[j])
      && (forall j :: i < j < |more| ==> more[j] == kids[j - 1])
  {
  }

  /** A name put where it belongs. */
  lemma Inserted(kids: seq<Name>, i: nat, x: Name)
    requires Ascending(kids) && i <= |kids|
    requires forall j :: 0 <= j < i ==> Before(kids[j], x)
    requires i < |kids| ==> Before(x, kids[i])
    ensures Ascending(Inserting(kids, i, x)) && Names(Inserting(kids, i, x)) == Names(kids) + {x}
  {
    var more := Inserting(kids, i, x);
    forall j, k | 0 <= j < k < |more| ensures Before(more[j], more[k]) {
      if j == i && k > i + 1 { BeforeTransitive(x, kids[i], kids[k - 1]); }
    }
    assert kids == kids[..i] + kids[i..];
    forall y ensures y in more <==> y in kids || y == x { }
  }

  function Dropping(kids: seq<Name>, i: nat): seq<Name>
    requires i < |kids|
  {
    kids[..i] + kids[i + 1..]
  }

  lemma DropAt(kids: seq<Name>, i: nat)
    requires i < |kids|
    ensures var less := Dropping(kids, i);
      && |less| == |kids| - 1
      && (forall j :: 0 <= j < i ==> less[j] == kids[j])
      && (forall j :: i <= j < |less| ==> less[j] == kids[j + 1])
  {
  }

  lemma Dropped(kids: seq<Name>, i: nat)
    requires Ascending(kids) && i < |kids|
    ensures Ascending(Dropping(kids, i)) && Names(Dropping(kids, i)) == Names(kids) - {kids[i]}
  {
    var less := Dropping(kids, i);
    BeforeIrreflexive(kids[i]);
    assert forall j :: 0 <= j < |kids| && j != i ==> kids[j] != kids[i];
    forall y | y in kids && y != kids[i] ensures y in less {
      var j :| 0 <= j < |kids| && kids[j] == y;
      assert less[if j < i then j else j - 1] == y;
    }
  }

  /** The path of an entry. */
  function Sub(p: Path, x: Name): Path {
    p + [x]
  }

  lemma SubOk(p: Path, x: Name)
    ensures Sub(p, x) != [] && Parent(Sub(p, x)) == p && Sub(p, x)[|Sub(p, x)| - 1] == x && p < Sub(p, x)
  {
  }

  lemma SplitPath(x: Path, y: Name, p: Path, name: Name)
    requires Sub(x, y) == Sub(p, name)
    ensures x == p && y == name
  {
    SubOk(x, y);
    SubOk(p, name);
  }

  // -------------------------------------------------------------------- the nodes

  class FsNode {
    var name: Name
    var source: Source
    var parent: FsNode?
    var child: FsNode?
    var next: FsNode?
    ghost var path: Path
    ghost var kids: seq<Name>

    constructor (n: Name, s: Source, p: FsNode?, following: FsNode?, ghost q: Path)
      ensures Look(this) == Shape(q, n, s, p, null, following, [])
    {
      name, source, parent, child, next := n, s, p, null, following;
      path, kids := q, [];
    }
  }

  /** The fields of a node. */
  datatype Shape = Shape(
    path: Path, name: Name, source: Source, parent: FsNode?, child: FsNode?, next: FsNode?, kids: seq<Name>)

  ghost function Look(n: FsNode): Shape
    reads n
  {
    Shape(n.path, n.name, n.source, n.parent, n.child, n.next, n.kids)
  }

  type Nodes = map<Path, FsNode>
  type View = map<Path, Shape>

  ghost function Seen(at: Nodes): View
    reads at.Values
  {
    map p | p in at :: Look(at[p])
  }

  /** The i-th entry, or nothing behind the last one. */
  ghost function Kid(at: Nodes, p: Path, kids: seq<Name>, i: nat): FsNode? {
    if i < |kids| && Sub(p, kids[i]) in at then at[Sub(p, kids[i])] else null
  }

  /** A node knows its place, which has a proper name, its entries are those of the tree in
      ascending order, and only directories have any. */
  ghost predicate NodeOk(at: Nodes, v: View, p: Path)
    requires p in v
  {
    var n := v[p];
    && n.path == p && AllProper(p)
    && (if p == [] then n.parent == null
        else Parent(p) in at && n.parent == at[Parent(p)] && n.name == p[|p| - 1])
    && Ascending(n.kids) && (forall x {:trigger x in Names(n.kids)} :: x in Names(n.kids) <==> Sub(p, x) in at)
    && n.child == Kid(at, p, n.kids, 0)
    && (KindOf(n.source) != Dir ==> n.kids == [])
  }

  /** The entry is linked to the next one. */
  ghost predicate LinkOk(at: Nodes, v: View, p: Path, kids: seq<Name>, i: nat) {
    i < |kids| && Sub(p, kids[i]) in v && v[Sub(p, kids[i])].next == Kid(at, p, kids, i + 1)
  }

  ghost predicate LinksOk(at: Nodes, v: View, p: Path)
    requires p in v
  {
    forall i :: 0 <= i < |v[p].kids| ==> LinkOk(at, v, p, v[p].kids, i)
  }

  ghost predicate WellLinked(at: Nodes, v: View) {
    && [] in at && v.Keys == at.Keys
    && (forall p {:trigger NodeOk(at, v, p)} :: p in v ==> NodeOk(at, v, p))
    && (forall p {:trigger LinksOk(at, v, p)} :: p in v ==> LinksOk(at, v, p))
  }

  lemma KidAt(at: Nodes, v: View, p: Path, i: nat)
    requires WellLinked(at, v) && p in v && i < |v[p].kids|
    ensures var x := v[p].kids[i];
      && Sub(p, x) in at && Kid(at, p, v[p].kids, i) == at[Sub(p, x)] && v[Sub(p, x)].name == x
      && LinkOk(at, v, p, v[p].kids, i)
  {
    hide Sub, Ascending, Names;
    var x := v[p].kids[i];
    NamesAt(v[p].kids, i);
    assert NodeOk(at, v, p) && LinksOk(at, v, p);
    assert NodeOk(at, v, Sub(p, x));
    SubOk(p, x);
  }

  lemma KidsDiffer(at: Nodes, v: View, p: Path, i: nat, j: nat)
    requires WellLinked(at, v) && p in v && i < |v[p].kids| && j < |v[p].kids| && i != j
    ensures v[p].kids[i] != v[p].kids[j] && Sub(p, v[p].kids[i]) != Sub(p, v[p].kids[j])
  {
    assert NodeOk(at, v, p);
    BeforeIrreflexive(v[p].kids[i]);
    if Sub(p, v[p].kids[i]) == Sub(p, v[p].kids[j]) { SplitPath(p, v[p].kids[i], p, v[p].kids[j]); }
  }

  lemma NoneBelow(at: Nodes, v: View, q: Path, x: Name)
    requires WellLinked(at, v) && Sub(q, x) in at
    ensures q in at
  {
    hide Sub;
    assert NodeOk(at, v, Sub(q, x));
    SubOk(q, x);
  }

  // ------------------------------------------------------------ adding an entry

  /** The fields after a node `r` was put behind the first `i` entries of `p`. */
  ghost function WithEntry(at: Nodes, v: View, p: Path, i: nat, name: Name, src: Source, r: FsNode): View
    requires p in v && p in at && i <= |v[p].kids|
  {
    var q := Sub(p, name);
    Relinked(v, p, i, name, r)[q := Shape(q, name, src, at[p], null, Kid(at, p, v[p].kids, i), [])]
  }

  /** The fields of the other nodes. */
  ghost function Relinked(v: View, p: Path, i: nat, name: Name, r: FsNode): View
    requires p in v && i <= |v[p].kids|
  {
    var kids := v[p].kids;
    var last := if i == 0 then [] else Sub(p, kids[i - 1]);
    var u := v[p := v[p].(kids := Inserting(kids, i, name), child := if i == 0 then r else v[p].child)];
    if i > 0 && last in u then u[last := u[last].(next := r)] else u
  }

  lemma SubProper(at: Nodes, v: View, p: Path, name: Name)
    requires WellLinked(at, v) && p in v && ProperName(name)
    ensures AllProper(Sub(p, name))
  {
    hide Ascending, Names;
    assert NodeOk(at, v, p);
  }

  ghost predicate EntryFits(at: Nodes, v: View, p: Path, i: nat, name: Name) {
    && p in v && p in at && KindOf(v[p].source) == Dir && Sub(p, name) !in at && i <= |v[p].kids| && ProperName(name)
    && (forall j :: 0 <= j < i ==> Before(v[p].kids[j], name))
    && (i < |v[p].kids| ==> Before(name, v[p].kids[i]))
  }

  lemma NewNodeOk(at: Nodes, v: View, p: Path, i: nat, name: Name, src: Source, r: FsNode)
    requires WellLinked(at, v) && EntryFits(at, v, p, i, name)
    ensures var u, more := WithEntry(at, v, p, i, name, src, r), at[Sub(p, name) := r];
      Sub(p, name) in u && NodeOk(more, u, Sub(p, name))
  {
    SubProper(at, v, p, name);
    hide Sub, Inserting, WellLinked, Ascending, Names, AllProper, Relinked;
    var q := Sub(p, name);
    SubOk(p, name);
    EmptyAscends();
    forall y: Name ensures Sub(q, y) !in at[q := r] {
      SubOk(q, y);
      if Sub(q, y) in at { NoneBelow(at, v, q, y); }
    }
  }

  lemma EntryParentOk(at: Nodes, v: View, p: Path, i: nat, name: Name, src: Source, r: FsNode)
    requires WellLinked(at, v) && EntryFits(at, v, p, i, name)
    ensures var u, more := WithEntry(at, v, p, i, name, src, r), at[Sub(p, name) := r];
      p in u && NodeOk(more, u, p)
  {
    hide Sub, Inserting, Ascending, Names;
    var kids := v[p].kids;
    assert NodeOk(at, v, p);
    Inserted(kids, i, name);
    InsertAt(kids, i, name);
    SubOk(p, name);
    if i > 0 {
      KidAt(at, v, p, i - 1);
      KidAt(at, v, p, 0);
      SubOk(p, kids[i - 1]);
    }
    forall y: Name ensures Sub(p, y) in at[Sub(p, name) := r] <==> Sub(p, y) in at || y == name {
      if Sub(p, y) == Sub(p, name) { SplitPath(p, y, p, name); }
    }
  }

  lemma EntryNodeOk(at: Nodes, v: View, p: Path, i: nat, name: Name, src: Source, r: FsNode, x: Path)
    requires WellLinked(at, v) && EntryFits(at, v, p, i, name) && x in v && x != p
    ensures var u, more := WithEntry(at, v, p, i, name, src, r), at[Sub(p, name) := r];
      x in u && NodeOk(more, u, x)
  {
    hide Sub, Inserting, Ascending, Names;
    assert NodeOk(at, v, x);
    forall y: Name ensures Sub(x, y) != Sub(p, name) { if Sub(x, y) == Sub(p, name) { SplitPath(x, y, p, name); } }
  }

  lemma OtherLinkOk(at: Nodes, v: View, p: Path, i: nat, name: Name, src: Source, r: FsNode, x: Path, j: nat)
    requires WellLinked(at, v) && EntryFits(at, v, p, i, name) && x in v && x != p && j < |v[x].kids|
    ensures var u, more := WithEntry(at, v, p, i, name, src, r), at[Sub(p, name) := r];
      LinkOk(more, u, x, v[x].kids, j)
  {
    hide Sub, Inserting, NodeOk, LinksOk;
    forall y: Name, z: Name ensures Sub(x, y) != Sub(p, z) { if Sub(x, y) == Sub(p, z) { SplitPath(x, y, p, z); } }
    KidAt(at, v, x, j);
    if j + 1 < |v[x].kids| { KidAt(at, v, x, j + 1); }
  }

  lemma OwnLinkOk(at: Nodes, v: View, p: Path, i: nat, name: Name, src: Source, r: FsNode, j: nat)
    requires WellLinked(at, v) && EntryFits(at, v, p, i, name) && j <= |v[p].kids|
    ensures var u, more := WithEntry(at, v, p, i, name, src, r), at[Sub(p, name) := r];
      p in u && LinkOk(more, u, p, u[p].kids, j)
  {
    hide Sub, Inserting, NodeOk, LinksOk, Before;
    var kids := v[p].kids;
    InsertAt(kids, i, name);
    SubOk(p, name);
    if i > 0 {
      KidAt(at, v, p, i - 1);
      SubOk(p, kids[i - 1]);
    }
    if i < |kids| { KidAt(at, v, p, i); }
    if j < i {
      KidAt(at, v, p, j);
      if j + 1 < i {
        KidAt(at, v, p, j + 1);
        KidsDiffer(at, v, p, j, i - 1);
      }
    } else if j > i {
      KidAt(at, v, p, j - 1);
      if j < |kids| { KidAt(at, v, p, j); }
      if i > 0 {
        KidsDiffer(at, v, p, j - 1, i - 1);
      }
    }
  }

  lemma EntryLinksOk(at: Nodes, v: View, p: Path, i: nat, name: Name, src: Source, r: FsNode, x: Path)
    requires WellLinked(at, v) && EntryFits(at, v, p, i, name)
    requires x in v || x == Sub(p, name)
    ensures var u, more := WithEntry(at, v, p, i, name, src, r), at[Sub(p, name) := r];
      x in u && LinksOk(more, u, x)
  {
    hide Sub, Inserting, NodeOk, LinkOk, Before;
    var u, more := WithEntry(at, v, p, i, name, src, r), at[Sub(p, name) := r];
    SubOk(p, name);
    InsertAt(v[p].kids, i, name);
    if i > 0 { KidAt(at, v, p, i - 1); SubOk(p, v[p].kids[i - 1]); }
    if x == p {
      forall j | 0 <= j < |u[p].kids| ensures LinkOk(more, u, p, u[p].kids, j) {
        OwnLinkOk(at, v, p, i, name, src, r, j);
      }
    } else if x != Sub(p, name) {
      forall j | 0 <= j < |v[x].kids| ensures LinkOk(more, u, x, v[x].kids, j) {
        OtherLinkOk(at, v, p, i, name, src, r, x, j);
      }
    }
  }

  /** Putting an entry where it belongs keeps the tree well linked. */
  lemma EntryKeepsLinks(at: Nodes, v: View, p: Path, i: nat, name: Name, src: Source, r: FsNode)
    requires WellLinked(at, v) && EntryFits(at, v, p, i, name)
    ensures WellLinked(at[Sub(p, name) := r], WithEntry(at, v, p, i, name, src, r))
  {
    hide NodeOk, LinksOk, Sub, Inserting, Before;
    var u, more := WithEntry(at, v, p, i, name, src, r), at[Sub(p, name) := r];
    if i > 0 { KidAt(at, v, p, i - 1); }
    assert u.Keys == more.Keys;
    forall x | x in u ensures NodeOk(more, u, x) && LinksOk(more, u, x) {
      if x == p {
        EntryParentOk(at, v, p, i, name, src, r);
      } else if x in v {
        EntryNodeOk(at, v, p, i, name, src, r, x);
      } else {
        NewNodeOk(at, v, p, i, name, src, r);
      }
      EntryLinksOk(at, v, p, i, name, src, r, x);
    }
  }

  // ------------------------------------------------------------ changing a source

  predicate Below(p: Path, q: Path) {
    p < q
  }

  predicate Within(p: Path, q: Path) {
    p <= q
  }

  lemma NotBelowSelf(p: Path)
    ensures !Below(p, p)
  {
  }

  lemma NotBelowRoot(p: Path)
    ensures !Below(p, [])
  {
  }

  lemma ParentSub(p: Path)
    requires p != []
    ensures Sub(Parent(p), p[|p| - 1]) == p
  {
  }

  ghost function Left(all: set<Path>, p: Path): set<Path> {
    set q | q in all && !Below(p, q)
  }

  ghost function Keep<V>(m: map<Path, V>, left: set<Path>): map<Path, V> {
    map q | q in m && q in left :: m[q]
  }

  ghost function NodesWithout(at: Nodes, p: Path): Nodes {
    Keep(at, Left(at.Keys, p))
  }

  lemma KeepsSelf(at: Nodes, p: Path)
    requires p in at && [] in at
    ensures var less := NodesWithout(at, p);
      p in less && less[p] == at[p] && [] in less && less[[]] == at[[]]
  {
    NotBelowSelf(p);
    NotBelowRoot(p);
  }

  /** The fields after the source of `p` was set: a node that is no directory loses its
      entries. */
  ghost function WithSource(v: View, p: Path, s: Source): View
    requires p in v
  {
    if KindOf(s) == Dir then v[p := v[p].(source := s)]
    else Pruned(v[p := v[p].(source := s)], p)
  }

  ghost function Pruned(v: View, p: Path): View
    requires p in v
  {
    Keep(v[p := v[p].(child := null, kids := [])], Left(v.Keys, p))
  }

  lemma BelowKid(p: Path, x: Path, y: Name)
    requires p < Sub(x, y)
    ensures p <= x
  {
    assert Sub(x, y)[..|x|] == x;
  }

  lemma BelowParent(p: Path, x: Path)
    requires x != [] && p < Parent(x)
    ensures p < x
  {
  }

  lemma CutNodeOk(at: Nodes, v: View, p: Path, s: Source, x: Path)
    requires WellLinked(at, v) && p in v && KindOf(s) != Dir && x in v && !(p < x)
    ensures NodeOk(NodesWithout(at, p), WithSource(v, p, s), x)
  {
    hide Sub, Ascending, KindOf, Names;
    var less := NodesWithout(at, p);
    assert NodeOk(at, v, x);
    if x != [] && p < Parent(x) { BelowParent(p, x); }
    forall y: Name ensures Sub(x, y) in less <==> Sub(x, y) in at && x != p {
      SubOk(x, y);
      if p < Sub(x, y) { BelowKid(p, x, y); }
    }
    EmptyAscends();
  }

  lemma EmptyAscends()
    ensures Ascending([]) && Names([]) == {}
  {
  }

  lemma CutLinksOk(at: Nodes, v: View, p: Path, s: Source, x: Path)
    requires WellLinked(at, v) && p in v && KindOf(s) != Dir && x in v && !(p < x)
    ensures LinksOk(NodesWithout(at, p), WithSource(v, p, s), x)
  {
    hide Sub, NodeOk, KindOf;
    var u, less := WithSource(v, p, s), NodesWithout(at, p);
    if x != p {
      forall y: Name ensures !(p < Sub(x, y)) { if p < Sub(x, y) { BelowKid(p, x, y); } }
      forall j | 0 <= j < |v[x].kids| ensures LinkOk(less, u, x, v[x].kids, j) {
        KidAt(at, v, x, j);
        if j + 1 < |v[x].kids| { KidAt(at, v, x, j + 1); }
      }
    }
  }

  /** Setting a source keeps the tree well linked. */
  lemma SourceKeepsLinks(at: Nodes, v: View, p: Path, s: Source)
    requires WellLinked(at, v) && p in v
    ensures WellLinked(if KindOf(s) == Dir then at else NodesWithout(at, p), WithSource(v, p, s))
  {
    hide Sub, Ascending, Names;
    var u := WithSource(v, p, s);
    if KindOf(s) == Dir {
      forall x | x in u ensures NodeOk(at, u, x) && LinksOk(at, u, x) {
        assert NodeOk(at, v, x) && LinksOk(at, v, x);
        forall j | 0 <= j < |v[x].kids| ensures LinkOk(at, u, x, v[x].kids, j) {
          assert LinkOk(at, v, x, v[x].kids, j);
        }
      }
    } else {
      hide NodeOk, LinksOk;
      assert u.Keys == NodesWithout(at, p).Keys;
      forall x | x in u ensures NodeOk(NodesWithout(at, p), u, x) && LinksOk(NodesWithout(at, p), u, x) {
        CutNodeOk(at, v, p, s, x);
        CutLinksOk(at, v, p, s, x);
      }
    }
  }

  // ------------------------------------------------------------ removing an entry

  ghost function NodesMinus(at: Nodes, q: Path): Nodes {
    Keep(at, Others(at.Keys, q))
  }

  ghost function Others(all: set<Path>, q: Path): set<Path> {
    set x | x in all && !Within(q, x)
  }

  /** The fields after the i-th entry of `p` was taken out of the list. */
  ghost function WithoutEntry(at: Nodes, v: View, p: Path, i: nat): View
    requires p in v && i < |v[p].kids|
  {
    var kids := v[p].kids;
    var following := Kid(at, p, kids, i + 1);
    var dir := v[p].(kids := Dropping(kids, i), child := if i == 0 then following else v[p].child);
    var last := if i == 0 then [] else Sub(p, kids[i - 1]);
    var u := v[p := dir];
    Keep(if i > 0 && last in u then u[last := u[last].(next := following)] else u, Others(v.Keys, Sub(p, kids[i])))
  }

  lemma AbovePrefix(q: Path, x: Path)
    requires x != []
    ensures q <= Parent(x) ==> q < x
  {
  }

  /** Only one entry goes, with all below it. */
  lemma KidGone(at: Nodes, p: Path, k: Name, x: Path, y: Name)
    requires !(Sub(p, k) <= x)
    ensures Sub(p, k) <= Sub(x, y) <==> x == p && y == k
  {
    var q := Sub(p, k);
    if q <= Sub(x, y) {
      if q != Sub(x, y) { BelowKid(q, x, y); } else { SplitPath(p, k, x, y); }
    }
  }

  lemma NotBelowParent(p: Path, k: Name)
    ensures !(Sub(p, k) <= p)
  {
  }

  lemma UnlinkParentOk(at: Nodes, v: View, p: Path, i: nat)
    requires WellLinked(at, v) && p in v && i < |v[p].kids|
    ensures var u, less := WithoutEntry(at, v, p, i), NodesMinus(at, Sub(p, v[p].kids[i]));
      p in u && NodeOk(less, u, p)
  {
    hide Sub, Dropping, Ascending, Names;
    var kids := v[p].kids;
    var less := NodesMinus(at, Sub(p, kids[i]));
    assert NodeOk(at, v, p);
    NotBelowParent(p, kids[i]);
    Dropped(kids, i);
    DropAt(kids, i);
    forall y: Name ensures Sub(p, y) in less <==> Sub(p, y) in at && y != kids[i] { KidGone(at, p, kids[i], p, y); }
    if i > 0 {
      KidAt(at, v, p, i - 1);
      KidsDiffer(at, v, p, i, i - 1);
      KidsDiffer(at, v, p, i, 0);
      SubOk(p, kids[i - 1]);
    } else if |kids| > 1 {
      KidsDiffer(at, v, p, 0, 1);
    }
    if p != [] { AbovePrefix(Sub(p, kids[i]), p); }
  }

  lemma UnlinkNodeOk(at: Nodes, v: View, p: Path, i: nat, x: Path)
    requires WellLinked(at, v) && p in v && i < |v[p].kids| && x in v && !(Sub(p, v[p].kids[i]) <= x) && x != p
    ensures var u, less := WithoutEntry(at, v, p, i), NodesMinus(at, Sub(p, v[p].kids[i]));
      x in u && NodeOk(less, u, x)
  {
    hide Sub, Dropping, Ascending, Names;
    var kids := v[p].kids;
    var less := NodesMinus(at, Sub(p, kids[i]));
    assert NodeOk(at, v, x);
    if x != [] { AbovePrefix(Sub(p, kids[i]), x); }
    forall y: Name ensures Sub(x, y) in less <==> Sub(x, y) in at { KidGone(at, p, kids[i], x, y); }
  }

  lemma UnlinkOwnLinkOk(at: Nodes, v: View, p: Path, i: nat, j: nat)
    requires WellLinked(at, v) && p in v && i < |v[p].kids| && j < |v[p].kids| - 1
    ensures var u, less := WithoutEntry(at, v, p, i), NodesMinus(at, Sub(p, v[p].kids[i]));
      p in u && LinkOk(less, u, p, u[p].kids, j)
  {
    hide Sub, Dropping, NodeOk, LinksOk;
    var kids := v[p].kids;
    NotBelowParent(p, kids[i]);
    DropAt(kids, i);
    forall y: Name ensures Sub(p, kids[i]) <= Sub(p, y) <==> y == kids[i] { KidGone(at, p, kids[i], p, y); }
    var k := if j < i then j else j + 1;
    KidAt(at, v, p, k);
    KidsDiffer(at, v, p, i, k);
    if i > 0 {
      KidAt(at, v, p, i - 1);
      KidsDiffer(at, v, p, i, i - 1);
      SubOk(p, kids[i - 1]);
      if k != i - 1 {
        KidsDiffer(at, v, p, k, i - 1);
      }
    }
    var l := if j + 1 < i then j + 1 else j + 2;
    if l < |kids| {
      KidAt(at, v, p, l);
      KidsDiffer(at, v, p, i, l);
    }
  }

  lemma UnlinkOtherLinkOk(at: Nodes, v: View, p: Path, i: nat, x: Path, j: nat)
    requires WellLinked(at, v) && p in v && i < |v[p].kids| && x in v && !(Sub(p, v[p].kids[i]) <= x) && x != p
    requires j < |v[x].kids|
    ensures var u, less := WithoutEntry(at, v, p, i), NodesMinus(at, Sub(p, v[p].kids[i]));
      LinkOk(less, u, x, v[x].kids, j)
  {
    hide Sub, Dropping, NodeOk, LinksOk;
    forall y: Name ensures !(Sub(p, v[p].kids[i]) <= Sub(x, y)) { KidGone(at, p, v[p].kids[i], x, y); }
    forall y: Name, z: Name ensures Sub(x, y) != Sub(p, z) { if Sub(x, y) == Sub(p, z) { SplitPath(x, y, p, z); } }
    KidAt(at, v, x, j);
    if j + 1 < |v[x].kids| { KidAt(at, v, x, j + 1); }
  }

  lemma UnlinkKeys(at: Nodes, v: View, p: Path, i: nat)
    requires WellLinked(at, v) && p in v && i < |v[p].kids|
    ensures var u, less := WithoutEntry(at, v, p, i), NodesMinus(at, Sub(p, v[p].kids[i]));
      && u.Keys == less.Keys && [] in less && p in u && |u[p].kids| == |v[p].kids| - 1
      && forall x :: x in u && x != p ==> x in v && !Within(Sub(p, v[p].kids[i]), x) && u[x].kids == v[x].kids
  {
    hide Dropping, NodeOk, LinksOk, Sub, Within, Kid;
    var kids := v[p].kids;
    DropAt(kids, i);
    ParentOutside(p, kids[i]);
    RootOutside(p, kids[i]);
    if i > 0 { KidAt(at, v, p, i - 1); SubOk(p, kids[i - 1]); }
  }

  /** Taking an entry out of the list keeps the tree well linked. */
  lemma UnlinkKeepsLinks(at: Nodes, v: View, p: Path, i: nat)
    requires WellLinked(at, v) && p in v && i < |v[p].kids|
    ensures WellLinked(NodesMinus(at, Sub(p, v[p].kids[i])), WithoutEntry(at, v, p, i))
  {
    hide Sub, NodeOk, LinkOk, WithoutEntry, NodesMinus;
    var u, less := WithoutEntry(at, v, p, i), NodesMinus(at, Sub(p, v[p].kids[i]));
    UnlinkKeys(at, v, p, i);
    UnlinkParentOk(at, v, p, i);
    forall j | 0 <= j < |u[p].kids| ensures LinkOk(less, u, p, u[p].kids, j) { UnlinkOwnLinkOk(at, v, p, i, j); }
    forall x | x in u && x != p ensures NodeOk(less, u, x) && LinksOk(less, u, x) {
      UnlinkNodeOk(at, v, p, i, x);
      forall j | 0 <= j < |v[x].kids| ensures LinkOk(less, u, x, v[x].kids, j) { UnlinkOtherLinkOk(at, v, p, i, x, j); }
    }
  }

  // -------------------------------------------------------------- the file system

  lemma RootAlone(r: FsNode, s: Shape)
    requires s == Shape([], ".", ParentDir, null, null, null, [])
    ensures WellLinked(map[[] := r], map[[] := s])
  {
    hide Sub, Ascending, Names;
    EmptyAscends();
    forall x: Name ensures Sub([], x) != [] { SubOk([], x); }
  }

  lemma DirKind(a: FileAttrs, now: int)
    ensures KindOf(NewDir(a, now)) == Dir
  {
  }

  lemma DirSource(t: T.Tree, p: Path, s: Source)
    requires KindOf(s) == Dir
    ensures T.SetSource(t, p, s) == t[p := s]
  {
  }

  ghost function TreeOf(v: View): T.Tree {
    map p | p in v :: v[p].source
  }

  lemma TreeWithEntry(at: Nodes, v: View, p: Path, i: nat, name: Name, src: Source, r: FsNode)
    requires p in v && p in at && i <= |v[p].kids|
    ensures TreeOf(WithEntry(at, v, p, i, name, src, r)) == TreeOf(v)[Sub(p, name) := src]
  {
  }

  lemma RootStays(at: Nodes, v: View, p: Path, i: nat, name: Name, src: Source, r: FsNode)
    requires p in v && p in at && i <= |v[p].kids| && [] in v && [] in at
    ensures var u := WithEntry(at, v, p, i, name, src, r);
      [] in u && u[[]].source == v[[]].source && Sub(p, name) != []
  {
    SubOk(p, name);
    if i > 0 { SubOk(p, v[p].kids[i - 1]); }
  }

  lemma RootLeft(at: Nodes, v: View, p: Path, i: nat)
    requires p in v && i < |v[p].kids| && [] in v && v.Keys == at.Keys
    ensures var less, u := NodesMinus(at, Sub(p, v[p].kids[i])), WithoutEntry(at, v, p, i);
      [] in less && less[[]] == at[[]] && [] in u && u[[]].source == v[[]].source
  {
    hide Dropping;
  }

  /** The tree without a node and all below it. */
  ghost function Without(t: T.Tree, q: Path): T.Tree {
    map x | x in t && !Within(q, x) :: t[x]
  }

  lemma TreeWithoutEntry(at: Nodes, v: View, p: Path, i: nat)
    requires p in v && i < |v[p].kids|
    ensures TreeOf(WithoutEntry(at, v, p, i)) == Without(TreeOf(v), Sub(p, v[p].kids[i]))
  {
    hide Sub, Within, Dropping;
  }

  lemma Gone(at: Nodes, q: Path)
    ensures q !in NodesMinus(at, q)
  {
  }

  lemma TreeWithSource(v: View, p: Path, s: Source)
    requires p in v
    ensures TreeOf(WithSource(v, p, s)) == T.SetSource(TreeOf(v), p, s)
  {
  }

  class FileSystem {
    var root: FsNode
    ghost var at: Nodes
    ghost var nodes: set<FsNode>

    ghost predicate Owns()
      reads this
    {
      forall p {:trigger at[p]} :: p in at ==> at[p] in nodes
    }

    ghost function Seen(): View
      reads this, nodes
    {
      map p | p in at && at[p] in nodes :: Look(at[p])
    }

    ghost predicate Valid()
      reads this, nodes
    {
      Owns() && WellLinked(at, Seen()) && at[[]] == root
    }

    ghost predicate Has(n: FsNode)
      reads this, n
    {
      n in nodes && n.path in at && at[n.path] == n
    }

    /** Every node is where it says it is. */
    ghost predicate Placed()
      reads this, nodes
    {
      Owns() && forall p {:trigger at[p]} :: p in at ==> at[p].path == p
    }

    lemma Places()
      requires Valid()
      ensures Placed()
    {
      forall p | p in at ensures at[p].path == p { assert NodeOk(at, Seen(), p); }
    }

    /** newFS. */
    constructor ()
      ensures Valid() && fresh(nodes) && at == map[[] := root] && root.source == ParentDir
    {
      root := new FsNode(".", ParentDir, null, null, []);
      at, nodes := map[[] := root], {root};
      new;
      hide WellLinked;
      RootAlone(root, Look(root));
      assert Seen() == map[[] := Look(root)];
    }

    /** The tree that the nodes stand for. */
    ghost function Tree(): T.Tree
      reads this, nodes
    {
      TreeOf(Seen())
    }

    lemma ParentIsDir(p: Path)
      requires Valid() && p in at && p != []
      ensures Parent(p) in at && KindOf(at[Parent(p)].source) == Dir
    {
      hide Sub, Ascending;
      assert NodeOk(at, Seen(), p) && NodeOk(at, Seen(), Parent(p));
      ParentSub(p);
      assert p[|p| - 1] in Names(at[Parent(p)].kids);
    }

    lemma {:induction false} TopIsDir(p: Path)
      requires Valid() && p in at && p != []
      ensures KindOf(root.source) == Dir
      decreases |p|
    {
      hide WellLinked, KindOf;
      ParentIsDir(p);
      if Parent(p) != [] { TopIsDir(Parent(p)); }
    }

    lemma TreeValid()
      requires Valid()
      ensures Rooted(Tree())
    {
      hide WellLinked, KindOf;
      forall p {:trigger Parent(p)} | p in at && p != []
        ensures Parent(p) in at && KindOf(at[Parent(p)].source) == Dir
      {
        ParentIsDir(p);
      }
      TreeKeys();
      RootHas();
      if p :| p in at && p != [] {
        TopIsDir(p);
      } else {
        assert Tree().Keys == {[]};
      }
    }

    /** Path. */
    method Path(f: FsNode) returns (p: Path)
      requires Valid() && Has(f)
      ensures p == f.path
      decreases |f.path|
    {
      hide Sub, Ascending, Names;
      assert NodeOk(at, Seen(), f.path);
      if f.parent == null { return []; }
      assert NodeOk(at, Seen(), Parent(f.path));
      p := Path(f.parent);
      p := p + [f.name];
    }

    /** findChild: the walk along the list may stop at the first greater name. */
    method FindChild(f: FsNode, name: Name) returns (c: FsNode?)
      requires Valid() && Has(f)
      ensures name == "." || name == "/" ==> c == f
      ensures name != "." && name != "/" ==> c == if Sub(f.path, name) in at then at[Sub(f.path, name)] else null
    {
      hide Sub, Ascending, Names;
      if name == "." || name == "/" { return f; }
      ghost var p, kids, i, v := f.path, f.kids, 0, Seen();
      assert NodeOk(at, v, p);
      hide NodeOk, LinksOk;
      c := f.child;
      while c != null
        invariant i <= |kids| && c == Kid(at, p, kids, i)
        invariant forall j :: 0 <= j < i ==> Before(kids[j], name)
        decreases |kids| - i
      {
        KidAt(at, v, p, i);
        if c.name == name { return c; }
        BeforeTotal(c.name, name);
        if Before(name, c.name) {
          NotAmong(kids, i, name);
          return null;
        }
        c, i := c.next, i + 1;
      }
      if i < |kids| { KidAt(at, v, p, i); }
      NotAmong(kids, i, name);
    }

    /** Where newEntry puts a name: behind `last` and before `c`. */
    method FindPlace(f: FsNode, name: Name) returns (last: FsNode?, c: FsNode?, ghost i: nat)
      requires Valid() && Has(f) && Sub(f.path, name) !in at && KindOf(f.source) == Dir && ProperName(name)
      ensures EntryFits(at, Seen(), f.path, i, name) && c == Kid(at, f.path, f.kids, i)
      ensures if i == 0 then last == null else last != null && last == Kid(at, f.path, f.kids, i - 1)
    {
      hide Sub, Ascending, Names;
      ghost var p, kids, v := f.path, f.kids, Seen();
      assert NodeOk(at, v, p);
      hide LinksOk;
      last, c, i := null, f.child, 0;
      while c != null
        invariant i <= |kids| && c == Kid(at, p, kids, i)
        invariant if i == 0 then last == null else last != null && last == Kid(at, p, kids, i - 1)
        invariant forall j :: 0 <= j < i ==> Before(kids[j], name)
        decreases |kids| - i
      {
        KidAt(at, v, p, i);
        if Before(name, c.name) { return; }
        BeforeTotal(c.name, name);
        NamesAt(kids, i);
        last, c, i := c, c.next, i + 1;
      }
      if i < |kids| { KidAt(at, v, p, i); }
    }

    method SetEntries(f: FsNode, c: FsNode?, ghost names: seq<Name>)
      requires Placed() && Has(f)
      modifies f`child, f`kids
      ensures Placed() && Has(f) && f.child == c
      ensures Seen() == old(Seen())[f.path := old(Look(f)).(child := c, kids := names)]
    {
      f.child := c;
      f.kids := names;
      ghost var u := old(Seen())[f.path := old(Look(f)).(child := c, kids := names)];
      forall x | x in at ensures x in u && Look(at[x]) == u[x] {
        if x != f.path { assert at[x] != f; }
      }
      assert Seen().Keys == u.Keys;
    }

    method SetNext(f: FsNode, c: FsNode?)
      requires Placed() && Has(f)
      modifies f`next
      ensures Placed() && Seen() == old(Seen())[f.path := old(Look(f)).(next := c)]
    {
      f.next := c;
      ghost var u := old(Seen())[f.path := old(Look(f)).(next := c)];
      forall x | x in at ensures x in u && Look(at[x]) == u[x] {
        if x != f.path { assert at[x] != f; }
      }
      assert Seen().Keys == u.Keys;
    }

    ghost method Attach(r: FsNode)
      requires Placed() && r !in nodes && r.path !in at
      modifies this`at, this`nodes
      ensures Owns() && nodes == old(nodes) + {r} && at == old(at)[r.path := r]
      ensures Seen() == old(Seen())[r.path := Look(r)]
    {
      at, nodes := at[r.path := r], nodes + {r};
      ghost var u := old(Seen())[r.path := Look(r)];
      assert Seen().Keys == u.Keys;
    }

    /** The assignments of newEntry to the nodes around the new one. */
    method Relink(f: FsNode, ghost name: Name, last: FsNode?, r: FsNode, ghost i: nat)
      requires Placed() && Has(f) && i <= |f.kids| && r !in nodes
      requires if i == 0 then last == null
               else Sub(f.path, f.kids[i - 1]) in at && last == at[Sub(f.path, f.kids[i - 1])]
      modifies nodes`child, nodes`kids, nodes`next
      ensures Placed() && Seen() == Relinked(old(Seen()), f.path, i, name, r) && Look(r) == old(Look(r))
    {
      hide Sub, Inserting;
      if i > 0 {
        SubOk(f.path, f.kids[i - 1]);
        assert last.path == Sub(f.path, f.kids[i - 1]);
      }
      var first := if last == null then r else f.child;
      SetEntries(f, first, Inserting(f.kids, i, name));
      if last != null { SetNext(last, r); }
    }

    /** The assignments of newEntry. */
    method Insert(f: FsNode, name: Name, src: Source, last: FsNode?, c: FsNode?, ghost i: nat) returns (r: FsNode)
      requires Placed() && Has(f) && i <= |f.kids| && Sub(f.path, name) !in at && c == Kid(at, f.path, f.kids, i)
      requires if i == 0 then last == null
               else Sub(f.path, f.kids[i - 1]) in at && last == at[Sub(f.path, f.kids[i - 1])]
      modifies this`at, this`nodes, nodes`child, nodes`kids, nodes`next
      ensures fresh(r) && Owns() && nodes == old(nodes) + {r} && at == old(at)[Sub(f.path, name) := r]
      ensures Seen() == WithEntry(old(at), old(Seen()), f.path, i, name, src, r)
    {
      hide Sub, Kid, Relinked;
      ghost var v := Seen();
      r := new FsNode(name, src, f, c, Sub(f.path, name));
      assert Seen() == v;
      Relink(f, name, last, r, i);
      Attach(r);
    }

    /** newEntry and the SetSource that follows it: the list stays in order. */
    method NewEntry(f: FsNode, name: Name, src: Source) returns (r: FsNode)
      requires Valid() && Has(f) && KindOf(f.source) == Dir && Sub(f.path, name) !in at && ProperName(name)
      modifies this`at, this`nodes, nodes`child, nodes`kids, nodes`next
      ensures Valid() && fresh(r) && nodes == old(nodes) + {r} && at == old(at)[Sub(f.path, name) := r]
      ensures Tree() == old(Tree())[Sub(f.path, name) := src]
    {
      hide Sub, NodeOk, LinksOk, Inserting, Before;
      Places();
      var last, c, i := FindPlace(f, name);
      ghost var v, more := Seen(), at;
      if i > 0 { KidAt(at, v, f.path, i - 1); }
      hide WithEntry, EntryFits, TreeOf;
      r := Insert(f, name, src, last, c, i);
      EntryKeepsLinks(more, v, f.path, i, name, src, r);
      TreeWithEntry(more, v, f.path, i, name, src, r);
      RootStays(more, v, f.path, i, name, src, r);
    }

    method Assign(f: FsNode, src: Source)
      requires Placed() && Has(f)
      modifies f`source
      ensures Placed() && Has(f) && Seen() == old(Seen())[f.path := old(Look(f)).(source := src)]
    {
      f.source := src;
      ghost var u := old(Seen())[f.path := old(Look(f)).(source := src)];
      forall x | x in at ensures x in u && Look(at[x]) == u[x] {
        if x != f.path { assert at[x] != f; }
      }
      assert Seen().Keys == u.Keys;
    }

    /** The other nodes are no longer part of the tree. */
    ghost method Detach(left: set<Path>)
      requires Placed()
      modifies this`at
      ensures Placed() && at == Keep(old(at), left) && Seen() == Keep(old(Seen()), left)
    {
      at := Keep(at, left);
      assert Seen().Keys == Keep(old(Seen()), left).Keys;
    }

    /** SetSource. */
    method SetSource(f: FsNode, src: Source)
      requires Valid() && Has(f)
      modifies this`at, f`source, f`child, f`kids
      ensures Valid() && Has(f) && Tree() == T.SetSource(old(Tree()), f.path, src)
      ensures at == if KindOf(src) == Dir then old(at) else NodesWithout(old(at), f.path)
    {
      hide NodeOk, LinksOk, KindOf, Below;
      Places();
      ghost var v, p := Seen(), f.path;
      SourceKeepsLinks(at, v, p, src);
      TreeWithSource(v, p, src);
      hide WellLinked, TreeOf, Keep, Left;
      Assign(f, src);
      if KindOf(src) != Dir {
        SetEntries(f, null, []);
        KeepsSelf(at, p);
        assert Seen().Keys == at.Keys;
        Detach(Left(at.Keys, p));
      }
    }

    /** A node becomes a directory, or stays one. */
    method Reopen(f: FsNode, src: Source)
      requires Valid() && Has(f) && KindOf(src) == Dir
      modifies this`at, f`source, f`child, f`kids
      ensures Valid() && Has(f) && at == old(at) && Tree() == old(Tree())[f.path := src]
    {
      hide WellLinked, KindOf, TreeOf;
      SetSource(f, src);
      DirSource(old(Tree()), f.path, src);
    }

    /** The walkers' Visit. */
    method Visit(f: FsNode, w: Walker)
      requires Valid() && Has(f)
      modifies this`at, f`source, f`child, f`kids
      ensures Valid() && Has(f) && at == old(at) && f.path in old(Tree())
      ensures Tree() == PathWalk.Visit(old(Tree()), f.path, w)
    {
      hide WellLinked, KindOf, TreeOf, NewDir, Info;
      SourceAt(f);
      if !w.Lookup? {
        DirKind(DIR_ATTRS, w.now);
        DirKind(Info(f.source).attrs, w.now);
        if KindOf(f.source) != Dir {
          Reopen(f, NewDir(DIR_ATTRS, w.now));
        } else if w.MkdirsUpper? && (IsLower(f.source) || f.parent == null) {
          Reopen(f, NewDir(Info(f.source).attrs, w.now));
        }
      }
    }

    lemma SourceAt(f: FsNode)
      requires Valid() && Has(f)
      ensures f.path in Tree() && Tree()[f.path] == f.source && (f.parent == null <==> f.path == [])
      ensures f.path != [] ==> Parent(f.path) in at && f.parent == at[Parent(f.path)] && f.name == f.path[|f.path| - 1]
    {
      hide Sub, Ascending, Names;
      assert NodeOk(at, Seen(), f.path);
    }

    /** walkPath with a walker, `depth` bounding how deep symlink resolutions nest: it ends
        where the walk over the tree as a value ends, and leaves the same tree. A walk that
        fails leaves what it created. */
    method WalkPath(f: FsNode, ups: nat, names: seq<Name>, w: Walker, depth: nat)
      returns (r: FsNode?, ghost why: Failure)
      requires Valid() && Has(f) && AllProper(names)
      modifies this`at, this`nodes, nodes`source, nodes`child, nodes`kids, nodes`next
      ensures Valid() && nodes >= old(nodes) && fresh(nodes - old(nodes)) && f.path in old(Tree())
      ensures var o := Walk(old(Tree()), f.path, ups, names, w, depth);
        if r == null then o == Failed(why) else Has(r) && o == At(Tree(), r.path) && KindOf(r.source) != Symlink
      ensures Grown(old(at), at) && Passed(old(Tree()), Tree(), w)
      decreases depth, ups + |names|, 1
    {
      hide WellLinked, TreeOf, KindOf, Resolve, Onward, Passed;
      SourceAt(f);
      ghost var t := Tree();
      r, why := Follow(f, w, depth);
      if r != null {
        ghost var u := Tree();
        r, why := StepOn(r, ups, names, w, depth);
        PassedOn(t, u, Tree(), w);
      }
    }

    /** walkPath along the text of a path: unless it meets a symlink it ends where the
        segments of the path, taken one by one, lead to. */
    method WalkText(f: FsNode, s: string, w: Walker, depth: nat) returns (r: FsNode?, ghost why: Failure)
      requires Valid() && Has(f)
      modifies this`at, this`nodes, nodes`source, nodes`child, nodes`kids, nodes`next
      ensures Valid() && nodes >= old(nodes) && fresh(nodes - old(nodes)) && f.path in old(Tree())
      ensures r != null ==> Has(r) && KindOf(r.source) != Symlink
      ensures (KindOf(old(Tree())[f.path]) != Symlink || Absolute(s)) && PlainWay(old(Tree()), f.path, s) ==>
        EndsAtTarget(old(Tree()), f.path, s, w, if r == null then Failed(why) else At(Tree(), r.path))
      ensures Grown(old(at), at) && Passed(old(Tree()), Tree(), w)
    {
      hide WellLinked, TreeOf, KindOf, Clean, Walk, Passed, EndsAtTarget, PlainWay;
      SourceAt(f);
      TreeValid();
      assert Nested(Tree());
      RootHas();
      CleanProper(s);
      CleanEnds(f.path, s);
      var c := Clean(s);
      ghost var t := Tree();
      if (KindOf(t[f.path]) != Symlink || Absolute(s)) && PlainWay(t, f.path, s) {
        WalkEndsAtTarget(t, f.path, s, w, depth);
      }
      r, why := WalkPath(if c.abs then root else f, c.ups, c.names, w, depth);
    }

    /** The target if the node is a symlink. */
    method Follow(f: FsNode, w: Walker, depth: nat) returns (r: FsNode?, ghost why: Failure)
      requires Valid() && Has(f)
      modifies this`at, this`nodes, nodes`source, nodes`child, nodes`kids, nodes`next
      ensures Valid() && nodes >= old(nodes) && fresh(nodes - old(nodes)) && f.path in old(Tree())
      ensures var o := Resolve(old(Tree()), f.path, w, depth);
        if r == null then o == Failed(why) else Has(r) && o == At(Tree(), r.path) && KindOf(r.source) != Symlink
      ensures Grown(old(at), at) && Passed(old(Tree()), Tree(), w)
      decreases depth, 0, 0
    {
      hide WellLinked, TreeOf, KindOf, Clean, Info, Walk, Passed;
      SourceAt(f);
      NothingPassed(Tree(), w);
      if KindOf(f.source) != Symlink { return f, NotFound; }
      if depth == 0 { return null, TooDeep; }
      if f.parent == null { return null, NilParent; }
      var link := Clean(Info(f.source).attrs.symlink);
      CleanProper(Info(f.source).attrs.symlink);
      StartHas(f);
      r, why := WalkPath(if link.abs then root else f.parent, link.ups, link.names, w, depth - 1);
    }

    /** The entry of that name, which the walkers that make directories create. */
    method EnterChild(f: FsNode, name: Name, w: Walker) returns (c: FsNode?)
      requires Valid() && Has(f) && ProperName(name) && (!w.Lookup? ==> KindOf(f.source) == Dir)
      modifies this`at, this`nodes, nodes`child, nodes`kids, nodes`next
      ensures Valid() && nodes >= old(nodes) && fresh(nodes - old(nodes))
      ensures Grown(old(at), at)
      ensures c == null <==> w.Lookup? && f.path + [name] !in old(Tree())
      ensures c != null ==> Has(c) && c.path == f.path + [name]
      ensures Tree() == if c == null || f.path + [name] in old(Tree()) then old(Tree())
                        else old(Tree())[f.path + [name] := NewDir(DIR_ATTRS, w.now)]
    {
      hide WellLinked, TreeOf, KindOf, NewDir;
      TreeKeys();
      Places();
      c := FindChild(f, name);
      if c == null && !w.Lookup? {
        c := NewEntry(f, name, NewDir(DIR_ATTRS, w.now));
        Places();
      }
      if c != null { assert at[Sub(f.path, name)] == c; }
    }

    /** The visit of a node and the next step of the path. */
    method StepOn(f: FsNode, ups: nat, names: seq<Name>, w: Walker, depth: nat) returns (r: FsNode?, ghost why: Failure)
      requires Valid() && Has(f) && AllProper(names) && KindOf(f.source) != Symlink
      modifies this`at, this`nodes, nodes`source, nodes`child, nodes`kids, nodes`next
      ensures Valid() && nodes >= old(nodes) && fresh(nodes - old(nodes)) && f.path in old(Tree())
      ensures var o := Onward(old(Tree()), f.path, ups, names, w, depth);
        if r == null then o == Failed(why) else Has(r) && o == At(Tree(), r.path) && KindOf(r.source) != Symlink
      ensures Grown(old(at), at) && Passed(old(Tree()), Tree(), w)
      decreases depth, ups + |names|, 0
    {
      hide WellLinked, TreeOf, KindOf, PathWalk.Visit, Walk, Passed, ProperName, NewDir, Grown;
      SourceAt(f);
      VisitPasses(Tree(), f.path, w);
      GrownSelf(at);
      Visit(f, w);
      SourceAt(f);
      ghost var t, u := old(Tree()), Tree();
      if ups > 0 {
        if f.parent == null { return null, OutsideRoot; }
        StartHas(f);
        TreeKeys();
        r, why := WalkPath(f.parent, ups - 1, names, w, depth);
        PassedOn(t, u, Tree(), w);
      } else if names == [] {
        r, why := f, NotFound;
      } else {
        assert ProperName(names[0]);
        if !w.Lookup? { MadeDir(old(Tree()), f.path, w); }
        var c := EnterChild(f, names[0], w);
        if c == null { return null, NotFound; }
        EnterPasses(u, f.path + [names[0]], w);
        ghost var v := Tree();
        PassedOn(t, u, v, w);
        ghost var grown := at;
        r, why := WalkPath(c, 0, names[1..], w, depth);
        PassedOn(t, v, Tree(), w);
        GrownOn(old(at), grown, at);
      }
    }

    /** add: the node at the path, or the new one, gets the source. */
    method Add(path: Path, src: Source, w: Walker, depth: nat) returns (r: FsNode?, ghost why: Failure)
      requires Valid() && AllProper(path) && !w.Lookup?
      modifies this`at, this`nodes, nodes`source, nodes`child, nodes`kids, nodes`next
      ensures Valid() && nodes >= old(nodes) && fresh(nodes - old(nodes)) && [] in old(Tree())
      ensures var o := PathWalk.Add(old(Tree()), path, src, w, depth);
        if r == null then o == Failed(why) else Has(r) && o == At(Tree(), r.path)
    {
      hide WellLinked, TreeOf, KindOf, Walk, T.SetSource, Rooted;
      RootHas();
      var dir := if path == [] then [] else path[..|path| - 1];
      EndsAtDir(Tree(), dir, w, depth);
      r, why := WalkPath(root, 0, dir, w, depth);
      if r != null {
        r := Put(r, path, src);
      }
    }

    /** The part of add behind mkdirs. */
    method Put(dir: FsNode, path: Path, src: Source) returns (r: FsNode)
      requires Valid() && Has(dir) && AllProper(path)
      requires dir.path in Tree() && KindOf(Tree()[dir.path]) == Dir
      modifies this`at, this`nodes, nodes`source, nodes`child, nodes`kids, nodes`next
      ensures Valid() && nodes >= old(nodes) && fresh(nodes - old(nodes)) && Has(r)
      ensures r.path == if path == [] then dir.path else dir.path + [path[|path| - 1]]
      ensures Tree() == T.SetSource(old(Tree()), r.path, src)
    {
      hide WellLinked, TreeOf, KindOf, T.SetSource, Rooted;
      SourceAt(dir);
      if path == [] {
        SetSource(dir, src);
        return dir;
      }
      assert ProperName(path[|path| - 1]);
      TreeKeys();
      TreeValid();
      Places();
      var c := FindChild(dir, path[|path| - 1]);
      if c == null {
        NewSource(Tree(), dir.path + [path[|path| - 1]], src);
        r := NewEntry(dir, path[|path| - 1], src);
        Places();
        assert at[Sub(dir.path, path[|path| - 1])] == r;
      } else {
        assert at[Sub(dir.path, path[|path| - 1])] == c;
        RootHas();
        SetSource(c, src);
        r := c;
      }
    }

    lemma ProperPath(n: FsNode)
      requires Valid() && Has(n)
      ensures AllProper(n.path)
    {
      hide Sub, Ascending, Names, AllProper;
      assert NodeOk(at, Seen(), n.path);
    }

    lemma RootHas()
      requires Valid()
      ensures Has(root) && root.path == [] && [] in Tree()
    {
      hide Sub, Ascending, Names;
      assert NodeOk(at, Seen(), []);
    }

    /** Looking up the path of a node finds the node, unless it is a symlink. */
    method LookupPath(n: FsNode, depth: nat) returns (r: FsNode?)
      requires Valid() && Has(n) && KindOf(n.source) != Symlink
      modifies this`at, this`nodes, nodes`source, nodes`child, nodes`kids, nodes`next
      ensures Valid() && r == n && Tree() == old(Tree())
    {
      hide WellLinked, TreeOf, Walk;
      RootHas();
      SourceAt(n);
      TreeValid();
      var p := Path(n);
      ProperPath(n);
      PlainPath(Tree(), p);
      PlainLookup(Tree(), [], p, depth);
      ghost var why;
      r, why := WalkPath(root, 0, p, Lookup, depth);
      assert [] + p == p;
    }

    /** The assignments that take an entry out of its list. */
    method Bypass(f: FsNode, last: FsNode?, c: FsNode, ghost i: nat)
      requires Placed() && Has(f) && i < |f.kids| && c.next == Kid(at, f.path, f.kids, i + 1)
      requires if i == 0 then last == null else last != null && last == Kid(at, f.path, f.kids, i - 1)
      modifies this`at, f`child, f`kids, nodes`next
      ensures Owns() && at == NodesMinus(old(at), Sub(f.path, old(f.kids[i])))
      ensures Seen() == WithoutEntry(old(at), old(Seen()), f.path, i)
    {
      hide Sub, Dropping, Keep, Others;
      ghost var p, v, kids, q := f.path, Seen(), f.kids, Sub(f.path, f.kids[i]);
      ghost var l := if i > 0 then Sub(p, kids[i - 1]) else [];
      if i > 0 { SubOk(p, kids[i - 1]); assert last == at[l] && last.path == l; }
      var following := c.next;
      SetEntries(f, if last == null then following else f.child, Dropping(f.kids, i));
      if last != null { SetNext(last, following); }
      assert at.Keys == v.Keys;
      Detach(Others(at.Keys, q));
    }

    /** The i-th entry is taken out of the list. */
    method Unlink(f: FsNode, last: FsNode?, c: FsNode, ghost i: nat)
      requires Valid() && Has(f) && i < |f.kids| && c == Kid(at, f.path, f.kids, i)
      requires if i == 0 then last == null else last != null && last == Kid(at, f.path, f.kids, i - 1)
      modifies this`at, f`child, f`kids, nodes`next
      ensures Valid() && at == NodesMinus(old(at), Sub(f.path, old(f.kids[i])))
      ensures Seen() == WithoutEntry(old(at), old(Seen()), f.path, i)
      ensures Tree() == Without(old(Tree()), Sub(f.path, old(f.kids[i])))
    {
      hide Sub, NodeOk, LinksOk, NodesMinus, WithoutEntry;
      Places();
      ghost var v, more := Seen(), at;
      KidAt(at, v, f.path, i);
      UnlinkKeepsLinks(at, v, f.path, i);
      TreeWithoutEntry(at, v, f.path, i);
      RootLeft(at, v, f.path, i);
      hide WellLinked, TreeOf, Without;
      Bypass(f, last, c, i);
    }

    /** Remove's loop: the entry before the node. */
    method FindLast(f: FsNode) returns (last: FsNode?, ghost i: nat)
      requires Valid() && Has(f) && f.path != [] && f.parent != null && Has(f.parent) && f.parent.path == Parent(f.path)
      ensures i < |f.parent.kids| && f == Kid(at, Parent(f.path), f.parent.kids, i)
      ensures Sub(Parent(f.path), f.parent.kids[i]) == f.path
      ensures if i == 0 then last == null else last != null && last == Kid(at, Parent(f.path), f.parent.kids, i - 1)
    {
      hide Sub, NodeOk, LinksOk, Names;
      ghost var p, v, kids := Parent(f.path), Seen(), f.parent.kids;
      ghost var k := KidIndex(f);
      var c := f.parent.child;
      last, i := null, 0;
      FirstKid(f.parent);
      while c != f
        invariant i <= k && c == Kid(at, p, kids, i)
        invariant if i == 0 then last == null else last != null && last == Kid(at, p, kids, i - 1)
        decreases k - i
      {
        KidAt(at, v, p, i);
        last, c, i := c, c.next, i + 1;
      }
      SameIndex(f.parent, i, k);
    }

    /** Remove: the node and all below it are gone, and nothing else. */
    method Remove(f: FsNode)
      requires Valid() && Has(f) && f.path != []
      modifies this`at, nodes`child, nodes`kids, nodes`next, f`parent
      ensures Valid() && Tree() == Without(old(Tree()), f.path)
    {
      hide Sub, NodesMinus, WellLinked, WithoutEntry, Without, TreeOf, Kid, Owns;
      StartHas(f);
      var last, i := FindLast(f);
      Unlink(f.parent, last, f, i);
      Gone(old(at), f.path);
      Places();
      Clear(f);
    }

    /** The fields of a node that is no longer in the tree. */
    method Clear(f: FsNode)
      requires Placed() && f.path !in at
      modifies f`parent, f`next, f`child
      ensures Owns() && Seen() == old(Seen()) && root.source == old(root.source)
    {
      f.parent, f.next, f.child := null, null, null;
      forall x | x in at ensures Look(at[x]) == old(Look(at[x])) { assert at[x] != f; }
      assert Seen().Keys == old(Seen()).Keys;
    }

    lemma KidIndex(f: FsNode) returns (k: nat)
      requires Valid() && Has(f) && f.path != []
      ensures f.parent != null && f.parent in nodes && k < |f.parent.kids|
      ensures Sub(Parent(f.path), f.parent.kids[k]) == f.path && f == Kid(at, Parent(f.path), f.parent.kids, k)
    {
      hide Sub, Ascending;
      var p := Parent(f.path);
      StartHas(f);
      assert NodeOk(at, Seen(), p);
      ParentSub(f.path);
      var x := f.path[|f.path| - 1];
      assert x in Names(f.parent.kids);
      k :| k < |f.parent.kids| && f.parent.kids[k] == x;
    }

    lemma FirstKid(p: FsNode)
      requires Valid() && Has(p)
      ensures p.child == Kid(at, p.path, p.kids, 0)
    {
      hide Sub, Ascending, Names;
      assert NodeOk(at, Seen(), p.path);
    }

    /** Different entries are different nodes. */
    lemma SameIndex(p: FsNode, i: nat, k: nat)
      requires Valid() && Has(p) && i < |p.kids| && k < |p.kids| &&
        Kid(at, p.path, p.kids, i) == Kid(at, p.path, p.kids, k)
      ensures i == k
    {
      hide Sub, NodeOk, LinksOk;
      KidAt(at, Seen(), p.path, i);
      KidAt(at, Seen(), p.path, k);
      Places();
      if i != k { KidsDiffer(at, Seen(), p.path, i, k); }
    }

    /** RemoveWhiteouts: the whiteouts below the node are gone, and nothing else. */
    method RemoveWhiteouts(f: FsNode)
      requires Valid() && Has(f)
      modifies this`at, nodes`child, nodes`kids, nodes`next
      ensures Valid() && Has(f) && Tree() == Cleaned(old(Tree()), f.path)
      ensures SameOutside(old(Seen()), Seen(), f.path) && f.next == old(f.next) && Grown(at, old(at))
      decreases |Under(at.Keys, f.path)|, 1
    {
      hide Sub, WellLinked, TreeOf, KindOf, CleanedSome, Cleaned, Names, SameOutside, Under, Rooted, Dropping,
           Grown;
      ghost var p, t0 := f.path, Tree();
      ghost var done: set<Name>, i := {}, 0;
      var last: FsNode? := null;
      var c := f.child;
      TreeValid();
      FirstKid(f);
      NoneCleaned(t0, p);
      EntriesKnown(f);
      SameSelf(Seen(), p);
      GrownSelf(at);
      while c != null
        invariant Valid() && Has(f) && Grown(at, old(at))
        invariant Tree() == CleanedSome(t0, p, done)
        invariant SameOutside(old(Seen()), Seen(), p) && f.next == old(f.next)
        invariant i <= |f.kids| && c == Kid(at, p, f.kids, i)
        invariant if i == 0 then last == null else last != null && last == Kid(at, p, f.kids, i - 1)
        invariant forall j :: 0 <= j < |f.kids| ==> (f.kids[j] in done <==> j < i)
        invariant forall x {:trigger x in done} :: Sub(p, x) in t0 ==> x in done || x in Names(f.kids)
        decreases |f.kids| - i
      {
        KidSome(f, i);
        NamesDiffer(f, i);
        ghost var x, u, were := f.kids[i], Seen(), at;
        DropAt(f.kids, i);
        UnderShrinks(old(at), at, p);
        if KindOf(c.source) == Whiteout {
          c := DropWhiteout(f, last, c, i, t0, done);
        } else {
          CleanKid(f, c, i, t0, done);
          last, c, i := c, c.next, i + 1;
        }
        SameTransitive(old(Seen()), u, Seen(), p);
        GrownOn(at, were, old(at));
        done := done + {x};
      }
      AllDone(f, i, t0, done);
      AllCleaned(t0, p, done);
    }

    /** The step for a whiteout. */
    method DropWhiteout(f: FsNode, last: FsNode?, c: FsNode, ghost i: nat, ghost t0: T.Tree, ghost done: set<Name>)
      returns (following: FsNode?)
      requires Valid() && Has(f) && i < |f.kids| && c == Kid(at, f.path, f.kids, i) && KindOf(c.source) == Whiteout
      requires if i == 0 then last == null else last != null && last == Kid(at, f.path, f.kids, i - 1)
      requires Tree() == CleanedSome(t0, f.path, done)
      modifies this`at, f`child, f`kids, nodes`next
      ensures Valid() && Has(f) && Tree() == CleanedSome(t0, f.path, done + {old(f.kids[i])})
      ensures SameOutside(old(Seen()), Seen(), f.path) && f.next == old(f.next) && Grown(at, old(at))
      ensures f.kids == Dropping(old(f.kids), i) && following == Kid(at, f.path, f.kids, i)
      ensures i > 0 ==> last == Kid(at, f.path, f.kids, i - 1)
    {
      hide Sub, TreeOf, KindOf, CleanedSome, Within, NodeOk, LinksOk, Dropping;
      ghost var p, v, x, kids := f.path, Seen(), f.kids[i], f.kids;
      KidAt(at, v, p, i);
      if i + 1 < |kids| { KidAt(at, v, p, i + 1); KidsDiffer(at, v, p, i, i + 1); KidGoneToo(p, x, kids[i + 1]); }
      if i > 0 { KidAt(at, v, p, i - 1); KidsDiffer(at, v, p, i, i - 1); KidGoneToo(p, x, kids[i - 1]); }
      TreeValid();
      SourceAtPath(Sub(p, x));
      WhiteoutCleaned(t0, p, done, x);
      UnlinkOutside(at, v, p, i);
      DropAt(kids, i);
      following := c.next;
      hide WellLinked;
      Unlink(f, last, c, i);
    }

    lemma SourceAtPath(q: Path)
      requires Valid() && q in at
      ensures q in Tree() && Tree()[q] == at[q].source
    {
    }

    /** The step for any other entry. */
    method CleanKid(f: FsNode, c: FsNode, ghost i: nat, ghost t0: T.Tree, ghost done: set<Name>)
      requires Valid() && Has(f) && i < |f.kids| && c == Kid(at, f.path, f.kids, i) && KindOf(c.source) != Whiteout
      requires Tree() == CleanedSome(t0, f.path, done)
      modifies this`at, nodes`child, nodes`kids, nodes`next
      ensures Valid() && Has(f) && Tree() == CleanedSome(t0, f.path, done + {old(f.kids[i])})
      ensures SameOutside(old(Seen()), Seen(), f.path) && f.next == old(f.next) && Grown(at, old(at))
      ensures f.kids == old(f.kids) && c == Kid(at, f.path, f.kids, i) && c.next == Kid(at, f.path, f.kids, i + 1)
      decreases |Under(at.Keys, f.path)|, 0
    {
      hide Sub, TreeOf, KindOf, CleanedSome, Cleaned, Within, NodeOk, LinksOk, Under;
      ghost var p, v, x, kids := f.path, Seen(), f.kids[i], f.kids;
      KidAt(at, v, p, i);
      Places();
      assert Has(c) && c.path == Sub(p, x);
      if i + 1 < |kids| { KidAt(at, v, p, i + 1); KidsDiffer(at, v, p, i, i + 1); KidGoneToo(p, x, kids[i + 1]); }
      SourceAtPath(Sub(p, x));
      KidCleaned(t0, p, done, x);
      UnderKid(at.Keys, p, x);
      ParentOutside(p, x);
      hide WellLinked;
      RemoveWhiteouts(c);
      OutsideWider(v, Seen(), p, x);
    }

    /** The end of the list. */
    lemma AllDone(f: FsNode, i: nat, t0: T.Tree, done: set<Name>)
      requires Valid() && Has(f) && i <= |f.kids| && Kid(at, f.path, f.kids, i) == null
      requires forall j :: 0 <= j < |f.kids| ==> (f.kids[j] in done <==> j < i)
      requires forall x {:trigger x in done} :: Sub(f.path, x) in t0 ==> x in done || x in Names(f.kids)
      ensures forall x {:trigger Sub(f.path, x)} :: Sub(f.path, x) in t0 ==> x in done
    {
      hide Sub, NodeOk, LinksOk;
      if i < |f.kids| { KidAt(at, Seen(), f.path, i); }
      forall x {:trigger Sub(f.path, x)} | Sub(f.path, x) in t0
        ensures x in done
      {
        assert x in done || x in Names(f.kids);
      }
    }

    lemma KidSome(f: FsNode, i: nat)
      requires Valid() && Has(f) && i <= |f.kids| && Kid(at, f.path, f.kids, i) != null
      ensures i < |f.kids| && Kid(at, f.path, f.kids, i) in nodes
    {
    }

    lemma NamesDiffer(f: FsNode, i: nat)
      requires Valid() && Has(f) && i < |f.kids|
      ensures forall j :: 0 <= j < |f.kids| && j != i ==> f.kids[j] != f.kids[i]
      ensures Names(Dropping(f.kids, i)) == Names(f.kids) - {f.kids[i]}
    {
      hide Sub;
      assert NodeOk(at, Seen(), f.path);
      Dropped(f.kids, i);
      forall j | 0 <= j < |f.kids| && j != i ensures f.kids[j] != f.kids[i] { KidsDiffer(at, Seen(), f.path, i, j); }
    }

    /** Every entry of the tree is on the list. */
    lemma EntriesKnown(f: FsNode)
      requires Valid() && Has(f)
      ensures forall x {:trigger Sub(f.path, x)} :: Sub(f.path, x) in Tree() ==> x in Names(f.kids)
    {
      hide Sub, Ascending, Names;
      assert NodeOk(at, Seen(), f.path);
    }

    lemma TreeKeys()
      requires Owns()
      ensures Tree().Keys == at.Keys
    {
    }

    /** The nodes that a walk may start from. */
    lemma StartHas(f: FsNode)
      requires Valid() && Has(f) && f.path != []
      ensures Has(root) && root.path == [] && f.parent != null && Has(f.parent) && f.parent.path == Parent(f.path)
      ensures [] in Tree() && Parent(f.path) in Tree()
    {
      hide Sub, Ascending, Names;
      assert NodeOk(at, Seen(), f.path) && NodeOk(at, Seen(), Parent(f.path)) && NodeOk(at, Seen(), []);
    }
  }

  // --------------------------------------------------------- removing whiteouts

  /** The tree without the whiteouts below `p`. */
  ghost function Cleaned(t: T.Tree, p: Path): T.Tree {
    map q | q in t && !(Below(p, q) && KindOf(t[q]) == Whiteout) :: t[q]
  }

  ghost predicate Doomed(t: T.Tree, p: Path, done: set<Name>, q: Path)
    requires q in t
  {
    KindOf(t[q]) == Whiteout && exists x :: x in done && Within(Sub(p, x), q)
  }

  /** The tree without the whiteouts of some entries and below them. */
  ghost function CleanedSome(t: T.Tree, p: Path, done: set<Name>): T.Tree {
    map q | q in t && !Doomed(t, p, done, q) :: t[q]
  }

  ghost predicate SameOutside(v: View, u: View, p: Path) {
    forall x :: x in v && !Within(p, x) ==> x in u && u[x] == v[x]
  }

  ghost function Under(all: set<Path>, p: Path): set<Path> {
    set q | q in all && Within(p, q)
  }

  lemma SameSelf(v: View, p: Path)
    ensures SameOutside(v, v, p)
  {
  }

  lemma NoneCleaned(t: T.Tree, p: Path)
    ensures CleanedSome(t, p, {}) == t
  {
  }

  lemma KidGoneToo(p: Path, x: Name, y: Name)
    requires x != y
    ensures !Within(Sub(p, x), Sub(p, y))
  {
    if Within(Sub(p, x), Sub(p, y)) {
      assert Sub(p, x) == Sub(p, y);
      SplitPath(p, x, p, y);
    }
  }

  lemma ParentOutside(p: Path, x: Name)
    ensures !Within(Sub(p, x), p) && Within(p, Sub(p, x))
  {
  }

  lemma RootOutside(p: Path, x: Name)
    ensures !Within(Sub(p, x), [])
  {
  }

  lemma UnderKid(all: set<Path>, p: Path, x: Name)
    requires p in all
    ensures |Under(all, Sub(p, x))| < |Under(all, p)|
  {
    ParentOutside(p, x);
    forall q | q in Under(all, Sub(p, x)) ensures q in Under(all, p) { WithinWider(p, x, q); }
    assert p in Under(all, p) && p !in Under(all, Sub(p, x));
    Smaller(Under(all, Sub(p, x)), Under(all, p), p);
  }

  lemma Smaller(a: set<Path>, b: set<Path>, p: Path)
    requires a <= b && p in b && p !in a
    ensures |a| < |b|
  {
    assert a <= b - {p};
    SubsetSize(a, b - {p});
  }

  lemma {:induction false} SubsetSize(a: set<Path>, b: set<Path>)
    requires a <= b
    ensures |a| <= |b|
    decreases a
  {
    if a != {} {
      var x :| x in a;
      SubsetSize(a - {x}, b - {x});
    }
  }

  lemma UnderShrinks(more: Nodes, at: Nodes, p: Path)
    requires Grown(at, more)
    ensures |Under(at.Keys, p)| <= |Under(more.Keys, p)|
  {
    SubsetSize(Under(at.Keys, p), Under(more.Keys, p));
  }

  lemma WithinWider(p: Path, x: Name, q: Path)
    requires Within(Sub(p, x), q)
    ensures Within(p, q) && Below(p, q)
  {
    SubOk(p, x);
  }

  lemma OutsideWider(v: View, u: View, p: Path, x: Name)
    requires SameOutside(v, u, Sub(p, x))
    ensures SameOutside(v, u, p)
  {
    hide Sub, Within;
    forall q | q in v && !Within(p, q) ensures q in u && u[q] == v[q] {
      if Within(Sub(p, x), q) { WithinWider(p, x, q); }
    }
  }

  lemma SameTransitive(v: View, u: View, w: View, p: Path)
    requires SameOutside(v, u, p) && SameOutside(u, w, p)
    ensures SameOutside(v, w, p)
  {
    hide Within;
  }

  /** Taking a whiteout out of the list. */
  lemma WhiteoutCleaned(t0: T.Tree, p: Path, done: set<Name>, x: Name)
    requires var t := CleanedSome(t0, p, done);
      Rooted(t) && Sub(p, x) in t && KindOf(t[Sub(p, x)]) == Whiteout
    ensures Without(CleanedSome(t0, p, done), Sub(p, x)) == CleanedSome(t0, p, done + {x})
  {
    hide Sub, KindOf, Rooted;
    var t, u, q0 := CleanedSome(t0, p, done), CleanedSome(t0, p, done + {x}), Sub(p, x);
    forall q | q in t0 ensures q in u <==> q in t && !Within(q0, q) {
      if q in t && Within(q0, q) && q != q0 { LeafHasNone(t, q0, q); }
    }
  }

  lemma LeafHasNone(t: T.Tree, p: Path, q: Path)
    requires Rooted(t) && q in t && Within(p, q) && p != q
    ensures p in t && KindOf(t[p]) == Dir
  {
    RootedAbove(t, p, q);
  }

  lemma KidCleaned(t0: T.Tree, p: Path, done: set<Name>, x: Name)
    requires var t := CleanedSome(t0, p, done);
      Sub(p, x) in t && KindOf(t[Sub(p, x)]) != Whiteout
    ensures Cleaned(CleanedSome(t0, p, done), Sub(p, x)) == CleanedSome(t0, p, done + {x})
  {
    hide Sub, KindOf;
    var t, u, q0 := CleanedSome(t0, p, done), CleanedSome(t0, p, done + {x}), Sub(p, x);
    forall q | q in t0 ensures q in u <==> q in t && !(Below(q0, q) && KindOf(t[q]) == Whiteout) {
      assert Within(q0, q) <==> q == q0 || Below(q0, q);
    }
  }

  /** After all entries. */
  lemma AllCleaned(t0: T.Tree, p: Path, done: set<Name>)
    requires Rooted(t0) && forall x {:trigger Sub(p, x)} :: Sub(p, x) in t0 ==> x in done
    ensures CleanedSome(t0, p, done) == Cleaned(t0, p)
  {
    hide KindOf, Rooted;
    forall q | q in t0
      ensures (exists x :: x in done && Within(Sub(p, x), q)) ==> Below(p, q)
    {
      if x :| x in done && Within(Sub(p, x), q) { WithinWider(p, x, q); }
    }
    forall q | q in t0 && Below(p, q) ensures exists x :: x in done && Within(Sub(p, x), q) {
      var x := q[|p|];
      assert Sub(p, x) <= q;
      if Sub(p, x) != q { RootedAbove(t0, Sub(p, x), q); }
      assert x in done && Within(Sub(p, x), q);
    }
  }

  lemma UnlinkOutside(at: Nodes, v: View, p: Path, i: nat)
    requires p in v && i < |v[p].kids|
    ensures var u := WithoutEntry(at, v, p, i);
      && SameOutside(v, u, p)
      && p in u && u[p].kids == Dropping(v[p].kids, i) && u[p].next == v[p].next && u[p].path == v[p].path
  {
    hide Sub, Dropping;
    forall q | Within(Sub(p, v[p].kids[i]), q) ensures Within(p, q) { WithinWider(p, v[p].kids[i], q); }
    ParentOutside(p, v[p].kids[i]);
    if i > 0 { ParentOutside(p, v[p].kids[i - 1]); SubOk(p, v[p].kids[i - 1]); }
    assert Within(p, p);
  }

  /** No node was replaced. */
  ghost predicate Grown(at: Nodes, more: Nodes) {
    forall p :: p in at ==> p in more && more[p] == at[p]
  }

  predicate AllProper(names: seq<Name>) {
    forall i :: 0 <= i < |names| ==> ProperName(names[i])
  }

  lemma {:induction false} SegmentsProper(r: Route, segments: seq<string>)
    requires AllProper(r.names) && AllLack(segments, '/')
    ensures AllProper(CleanSegments(r, segments).names)
    decreases |segments|
  {
    if segments != [] {
      var s := segments[0];
      assert '/' !in s;
      var r' :=
        if s == "" || s == "." then r
        else if s != ".." then r.(names := r.names + [s])
        else if r.names != [] then r.(names := r.names[..|r.names| - 1])
        else if r.abs then r
        else r.(ups := r.ups + 1);
      SegmentsProper(r', segments[1..]);
    }
  }

  lemma CleanProper(s: string)
    ensures AllProper(Clean(s).names)
  {
    JoinSplit(s, '/');
    SegmentsProper(Route(s != "" && s[0] == '/', 0, []), Split(s, '/'));
  }

  /** A valid tree, or a root alone. */
  ghost predicate Rooted(t: T.Tree) {
    [] in t && (T.Valid(t) || t.Keys == {[]})
  }

  lemma RootedAbove(t: T.Tree, q: Path, p: Path)
    requires Rooted(t) && p in t && q < p
    ensures q in t && KindOf(t[q]) == Dir
  {
    AncestorIsDir(t, q, p);
  }

  /** What a walk may do to the tree, whether it ends or fails. */
  ghost predicate Passed(t: T.Tree, u: T.Tree, w: Walker) {
    if w.Lookup? then u == t else Touched(t, u, w.now)
  }

  lemma NothingPassed(t: T.Tree, w: Walker)
    ensures Passed(t, t, w)
  {
  }

  lemma PassedOn(t: T.Tree, u: T.Tree, v: T.Tree, w: Walker)
    requires Passed(t, u, w) && Passed(u, v, w)
    ensures Passed(t, v, w)
  {
    if !w.Lookup? { TouchedTransitive(t, u, v, w.now); }
  }

  lemma VisitPasses(t: T.Tree, p: Path, w: Walker)
    requires p in t && KindOf(t[p]) != Symlink
    ensures Passed(t, PathWalk.Visit(t, p, w), w) && KindOf(PathWalk.Visit(t, p, w)[p]) != Symlink
  {
  }

  lemma EnterPasses(t: T.Tree, q: Path, w: Walker)
    requires w.Lookup? ==> q in t
    ensures Passed(t, if q in t then t else t[q := NewDir(DIR_ATTRS, w.now)], w)
  {
  }

  lemma GrownSelf(at: Nodes)
    ensures Grown(at, at)
  {
  }

  lemma GrownOn(at: Nodes, more: Nodes, most: Nodes)
    requires Grown(at, more) && Grown(more, most)
    ensures Grown(at, most)
  {
  }

  lemma EndsAtDir(t: T.Tree, names: seq<Name>, w: Walker, depth: nat)
    requires [] in t && !w.Lookup?
    ensures var r := Walk(t, [], 0, names, w, depth); r.At? ==> KindOf(r.tree[r.path]) == Dir
  {
    if Walk(t, [], 0, names, w, depth).At? { MkdirsThenLookup(t, [], 0, names, w, depth, t); }
  }

  lemma NewSource(t: T.Tree, q: Path, s: Source)
    requires Rooted(t) && q !in t
    ensures T.SetSource(t, q, s) == t[q := s]
  {
    forall x | x in t ensures !(q < x) {
      if q < x { RootedAbove(t, q, x); }
    }
  }

  lemma PlainPath(t: T.Tree, p: Path)
    requires Rooted(t) && p in t && KindOf(t[p]) != Symlink
    ensures forall q :: [] <= q <= [] + p ==> q in t && KindOf(t[q]) != Symlink
  {
    forall q | [] <= q <= [] + p ensures q in t && KindOf(t[q]) != Symlink {
      assert [] + p == p;
      if q != p { RootedAbove(t, q, p); }
    }
  }

  lemma MadeDir(t: T.Tree, p: Path, w: Walker)
    requires p in t && !w.Lookup?
    ensures KindOf(PathWalk.Visit(t, p, w)[p]) == Dir
  {
  }
}
