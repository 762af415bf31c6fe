/** File system trees as values: paths, node attributes, sources and the
    prefix-closed maps from paths to sources that the node tree stands for. */
module FsTypes {

  /** A path is the sequence of its clean components; `[]` is the root. */
  type Name = string
  type Path = seq<Name>

  function Parent(p: Path): Path
    requires p != []
  {
    p[..|p| - 1]
  }

  datatype Kind = File | Dir | Symlink | Fifo | Device | Whiteout

  /** The Unix second of Go's zero time. */
  const ZERO_TIME: int := -62135596800

  datatype FileAttrs = FileAttrs(
    perm: nat, uid: nat, gid: nat, mtime: int, atime: int, size: int,
    symlink: string, xattrs: map<string, string>)

  const NO_ATTRS := FileAttrs(0, 0, 0, ZERO_TIME, ZERO_TIME, 0, "", map[])

  /** Mode 0755 and nothing else: what an implicit directory gets. */
  const DIR_ATTRS := NO_ATTRS.(perm := 0x1ED)

  datatype NodeInfo = NodeInfo(kind: Kind, attrs: FileAttrs)

  /** FileAttrs.Equal: every attribute but the access time. */
  predicate AttrsEqual(a: FileAttrs, b: FileAttrs) {
    a.(atime := 0) == b.(atime := 0)
  }

  predicate InfoEqual(a: NodeInfo, b: NodeInfo) {
    a.kind == b.kind && AttrsEqual(a.attrs, b.attrs)
  }

  /** A node's source. `ref` is the identity of the Go pointer, so that two
      nodes are hard links of each other when their sources are equal values.
      `FreshDir` is a directory source allocated by the operation that is
      running; the sources of its input trees are never of that form. `Made` is
      the source of a file that was unpacked at that path. */
  datatype Source =
    | Src(ref: nat, lower: bool, info: NodeInfo, hash: string)
    | Made(at: Path, info: NodeInfo, hash: string)
    | Linked(id: nat, of: Source)
    | ParentDir
    | Removed
    | FreshDir(attrs: FileAttrs)

  function Origin(s: Source): Source {
    if s.Linked? then s.of else s
  }

  function Info(s: Source): NodeInfo {
    match s
    case Src(_, _, info, _) => info
    case Made(_, info, _) => info
    case Linked(_, of) => Info(of)
    case ParentDir => NodeInfo(Dir, DIR_ATTRS)
    case Removed => NodeInfo(Whiteout, NO_ATTRS)
    case FreshDir(attrs) => NodeInfo(Dir, attrs)
  }

  function Hash(s: Source): string {
    match s
    case Src(_, _, _, hash) => hash
    case Made(_, _, hash) => hash
    case Linked(_, of) => Hash(of)
    case _ => ""
  }

  function KindOf(s: Source): Kind {
    Info(s).kind
  }

  /** True for the sources read from a stored spec, which no layer writes. */
  predicate IsLower(s: Source) {
    s.Src? && s.lower
  }

  /** FsNode.Equal: same attributes and same content hash. */
  predicate SameNode(s: Source, o: Source) {
    InfoEqual(Info(s), Info(o)) && Hash(s) == Hash(o)
  }

  /** source.NewSourceDir: a zero modification time becomes the current time. */
  function NewDir(a: FileAttrs, now: int): Source {
    FreshDir(if a.mtime == ZERO_TIME then a.(mtime := now) else a)
  }

  type Tree = map<Path, Source>

  const NEW_FS: Tree := map[[] := ParentDir]

  /** The root is a directory and only directories have entries. */
  predicate Valid(t: Tree) {
    [] in t && KindOf(t[[]]) == Dir &&
    forall p {:trigger Parent(p)} :: p in t && p != [] ==> Parent(p) in t && KindOf(t[Parent(p)]) == Dir
  }

  /** Two trees with the same paths and equal nodes. */
  predicate SameTree(t: Tree, u: Tree) {
    t.Keys == u.Keys && forall p :: p in t ==> SameNode(t[p], u[p])
  }

  /** FsNode.SetSource: a node that is no directory loses its entries. */
  function SetSource(t: Tree, p: Path, s: Source): Tree {
    if KindOf(s) == Dir then t[p := s]
    else (map q | q in t && !(p < q) :: t[q])[p := s]
  }

  /** In a valid tree the ancestors of a path are directories of the tree. */
  lemma {:induction false} AncestorIsDir(t: Tree, q: Path, p: Path)
    requires Valid(t) && p in t && q < p
    ensures q in t && KindOf(t[q]) == Dir
    decreases |p|
  {
    var d := Parent(p);
    assert q <= d;
    if q != d { AncestorIsDir(t, q, d); }
  }

  lemma SetSourceValid(t: Tree, p: Path, s: Source)
    requires Valid(t)
    requires if p == [] then KindOf(s) == Dir else Parent(p) in t && KindOf(t[Parent(p)]) == Dir
    ensures Valid(SetSource(t, p, s))
  {
    var u := SetSource(t, p, s);
    forall q | q in u && q != []
      ensures Parent(q) in u && KindOf(u[Parent(q)]) == Dir
    {
      assert p <= Parent(q) ==> p < q;
    }
  }
}
