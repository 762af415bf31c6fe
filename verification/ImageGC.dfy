/** Mark-and-sweep garbage collection of the image store. */
module ImageGC {
  import opened Digests
  import opened ImageRepo
  import opened Options

  datatype Manifest = Manifest(config: Digest, layers: seq<Digest>, parent: Option<Digest>)

  datatype Repo = Repo(name: string, index: seq<Descriptor>)

  /** The stored keys and the decoded content of the blobs: `manifests` and `configs`
      (as their diff IDs) are what a blob decodes to while it exists. */
  datatype Store = Store(
    blobs: set<Digest>, imageIds: map<Digest, Digest>, fsspecs: set<Digest>, repos: seq<Repo>,
    manifests: map<Digest, Manifest>, configs: map<Digest, seq<Digest>>, lastUsed: map<Digest, int>)

  /** imageInfoFromManifestDigest succeeds: the manifest can be read and the file of the
      last layer, whose access time counts, is there. */
  predicate Readable(s: Store, m: Digest) {
    && m in s.blobs && m in s.manifests && m in s.lastUsed
    && var layers := s.manifests[m].layers; layers == [] || layers[|layers| - 1] in s.blobs
  }

  /** The images that GC knows, by manifest digest. */
  function Images(s: Store): map<Digest, Manifest> {
    map m | m in s.imageIds.Values && Readable(s, m) :: s.manifests[m]
  }

  /** Image IDs are the config digests of the manifests they name. */
  predicate Consistent(s: Store) {
    forall id :: id in s.imageIds && s.imageIds[id] in s.manifests ==> s.manifests[s.imageIds[id]].config == id
  }

  lemma IdsIdentify(s: Store, m: Digest, n: Digest)
    requires Consistent(s) && m in Images(s) && n in Images(s) && Images(s)[m].config == Images(s)[n].config
    ensures m == n
  {
    var i :| i in s.imageIds && s.imageIds[i] == m;
    var j :| j in s.imageIds && s.imageIds[j] == n;
  }

  // ------------------------------------------------------------------- the closure

  function ParentIn(images: map<Digest, Manifest>, m: Digest): Option<Digest>
    requires m in images
  {
    if images[m].parent.Some? && images[m].parent.value in images then images[m].parent else None
  }

  predicate Closed(images: map<Digest, Manifest>, kept: set<Digest>) {
    forall m :: m in kept && m in images && ParentIn(images, m).Some? ==> ParentIn(images, m).value in kept
  }

  /** The least set of images that has the roots and, with an image, its parent. */
  ghost function Closure(images: map<Digest, Manifest>, roots: set<Digest>): set<Digest> {
    set m | m in images && forall c :: roots <= c && Closed(images, c) ==> m in c
  }

  lemma ClosureIsClosed(images: map<Digest, Manifest>, roots: set<Digest>)
    requires roots <= images.Keys
    ensures roots <= Closure(images, roots) && Closed(images, Closure(images, roots))
  {
  }

  /** Nothing but the closure is closed, has the roots and is within every such set. */
  lemma ClosureIsLeast(images: map<Digest, Manifest>, roots: set<Digest>, kept: set<Digest>)
    requires roots <= kept <= images.Keys && Closed(images, kept)
    requires forall c :: roots <= c && Closed(images, c) ==> kept <= c
    ensures kept == Closure(images, roots)
  {
  }

  // ---------------------------------------------------------------- what it needs

  function BlobsOf(m: Digest, manifest: Manifest): set<Digest> {
    {m, manifest.config} + set l | l in manifest.layers
  }

  function NeededBlobs(images: map<Digest, Manifest>, kept: set<Digest>): set<Digest> {
    set m, d | m in kept && m in images && d in BlobsOf(m, images[m]) :: d
  }

  function Ids(images: map<Digest, Manifest>, kept: set<Digest>): set<Digest> {
    set m | m in kept && m in images :: images[m].config
  }

  /** ImageConfig succeeds. */
  predicate HasConfig(s: Store, d: Digest) {
    d in s.blobs && d in s.configs
  }

  function NeededSpecs(s: Store, images: map<Digest, Manifest>, kept: set<Digest>): set<Digest> {
    set m | m in kept && m in images && HasConfig(s, images[m].config) :: ChainId(s.configs[images[m].config])
  }

  lemma NeedsOneMore(s: Store, images: map<Digest, Manifest>, kept: set<Digest>, m: Digest)
    requires m in images
    ensures NeededBlobs(images, kept + {m}) == NeededBlobs(images, kept) + BlobsOf(m, images[m])
    ensures Ids(images, kept + {m}) == Ids(images, kept) + {images[m].config}
    ensures NeededSpecs(s, images, kept + {m}) == NeededSpecs(s, images, kept) +
              if HasConfig(s, images[m].config) then {ChainId(s.configs[images[m].config])} else {}
  {
    var more := kept + {m};
    forall d
      ensures d in NeededBlobs(images, more) <==> d in NeededBlobs(images, kept) || d in BlobsOf(m, images[m])
    {
      if d in BlobsOf(m, images[m]) { assert m in more; }
    }
    assert m in more;
  }

  // ---------------------------------------------------------------------- marking

  /** Every kept image but `m` has its parent kept too. */
  predicate ClosedUpTo(images: map<Digest, Manifest>, kept: set<Digest>, m: Digest) {
    forall n :: n in kept && n in images && ParentIn(images, n).Some? ==>
      ParentIn(images, n).value in kept || ParentIn(images, n).value == m
  }

  class Collector {
    const store: Store
    const images: map<Digest, Manifest>
    var keepBlobs: set<Digest>
    var keepImgIds: set<Digest>
    var keepFsSpecs: set<Digest>
    ghost var kept: set<Digest>

    ghost predicate Valid()
      reads this
    {
      && Consistent(store) && images == Images(store) && kept <= images.Keys
      && keepBlobs == NeededBlobs(images, kept)
      && keepImgIds == Ids(images, kept)
      && keepFsSpecs == NeededSpecs(store, images, kept)
    }

    constructor (s: Store)
      requires Consistent(s)
      ensures Valid() && store == s && kept == {}
    {
      store, images := s, Images(s);
      keepBlobs, keepImgIds, keepFsSpecs, kept := {}, {}, {}, {};
    }

    /** The part of imageGC.keep that marks one image. */
    method Mark(m: Digest)
      requires Valid() && m in images
      modifies this
      ensures Valid() && kept == old(kept) + {m}
    {
      hide Images, NeededBlobs, Ids, NeededSpecs, Consistent;
      var img := images[m];
      NeedsOneMore(store, images, kept, m);
      keepImgIds := keepImgIds + {img.config};
      keepBlobs := keepBlobs + {img.config} + {m};
      ghost var blobs := keepBlobs;
      for i := 0 to |img.layers|
        invariant keepBlobs == blobs + set l | l in img.layers[..i]
        invariant kept == old(kept) && keepImgIds == old(keepImgIds) + {img.config} && keepFsSpecs == old(keepFsSpecs)
      {
        assert img.layers[..i + 1] == img.layers[..i] + [img.layers[i]];
        keepBlobs := keepBlobs + {img.layers[i]};
      }
      assert img.layers[..|img.layers|] == img.layers;
      assert keepBlobs == old(keepBlobs) + BlobsOf(m, img);
      if HasConfig(store, img.config) {
        keepFsSpecs := keepFsSpecs + {ChainId(store.configs[img.config])};
      }
      kept := kept + {m};
    }

    /** imageGC.keep: marks the image and, unless they are marked already, its parents.
        It ends even if parent annotations form a cycle. */
    method Keep(m: Digest)
      requires Valid() && m in images && ClosedUpTo(images, kept, m)
      modifies this
      ensures Valid() && Closed(images, kept) && old(kept) + {m} <= kept
      ensures forall c :: old(kept) <= c && m in c && Closed(images, c) ==> kept <= c
      decreases images.Keys - kept - {m}
    {
      hide Images, NeededBlobs, Ids, NeededSpecs, Consistent;
      Mark(m);
      if images[m].parent.Some? && images[m].parent.value in images {
        var p := images[m].parent.value;
        KeptById(store, kept, p);
        if images[p].config !in keepImgIds {
          Keep(p);
        }
      }
    }
  }

  /** Looking up the ID tells whether the image itself is kept. */
  lemma KeptById(s: Store, kept: set<Digest>, p: Digest)
    requires Consistent(s) && kept <= Images(s).Keys && p in Images(s)
    ensures Images(s)[p].config in Ids(Images(s), kept) <==> p in kept
  {
    var images := Images(s);
    if images[p].config in Ids(images, kept) {
      var m :| m in kept && m in images && images[m].config == images[p].config;
      IdsIdentify(s, m, p);
    }
  }

  /** Marking one more root extends the closure. */
  lemma ClosureGrows(images: map<Digest, Manifest>, roots: set<Digest>, m: Digest, kept: set<Digest>)
    requires roots <= images.Keys && m in images && kept <= images.Keys
    requires Closure(images, roots) + {m} <= kept && Closed(images, kept)
    requires forall c :: Closure(images, roots) <= c && m in c && Closed(images, c) ==> kept <= c
    ensures kept == Closure(images, roots + {m})
  {
    ClosureIsClosed(images, roots);
    forall c | roots + {m} <= c && Closed(images, c)
      ensures kept <= c
    {
      assert Closure(images, roots) <= c;
    }
    ClosureIsLeast(images, roots + {m}, kept);
  }

  // --------------------------------------------------------------------- sweeping

  /** Images used after `recentAfter` are kept; tagged ones if there is no limit on their
      age or they were used after `tagAfter`. */
  datatype Params = Params(recentAfter: int, tagAfter: Option<int>, maxPerRepo: int)

  predicate Recent(s: Store, p: Params, m: Digest) {
    m in s.lastUsed && s.lastUsed[m] > p.recentAfter
  }

  predicate Unexpired(s: Store, p: Params, m: Digest) {
    m in Images(s) && m in s.lastUsed && (p.tagAfter.None? || s.lastUsed[m] > p.tagAfter.value)
  }

  function RecentImages(s: Store, p: Params): set<Digest> {
    set m | m in Images(s) && Recent(s, p, m)
  }

  function TagRoots(s: Store, p: Params, index: seq<Descriptor>): set<Digest> {
    set d | d in index && d.ref != "" && Unexpired(s, p, d.digest) :: d.digest
  }

  function Roots(s: Store, p: Params, repos: seq<Repo>): set<Digest> {
    if repos == [] then RecentImages(s, p)
    else
      var n := |repos| - 1;
      Roots(s, p, repos[..n]) + TagRoots(s, p, repos[n].index)
  }

  /** ImageRepo.Manifests: the entries that have a ref. */
  function Named(index: seq<Descriptor>): seq<Descriptor> {
    if index == [] then []
    else
      var n := |index| - 1;
      Named(index[..n]) + if index[n].ref != "" then [index[n]] else []
  }

  predicate HasExpired(s: Store, p: Params, index: seq<Descriptor>) {
    exists d :: d in index && d.ref != "" && !Unexpired(s, p, d.digest)
  }

  /** ImageStoreRO.RetainRepo: a repository without entries is deleted. */
  function RetainRepo(repo: Repo, keep: set<Digest>, max: int): seq<Repo> {
    var index := Limited(Filter(repo.index, KeepOnly(keep)), max);
    if index == [] then [] else [repo.(index := index)]
  }

  function SweptRepo(s: Store, p: Params, repo: Repo, keep: set<Digest>): seq<Repo> {
    if HasExpired(s, p, repo.index) || |Named(repo.index)| > p.maxPerRepo
    then RetainRepo(repo, keep, p.maxPerRepo)
    else [repo]
  }

  ghost function Kept(s: Store, p: Params, repos: seq<Repo>): set<Digest> {
    Closure(Images(s), Roots(s, p, repos))
  }

  /** The repositories after the sweep: each is filtered by what was marked up to it. */
  ghost function SweptRepos(s: Store, p: Params, repos: seq<Repo>): seq<Repo> {
    if repos == [] then []
    else
      var n := |repos| - 1;
      SweptRepos(s, p, repos[..n]) + SweptRepo(s, p, repos[n], NeededBlobs(Images(s), Kept(s, p, repos)))
  }

  ghost function Collected(s: Store, p: Params): Store {
    var images, kept := Images(s), Kept(s, p, s.repos);
    s.(blobs := s.blobs * NeededBlobs(images, kept),
       imageIds := map id | id in s.imageIds && id in Ids(images, kept) :: s.imageIds[id],
       fsspecs := s.fsspecs * NeededSpecs(s, images, kept),
       repos := SweptRepos(s, p, s.repos))
  }

  lemma {:induction false} RootsAreImages(s: Store, p: Params, repos: seq<Repo>)
    ensures Roots(s, p, repos) <= Images(s).Keys
    decreases |repos|
  {
    if repos != [] { RootsAreImages(s, p, repos[..|repos| - 1]); }
  }

  /** Marks a root if it is not too old. */
  method KeepIf(g: Collector, m: Digest, cond: bool, ghost roots: set<Digest>)
    requires g.Valid() && (cond ==> m in g.images) && roots <= g.images.Keys && g.kept == Closure(g.images, roots)
    modifies g
    ensures g.Valid() && g.kept == Closure(g.images, if cond then roots + {m} else roots)
  {
    if cond {
      ClosureIsClosed(g.images, roots);
      g.Keep(m);
      ClosureGrows(g.images, roots, m, g.kept);
    }
  }

  /** The first loop of GC: images that were used recently, in any order. */
  method KeepRecent(g: Collector, p: Params)
    requires g.Valid() && g.kept == {}
    modifies g
    ensures g.Valid() && g.kept == Closure(g.images, RecentImages(g.store, p))
  {
    hide NeededBlobs, Ids, NeededSpecs, Consistent;
    var todo := g.images.Keys;
    ghost var roots := {};
    assert g.kept == Closure(g.images, {}) by { ClosureIsLeast(g.images, {}, {}); }
    while todo != {}
      invariant g.Valid() && todo <= g.images.Keys
      invariant roots == set m | m in g.images.Keys - todo && Recent(g.store, p, m)
      invariant g.kept == Closure(g.images, roots)
      decreases todo
    {
      var m :| m in todo;
      KeepIf(g, m, Recent(g.store, p, m), roots);
      roots := if Recent(g.store, p, m) then roots + {m} else roots;
      todo := todo - {m};
    }
    assert roots == RecentImages(g.store, p);
  }

  /** The tags of one repository: keeps the unexpired ones and says whether there are others. */
  method KeepTags(g: Collector, p: Params, index: seq<Descriptor>, ghost roots: set<Digest>)
    returns (expired: bool, named: nat)
    requires g.Valid() && roots <= g.images.Keys && g.kept == Closure(g.images, roots)
    modifies g
    ensures g.Valid() && g.kept == Closure(g.images, roots + TagRoots(g.store, p, index))
    ensures expired == HasExpired(g.store, p, index) && named == |Named(index)|
  {
    hide Closure, NeededBlobs, Ids, NeededSpecs, Consistent, Images;
    expired, named := false, 0;
    ghost var now := roots;
    var i := 0;
    assert roots + TagRoots(g.store, p, []) == roots;
    while i < |index|
      invariant 0 <= i <= |index| && g.Valid()
      invariant now == roots + TagRoots(g.store, p, index[..i]) && now <= g.images.Keys
      invariant g.kept == Closure(g.images, now)
      invariant expired == HasExpired(g.store, p, index[..i]) && named == |Named(index[..i])|
    {
      var d := index[i];
      assert index[..i + 1] == index[..i] + [d];
      assert index[..i + 1][..i] == index[..i];
      if d.ref != "" {
        named := named + 1;
        KeepIf(g, d.digest, Unexpired(g.store, p, d.digest), now);
        if Unexpired(g.store, p, d.digest) {
          now := now + {d.digest};
        } else {
          expired := true;
        }
      }
      i := i + 1;
    }
    assert index[..i] == index;
  }

  /** imageGC.GC with no I/O errors: what survives is exactly what the closure of the
      recently used and the unexpired tagged images needs. */
  method GC(s: Store, p: Params) returns (r: Store)
    requires Consistent(s)
    ensures r == Collected(s, p)
  {
    hide Closure, NeededBlobs, Ids, NeededSpecs, Consistent, Images, TagRoots, RetainRepo;
    var g := new Collector(s);
    KeepRecent(g, p);
    var repos: seq<Repo>, i := [], 0;
    while i < |s.repos|
      invariant 0 <= i <= |s.repos| && g.Valid()
      invariant g.kept == Kept(s, p, s.repos[..i]) && repos == SweptRepos(s, p, s.repos[..i])
    {
      assert s.repos[..i + 1][..i] == s.repos[..i];
      RootsAreImages(s, p, s.repos[..i]);
      var expired, named := KeepTags(g, p, s.repos[i].index, Roots(s, p, s.repos[..i]));
      repos := repos +
        if expired || named > p.maxPerRepo then RetainRepo(s.repos[i], g.keepBlobs, p.maxPerRepo) else [s.repos[i]];
      i := i + 1;
    }
    assert s.repos[..i] == s.repos;
    r := s.(blobs := s.blobs * g.keepBlobs,
            imageIds := map id | id in s.imageIds && id in g.keepImgIds :: s.imageIds[id],
            fsspecs := s.fsspecs * g.keepFsSpecs,
            repos := repos);
  }
}
