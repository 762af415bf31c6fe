/** What garbage collection guarantees: independence of the repository order, safe tags,
    and nothing left to do for a second collection. */
module GcLaws {
  import opened Digests
  import opened ImageRepo
  import opened ImageGC
  import opened Options

  lemma {:induction false} RootsHave(s: Store, p: Params, repos: seq<Repo>, m: Digest)
    ensures m in Roots(s, p, repos) <==>
              m in RecentImages(s, p) || exists r :: r in repos && m in TagRoots(s, p, r.index)
    decreases |repos|
  {
    if repos != [] {
      var n := |repos| - 1;
      RootsHave(s, p, repos[..n], m);
      assert repos == repos[..n] + [repos[n]];
      assert repos[n] in repos;
    }
  }

  /** The surviving blobs, image IDs and specs do not depend on the repository order. */
  lemma SurvivorsAnyOrder(s: Store, p: Params, repos: seq<Repo>)
    requires forall r :: r in s.repos <==> r in repos
    ensures Collected(s.(repos := repos), p).(repos := []) == Collected(s, p).(repos := [])
  {
    var t := s.(repos := repos);
    assert Images(t) == Images(s);
    forall m
      ensures m in Roots(t, p, repos) <==> m in Roots(s, p, s.repos)
    {
      RootsHave(t, p, repos, m);
      RootsHave(s, p, s.repos, m);
      assert RecentImages(t, p) == RecentImages(s, p);
      assert forall r: Repo :: TagRoots(t, p, r.index) == TagRoots(s, p, r.index);
    }
    assert Roots(t, p, repos) == Roots(s, p, s.repos);
    forall ks ensures NeededSpecs(t, Images(t), ks) == NeededSpecs(s, Images(s), ks) {
    }
  }

  // --------------------------------------------------- what survives, field by field

  /** An image of the store: an ID names its manifest, which can be read, and the file of
      its last layer is there. */
  predicate IsImage(s: Store, m: Digest) {
    && (exists id :: id in s.imageIds && s.imageIds[id] == m)
    && m in s.blobs && m in s.manifests && m in s.lastUsed
    && (s.manifests[m].layers != [] ==> s.manifests[m].layers[|s.manifests[m].layers| - 1] in s.blobs)
  }

  /** There is no age limit on tags, or the image was used after it. */
  predicate InTime(s: Store, p: Params, m: Digest) {
    IsImage(s, m) && (p.tagAfter.Some? ==> s.lastUsed[m] > p.tagAfter.value)
  }

  /** The manifest, the config or a layer of an image. */
  predicate PartOf(s: Store, b: Digest, m: Digest) {
    m in s.manifests && (b == m || b == s.manifests[m].config || b in s.manifests[m].layers)
  }

  /** Used after the first limit, or named in some repository and not too old for that. */
  predicate IsRoot(s: Store, p: Params, m: Digest) {
    || (IsImage(s, m) && s.lastUsed[m] > p.recentAfter)
    || (InTime(s, p, m) && exists r, d :: r in s.repos && d in r.index && d.ref != "" && d.digest == m)
  }

  /** A chain of images from a root, in which each names the next one as its parent. */
  predicate ParentChain(s: Store, p: Params, chain: seq<Digest>) {
    && chain != [] && IsRoot(s, p, chain[0])
    && (forall i :: 0 <= i < |chain| ==> IsImage(s, chain[i]))
    && (forall i :: 0 <= i < |chain| - 1 ==> s.manifests[chain[i]].parent == Some(chain[i + 1]))
  }

  ghost predicate Reached(s: Store, p: Params, m: Digest) {
    exists chain :: ParentChain(s, p, chain) && chain[|chain| - 1] == m
  }

  lemma ImageIff(s: Store, m: Digest)
    ensures m in Images(s) <==> IsImage(s, m)
    ensures m in Images(s) ==> Images(s)[m] == s.manifests[m]
  {
  }

  lemma RootIff(s: Store, p: Params, m: Digest)
    ensures m in Roots(s, p, s.repos) <==> IsRoot(s, p, m)
  {
    ImageIff(s, m);
    RootsHave(s, p, s.repos, m);
    if m in Images(s) && p.tagAfter.Some? ==> s.lastUsed[m] > p.tagAfter.value {
      if r, d :| r in s.repos && d in r.index && d.ref != "" && d.digest == m {
        assert m in Images(s) ==> m in TagRoots(s, p, r.index);
      }
    }
  }

  lemma {:induction false} ChainKept(s: Store, p: Params, chain: seq<Digest>, kept: set<Digest>)
    requires ParentChain(s, p, chain) && Closed(Images(s), kept) && forall m :: IsRoot(s, p, m) ==> m in kept
    ensures chain[|chain| - 1] in kept
    decreases |chain|
  {
    if |chain| > 1 {
      var n := |chain| - 1;
      var m := chain[n - 1];
      assert chain[..n][n - 1] == m;
      ChainKept(s, p, chain[..n], kept);
      ImageIff(s, m);
      ImageIff(s, chain[n]);
      assert s.manifests[chain[n - 1]].parent == Some(chain[n - 1 + 1]);
      assert ParentIn(Images(s), m) == Some(chain[n]);
    }
  }

  lemma ReachedParent(s: Store, p: Params, m: Digest, parent: Digest)
    requires Reached(s, p, m) && IsImage(s, m) && s.manifests[m].parent == Some(parent) && IsImage(s, parent)
    ensures Reached(s, p, parent)
  {
    var chain :| ParentChain(s, p, chain) && chain[|chain| - 1] == m;
    var more := chain + [parent];
    assert ParentChain(s, p, more) && more[|more| - 1] == parent;
  }

  /** What is kept are the roots and what they name as parents, directly or through others. */
  lemma KeptIffReached(s: Store, p: Params, m: Digest)
    ensures m in Kept(s, p, s.repos) <==> Reached(s, p, m)
  {
    var images, roots := Images(s), Roots(s, p, s.repos);
    hide Images, Roots, IsRoot, IsImage;
    forall r ensures r in roots <==> IsRoot(s, p, r) { RootIff(s, p, r); }
    if Reached(s, p, m) {
      var chain :| ParentChain(s, p, chain) && chain[|chain| - 1] == m;
      forall c | roots <= c && Closed(images, c) ensures m in c { ChainKept(s, p, chain, c); }
      ImageIff(s, m);
    }
    if m in Kept(s, p, s.repos) {
      ReachedIsClosed(s, p);
      var reached := set r | r in images && Reached(s, p, r);
      assert m in reached;
    }
  }

  lemma ReachedIsClosed(s: Store, p: Params)
    ensures var reached := set m | m in Images(s) && Reached(s, p, m);
      Roots(s, p, s.repos) <= reached && Closed(Images(s), reached)
  {
    hide Roots, IsRoot, IsImage, Images, ParentChain;
    var images := Images(s);
    var reached := set m | m in images && Reached(s, p, m);
    forall m | m in Roots(s, p, s.repos)
      ensures m in reached
    {
      RootIff(s, p, m);
      RootReached(s, p, m);
      ImageIff(s, m);
    }
    forall m | m in reached && ParentIn(images, m).Some?
      ensures ParentIn(images, m).value in reached
    {
      var parent := ParentIn(images, m).value;
      ImageIff(s, m);
      ImageIff(s, parent);
      ReachedParent(s, p, m, parent);
    }
  }

  lemma RootReached(s: Store, p: Params, m: Digest)
    requires IsRoot(s, p, m)
    ensures Reached(s, p, m) && IsImage(s, m)
  {
    assert ParentChain(s, p, [m]) && [m][|[m]| - 1] == m;
  }

  /** What is left of the store: the IDs of the reached images, their manifests, configs and
      layers, and the specs of those whose config can be read. */
  lemma SurvivesIff(s: Store, p: Params)
    requires Consistent(s)
    ensures var r := Collected(s, p);
      && (forall id :: id in r.imageIds <==> id in s.imageIds && Reached(s, p, s.imageIds[id]))
      && (forall id :: id in r.imageIds ==> r.imageIds[id] == s.imageIds[id])
      && (forall b :: b in r.blobs <==> b in s.blobs && exists m :: Reached(s, p, m) && PartOf(s, b, m))
      && (forall f :: f in r.fsspecs <==> f in s.fsspecs && exists m ::
            && Reached(s, p, m) && m in s.manifests
            && s.manifests[m].config in s.blobs && s.manifests[m].config in s.configs
            && f == ChainId(s.configs[s.manifests[m].config]))
  {
    hide Kept, Reached, Images, SweptRepos;
    var r, images, kept := Collected(s, p), Images(s), Kept(s, p, s.repos);
    forall m
      ensures m in kept <==> Reached(s, p, m)
      ensures m in kept ==> m in images
      ensures m in images ==> m in s.manifests && images[m] == s.manifests[m]
      ensures m in images ==> exists id :: id in s.imageIds && s.imageIds[id] == m
    {
      KeptIffReached(s, p, m);
      ImageIff(s, m);
      KeptIsImage(s, p, m);
    }
    assert s.repos[..|s.repos|] == s.repos && s.(repos := s.repos) == s;
    forall b ensures b in NeededBlobs(images, kept) <==> exists m :: Reached(s, p, m) && PartOf(s, b, m) {
      NeededIff(s, p, |s.repos|, b);
    }
    forall id
      ensures id in r.imageIds <==> id in s.imageIds && Reached(s, p, s.imageIds[id])
    {
      if id in s.imageIds && s.imageIds[id] in kept {
        var m := s.imageIds[id];
        assert images[m].config == id;
      }
      if id in r.imageIds {
        var m :| m in kept && m in images && images[m].config == id;
        var i :| i in s.imageIds && s.imageIds[i] == m;
      }
    }
  }

  lemma KeptIsImage(s: Store, p: Params, m: Digest)
    ensures m in Kept(s, p, s.repos) ==> m in Images(s)
  {
  }

  /** A named entry of an image stays in its repository if there is no age limit on tags or
      the image was used after it, and if there is no limit on the number of entries. */
  lemma TagsStay(s: Store, p: Params, i: nat, d: Descriptor)
    requires i < |s.repos| && d in s.repos[i].index && d.ref != "" && InTime(s, p, d.digest)
    requires p.maxPerRepo <= 0 || |s.repos[i].index| <= p.maxPerRepo
    ensures exists r :: r in Collected(s, p).repos && r.name == s.repos[i].name && d in r.index
  {
    var repo, kept := s.repos[i], Kept(s, p, s.repos[..i + 1]);
    ImageIff(s, d.digest);
    assert d.digest in TagRoots(s, p, repo.index);
    assert s.repos[..i + 1][..i] == s.repos[..i];
    assert d.digest in Roots(s, p, s.repos[..i + 1]);
    RootsAreImages(s, p, s.repos[..i + 1]);
    ClosureIsClosed(Images(s), Roots(s, p, s.repos[..i + 1]));
    var keep := NeededBlobs(Images(s), kept);
    assert d.digest in keep by { assert d.digest in BlobsOf(d.digest, Images(s)[d.digest]); }
    hide Images, NeededBlobs, Kept, Roots, TagRoots;
    FilterHas(repo.index, KeepOnly(keep), d);
    FilterShrinks(repo.index, KeepOnly(keep));
    var r := if HasExpired(s, p, repo.index) || |Named(repo.index)| > p.maxPerRepo
             then repo.(index := Filter(repo.index, KeepOnly(keep))) else repo;
    assert r in LeftOf(s, p, s.repos, i);
    assert s.(repos := s.repos) == s;
    CollectedHas(s, p, s.repos, r);
  }

  lemma {:induction false} FilterShrinks(index: seq<Descriptor>, rule: Rule)
    ensures |Filter(index, rule)| <= |index|
    decreases |index|
  {
    if index != [] { FilterShrinks(index[..|index| - 1], rule); }
  }

  /** With a limit no repository has more named entries than that. */
  lemma LimitHolds(s: Store, p: Params, r: Repo)
    requires p.maxPerRepo > 0 && r in Collected(s, p).repos
    ensures |Named(r.index)| <= p.maxPerRepo
  {
    hide Images, NeededBlobs, Kept, HasExpired;
    assert s.repos[..|s.repos|] == s.repos;
    var i := SweptFrom(s, p, |s.repos|, r);
    NamedFewer(r.index);
  }

  lemma {:induction false} NamedFewer(index: seq<Descriptor>)
    ensures |Named(index)| <= |index|
    decreases |index|
  {
    if index != [] { NamedFewer(index[..|index| - 1]); }
  }

  /** Which entries a repository keeps: all of them, if its named entries are few enough and
      all of images that are not too old; otherwise those whose digest belongs to an image
      reached from the recent images and from the repositories up to this one, the first
      ones if they are too many. */
  lemma EntriesLeft(s: Store, p: Params, i: nat, d: Descriptor)
    requires i < |s.repos| && (p.maxPerRepo <= 0 || |s.repos[i].index| <= p.maxPerRepo)
    ensures var t := s.(repos := s.repos[..i + 1]);
      var index := s.repos[i].index;
      var filtered := (exists e :: e in index && e.ref != "" && !InTime(s, p, e.digest)) ||
        |Named(index)| > p.maxPerRepo;
      (exists r :: r in LeftOf(s, p, s.repos, i) && d in r.index) <==>
      d in index && (filtered ==> exists m :: Reached(t, p, m) && PartOf(s, d.digest, m))
  {
    var repo, t := s.repos[i], s.(repos := s.repos[..i + 1]);
    var keep := NeededBlobs(Images(s), Kept(s, p, s.repos[..i + 1]));
    NeededIff(s, p, i + 1, d.digest);
    forall m ensures Unexpired(s, p, m) <==> InTime(s, p, m) { ImageIff(s, m); }
    hide Images, NeededBlobs, Kept, Unexpired, Reached, InTime;
    FilterHas(repo.index, KeepOnly(keep), d);
    FilterShrinks(repo.index, KeepOnly(keep));
  }

  lemma KeptUpTo(s: Store, p: Params, n: nat, m: Digest)
    requires n <= |s.repos|
    ensures m in Kept(s, p, s.repos[..n]) <==> Reached(s.(repos := s.repos[..n]), p, m)
    ensures m in Kept(s, p, s.repos[..n]) ==> m in Images(s)
    ensures m in Images(s) ==> m in s.manifests && Images(s)[m] == s.manifests[m]
  {
    var t := s.(repos := s.repos[..n]);
    RootsAlike(s, p, s.repos[..n], s.repos[..n]);
    assert Images(t) == Images(s);
    hide Images, Roots, Reached;
    KeptIffReached(t, p, m);
    ImageIff(s, m);
  }

  lemma NeededIff(s: Store, p: Params, n: nat, b: Digest)
    requires n <= |s.repos|
    ensures var t := s.(repos := s.repos[..n]);
      b in NeededBlobs(Images(s), Kept(s, p, s.repos[..n])) <==> exists m :: Reached(t, p, m) && PartOf(s, b, m)
  {
    hide Images, Kept, Reached;
    var t, images, kept := s.(repos := s.repos[..n]), Images(s), Kept(s, p, s.repos[..n]);
    if b in NeededBlobs(images, kept) {
      var m :| m in kept && m in images && b in BlobsOf(m, images[m]);
      KeptUpTo(s, p, n, m);
    }
    if m :| Reached(t, p, m) && PartOf(s, b, m) {
      KeptUpTo(s, p, n, m);
      assert b in BlobsOf(m, images[m]);
    }
  }

  // ------------------------------------------------------------------------- tags

  /** Manifests named by tags are not configs or layers of images. */
  predicate Typed(s: Store) {
    forall r, d, m :: r in s.repos && d in r.index && m in Images(s) ==>
      d.digest != Images(s)[m].config && d.digest !in Images(s)[m].layers
  }

  lemma {:induction false} RootsGrow(s: Store, p: Params, repos: seq<Repo>, n: nat)
    requires n <= |repos|
    ensures Roots(s, p, repos[..n]) <= Roots(s, p, repos)
    decreases |repos|
  {
    if n == |repos| {
      assert repos[..n] == repos;
    } else {
      assert repos[..|repos| - 1][..n] == repos[..n];
      RootsGrow(s, p, repos[..|repos| - 1], n);
    }
  }

  lemma ClosureMonotone(images: map<Digest, Manifest>, roots: set<Digest>, more: set<Digest>)
    requires roots <= more
    ensures Closure(images, roots) <= Closure(images, more)
  {
  }

  lemma FilteredTagKept(s: Store, repo: Repo, kept: set<Digest>, max: int, d: Descriptor)
    requires Typed(s) && repo in s.repos
    requires d in Limited(Filter(repo.index, KeepOnly(NeededBlobs(Images(s), kept))), max)
    ensures d in repo.index && d.digest in kept
  {
    var images := Images(s);
    var keep := KeepOnly(NeededBlobs(images, kept));
    LimitHas(Filter(repo.index, keep), max, d);
    FilterHas(repo.index, keep, d);
    var m :| m in kept && m in images && d.digest in BlobsOf(m, images[m]);
  }

  /** Every tag that a repository keeps names a kept image. */
  lemma TagKept(s: Store, p: Params, n: nat, repo: Repo, d: Descriptor)
    requires Typed(s) && n < |s.repos|
    requires repo in SweptRepo(s, p, s.repos[n], NeededBlobs(Images(s), Kept(s, p, s.repos[..n + 1])))
    requires d in repo.index && d.ref != ""
    ensures d in s.repos[n].index && d.digest in Kept(s, p, s.repos[..n + 1])
  {
    var kept, was := Kept(s, p, s.repos[..n + 1]), s.repos[n];
    if HasExpired(s, p, was.index) || |Named(was.index)| > p.maxPerRepo {
      FilteredTagKept(s, was, kept, p.maxPerRepo, d);
    } else {
      assert Unexpired(s, p, d.digest);
      assert s.repos[..n + 1][..n] == s.repos[..n];
      assert d.digest in TagRoots(s, p, was.index);
      RootsAreImages(s, p, s.repos[..n + 1]);
      ClosureIsClosed(Images(s), Roots(s, p, s.repos[..n + 1]));
    }
  }

  lemma LimitHas(index: seq<Descriptor>, max: int, d: Descriptor)
    requires d in Limited(index, max)
    ensures d in index
  {
  }

  lemma {:induction false} SweptFrom(s: Store, p: Params, n: nat, repo: Repo) returns (i: nat)
    requires n <= |s.repos| && repo in SweptRepos(s, p, s.repos[..n])
    ensures i < n && repo in SweptRepo(s, p, s.repos[i], NeededBlobs(Images(s), Kept(s, p, s.repos[..i + 1])))
  {
    hide Images, NeededBlobs, Kept, SweptRepo;
    if n > 0 {
      assert s.repos[..n][..n - 1] == s.repos[..n - 1];
      if repo in SweptRepos(s, p, s.repos[..n - 1]) {
        i := SweptFrom(s, p, n - 1, repo);
      } else {
        i := n - 1;
      }
    }
  }

  /** Tag safety: every ref left in any repository names an image whose ID entry,
      manifest, config and layers are all kept. */
  lemma TagsSafe(s: Store, p: Params, repo: Repo, d: Descriptor)
    requires Consistent(s) && Typed(s) && repo in Collected(s, p).repos && d in repo.index && d.ref != ""
    ensures var r, m := Collected(s, p), d.digest;
      && m in Images(s) && m in r.blobs
      && Images(s)[m].config in r.imageIds && r.imageIds[Images(s)[m].config] == m
      && (forall b :: b in BlobsOf(m, Images(s)[m]) && b in s.blobs ==> b in r.blobs)
  {
    assert s.repos[..|s.repos|] == s.repos;
    var i := SweptFrom(s, p, |s.repos|, repo);
    TagKept(s, p, i, repo, d);
    RootsGrow(s, p, s.repos, i + 1);
    var images, kept := Images(s), Kept(s, p, s.repos);
    ClosureMonotone(images, Roots(s, p, s.repos[..i + 1]), Roots(s, p, s.repos));
    KeptSurvives(s, kept, d.digest);
  }

  lemma KeptSurvives(s: Store, kept: set<Digest>, m: Digest)
    requires Consistent(s) && m in kept && m in Images(s)
    ensures var images := Images(s);
      && BlobsOf(m, images[m]) <= NeededBlobs(images, kept)
      && images[m].config in Ids(images, kept)
      && images[m].config in s.imageIds && s.imageIds[images[m].config] == m
  {
    var id :| id in s.imageIds && s.imageIds[id] == m;
  }

  // ------------------------------------------------------------------- tag order

  const PARENT := Blob(1)
  const CHILD := Blob(2)
  const OLD_TAG := Repo("old", [Descriptor("v1", "amd64", "linux", PARENT, 1, true)])
  const NEW_TAG := Repo("new", [Descriptor("v2", "amd64", "linux", CHILD, 1, true)])

  /** Two images without layers; the old parent has a tag of its own. */
  function TwoImages(repos: seq<Repo>): Store {
    Store({PARENT, CHILD}, map[Blob(3) := PARENT, Blob(4) := CHILD], {}, repos,
          map[PARENT := Manifest(Blob(3), [], None), CHILD := Manifest(Blob(4), [], Some(PARENT))], map[],
          map[PARENT := 0, CHILD := 10])
  }

  const TAG_LIMIT := Params(100, Some(5), 0)

  lemma TwoImagesImages(repos: seq<Repo>)
    ensures var s := TwoImages(repos);
      && Consistent(s) && Images(s) == s.manifests && RecentImages(s, TAG_LIMIT) == {}
      && TagRoots(s, TAG_LIMIT, OLD_TAG.index) == {} && TagRoots(s, TAG_LIMIT, NEW_TAG.index) == {CHILD}
  {
    var s := TwoImages(repos);
    assert s.imageIds[Blob(3)] == PARENT && s.imageIds[Blob(4)] == CHILD;
    assert s.imageIds.Values == {PARENT, CHILD};
  }

  lemma TwoImagesKept(repos: seq<Repo>, roots: set<Digest>)
    requires roots == {} || roots == {CHILD}
    ensures Closure(TwoImages(repos).manifests, roots) == if roots == {} then {} else {PARENT, CHILD}
  {
    var images := TwoImages(repos).manifests;
    ClosureIsLeast(images, {}, {});
    forall c | {CHILD} <= c && Closed(images, c)
      ensures {PARENT, CHILD} <= c
    {
      assert ParentIn(images, CHILD) == Some(PARENT);
    }
    ClosureIsLeast(images, {CHILD}, {PARENT, CHILD});
  }

  /** Whether the tag of an expired parent image stays does depend on the order: it goes
      when its repository is visited before the one that keeps the child. */
  lemma TagsDependOnOrder()
    ensures Collected(TwoImages([OLD_TAG] + [NEW_TAG]), TAG_LIMIT).repos == [NEW_TAG]
    ensures Collected(TwoImages([NEW_TAG] + [OLD_TAG]), TAG_LIMIT).repos == [NEW_TAG] + [OLD_TAG]
  {
    OldTagFirst();
    NewTagFirst();
  }

  /** What is left of the repository at position `i` of an order. */
  ghost function LeftOf(s: Store, p: Params, repos: seq<Repo>, i: nat): seq<Repo>
    requires i < |repos|
  {
    SweptRepo(s, p, repos[i], NeededBlobs(Images(s), Kept(s, p, repos[..i + 1])))
  }

  /** What is left of a repository that is visited first, and of one that is visited last. */
  ghost function LeftIfFirst(s: Store, p: Params, r: Repo): seq<Repo> {
    SweptRepo(s, p, r, NeededBlobs(Images(s), Closure(Images(s), RecentImages(s, p) + TagRoots(s, p, r.index))))
  }

  ghost function LeftIfLast(s: Store, p: Params, r: Repo, repos: seq<Repo>): seq<Repo> {
    SweptRepo(s, p, r, NeededBlobs(Images(s), Kept(s, p, repos)))
  }

  /** In all orders of the repositories, the same is left of each. */
  ghost predicate OrderIrrelevant(s: Store, p: Params, repos: seq<Repo>) {
    forall xs, ys, i, j :: SameRepo(repos, xs, ys, i, j) ==> LeftOf(s, p, xs, i) == LeftOf(s, p, ys, j)
  }

  /** A repository has these positions in two orders of the repositories. */
  predicate SameRepo(repos: seq<Repo>, xs: seq<Repo>, ys: seq<Repo>, i: int, j: int) {
    && multiset(xs) == multiset(repos) && multiset(ys) == multiset(repos)
    && 0 <= i < |xs| && 0 <= j < |ys| && xs[i] == ys[j]
  }

  predicate Within(index: seq<Descriptor>, keep: set<Digest>) {
    forall i :: 0 <= i < |index| ==> index[i].digest in keep
  }

  lemma {:induction false} FilterWithin(index: seq<Descriptor>, keep: set<Digest>)
    ensures Within(Filter(index, KeepOnly(keep)), keep)
    decreases |index|
  {
    if index != [] { FilterWithin(index[..|index| - 1], keep); }
  }

  /** A smaller filter leaves the same if it lets through all that the larger one leaves. */
  lemma {:induction false} NarrowFilter(index: seq<Descriptor>, less: set<Digest>, more: set<Digest>, max: int)
    requires less <= more && Within(Limited(Filter(index, KeepOnly(more)), max), less)
    ensures Limited(Filter(index, KeepOnly(less)), max) == Limited(Filter(index, KeepOnly(more)), max)
    decreases |index|
  {
    if index != [] {
      var n := |index| - 1;
      var f, g := Filter(index[..n], KeepOnly(more)), Filter(index, KeepOnly(more));
      assert forall i :: 0 <= i < |Limited(f, max)| ==> Limited(f, max)[i] == Limited(g, max)[i];
      NarrowFilter(index[..n], less, more, max);
      if !(max > 0 && |f| >= max) && index[n].digest in more {
        assert Limited(g, max)[|f|] == index[n];
      }
    }
  }

  lemma SandwichedRepo(s: Store, p: Params, r: Repo, less: set<Digest>, keep: set<Digest>, more: set<Digest>)
    requires less <= keep <= more && SweptRepo(s, p, r, less) == SweptRepo(s, p, r, more)
    ensures SweptRepo(s, p, r, keep) == SweptRepo(s, p, r, more)
  {
    if HasExpired(s, p, r.index) || |Named(r.index)| > p.maxPerRepo {
      hide HasExpired, Named;
      var f, g := Filter(r.index, KeepOnly(less)), Filter(r.index, KeepOnly(more));
      assert Limited(f, p.maxPerRepo) == Limited(g, p.maxPerRepo) by {
        if Limited(f, p.maxPerRepo) != [] {
          assert RetainRepo(r, less, p.maxPerRepo)[0].index == Limited(f, p.maxPerRepo);
        }
        if Limited(g, p.maxPerRepo) != [] {
          assert RetainRepo(r, more, p.maxPerRepo)[0].index == Limited(g, p.maxPerRepo);
        }
      }
      FilterWithin(r.index, less);
      assert Within(Limited(f, p.maxPerRepo), less);
      NarrowFilter(r.index, keep, more, p.maxPerRepo);
    }
  }

  lemma NeededGrows(images: map<Digest, Manifest>, kept: set<Digest>, more: set<Digest>)
    requires kept <= more
    ensures NeededBlobs(images, kept) <= NeededBlobs(images, more)
  {
  }

  lemma {:induction false} RootsRecent(s: Store, p: Params, repos: seq<Repo>)
    ensures RecentImages(s, p) <= Roots(s, p, repos)
    decreases |repos|
  {
    if repos != [] { RootsRecent(s, p, repos[..|repos| - 1]); }
  }

  lemma SameRoots(s: Store, p: Params, xs: seq<Repo>, ys: seq<Repo>)
    requires multiset(xs) == multiset(ys)
    ensures Roots(s, p, xs) == Roots(s, p, ys)
  {
    forall m ensures m in Roots(s, p, xs) <==> m in Roots(s, p, ys) {
      RootsHave(s, p, xs, m);
      RootsHave(s, p, ys, m);
      assert forall r :: r in xs <==> r in multiset(xs);
      assert forall r :: r in ys <==> r in multiset(ys);
    }
  }

  /** At any position the filter lies between those of the first and the last one. */
  lemma LeftBetween(s: Store, p: Params, repos: seq<Repo>, xs: seq<Repo>, i: nat)
    requires multiset(xs) == multiset(repos) && i < |xs|
    requires LeftIfFirst(s, p, xs[i]) == LeftIfLast(s, p, xs[i], repos)
    ensures LeftOf(s, p, xs, i) == LeftIfLast(s, p, xs[i], repos)
  {
    hide SweptRepo, NeededBlobs, Closure, Images, RecentImages, TagRoots;
    var images, r := Images(s), xs[i];
    var first, here, all := RecentImages(s, p) + TagRoots(s, p, r.index), Roots(s, p, xs[..i + 1]), Roots(s, p, repos);
    SameRoots(s, p, xs, repos);
    RootsGrow(s, p, xs, i + 1);
    RootsRecent(s, p, xs[..i]);
    assert xs[..i + 1][..i] == xs[..i];
    assert first <= here <= all;
    ClosureMonotone(images, first, here);
    ClosureMonotone(images, here, all);
    NeededGrows(images, Closure(images, first), Closure(images, here));
    NeededGrows(images, Closure(images, here), Closure(images, all));
    SandwichedRepo(s, p, r, NeededBlobs(images, Closure(images, first)), NeededBlobs(images, Closure(images, here)),
                   NeededBlobs(images, Closure(images, all)));
  }

  lemma FirstAndLast(s: Store, p: Params, repos: seq<Repo>, k: nat) returns (xs: seq<Repo>, ys: seq<Repo>)
    requires k < |repos|
    ensures multiset(xs) == multiset(ys) == multiset(repos) && |xs| == |ys| == |repos|
    ensures xs[0] == ys[|ys| - 1] == repos[k]
    ensures LeftOf(s, p, xs, 0) == LeftIfFirst(s, p, repos[k])
    ensures LeftOf(s, p, ys, |ys| - 1) == LeftIfLast(s, p, repos[k], repos)
  {
    hide SweptRepo, NeededBlobs, Closure, Images, RecentImages, TagRoots;
    var r, others := repos[k], repos[..k] + repos[k + 1..];
    xs, ys := [r] + others, others + [r];
    assert repos == repos[..k] + [r] + repos[k + 1..];
    assert multiset(xs) == multiset(repos) == multiset(ys);
    assert xs[..1] == [r] && [r][..0] == [];
    assert Roots(s, p, [r]) == Roots(s, p, []) + TagRoots(s, p, r.index);
    assert ys[..|ys|] == ys;
    SameRoots(s, p, ys, repos);
  }

  /** The tags that collection leaves do not depend on the order of the repositories if and
      only if every repository is left the same whether it is visited first or last. */
  lemma OrderIrrelevantIff(s: Store, p: Params, repos: seq<Repo>)
    ensures OrderIrrelevant(s, p, repos) <==>
      forall k :: 0 <= k < |repos| ==> LeftIfFirst(s, p, repos[k]) == LeftIfLast(s, p, repos[k], repos)
  {
    hide LeftOf, LeftIfFirst, LeftIfLast;
    if OrderIrrelevant(s, p, repos) {
      forall k | 0 <= k < |repos| ensures LeftIfFirst(s, p, repos[k]) == LeftIfLast(s, p, repos[k], repos) {
        var xs, ys := FirstAndLast(s, p, repos, k);
        assert SameRepo(repos, xs, ys, 0, |ys| - 1);
      }
    } else {
      var xs, ys, i, j :| SameRepo(repos, xs, ys, i, j) && LeftOf(s, p, xs, i) != LeftOf(s, p, ys, j);
      assert xs[i] in multiset(xs);
      var k :| 0 <= k < |repos| && repos[k] == xs[i];
      if LeftIfFirst(s, p, repos[k]) == LeftIfLast(s, p, repos[k], repos) {
        LeftBetween(s, p, repos, xs, i);
        LeftBetween(s, p, repos, ys, j);
      }
    }
  }

  ghost function LeftUpTo(s: Store, p: Params, repos: seq<Repo>, n: nat): seq<Repo>
    requires n <= |repos|
  {
    if n == 0 then [] else LeftUpTo(s, p, repos, n - 1) + LeftOf(s, p, repos, n - 1)
  }

  /** The collected repositories are what is left of each, in order. */
  lemma {:induction false} CollectedInOrder(s: Store, p: Params, repos: seq<Repo>, n: nat)
    requires n <= |repos|
    ensures SweptRepos(s.(repos := repos), p, repos[..n]) == LeftUpTo(s, p, repos, n)
  {
    hide SweptRepo, NeededBlobs, Kept, Images;
    if n > 0 {
      CollectedInOrder(s, p, repos, n - 1);
      assert repos[..n][..n - 1] == repos[..n - 1];
      SweptAlike(s, p, repos, n - 1);
    }
  }

  lemma {:induction false} RootsAlike(s: Store, p: Params, repos: seq<Repo>, xs: seq<Repo>)
    ensures Roots(s.(repos := repos), p, xs) == Roots(s, p, xs)
    decreases |xs|
  {
    if xs == [] {
      assert RecentImages(s.(repos := repos), p) == RecentImages(s, p);
    } else {
      RootsAlike(s, p, repos, xs[..|xs| - 1]);
      assert TagRoots(s.(repos := repos), p, xs[|xs| - 1].index) == TagRoots(s, p, xs[|xs| - 1].index);
    }
  }

  /** What the store says of the order does not matter to the order that is visited. */
  lemma SweptAlike(s: Store, p: Params, repos: seq<Repo>, i: nat)
    requires i < |repos|
    ensures var t := s.(repos := repos);
      SweptRepo(t, p, repos[i], NeededBlobs(Images(t), Kept(t, p, repos[..i + 1]))) == LeftOf(s, p, repos, i)
  {
    var t := s.(repos := repos);
    RootsAlike(s, p, repos, repos[..i + 1]);
    assert Images(t) == Images(s);
    assert HasExpired(t, p, repos[i].index) == HasExpired(s, p, repos[i].index);
  }

  lemma {:induction false} LeftHas(s: Store, p: Params, repos: seq<Repo>, n: nat, r: Repo)
    requires n <= |repos|
    ensures r in LeftUpTo(s, p, repos, n) <==> exists i :: 0 <= i < n && r in LeftOf(s, p, repos, i)
  {
    hide LeftOf;
    if n > 0 { LeftHas(s, p, repos, n - 1, r); }
  }

  lemma CollectedHas(s: Store, p: Params, repos: seq<Repo>, r: Repo)
    ensures r in Collected(s.(repos := repos), p).repos <==> exists i :: 0 <= i < |repos| && r in LeftOf(s, p, repos, i)
  {
    hide LeftOf;
    assert repos[..|repos|] == repos;
    CollectedInOrder(s, p, repos, |repos|);
    LeftHas(s, p, repos, |repos|, r);
  }

  predicate DistinctNames(repos: seq<Repo>) {
    forall i, j :: 0 <= i < j < |repos| ==> repos[i].name != repos[j].name
  }

  lemma Twice(xs: seq<Repo>, i: nat, j: nat)
    requires i < j < |xs| && xs[i] == xs[j]
    ensures multiset(xs)[xs[i]] >= 2
  {
    var left, right := xs[..j], xs[j..];
    assert xs == left + right && left[i] in left && right[0] in right;
  }

  lemma Once(repos: seq<Repo>, k: nat)
    requires DistinctNames(repos) && k < |repos|
    ensures multiset(repos)[repos[k]] == 1
  {
    var left, right := repos[..k], repos[k + 1..];
    assert repos == left + [repos[k]] + right;
    assert repos[k] !in left && repos[k] !in right;
  }

  lemma SamePlace(repos: seq<Repo>, xs: seq<Repo>, i: nat, j: nat)
    requires DistinctNames(repos) && multiset(xs) == multiset(repos) && i < |xs| && j < |xs| && xs[i].name == xs[j].name
    ensures i == j
  {
    var k := Place(repos, xs[i], multiset(xs));
    var l := Place(repos, xs[j], multiset(xs));
    assert k == l;
    Once(repos, k);
    if i < j { Twice(xs, i, j); }
    if j < i { Twice(xs, j, i); }
  }

  lemma Place(repos: seq<Repo>, r: Repo, all: multiset<Repo>) returns (k: nat)
    requires all == multiset(repos) && r in all
    ensures k < |repos| && repos[k] == r
  {
    assert r in repos;
    k :| k < |repos| && repos[k] == r;
  }

  /** At most one repository is left of one, under its name. */
  lemma LeftName(s: Store, p: Params, repos: seq<Repo>, i: nat)
    requires i < |repos|
    ensures var l := LeftOf(s, p, repos, i); l == [] || (|l| == 1 && l[0].name == repos[i].name)
  {
  }

  /** Collection leaves the same repositories with the same tags in every order. */
  ghost predicate CollectsAnyhow(s: Store, p: Params) {
    forall xs, r :: multiset(xs) == multiset(s.repos) ==>
      (r in Collected(s.(repos := xs), p).repos <==> r in Collected(s, p).repos)
  }

  lemma LeftElsewhere(s: Store, p: Params, xs: seq<Repo>, ys: seq<Repo>, i: nat, r: Repo)
    requires OrderIrrelevant(s, p, s.repos) && multiset(xs) == multiset(s.repos) == multiset(ys)
    requires i < |xs| && r in LeftOf(s, p, xs, i)
    ensures exists j :: 0 <= j < |ys| && r in LeftOf(s, p, ys, j)
  {
    hide LeftOf;
    assert xs[i] in multiset(xs);
    var j := Place(ys, xs[i], multiset(xs));
    assert SameRepo(s.repos, xs, ys, i, j);
  }

  lemma LeftAlike(s: Store, p: Params, xs: seq<Repo>, ys: seq<Repo>, i: nat, j: nat)
    requires DistinctNames(s.repos) && CollectsAnyhow(s, p) && SameRepo(s.repos, xs, ys, i, j)
    requires LeftOf(s, p, xs, i) != []
    ensures LeftOf(s, p, xs, i) == LeftOf(s, p, ys, j)
  {
    hide LeftOf, Collected;
    LeftName(s, p, xs, i);
    var r := LeftOf(s, p, xs, i)[0];
    CollectedHas(s, p, xs, r);
    CollectedHas(s, p, ys, r);
    assert r in Collected(s.(repos := xs), p).repos <==> r in Collected(s, p).repos;
    assert r in Collected(s.(repos := ys), p).repos;
    var k :| 0 <= k < |ys| && r in LeftOf(s, p, ys, k);
    LeftName(s, p, ys, k);
    SamePlace(s.repos, ys, j, k);
  }

  /** Collection leaves the same tags in every order of the repositories if and only if
      every repository is left the same whether it is visited first or last. */
  lemma CollectsAnyhowIff(s: Store, p: Params)
    requires DistinctNames(s.repos)
    ensures CollectsAnyhow(s, p) <==>
      forall k :: 0 <= k < |s.repos| ==> LeftIfFirst(s, p, s.repos[k]) == LeftIfLast(s, p, s.repos[k], s.repos)
  {
    hide LeftOf, LeftIfFirst, LeftIfLast, Collected, DistinctNames;
    OrderIrrelevantIff(s, p, s.repos);
    if OrderIrrelevant(s, p, s.repos) {
      assert s.(repos := s.repos) == s;
      forall xs, r | multiset(xs) == multiset(s.repos)
        ensures r in Collected(s.(repos := xs), p).repos <==> r in Collected(s, p).repos
      {
        CollectedHas(s, p, xs, r);
        CollectedHas(s, p, s.repos, r);
        if i :| 0 <= i < |xs| && r in LeftOf(s, p, xs, i) { LeftElsewhere(s, p, xs, s.repos, i, r); }
        if i :| 0 <= i < |s.repos| && r in LeftOf(s, p, s.repos, i) { LeftElsewhere(s, p, s.repos, xs, i, r); }
      }
    }
    if CollectsAnyhow(s, p) {
      forall xs, ys, i, j | SameRepo(s.repos, xs, ys, i, j)
        ensures LeftOf(s, p, xs, i) == LeftOf(s, p, ys, j)
      {
        if LeftOf(s, p, xs, i) != [] {
          LeftAlike(s, p, xs, ys, i, j);
        } else if LeftOf(s, p, ys, j) != [] {
          LeftAlike(s, p, ys, xs, j, i);
        }
      }
    }
  }

  lemma SweptSnoc(s: Store, p: Params, repos: seq<Repo>, r: Repo)
    ensures Roots(s, p, repos + [r]) == Roots(s, p, repos) + TagRoots(s, p, r.index)
    ensures SweptRepos(s, p, repos + [r]) ==
            SweptRepos(s, p, repos) + SweptRepo(s, p, r, NeededBlobs(Images(s), Kept(s, p, repos + [r])))
  {
    assert (repos + [r])[..|repos|] == repos;
  }

  lemma SweptNone(s: Store, p: Params)
    ensures Roots(s, p, []) == RecentImages(s, p) && SweptRepos(s, p, []) == []
  {
  }

  lemma OneTag(s: Store, r: Repo, keep: set<Digest>)
    requires |r.index| == 1 && r.index[0].ref != ""
    ensures SweptRepo(s, TAG_LIMIT, r, keep) == if r.index[0].digest in keep then [r] else []
  {
    assert r.index == [r.index[0]] && r.index[..0] == [];
    assert |Named(r.index)| == 1;
    assert Filter(r.index, KeepOnly(keep)) == if r.index[0].digest in keep then r.index else [];
  }

  lemma OldTagFirst()
    ensures Collected(TwoImages([OLD_TAG] + [NEW_TAG]), TAG_LIMIT).repos == [NEW_TAG]
  {
    hide SweptRepo, SweptRepos, Roots, Closure, Images, TagRoots, RecentImages;
    var repos := [OLD_TAG] + [NEW_TAG];
    var s := TwoImages(repos);
    TwoImagesImages(repos);
    TwoImagesKept(repos, {});
    TwoImagesKept(repos, {CHILD});
    assert [] + [OLD_TAG] == [OLD_TAG];
    SweptNone(s, TAG_LIMIT);
    SweptSnoc(s, TAG_LIMIT, [], OLD_TAG);
    SweptSnoc(s, TAG_LIMIT, [OLD_TAG], NEW_TAG);
    assert NeededBlobs(Images(s), {}) == {};
    assert CHILD in NeededBlobs(Images(s), {PARENT, CHILD}) by { assert CHILD in BlobsOf(CHILD, Images(s)[CHILD]); }
    OneTag(s, OLD_TAG, {});
    OneTag(s, NEW_TAG, NeededBlobs(Images(s), {PARENT, CHILD}));
    assert Roots(s, TAG_LIMIT, [OLD_TAG]) == {} && Roots(s, TAG_LIMIT, repos) == {CHILD};
    assert Kept(s, TAG_LIMIT, [OLD_TAG]) == {};
    assert Kept(s, TAG_LIMIT, repos) == {PARENT, CHILD};
  }

  lemma NewTagFirst()
    ensures Collected(TwoImages([NEW_TAG] + [OLD_TAG]), TAG_LIMIT).repos == [NEW_TAG] + [OLD_TAG]
  {
    hide SweptRepo, SweptRepos, Roots, Closure, Images, TagRoots, RecentImages;
    var repos := [NEW_TAG] + [OLD_TAG];
    var s := TwoImages(repos);
    TwoImagesImages(repos);
    TwoImagesKept(repos, {CHILD});
    assert [] + [NEW_TAG] == [NEW_TAG];
    SweptNone(s, TAG_LIMIT);
    SweptSnoc(s, TAG_LIMIT, [], NEW_TAG);
    SweptSnoc(s, TAG_LIMIT, [NEW_TAG], OLD_TAG);
    var needed := NeededBlobs(Images(s), {PARENT, CHILD});
    assert CHILD in needed by { assert CHILD in BlobsOf(CHILD, Images(s)[CHILD]); }
    assert PARENT in needed by { assert PARENT in BlobsOf(PARENT, Images(s)[PARENT]); }
    OneTag(s, NEW_TAG, needed);
    OneTag(s, OLD_TAG, needed);
    assert Roots(s, TAG_LIMIT, [NEW_TAG]) == {CHILD} && Roots(s, TAG_LIMIT, repos) == {CHILD};
    assert Kept(s, TAG_LIMIT, [NEW_TAG]) == {PARENT, CHILD};
    assert Kept(s, TAG_LIMIT, repos) == {PARENT, CHILD};
  }

  // ------------------------------------------------------------ a second collection

  lemma KeptReadable(s: Store, p: Params, m: Digest)
    requires Consistent(s) && m in Kept(s, p, s.repos)
    ensures var r := Collected(s, p);
      m in Images(s) && m in Images(r) && Images(r)[m] == Images(s)[m]
  {
    hide Kept, Consistent, NeededSpecs, SweptRepos;
    var r, images, kept := Collected(s, p), Images(s), Kept(s, p, s.repos);
    KeptAreImages(s, p, s.repos);
    KeptSurvives(s, kept, m);
    assert r.manifests == s.manifests && r.lastUsed == s.lastUsed;
    assert r.imageIds[images[m].config] == m;
    assert m in BlobsOf(m, images[m]);
    if images[m].layers != [] {
      assert images[m].layers[|images[m].layers| - 1] in BlobsOf(m, images[m]);
    }
  }

  lemma ReadableKept(s: Store, p: Params, m: Digest)
    requires Consistent(s) && m in Images(Collected(s, p))
    ensures m in Kept(s, p, s.repos)
  {
    hide Kept, Consistent, NeededSpecs, SweptRepos, NeededBlobs;
    var r, images, kept := Collected(s, p), Images(s), Kept(s, p, s.repos);
    var id :| id in r.imageIds && r.imageIds[id] == m;
    var k :| k in kept && k in images && images[k].config == id;
    KeptSurvives(s, kept, k);
  }

  /** The images of the collected store are the kept ones. */
  lemma CollectedImages(s: Store, p: Params)
    requires Consistent(s)
    ensures var r, kept := Collected(s, p), Kept(s, p, s.repos);
      && Consistent(r) && Images(r).Keys == kept <= Images(s).Keys
      && forall m :: m in kept ==> Images(r)[m] == Images(s)[m]
  {
    var r, kept := Collected(s, p), Kept(s, p, s.repos);
    assert Consistent(r);
    hide Images, Kept, Consistent, Collected;
    forall m | m in kept
      ensures m in Images(s) && m in Images(r) && Images(r)[m] == Images(s)[m]
    {
      KeptReadable(s, p, m);
    }
    forall m | m in Images(r) ensures m in kept { ReadableKept(s, p, m); }
  }

  /** Within a closed set of images, the closure is the same. */
  lemma ClosureWithin(images: map<Digest, Manifest>, part: map<Digest, Manifest>, roots: set<Digest>)
    requires roots <= part.Keys <= images.Keys && Closed(images, part.Keys)
    requires forall m :: m in part ==> part[m] == images[m]
    ensures Closure(part, roots) == Closure(images, roots)
  {
    ClosureIsClosed(part, roots);
    ClosureIsClosed(images, roots);
    var k, l := Closure(part, roots), Closure(images, roots);
    assert forall m :: m in part ==> ParentIn(part, m) == ParentIn(images, m);
    assert Closed(images, k);
    assert l <= k;
    assert Closed(part, l);
    assert k <= l;
  }

  lemma NeedsWithin(s: Store, r: Store, images: map<Digest, Manifest>, part: map<Digest, Manifest>, kept: set<Digest>)
    requires kept <= part.Keys <= images.Keys && forall m :: m in part ==> part[m] == images[m]
    ensures NeededBlobs(part, kept) == NeededBlobs(images, kept) && Ids(part, kept) == Ids(images, kept)
  {
  }

  /** The same tags are unexpired for the second collection. */
  lemma SameTags(s: Store, r: Store, p: Params, repo: Repo, keep: set<Digest>)
    requires r.lastUsed == s.lastUsed && Images(r).Keys <= Images(s).Keys && p.maxPerRepo <= 0
    requires TagRoots(s, p, repo.index) <= keep && TagRoots(s, p, repo.index) <= Images(r).Keys
    ensures var left := SweptRepo(s, p, repo, keep);
      if left == [] then TagRoots(s, p, repo.index) == {}
      else |left| == 1 && TagRoots(r, p, left[0].index) == TagRoots(s, p, repo.index)
  {
    var filtered := Filter(repo.index, KeepOnly(keep));
    forall d ensures d in filtered <==> d in repo.index && d.digest in keep {
      FilterHas(repo.index, KeepOnly(keep), d);
    }
    forall d | d in repo.index && d.ref != "" && Unexpired(s, p, d.digest)
      ensures d in filtered && Unexpired(r, p, d.digest)
    {
      assert d.digest in TagRoots(s, p, repo.index);
    }
  }

  lemma {:induction false} FilterTwice(index: seq<Descriptor>, rule: Rule)
    ensures Filter(Filter(index, rule), rule) == Filter(index, rule)
    decreases |index|
  {
    if index != [] {
      var n := |index| - 1;
      FilterTwice(index[..n], rule);
      var before, once := Filter(index[..n], rule), Filter(index, rule);
      if Stays(index[n], rule) {
        assert once == before + [index[n]] && once[..|before|] == before;
      } else {
        assert once == before;
      }
    }
  }

  lemma SweptTwice(s: Store, r: Store, p: Params, repo: Repo, keep: set<Digest>)
    requires p.maxPerRepo <= 0
    ensures forall left :: left in SweptRepo(s, p, repo, keep) && left != repo ==> SweptRepo(r, p, left, keep) == [left]
  {
    FilterTwice(repo.index, KeepOnly(keep));
  }

  /** A repository left alone has no refs, so it is left alone again. */
  lemma UntouchedTwice(s: Store, r: Store, p: Params, repo: Repo, keep: set<Digest>)
    requires p.maxPerRepo <= 0 && SweptRepo(s, p, repo, keep) == [repo]
    ensures SweptRepo(r, p, repo, keep) == [repo]
  {
    if HasExpired(s, p, repo.index) || |Named(repo.index)| > p.maxPerRepo {
      FilterTwice(repo.index, KeepOnly(keep));
    } else {
      NoNames(repo.index);
    }
  }

  lemma {:induction false} NoNames(index: seq<Descriptor>)
    requires Named(index) == []
    ensures forall d :: d in index ==> d.ref == ""
    decreases |index|
  {
    if index != [] {
      NoNames(index[..|index| - 1]);
      assert index == index[..|index| - 1] + [index[|index| - 1]];
    }
  }

  lemma {:induction false} SecondSweep(s: Store, p: Params, n: nat)
    requires Consistent(s) && p.maxPerRepo <= 0 && n <= |s.repos|
    ensures var r, repos := Collected(s, p), SweptRepos(s, p, s.repos[..n]);
      Roots(r, p, repos) == Roots(s, p, s.repos[..n]) && SweptRepos(r, p, repos) == repos
  {
    var r := Collected(s, p);
    CollectedImages(s, p);
    RootsAreImages(s, p, s.repos);
    ClosureIsClosed(Images(s), Roots(s, p, s.repos));
    RootsGrow(s, p, s.repos, n);
    if n == 0 {
      assert s.repos[..0] == [];
      RootsGrow(s, p, s.repos, 0);
      assert RecentImages(r, p) == RecentImages(s, p);
    } else {
      SecondSweep(s, p, n - 1);
      assert s.repos[..n][..n - 1] == s.repos[..n - 1];
      SecondSweepStep(s, p, n - 1);
    }
  }

  lemma SecondSweepStep(s: Store, p: Params, n: nat)
    requires Consistent(s) && p.maxPerRepo <= 0 && n < |s.repos|
    requires var r, repos := Collected(s, p), SweptRepos(s, p, s.repos[..n]);
      Roots(r, p, repos) == Roots(s, p, s.repos[..n]) && SweptRepos(r, p, repos) == repos
    ensures var r, repos := Collected(s, p), SweptRepos(s, p, s.repos[..n + 1]);
      Roots(r, p, repos) == Roots(s, p, s.repos[..n + 1]) && SweptRepos(r, p, repos) == repos
  {
    hide Images, NeededBlobs, Closure, Kept, TagRoots, SweptRepo, SweptRepos, Roots, Ids, NeededSpecs, Consistent;
    var r := Collected(s, p);
    assert r.lastUsed == s.lastUsed;
    hide Collected;
    var repo, before, after := s.repos[n], s.repos[..n], s.repos[..n + 1];
    assert after == before + [repo];
    SweptSnoc(s, p, before, repo);
    var keep := NeededBlobs(Images(s), Kept(s, p, after));
    var left := SweptRepo(s, p, repo, keep);
    var repos := SweptRepos(s, p, before);
    assert SweptRepos(s, p, after) == repos + left;
    TagRootsKept(s, p, n);
    CollectedImages(s, p);
    KeptAreImages(s, p, s.repos);
    SameTags(s, r, p, repo, keep);
    if left == [] {
      assert repos + left == repos;
    } else {
      assert left == [left[0]];
      SweptSnoc(r, p, repos, left[0]);
      SameKept(s, p, n, repos + left);
      SweptTwice(s, r, p, repo, keep);
      if left[0] == repo { UntouchedTwice(s, r, p, repo, keep); }
    }
  }

  lemma TagRootsKept(s: Store, p: Params, n: nat)
    requires n < |s.repos|
    ensures TagRoots(s, p, s.repos[n].index) <= NeededBlobs(Images(s), Kept(s, p, s.repos[..n + 1]))
    ensures TagRoots(s, p, s.repos[n].index) <= Kept(s, p, s.repos)
  {
    var images, after := Images(s), s.repos[..n + 1];
    assert after[..n] == s.repos[..n];
    RootsAreImages(s, p, after);
    ClosureIsClosed(images, Roots(s, p, after));
    RootsGrow(s, p, s.repos, n + 1);
    ClosureMonotone(images, Roots(s, p, after), Roots(s, p, s.repos));
    forall m | m in TagRoots(s, p, s.repos[n].index)
      ensures m in NeededBlobs(images, Kept(s, p, after))
    {
      assert m in Kept(s, p, after) && m in BlobsOf(m, images[m]);
    }
  }

  /** What the second collection has marked at this point is what the first one had. */
  lemma SameKept(s: Store, p: Params, n: nat, repos: seq<Repo>)
    requires Consistent(s) && n < |s.repos| && Roots(Collected(s, p), p, repos) == Roots(s, p, s.repos[..n + 1])
    ensures var r := Collected(s, p);
      NeededBlobs(Images(r), Kept(r, p, repos)) == NeededBlobs(Images(s), Kept(s, p, s.repos[..n + 1]))
  {
    var r, images := Collected(s, p), Images(s);
    CollectedImages(s, p);
    RootsAreImages(s, p, s.repos);
    ClosureIsClosed(images, Roots(s, p, s.repos));
    RootsGrow(s, p, s.repos, n + 1);
    var roots := Roots(s, p, s.repos[..n + 1]);
    ClosureWithin(images, Images(r), roots);
    ClosureMonotone(images, roots, Roots(s, p, s.repos));
    NeedsWithin(s, r, images, Images(r), Closure(images, roots));
  }

  lemma KeptAreImages(s: Store, p: Params, repos: seq<Repo>)
    ensures Kept(s, p, repos) <= Images(s).Keys
  {
  }

  lemma SameSpecs(s: Store, p: Params)
    requires Consistent(s)
    ensures var r, kept := Collected(s, p), Kept(s, p, s.repos);
      NeededSpecs(r, Images(r), kept) == NeededSpecs(s, Images(s), kept)
  {
    hide Images, Closure, Kept, SweptRepos, Roots, Ids, Consistent;
    var r, images, kept := Collected(s, p), Images(s), Kept(s, p, s.repos);
    CollectedImages(s, p);
    assert kept <= images.Keys by { KeptAreImages(s, p, s.repos); }
    forall m | m in kept
      ensures HasConfig(r, images[m].config) <==> HasConfig(s, images[m].config)
    {
      assert images[m].config in BlobsOf(m, images[m]);
    }
  }

  /** With no limit per repository and the clock standing still, a second collection
      changes nothing. */
  lemma CollectTwice(s: Store, p: Params)
    requires Consistent(s) && p.maxPerRepo <= 0
    ensures Collected(Collected(s, p), p) == Collected(s, p)
  {
    hide Images, NeededBlobs, Closure, SweptRepos, Roots, Ids, NeededSpecs, Consistent;
    var r, images, kept := Collected(s, p), Images(s), Kept(s, p, s.repos);
    assert s.repos[..|s.repos|] == s.repos;
    SecondSweep(s, p, |s.repos|);
    CollectedImages(s, p);
    RootsAreImages(s, p, s.repos);
    ClosureIsClosed(images, Roots(s, p, s.repos));
    KeptAreImages(s, p, s.repos);
    ClosureWithin(images, Images(r), Roots(s, p, s.repos));
    NeedsWithin(s, r, images, Images(r), kept);
    SameSpecs(s, p);
    var t := Collected(r, p);
    assert t.blobs == r.blobs && t.fsspecs == r.fsspecs && t.imageIds == r.imageIds && t.repos == r.repos;
  }
}
