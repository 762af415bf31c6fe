/** The index of an image repository: newest manifests first, one per ref and platform. */
module ImageRepo {
  import opened Digests

  datatype Descriptor = Descriptor(ref: string, arch: string, os: string, digest: Digest, size: int, isManifest: bool)

  /** An entry is replaced by a later one with the same ref and platform. */
  predicate SameKey(a: Descriptor, b: Descriptor) {
    a.ref == b.ref && a.arch == b.arch && a.os == b.os
  }

  /** Digest.Validate and the other checks of AddManifest. */
  predicate Acceptable(d: Descriptor) {
    d.ref != "" && d.digest != NoDigest && d.size >= 1 && d.arch != "" && d.os != ""
  }

  // ------------------------------------------------ the index after each operation

  /** Which entries an operation leaves in the index. */
  datatype Rule = ReplaceKey(d: Descriptor) | DropRef(ref: string) | KeepOnly(digests: set<Digest>)

  predicate Stays(e: Descriptor, rule: Rule) {
    match rule
    case ReplaceKey(d) => !SameKey(e, d)
    case DropRef(ref) => e.ref != ref
    case KeepOnly(digests) => e.digest in digests
  }

  function Filter(index: seq<Descriptor>, rule: Rule): seq<Descriptor> {
    if index == [] then []
    else
      var n := |index| - 1;
      Filter(index[..n], rule) + if Stays(index[n], rule) then [index[n]] else []
  }

  predicate HasRef(index: seq<Descriptor>, ref: string) {
    exists j :: 0 <= j < |index| && index[j].ref == ref
  }

  function Limited(index: seq<Descriptor>, max: int): seq<Descriptor> {
    if max > 0 && |index| > max then index[..max] else index
  }

  lemma {:induction false} FilterHas(index: seq<Descriptor>, rule: Rule, e: Descriptor)
    ensures e in Filter(index, rule) <==> e in index && Stays(e, rule)
    decreases |index|
  {
    if index != [] {
      var n := |index| - 1;
      FilterHas(index[..n], rule, e);
      assert index == index[..n] + [index[n]];
    }
  }

  // -------------------------------------------------------------- newest first

  /** `index` lists the latest additions of some keys, the newest first: its entries are
      additions at falling positions of the history, none of them replaced since. */
  ghost predicate NewestFirst(index: seq<Descriptor>, history: seq<Descriptor>, at: seq<nat>) {
    && |at| == |index|
    && (forall i :: 0 <= i < |at| ==> Latest(index[i], history, at[i]))
    && (forall i, j :: 0 <= i < j < |at| ==> at[j] < at[i])
  }

  /** The addition at `t` of the history, and no later one has its key. */
  ghost predicate Latest(e: Descriptor, history: seq<Descriptor>, t: nat) {
    t < |history| && history[t] == e && forall u :: t < u < |history| ==> !SameKey(history[u], e)
  }

  /** (ref, arch, os) is a key of the index. */
  lemma KeyUnique(index: seq<Descriptor>, history: seq<Descriptor>, at: seq<nat>, i: nat, j: nat)
    requires NewestFirst(index, history, at) && i < |index| && j < |index| && SameKey(index[i], index[j])
    ensures i == j
  {
    assert Latest(index[i], history, at[i]) && Latest(index[j], history, at[j]);
  }

  lemma {:induction false} FilterKeepsOrder(
    index: seq<Descriptor>, history: seq<Descriptor>, at: seq<nat>, rule: Rule, floor: int) returns (at': seq<nat>)
    requires NewestFirst(index, history, at) && forall i :: 0 <= i < |at| ==> at[i] > floor
    ensures NewestFirst(Filter(index, rule), history, at')
    ensures forall i :: 0 <= i < |at'| ==> at'[i] > floor
    decreases |index|
  {
    if index == [] {
      at' := [];
    } else {
      var n := |index| - 1;
      var before := FilterKeepsOrder(index[..n], history, at[..n], rule, at[n]);
      at' := if Stays(index[n], rule) then before + [at[n]] else before;
      if Stays(index[n], rule) {
        var out := Filter(index[..n], rule) + [index[n]];
        forall i | 0 <= i < |at'|
          ensures Latest(out[i], history, at'[i])
        {
          if i < |before| { assert Latest(Filter(index[..n], rule)[i], history, before[i]); }
        }
      }
    }
  }

  lemma LimitKeepsOrder(index: seq<Descriptor>, history: seq<Descriptor>, at: seq<nat>, max: int)
    returns (at': seq<nat>)
    requires NewestFirst(index, history, at)
    ensures NewestFirst(Limited(index, max), history, at') && at' <= at
  {
    at' := if max > 0 && |index| > max then at[..max] else at;
  }

  /** Adding an entry in front, after dropping the one it replaces. */
  lemma AddKeepsOrder(index: seq<Descriptor>, history: seq<Descriptor>, at: seq<nat>, d: Descriptor)
    returns (at': seq<nat>)
    requires NewestFirst(index, history, at)
    ensures NewestFirst([d] + Filter(index, ReplaceKey(d)), history + [d], at')
  {
    var rest, more := Filter(index, ReplaceKey(d)), history + [d];
    var kept := FilterKeepsOrder(index, history, at, ReplaceKey(d), -1);
    at' := [|history|] + kept;
    assert Latest(d, more, |history|);
    forall i | 0 <= i < |kept|
      ensures Latest(rest[i], more, kept[i])
    {
      assert Latest(rest[i], history, kept[i]);
      assert rest[i] in rest;
      FilterHas(index, ReplaceKey(d), rest[i]);
      assert !SameKey(d, rest[i]);
      forall u | kept[i] < u < |more|
        ensures !SameKey(more[u], rest[i])
      {
        if u < |history| { assert more[u] == history[u]; } else { assert more[u] == d; }
      }
    }
    var index' := [d] + rest;
    forall i | 0 <= i < |at'|
      ensures Latest(index'[i], more, at'[i])
    {
      if i > 0 { assert index'[i] == rest[i - 1] && at'[i] == kept[i - 1]; }
    }
    forall i, j | 0 <= i < j < |at'|
      ensures at'[j] < at'[i]
    {
      assert Latest(rest[j - 1], history, kept[j - 1]);
    }
  }

  // ---------------------------------------------------------------- the repository

  /** An opened, locked repository. `history` are the additions so far. */
  class LockedRepo {
    var index: seq<Descriptor>
    var failed: bool
    var stored: seq<Descriptor>
    ghost var history: seq<Descriptor>
    ghost var at: seq<nat>

    ghost predicate Valid()
      reads this
    {
      NewestFirst(index, history, at)
    }

    constructor (content: seq<Descriptor>, ghost additions: seq<Descriptor>, ghost positions: seq<nat>)
      requires NewestFirst(content, additions, positions)
      ensures Valid() && index == stored == content && !failed && history == additions
    {
      index, stored, failed, history, at := content, content, false, additions, positions;
    }

    method AddManifest(d: Descriptor)
      requires Valid()
      modifies this
      ensures Valid() && stored == old(stored)
      ensures failed == (old(failed) || !Acceptable(d))
      ensures failed ==> index == old(index) && history == old(history)
      ensures !failed ==> index == [d] + Filter(old(index), ReplaceKey(d)) && history == old(history) + [d]
    {
      if failed { return; }
      if !Acceptable(d) {
        failed := true;
        return;
      }
      var manifests := [d];
      var i := 0;
      while i < |index|
        invariant 0 <= i <= |index| && manifests == [d] + Filter(index[..i], ReplaceKey(d))
        invariant Valid() && index == old(index) && history == old(history) && !failed && stored == old(stored)
      {
        assert index[..i + 1][..i] == index[..i];
        if !SameKey(index[i], d) {
          manifests := manifests + [index[i]];
        }
        i := i + 1;
      }
      assert index[..i] == index;
      ghost var positions := AddKeepsOrder(index, history, at, d);
      index, history, at := manifests, history + [d], positions;
    }

    method DelManifest(ref: string)
      requires Valid()
      modifies this
      ensures Valid() && stored == old(stored) && history == old(history)
      ensures failed == (old(failed) || (ref != "" && !HasRef(old(index), ref)))
      ensures failed ==> index == old(index)
      ensures !failed ==> index == if ref == "" then [] else Filter(old(index), DropRef(ref))
    {
      if failed { return; }
      if ref == "" {
        index, at := [], [];
        return;
      }
      var manifests, deleted := [], false;
      var i := 0;
      while i < |index|
        invariant 0 <= i <= |index| && manifests == Filter(index[..i], DropRef(ref))
        invariant deleted == exists j :: 0 <= j < i && index[j].ref == ref
        invariant Valid() && index == old(index) && history == old(history) && !failed && stored == old(stored)
      {
        assert index[..i + 1][..i] == index[..i];
        if index[i].ref == ref {
          deleted := true;
        } else {
          manifests := manifests + [index[i]];
        }
        i := i + 1;
      }
      assert index[..i] == index;
      if !deleted {
        failed := true;
        return;
      }
      ghost var positions := FilterKeepsOrder(index, history, at, DropRef(ref), -1);
      index, at := manifests, positions;
    }

    method Retain(keep: set<Digest>)
      requires Valid()
      modifies this
      ensures Valid() && stored == old(stored) && history == old(history) && failed == old(failed)
      ensures index == if failed then old(index) else Filter(old(index), KeepOnly(keep))
    {
      if failed { return; }
      var kept := [];
      var i := 0;
      while i < |index|
        invariant 0 <= i <= |index| && kept == Filter(index[..i], KeepOnly(keep))
        invariant Valid() && index == old(index) && history == old(history) && !failed && stored == old(stored)
      {
        assert index[..i + 1][..i] == index[..i];
        if index[i].digest in keep {
          kept := kept + [index[i]];
        }
        i := i + 1;
      }
      assert index[..i] == index;
      ghost var positions := FilterKeepsOrder(index, history, at, KeepOnly(keep), -1);
      index, at := kept, positions;
    }

    /** Keeps the newest entries only. */
    method Limit(max: int)
      requires Valid()
      modifies this
      ensures Valid() && stored == old(stored) && history == old(history) && failed == old(failed)
      ensures index == Limited(old(index), max) && at <= old(at)
    {
      ghost var positions := LimitKeepsOrder(index, history, at, max);
      if max > 0 && |index| > max {
        index := index[..max];
      }
      at := positions;
    }

    /** Writes the index back, or deletes the repository if it is empty. A failed step
        before, or a failed write, leaves what is stored as it was. */
    method Close(written: bool) returns (ok: bool)
      requires Valid()
      modifies this`stored
      ensures ok == (!failed && written)
      ensures stored == if ok then index else old(stored)
    {
      ok := !failed && written;
      if ok { stored := index; }
    }

    /** ImageRepo.Manifest: the entry of the ref for this platform, which is its latest
        addition; none is found exactly when the index has none. */
    method Manifest(ref: string, arch: string, os: string) returns (found: bool, d: Descriptor, supported: bool)
      requires Valid()
      ensures found <==> exists e :: e in index && e.ref == ref && e.arch == arch && e.os == os
      ensures found ==> d in index && d.ref == ref && d.arch == arch && d.os == os && supported == d.isManifest
      ensures found ==> exists t :: Latest(d, history, t)
    {
      var i := 0;
      while i < |index|
        invariant 0 <= i <= |index|
        invariant forall j :: 0 <= j < i ==> !(index[j].ref == ref && index[j].arch == arch && index[j].os == os)
      {
        var e := index[i];
        if e.ref == ref && e.arch == arch && e.os == os {
          assert Latest(e, history, at[i]);
          return true, e, e.isManifest;
        }
        i := i + 1;
      }
      found, d, supported := false, Descriptor(ref, arch, os, NoDigest, 0, false), false;
    }
  }

  // --------------------------------------------------------------------- all runs

  datatype Op = Add(d: Descriptor) | Del(ref: string) | Keep(digests: set<Digest>) | Cut(max: int)

  datatype View = View(index: seq<Descriptor>, failed: bool)

  /** One operation on the index; only Limit acts after a failed step. */
  function After(v: View, op: Op): View {
    match op
    case Add(d) =>
      if v.failed || !Acceptable(d) then v.(failed := true) else v.(index := [d] + Filter(v.index, ReplaceKey(d)))
    case Del(ref) =>
      if v.failed || (ref != "" && !HasRef(v.index, ref)) then v.(failed := true)
      else v.(index := if ref == "" then [] else Filter(v.index, DropRef(ref)))
    case Keep(digests) => if v.failed then v else v.(index := Filter(v.index, KeepOnly(digests)))
    case Cut(max) => v.(index := Limited(v.index, max))
  }

  function AfterAll(v: View, ops: seq<Op>): View {
    if ops == [] then v else After(AfterAll(v, ops[..|ops| - 1]), ops[|ops| - 1])
  }

  /** The manifests that the operations add: the ones given before any step failed. */
  function Additions(v: View, ops: seq<Op>): seq<Descriptor> {
    if ops == [] then []
    else
      var n := |ops| - 1;
      Additions(v, ops[..n]) +
      if ops[n].Add? && !AfterAll(v, ops[..n]).failed && Acceptable(ops[n].d) then [ops[n].d] else []
  }

  /** In a session that succeeds every manifest given is an addition. */
  lemma {:induction false} AllAdded(v: View, ops: seq<Op>, i: nat)
    requires !AfterAll(v, ops).failed && i < |ops| && ops[i].Add?
    ensures ops[i].d in Additions(v, ops)
    decreases |ops|
  {
    var n := |ops| - 1;
    if i < n { AllAdded(v, ops[..n], i); }
  }

  /** Any sequence of operations between opening and closing the repository: what is
      stored afterwards lists the latest additions, newest first, and one failed step
      leaves the stored index unchanged. */
  method Session(repo: LockedRepo, ops: seq<Op>, written: bool) returns (ok: bool)
    requires repo.Valid() && !repo.failed
    modifies repo
    ensures NewestFirst(repo.index, repo.history, repo.at)
    ensures repo.history == old(repo.history) + Additions(View(old(repo.index), false), ops)
    ensures !repo.failed ==> forall i :: 0 <= i < |ops| && ops[i].Add? ==>
      ops[i].d in repo.history[|old(repo.history)|..]
    ensures View(repo.index, repo.failed) == AfterAll(View(old(repo.index), false), ops)
    ensures ok == (written && !repo.failed)
    ensures repo.stored == if ok then repo.index else old(repo.stored)
  {
    for i := 0 to |ops|
      invariant repo.Valid() && repo.stored == old(repo.stored)
      invariant repo.history == old(repo.history) + Additions(View(old(repo.index), false), ops[..i])
      invariant View(repo.index, repo.failed) == AfterAll(View(old(repo.index), false), ops[..i])
    {
      assert ops[..i + 1][..i] == ops[..i];
      match ops[i]
      case Add(d) => repo.AddManifest(d);
      case Del(ref) => repo.DelManifest(ref);
      case Keep(digests) => repo.Retain(digests);
      case Cut(max) => repo.Limit(max);
    }
    assert ops[..|ops|] == ops;
    if !repo.failed {
      forall i | 0 <= i < |ops| && ops[i].Add? ensures ops[i].d in repo.history[|old(repo.history)|..] {
        AllAdded(View(old(repo.index), false), ops, i);
      }
    }
    ok := repo.Close(written);
  }

  /** A failed step anywhere makes the whole session fail. */
  lemma {:induction false} FailureSticks(v: View, ops: seq<Op>, n: nat)
    requires n <= |ops| && AfterAll(v, ops[..n]).failed
    ensures AfterAll(v, ops).failed
    decreases |ops|
  {
    if n == |ops| {
      assert ops[..n] == ops;
    } else {
      assert ops[..|ops| - 1][..n] == ops[..n];
      FailureSticks(v, ops[..|ops| - 1], n);
    }
  }
}
