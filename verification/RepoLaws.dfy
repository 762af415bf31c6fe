/** The index of an image repository as a map from ref and platform to manifest. */
module RepoLaws {
  import opened Digests
  import opened ImageRepo
  import opened Options

  /** The first entry of the ref for the platform. */
  function Entry(index: seq<Descriptor>, ref: string, arch: string, os: string): Option<Descriptor> {
    if index == [] then None
    else if index[0].ref == ref && index[0].arch == arch && index[0].os == os then Some(index[0])
    else Entry(index[1..], ref, arch, os)
  }

  /** No two entries have one ref and platform. */
  predicate Unique(index: seq<Descriptor>) {
    forall i, j :: 0 <= i < j < |index| ==>
      index[i].ref != index[j].ref || index[i].arch != index[j].arch || index[i].os != index[j].os
  }

  lemma {:induction false} EntryIs(index: seq<Descriptor>, d: Descriptor)
    requires Unique(index) && d in index
    ensures Entry(index, d.ref, d.arch, d.os) == Some(d)
    decreases |index|
  {
    if d != index[0] {
      assert d in index[1..];
      EntryIs(index[1..], d);
      var i :| 0 < i < |index| && index[i] == d;
    }
  }

  lemma {:induction false} EntryIn(index: seq<Descriptor>, ref: string, arch: string, os: string)
    ensures var e := Entry(index, ref, arch, os);
      if e.Some? then e.value in index && e.value.ref == ref && e.value.arch == arch && e.value.os == os
      else forall d :: d in index ==> d.ref != ref || d.arch != arch || d.os != os
    decreases |index|
  {
    if index != [] {
      EntryIn(index[1..], ref, arch, os);
      assert index == [index[0]] + index[1..];
    }
  }

  /** Two indexes with the same entry of a ref and platform, if any. */
  lemma EntriesAgree(index: seq<Descriptor>, other: seq<Descriptor>, ref: string, arch: string, os: string)
    requires Unique(index) && Unique(other)
    requires forall d: Descriptor :: d.ref == ref && d.arch == arch && d.os == os ==> (d in index <==> d in other)
    ensures Entry(index, ref, arch, os) == Entry(other, ref, arch, os)
  {
    EntryIn(index, ref, arch, os);
    EntryIn(other, ref, arch, os);
    var e, f := Entry(index, ref, arch, os), Entry(other, ref, arch, os);
    if e.Some? { EntryIs(other, e.value); }
    if f.Some? { EntryIs(index, f.value); }
  }

  lemma {:induction false} FilterUnique(index: seq<Descriptor>, rule: Rule)
    requires Unique(index)
    ensures Unique(Filter(index, rule))
    decreases |index|
  {
    if index != [] {
      var n := |index| - 1;
      FilterUnique(index[..n], rule);
      var less := Filter(index[..n], rule);
      forall i | 0 <= i < |less|
        ensures less[i].ref != index[n].ref || less[i].arch != index[n].arch || less[i].os != index[n].os
      {
        assert less[i] in less;
        FilterHas(index[..n], rule, less[i]);
        var j :| 0 <= j < n && index[j] == less[i];
      }
    }
  }

  // ------------------------------------------------------------- the map after a step

  /** What an operation does to the entry of a ref and platform. */
  function Track(e: Option<Descriptor>, op: Op, ref: string, arch: string, os: string): Option<Descriptor> {
    match op
    case Add(d) => if d.ref == ref && d.arch == arch && d.os == os then Some(d) else e
    case Del(r) => if r == "" || r == ref then None else e
    case Keep(digests) => if e.Some? && e.value.digest in digests then e else None
    case Cut(_) => e
  }

  function TrackAll(e: Option<Descriptor>, ops: seq<Op>, ref: string, arch: string, os: string): Option<Descriptor> {
    if ops == [] then e
    else Track(TrackAll(e, ops[..|ops| - 1], ref, arch, os), ops[|ops| - 1], ref, arch, os)
  }

  /** A step fails if it is given no proper manifest, or a ref that is not there. */
  predicate Refused(index: seq<Descriptor>, op: Op) {
    match op
    case Add(d) => d.ref == "" || d.digest == NoDigest || d.size < 1 || d.arch == "" || d.os == ""
    case Del(r) => r != "" && forall d :: d in index ==> d.ref != r
    case Keep(_) => false
    case Cut(_) => false
  }

  lemma FailsIff(v: View, op: Op)
    ensures After(v, op).failed <==> v.failed || Refused(v.index, op)
    ensures After(v, op).failed && !op.Cut? ==> After(v, op).index == v.index
  {
    if op.Del? && HasRef(v.index, op.ref) {
      var j :| 0 <= j < |v.index| && v.index[j].ref == op.ref;
      assert v.index[j] in v.index;
    }
  }

  lemma AddTracks(index: seq<Descriptor>, d: Descriptor, ref: string, arch: string, os: string)
    requires Unique(index)
    ensures var more := [d] + Filter(index, ReplaceKey(d));
      Unique(more) && Entry(more, ref, arch, os) == Track(Entry(index, ref, arch, os), Add(d), ref, arch, os)
  {
    var rest := Filter(index, ReplaceKey(d));
    var more := [d] + rest;
    FilterUnique(index, ReplaceKey(d));
    forall i | 0 <= i < |rest| ensures rest[i].ref != d.ref || rest[i].arch != d.arch || rest[i].os != d.os {
      assert rest[i] in rest;
      FilterHas(index, ReplaceKey(d), rest[i]);
    }
    assert more[1..] == rest;
    if d.ref != ref || d.arch != arch || d.os != os {
      forall e: Descriptor | e.ref == ref && e.arch == arch && e.os == os ensures e in index <==> e in rest {
        FilterHas(index, ReplaceKey(d), e);
      }
      EntriesAgree(index, rest, ref, arch, os);
    }
  }

  lemma FilterTracks(index: seq<Descriptor>, op: Op, rule: Rule, ref: string, arch: string, os: string)
    requires Unique(index)
    requires (op.Del? && op.ref != "" && rule == DropRef(op.ref)) || (op.Keep? && rule == KeepOnly(op.digests))
    ensures var less := Filter(index, rule);
      Unique(less) && Entry(less, ref, arch, os) == Track(Entry(index, ref, arch, os), op, ref, arch, os)
  {
    var less := Filter(index, rule);
    FilterUnique(index, rule);
    EntryIn(index, ref, arch, os);
    EntryIn(less, ref, arch, os);
    var e, f := Entry(index, ref, arch, os), Entry(less, ref, arch, os);
    if e.Some? {
      FilterHas(index, rule, e.value);
      if e.value in less { EntryIs(less, e.value); }
    }
    if f.Some? {
      FilterHas(index, rule, f.value);
      EntryIs(index, f.value);
    }
  }

  lemma StepTracks(v: View, op: Op, ref: string, arch: string, os: string)
    requires Unique(v.index) && !op.Cut? && !After(v, op).failed
    ensures Unique(After(v, op).index)
    ensures Entry(After(v, op).index, ref, arch, os) == Track(Entry(v.index, ref, arch, os), op, ref, arch, os)
  {
    match op
    case Add(d) => AddTracks(v.index, d, ref, arch, os);
    case Del(r) => if r != "" { FilterTracks(v.index, op, DropRef(r), ref, arch, os); }
    case Keep(digests) => FilterTracks(v.index, op, KeepOnly(digests), ref, arch, os);
  }

  /** Any session that succeeds, without a limit on the number of entries: the manifest of a
      ref and platform is the one that was added last, unless it was removed since, by its
      ref, with all others or by its digest. */
  lemma {:induction false} SessionTracks(v: View, ops: seq<Op>, ref: string, arch: string, os: string)
    requires Unique(v.index) && !AfterAll(v, ops).failed && forall i :: 0 <= i < |ops| ==> !ops[i].Cut?
    ensures Unique(AfterAll(v, ops).index)
    ensures Entry(AfterAll(v, ops).index, ref, arch, os) == TrackAll(Entry(v.index, ref, arch, os), ops, ref, arch, os)
    decreases |ops|
  {
    if ops != [] {
      var n := |ops| - 1;
      var before := AfterAll(v, ops[..n]);
      FailsIff(before, ops[n]);
      SessionTracks(v, ops[..n], ref, arch, os);
      StepTracks(before, ops[n], ref, arch, os);
    }
  }

  predicate RefusedAt(v: View, ops: seq<Op>, n: nat) {
    n < |ops| && Refused(AfterAll(v, ops[..n]).index, ops[n])
  }

  lemma RefusedBefore(v: View, ops: seq<Op>, m: nat, n: nat)
    requires n < m <= |ops|
    ensures RefusedAt(v, ops[..m], n) <==> RefusedAt(v, ops, n)
  {
    assert ops[..m][..n] == ops[..n];
  }

  /** A session fails exactly at a step that is refused. */
  lemma {:induction false} SessionFailsIff(v: View, ops: seq<Op>)
    requires !v.failed
    ensures AfterAll(v, ops).failed <==> exists n: nat :: RefusedAt(v, ops, n)
    decreases |ops|
  {
    hide After, Refused;
    if ops != [] {
      var n := |ops| - 1;
      SessionFailsIff(v, ops[..n]);
      FailsIff(AfterAll(v, ops[..n]), ops[n]);
      assert RefusedAt(v, ops, n) <==> Refused(AfterAll(v, ops[..n]).index, ops[n]);
      hide RefusedAt;
      forall k | 0 <= k < n ensures RefusedAt(v, ops[..n], k) <==> RefusedAt(v, ops, k) { RefusedBefore(v, ops, n, k); }
      NotRefused(v, ops[..n]);
      NotRefused(v, ops);
    }
  }

  lemma NotRefused(v: View, ops: seq<Op>)
    ensures forall n: nat :: RefusedAt(v, ops, n) ==> n < |ops|
  {
  }

  /** A limit keeps that many entries, the first ones. */
  lemma CutKeeps(v: View, max: int, d: Descriptor)
    ensures d in After(v, Cut(max)).index <==>
      exists i :: 0 <= i < |v.index| && v.index[i] == d && (0 < max ==> i < max)
    ensures max > 0 ==> |After(v, Cut(max)).index| <= max
    ensures After(v, Cut(max)).index <= v.index
  {
  }

  /** The index of a repository is one: what is newest first has no ref and platform twice. */
  lemma NewestIsUnique(index: seq<Descriptor>, history: seq<Descriptor>, at: seq<nat>)
    requires NewestFirst(index, history, at)
    ensures Unique(index)
  {
    forall i, j | 0 <= i < j < |index|
      ensures index[i].ref != index[j].ref || index[i].arch != index[j].arch || index[i].os != index[j].os
    {
      assert Latest(index[i], history, at[i]) && Latest(index[j], history, at[j]);
    }
  }
}
