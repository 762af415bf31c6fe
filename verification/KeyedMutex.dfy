/** The in-process mutex per key, as a state machine over every interleaving of the
    goroutines that use it. */
module KeyedMutex {

  type Key = string

  /** One call of `lock` up to its `unlock`, on whatever goroutine. */
  type Session = nat

  /** The identity of a kvmutex. */
  type Object = nat

  datatype Claim =
    | Waiting(key: Key, obj: Object)
    | Holding(key: Key, obj: Object)

  datatype Mutex = Mutex(locked: bool, count: nat)

  datatype State = State(locks: map<Key, Object>, heap: map<Object, Mutex>, claims: map<Session, Claim>)

  const INIT := State(map[], map[], map[])

  // ----------------------------------------------------------------------- steps

  /** mutexRef: finds the object for the key or creates `o`, and counts the caller. */
  function Referred(s: State, c: Session, key: Key, o: Object): State
    requires key in s.locks ==> s.locks[key] in s.heap
  {
    var o := if key in s.locks then s.locks[key] else o;
    var count := if key in s.locks then s.heap[o].count else 0;
    var locked := key in s.locks && s.heap[o].locked;
    State(s.locks[key := o], s.heap[o := Mutex(locked, count + 1)], s.claims[c := Waiting(key, o)])
  }

  ghost predicate Ref(s: State, s': State, c: Session, key: Key, o: Object) {
    && c !in s.claims && o !in s.heap
    && (key in s.locks ==> s.locks[key] in s.heap)
    && s' == Referred(s, c, key, o)
  }

  /** sync.Mutex.Lock returns: possible while nobody has it locked. */
  ghost predicate Acquire(s: State, s': State, c: Session) {
    c in s.claims && s.claims[c].Waiting? &&
    var o := s.claims[c].obj;
    o in s.heap && !s.heap[o].locked &&
    s' == s.(heap := s.heap[o := s.heap[o].(locked := true)], claims := s.claims[c := Holding(s.claims[c].key, o)])
  }

  /** `unlock` would panic: no object for the key, or one that is not locked. */
  predicate UnlockPanics(s: State, key: Key) {
    key !in s.locks || s.locks[key] !in s.heap || !s.heap[s.locks[key]].locked || s.heap[s.locks[key]].count == 0
  }

  /** unlock: releases the object currently registered for the key, and drops it when
      no one refers to it any more. */
  function Unlocked(s: State, c: Session, key: Key): State
    requires !UnlockPanics(s, key)
  {
    var o := s.locks[key];
    var m := Mutex(false, s.heap[o].count - 1);
    State(if m.count == 0 then s.locks - {key} else s.locks, s.heap[o := m], s.claims - {c})
  }

  ghost predicate Unlock(s: State, s': State, c: Session) {
    c in s.claims && s.claims[c].Holding? && !UnlockPanics(s, s.claims[c].key) &&
    s' == Unlocked(s, c, s.claims[c].key)
  }

  datatype Action =
    | DoRef(c: Session, key: Key, o: Object)
    | DoAcquire(c: Session)
    | DoUnlock(c: Session)

  ghost predicate Does(s: State, s': State, act: Action) {
    match act
    case DoRef(c, key, o) => Ref(s, s', c, key, o)
    case DoAcquire(c) => Acquire(s, s', c)
    case DoUnlock(c) => Unlock(s, s', c)
  }

  ghost predicate Step(s: State, s': State) {
    exists act :: Does(s, s', act)
  }

  /** A finite run from the empty table. */
  ghost predicate Run(run: seq<State>) {
    run != [] && run[0] == INIT && forall i :: 0 <= i < |run| - 1 ==> Step(run[i], run[i + 1])
  }

  // ------------------------------------------------------------------- invariants

  function Claimants(s: State, key: Key): set<Session> {
    set c | c in s.claims && s.claims[c].key == key
  }

  predicate KeyOk(s: State, key: Key) {
    var cs := Claimants(s, key);
    if key !in s.locks then cs == {}
    else
      var o := s.locks[key];
      && cs != {}
      && o in s.heap && s.heap[o].count == |cs|
      && (forall c :: c in cs ==> s.claims[c].obj == o)
      && (forall c, d :: c in cs && d in cs && s.claims[c].Holding? && s.claims[d].Holding? ==> c == d)
      && (s.heap[o].locked <==> exists c :: c in cs && s.claims[c].Holding?)
  }

  /** The table has an entry for a key exactly while someone refers to it, the count is
      the number of holders and waiters, all contenders use that one object, and it is
      locked exactly while one of them holds it. */
  ghost predicate Inv(s: State) {
    && (forall key :: KeyOk(s, key))
    && (forall k, l :: k in s.locks && l in s.locks && s.locks[k] == s.locks[l] ==> k == l)
  }

  lemma InitInv()
    ensures Inv(INIT)
  {
    forall key ensures KeyOk(INIT, key) {
      assert Claimants(INIT, key) == {};
    }
  }

  lemma OtherKey(s: State, s': State, key: Key)
    requires KeyOk(s, key) && Claimants(s', key) == Claimants(s, key)
    requires forall c :: c in Claimants(s, key) ==> s'.claims[c] == s.claims[c]
    requires key in s.locks <==> key in s'.locks
    requires key in s.locks ==>
      s'.locks[key] == s.locks[key] && s.locks[key] in s'.heap && s'.heap[s.locks[key]] == s.heap[s.locks[key]]
    ensures KeyOk(s', key)
  {
  }

  lemma RefKeyOk(s: State, s': State, c: Session, key: Key, o: Object)
    requires KeyOk(s, key) && Ref(s, s', c, key, o)
    ensures KeyOk(s', key)
  {
    var cs := Claimants(s, key);
    assert Claimants(s', key) == cs + {c};
    assert c !in cs;
    if key in s.locks {
      assert forall d :: d in cs ==> s'.claims[d] == s.claims[d];
    }
  }

  lemma RefKeepsInv(s: State, s': State, c: Session, key: Key, o: Object)
    requires Inv(s) && Ref(s, s', c, key, o)
    ensures Inv(s')
  {
    forall k ensures KeyOk(s', k) {
      assert KeyOk(s, k);
      if k != key {
        assert Claimants(s', k) == Claimants(s, k);
        OtherKey(s, s', k);
      } else {
        RefKeyOk(s, s', c, key, o);
      }
    }
    assert forall k :: k in s.locks ==> KeyOk(s, k);
  }

  lemma AcquireKeepsInv(s: State, s': State, c: Session)
    requires Inv(s) && Acquire(s, s', c)
    ensures Inv(s')
  {
    var key := s.claims[c].key;
    assert KeyOk(s, key);
    assert c in Claimants(s, key);
    forall k ensures KeyOk(s', k) {
      assert KeyOk(s, k);
      assert Claimants(s', k) == Claimants(s, k);
      if k != key { OtherKey(s, s', k); }
    }
  }

  /** A holder's unlock never panics. */
  lemma HolderCanUnlock(s: State, c: Session)
    requires Inv(s) && c in s.claims && s.claims[c].Holding?
    ensures !UnlockPanics(s, s.claims[c].key)
  {
    assert KeyOk(s, s.claims[c].key);
    assert c in Claimants(s, s.claims[c].key);
  }

  lemma UnlockKeepsInv(s: State, s': State, c: Session)
    requires Inv(s) && Unlock(s, s', c)
    ensures Inv(s')
  {
    var key := s.claims[c].key;
    var cs := Claimants(s, key);
    assert KeyOk(s, key) && c in cs;
    forall k ensures KeyOk(s', k) {
      assert KeyOk(s, k);
      if k != key {
        assert Claimants(s', k) == Claimants(s, k);
        OtherKey(s, s', k);
      } else {
        assert Claimants(s', key) == cs - {c};
        assert |cs - {c}| == |cs| - 1;
      }
    }
  }

  lemma StepKeepsInv(s: State, s': State)
    requires Inv(s) && Step(s, s')
    ensures Inv(s')
  {
    var act :| Does(s, s', act);
    match act
    case DoRef(c, key, o) => RefKeepsInv(s, s', c, key, o);
    case DoAcquire(c) => AcquireKeepsInv(s, s', c);
    case DoUnlock(c) => UnlockKeepsInv(s, s', c);
  }

  /** In every state of every run the table is consistent, no two sessions hold the
      same key, and no holder's unlock panics. */
  lemma {:induction false} RunIsSafe(run: seq<State>, i: nat)
    requires Run(run) && i < |run|
    ensures Inv(run[i])
    ensures forall c, d :: c in run[i].claims && d in run[i].claims && BothHold(run[i], c, d) ==> c == d
    ensures forall c :: c in run[i].claims && run[i].claims[c].Holding? ==> !UnlockPanics(run[i], run[i].claims[c].key)
    decreases i
  {
    if i == 0 {
      InitInv();
    } else {
      RunIsSafe(run, i - 1);
      assert Step(run[i - 1], run[i - 1 + 1]);
      StepKeepsInv(run[i - 1], run[i]);
    }
    var s := run[i];
    forall c | c in s.claims && s.claims[c].Holding?
      ensures !UnlockPanics(s, s.claims[c].key)
    {
      HolderCanUnlock(s, c);
    }
    forall c, d | c in s.claims && d in s.claims && BothHold(s, c, d)
      ensures c == d
    {
      HoldersAgree(s, c, d);
    }
  }

  predicate BothHold(s: State, c: Session, d: Session)
    requires c in s.claims && d in s.claims
  {
    s.claims[c].Holding? && s.claims[d].Holding? && s.claims[c].key == s.claims[d].key
  }

  lemma HoldersAgree(s: State, c: Session, d: Session)
    requires Inv(s) && c in s.claims && d in s.claims && BothHold(s, c, d)
    ensures c == d
  {
    var key := s.claims[c].key;
    assert KeyOk(s, key);
    assert c in Claimants(s, key) && d in Claimants(s, key);
  }

  // -------------------------------------------------------------------- progress

  predicate Held(s: State, key: Key) {
    exists c :: c in s.claims && s.claims[c].key == key && s.claims[c].Holding?
  }

  /** A waiting session can go on if and only if nobody holds its key. */
  lemma WaiterEntersIff(s: State, c: Session)
    requires Inv(s) && c in s.claims && s.claims[c].Waiting?
    ensures (exists s' :: Acquire(s, s', c)) <==> !Held(s, s.claims[c].key)
    ensures forall s' :: Acquire(s, s', c) ==>
      c in s'.claims && s'.claims[c] == Holding(s.claims[c].key, s.claims[c].obj)
  {
    var key, o := s.claims[c].key, s.claims[c].obj;
    assert KeyOk(s, key) && c in Claimants(s, key);
    if Held(s, key) {
      var d :| d in s.claims && s.claims[d].key == key && s.claims[d].Holding?;
      assert d in Claimants(s, key);
    } else {
      var s' := s.(heap := s.heap[o := s.heap[o].(locked := true)], claims := s.claims[c := Holding(key, o)]);
      assert Acquire(s, s', c);
    }
  }

  /** An unlock panics if and only if nobody holds the key. */
  lemma PanicsIff(s: State, key: Key)
    requires Inv(s)
    ensures UnlockPanics(s, key) <==> !Held(s, key)
  {
    assert KeyOk(s, key);
    if c :| c in s.claims && s.claims[c].key == key && s.claims[c].Holding? {
      assert c in Claimants(s, key);
    }
  }

  /** Every session can start to wait, with any object that is not in use. */
  lemma CanRefer(s: State, c: Session, key: Key, o: Object)
    requires Inv(s) && c !in s.claims && o !in s.heap
    ensures key in s.locks ==> s.locks[key] in s.heap
    ensures Ref(s, Referred(s, c, key, o), c, key, o)
    ensures var t := Referred(s, c, key, o);
      c in t.claims && t.claims[c].Waiting? && t.claims[c].key == key && (Held(t, key) <==> Held(s, key))
  {
    assert KeyOk(s, key);
    var t := Referred(s, c, key, o);
    if d :| d in s.claims && s.claims[d].key == key && s.claims[d].Holding? { assert t.claims[d] == s.claims[d]; }
  }

  /** After the holder's unlock nobody holds the key. */
  lemma UnlockFrees(s: State, s': State, c: Session)
    requires Inv(s) && Unlock(s, s', c)
    ensures !Held(s', s.claims[c].key)
    ensures forall d :: d in s.claims && d != c ==> d in s'.claims && s'.claims[d] == s.claims[d]
  {
    var key := s.claims[c].key;
    if d :| d in s'.claims && s'.claims[d].key == key && s'.claims[d].Holding? { HoldersAgree(s, c, d); }
  }
}
