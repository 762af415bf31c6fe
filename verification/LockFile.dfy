/** The lock file of a path: the in-process mutex of every process composed with a file
    that names the process that owns it. */
module LockFile {
  import opened Options
  import KM = KeyedMutex

  type Pid = nat
  type Session = KM.Session

  /** The key under which every process locks the path. */
  const FILE: KM.Key := ".exclusive.lock"

  /** Where a call of Lock or TryLock is: before its in-process mutex is taken, between
      that and owning the file, owning the file, and after giving up the file. */
  datatype Phase = Locking | Entered | Held | Leaving

  datatype Call = Call(pid: Pid, phase: Phase)

  /** `used` are the process ids given out so far; they are not given out again. */
  datatype State = State(
    used: set<Pid>, alive: set<Pid>, owner: Option<Pid>, tables: map<Pid, KM.State>, calls: map<Session, Call>)

  const INIT := State({}, {}, None, map[], map[])

  // ----------------------------------------------------------------------- steps

  predicate At(s: State, c: Session, phase: Phase) {
    c in s.calls && s.calls[c].phase == phase && s.calls[c].pid in s.alive && s.calls[c].pid in s.tables
  }

  /** The file can be taken: it is missing, its process is dead, or it is our own. */
  predicate Free(s: State, p: Pid) {
    s.owner.None? || s.owner.value !in s.alive || s.owner.value == p
  }

  function Moved(s: State, c: Session, phase: Phase): State
    requires c in s.calls
  {
    s.(calls := s.calls[c := s.calls[c].(phase := phase)])
  }

  function WithTable(s: State, p: Pid, t: KM.State): State {
    s.(tables := s.tables[p := t])
  }

  datatype Action =
    | Spawn(p: Pid)
    | Die(p: Pid)
    | Other(p: Pid, act: KM.Action, t: KM.State)
    | Start(c: Session, p: Pid, o: KM.Object, t: KM.State)
    | Enter(c: Session, t: KM.State)
    | TryOk(c: Session)
    | Busy(c: Session)
    | Fail(c: Session, t: KM.State)
    | RemoveFile(c: Session, removed: bool)
    | Leave(c: Session, t: KM.State)

  function SessionOf(act: KM.Action): Session {
    act.c
  }

  ghost predicate Does(s: State, s': State, act: Action) {
    match act
    case Spawn(p) =>
      p !in s.used && s' == State(s.used + {p}, s.alive + {p}, s.owner, s.tables[p := KM.INIT], s.calls)
    case Die(p) =>
      p in s.alive &&
      s' == State(s.used, s.alive - {p}, s.owner, s.tables - {p},
                  map c | c in s.calls && s.calls[c].pid != p :: s.calls[c])
    case Other(p, a, t) =>
      && p in s.alive && p in s.tables && SessionOf(a) !in s.calls
      && KM.Does(s.tables[p], t, a) && s' == WithTable(s, p, t)
    case Start(c, p, o, t) =>
      && p in s.alive && p in s.tables && c !in s.calls
      && KM.Ref(s.tables[p], t, c, FILE, o)
      && s' == WithTable(s, p, t).(calls := s.calls[c := Call(p, Locking)])
    case Enter(c, t) =>
      && At(s, c, Locking) && KM.Acquire(s.tables[s.calls[c].pid], t, c)
      && s' == Moved(WithTable(s, s.calls[c].pid, t), c, Entered)
    case TryOk(c) =>
      At(s, c, Entered) && Free(s, s.calls[c].pid) && s' == Moved(s, c, Held).(owner := Some(s.calls[c].pid))
    case Busy(c) =>
      At(s, c, Entered) && !Free(s, s.calls[c].pid) && s' == s
    case Fail(c, t) =>
      && At(s, c, Entered) && KM.Unlock(s.tables[s.calls[c].pid], t, c)
      && s' == WithTable(s, s.calls[c].pid, t).(calls := s.calls - {c})
    case RemoveFile(c, removed) =>
      && At(s, c, Held)
      && s' == Moved(s, c, Leaving).(owner := if removed && s.owner == Some(s.calls[c].pid) then None else s.owner)
    case Leave(c, t) =>
      && At(s, c, Leaving) && KM.Unlock(s.tables[s.calls[c].pid], t, c)
      && s' == WithTable(s, s.calls[c].pid, t).(calls := s.calls - {c})
  }

  ghost predicate Step(s: State, s': State) {
    exists act :: Does(s, s', act)
  }

  ghost predicate Run(run: seq<State>) {
    run != [] && run[0] == INIT && forall i :: 0 <= i < |run| - 1 ==> Step(run[i], run[i + 1])
  }

  // ------------------------------------------------------------------- invariants

  /** A call has exactly the part of the lock that its phase stands for. */
  predicate CallOk(s: State, c: Session)
    requires c in s.calls
  {
    var p := s.calls[c].pid;
    && p in s.alive && p in s.tables && c in s.tables[p].claims
    && s.tables[p].claims[c].key == FILE
    && (s.tables[p].claims[c].Waiting? <==> s.calls[c].phase == Locking)
    && (s.calls[c].phase == Held ==> s.owner == Some(p))
  }

  ghost predicate Inv(s: State) {
    && s.alive <= s.used
    && (s.owner.Some? ==> s.owner.value in s.used)
    && (forall p :: p in s.alive ==> p in s.tables && KM.Inv(s.tables[p]))
    && (forall c :: c in s.calls ==> CallOk(s, c))
  }

  predicate Holds(s: State, c: Session) {
    c in s.calls && s.calls[c].phase == Held
  }

  /** Two calls of one process are not both past the in-process mutex. */
  lemma OneInside(s: State, c: Session, d: Session)
    requires Inv(s) && c in s.calls && d in s.calls && s.calls[c].pid == s.calls[d].pid
    requires s.calls[c].phase != Locking && s.calls[d].phase != Locking
    ensures c == d
  {
    assert CallOk(s, c) && CallOk(s, d);
    KM.HoldersAgree(s.tables[s.calls[c].pid], c, d);
  }

  /** At most one call of all live processes holds the lock. */
  lemma MutualExclusion(s: State, c: Session, d: Session)
    requires Inv(s) && Holds(s, c) && Holds(s, d)
    ensures c == d
  {
    assert CallOk(s, c) && CallOk(s, d);
    OneInside(s, c, d);
  }

  /** A step on one table leaves the claims of all other sessions alone. */
  lemma TableStep(t: KM.State, t': KM.State, act: KM.Action)
    requires KM.Inv(t) && KM.Does(t, t', act)
    ensures KM.Inv(t')
    ensures forall c :: c in t.claims && c != SessionOf(act) ==> c in t'.claims && t'.claims[c] == t.claims[c]
  {
    KM.StepKeepsInv(t, t');
  }

  lemma TableKeepsInv(s: State, s': State, p: Pid, t: KM.State, a: KM.Action, calls: map<Session, Call>)
    requires Inv(s) && p in s.alive && p in s.tables && KM.Does(s.tables[p], t, a)
    requires s' == WithTable(s, p, t).(calls := calls)
    requires forall c :: c in calls && c != SessionOf(a) ==> c in s.calls && calls[c] == s.calls[c]
    requires SessionOf(a) in calls ==> CallOk(s', SessionOf(a))
    ensures Inv(s')
  {
    assert KM.Inv(s.tables[p]);
    TableStep(s.tables[p], t, a);
    forall c | c in s'.calls
      ensures CallOk(s', c)
    {
      if c != SessionOf(a) { assert CallOk(s, c); }
    }
  }

  lemma FileKeepsInv(s: State, s': State, act: Action)
    requires Inv(s) && Does(s, s', act) && (act.TryOk? || act.RemoveFile? || act.Spawn? || act.Die? || act.Busy?)
    ensures Inv(s')
  {
    if act.Spawn? { KM.InitInv(); }
    forall c | c in s'.calls
      ensures CallOk(s', c)
    {
      assert CallOk(s, c);
      if (act.TryOk? || act.RemoveFile?) && c != act.c && s.calls[c].phase == Held {
        assert CallOk(s, act.c);
        if s.calls[c].pid == s.calls[act.c].pid { OneInside(s, c, act.c); }
      }
    }
  }

  lemma StepKeepsInv(s: State, s': State, act: Action)
    requires Inv(s) && Does(s, s', act)
    ensures Inv(s')
  {
    match act
    case Other(p, a, t) => TableKeepsInv(s, s', p, t, a, s.calls);
    case Start(c, p, o, t) => TableKeepsInv(s, s', p, t, KM.DoRef(c, FILE, o), s'.calls);
    case Enter(c, t) =>
      assert CallOk(s, c);
      TableKeepsInv(s, s', s.calls[c].pid, t, KM.DoAcquire(c), s'.calls);
    case Fail(c, t) =>
      TableKeepsInv(s, s', s.calls[c].pid, t, KM.DoUnlock(c), s'.calls);
    case Leave(c, t) =>
      TableKeepsInv(s, s', s.calls[c].pid, t, KM.DoUnlock(c), s'.calls);
    case _ => FileKeepsInv(s, s', act);
  }

  /** In every interleaving of any number of goroutines and processes, including their
      death, at most one live call holds the lock. */
  lemma {:induction false} RunIsSafe(run: seq<State>, i: nat)
    requires Run(run) && i < |run|
    ensures Inv(run[i])
    ensures forall c, d :: Holds(run[i], c) && Holds(run[i], d) ==> c == d
    decreases i
  {
    if i > 0 {
      RunIsSafe(run, i - 1);
      assert Step(run[i - 1], run[i - 1 + 1]);
      var act :| Does(run[i - 1], run[i], act);
      StepKeepsInv(run[i - 1], run[i], act);
    }
    forall c, d | Holds(run[i], c) && Holds(run[i], d)
      ensures c == d
    {
      MutualExclusion(run[i], c, d);
    }
  }

  /** A call that fails, or that gives the lock back, has nothing of the in-process mutex
      left: it is free for the sessions that wait for it. The lock file is as before. */
  lemma ReleasesEverything(s: State, s': State, c: Session, act: Action)
    requires Inv(s) && Does(s, s', act) && (act.Fail? || act.Leave?) && act.c == c
    ensures var p := s.calls[c].pid;
      var before, after := s.tables[p], s'.tables[p];
      && c !in s'.calls && c !in after.claims && s'.owner == s.owner
      && KM.Claimants(after, FILE) == KM.Claimants(before, FILE) - {c}
      && (forall d :: d in KM.Claimants(after, FILE) ==> after.claims[d].Waiting?)
      && (FILE in after.locks ==> !after.heap[after.locks[FILE]].locked)
  {
    assert CallOk(s, c);
    var p := s.calls[c].pid;
    var before, after := s.tables[p], s'.tables[p];
    assert KM.Inv(before) && KM.KeyOk(before, FILE);
    KM.UnlockKeepsInv(before, after, c);
    assert KM.KeyOk(after, FILE);
    forall d | d in KM.Claimants(after, FILE)
      ensures after.claims[d].Waiting?
    {
      if after.claims[d].Holding? { KM.HoldersAgree(before, c, d); }
    }
  }

  /** Unlock removes the lock file, and then every process can take it. If the removal fails
      the file still names the process, and no other one can take it while that lives. */
  lemma RemovalFreesFile(s: State, s': State, c: Session, removed: bool, q: Pid)
    requires Inv(s) && Does(s, s', RemoveFile(c, removed))
    ensures s.owner == Some(s.calls[c].pid)
    ensures removed ==> s'.owner.None? && Free(s', q)
    ensures !removed ==> s'.owner == s.owner && (Free(s', q) <==> q == s.calls[c].pid)
  {
    assert CallOk(s, c);
  }

  /** No phase gets stuck on a panic: the mutex step that ends a call is enabled. */
  lemma CanRelease(s: State, c: Session)
    requires Inv(s) && c in s.calls && s.calls[c].phase != Locking
    ensures var t := s.tables[s.calls[c].pid];
      CallOk(s, c) && !KM.UnlockPanics(t, FILE) && KM.Unlock(t, KM.Unlocked(t, c, FILE), c)
  {
    assert CallOk(s, c);
    KM.HolderCanUnlock(s.tables[s.calls[c].pid], c);
  }

  /** What a step of a call does to the calls. */
  function CallsAfter(calls: map<Session, Call>, act: Action): map<Session, Call> {
    match act
    case Start(c, p, _, _) => calls[c := Call(p, Locking)]
    case Enter(c, _) => if c in calls then calls[c := calls[c].(phase := Entered)] else calls
    case TryOk(c) => if c in calls then calls[c := calls[c].(phase := Held)] else calls
    case RemoveFile(c, _) => if c in calls then calls[c := calls[c].(phase := Leaving)] else calls
    case Fail(c, _) => calls - {c}
    case Leave(c, _) => calls - {c}
    case _ => calls
  }

  /** The phase a call is in before such a step. */
  predicate Before(calls: map<Session, Call>, act: Action) {
    match act
    case Start(c, _, _, _) => c !in calls
    case Enter(c, _) => c in calls && calls[c].phase == Locking
    case TryOk(c) => c in calls && calls[c].phase == Entered
    case Busy(c) => c in calls && calls[c].phase == Entered
    case Fail(c, _) => c in calls && calls[c].phase == Entered
    case RemoveFile(c, _) => c in calls && calls[c].phase == Held
    case Leave(c, _) => c in calls && calls[c].phase == Leaving
    case _ => true
  }

  lemma CallEffect(s: State, s': State, act: Action)
    requires Does(s, s', act) && !act.Spawn? && !act.Die?
    ensures s'.alive == s.alive && s'.used == s.used && s'.calls == CallsAfter(s.calls, act) && Before(s.calls, act)
    ensures act.Start? ==> act.p in s.alive
  {
  }

  lemma WorldEffect(s: State, s': State, act: Action)
    requires Inv(s) && Does(s, s', act) && (act.Spawn? || act.Die? || act.Other?)
    ensures s.used <= s'.used
    ensures act.Other? ==> s'.alive == s.alive && s'.calls == s.calls
    ensures act.Spawn? ==> s'.alive == s.alive + {act.p} && act.p !in s.used && s'.calls == s.calls
    ensures act.Die? ==>
      s'.alive == s.alive - {act.p} &&
      s'.calls == map c | c in s.calls && s.calls[c].pid != act.p :: s.calls[c]
  {
  }

  lemma AliveUsed(s: State)
    requires Inv(s)
    ensures s.alive <= s.used
  {
  }

  // -------------------------------------------------------------------- progress

  /** The call that takes the step. */
  function ActorOf(act: Action): Option<Session> {
    match act
    case Spawn(_) => None
    case Die(_) => None
    case Other(_, _, _) => None
    case Start(c, _, _, _) => Some(c)
    case Enter(c, _) => Some(c)
    case TryOk(c) => Some(c)
    case Busy(c) => Some(c)
    case Fail(c, _) => Some(c)
    case RemoveFile(c, _) => Some(c)
    case Leave(c, _) => Some(c)
  }

  ghost predicate OwnStep(s: State, s': State, c: Session) {
    exists act :: ActorOf(act) == Some(c) && Does(s, s', act)
  }

  /** One call alone goes on from `s`. */
  ghost predicate Alone(s: State, run: seq<State>, c: Session) {
    run != [] && run[0] == s && forall i :: 0 <= i < |run| - 1 ==> OwnStep(run[i], run[i + 1], c)
  }

  /** A call whose turn it is finds the file free or busy: busy exactly while another live
      process owns it, whatever a dead process left. */
  lemma BusyIff(s: State, c: Session)
    requires Inv(s) && c in s.calls && s.calls[c].phase == Entered
    ensures (exists s' :: Does(s, s', Busy(c))) <==>
      s.owner.Some? && s.owner.value in s.alive && s.owner.value != s.calls[c].pid
    ensures (exists s' :: Does(s, s', TryOk(c))) <==>
      s.owner.None? || s.owner.value !in s.alive || s.owner.value == s.calls[c].pid
    ensures forall s' :: Does(s, s', TryOk(c)) ==> Holds(s', c) && s'.owner == Some(s.calls[c].pid)
  {
    assert CallOk(s, c);
    if !Free(s, s.calls[c].pid) {
      assert Does(s, s, Busy(c));
    } else {
      assert Does(s, Moved(s, c, Held).(owner := Some(s.calls[c].pid)), TryOk(c));
    }
  }

  /** No call of the process is past the in-process mutex. */
  predicate MutexFree(s: State, p: Pid) {
    p in s.tables && !KM.Held(s.tables[p], FILE)
  }

  /** A new call can start to wait, whoever holds the mutex of its process. */
  lemma CanStart(s: State, c: Session, p: Pid, o: KM.Object) returns (s': State, t: KM.State)
    requires Inv(s) && p in s.alive && c !in s.calls && p in s.tables && c !in s.tables[p].claims &&
      o !in s.tables[p].heap
    ensures Does(s, s', Start(c, p, o, t)) && Inv(s') && s'.owner == s.owner && s'.alive == s.alive
    ensures s'.calls == s.calls[c := Call(p, Locking)] && (MutexFree(s', p) <==> MutexFree(s, p))
  {
    hide KM.Inv, KM.Held, KM.Referred;
    assert KM.Inv(s.tables[p]);
    KM.CanRefer(s.tables[p], c, FILE, o);
    t := KM.Referred(s.tables[p], c, FILE, o);
    s' := WithTable(s, p, t).(calls := s.calls[c := Call(p, Locking)]);
    StepKeepsInv(s, s', Start(c, p, o, t));
  }

  lemma CanEnter(s: State, c: Session) returns (s': State, t: KM.State)
    requires Inv(s) && c in s.calls && s.calls[c].phase == Locking && MutexFree(s, s.calls[c].pid)
    ensures Does(s, s', Enter(c, t)) && Inv(s') && s'.owner == s.owner && s'.alive == s.alive
    ensures s'.calls == s.calls[c := s.calls[c].(phase := Entered)]
  {
    hide KM.Inv, KM.Acquire, Inv;
    var p := s.calls[c].pid;
    InvFor(s, c);
    KM.WaiterEntersIff(s.tables[p], c);
    t :| KM.Acquire(s.tables[p], t, c);
    s' := Moved(WithTable(s, p, t), c, Entered);
    StepKeepsInv(s, s', Enter(c, t));
  }

  lemma CanTake(s: State, c: Session) returns (s': State)
    requires Inv(s) && c in s.calls && s.calls[c].phase == Entered
    requires s.owner.None? || s.owner.value !in s.alive || s.owner.value == s.calls[c].pid
    ensures Does(s, s', TryOk(c)) && Inv(s') && s'.owner == Some(s.calls[c].pid) && s'.alive == s.alive
    ensures s'.calls == s.calls[c := s.calls[c].(phase := Held)]
  {
    BusyIff(s, c);
    s' :| Does(s, s', TryOk(c));
    StepKeepsInv(s, s', TryOk(c));
  }

  /** A waiting call gets the lock by its own steps if no call of its process is past the
      mutex and no other live process owns the file, even if a dead one still does. */
  lemma WaiterLocks(s: State, c: Session) returns (run: seq<State>)
    requires Inv(s) && c in s.calls && s.calls[c].phase == Locking && MutexFree(s, s.calls[c].pid)
    requires s.owner.None? || s.owner.value !in s.alive || s.owner.value == s.calls[c].pid
    ensures Alone(s, run, c) && Inv(run[|run| - 1]) && Holds(run[|run| - 1], c)
    ensures run[|run| - 1].owner == Some(s.calls[c].pid) && run[|run| - 1].alive == s.alive
  {
    hide Does, Inv, MutexFree;
    var s1, t := CanEnter(s, c);
    var s2 := CanTake(s1, c);
    run := TwoSteps(s, s1, s2, Enter(c, t), TryOk(c), c);
  }

  lemma TwoSteps(s: State, s1: State, s2: State, a: Action, b: Action, c: Session) returns (run: seq<State>)
    requires Does(s, s1, a) && Does(s1, s2, b) && ActorOf(a) == ActorOf(b) == Some(c)
    ensures Alone(s, run, c) && run[|run| - 1] == s2
  {
    hide Does;
    run := [s, s1, s2];
    assert OwnStep(s, s1, c) && OwnStep(s1, s2, c);
  }

  lemma InvFor(s: State, c: Session)
    requires Inv(s) && c in s.calls
    ensures CallOk(s, c) && KM.Inv(s.tables[s.calls[c].pid])
  {
  }

  lemma CanRemove(s: State, c: Session) returns (s': State)
    requires Inv(s) && Holds(s, c)
    ensures Does(s, s', RemoveFile(c, true)) && Inv(s') && s'.owner.None? && s'.alive == s.alive
    ensures s'.calls == s.calls[c := s.calls[c].(phase := Leaving)]
  {
    assert CallOk(s, c);
    s' := Moved(s, c, Leaving).(owner := None);
    StepKeepsInv(s, s', RemoveFile(c, true));
  }

  lemma CanLeave(s: State, c: Session) returns (s': State, t: KM.State)
    requires Inv(s) && c in s.calls && s.calls[c].phase == Leaving
    ensures Does(s, s', Leave(c, t)) && Inv(s') && s'.owner == s.owner && s'.alive == s.alive
    ensures s'.calls == s.calls - {c} && MutexFree(s', s.calls[c].pid)
  {
    var p := s.calls[c].pid;
    CanRelease(s, c);
    InvFor(s, c);
    t := KM.Unlocked(s.tables[p], c, FILE);
    s' := WithTable(s, p, t).(calls := s.calls - {c});
    StepKeepsInv(s, s', Leave(c, t));
    KM.UnlockFrees(s.tables[p], t, c);
  }

  /** A holder gives the lock back by its own steps: the file is gone and the mutex of its
      process is free for the calls that wait, which are all still there. */
  lemma HolderUnlocks(s: State, c: Session) returns (run: seq<State>)
    requires Inv(s) && Holds(s, c)
    ensures Alone(s, run, c) && Inv(run[|run| - 1])
    ensures var e := run[|run| - 1];
      e.calls == s.calls - {c} && e.owner.None? && MutexFree(e, s.calls[c].pid) && e.alive == s.alive
  {
    hide Does, Inv, MutexFree;
    var s1 := CanRemove(s, c);
    var s2, t := CanLeave(s1, c);
    run := TwoSteps(s, s1, s2, RemoveFile(c, true), Leave(c, t), c);
    assert s1.calls - {c} == s.calls - {c};
  }
}
