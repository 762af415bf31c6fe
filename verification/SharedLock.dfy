/** Shared and exclusive locks on a directory: shared lockers leave a file named after
    their process, and an exclusive locker keeps the lock file while it waits for the
    files of live processes to go. */
module SharedLock {
  import opened Options
  import LF = LockFile
  import KM = KeyedMutex

  type Pid = LF.Pid
  type Session = LF.Session

  /** A shared lock file; the process id is part of its name. */
  datatype File = File(pid: Pid, n: nat)

  datatype Role =
    // sharedLocker: takes the lock file, creates its own file, gives the lock file back
    | SharedLocking | SharedOwner | SharedFiled(f: File) | SharedReleasing(made: Option<File>) | SharedHeld(f: File)
    // exclusiveLocker: takes the lock file, reads the directory, checks its entries one by
    // one, and starts over after waiting for a live one
    | ExclLocking | ExclWaiting | ExclReading(snap: set<File>) | ExclChecking(todo: set<File>)
    | ExclLocked | ExclReleasing

  datatype Locker = Locker(pid: Pid, role: Role)

  datatype State = State(lf: LF.State, files: set<File>, lockers: map<Session, Locker>)

  const INIT := State(LF.INIT, {}, map[])

  // ----------------------------------------------------------------------- steps

  datatype Action =
    | World(act: LF.Action)
    | Begin(act: LF.Action, shared: bool)
    | Progress(act: LF.Action)
    | GiveUp(act: LF.Action)
    | CreateFile(c: Session, f: File)
    | DeleteFile(c: Session, ok: bool)
    | ReadBegin(c: Session)
    | ReadEnd(c: Session, seen: set<File>)
    | Check(c: Session, f: File)
    | AllChecked(c: Session)

  predicate Is(s: State, c: Session) {
    c in s.lockers && s.lockers[c].pid in s.lf.alive
  }

  function Become(s: State, c: Session, r: Role): State
    requires c in s.lockers
  {
    s.(lockers := s.lockers[c := s.lockers[c].(role := r)])
  }

  /** The role after a step of its lock file call, or nothing when the call is over. */
  function After(r: Role, act: LF.Action): Option<Role> {
    match act
    case Enter(_, _) => Some(r)
    case Busy(_) => Some(r)
    case TryOk(_) => Some(if r.SharedLocking? then SharedOwner else ExclWaiting)
    case RemoveFile(_, _) =>
      Some(match r
           case SharedFiled(f) => SharedReleasing(Some(f))
           case SharedOwner => SharedReleasing(None)
           case _ => ExclReleasing)
    case Leave(_, _) =>
      if r.SharedReleasing? && r.made.Some? then Some(SharedHeld(r.made.value)) else None
    case _ => None
  }

  ghost predicate Does(s: State, s': State, act: Action) {
    match act
    // processes come and go, and use other locks
    case World(a) =>
      && (a.Spawn? || a.Die? || (a.Other? && LF.SessionOf(a.act) !in s.lockers)) && LF.Does(s.lf, s'.lf, a)
      && s' == State(s'.lf, s.files,
                     if a.Die? then map c | c in s.lockers && s.lockers[c].pid != a.p :: s.lockers[c]
                     else s.lockers)
    case Begin(a, shared) =>
      && a.Start? && a.c !in s.lockers && LF.Does(s.lf, s'.lf, a)
      && s' == State(s'.lf, s.files, s.lockers[a.c := Locker(a.p, if shared then SharedLocking else ExclLocking)])
    // the next step of a locker's lock file call; RemoveFile also ends a failed scan
    case Progress(a) =>
      && (a.Enter? || a.Busy? || a.TryOk? || a.RemoveFile? || a.Leave?) && Is(s, a.c) && LF.Does(s.lf, s'.lf, a)
      && s' == State(s'.lf, s.files,
                     match After(s.lockers[a.c].role, a)
                     case Some(r) => s.lockers[a.c := s.lockers[a.c].(role := r)]
                     case None => s.lockers - {a.c})
    case GiveUp(a) =>
      a.Fail? && Is(s, a.c) && LF.Does(s.lf, s'.lf, a) && s' == State(s'.lf, s.files, s.lockers - {a.c})
    case CreateFile(c, f) =>
      && Is(s, c) && s.lockers[c].role.SharedOwner? && f !in s.files && f.pid == s.lockers[c].pid
      && s' == Become(s, c, SharedFiled(f)).(files := s.files + {f})
    case DeleteFile(c, ok) =>
      && Is(s, c) && s.lockers[c].role.SharedHeld?
      && s' == State(s.lf, if ok then s.files - {s.lockers[c].role.f} else s.files, s.lockers - {c})
    case ReadBegin(c) =>
      Is(s, c) && s.lockers[c].role.ExclWaiting? && s' == Become(s, c, ExclReading(s.files))
    // the listing is not atomic: it surely has the files that are there all the time
    case ReadEnd(c, seen) =>
      && Is(s, c) && s.lockers[c].role.ExclReading? && s.files * s.lockers[c].role.snap <= seen
      && s' == Become(s, c, ExclChecking(seen))
    case Check(c, f) =>
      && Is(s, c) && s.lockers[c].role.ExclChecking? && f in s.lockers[c].role.todo
      && s' == Become(s, c, if f.pid in s.lf.alive then ExclWaiting else ExclChecking(s.lockers[c].role.todo - {f}))
    case AllChecked(c) =>
      Is(s, c) && s.lockers[c].role == ExclChecking({}) && s' == Become(s, c, ExclLocked)
  }

  ghost predicate Step(s: State, s': State) {
    exists act :: Does(s, s', act)
  }

  ghost predicate Run(run: seq<State>) {
    run != [] && run[0] == INIT && forall i :: 0 <= i < |run| - 1 ==> Step(run[i], run[i + 1])
  }

  // ------------------------------------------------------------------- invariants

  /** The phase of the lock file call that a role goes with. */
  predicate PhaseOk(r: Role, phase: LF.Phase) {
    match r
    case SharedLocking => phase.Locking? || phase.Entered?
    case ExclLocking => phase.Locking? || phase.Entered?
    case SharedReleasing(_) => phase.Leaving?
    case ExclReleasing => phase.Leaving?
    case SharedHeld(_) => false
    case _ => phase.Held?
  }

  function FileOf(r: Role): Option<File> {
    match r
    case SharedFiled(f) => Some(f)
    case SharedReleasing(made) => made
    case SharedHeld(f) => Some(f)
    case _ => None
  }

  /** While an exclusive locker scans, every file of a live process is among those it
      will still look at; once it has the lock there is none. */
  predicate ScanOk(s: State, r: Role) {
    match r
    case ExclReading(snap) => forall f :: f in s.files && f.pid in s.lf.alive ==> f in snap
    case ExclChecking(todo) => forall f :: f in s.files && f.pid in s.lf.alive ==> f in todo
    case ExclLocked => forall f :: f in s.files ==> f.pid !in s.lf.alive
    case _ => true
  }

  predicate LockerOk(s: State, c: Session)
    requires c in s.lockers
  {
    var l := s.lockers[c];
    && l.pid in s.lf.alive
    && (if l.role.SharedHeld? then c !in s.lf.calls
        else c in s.lf.calls && s.lf.calls[c].pid == l.pid && PhaseOk(l.role, s.lf.calls[c].phase))
    && (FileOf(l.role).Some? ==> FileOf(l.role).value in s.files && FileOf(l.role).value.pid == l.pid)
    && ScanOk(s, l.role)
  }

  ghost predicate Inv(s: State) {
    && LF.Inv(s.lf)
    && (forall f :: f in s.files ==> f.pid in s.lf.used)
    && (forall c :: c in s.lf.calls ==> c in s.lockers)
    && (forall c :: c in s.lockers ==> LockerOk(s, c))
    && OwnFiles(s.lockers)
  }

  /** No two shared lockers have the same file. */
  predicate OwnFiles(lockers: map<Session, Locker>) {
    forall c, d :: c in lockers && d in lockers && c != d ==>
      FileOf(lockers[c].role).None? || FileOf(lockers[c].role) != FileOf(lockers[d].role)
  }

  /** A locker that holds the lock file is alone with it. */
  lemma OneOwner(s: State, c: Session, d: Session)
    requires Inv(s) && c in s.lockers && d in s.lockers
    requires c in s.lf.calls && s.lf.calls[c].phase.Held? && d in s.lf.calls && s.lf.calls[d].phase.Held?
    ensures c == d
  {
    LF.MutualExclusion(s.lf, c, d);
  }

  predicate Scans(r: Role) {
    r.ExclReading? || r.ExclChecking? || r.ExclLocked?
  }

  /** Nothing that matters to locker `c` is different. */
  predicate SameFor(s: State, s': State, c: Session) {
    && c in s.lockers && c in s'.lockers && s'.lockers[c] == s.lockers[c]
    && (c in s.lf.calls <==> c in s'.lf.calls)
    && (c in s.lf.calls ==> s'.lf.calls[c] == s.lf.calls[c])
  }

  lemma LockerKept(s: State, s': State, c: Session)
    requires SameFor(s, s', c) && LockerOk(s, c) && s.lockers[c].pid in s'.lf.alive
    requires forall f :: f in s'.files && f.pid in s'.lf.alive ==>
      f in s.files && f.pid in s.lf.alive
    requires FileOf(s.lockers[c].role).Some? ==> FileOf(s.lockers[c].role).value in s'.files
    ensures LockerOk(s', c)
  {
  }

  lemma WorldKeepsInv(s: State, s': State, a: LF.Action)
    requires Inv(s) && Does(s, s', World(a))
    ensures Inv(s')
  {
    hide LF.Does, LF.Inv;
    LF.StepKeepsInv(s.lf, s'.lf, a);
    LF.WorldEffect(s.lf, s'.lf, a);
    forall c | c in s'.lockers
      ensures LockerOk(s', c)
    {
      assert LockerOk(s, c);
      LockerKept(s, s', c);
    }
    forall c | c in s'.lf.calls
      ensures c in s'.lockers
    {
      assert c in s.lockers && LockerOk(s, c);
    }
  }

  predicate IsProgress(a: LF.Action) {
    a.Enter? || a.Busy? || a.TryOk? || a.RemoveFile? || a.Leave?
  }

  /** A role and its lock file call move on together. */
  lemma RolesFollowCalls(r: Role, calls: map<Session, LF.Call>, a: LF.Action)
    requires IsProgress(a) && LF.Before(calls, a) && PhaseOk(r, calls[a.c].phase)
    ensures var calls' := LF.CallsAfter(calls, a);
      match After(r, a)
      case None => a.c !in calls'
      case Some(r') =>
        && (if r'.SharedHeld? then a.c !in calls'
            else a.c in calls' && calls'[a.c].pid == calls[a.c].pid && PhaseOk(r', calls'[a.c].phase))
        && (FileOf(r').Some? ==> FileOf(r') == FileOf(r))
        && !Scans(r')
  {
  }

  /** A locker that gets no other file than it had. */
  lemma OwnFilesKept(lockers: map<Session, Locker>, c: Session, l: Locker)
    requires OwnFiles(lockers)
    requires FileOf(l.role).Some? ==> c in lockers && FileOf(l.role) == FileOf(lockers[c].role)
    ensures OwnFiles(lockers[c := l]) && OwnFiles(lockers - {c})
  {
    hide FileOf;
  }

  lemma ProgressKeepsInv(s: State, s': State, a: LF.Action)
    requires Inv(s) && Does(s, s', Progress(a))
    ensures Inv(s')
  {
    hide LF.Does, LF.Inv, PhaseOk, OwnFiles;
    LF.StepKeepsInv(s.lf, s'.lf, a);
    LF.CallEffect(s.lf, s'.lf, a);
    assert LockerOk(s, a.c) && IsProgress(a);
    var r := s.lockers[a.c].role;
    RolesFollowCalls(r, s.lf.calls, a);
    var r' := After(r, a);
    OwnFilesKept(s.lockers, a.c, s.lockers[a.c].(role := if r'.Some? then r'.value else SharedLocking));
    hide After;
    forall c | c in s'.lockers
      ensures LockerOk(s', c)
    {
      assert LockerOk(s, c);
      if c != a.c { LockerKept(s, s', c); }
    }
    forall c | c in s'.lf.calls
      ensures c in s'.lockers
    {
      assert c != a.c ==> c in s.lf.calls;
    }
  }

  lemma BeginKeepsInv(s: State, s': State, a: LF.Action, shared: bool)
    requires Inv(s) && Does(s, s', Begin(a, shared))
    ensures Inv(s')
  {
    hide LF.Does, LF.Inv, OwnFiles;
    LF.StepKeepsInv(s.lf, s'.lf, a);
    LF.CallEffect(s.lf, s'.lf, a);
    OwnFilesKept(s.lockers, a.c, s'.lockers[a.c]);
    forall c | c in s'.lockers
      ensures LockerOk(s', c)
    {
      if c != a.c {
        assert LockerOk(s, c);
        LockerKept(s, s', c);
      }
    }
  }

  lemma GiveUpKeepsInv(s: State, s': State, a: LF.Action)
    requires Inv(s) && Does(s, s', GiveUp(a))
    ensures Inv(s')
  {
    hide LF.Does, LF.Inv;
    LF.StepKeepsInv(s.lf, s'.lf, a);
    LF.CallEffect(s.lf, s'.lf, a);
    forall c | c in s'.lockers
      ensures LockerOk(s', c)
    {
      assert LockerOk(s, c);
      LockerKept(s, s', c);
    }
  }

  /** Only the owner of the lock file creates a file, so no exclusive locker scans then. */
  lemma CreateKeepsInv(s: State, s': State, c: Session, f: File)
    requires Inv(s) && Does(s, s', CreateFile(c, f))
    ensures Inv(s')
  {
    hide LF.Does, LF.Inv;
    LF.AliveUsed(s.lf);
    assert LockerOk(s, c);
    forall d | d in s'.lockers
      ensures LockerOk(s', d)
      ensures d != c ==> FileOf(s'.lockers[d].role) != Some(f)
    {
      assert LockerOk(s, d);
      if d != c && Scans(s.lockers[d].role) { OneOwner(s, c, d); }
    }
  }

  lemma DeleteKeepsInv(s: State, s': State, c: Session, ok: bool)
    requires Inv(s) && Does(s, s', DeleteFile(c, ok))
    ensures Inv(s')
  {
    hide LF.Does, LF.Inv;
    assert LockerOk(s, c);
    forall d | d in s'.lockers
      ensures LockerOk(s', d)
    {
      assert LockerOk(s, d);
      LockerKept(s, s', d);
    }
  }

  predicate IsScan(act: Action) {
    act.ReadBegin? || act.ReadEnd? || act.Check? || act.AllChecked?
  }

  lemma ScanSelf(s: State, s': State, act: Action)
    requires IsScan(act) && Does(s, s', act) && LockerOk(s, act.c)
    ensures s' == Become(s, act.c, s'.lockers[act.c].role)
    ensures LockerOk(s', act.c) && FileOf(s'.lockers[act.c].role).None?
  {
    hide LF.Does;
  }

  lemma ScanKeepsInv(s: State, s': State, act: Action)
    requires Inv(s) && Does(s, s', act) && IsScan(act)
    ensures Inv(s')
  {
    hide LF.Inv, LF.Does, Does;
    assert act.c in s.lockers by { ScanActs(s, s', act); }
    assert LockerOk(s, act.c);
    ScanSelf(s, s', act);
    forall d | d in s'.lockers
      ensures LockerOk(s', d)
    {
      assert LockerOk(s, d);
      if d != act.c { LockerKept(s, s', d); }
    }
  }

  lemma ScanActs(s: State, s': State, act: Action)
    requires IsScan(act) && Does(s, s', act)
    ensures act.c in s.lockers
  {
  }

  lemma StepKeepsInv(s: State, s': State)
    requires Inv(s) && Step(s, s')
    ensures Inv(s')
  {
    var act :| Does(s, s', act);
    match act
    case World(a) => WorldKeepsInv(s, s', a);
    case Begin(a, shared) => BeginKeepsInv(s, s', a, shared);
    case Progress(a) => ProgressKeepsInv(s, s', a);
    case GiveUp(a) => GiveUpKeepsInv(s, s', a);
    case CreateFile(c, f) => CreateKeepsInv(s, s', c, f);
    case DeleteFile(c, ok) => DeleteKeepsInv(s, s', c, ok);
    case _ => ScanKeepsInv(s, s', act);
  }

  /** A live process holds a shared lock: Lock has returned and Unlock was not called. */
  predicate HoldsShared(s: State, c: Session) {
    c in s.lockers && s.lockers[c].role.SharedHeld? && s.lockers[c].pid in s.lf.alive
  }

  predicate HoldsExclusive(s: State, c: Session) {
    c in s.lockers && s.lockers[c].role.ExclLocked? && s.lockers[c].pid in s.lf.alive
  }

  lemma NoSharedBesideExclusive(s: State, c: Session, d: Session)
    requires Inv(s) && HoldsExclusive(s, c)
    ensures !HoldsShared(s, d)
    ensures HoldsExclusive(s, d) ==> c == d
  {
    assert LockerOk(s, c);
    if d in s.lockers { assert LockerOk(s, d); }
    if HoldsExclusive(s, d) { OneOwner(s, c, d); }
  }

  /** In every interleaving of any number of processes, including their death, nobody
      holds a shared lock between the return of an exclusive Lock and its Unlock, and
      nobody else holds an exclusive one. */
  lemma {:induction false} RunIsSafe(run: seq<State>, i: nat, c: Session, d: Session)
    requires Run(run) && i < |run|
    ensures Inv(run[i])
    ensures HoldsExclusive(run[i], c) ==> !HoldsShared(run[i], d)
    ensures HoldsExclusive(run[i], c) && HoldsExclusive(run[i], d) ==> c == d
    decreases i
  {
    if i > 0 {
      RunIsSafe(run, i - 1, c, d);
      assert Step(run[i - 1], run[i - 1 + 1]);
      StepKeepsInv(run[i - 1], run[i]);
    }
    if HoldsExclusive(run[i], c) { NoSharedBesideExclusive(run[i], c, d); }
  }

  // -------------------------------------------------------------------- progress

  /** The locker that takes the step. */
  function ActorOf(act: Action): Option<Session> {
    match act
    case World(_) => None
    case Begin(a, _) => LF.ActorOf(a)
    case Progress(a) => LF.ActorOf(a)
    case GiveUp(a) => LF.ActorOf(a)
    case CreateFile(c, _) => Some(c)
    case DeleteFile(c, _) => Some(c)
    case ReadBegin(c) => Some(c)
    case ReadEnd(c, _) => Some(c)
    case Check(c, _) => Some(c)
    case AllChecked(c) => Some(c)
  }

  /** From `s` to `s'` by steps of one locker alone. */
  ghost predicate Reaches(s: State, s': State, c: Session, n: nat)
    decreases n
  {
    if n == 0 then s' == s
    else exists t, act :: ActorOf(act) == Some(c) && Does(s, t, act) && Reaches(t, s', c, n - 1)
  }

  ghost predicate Gets(s: State, s': State, c: Session) {
    Inv(s') && exists n: nat :: Reaches(s, s', c, n)
  }

  lemma GetsSelf(s: State, c: Session)
    requires Inv(s)
    ensures Gets(s, s, c)
  {
    assert Reaches(s, s, c, 0);
  }

  /** One more own step in front. */
  lemma Led(s: State, act: Action, t: State, e: State, c: Session)
    requires ActorOf(act) == Some(c) && Does(s, t, act) && Gets(t, e, c)
    ensures Gets(s, e, c)
  {
    hide Does, Inv;
    var n: nat :| Reaches(t, e, c, n);
    assert Reaches(s, e, c, n + 1);
  }

  /** A check sends the locker back to waiting if and only if the process of the file is
      alive; the file of a dead one is skipped. */
  lemma CheckWaitsIff(s: State, s': State, c: Session, f: File)
    requires Inv(s) && Does(s, s', Check(c, f))
    ensures s'.lockers[c].role == ExclWaiting <==> f.pid in s.lf.alive
    ensures f.pid !in s.lf.alive ==> s'.lockers[c].role == ExclChecking(s.lockers[c].role.todo - {f})
    ensures s'.files == s.files && s'.lf == s.lf
  {
  }

  predicate NoLiveFiles(s: State) {
    forall f :: f in s.files ==> f.pid !in s.lf.alive
  }

  lemma Applied(s: State, act: Action, s': State)
    requires Inv(s) && Does(s, s', act)
    ensures Inv(s')
  {
    hide Does, Inv;
    assert Step(s, s');
    StepKeepsInv(s, s');
  }

  lemma CanScan(s: State, c: Session, act: Action, role: Role)
    requires Inv(s) && Is(s, c)
    requires match act
      case ReadBegin(d) => d == c && s.lockers[c].role == ExclWaiting && role == ExclReading(s.files)
      case ReadEnd(d, seen) =>
        d == c && s.lockers[c].role == ExclReading(s.files) && seen == s.files && role == ExclChecking(seen)
      case Check(d, f) =>
        && d == c && s.lockers[c].role.ExclChecking? && f in s.lockers[c].role.todo && f.pid !in s.lf.alive
        && role == ExclChecking(s.lockers[c].role.todo - {f})
      case AllChecked(d) => d == c && s.lockers[c].role == ExclChecking({}) && role == ExclLocked
      case _ => false
    ensures ActorOf(act) == Some(c) && Does(s, Become(s, c, role), act) && Inv(Become(s, c, role))
    ensures Is(Become(s, c, role), c)
  {
    hide Inv, LF.Does;
    assert Does(s, Become(s, c, role), act);
    Applied(s, act, Become(s, c, role));
  }

  lemma BecomeTwice(s: State, c: Session, r: Role, r': Role)
    requires c in s.lockers
    ensures Become(Become(s, c, r), c, r') == Become(s, c, r')
  {
  }

  /** The checks come to an end. */
  lemma {:induction false} ChecksEnd(s: State, c: Session, todo: set<File>) returns (e: State)
    requires Inv(s) && Is(s, c) && s.lockers[c].role == ExclChecking(todo)
    requires forall f :: f in todo ==> f.pid !in s.lf.alive
    ensures Gets(s, e, c) && HoldsExclusive(e, c) && e == Become(s, c, ExclLocked)
    decreases |todo|
  {
    hide Inv, Does, Gets;
    if f :| f in todo {
      CanScan(s, c, Check(c, f), ExclChecking(todo - {f}));
      var t := Become(s, c, ExclChecking(todo - {f}));
      e := ChecksEnd(t, c, todo - {f});
      Led(s, Check(c, f), t, e, c);
      BecomeTwice(s, c, ExclChecking(todo - {f}), ExclLocked);
    } else {
      assert todo == {};
      CanScan(s, c, AllChecked(c), ExclLocked);
      e := Become(s, c, ExclLocked);
      GetsSelf(e, c);
      Led(s, AllChecked(c), e, e, c);
    }
  }

  lemma LockerAlive(s: State, c: Session)
    requires Inv(s) && c in s.lockers
    ensures Is(s, c) && LockerOk(s, c)
  {
    assert LockerOk(s, c);
  }

  /** A locker that owns the lock file gets the exclusive lock by its own steps if no live
      process has a file, whatever dead processes left. */
  lemma ScanEnds(s: State, c: Session) returns (e: State)
    requires Inv(s) && c in s.lockers && s.lockers[c].role == ExclWaiting && NoLiveFiles(s)
    ensures Gets(s, e, c) && HoldsExclusive(e, c) && e == Become(s, c, ExclLocked)
  {
    hide Inv, Does, Gets;
    LockerAlive(s, c);
    var reading, checking := ExclReading(s.files), ExclChecking(s.files);
    var s1 := Become(s, c, reading);
    CanScan(s, c, ReadBegin(c), reading);
    var s2 := Become(s1, c, checking);
    CanScan(s1, c, ReadEnd(c, s.files), checking);
    e := ChecksEnd(s2, c, s.files);
    Led(s1, ReadEnd(c, s.files), s2, e, c);
    Led(s, ReadBegin(c), s1, e, c);
    BecomeTwice(s1, c, checking, ExclLocked);
    BecomeTwice(s, c, reading, ExclLocked);
  }

  /** The lock file can be taken: no call of the process is past its mutex and no other live
      process owns the file. */
  predicate FileFree(s: State, p: Pid) {
    LF.MutexFree(s.lf, p) && (s.lf.owner.None? || s.lf.owner.value !in s.lf.alive || s.lf.owner.value == p)
  }

  /** A locker can begin at any time, whoever holds what. */
  lemma CanBegin(s: State, c: Session, p: Pid, o: KM.Object, shared: bool) returns (s': State, a: LF.Action)
    requires Inv(s) && p in s.lf.alive && p in s.lf.tables && c !in s.lockers && c !in s.lf.calls
    requires c !in s.lf.tables[p].claims && o !in s.lf.tables[p].heap
    ensures Does(s, s', Begin(a, shared)) && Inv(s') && ActorOf(Begin(a, shared)) == Some(c)
    ensures s'.lockers == s.lockers[c := Locker(p, if shared then SharedLocking else ExclLocking)]
    ensures c in s'.lf.calls && s'.lf.calls[c].phase == LF.Locking && s'.files == s.files
    ensures s'.lf.alive == s.lf.alive && (FileFree(s', p) <==> FileFree(s, p))
  {
    hide Inv, LF.Does, LF.Inv, LF.MutexFree;
    LfInv(s);
    var lf, t := LF.CanStart(s.lf, c, p, o);
    a := LF.Start(c, p, o, t);
    s' := State(lf, s.files, s.lockers[c := Locker(p, if shared then SharedLocking else ExclLocking)]);
    assert Does(s, s', Begin(a, shared));
    Applied(s, Begin(a, shared), s');
  }

  lemma CanProgress(s: State, c: Session, lf: LF.State, a: LF.Action) returns (s': State)
    requires Inv(s) && Is(s, c) && LF.Does(s.lf, lf, a) && IsProgress(a) && LF.ActorOf(a) == Some(c)
    ensures Does(s, s', Progress(a)) && Inv(s') && ActorOf(Progress(a)) == Some(c)
    ensures s' == State(lf, s.files,
                        match After(s.lockers[c].role, a)
                        case Some(r) => s.lockers[c := s.lockers[c].(role := r)]
                        case None => s.lockers - {c})
  {
    hide Inv, LF.Does;
    s' := State(lf, s.files,
                match After(s.lockers[c].role, a)
                case Some(r) => s.lockers[c := s.lockers[c].(role := r)]
                case None => s.lockers - {c});
    assert Does(s, s', Progress(a));
    Applied(s, Progress(a), s');
  }

  lemma LfInv(s: State)
    requires Inv(s)
    ensures LF.Inv(s.lf)
  {
  }

  /** The first two steps of every locker. */
  lemma TakesFile(s: State, c: Session, role: Role) returns (s1: State, s2: State, a: Action, b: Action)
    requires Inv(s) && c in s.lockers && s.lockers[c].role == role && (role.SharedLocking? || role.ExclLocking?)
    requires c in s.lf.calls && s.lf.calls[c].phase == LF.Locking && FileFree(s, s.lockers[c].pid)
    ensures Does(s, s1, a) && Does(s1, s2, b) && ActorOf(a) == ActorOf(b) == Some(c) && Inv(s2)
    ensures s2.files == s.files && s2.lf.alive == s.lf.alive && c in s2.lf.calls && s2.lf.calls[c].phase == LF.Held
    ensures s2.lockers ==
      s.lockers[c := s.lockers[c].(role := if role.SharedLocking? then SharedOwner else ExclWaiting)]
  {
    hide Inv, Does, LF.Does, LF.Inv, LF.MutexFree;
    LockerAlive(s, c);
    LfInv(s);
    var lf1, t := LF.CanEnter(s.lf, c);
    s1 := CanProgress(s, c, lf1, LF.Enter(c, t));
    var lf2 := LF.CanTake(lf1, c);
    s2 := CanProgress(s1, c, lf2, LF.TryOk(c));
    a, b := Progress(LF.Enter(c, t)), Progress(LF.TryOk(c));
  }

  /** An exclusive Lock returns by its own steps: dead processes may own the lock file and
      have left shared lock files. */
  lemma ExclusiveLocks(s: State, c: Session) returns (e: State)
    requires Inv(s) && c in s.lockers && s.lockers[c].role == ExclLocking
    requires c in s.lf.calls && s.lf.calls[c].phase == LF.Locking && FileFree(s, s.lockers[c].pid) && NoLiveFiles(s)
    ensures Gets(s, e, c) && HoldsExclusive(e, c) && e.files == s.files
  {
    hide Inv, Does, Gets, LF.MutexFree;
    var s1, s2, a, b := TakesFile(s, c, ExclLocking);
    e := ScanEnds(s2, c);
    Led(s1, b, s2, e, c);
    Led(s, a, s1, e, c);
  }

  lemma CanCreate(s: State, c: Session, f: File) returns (s': State)
    requires Inv(s) && Is(s, c) && s.lockers[c].role == SharedOwner && f !in s.files && f.pid == s.lockers[c].pid
    ensures Does(s, s', CreateFile(c, f)) && Inv(s') && Is(s', c)
    ensures s' == Become(s, c, SharedFiled(f)).(files := s.files + {f})
  {
    hide Inv, LF.Does;
    s' := Become(s, c, SharedFiled(f)).(files := s.files + {f});
    assert Does(s, s', CreateFile(c, f));
    Applied(s, CreateFile(c, f), s');
  }

  /** The last two steps of a locker that owns the lock file. */
  lemma GivesBack(s: State, c: Session) returns (s1: State, s2: State, a: Action, b: Action)
    requires Inv(s) && Is(s, c) && (s.lockers[c].role.SharedFiled? || s.lockers[c].role == ExclLocked)
    ensures Does(s, s1, a) && Does(s1, s2, b) && ActorOf(a) == ActorOf(b) == Some(c) && Inv(s2)
    ensures s2.files == s.files && s2.lf.alive == s.lf.alive && s2.lf.owner.None?
    ensures s2.lf.calls == s.lf.calls - {c} && LF.MutexFree(s2.lf, s.lockers[c].pid)
    ensures s2.lockers == if s.lockers[c].role == ExclLocked then s.lockers - {c}
                          else s.lockers[c := s.lockers[c].(role := SharedHeld(s.lockers[c].role.f))]
  {
    hide Inv, Does, LF.Does, LF.Inv, LF.MutexFree;
    LockerAlive(s, c);
    LfInv(s);
    var lf1 := LF.CanRemove(s.lf, c);
    s1 := CanProgress(s, c, lf1, LF.RemoveFile(c, true));
    var lf2, t := LF.CanLeave(lf1, c);
    s2 := CanProgress(s1, c, lf2, LF.Leave(c, t));
    a, b := Progress(LF.RemoveFile(c, true)), Progress(LF.Leave(c, t));
    assert lf1.calls - {c} == s.lf.calls - {c};
    assert s1.lockers - {c} == s.lockers - {c};
  }

  /** A shared Lock returns by its own steps and leaves a new file of its process. */
  lemma SharedLocks(s: State, c: Session, f: File) returns (e: State)
    requires Inv(s) && c in s.lockers && s.lockers[c].role == SharedLocking && f !in s.files &&
      f.pid == s.lockers[c].pid
    requires c in s.lf.calls && s.lf.calls[c].phase == LF.Locking && FileFree(s, s.lockers[c].pid)
    ensures Gets(s, e, c) && HoldsShared(e, c) && e.lockers[c].role.f == f && e.files == s.files + {f}
    ensures e.lf.owner.None? && c !in e.lf.calls
  {
    hide Inv, Does, Gets, LF.MutexFree;
    var s1, s2, a, b := TakesFile(s, c, SharedLocking);
    LockerAlive(s2, c);
    var s3 := CanCreate(s2, c, f);
    var s4, s5, r, l := GivesBack(s3, c);
    e := s5;
    LockerAlive(s5, c);
    GetsSelf(s5, c);
    Led(s4, l, s5, e, c);
    Led(s3, r, s4, e, c);
    Led(s2, CreateFile(c, f), s3, e, c);
    Led(s1, b, s2, e, c);
    Led(s, a, s1, e, c);
  }

  /** An exclusive Unlock gives the lock file back by its own steps. */
  lemma ExclusiveUnlocks(s: State, c: Session) returns (e: State)
    requires Inv(s) && HoldsExclusive(s, c)
    ensures Gets(s, e, c) && c !in e.lockers && e.lf.owner.None? && FileFree(e, s.lockers[c].pid) && e.files == s.files
  {
    hide Inv, Does, Gets, LF.MutexFree;
    var s1, s2, a, b := GivesBack(s, c);
    e := s2;
    GetsSelf(s2, c);
    Led(s1, b, s2, e, c);
    Led(s, a, s1, e, c);
  }

  /** A shared Unlock removes exactly its own file. */
  lemma SharedUnlocks(s: State, c: Session) returns (e: State)
    requires Inv(s) && HoldsShared(s, c)
    ensures Gets(s, e, c) && c !in e.lockers && e.files == s.files - {s.lockers[c].role.f} && e.lf == s.lf
  {
    hide Inv, Gets, LF.Does;
    e := State(s.lf, s.files - {s.lockers[c].role.f}, s.lockers - {c});
    assert Does(s, e, DeleteFile(c, true));
    hide Does;
    Applied(s, DeleteFile(c, true), e);
    GetsSelf(e, c);
    Led(s, DeleteFile(c, true), e, e, c);
  }
}
