/** The exit/wait handshake: every step keeps the invariant that ties a child's semaphore, its
    place on its parent's list and the log of collected statuses together. */
module ExitWaitProof {
  import opened Common
  import opened ThreadModel
  import opened SchedulerProof
  import opened KernelInvariants
  import opened KernelFrames

  /** Nothing about parents and children changes but the position of the running thread. */
  ghost predicate KinKept(st: State, st': State)
    requires Wf(st) && Wf(st')
  {
    && st'.parent == st.parent && st'.children == st.children && st'.freed == st.freed
    && st'.log == st.log && st'.exitStatus == st.exitStatus
    && (forall t {:trigger st'.status[t]} :: 0 <= t < |st.status| ==> (st'.status[t].Dying? <==> st.status[t].Dying?))
    && (forall t {:trigger OfExit(t) in st.semas} :: OfExit(t) in st.semas ==>
          && OfExit(t) in st'.semas && st'.semas[OfExit(t)].init == st.semas[OfExit(t)].init
          && st'.semas[OfExit(t)].ups == st.semas[OfExit(t)].ups
          && st'.semas[OfExit(t)].downs == st.semas[OfExit(t)].downs)
  }

  /** The running thread waits for a child of its own, or for none. */
  predicate WaitsForOwn(st: State, pc: Pc)
    requires st.cur < |st.children|
  {
    (pc.Recheck? || pc.StartDown?) && pc.s.OfExit? ==> pc.s.t in st.children[st.cur]
  }

  lemma KinAt(st: State, t: Tid)
    requires Wf(st) && ChildInv(st) && t < |st.status|
    ensures ParentOk(st, t) && (0 < t ==> ChildOk(st, t))
  {
    assert st.children[t] == st.children[t] && st.parent[t] == st.parent[t];
  }

  lemma ChildFrame(st: State, st': State)
    requires Moves(st, st') && ChildInv(st) && KinKept(st, st')
    requires !st.pc[st.cur].Collect? && !st'.pc[st.cur].Collect? && WaitsForOwn(st, st'.pc[st.cur])
    ensures ChildInv(st')
  {
    assert LogInv(st);
    forall c | 0 < c < |st'.parent| ensures ChildOk(st', c) {
      KinAt(st, c);
      assert st'.pc[st.parent[c]] == st.pc[st.parent[c]] || st.parent[c] == st.cur;
    }
    forall p | 0 <= p < |st'.children| ensures ParentOk(st', p) {
      KinAt(st, p);
      assert st'.pc[p] == st.pc[p] || p == st.cur;
    }
  }

  /** The parent passes its child's semaphore. */
  lemma ChildTake(st: State, c: Tid)
    requires Wf(st) && ChildInv(st) && c in st.children[st.cur]
    requires OfExit(c) in st.semas && st.semas[OfExit(c)].value > 0 && !st.pc[st.cur].Collect?
    ensures ChildInv(Take(st, OfExit(c), Collect(c)))
  {
    assert LogInv(st);
    var st' := Take(st, OfExit(c), Collect(c));
    KinAt(st, st.cur);
    KinAt(st, c);
    forall d | 0 < d < |st'.parent| ensures ChildOk(st', d) {
      KinAt(st, d);
    }
    forall p | 0 <= p < |st'.children| ensures ParentOk(st', p) {
      KinAt(st, p);
    }
  }

  lemma {:induction false} WithoutFacts(s: seq<Tid>, x: Tid)
    requires NoDup(s)
    ensures NoDup(Without(s, x))
    ensures forall t :: t in Without(s, x) <==> t in s && t != x
  {
    if s != [] {
      PopFront(s);
      if s[0] != x {
        WithoutFacts(s[1..], x);
      }
    }
  }

  /** A child whose semaphore has been lowered has died. */
  lemma CollectedIsDying(st: State, c: Tid)
    requires Wf(st) && ChildInv(st) && CountInv(st) && st.pc[st.cur] == Collect(c)
    ensures 0 < c < |st.status| && st.parent[c] == st.cur && c !in st.freed && st.status[c].Dying?
  {
    KinAt(st, st.cur);
    KinAt(st, c);
  }

  lemma WasCollectedGrows(log: seq<WaitResult>, e: WaitResult, c: Tid)
    requires WasCollected(log, c) || (e.Collected? && e.child == c)
    ensures WasCollected(log + [e], c)
  {
    var log' := log + [e];
    if WasCollected(log, c) {
      var i :| 0 <= i < |log| && log[i].Collected? && log[i].child == c;
      assert log'[i] == log[i];
    } else {
      assert log'[|log|] == e;
    }
  }

  lemma LogReap(st: State, c: Tid)
    requires Wf(st) && LogInv(st) && 0 < c < |st.status| && st.parent[c] == st.cur && c !in st.freed
    ensures LogInv(Reap(st, c))
  {
    var st' := Reap(st, c);
    forall i | 0 <= i < |st.log| ensures EntryOk(st, st.log[i]) {
      assert st.log[i] in st.log;
    }
    var e := Collected(st.cur, c, st.exitStatus[c]);
    forall d | d in st'.freed ensures WasCollected(st'.log, d) {
      WasCollectedGrows(st.log, e, d);
    }
  }

  lemma ChildReap(st: State, c: Tid)
    requires Wf(st) && ChildInv(st) && CountInv(st) && st.pc[st.cur] == Collect(c) && c < |st.status|
    ensures ChildInv(Reap(st, c))
  {
    hide NoDup;
    assert LogInv(st);
    var st' := Reap(st, c);
    CollectedIsDying(st, c);
    KinAt(st, st.cur);
    KinAt(st, c);
    WithoutFacts(st.children[st.cur], c);
    LogReap(st, c);
    forall d | 0 < d < |st'.parent| ensures ChildOk(st', d) {
      KinAt(st, d);
    }
    forall p | 0 <= p < |st'.children| ensures ParentOk(st', p) {
      KinAt(st, p);
    }
  }

  /** `thread_exit` raises the semaphore once, as the thread dies. */
  lemma ChildExit(st: State, st': State)
    requires Wf(st) && ChildInv(st) && Wf(st') && !st.status[st.cur].Dying?
    requires st'.pc == st.pc && st'.parent == st.parent && st'.children == st.children && st'.freed == st.freed
    requires st'.log == st.log && st'.exitStatus == st.exitStatus && |st'.status| == |st.status|
    requires forall t :: 0 <= t < |st.status| ==> (st'.status[t].Dying? <==> st.status[t].Dying? || t == st.cur)
    requires st'.semas.Keys == st.semas.Keys
    requires forall t :: OfExit(t) in st.semas ==>
               && st'.semas[OfExit(t)].init == st.semas[OfExit(t)].init
               && st'.semas[OfExit(t)].downs == st.semas[OfExit(t)].downs
               && st'.semas[OfExit(t)].ups == st.semas[OfExit(t)].ups + if t == st.cur && t != MAIN then 1 else 0
    ensures ChildInv(st')
  {
    assert LogInv(st);
    forall c | 0 < c < |st'.parent| ensures ChildOk(st', c) {
      KinAt(st, c);
    }
    forall p | 0 <= p < |st'.children| ensures ParentOk(st', p) {
      KinAt(st, p);
    }
  }

  lemma ChildCreate(st: State)
    requires Wf(st) && ChildInv(st) && PcInv(st)
    ensures ChildInv(Create(st))
  {
    hide NoDup;
    assert LogInv(st);
    var st' := Create(st);
    var t := |st.status|;
    assert ParentOk(st, st.cur);
    PushBack(st.children[st.cur], t);
    forall c | 0 < c < |st'.parent| ensures ChildOk(st', c) {
      if c < t {
        KinAt(st, c);
        assert st'.pc[st.parent[c]] == st.pc[st.parent[c]];
      } else {
        assert PcOk(st, st.cur, st.pc[st.cur]);
      }
    }
    forall p | 0 <= p < |st'.children| ensures ParentOk(st', p) {
      if p < t {
        KinAt(st, p);
        assert st'.pc[p] == st.pc[p];
      } else {
        NoDupEmpty();
      }
    }
  }

  lemma ChildSetStatus(st: State, v: int)
    requires Wf(st) && ChildInv(st) && !st.status[st.cur].Dying?
    ensures ChildInv(st.(exitStatus := st.exitStatus[st.cur := v]))
  {
    assert LogInv(st);
    var st' := st.(exitStatus := st.exitStatus[st.cur := v]);
    forall c | 0 < c < |st'.parent| ensures ChildOk(st', c) {
      KinAt(st, c);
    }
    forall p | 0 <= p < |st'.children| ensures ParentOk(st', p) {
      KinAt(st, p);
    }
    forall e | e in st'.log ensures EntryOk(st', e) {
      assert EntryOk(st, e);
      if e.Collected? {
        assert ChildOk(st, e.child);
      }
    }
  }

  // ----- steps -----

  lemma DownKeepsKin(st: State, s: SemaId, next: Pc)
    requires Core(st, true) && s in st.semas && TryDown(st, s, next).Next?
    requires s.OfExit? ==> st.semas[s].value == 0
    ensures Wf(TryDown(st, s, next).st) && KinKept(st, TryDown(st, s, next).st)
  {
    NextNotDying(st, true);
    RunningAlive(st);
    hide RunInv, ReadyInv, WaitInv, IdleInv, DyingInv;
    if st.semas[s].value == 0 {
      ScheduleKeepsKin(Sleep(st, s, next), TryDown(st, s, next).st);
    }
  }

  lemma RunningAlive(st: State)
    requires Core(st, true)
    ensures st.status[st.cur].Running?
  {
  }

  /** Switching threads neither kills nor revives one. */
  lemma ScheduleKeepsKin(st: State, st': State)
    requires Wf(st) && TrySchedule(st) == Next(st')
    requires st.ready != [] ==> st.ready[0] < |st.status| && !st.status[st.ready[0]].Dying?
    requires st.ready == [] ==> !st.status[IDLE].Dying?
    ensures Wf(st') && KinKept(st, st')
  {
  }

  lemma NextNotDying(st: State, running: bool)
    requires Core(st, running)
    ensures st.ready != [] ==> st.ready[0] < |st.status| && !st.status[st.ready[0]].Dying?
    ensures !st.status[IDLE].Dying?
  {
    hide NoDup;
    if st.ready != [] {
      assert st.ready[0] in st.ready;
    }
  }

  lemma ChildDown(st: State, s: SemaId, next: Pc)
    requires Core(st, true) && ChildInv(st) && DownOk(st, st.cur, s, next) && TryDown(st, s, next).Next?
    requires !st.pc[st.cur].Collect? && (s.OfExit? ==> s.t in st.children[st.cur])
    ensures Wf(TryDown(st, s, next).st) && ChildInv(TryDown(st, s, next).st)
  {
    hide RunInv, ReadyInv, WaitInv, IdleInv, DyingInv, ChildInv, Moves, KinKept;
    if s.OfExit? && st.semas[s].value > 0 {
      ChildTake(st, s.t);
    } else {
      MovesDown(st, s, next);
      DownKeepsKin(st, s, next);
      ChildFrame(st, TryDown(st, s, next).st);
    }
  }

  lemma UpKeepsKin(st: State, s: SemaId)
    requires TryUp(st, s).Next? && !s.OfExit?
    ensures Wf(TryUp(st, s).st) && KinKept(st, TryUp(st, s).st) && TryUp(st, s).st.pc == st.pc
  {
  }

  lemma KinKeptTrans(st: State, st1: State, st': State)
    requires Wf(st) && Wf(st1) && Wf(st') && KinKept(st, st1) && KinKept(st1, st')
    ensures KinKept(st, st')
  {
    forall t | 0 <= t < |st.status| ensures st'.status[t].Dying? <==> st.status[t].Dying? {
      assert st1.status[t].Dying? <==> st.status[t].Dying?;
    }
    forall t | OfExit(t) in st.semas ensures OfExit(t) in st1.semas {
    }
  }

  lemma ChildGoOn(st: State)
    requires Core(st, true) && CountInv(st) && PcInv(st) && ChildInv(st) && !st.pc[st.cur].Free? && GoOn(st).Next?
    ensures Wf(GoOn(st).st) && ChildInv(GoOn(st).st)
  {
    hide RunInv, ReadyInv, WaitInv, IdleInv, DyingInv, CountInv, ChildInv, PcInv, Moves, KinKept, TryUp, TryDown, TryPop, TrySchedule;
    var st' := GoOn(st).st;
    PcAt(st, st.cur);
    KinAt(st, st.cur);
    MovesGoOn(st);
    assert Wf(st') by { MovesWf(st, st'); }
    match st.pc[st.cur]
    case Recheck(s, next) => ChildDown(st, s, next);
    case StartDown(s, next) => ChildDown(st, s, next);
    case DropLock(l, next) => ChildUp(st, st, next, OfLock(l), st');
    case SignalUp(w, next) => ChildUp(st, st.(phase := st.phase[w := Signalled]), next, OfWaiter(w), st');
    case IdleUp => ChildUp(st, st, IdleLoop, IDLE_STARTED, st');
    case Collect(c) => ChildReap(st, c);
    case IdleLoop => ChildIdle(st, st');
    case _ =>
      ChildRest(st, st');
      ChildFrame(st, st');
  }

  lemma ChildUp(st: State, st0: State, next: Pc, s: SemaId, st': State)
    requires Wf(st) && ChildInv(st) && Moves(st, st') && st0 == st.(phase := st0.phase) && Wf(st0)
    requires TryUp(SetPc(st0, next), s) == Next(st') && !s.OfExit? && !st.pc[st.cur].Collect?
    requires next.Free? || next.Broadcast? || next.IdleLoop? || (next.StartDown? && !next.s.OfExit?)
    ensures ChildInv(st')
  {
    hide ChildInv, Moves, TryUp;
    UpKeepsKin(SetPc(st0, next), s);
    KinKeptTrans(st, SetPc(st0, next), st');
    ChildFrame(st, st');
  }

  lemma ChildIdle(st: State, st': State)
    requires Core(st, true) && ChildInv(st) && st.pc[st.cur].IdleLoop? && GoOn(st) == Next(st') && Moves(st, st')
    ensures ChildInv(st')
  {
    NextNotDying(st, true);
    RunningAlive(st);
    hide RunInv, ReadyInv, WaitInv, IdleInv, DyingInv, ChildInv, Moves, TrySchedule;
    var st1 := SetStatus(st, Blocked);
    ScheduleKeepsKin(st1, st');
    KinKeptTrans(st, st1, st');
    MovesTo(st, st1, IdleLoop);
    ChildIdleFrame(st, st1, st');
  }

  lemma ChildIdleFrame(st: State, st1: State, st': State)
    requires Moves(st, st') && Wf(st1) && ChildInv(st) && KinKept(st, st') && st.pc[st.cur].IdleLoop?
    requires st'.pc == st.pc
    ensures ChildInv(st')
  {
    hide ChildInv;
    ChildFrame(st, st');
  }

  lemma ChildRest(st: State, st': State)
    requires Wf(st) && GoOn(st) == Next(st') && Wf(st')
    requires var pc := st.pc[st.cur]; pc.TakeLock? || pc.Releasing? || pc.Broadcast? || pc.IdleBoot?
    ensures KinKept(st, st') && st.cur < |st'.pc|
    ensures !st'.pc[st.cur].Collect? && !st'.pc[st.cur].Recheck? && !st'.pc[st.cur].StartDown?
  {
  }

  lemma ChildCall(st: State, a: Action, st': State)
    requires Inv(st) && Enabled(st, a) && st.pc[st.cur].Free? && Step(st, a) == Next(st') && Moves(st, st') && Wf(st')
    requires !a.Yield? && !a.InterruptUp?
    ensures ChildInv(st')
  {
    RunningAlive(st);
    hide RunInv, ReadyInv, WaitInv, IdleInv, DyingInv, WakeInv, CountInv, PcInv, LockInv, CondsInv, ChildInv, Moves, KinKept;
    hide Exit, TryDown, TryUp, Create, TryPop, JoinCond, TrySchedule;
    if a.SemaDown? || a.LockAcquire? || a.ProcessWait? {
      ChildCallDown(st, a, st');
    } else {
      match a
      case ThreadCreate => ChildCreate(st);
      case SetExitStatus(v) => ChildSetStatus(st, v);
      case ThreadExit => ChildDies(st, st');
      case _ => ChildQuiet(st, a, st');
    }
  }

  lemma ChildQuiet(st: State, a: Action, st': State)
    requires Enabled(st, a) && ChildInv(st) && st.pc[st.cur].Free? && Step(st, a) == Next(st') && Moves(st, st') && Wf(st')
    requires a.SemaUp? || a.SemaInit? || a.LockInit? || a.CondInit? || a.SemaTryDown? || a.LockTryAcquire?
             || a.LockRelease? || a.CondWait? || a.CondSignal? || a.CondBroadcast?
    ensures ChildInv(st')
  {
    hide ChildInv, Moves, KinKept, TryUp;
    if a.SemaUp? {
      UpKeepsKin(st, Plain(a.n));
    } else {
      CallKeepsKin(st, a, st');
    }
    ChildFrame(st, st');
  }

  lemma ChildCallDown(st: State, a: Action, st': State)
    requires Inv(st) && Enabled(st, a) && st.pc[st.cur].Free? && Step(st, a) == Next(st') && Wf(st')
    requires a.SemaDown? || a.LockAcquire? || a.ProcessWait?
    ensures ChildInv(st')
  {
    hide RunInv, ReadyInv, WaitInv, IdleInv, DyingInv, WakeInv, CountInv, PcInv, LockInv, CondsInv, ChildInv, TryDown;
    match a
    case SemaDown(n) => ChildDown(st, Plain(n), Free);
    case LockAcquire(l) =>
      LockSemaExists(st, l);
      ChildDown(st, OfLock(l), TakeLock(l));
    case ProcessWait(c) =>
      if c in st.children[st.cur] {
        ChildExists(st, c);
        ChildDown(st, OfExit(c), Collect(c));
      } else {
        ChildRefuse(st, c);
      }
  }

  /** Waiting for a thread that is not a child, or not any more, is refused at once. */
  lemma ChildRefuse(st: State, c: Tid)
    requires Wf(st) && ChildInv(st)
    ensures ChildInv(st.(log := st.log + [Refused(st.cur, c)]))
  {
    assert LogInv(st);
    var st' := st.(log := st.log + [Refused(st.cur, c)]);
    forall d | d in st'.freed ensures WasCollected(st'.log, d) {
      WasCollectedGrows(st.log, Refused(st.cur, c), d);
    }
    forall d | 0 < d < |st'.parent| ensures ChildOk(st', d) {
      KinAt(st, d);
    }
    forall p | 0 <= p < |st'.children| ensures ParentOk(st', p) {
      KinAt(st, p);
    }
  }

  lemma CallKeepsKin(st: State, a: Action, st': State)
    requires Enabled(st, a) && st.pc[st.cur].Free? && Step(st, a) == Next(st') && Wf(st')
    requires a.SemaInit? || a.LockInit? || a.CondInit? || a.SemaTryDown? || a.LockTryAcquire? || a.LockRelease?
             || a.CondWait? || a.CondSignal? || a.CondBroadcast?
    ensures KinKept(st, st') && st.cur < |st'.pc|
    ensures !st'.pc[st.cur].Collect? && !st'.pc[st.cur].Recheck? && !st'.pc[st.cur].StartDown?
  {
  }

  lemma ChildDies(st: State, st': State)
    requires Core(st, true) && ChildInv(st) && st.pc[st.cur].Free? && Exit(st) == Next(st')
    ensures Wf(st') && ChildInv(st')
  {
    RunningAlive(st);
    KinAt(st, st.cur);
    var st1 := if st.cur == MAIN then st else Up(st, OfExit(st.cur));
    if st.cur != MAIN {
      UpCore(st, OfExit(st.cur));
    }
    DieCore(st1);
    NextNotDying(SetStatus(st1, Dying), false);
    hide RunInv, ReadyInv, WaitInv, IdleInv, DyingInv, ChildInv;
    DeathNoted(st, st1);
    ScheduleKeepsKin(SetStatus(st1, Dying), st');
    ChildSame(SetStatus(st1, Dying), st');
  }

  lemma DeathNoted(st: State, st1: State)
    requires Wf(st) && ChildInv(st) && st.status[st.cur].Running?
    requires st.cur == MAIN ==> st1 == st
    requires st.cur != MAIN ==> CanUp(st, OfExit(st.cur)) && st1 == Up(st, OfExit(st.cur))
    ensures Wf(SetStatus(st1, Dying)) && ChildInv(SetStatus(st1, Dying))
  {
    hide ChildInv;
    ChildExit(st, SetStatus(st1, Dying));
  }

  lemma ChildStep(st: State, a: Action)
    requires Inv(st) && Enabled(st, a) && Step(st, a).Next?
    ensures Wf(Step(st, a).st) && ChildInv(Step(st, a).st)
  {
    hide RunInv, ReadyInv, WaitInv, IdleInv, DyingInv, WakeInv, CountInv, PcInv, LockInv, CondsInv, ChildInv, Moves;
    hide GoOn, Exit, TryDown, TryUp, Create, TryPop, TrySchedule, Requeue;
    var st' := Step(st, a).st;
    MovesStep(st, a);
    if a.Continue? {
      ChildGoOn(st);
    } else if a.Yield? || a.InterruptUp? {
      ChildKept(st, a, st');
    } else {
      ChildCall(st, a, st');
    }
  }

  lemma ChildKept(st: State, a: Action, st': State)
    requires Core(st, true) && ChildInv(st) && Enabled(st, a) && (a.Yield? || a.InterruptUp?)
    requires Step(st, a) == Next(st') && Wf(st')
    ensures ChildInv(st')
  {
    RunningAlive(st);
    if a.Yield? {
      YieldKeepsKin(st, st');
    } else {
      UpKeepsKin(st, Plain(a.n));
    }
    hide RunInv, ReadyInv, WaitInv, IdleInv, DyingInv, TryUp, TrySchedule, ChildInv;
    ChildSame(st, st');
  }

  lemma YieldKeepsKin(st: State, st': State)
    requires Core(st, true) && TrySchedule(Requeue(st)) == Next(st')
    ensures Wf(st') && KinKept(st, st') && st'.pc == st.pc
  {
    NextNotDying(st, true);
    RunningAlive(st);
    hide RunInv, ReadyInv, WaitInv, IdleInv, DyingInv, TrySchedule, KinKept;
    MovesYield(st);
    assert KinKept(st, Requeue(st)) by { RequeueKin(st); }
    ScheduleKeepsKin(Requeue(st), st');
    KinKeptTrans(st, Requeue(st), st');
  }

  lemma RequeueKin(st: State)
    requires Wf(st) && st.status[st.cur].Running?
    ensures KinKept(st, Requeue(st))
  {
  }

  lemma ChildSame(st: State, st': State)
    requires Wf(st) && Wf(st') && ChildInv(st) && KinKept(st, st') && st'.pc == st.pc
    ensures ChildInv(st')
  {
    assert LogInv(st);
    forall c | 0 < c < |st'.parent| ensures ChildOk(st', c) {
      KinAt(st, c);
    }
    forall p | 0 <= p < |st'.children| ensures ParentOk(st', p) {
      KinAt(st, p);
    }
  }
}
