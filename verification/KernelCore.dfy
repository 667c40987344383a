/** Every step keeps the scheduler part of the invariant, and no assertion of the kernel can
    fail: `Step` never ends in `Panic`. */
module KernelCore {
  import opened Common
  import opened ThreadModel
  import opened SchedulerProof
  import opened KernelInvariants

  ghost predicate Sound(st: State) {
    Core(st, true) && WakeInv(st) && CountInv(st)
  }

  ghost predicate Good(r: Outcome) {
    r.Next? && Sound(r.st)
  }

  // ----- the sections of synch.c and thread.c -----

  lemma GoodDown(st: State, s: SemaId, next: Pc)
    requires Sound(st) && s in st.semas && !next.Recheck? && st.cur != IDLE
    requires st.pc[st.cur].Recheck? ==> st.pc[st.cur].s == s
    ensures Good(TryDown(st, s, next))
  {
    hide RunInv, ReadyInv, WaitInv, IdleInv, DyingInv, WakeInv;
    DownCore(st, s, next);
    if st.semas[s].value > 0 {
      WakeTake(st, s, next);
    } else {
      WakeSleep(st, s, next);
      SleepCore(st, s, next);
      WakeSame(Sleep(st, s, next), TryDown(st, s, next).st);
    }
  }

  lemma GoodUp(st: State, s: SemaId)
    requires Sound(st) && s in st.semas
    ensures Good(TryUp(st, s))
  {
    hide RunInv, ReadyInv, WaitInv, IdleInv, DyingInv, WakeInv;
    UpCore(st, s);
    WakeUp(st, s);
  }

  lemma GoodSchedule(st: State)
    requires Core(st, false) && WakeInv(st) && CountInv(st)
    ensures Good(TrySchedule(st))
  {
    hide RunInv, ReadyInv, WaitInv, IdleInv, DyingInv, WakeInv;
    CoreCanSchedule(st);
    ScheduleCore(st);
    WakeSame(st, Schedule(st));
  }

  lemma GoodPc(st: State, pc: Pc)
    requires Sound(st) && !st.pc[st.cur].Recheck? && !pc.Recheck? && st.cur != IDLE
    ensures Sound(SetPc(st, pc))
  {
    hide RunInv, ReadyInv, WaitInv, IdleInv, DyingInv, WakeInv;
    SetPcCore(st, pc);
    WakePc(st, pc);
  }

  /** Fields the scheduler does not look at. */
  lemma GoodSame(st: State, st': State)
    requires Sound(st) && Wf(st')
    requires st'.status == st.status && st'.pc == st.pc && st'.ready == st.ready
    requires st'.cur == st.cur && st'.idle == st.idle && st'.semas == st.semas
    ensures Sound(st')
  {
    hide WakeInv;
    WakeSame(st, st');
  }

  /** A semaphore nobody is in `sema_down` on may be initialised. */
  lemma GoodInit(st: State, s: SemaId, v: nat)
    requires Sound(st) && forall t :: 0 <= t < |st.pc| && st.pc[t].Recheck? ==> st.pc[t].s != s
    requires s == IDLE_STARTED ==> s !in st.semas
    ensures Sound(st.(semas := st.semas[s := InitSema(v)]))
  {
    hide NoDup;
    assert NoDup([]) by { NoDupEmpty(); }
    var st' := st.(semas := st.semas[s := InitSema(v)]);
    forall r | r in st'.semas && r != s ensures Woken(st', r) == Woken(st, r) {
    }
  }

  lemma GoodCreate(st: State)
    requires Sound(st) && forall t :: 0 <= t < |st.pc| && st.pc[t].Recheck? ==> st.pc[t].s != OfExit(|st.status|)
    ensures Sound(Create(st))
  {
    var t := |st.status|;
    var st1 := st.(semas := st.semas[OfExit(t) := InitSema(0)]);
    GoodInit(st, OfExit(t), 0);
    GoodSpawn(st1, Create(st));
  }

  lemma GoodSpawn(st: State, st': State)
    requires Sound(st) && Wf(st')
    requires st'.status == st.status + [Ready] && st'.pc == st.pc + [Free] && st'.ready == st.ready + [|st.status|]
    requires st'.cur == st.cur && st'.idle == st.idle && st'.semas == st.semas
    ensures Sound(st')
  {
    hide NoDup;
    PushBack(st.ready, |st.status|);
    forall s | s in st.semas ensures Woken(st', s) == Woken(st, s) {
    }
  }

  // ----- the idle thread -----

  lemma GoodIdleStart(st: State)
    requires Sound(st) && st.cur == IDLE && st.pc[IDLE].IdleBoot?
    ensures Sound(SetPc(st, IdleUp).(idle := Some(st.cur)))
  {
    hide NoDup;
    var st' := SetPc(st, IdleUp).(idle := Some(st.cur));
    forall s | s in st.semas ensures Woken(st', s) == Woken(st, s) {
    }
  }

  lemma GoodIdlePc(st: State)
    requires Sound(st) && st.cur == IDLE && st.pc[IDLE].IdleUp?
    ensures Sound(SetPc(st, IdleLoop))
  {
    hide NoDup;
    var st' := SetPc(st, IdleLoop);
    forall s | s in st.semas ensures Woken(st', s) == Woken(st, s) {
    }
  }

  lemma GoodIdleBlock(st: State)
    requires Sound(st) && st.cur == IDLE && st.pc[IDLE].IdleLoop?
    ensures Good(TrySchedule(SetStatus(st, Blocked)))
  {
    IdleBlockCore(st);
    WakeSame(st, SetStatus(st, Blocked));
    GoodSchedule(SetStatus(st, Blocked));
  }

  // ----- steps -----

  lemma GoodYield(st: State)
    requires Sound(st)
    ensures Good(TrySchedule(Requeue(st)))
  {
    hide RunInv, ReadyInv, WaitInv, IdleInv, DyingInv, WakeInv;
    RequeueCore(st);
    WakeSame(st, Requeue(st));
    GoodSchedule(Requeue(st));
  }

  lemma GoodExit(st: State)
    requires Sound(st) && st.pc[st.cur].Free? && (st.cur != MAIN ==> OfExit(st.cur) in st.semas)
    ensures Good(Exit(st))
  {
    hide RunInv, ReadyInv, WaitInv, IdleInv, DyingInv, WakeInv;
    if st.cur == MAIN {
      GoodDie(st);
    } else {
      GoodUp(st, OfExit(st.cur));
      GoodDie(Up(st, OfExit(st.cur)));
    }
  }

  lemma GoodDie(st: State)
    requires Sound(st) && st.pc[st.cur].Free?
    ensures Good(TrySchedule(SetStatus(st, Dying)))
  {
    hide RunInv, ReadyInv, WaitInv, IdleInv, DyingInv, WakeInv;
    DieCore(st);
    WakeSame(st, SetStatus(st, Dying));
    GoodSchedule(SetStatus(st, Dying));
  }

  lemma GoodHolder(st: State, l: nat, h: Option<Tid>, next: Pc)
    requires Sound(st) && l in st.locks && !st.pc[st.cur].Recheck? && !next.Recheck? && st.cur != IDLE
    ensures Sound(SetPc(SetHolder(st, l, h), next))
  {
    GoodSame(st, SetHolder(st, l, h));
    GoodPc(SetHolder(st, l, h), next);
  }

  /** `lock_release` raises the semaphore of the lock. */
  lemma GoodDrop(st: State, l: nat, next: Pc)
    requires Inv(st) && st.pc[st.cur] == DropLock(l, next)
    ensures Good(GoOn(st))
  {
    hide RunInv, ReadyInv, WaitInv, DyingInv, WakeInv, CountInv, CondsInv, ChildInv;
    assert PcOk(st, st.cur, st.pc[st.cur]) && LockOk(st, l);
    GoodPc(st, next);
    GoodUp(SetPc(st, next), OfLock(l));
  }

  /** `cond_signal` raises the semaphore of the waiter it has popped. */
  lemma GoodSignal(st: State, w: Tid, next: Pc)
    requires Inv(st) && st.pc[st.cur] == SignalUp(w, next)
    ensures Good(GoOn(st))
  {
    hide RunInv, ReadyInv, WaitInv, DyingInv, WakeInv, CountInv, LockInv, CondOk, ChildInv;
    assert PhaseOk(st, st.cur) && PhaseOk(st, w) && PcOk(st, st.cur, st.pc[st.cur]);
    var st1 := st.(phase := st.phase[w := Signalled]);
    GoodSame(st, st1);
    GoodPc(st1, next);
    GoodUp(SetPc(st1, next), OfWaiter(w));
  }

  /** `cond_signal`, also inside `cond_broadcast`, while the lock is held. */
  lemma GoodPop(st: State, c: nat, next: Pc)
    requires Inv(st) && c in st.conds && Holds(st, st.conds[c].lock)
    requires !st.pc[st.cur].Recheck? && !next.Recheck? && st.cur != IDLE
    ensures Good(TryPop(st, c, next))
  {
    hide RunInv, ReadyInv, WaitInv, DyingInv, WakeInv, CountInv, LockInv, ChildInv, PcInv, PhaseOk;
    assert CondOk(st, c);
    var w := st.conds[c].waiters;
    if w == [] {
      GoodPc(st, Free);
    } else {
      assert w[0] in w;
      var st1 := SetPc(PopCond(st, c, next), st.pc[st.cur]);
      GoodSame(st, st1);
      GoodPc(st1, SignalUp(w[0], next));
      assert SetPc(st1, SignalUp(w[0], next)) == PopCond(st, c, next);
    }
  }

  lemma GoodBroadcast(st: State, c: nat)
    requires Inv(st) && st.pc[st.cur] == Broadcast(c)
    ensures Good(GoOn(st))
  {
    hide RunInv, ReadyInv, WaitInv, DyingInv, WakeInv, CountInv, LockOk, CondsInv, ChildInv;
    assert LockPc(st, st.cur) && PcOk(st, st.cur, st.pc[st.cur]);
    if st.conds[c].waiters == [] {
      GoodPc(st, Free);
    } else {
      GoodPop(st, c, Broadcast(c));
    }
  }

  /** Going on inside a kernel call. */
  lemma GoodGoOn(st: State)
    requires Inv(st) && !st.pc[st.cur].Free?
    ensures Good(GoOn(st))
  {
    hide RunInv, ReadyInv, WaitInv, DyingInv, WakeInv, CountInv, LockOk, CondOk, ChildOk, ParentOk, LogInv;
    var pc := st.pc[st.cur];
    assert PcOk(st, st.cur, pc) && LockPc(st, st.cur) && PhaseOk(st, st.cur);
    match pc
    case Recheck(s, next) => GoodDown(st, s, next);
    case StartDown(s, next) => GoodDown(st, s, next);
    case TakeLock(l) => GoodHolder(st, l, Some(st.cur), Free);
    case Releasing(l, next) => GoodHolder(st, l, None, DropLock(l, next));
    case DropLock(l, next) => GoodDrop(st, l, next);
    case SignalUp(w, next) => GoodSignal(st, w, next);
    case Broadcast(c) => GoodBroadcast(st, c);
    case Collect(c) =>
      GoodSame(st, SetPc(Reap(st, c), pc));
      GoodPc(SetPc(Reap(st, c), pc), Free);
    case IdleBoot => GoodIdleStart(st);
    case IdleUp =>
      GoodIdlePc(st);
      GoodUp(SetPc(st, IdleLoop), IDLE_STARTED);
    case IdleLoop => GoodIdleBlock(st);
  }

  /** The caller's semaphore operations. */
  lemma GoodSemaStep(st: State, a: Action)
    requires Inv(st) && Enabled(st, a)
    requires a.SemaInit? || a.SemaDown? || a.SemaTryDown? || a.SemaUp? || a.InterruptUp? || a.Yield?
    ensures Good(Step(st, a))
  {
    hide ReadyInv, WaitInv, DyingInv, WakeInv, CountInv, LockInv, CondsInv, ChildInv;
    assert st.status[st.cur].Running?;
    assert PcOk(st, st.cur, st.pc[st.cur]);
    match a
    case SemaInit(n, v) =>
      assert forall t :: 0 <= t < |st.pc| && st.pc[t].Recheck? ==> PcOk(st, t, st.pc[t]);
      GoodInit(st, Plain(n), v);
    case SemaDown(n) => GoodDown(st, Plain(n), Free);
    case SemaTryDown(n) =>
      if st.semas[Plain(n)].value > 0 {
        GoodDown(st, Plain(n), Free);
      }
    case SemaUp(n) => GoodUp(st, Plain(n));
    case InterruptUp(n) => GoodUp(st, Plain(n));
    case Yield => GoodYield(st);
  }

  lemma GoodLockStep(st: State, a: Action)
    requires Inv(st) && Enabled(st, a)
    requires a.LockInit? || a.LockAcquire? || a.LockTryAcquire? || a.LockRelease?
    ensures Good(Step(st, a))
  {
    hide ReadyInv, WaitInv, DyingInv, WakeInv, CountInv, LockPc, CondsInv, ChildInv;
    assert st.status[st.cur].Running?;
    assert PcOk(st, st.cur, st.pc[st.cur]);
    match a
    case LockInit(l) =>
      assert forall t :: 0 <= t < |st.pc| && st.pc[t].Recheck? ==> PcOk(st, t, st.pc[t]);
      GoodInit(st, OfLock(l), 1);
      GoodSame(st.(semas := st.semas[OfLock(l) := InitSema(1)]), Step(st, a).st);
    case LockAcquire(l) =>
      assert LockOk(st, l);
      GoodDown(st, OfLock(l), TakeLock(l));
    case LockTryAcquire(l) =>
      assert LockOk(st, l);
      if st.semas[OfLock(l)].value > 0 {
        GoodDown(st, OfLock(l), TakeLock(l));
      }
    case LockRelease(l) => GoodPc(st, Releasing(l, Free));
  }

  lemma GoodCondStep(st: State, a: Action)
    requires Inv(st) && Enabled(st, a)
    requires a.CondInit? || a.CondWait? || a.CondSignal? || a.CondBroadcast?
    ensures Good(Step(st, a))
  {
    hide ReadyInv, WaitInv, DyingInv, WakeInv, CountInv, LockInv, CondsInv, ChildInv;
    assert st.status[st.cur].Running?;
    assert PcOk(st, st.cur, st.pc[st.cur]);
    match a
    case CondInit(c, l) => GoodSame(st, Step(st, a).st);
    case CondWait(c) =>
      var l := st.conds[c].lock;
      assert forall t :: 0 <= t < |st.pc| && st.pc[t].Recheck? ==> PcOk(st, t, st.pc[t]);
      GoodInit(st, OfWaiter(st.cur), 0);
      var st1 := SetPc(JoinCond(st, c), Free);
      GoodSame(st.(semas := st.semas[OfWaiter(st.cur) := InitSema(0)]), st1);
      GoodPc(st1, Releasing(l, WaitThenRelock(st.cur, l)));
      assert SetPc(st1, Releasing(l, WaitThenRelock(st.cur, l))) == JoinCond(st, c);
    case CondSignal(c) => GoodPop(st, c, Free);
    case CondBroadcast(c) => GoodPc(st, Broadcast(c));
  }

  lemma GoodProcessStep(st: State, a: Action)
    requires Inv(st) && Enabled(st, a)
    requires a.ThreadCreate? || a.SetExitStatus? || a.ThreadExit? || a.ProcessWait?
    ensures Good(Step(st, a))
  {
    hide ReadyInv, WaitInv, DyingInv, WakeInv, CountInv, LockInv, CondsInv, LogInv;
    assert st.status[st.cur].Running?;
    assert PcOk(st, st.cur, st.pc[st.cur]);
    match a
    case ThreadCreate =>
      assert forall t :: 0 <= t < |st.pc| && st.pc[t].Recheck? ==> PcOk(st, t, st.pc[t]);
      GoodCreate(st);
    case SetExitStatus(_) => GoodSame(st, Step(st, a).st);
    case ThreadExit =>
      if st.cur != MAIN {
        assert ChildOk(st, st.cur);
      }
      GoodExit(st);
    case ProcessWait(c) =>
      if c in st.children[st.cur] {
        assert ParentOk(st, st.cur) && ChildOk(st, c);
        GoodDown(st, OfExit(c), Collect(c));
      } else {
        GoodSame(st, Step(st, a).st);
      }
  }

  /** Every step from a good state ends in a good state: no panic. */
  lemma GoodStep(st: State, a: Action)
    requires Inv(st) && Enabled(st, a)
    ensures Good(Step(st, a))
  {
    hide ReadyInv, WaitInv, DyingInv, WakeInv, CountInv, LockInv, CondsInv, ChildInv, PcInv;
    match a
    case Continue =>
      assert st.status[st.cur].Running?;
      GoodGoOn(st);
    case LockInit(_) => GoodLockStep(st, a);
    case LockAcquire(_) => GoodLockStep(st, a);
    case LockTryAcquire(_) => GoodLockStep(st, a);
    case LockRelease(_) => GoodLockStep(st, a);
    case CondInit(_, _) => GoodCondStep(st, a);
    case CondWait(_) => GoodCondStep(st, a);
    case CondSignal(_) => GoodCondStep(st, a);
    case CondBroadcast(_) => GoodCondStep(st, a);
    case ThreadCreate => GoodProcessStep(st, a);
    case SetExitStatus(_) => GoodProcessStep(st, a);
    case ThreadExit => GoodProcessStep(st, a);
    case ProcessWait(_) => GoodProcessStep(st, a);
    case _ => GoodSemaStep(st, a);
  }
}
