/** Mutual exclusion: every step keeps the lock part of the invariant. */
module LockProof {
  import opened Common
  import opened ThreadModel
  import opened SchedulerProof
  import opened KernelInvariants
  import opened KernelFrames

  /** Nothing about locks changes but the position of the running thread. */
  ghost predicate LocksKept(st: State, st': State) {
    && st'.locks == st.locks
    && (forall c {:trigger c in st'.conds} :: c in st.conds ==> c in st'.conds && st'.conds[c].lock == st.conds[c].lock)
    && (forall l {:trigger OfLock(l) in st'.semas} :: OfLock(l) in st'.semas ==>
          OfLock(l) in st.semas && st'.semas[OfLock(l)].value == st.semas[OfLock(l)].value)
  }

  lemma LockFrame(st: State, st': State)
    requires Moves(st, st') && LockInv(st) && LocksKept(st, st')
    requires !st.pc[st.cur].TakeLock? && !st.pc[st.cur].DropLock? && LockPc(st', st.cur)
    ensures LockInv(st')
  {
    forall l | l in st'.locks ensures LockOk(st', l) {
      assert LockOk(st, l);
      assert OfLock(l) in st'.semas;
    }
    forall t | 0 <= t < |st'.pc| ensures LockPc(st', t) {
      if t < |st.pc| && t != st.cur {
        assert LockPc(st, t);
        assert st'.pc[t] == st.pc[t];
      }
    }
  }

  /** `sema_down` on the semaphore of a lock succeeds: the running thread owns the lock. */
  lemma LockTake(st: State, l: nat)
    requires Wf(st) && LockInv(st) && l in st.locks && OfLock(l) in st.semas && st.semas[OfLock(l)].value > 0
    requires !st.pc[st.cur].TakeLock? && !st.pc[st.cur].DropLock?
    ensures LockInv(Take(st, OfLock(l), TakeLock(l)))
  {
    var st' := Take(st, OfLock(l), TakeLock(l));
    assert LockOk(st, l);
    forall k | k in st'.locks ensures LockOk(st', k) {
      assert LockOk(st, k);
    }
    forall t | 0 <= t < |st'.pc| ensures LockPc(st', t) {
      assert LockPc(st, t);
    }
  }

  /** `lock_acquire` and `lock_try_acquire` record the holder. */
  lemma LockHold(st: State, l: nat)
    requires Wf(st) && LockInv(st) && st.pc[st.cur] == TakeLock(l) && l in st.locks
    ensures LockInv(SetPc(SetHolder(st, l, Some(st.cur)), Free))
  {
    var st' := SetPc(SetHolder(st, l, Some(st.cur)), Free);
    assert LockPc(st, st.cur);
    forall k | k in st'.locks ensures LockOk(st', k) {
      assert LockOk(st, k);
    }
    forall t | 0 <= t < |st'.pc| ensures LockPc(st', t) {
      assert LockPc(st, t);
    }
  }

  /** `lock_release` forgets the holder... */
  lemma LockLetGo(st: State, l: nat, next: Pc)
    requires Wf(st) && LockInv(st) && st.pc[st.cur] == Releasing(l, next) && l in st.locks
    ensures LockInv(SetPc(SetHolder(st, l, None), DropLock(l, next)))
  {
    var st' := SetPc(SetHolder(st, l, None), DropLock(l, next));
    assert LockPc(st, st.cur) && LockOk(st, l);
    forall k | k in st'.locks ensures LockOk(st', k) {
      assert LockOk(st, k);
    }
    forall t | 0 <= t < |st'.pc| ensures LockPc(st', t) {
      assert LockPc(st, t);
    }
  }

  /** ...and then raises the semaphore. */
  lemma LockDrop(st: State, l: nat, next: Pc)
    requires Wf(st) && LockInv(st) && st.pc[st.cur] == DropLock(l, next) && CanUp(SetPc(st, next), OfLock(l))
    requires AfterRelease(st, st.cur, l, next)
    ensures LockInv(Up(SetPc(st, next), OfLock(l)))
  {
    hide LockInv;
    LockPcAt(st, st.cur);
    LockDropTo(st, Up(SetPc(st, next), OfLock(l)), l, next);
  }

  lemma LockDropTo(st: State, st': State, l: nat, next: Pc)
    requires Wf(st) && LockInv(st) && st.pc[st.cur] == DropLock(l, next) && l in st.locks && OfLock(l) in st.semas
    requires Wf(st') && st'.pc == st.pc[st.cur := next] && st'.conds == st.conds
    requires st'.locks == st.locks[l := st.locks[l].(owner := None)] && st'.semas.Keys == st.semas.Keys
    requires forall k :: OfLock(k) in st'.semas && k != l ==> st'.semas[OfLock(k)].value == st.semas[OfLock(k)].value
    requires st'.semas[OfLock(l)].value == st.semas[OfLock(l)].value + 1
    requires AfterRelease(st, st.cur, l, next)
    ensures LockInv(st')
  {
    assert LockPc(st, st.cur) && LockOk(st, l);
    forall k | k in st'.locks ensures LockOk(st', k) {
      assert LockOk(st, k);
    }
    forall t | 0 <= t < |st'.pc| ensures LockPc(st', t) {
      assert LockPc(st, t);
    }
  }

  lemma LockAdd(st: State, l: nat)
    requires Wf(st) && LockInv(st) && l !in st.locks
    ensures LockInv(st.(locks := st.locks[l := Lock(None, None)], semas := st.semas[OfLock(l) := InitSema(1)]))
  {
    var st' := st.(locks := st.locks[l := Lock(None, None)], semas := st.semas[OfLock(l) := InitSema(1)]);
    forall k | k in st'.locks ensures LockOk(st', k) {
      if k != l {
        assert LockOk(st, k);
      }
    }
    forall t | 0 <= t < |st'.pc| ensures LockPc(st', t) {
      assert LockPc(st, t);
    }
  }

  /** A pass through `sema_down` by a thread that holds no lock it asks for. */
  lemma LockDown(st: State, s: SemaId, next: Pc)
    requires Wf(st) && LockInv(st) && DownOk(st, st.cur, s, next) && TryDown(st, s, next).Next?
    requires !st.pc[st.cur].TakeLock? && !st.pc[st.cur].DropLock?
    requires Wanted(StartDown(s, next)).Some? ==> !Holds(st, Wanted(StartDown(s, next)).value)
    ensures Wf(TryDown(st, s, next).st) && LockInv(TryDown(st, s, next).st)
  {
    hide LockInv, Moves, LocksKept;
    var st' := TryDown(st, s, next).st;
    if s.OfLock? && st.semas[s].value > 0 {
      LockTake(st, s.l);
    } else {
      MovesDown(st, s, next);
      DownKeepsLocks(st, s, next);
      LockFrame(st, st');
    }
  }

  lemma DownKeepsLocks(st: State, s: SemaId, next: Pc)
    requires Wf(st) && DownOk(st, st.cur, s, next) && TryDown(st, s, next).Next?
    requires s.OfLock? ==> st.semas[s].value == 0
    requires Wanted(StartDown(s, next)).Some? ==> !Holds(st, Wanted(StartDown(s, next)).value)
    ensures var st' := TryDown(st, s, next).st;
            Wf(st') && LocksKept(st, st') && |st'.pc| == |st.pc| && LockPc(st', st.cur)
  {
  }

  lemma UpKeepsLocks(st: State, s: SemaId)
    requires TryUp(st, s).Next? && !s.OfLock?
    ensures LocksKept(st, TryUp(st, s).st) && TryUp(st, s).st.pc == st.pc
  {
  }

  lemma LockPcAt(st: State, t: Tid)
    requires Wf(st) && LockInv(st) && t < |st.pc|
    ensures LockPc(st, t)
  {
  }

  /** Keeping locks and moving to a position that says nothing about them. */
  lemma LockQuiet(st: State, st': State)
    requires Moves(st, st') && LockInv(st) && LocksKept(st, st')
    requires !st.pc[st.cur].TakeLock? && !st.pc[st.cur].DropLock?
    requires var pc := st'.pc[st.cur];
             pc.Free? || pc.Collect? || IsIdlePc(pc)
    ensures LockInv(st')
  {
    LockFrame(st, st');
  }

  lemma LockGoOn(st: State)
    requires Wf(st) && PcInv(st) && LockInv(st) && !st.pc[st.cur].Free? && GoOn(st).Next?
    ensures Wf(GoOn(st).st) && LockInv(GoOn(st).st)
  {
    hide LockInv, PcInv, Moves, LocksKept, LockPc;
    var pc := st.pc[st.cur];
    var st' := GoOn(st).st;
    PcAt(st, st.cur);
    LockPcAt(st, st.cur);
    MovesGoOn(st);
    assert Wf(st') by { MovesWf(st, st'); }
    match pc
    case Recheck(s, next) => LockRecheck(st, s, next);
    case StartDown(s, next) => LockRecheck(st, s, next);
    case TakeLock(l) => LockHold(st, l);
    case Releasing(l, next) => LockLetGo(st, l, next);
    case DropLock(l, next) => LockDrop(st, l, next);
    case SignalUp(w, next) => LockSignal(st, w, next, st');
    case Broadcast(c) => LockBroadcast(st, c, st');
    case _ =>
      LockRest(st, st');
      LockQuiet(st, st');
  }

  lemma LockRecheck(st: State, s: SemaId, next: Pc)
    requires Wf(st) && LockInv(st) && DownOk(st, st.cur, s, next) && TryDown(st, s, next).Next?
    requires LockPc(st, st.cur) && (st.pc[st.cur] == Recheck(s, next) || st.pc[st.cur] == StartDown(s, next))
    ensures Wf(TryDown(st, s, next).st) && LockInv(TryDown(st, s, next).st)
  {
    hide LockInv;
    LockDown(st, s, next);
  }

  lemma LockSignal(st: State, w: Tid, next: Pc, st': State)
    requires Wf(st) && LockInv(st) && st.pc[st.cur] == SignalUp(w, next) && LockPc(st, st.cur)
    requires PcOk(st, st.cur, st.pc[st.cur]) && GoOn(st) == Next(st') && Moves(st, st')
    ensures LockInv(st')
  {
    hide LockInv, LocksKept, TryUp;
    var st1 := SetPc(st.(phase := st.phase[w := Signalled]), next);
    UpKeepsLocks(st1, OfWaiter(w));
    LocksKeptTrans(st, st1, st');
    assert LockPc(st', st.cur) by { SameHolders(st, st'); }
    LockFrame(st, st');
  }

  lemma SameHolders(st: State, st': State)
    requires LocksKept(st, st') && st.cur < |st.pc| && st.cur < |st'.pc| && LockPc(st, st.cur)
    requires st.pc[st.cur].SignalUp? && st'.pc[st.cur] == st.pc[st.cur].next
    requires st.pc[st.cur].next.Free? || st.pc[st.cur].next.Broadcast?
    ensures LockPc(st', st.cur)
  {
  }

  lemma LocksKeptTrans(st: State, st1: State, st': State)
    requires st1.locks == st.locks && st1.conds == st.conds && st1.semas == st.semas && LocksKept(st1, st')
    ensures LocksKept(st, st')
  {
  }

  lemma LockBroadcast(st: State, c: nat, st': State)
    requires Wf(st) && LockInv(st) && st.pc[st.cur] == Broadcast(c) && LockPc(st, st.cur)
    requires GoOn(st) == Next(st') && Moves(st, st')
    ensures LockInv(st')
  {
    hide LockInv;
    LockFrame(st, st');
  }

  lemma LockRest(st: State, st': State)
    requires Wf(st) && GoOn(st) == Next(st') && !st.pc[st.cur].Free? && Wf(st')
    requires var pc := st.pc[st.cur]; pc.Collect? || IsIdlePc(pc)
    ensures LocksKept(st, st')
    ensures st.cur < |st'.pc| && (st'.pc[st.cur].Free? || IsIdlePc(st'.pc[st.cur]))
  {
    if st.pc[st.cur].IdleUp? {
      LockIdleUp(st, st');
    }
  }

  lemma LockIdleUp(st: State, st': State)
    requires Wf(st) && GoOn(st) == Next(st') && st.pc[st.cur].IdleUp? && Wf(st')
    ensures LocksKept(st, st')
    ensures st.cur < |st'.pc| && IsIdlePc(st'.pc[st.cur])
  {
    hide LocksKept, TryUp;
    UpKeepsLocks(SetPc(st, IdleLoop), IDLE_STARTED);
    LocksKeptTrans(st, SetPc(st, IdleLoop), st');
  }

  /** A call by a thread that is not inside another one. */
  lemma LockCall(st: State, a: Action, st': State)
    requires Inv(st) && Enabled(st, a) && st.pc[st.cur].Free? && Step(st, a) == Next(st') && Moves(st, st') && Wf(st')
    ensures LockInv(st')
  {
    hide RunInv, ReadyInv, WaitInv, IdleInv, DyingInv, WakeInv, CountInv, PcInv, LockInv, CondsInv, ChildInv, Moves, LocksKept;
    hide Exit, TryDown, TryUp, Create, TryPop, JoinCond, TrySchedule, LockPc;
    match a
    case LockInit(l) => LockAdd(st, l);
    case SemaDown(n) => LockDown(st, Plain(n), Free);
    case LockAcquire(l) =>
      LockSemaExists(st, l);
      LockDown(st, OfLock(l), TakeLock(l));
    case LockTryAcquire(l) =>
      LockSemaExists(st, l);
      if st.semas[OfLock(l)].value > 0 {
        LockTake(st, l);
      }
    case LockRelease(l) => LockPending(st, st');
    case CondBroadcast(c) => LockPending(st, st');
    case CondWait(c) =>
      CondWaitKeepsLocks(st, c);
      LockFrame(st, st');
    case CondSignal(c) =>
      SignalKeepsLocks(st, c, st');
      LockFrame(st, st');
    case ProcessWait(c) =>
      if c in st.children[st.cur] {
        ChildExists(st, c);
        LockDown(st, OfExit(c), Collect(c));
      } else {
        CallKeepsLocks(st, a, st');
        LockQuiet(st, st');
      }
    case _ =>
      CallKeepsLocks(st, a, st');
      LockQuiet(st, st');
  }

  lemma LockPending(st: State, st': State)
    requires Wf(st) && Moves(st, st') && LockInv(st) && st.pc[st.cur].Free?
    requires st' == SetPc(st, st'.pc[st.cur])
    requires var pc := st'.pc[st.cur];
             (pc.Releasing? && Holds(st, pc.l) && pc.next.Free?) || (pc.Broadcast? && HoldsFor(st, st.cur, pc.c))
    ensures LockInv(st')
  {
    hide LockInv;
    LockFrame(st, st');
  }

  lemma CondWaitKeepsLocks(st: State, c: nat)
    requires Wf(st) && c in st.conds && Holds(st, st.conds[c].lock)
    ensures var st' := JoinCond(st, c);
            LocksKept(st, st') && |st'.pc| == |st.pc| && LockPc(st', st.cur)
  {
  }

  lemma SignalKeepsLocks(st: State, c: nat, st': State)
    requires Wf(st) && TryPop(st, c, Free) == Next(st')
    ensures LocksKept(st, st') && |st'.pc| == |st.pc| && LockPc(st', st.cur)
  {
  }

  /** The calls that have nothing to do with locks. */
  lemma CallKeepsLocks(st: State, a: Action, st': State)
    requires Enabled(st, a) && st.pc[st.cur].Free? && Step(st, a) == Next(st') && Wf(st')
    requires !a.LockInit? && !a.SemaDown? && !a.LockAcquire? && !a.LockTryAcquire? && !a.LockRelease?
    requires !a.CondBroadcast? && !a.CondWait? && !a.CondSignal?
    requires a.ProcessWait? ==> a.c !in st.children[st.cur]
    ensures LocksKept(st, st') && st.cur < |st'.pc| && st'.pc[st.cur].Free?
  {
    if a.SemaUp? || a.Yield? || a.InterruptUp? || a.ThreadExit? {
      CallSwitchKeepsLocks(st, a, st');
    } else {
      CallLocalKeepsLocks(st, a, st');
    }
  }

  lemma CallLocalKeepsLocks(st: State, a: Action, st': State)
    requires Enabled(st, a) && st.pc[st.cur].Free? && Step(st, a) == Next(st') && Wf(st')
    requires a.SemaInit? || a.CondInit? || a.SemaTryDown? || a.ThreadCreate? || a.SetExitStatus?
             || (a.ProcessWait? && a.c !in st.children[st.cur])
    ensures LocksKept(st, st') && st.cur < |st'.pc| && st'.pc[st.cur].Free?
  {
  }

  lemma CallSwitchKeepsLocks(st: State, a: Action, st': State)
    requires Enabled(st, a) && st.pc[st.cur].Free? && Step(st, a) == Next(st') && Wf(st')
    requires a.SemaUp? || a.Yield? || a.InterruptUp? || a.ThreadExit?
    ensures LocksKept(st, st') && st.cur < |st'.pc| && st'.pc[st.cur].Free?
  {
    hide LocksKept, Requeue, TrySchedule, TryUp;
    match a
    case SemaUp(n) => UpKeepsLocks(st, Plain(n));
    case InterruptUp(n) => UpKeepsLocks(st, Plain(n));
    case Yield =>
      MovesYield(st);
      YieldSame(st, st');
    case ThreadExit =>
      MovesExit(st);
      ExitKeepsLocks(st, st');
  }

  lemma ExitKeepsLocks(st: State, st': State)
    requires Wf(st) && Exit(st) == Next(st')
    ensures LocksKept(st, st')
  {
    hide TryUp, LocksKept;
    if st.cur != MAIN {
      UpKeepsLocks(st, OfExit(st.cur));
      DieKeepsLocks(st, TryUp(st, OfExit(st.cur)).st, st');
    } else {
      SelfKeepsLocks(st);
      DieKeepsLocks(st, st, st');
    }
  }

  lemma SelfKeepsLocks(st: State)
    ensures LocksKept(st, st)
  {
  }

  /** Dying and switching away touches no lock. */
  lemma DieKeepsLocks(st: State, st1: State, st': State)
    requires LocksKept(st, st1) && Wf(st1) && TrySchedule(SetStatus(st1, Dying)) == Next(st')
    ensures LocksKept(st, st')
  {
    assert st'.locks == st1.locks && st'.conds == st1.conds && st'.semas == st1.semas;
  }

  lemma LockStep(st: State, a: Action)
    requires Inv(st) && Enabled(st, a) && Step(st, a).Next?
    ensures Wf(Step(st, a).st) && LockInv(Step(st, a).st)
  {
    hide RunInv, ReadyInv, WaitInv, IdleInv, DyingInv, WakeInv, CountInv, PcInv, LockInv, CondsInv, ChildInv, Moves;
    hide GoOn, Exit, TryDown, TryUp, Create, TryPop, TrySchedule, Requeue;
    var st' := Step(st, a).st;
    MovesStep(st, a);
    if a.Continue? {
      LockGoOn(st);
    } else if a.Yield? || a.InterruptUp? {
      LockKept(st, a, st');
    } else {
      LockCall(st, a, st');
    }
  }

  /** Preemption and interrupts, at any point of a kernel call. */
  lemma LockKept(st: State, a: Action, st': State)
    requires Wf(st) && LockInv(st) && Enabled(st, a) && (a.Yield? || a.InterruptUp?) && Step(st, a) == Next(st')
    ensures Wf(st') && LockInv(st')
  {
    hide TryUp, TrySchedule, LockPc, LockOk;
    if a.Yield? {
      MovesYield(st);
      YieldSame(st, st');
      LockSame(st, st');
    } else {
      MovesWake(st, Plain(a.n));
      UpKeepsLocks(st, Plain(a.n));
      LockSame(st, st');
    }
  }

  lemma YieldSame(st: State, st': State)
    requires Wf(st) && TrySchedule(Requeue(st)) == Next(st')
    ensures LocksKept(st, st')
  {
  }

  lemma LockSame(st: State, st': State)
    requires Wf(st) && Wf(st') && LockInv(st) && st'.pc == st.pc && LocksKept(st, st')
    requires st.semas.Keys <= st'.semas.Keys
    ensures LockInv(st')
  {
    forall l | l in st'.locks ensures LockOk(st', l) {
      assert LockOk(st, l);
      assert OfLock(l) in st'.semas;
    }
    forall t | 0 <= t < |st'.pc| ensures LockPc(st', t) {
      assert LockPc(st, t);
    }
  }

  // ----- what the invariant means -----

  /** A thread between the completed `sema_down` on a lock and the `sema_up` that ends it. */
  predicate Owns(st: State, t: Tid, l: nat)
    requires t < |st.pc| && l in st.locks
  {
    st.locks[l].holder == Some(t) || AtLock(st.pc[t], l)
  }

  /** Mutual exclusion: the value of the lock's semaphore and the number of owners add up to
      one, and whoever is recorded as holder is the owner. */
  lemma MutualExclusion(st: State, l: nat)
    requires Inv(st) && l in st.locks
    ensures OfLock(l) in st.semas
    ensures st.semas[OfLock(l)].value + |set t | 0 <= t < |st.pc| && Owns(st, t, l)| == 1
  {
    hide RunInv, ReadyInv, WaitInv, IdleInv, DyingInv, WakeInv, CountInv, PcInv, CondsInv, ChildInv;
    assert LockOk(st, l);
    var owners := set t | 0 <= t < |st.pc| && Owns(st, t, l);
    forall t | 0 <= t < |st.pc| ensures Owns(st, t, l) <==> st.locks[l].owner == Some(t) {
      assert LockPc(st, t);
    }
    if st.locks[l].owner.Some? {
      assert owners == {st.locks[l].owner.value};
    } else {
      assert owners == {};
    }
  }
}
