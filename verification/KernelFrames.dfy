/** What no step changes: other threads stay where they are in the kernel, and objects that
    exist go on existing.  From this, every step keeps program counters well formed. */
module KernelFrames {
  import opened ThreadModel
  import opened SchedulerProof
  import opened KernelInvariants

  ghost predicate Moves(st: State, st': State) {
    && Wf(st) && Wf(st') && |st.pc| <= |st'.pc|
    && st.semas.Keys <= st'.semas.Keys && st.locks.Keys <= st'.locks.Keys && st.conds.Keys <= st'.conds.Keys
    && (forall t {:trigger st'.pc[t]} :: 0 <= t < |st.pc| && t != st.cur ==> st'.pc[t] == st.pc[t])
    && (forall t {:trigger st'.pc[t]} :: |st.pc| <= t < |st'.pc| ==> st'.pc[t].Free?)
  }

  /** Where the running thread is after its step. */
  ghost predicate Lands(st: State, st': State) {
    && Wf(st) && Wf(st') && |st.pc| <= |st'.pc|
    && PcOk(st', st.cur, st'.pc[st.cur])
    && (st.cur == IDLE <==> IsIdlePc(st'.pc[st.cur]))
  }

  lemma MovesWf(st: State, st': State)
    requires Moves(st, st')
    ensures Wf(st')
  {
  }

  lemma PcOkGrows(st: State, st': State, t: Tid, pc: Pc)
    requires Moves(st, st') && PcOk(st, t, pc)
    ensures PcOk(st', t, pc)
  {
  }

  lemma PcFrame(st: State, st': State)
    requires Moves(st, st') && Lands(st, st') && PcInv(st)
    ensures PcInv(st')
  {
    forall t | 0 <= t < |st'.pc| ensures PcOk(st', t, st'.pc[t]) && (t == IDLE <==> IsIdlePc(st'.pc[t])) {
      if t < |st.pc| && t != st.cur {
        PcOkGrows(st, st', t, st.pc[t]);
      }
    }
  }

  lemma MovesTo(st: State, st': State, pc: Pc)
    requires Wf(st) && Wf(st') && st'.pc == st.pc[st.cur := pc]
    requires st.semas.Keys <= st'.semas.Keys && st.locks.Keys <= st'.locks.Keys && st.conds.Keys <= st'.conds.Keys
    ensures Moves(st, st')
  {
  }

  lemma MovesDown(st: State, s: SemaId, next: Pc)
    requires Wf(st) && TryDown(st, s, next).Next?
    ensures Moves(st, TryDown(st, s, next).st)
    ensures TryDown(st, s, next).st.pc[st.cur] == if st.semas[s].value > 0 then next else Recheck(s, next)
  {
  }

  lemma MovesUp(st: State, pc: Pc, s: SemaId)
    requires Wf(st) && TryUp(SetPc(st, pc), s).Next?
    ensures Moves(st, TryUp(SetPc(st, pc), s).st) && TryUp(SetPc(st, pc), s).st.pc[st.cur] == pc
  {
  }

  /** Positions from which a thread goes on with an operation on a semaphore. */
  predicate AtSema(pc: Pc) { pc.Recheck? || pc.StartDown? || pc.DropLock? || pc.SignalUp? || pc.IdleUp? }

  lemma MovesGoOn(st: State)
    requires Wf(st) && GoOn(st).Next?
    ensures Moves(st, GoOn(st).st)
  {
    if AtSema(st.pc[st.cur]) {
      MovesSema(st);
    } else {
      MovesLocal(st);
    }
  }

  lemma MovesSema(st: State)
    requires Wf(st) && GoOn(st).Next? && AtSema(st.pc[st.cur])
    ensures Moves(st, GoOn(st).st)
  {
    match st.pc[st.cur]
    case Recheck(s, next) => MovesDown(st, s, next);
    case StartDown(s, next) => MovesDown(st, s, next);
    case DropLock(l, next) => MovesUp(st, next, OfLock(l));
    case SignalUp(w, next) => MovesUp(st.(phase := st.phase[w := Signalled]), next, OfWaiter(w));
    case IdleUp => MovesUp(st, IdleLoop, IDLE_STARTED);
  }

  lemma MovesLocal(st: State)
    requires Wf(st) && GoOn(st).Next? && !AtSema(st.pc[st.cur])
    ensures Moves(st, GoOn(st).st)
  {
    hide Moves;
    var st' := GoOn(st).st;
    match st.pc[st.cur]
    case Free => MovesTo(st, st', Free);
    case TakeLock(l) => MovesTo(st, st', Free);
    case Releasing(l, next) => MovesTo(st, st', DropLock(l, next));
    case Broadcast(c) => MovesPop(st, c, Broadcast(c), st');
    case Collect(c) => MovesTo(st, st', Free);
    case IdleBoot => MovesTo(st, st', IdleUp);
    case IdleLoop => MovesTo(st, st', IdleLoop);
  }

  lemma MovesPop(st: State, c: nat, next: Pc, st': State)
    requires Wf(st) && c in st.conds
    requires st' == SetPc(st, Free) || TryPop(st, c, next) == Next(st')
    ensures Moves(st, st')
  {
    hide Moves;
    MovesTo(st, st', if st.conds[c].waiters == [] || st' == SetPc(st, Free) then Free else SignalUp(st.conds[c].waiters[0], next));
  }

  lemma LandsGoOn(st: State)
    requires Wf(st) && PcInv(st) && GoOn(st).Next? && !st.pc[st.cur].Free?
    ensures Lands(st, GoOn(st).st)
  {
    PcAt(st, st.cur);
    MovesGoOn(st);
    if AtSema(st.pc[st.cur]) {
      LandsSema(st, GoOn(st).st);
    } else {
      LandsLocal(st);
    }
  }

  lemma LandsSema(st: State, st': State)
    requires Wf(st) && GoOn(st) == Next(st') && AtSema(st.pc[st.cur]) && Moves(st, st')
    requires PcOk(st, st.cur, st.pc[st.cur]) && (st.cur == IDLE <==> IsIdlePc(st.pc[st.cur]))
    ensures Lands(st, st')
  {
    hide Moves, TryDown, TryUp;
    match st.pc[st.cur]
    case Recheck(s, next) => LandsDown(st, s, next);
    case StartDown(s, next) => LandsDown(st, s, next);
    case DropLock(l, next) =>
      MovesUp(st, next, OfLock(l));
      PcOkGrows(st, st', st.cur, next);
    case SignalUp(w, next) =>
      MovesUp(st.(phase := st.phase[w := Signalled]), next, OfWaiter(w));
      PcOkGrows(st, st', st.cur, next);
    case IdleUp => MovesUp(st, IdleLoop, IDLE_STARTED);
  }

  lemma LandsDown(st: State, s: SemaId, next: Pc)
    requires Wf(st) && TryDown(st, s, next).Next? && DownOk(st, st.cur, s, next) && st.cur != IDLE
    ensures Lands(st, TryDown(st, s, next).st)
  {
    hide Moves;
    var st' := TryDown(st, s, next).st;
    MovesDown(st, s, next);
    PcOkGrows(st, st', st.cur, st'.pc[st.cur]);
  }

  lemma LandsLocal(st: State)
    requires Wf(st) && GoOn(st).Next? && !AtSema(st.pc[st.cur])
    requires PcOk(st, st.cur, st.pc[st.cur]) && (st.cur == IDLE <==> IsIdlePc(st.pc[st.cur]))
    ensures Lands(st, GoOn(st).st)
  {
  }

  lemma MovesExit(st: State)
    requires Wf(st) && Exit(st).Next?
    ensures Moves(st, Exit(st).st) && Exit(st).st.pc == st.pc
  {
  }

  lemma MovesStep(st: State, a: Action)
    requires Enabled(st, a) && Step(st, a).Next?
    ensures Moves(st, Step(st, a).st) && Wf(Step(st, a).st)
  {
    MovesEach(st, a);
  }

  lemma MovesEach(st: State, a: Action)
    requires Enabled(st, a) && Step(st, a).Next?
    ensures Moves(st, Step(st, a).st)
  {
    hide Moves, GoOn, Exit, TryUp, TryDown;
    match a
    case Continue => MovesGoOn(st);
    case ThreadExit => MovesExit(st);
    case SemaDown(n) => MovesDown(st, Plain(n), Free);
    case LockAcquire(l) => MovesDown(st, OfLock(l), TakeLock(l));
    case SemaUp(n) => MovesWake(st, Plain(n));
    case InterruptUp(n) => MovesWake(st, Plain(n));
    case Yield => MovesYield(st);
    case CondSignal(c) => MovesPop(st, c, Free, Step(st, a).st);
    case ThreadCreate => MovesCreate(st);
    case ProcessWait(c) =>
      if c in st.children[st.cur] {
        MovesDown(st, OfExit(c), Collect(c));
      } else {
        MovesTo(st, Step(st, a).st, Free);
      }
    case _ => MovesOther(st, a);
  }

  lemma MovesWake(st: State, s: SemaId)
    requires Wf(st) && TryUp(st, s).Next?
    ensures Moves(st, TryUp(st, s).st) && TryUp(st, s).st.pc == st.pc
  {
  }

  lemma MovesYield(st: State)
    requires Wf(st) && TrySchedule(Requeue(st)).Next?
    ensures Moves(st, TrySchedule(Requeue(st)).st) && TrySchedule(Requeue(st)).st.pc == st.pc
  {
  }

  lemma MovesCreate(st: State)
    requires Wf(st)
    ensures Moves(st, Create(st))
  {
  }

  lemma MovesOther(st: State, a: Action)
    requires Enabled(st, a) && Step(st, a).Next?
    requires !a.Continue? && !a.ThreadExit? && !a.SemaDown? && !a.LockAcquire? && !a.ProcessWait? && !a.ThreadCreate?
    requires !a.SemaUp? && !a.InterruptUp? && !a.Yield? && !a.CondSignal?
    ensures Moves(st, Step(st, a).st)
  {
    hide Moves;
    var st' := Step(st, a).st;
    MovesTo(st, st', st'.pc[st.cur]);
  }

  /** Every step keeps program counters well formed. */
  lemma PcStep(st: State, a: Action)
    requires Inv(st) && Enabled(st, a) && Step(st, a).Next?
    ensures Wf(Step(st, a).st) && PcInv(Step(st, a).st)
  {
    hide RunInv, ReadyInv, WaitInv, IdleInv, DyingInv, WakeInv, CountInv, LockOk, CondsInv, ChildInv, PcInv, Moves, Lands;
    hide GoOn, Exit, TryUp, TryDown, PcOk;
    var st' := Step(st, a).st;
    MovesStep(st, a);
    assert Lands(st, st') by {
      PcAt(st, st.cur);
      if a.Continue? {
        LandsGoOn(st);
      } else if a.Yield? || a.InterruptUp? {
        LandsKept(st, a);
      } else {
        FreeNotIdle(st);
        LandsCall(st, a, st');
      }
    }
    PcFrame(st, st');
  }

  lemma FreeNotIdle(st: State)
    requires Wf(st) && PcInv(st) && st.pc[st.cur].Free?
    ensures st.cur != IDLE
  {
  }

  lemma LandsKept(st: State, a: Action)
    requires Enabled(st, a) && Step(st, a).Next? && (a.Yield? || a.InterruptUp?)
    requires PcOk(st, st.cur, st.pc[st.cur]) && (st.cur == IDLE <==> IsIdlePc(st.pc[st.cur]))
    ensures Lands(st, Step(st, a).st)
  {
    hide Moves, TryUp, TrySchedule;
    MovesStep(st, a);
    if a.Yield? {
      MovesYield(st);
    } else {
      MovesWake(st, Plain(a.n));
    }
    PcOkGrows(st, Step(st, a).st, st.cur, st.pc[st.cur]);
  }

  /** A call by a thread that is not inside another one. */
  lemma LandsCall(st: State, a: Action, st': State)
    requires Inv(st) && Enabled(st, a) && Step(st, a) == Next(st') && Moves(st, st') && Wf(st')
    requires st.pc[st.cur].Free? && st.cur != IDLE && !a.Yield? && !a.InterruptUp?
    ensures Lands(st, st')
  {
    hide RunInv, ReadyInv, WaitInv, IdleInv, DyingInv, WakeInv, CountInv, PcInv, LockInv, CondsInv, ChildInv, Moves;
    hide TryDown, TryUp, TryPop, Exit, Create;
    match a
    case SemaDown(n) => LandsDown(st, Plain(n), Free);
    case LockAcquire(l) =>
      LockSemaExists(st, l);
      LandsDown(st, OfLock(l), TakeLock(l));
    case LockTryAcquire(l) => LandsTry(st, l, st');
    case ProcessWait(c) =>
      if c in st.children[st.cur] {
        ChildExists(st, c);
        LandsDown(st, OfExit(c), Collect(c));
      }
    case CondWait(c) =>
      LockSemaExists(st, st.conds[c].lock);
    case CondSignal(c) => LandsPop(st, c, st');
    case ThreadExit => MovesExit(st);
    case ThreadCreate => LandsCreate(st);
    case SemaUp(n) => MovesWake(st, Plain(n));
    case _ =>
  }

  lemma LandsTry(st: State, l: nat, st': State)
    requires Enabled(st, LockTryAcquire(l)) && Step(st, LockTryAcquire(l)) == Next(st') && st.cur != IDLE
    ensures Lands(st, st')
  {
  }

  lemma LandsCreate(st: State)
    requires Wf(st) && st.pc[st.cur].Free? && st.cur != IDLE
    ensures Lands(st, Create(st))
  {
  }

  lemma LandsPop(st: State, c: nat, st': State)
    requires Wf(st) && TryPop(st, c, Free) == Next(st') && st.cur != IDLE
    ensures Lands(st, st')
  {
  }

  lemma LockSemaExists(st: State, l: nat)
    requires Wf(st) && LockInv(st) && l in st.locks
    ensures OfLock(l) in st.semas
  {
    assert LockOk(st, l);
  }

  lemma ChildExists(st: State, c: Tid)
    requires Wf(st) && ChildInv(st) && c in st.children[st.cur]
    ensures c < |st.status| && OfExit(c) in st.semas
  {
    assert ParentOk(st, st.cur) && ChildOk(st, c);
  }

  lemma PcAt(st: State, t: Tid)
    requires Wf(st) && PcInv(st) && t < |st.pc|
    ensures PcOk(st, t, st.pc[t]) && (t == IDLE <==> IsIdlePc(st.pc[t]))
  {
  }
}
