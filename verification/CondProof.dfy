/** Condition variables: every step keeps the invariant that each `cond_wait` is queued, or
    popped by one signaller, or signalled, so that signals are neither lost nor doubled. */
module CondProof {
  import opened Common
  import opened ThreadModel
  import opened SchedulerProof
  import opened KernelInvariants
  import opened KernelFrames

  /** Nothing about waits changes but the position of the running thread. */
  ghost predicate WaitsKept(st: State, st': State)
    requires Wf(st) && Wf(st')
  {
    && |st.phase| <= |st'.phase|
    && (forall t {:trigger st'.phase[t]} :: 0 <= t < |st'.phase| ==>
          st'.phase[t] == if t < |st.phase| then st.phase[t] else NotWaiting)
    && (forall c {:trigger c in st.conds} :: c in st.conds ==> c in st'.conds && st'.conds[c] == st.conds[c])
    && (forall c {:trigger c in st'.conds} :: c in st'.conds && c !in st.conds ==>
          st'.conds[c].waiters == [] && st'.conds[c].lock in st'.locks)
    && st.locks.Keys <= st'.locks.Keys
    && (forall t {:trigger OfWaiter(t) in st.semas} :: OfWaiter(t) in st.semas ==>
          OfWaiter(t) in st'.semas && st'.semas[OfWaiter(t)].value == st.semas[OfWaiter(t)].value)
  }

  lemma CondFrame(st: State, st': State)
    requires Moves(st, st') && CondsInv(st) && WaitsKept(st, st')
    requires InWait(st'.pc[st.cur]) == InWait(st.pc[st.cur])
    requires !st'.pc[st.cur].SignalUp? && !st.pc[st.cur].SignalUp?
    ensures CondsInv(st')
  {
    forall t | 0 <= t < |st'.phase| ensures PhaseOk(st', t) {
      if t < |st.phase| {
        PhaseKept(st, st', t);
      } else {
        assert st'.pc[t].Free?;
      }
    }
    forall c | c in st'.conds ensures CondOk(st', c) {
      if c in st.conds {
        assert CondOk(st, c);
      }
    }
  }

  lemma PhaseKept(st: State, st': State, t: Tid)
    requires Moves(st, st') && WaitsKept(st, st') && t < |st.phase| && PhaseOk(st, t)
    requires InWait(st'.pc[st.cur]) == InWait(st.pc[st.cur])
    requires !st'.pc[st.cur].SignalUp? && !st.pc[st.cur].SignalUp?
    ensures PhaseOk(st', t)
  {
    assert st'.phase[t] == st.phase[t];
    if t != st.cur {
      assert st'.pc[t] == st.pc[t];
    }
    if st.phase[t].Popped? {
      assert st'.pc[st.phase[t].signaller] == st.pc[st.phase[t].signaller];
    }
    if st'.pc[t].SignalUp? {
      assert st'.phase[st.pc[t].w] == st.phase[st.pc[t].w];
    }
  }

  /** The waiter passes its semaphore: its wait is over, by a signal. */
  lemma CondWake(st: State, next: Pc)
    requires Wf(st) && CondsInv(st) && OfWaiter(st.cur) in st.semas && st.semas[OfWaiter(st.cur)].value > 0
    requires InWait(st.pc[st.cur]) && !InWait(next) && !next.SignalUp?
    ensures st.phase[st.cur].Signalled?
    ensures CondsInv(Take(st, OfWaiter(st.cur), next))
  {
    var st' := Take(st, OfWaiter(st.cur), next);
    assert PhaseOk(st, st.cur);
    forall t | 0 <= t < |st'.phase| ensures PhaseOk(st', t) {
      assert PhaseOk(st, t);
    }
    forall c | c in st'.conds ensures CondOk(st', c) {
      assert CondOk(st, c);
    }
  }

  lemma CondJoin(st: State, c: nat)
    requires Wf(st) && CondsInv(st) && c in st.conds && st.pc[st.cur].Free?
    ensures CondsInv(JoinCond(st, c))
  {
    var st' := JoinCond(st, c);
    assert PhaseOk(st, st.cur) && CondOk(st, c);
    forall t | 0 <= t < |st'.phase| ensures PhaseOk(st', t) {
      assert PhaseOk(st, t);
    }
    forall d | d in st'.conds ensures CondOk(st', d) {
      assert CondOk(st, d);
      if d == c {
        PushBack(st.conds[c].waiters, st.cur);
      }
    }
  }

  lemma CondPop(st: State, c: nat, next: Pc, w: Tid)
    requires Wf(st) && CondsInv(st) && CanPop(st, c) && st.conds[c].waiters != [] && w == st.conds[c].waiters[0]
    requires (st.pc[st.cur].Free? || st.pc[st.cur].Broadcast?)
    ensures CondsInv(PopCond(st, c, next))
  {
    hide NoDup;
    var st' := PopCond(st, c, next);
    var ws := st.conds[c].waiters;
    assert CondOk(st, c);
    PopFront(ws);
    assert PhaseOk(st, st.cur) && PhaseOk(st, w);
    forall t | 0 <= t < |st'.phase| ensures PhaseOk(st', t) {
      assert PhaseOk(st, t);
    }
    forall d | d in st'.conds ensures CondOk(st', d) {
      assert CondOk(st, d);
    }
  }

  /** The signaller raises the semaphore of the waiter it popped. */
  lemma CondSignalled(st: State, w: Tid, next: Pc, st': State)
    requires Wf(st) && CondsInv(st) && st.pc[st.cur] == SignalUp(w, next) && w < |st.phase|
    requires next.Free? || next.Broadcast?
    requires Wf(st') && st'.pc == st.pc[st.cur := next] && st'.phase == st.phase[w := Signalled]
    requires st'.conds == st.conds && st'.locks.Keys == st.locks.Keys
    requires OfWaiter(w) in st.semas && st'.semas.Keys == st.semas.Keys
    requires st'.semas[OfWaiter(w)].value == st.semas[OfWaiter(w)].value + 1
    requires forall t :: OfWaiter(t) in st.semas && t != w ==>
               st'.semas[OfWaiter(t)].value == st.semas[OfWaiter(t)].value
    ensures CondsInv(st')
  {
    assert PhaseOk(st, st.cur) && PhaseOk(st, w);
    forall t | 0 <= t < |st'.phase| ensures PhaseOk(st', t) {
      assert PhaseOk(st, t);
    }
    forall c | c in st'.conds ensures CondOk(st', c) {
      assert CondOk(st, c);
    }
  }

  lemma DownKeepsWaits(st: State, s: SemaId, next: Pc)
    requires Wf(st) && s in st.semas && TryDown(st, s, next).Next?
    requires s.OfWaiter? ==> s == OfWaiter(st.cur) && st.semas[s].value == 0
    ensures Wf(TryDown(st, s, next).st) && WaitsKept(st, TryDown(st, s, next).st)
  {
  }

  lemma UpKeepsWaits(st: State, s: SemaId)
    requires TryUp(st, s).Next? && !s.OfWaiter?
    ensures Wf(TryUp(st, s).st) && WaitsKept(st, TryUp(st, s).st) && TryUp(st, s).st.pc == st.pc
  {
  }

  lemma WaitsKeptTrans(st: State, st1: State, st': State)
    requires Wf(st) && Wf(st1) && Wf(st') && st1.phase == st.phase && st1.conds == st.conds && st1.semas == st.semas
    requires st1.locks.Keys == st.locks.Keys && WaitsKept(st1, st')
    ensures WaitsKept(st, st')
  {
  }

  lemma CondDown(st: State, s: SemaId, next: Pc)
    requires Wf(st) && CondsInv(st) && DownOk(st, st.cur, s, next) && TryDown(st, s, next).Next?
    requires InWait(st.pc[st.cur]) <==> s.OfWaiter?
    requires !st.pc[st.cur].SignalUp?
    ensures Wf(TryDown(st, s, next).st) && CondsInv(TryDown(st, s, next).st)
  {
    hide CondsInv, Moves, WaitsKept;
    if s.OfWaiter? && st.semas[s].value > 0 {
      CondWake(st, next);
    } else {
      MovesDown(st, s, next);
      DownKeepsWaits(st, s, next);
      CondFrame(st, TryDown(st, s, next).st);
    }
  }

  lemma CondGoOn(st: State)
    requires Wf(st) && PcInv(st) && CondsInv(st) && !st.pc[st.cur].Free? && GoOn(st).Next?
    ensures Wf(GoOn(st).st) && CondsInv(GoOn(st).st)
  {
    hide CondsInv, PcInv, Moves, WaitsKept, TryUp, TryDown, TryPop, TrySchedule;
    var st' := GoOn(st).st;
    PcAt(st, st.cur);
    MovesGoOn(st);
    assert Wf(st') by { MovesWf(st, st'); }
    match st.pc[st.cur]
    case Recheck(s, next) => CondDown(st, s, next);
    case StartDown(s, next) => CondDown(st, s, next);
    case DropLock(l, next) =>
      UpKeepsWaits(SetPc(st, next), OfLock(l));
      WaitsKeptTrans(st, SetPc(st, next), st');
      CondFrame(st, st');
    case SignalUp(w, next) => CondSignalUp(st, w, next, st');
    case Broadcast(c) => CondBroadcasts(st, c, st');
    case IdleUp =>
      UpKeepsWaits(SetPc(st, IdleLoop), IDLE_STARTED);
      WaitsKeptTrans(st, SetPc(st, IdleLoop), st');
      CondFrame(st, st');
    case _ =>
      CondRest(st, st');
      CondFrame(st, st');
  }

  lemma CondSignalUp(st: State, w: Tid, next: Pc, st': State)
    requires Wf(st) && CondsInv(st) && st.pc[st.cur] == SignalUp(w, next) && PcOk(st, st.cur, st.pc[st.cur])
    requires GoOn(st) == Next(st') && Wf(st')
    ensures CondsInv(st')
  {
    hide CondsInv;
    CondSignalled(st, w, next, st');
  }

  lemma CondPops(st: State, c: nat, next: Pc, st': State)
    requires Wf(st) && CondsInv(st) && TryPop(st, c, next) == Next(st') && Moves(st, st')
    requires st.pc[st.cur].Free? || st.pc[st.cur].Broadcast?
    ensures CondsInv(st')
  {
    hide CondsInv;
    if st.conds[c].waiters == [] {
      CondFrame(st, st');
    } else {
      CondPop(st, c, next, st.conds[c].waiters[0]);
    }
  }

  lemma CondBroadcasts(st: State, c: nat, st': State)
    requires Wf(st) && CondsInv(st) && st.pc[st.cur] == Broadcast(c) && GoOn(st) == Next(st') && Moves(st, st')
    ensures CondsInv(st')
  {
    hide CondsInv, TryPop;
    if c in st.conds && st.conds[c].waiters == [] {
      CondFrame(st, st');
    } else {
      CondPops(st, c, Broadcast(c), st');
    }
  }

  lemma CondRest(st: State, st': State)
    requires Wf(st) && GoOn(st) == Next(st') && Wf(st')
    requires var pc := st.pc[st.cur]; pc.TakeLock? || pc.Releasing? || pc.Collect? || pc.IdleBoot? || pc.IdleLoop?
    ensures WaitsKept(st, st') && st.cur < |st'.pc|
    ensures InWait(st'.pc[st.cur]) == InWait(st.pc[st.cur]) && !st'.pc[st.cur].SignalUp?
  {
  }

  lemma CondCall(st: State, a: Action, st': State)
    requires Inv(st) && Enabled(st, a) && st.pc[st.cur].Free? && Step(st, a) == Next(st') && Moves(st, st') && Wf(st')
    ensures CondsInv(st')
  {
    hide RunInv, ReadyInv, WaitInv, IdleInv, DyingInv, WakeInv, CountInv, PcInv, LockInv, CondsInv, ChildInv, Moves, WaitsKept;
    hide Exit, TryDown, TryUp, Create, TryPop, JoinCond, TrySchedule;
    if a.SemaDown? || a.LockAcquire? || (a.ProcessWait? && a.c in st.children[st.cur]) {
      CondCallDown(st, a, st');
    } else {
      match a
      case CondWait(c) => CondJoin(st, c);
      case CondSignal(c) => CondPops(st, c, Free, st');
      case _ =>
        CallKeepsWaits(st, a, st');
        CondFrame(st, st');
    }
  }

  /** The calls that go into a `sema_down`. */
  lemma CondCallDown(st: State, a: Action, st': State)
    requires Inv(st) && Enabled(st, a) && st.pc[st.cur].Free? && Step(st, a) == Next(st') && Moves(st, st') && Wf(st')
    requires a.SemaDown? || a.LockAcquire? || (a.ProcessWait? && a.c in st.children[st.cur])
    ensures CondsInv(st')
  {
    hide RunInv, ReadyInv, WaitInv, IdleInv, DyingInv, WakeInv, CountInv, PcInv, LockInv, CondsInv, ChildInv, Moves, WaitsKept;
    hide Exit, TryDown, TryUp, Create, TryPop, JoinCond, TrySchedule;
    match a
    case SemaDown(n) => CondDown(st, Plain(n), Free);
    case LockAcquire(l) =>
      LockSemaExists(st, l);
      CondDown(st, OfLock(l), TakeLock(l));
    case ProcessWait(c) =>
      ChildExists(st, c);
      CondDown(st, OfExit(c), Collect(c));
  }

  lemma CallKeepsWaits(st: State, a: Action, st': State)
    requires Enabled(st, a) && st.pc[st.cur].Free? && Step(st, a) == Next(st') && Wf(st')
    requires !a.SemaDown? && !a.LockAcquire? && !a.CondWait? && !a.CondSignal?
    requires a.ProcessWait? ==> a.c !in st.children[st.cur]
    ensures WaitsKept(st, st') && st.cur < |st'.pc|
    ensures !InWait(st'.pc[st.cur]) && !st'.pc[st.cur].SignalUp?
  {
    if a.SemaUp? || a.Yield? || a.InterruptUp? || a.ThreadExit? {
      CallSwitchKeepsWaits(st, a, st');
    } else {
      CallLocalKeepsWaits(st, a, st');
    }
  }

  lemma CallLocalKeepsWaits(st: State, a: Action, st': State)
    requires Enabled(st, a) && st.pc[st.cur].Free? && Step(st, a) == Next(st') && Wf(st')
    requires !a.SemaDown? && !a.LockAcquire? && !a.CondWait? && !a.CondSignal?
    requires !a.SemaUp? && !a.Yield? && !a.InterruptUp? && !a.ThreadExit?
    requires a.ProcessWait? ==> a.c !in st.children[st.cur]
    ensures WaitsKept(st, st') && st.cur < |st'.pc|
    ensures !InWait(st'.pc[st.cur]) && !st'.pc[st.cur].SignalUp?
  {
  }

  lemma CallSwitchKeepsWaits(st: State, a: Action, st': State)
    requires Enabled(st, a) && st.pc[st.cur].Free? && Step(st, a) == Next(st') && Wf(st')
    requires a.SemaUp? || a.Yield? || a.InterruptUp? || a.ThreadExit?
    ensures WaitsKept(st, st') && st'.pc == st.pc
  {
    hide WaitsKept, Requeue, TrySchedule, TryUp;
    match a
    case SemaUp(n) => UpKeepsWaits(st, Plain(n));
    case InterruptUp(n) => UpKeepsWaits(st, Plain(n));
    case Yield => YieldKeepsWaits(st, st');
    case ThreadExit => ExitKeepsWaits(st, st');
  }

  lemma YieldKeepsWaits(st: State, st': State)
    requires Wf(st) && TrySchedule(Requeue(st)) == Next(st') && Wf(st')
    ensures WaitsKept(st, st') && st'.pc == st.pc
  {
  }

  lemma ExitKeepsWaits(st: State, st': State)
    requires Wf(st) && Exit(st) == Next(st') && Wf(st')
    ensures WaitsKept(st, st') && st'.pc == st.pc
  {
    hide TryUp;
    if st.cur != MAIN {
      UpKeepsWaits(st, OfExit(st.cur));
    }
  }

  lemma CondKept(st: State, a: Action, st': State)
    requires Wf(st) && CondsInv(st) && Enabled(st, a) && (a.Yield? || a.InterruptUp?) && Step(st, a) == Next(st') && Wf(st')
    ensures CondsInv(st')
  {
    hide TryUp, TrySchedule, Requeue, PhaseOk, CondOk;
    if a.Yield? {
      YieldKeepsWaits(st, st');
    } else {
      UpKeepsWaits(st, Plain(a.n));
    }
    CondSame(st, st');
  }

  lemma CondSame(st: State, st': State)
    requires Wf(st) && Wf(st') && CondsInv(st) && WaitsKept(st, st') && st'.pc == st.pc
    ensures CondsInv(st')
  {
    forall t | 0 <= t < |st'.phase| ensures PhaseOk(st', t) {
      assert PhaseOk(st, t);
    }
    forall c | c in st'.conds ensures CondOk(st', c) {
      if c in st.conds {
        assert CondOk(st, c);
      }
    }
  }

  lemma CondStep(st: State, a: Action)
    requires Inv(st) && Enabled(st, a) && Step(st, a).Next?
    ensures Wf(Step(st, a).st) && CondsInv(Step(st, a).st)
  {
    hide RunInv, ReadyInv, WaitInv, IdleInv, DyingInv, WakeInv, CountInv, PcInv, LockInv, CondsInv, ChildInv, Moves;
    hide GoOn, Exit, TryDown, TryUp, Create, TryPop, TrySchedule, Requeue;
    var st' := Step(st, a).st;
    MovesStep(st, a);
    if a.Continue? {
      CondGoOn(st);
    } else if a.Yield? || a.InterruptUp? {
      CondKept(st, a, st');
    } else {
      CondCall(st, a, st');
    }
  }
}
