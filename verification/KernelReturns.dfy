/** What has been achieved when a kernel call returns: locks are held, and nobody is left waiting. */
module KernelReturns {
  import opened Common
  import opened ThreadModel
  import opened SchedulerProof
  import opened KernelInvariants
  import opened KernelRuns
  import opened KernelCalls

  /** A lock that another thread holds stays with it. */
  lemma HeldStays(st: State, a: Action, u: Tid, l: nat)
    requires Inv(st) && Enabled(st, a) && !Own(st, a, u) && l in st.locks && st.locks[l].holder == Some(u)
    ensures Step(st, a).Next? && l in Step(st, a).st.locks && Step(st, a).st.locks[l].holder == Some(u)
  {
    hide Inv, Step, Todo, Owed, SemasBut, CondsBut;
    if a.InterruptUp? {
      InterruptDoes(st, a.n);
    } else {
      var d := StepDoes(st, a);
      NewLock(st, a, d);
    }
  }

  /** A lock is made only once. */
  lemma NewLock(st: State, a: Action, d: Option<Event>)
    requires Enabled(st, a) && !a.InterruptUp? && Step(st, a).Next? && Pays(st, a, Step(st, a).st, d)
    ensures d.Some? && d.value.MakeLock? ==> d.value.l !in st.locks
  {
    hide Step, Did;
    if d.Some? {
      assert Owed(st, a)[0] == Seq(d)[0] == d.value;
      NotTodo(st, st.pc[st.cur]);
    }
  }

  lemma NotTodo(st: State, pc: Pc)
    ensures Todo(st, pc) != [] ==> !Todo(st, pc)[0].MakeLock?
  {
  }

  /** What is left to do ends with taking lock l, or nothing is left and the thread has it. */
  ghost predicate WillHold(st: State, t: Tid, l: nat) {
    && t < |st.pc|
    && var todo := Todo(st, st.pc[t]);
       if todo == [] then l in st.locks && st.locks[l].holder == Some(t) else todo[|todo| - 1] == Hold(l)
  }

  lemma WillHoldOwn(st: State, a: Action, t: Tid, l: nat)
    requires Inv(st) && Enabled(st, a) && Own(st, a, t) && !IsCall(a) && WillHold(st, t, l)
    ensures Step(st, a).Next? && WillHold(Step(st, a).st, t, l)
  {
    hide Inv, Step, Todo, SemasBut, CondsBut;
    var d := StepDoes(st, a);
    OwedInside(st, a);
    hide Owed;
    var st' := Step(st, a).st;
    var todo, todo' := Todo(st, st.pc[t]), Todo(st', st'.pc[t]);
    if todo != [] && todo' != [] {
      assert todo[|todo| - 1] == todo'[|todo'| - 1];
    }
  }

  lemma {:induction false} WillHoldRun(st: State, acts: seq<Action>, st': State, t: Tid, l: nat)
    requires Inv(st) && Reaches(st, acts, Next(st')) && Inside(st, acts, t) && WillHold(st, t, l)
    ensures WillHold(st', t, l)
    decreases |acts|
  {
    hide Inv, Step, Enabled, Inside, Todo;
    if acts != [] {
      var a := acts[0];
      StepInv(st, a);
      InsideNext(st, acts, t);
      if Own(st, a, t) {
        WillHoldOwn(st, a, t, l);
      } else {
        KeepsTodo(st, a, t);
        if Todo(st, st.pc[t]) == [] {
          HeldStays(st, a, t, l);
        }
      }
      WillHoldRun(Step(st, a).st, acts[1..], st', t, l);
    }
  }

  /** `lock_acquire` and `cond_wait` return with the lock held, and keep it until the next call. */
  lemma ReturnsHolding(st: State, a: Action, acts: seq<Action>, st': State)
    requires Inv(st) && Enabled(st, a) && (a.LockAcquire? || a.CondWait?) && Reaches(st, [a] + acts, Next(st'))
    requires Step(st, a).Next? && Inside(Step(st, a).st, acts, st.cur) && st.cur < |st'.pc| && st'.pc[st.cur].Free?
    ensures var l := if a.LockAcquire? then a.l else st.conds[a.c].lock;
      l in st'.locks && st'.locks[l].holder == Some(st.cur)
  {
    hide Inv, Step, Inside, Did;
    var l := if a.LockAcquire? then a.l else st.conds[a.c].lock;
    StepInv(st, a);
    var d := StepDoes(st, a);
    var st1 := Step(st, a).st;
    assert ([a] + acts)[1..] == acts;
    var owed, todo := Owed(st, a), Todo(st1, st1.pc[st.cur]);
    assert todo != [] && todo[|todo| - 1] == owed[|owed| - 1] == Hold(l);
    hide Owed, Todo;
    WillHoldRun(st1, acts, st', st.cur, l);
    assert Todo(st', Free) == [] by { TodoFree(st'); }
  }

  lemma TodoFree(st: State)
    ensures Todo(st, Free) == []
  {
  }

  /** Thread t is waking everybody on c, or has done so; it holds the lock. */
  ghost predicate Waking(st: State, t: Tid, c: nat) {
    && t < |st.pc| && HoldsFor(st, t, c)
    && (st.pc[t] == Broadcast(c) || (st.pc[t].SignalUp? && st.pc[t].next == Broadcast(c))
        || (st.pc[t].Free? && st.conds[c].waiters == []))
  }

  lemma WakingOwn(st: State, a: Action, t: Tid, c: nat)
    requires Inv(st) && Enabled(st, a) && Own(st, a, t) && !IsCall(a) && Waking(st, t, c)
    ensures Step(st, a).Next? && Waking(Step(st, a).st, t, c)
  {
    hide Inv;
    StepInv(st, a);
  }

  lemma WakingOther(st: State, a: Action, t: Tid, c: nat)
    requires Inv(st) && Enabled(st, a) && !Own(st, a, t) && Waking(st, t, c)
    ensures Step(st, a).Next? && Waking(Step(st, a).st, t, c)
  {
    hide Inv, Step;
    StepInv(st, a);
    HeldStays(st, a, t, st.conds[c].lock);
    if st.cur == t {
      InterruptDoes(st, a.n);
    } else {
      GuardedCond(st, a, t, c);
      OthersTodo(st, a, t);
    }
  }

  lemma {:induction false} WakingRun(st: State, acts: seq<Action>, st': State, t: Tid, c: nat)
    requires Inv(st) && Reaches(st, acts, Next(st')) && Inside(st, acts, t) && Waking(st, t, c)
    ensures Inv(st') && Waking(st', t, c)
    decreases |acts|
  {
    hide Inv, Step, Enabled, Inside, Waking;
    if acts != [] {
      var a := acts[0];
      StepInv(st, a);
      InsideNext(st, acts, t);
      if Own(st, a, t) {
        WakingOwn(st, a, t, c);
      } else {
        WakingOther(st, a, t, c);
      }
      WakingRun(Step(st, a).st, acts[1..], st', t, c);
    }
  }

  lemma {:induction false} WakeupsOnce(c: nat, ws: seq<Tid>, w: Tid)
    requires NoDup(ws)
    ensures multiset(Wakeups(c, ws))[Raise(OfWaiter(w))] == if w in ws then 1 else 0
    decreases |ws|
  {
    if ws != [] {
      hide NoDup;
      SchedulerProof.PopFront(ws);
      WakeupsOnce(c, ws[1..], w);
      assert multiset(Wakeups(c, ws)) == multiset{Pop(c, ws[0]), Raise(OfWaiter(ws[0]))} + multiset(Wakeups(c, ws[1..]));
    }
  }

  /** When `cond_broadcast` has returned, nobody is left waiting on the condition variable, and every
      thread that was has been raised by it, once. */
  lemma BroadcastWakesAll(st: State, c: nat, acts: seq<Action>, st': State) returns (es: seq<Event>)
    requires Inv(st) && Enabled(st, CondBroadcast(c)) && Reaches(st, [CondBroadcast(c)] + acts, Next(st'))
    requires Step(st, CondBroadcast(c)).Next? && Inside(Step(st, CondBroadcast(c)).st, acts, st.cur)
    requires st.cur < |st'.pc| && st'.pc[st.cur].Free?
    ensures Does(st, [CondBroadcast(c)] + acts, st.cur, es)
    ensures Wf(st') && c in st'.conds && st'.conds[c].waiters == []
    ensures forall w {:trigger w in st.conds[c].waiters} :: w in st.conds[c].waiters ==> multiset(es)[Raise(OfWaiter(w))] == 1
    ensures forall w {:trigger st'.phase[w]} :: 0 <= w < |st'.phase| ==> st'.phase[w] != Queued(c)
  {
    hide Inv, Step, Inside, Does, Did, Wakeups;
    var a := CondBroadcast(c);
    StepInv(st, a);
    es := CallDoes(st, a, acts, st');
    assert ([a] + acts)[1..] == acts;
    StartsWaking(st, c);
    WakingRun(Step(st, a).st, acts, st', st.cur, c);
    NobodyQueued(st', c);
    OneQueue(st, c);
    forall w | w in st.conds[c].waiters ensures multiset(es)[Raise(OfWaiter(w))] == 1 {
      WakeupsOnce(c, st.conds[c].waiters, w);
    }
  }

  /** When `cond_signal` has returned, it has raised the first waiter, if there was one, and nobody else. */
  lemma SignalWakesFirst(st: State, c: nat, acts: seq<Action>, st': State) returns (es: seq<Event>)
    requires Inv(st) && Enabled(st, CondSignal(c)) && Reaches(st, [CondSignal(c)] + acts, Next(st'))
    requires Step(st, CondSignal(c)).Next? && Inside(Step(st, CondSignal(c)).st, acts, st.cur)
    requires st.cur < |st'.pc| && st'.pc[st.cur].Free?
    ensures Does(st, [CondSignal(c)] + acts, st.cur, es)
    ensures var ws := st.conds[c].waiters; es == if ws == [] then [] else [Pop(c, ws[0]), Raise(OfWaiter(ws[0]))]
  {
    hide Inv, Step, Inside, Does;
    es := CallDoes(st, CondSignal(c), acts, st');
  }

  lemma StartsWaking(st: State, c: nat)
    requires Inv(st) && Enabled(st, CondBroadcast(c)) && Step(st, CondBroadcast(c)).Next?
    ensures Waking(Step(st, CondBroadcast(c)).st, st.cur, c)
  {
    hide Core, WakeInv, CountInv, PcInv, LockInv, CondsInv, ChildInv;
  }

  lemma OneQueue(st: State, c: nat)
    requires Inv(st) && c in st.conds
    ensures NoDup(st.conds[c].waiters)
  {
    hide RunInv, ReadyInv, WaitInv, IdleInv, DyingInv, WakeInv, CountInv, PcInv, LockInv, ChildInv;
    assert CondOk(st, c);
  }

  lemma NobodyQueued(st: State, c: nat)
    requires Inv(st) && c in st.conds && st.conds[c].waiters == []
    ensures Wf(st) && forall w {:trigger st.phase[w]} :: 0 <= w < |st.phase| ==> st.phase[w] != Queued(c)
  {
    hide RunInv, ReadyInv, WaitInv, IdleInv, DyingInv, WakeInv, CountInv, PcInv, LockInv, ChildInv;
    forall w | 0 <= w < |st.phase| ensures st.phase[w] != Queued(c) {
      assert PhaseOk(st, w);
    }
  }
}
