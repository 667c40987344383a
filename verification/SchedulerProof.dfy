/** Invariants of the scheduler and of semaphores, and why the sections of thread.c and
    synch.c keep them: the discipline of the shared `elem` links, and no lost wakeups. */
module SchedulerProof {
  import opened Common
  import opened ThreadModel

  /** Exactly one thread runs, or none in the middle of a switch. */
  ghost predicate RunInv(st: State, running: bool)
    requires Wf(st)
  {
    forall t :: 0 <= t < |st.status| ==> (st.status[t].Running? <==> running && t == st.cur)
  }

  /** The ready list holds every ready thread once, and never the idle thread. */
  ghost predicate ReadyInv(st: State)
    requires Wf(st)
  {
    && NoDup(st.ready)
    && (forall t {:trigger t in st.ready} :: t in st.ready ==> t < |st.status| && st.status[t].Ready? && st.idle != Some(t))
    && (forall t {:trigger st.status[t]} :: 0 <= t < |st.status| && st.status[t].Ready? ==> t in st.ready || st.idle == Some(t))
  }

  /** A thread is on the waiters list of a semaphore exactly when it is blocked in
      `sema_down` on it; the idle thread is the only one that blocks elsewhere. */
  ghost predicate WaitInv(st: State)
    requires Wf(st)
  {
    && (forall s :: s in st.semas ==> NoDup(st.semas[s].waiters))
    && (forall s, t {:trigger t in st.semas[s].waiters} :: s in st.semas && t in st.semas[s].waiters ==>
          t < |st.status| && st.status[t].Blocked? && st.pc[t].Recheck? && st.pc[t].s == s)
    && (forall t :: 0 <= t < |st.status| && st.pc[t].Recheck? ==> st.pc[t].s in st.semas)
    && (forall t {:trigger st.status[t]} :: 0 <= t < |st.status| && st.status[t].Blocked? ==>
          st.idle == Some(t) || (st.pc[t].Recheck? && t in st.semas[st.pc[t].s].waiters))
  }

  ghost predicate IdleInv(st: State)
    requires Wf(st)
  {
    && IDLE_STARTED in st.semas
    && (st.idle.None? ==> st.pc[IDLE].IdleBoot? && !st.status[IDLE].Blocked?)
    && (st.idle.Some? ==> st.pc[IDLE].IdleUp? || st.pc[IDLE].IdleLoop?)
  }

  /** A dying thread has left every kernel call. */
  ghost predicate DyingInv(st: State)
    requires Wf(st)
  {
    forall t {:trigger st.status[t]} :: 0 <= t < |st.status| && st.status[t].Dying? ==> st.pc[t].Free?
  }

  ghost predicate Core(st: State, running: bool) {
    Wf(st) && RunInv(st, running) && ReadyInv(st) && WaitInv(st) && IdleInv(st) && DyingInv(st)
  }

  /** Threads woken from semaphore s that have not yet re-checked its value. */
  ghost function Woken(st: State, s: SemaId): set<Tid>
    requires Wf(st) && s in st.semas
  {
    set t | 0 <= t < |st.pc| && st.pc[t].Recheck? && st.pc[t].s == s && t !in st.semas[s].waiters
  }

  /** No lost wakeup: while threads wait, each unit of the value has a woken thread. */
  ghost predicate WakeInv(st: State)
    requires Wf(st)
  {
    forall s :: s in st.semas && st.semas[s].waiters != [] ==> st.semas[s].value <= |Woken(st, s)|
  }

  /** Conservation: value = initial value + ups - completed downs. */
  ghost predicate CountInv(st: State) {
    forall s :: s in st.semas ==>
      var x := st.semas[s];
      x.value + x.downs == x.init + x.ups
  }

  lemma PopFront(s: seq<Tid>)
    requires s != [] && NoDup(s)
    ensures NoDup(s[1..]) && s[0] in s && s[0] !in s[1..]
    ensures forall t :: t in s <==> t == s[0] || t in s[1..]
  {
    assert s == [s[0]] + s[1..];
  }

  lemma PushBack(s: seq<Tid>, x: Tid)
    requires NoDup(s) && x !in s
    ensures NoDup(s + [x])
    ensures forall t :: t in s + [x] <==> t in s || t == x
  {
  }

  // ----- thread.c -----

  /** There is always a thread to switch to. */
  lemma CoreCanSchedule(st: State)
    requires Core(st, false)
    ensures CanSchedule(st)
  {
    if st.idle.None? {
      assert st.status[IDLE].Ready?;
      assert IDLE in st.ready;
    }
    if st.ready != [] {
      assert st.ready[0] in st.ready;
    }
  }

  lemma ScheduleCore(st: State)
    requires Core(st, false) && CanSchedule(st)
    ensures Core(Schedule(st), true)
  {
    if st.ready != [] {
      hide NoDup;
      PopFront(st.ready);
    }
  }

  lemma RequeueCore(st: State)
    requires Core(st, true)
    ensures Core(Requeue(st), false)
  {
    hide NoDup;
    PushBack(st.ready, st.cur);
  }

  lemma IdleBlockCore(st: State)
    requires Core(st, true) && st.idle == Some(st.cur)
    ensures Core(SetStatus(st, Blocked), false)
  {
  }

  lemma DieCore(st: State)
    requires Core(st, true) && st.pc[st.cur].Free?
    ensures Core(SetStatus(st, Dying), false)
  {
  }

  lemma SetPcCore(st: State, pc: Pc)
    requires Core(st, true) && !pc.Recheck? && st.cur != IDLE
    ensures Core(SetPc(st, pc), true)
  {
  }

  // ----- synch.c -----

  lemma TakeCore(st: State, s: SemaId, next: Pc)
    requires Core(st, true) && s in st.semas && st.semas[s].value > 0 && !next.Recheck? && st.cur != IDLE
    ensures Core(Take(st, s, next), true)
  {
    hide NoDup;
  }

  lemma SleepCore(st: State, s: SemaId, next: Pc)
    requires Core(st, true) && s in st.semas && st.cur != IDLE
    ensures Core(Sleep(st, s, next), false)
  {
    hide NoDup;
    PushBack(st.semas[s].waiters, st.cur);
  }

  lemma UpCore(st: State, s: SemaId)
    requires Core(st, true) && s in st.semas
    ensures CanUp(st, s) && Core(Up(st, s), true)
  {
    hide NoDup;
    var w := st.semas[s].waiters;
    if w != [] {
      PopFront(w);
      PushBack(st.ready, w[0]);
    }
  }

  /** A pass through the loop of `sema_down` never panics. */
  lemma DownCore(st: State, s: SemaId, next: Pc)
    requires Core(st, true) && s in st.semas && !next.Recheck? && st.cur != IDLE
    ensures TryDown(st, s, next).Next? && Core(TryDown(st, s, next).st, true)
  {
    hide RunInv, ReadyInv, WaitInv, IdleInv, DyingInv;
    if st.semas[s].value > 0 {
      TakeCore(st, s, next);
    } else {
      SleepCore(st, s, next);
      CoreCanSchedule(Sleep(st, s, next));
      ScheduleCore(Sleep(st, s, next));
    }
  }

  // ----- wakeups -----

  lemma WakeTake(st: State, s: SemaId, next: Pc)
    requires Core(st, true) && WakeInv(st) && s in st.semas && st.semas[s].value > 0
    requires !next.Recheck? && (st.pc[st.cur].Recheck? ==> st.pc[st.cur].s == s)
    ensures WakeInv(Take(st, s, next))
  {
    hide NoDup, ReadyInv;
    var st' := Take(st, s, next);
    forall r | r in st'.semas && st'.semas[r].waiters != []
      ensures st'.semas[r].value <= |Woken(st', r)|
    {
      assert Woken(st', r) == Woken(st, r) - {st.cur};
      assert st.cur in Woken(st, r) ==> r == s;
    }
  }

  lemma WakeSleep(st: State, s: SemaId, next: Pc)
    requires Core(st, true) && WakeInv(st) && s in st.semas && st.semas[s].value == 0
    requires st.pc[st.cur].Recheck? ==> st.pc[st.cur].s == s
    ensures WakeInv(Sleep(st, s, next))
  {
    hide NoDup, ReadyInv;
    var st' := Sleep(st, s, next);
    forall r | r in st'.semas && st'.semas[r].waiters != []
      ensures st'.semas[r].value <= |Woken(st', r)|
    {
      if r != s {
        assert Woken(st', r) == Woken(st, r);
      }
    }
  }

  lemma WakeUp(st: State, s: SemaId)
    requires Core(st, true) && WakeInv(st) && CanUp(st, s)
    ensures WakeInv(Up(st, s))
  {
    hide ReadyInv;
    var st' := Up(st, s);
    var w := st.semas[s].waiters;
    forall r | r in st'.semas && st'.semas[r].waiters != []
      ensures st'.semas[r].value <= |Woken(st', r)|
    {
      if r == s {
        PopFront(w);
        assert w[0] !in Woken(st, s);
        assert Woken(st', s) == Woken(st, s) + {w[0]};
      } else {
        assert Woken(st', r) == Woken(st, r);
      }
    }
  }

  /** Only the program counters and the semaphores matter for wakeups. */
  lemma WakeSame(st: State, st': State)
    requires Wf(st) && Wf(st') && WakeInv(st) && st'.pc == st.pc && st'.semas == st.semas
    ensures WakeInv(st')
  {
    forall s | s in st.semas ensures Woken(st', s) == Woken(st, s) {
    }
  }

  lemma WakePc(st: State, pc: Pc)
    requires Wf(st) && WakeInv(st) && !st.pc[st.cur].Recheck? && !pc.Recheck?
    ensures WakeInv(SetPc(st, pc))
  {
    var st' := SetPc(st, pc);
    forall s | s in st'.semas ensures Woken(st', s) == Woken(st, s) {
    }
  }

  /** With nothing ready and the idle thread running, no waiter is left behind: every
      semaphore somebody waits for has value 0. */
  lemma NoLostWakeup(st: State, s: SemaId)
    requires Core(st, true) && WakeInv(st)
    requires st.ready == [] && st.idle == Some(st.cur)
    requires s in st.semas && st.semas[s].waiters != []
    ensures st.semas[s].value == 0
  {
    forall t | 0 <= t < |st.pc| && st.pc[t].Recheck? && st.pc[t].s == s
      ensures t in st.semas[s].waiters
    {
      assert st.status[t].Blocked?;
    }
    assert Woken(st, s) == {};
  }
}
