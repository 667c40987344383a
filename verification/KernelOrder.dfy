/** The order in which threads run and are woken: first come, first served, in every interleaving. */
module KernelOrder {
  import opened Common
  import opened ThreadModel
  import opened SchedulerProof
  import opened KernelInvariants
  import opened KernelFrames
  import opened KernelRuns
  import opened KernelCalls

  /** The semaphore that an event of thread t raises. */
  function RaisedBy(d: Option<Event>, t: Tid): Option<SemaId> {
    match d
    case Some(Raise(s)) => Some(s)
    case Some(Die) => if t == MAIN then None else Some(OfExit(t))
    case _ => None
  }

  /** The semaphore that the running thread has to wait for. */
  ghost function WaitsFor(st: State, a: Action): Option<SemaId>
    requires Enabled(st, a)
  {
    if a.Yield? || a.InterruptUp? || Owed(st, a) == [] then None
    else
      var e := Owed(st, a)[0];
      if e.Lower? && e.s in st.semas && st.semas[e.s].value == 0 then Some(e.s) else None
  }

  /** Who joins the ready list: the first waiter of a semaphore that is raised, a new thread, and the
      running thread if it yields, unless it is the idle thread. */
  ghost function Joining(st: State, a: Action, d: Option<Event>): seq<Tid> {
    (var s := RaisedBy(d, st.cur);
     if s.Some? && s.value in st.semas && st.semas[s.value].waiters != [] then [st.semas[s.value].waiters[0]] else [])
    + (if d.Some? && d.value.Spawn? then [d.value.t] else [])
    + (if a.Yield? && st.idle != Some(st.cur) then [st.cur] else [])
  }

  /** The running thread gives the processor up: it yields, dies, has to wait or has nothing to do. */
  ghost predicate Leaves(st: State, a: Action)
    requires Enabled(st, a)
  {
    a.Yield? || a.ThreadExit? || WaitsFor(st, a).Some? || (a.Continue? && st.pc[st.cur].IdleLoop?)
  }

  /** The head of the queue runs next, or the idle thread. */
  predicate RunsNext(queue: seq<Tid>, st': State) {
    if queue == [] then st'.cur == IDLE && st'.ready == [] else st'.cur == queue[0] && st'.ready == queue[1..]
  }

  function WaitersAfter(ws: seq<Tid>, s: SemaId, raised: Option<SemaId>, waits: Option<SemaId>, t: Tid): seq<Tid> {
    if raised == Some(s) then (if ws == [] then [] else ws[1..])
    else if waits == Some(s) then ws + [t]
    else ws
  }

  /** Both kinds of lists are queues: threads join at the end and leave at the front. */
  ghost predicate InOrder(st: State, a: Action, st': State, d: Option<Event>)
    requires Enabled(st, a)
  {
    && (if Leaves(st, a) then RunsNext(st.ready + Joining(st, a, d), st')
        else st'.cur == st.cur && st'.ready == st.ready + Joining(st, a, d))
    && Queued(st, st', RaisedBy(d, st.cur), WaitsFor(st, a))
  }

  ghost predicate Queued(st: State, st': State, raised: Option<SemaId>, waits: Option<SemaId>) {
    forall s {:trigger s in st.semas} :: s in st.semas ==>
      s in st'.semas && st'.semas[s].waiters == WaitersAfter(st.semas[s].waiters, s, raised, waits, st.cur)
  }

  // ----- each section -----

  lemma SleepOrder(st: State, a: Action, s: SemaId, next: Pc, st': State)
    requires Enabled(st, a) && s in st.semas && TrySchedule(Sleep(st, s, next)) == Next(st')
    requires Leaves(st, a) && WaitsFor(st, a) == Some(s) && !a.Yield?
    ensures InOrder(st, a, st', None)
  {
    hide Leaves, WaitsFor, TrySchedule, RunsNext;
    SwitchLists(Sleep(st, s, next), st');
    assert st.ready + Joining(st, a, None) == st.ready;
  }

  lemma TakeOrder(st: State, a: Action, s: SemaId, next: Pc)
    requires Enabled(st, a) && s in st.semas && st.semas[s].value > 0 && !Leaves(st, a) && WaitsFor(st, a).None? && !a.Yield?
    ensures InOrder(st, a, Take(st, s, next), Some(Lower(s)))
  {
    hide Leaves, WaitsFor, RunsNext;
    assert st.ready + Joining(st, a, Some(Lower(s))) == st.ready;
  }

  lemma DownOrder(st: State, a: Action, s: SemaId, next: Pc, st': State, d: Option<Event>)
    requires Enabled(st, a) && !a.Yield? && !a.InterruptUp? && !a.ThreadExit? && TryDown(st, s, next) == Next(st')
    requires Owed(st, a) != [] && Owed(st, a)[0] == Lower(s) && !(a.Continue? && st.pc[st.cur].IdleLoop?)
    requires d == if st.semas[s].value > 0 then Some(Lower(s)) else None
    ensures InOrder(st, a, st', d)
  {
    hide Owed, InOrder, TrySchedule;
    if st.semas[s].value > 0 {
      TakeOrder(st, a, s, next);
    } else {
      SleepOrder(st, a, s, next, st');
    }
  }

  lemma UpOrder(st: State, a: Action, st1: State, s: SemaId, st': State, d: Option<Event>)
    requires Enabled(st, a) && !Leaves(st, a) && WaitsFor(st, a).None? && SameThings(st, st1) && st1.ready == st.ready && !a.Yield?
    requires TryUp(st1, s) == Next(st') && d == Some(Raise(s))
    ensures InOrder(st, a, st', d)
  {
    hide Leaves, WaitsFor;
  }

  lemma StillOrder(st: State, a: Action, st': State, d: Option<Event>)
    requires Enabled(st, a) && !Leaves(st, a) && WaitsFor(st, a).None? && RaisedBy(d, st.cur).None? && Joining(st, a, d) == []
    requires st'.cur == st.cur && st'.ready == st.ready
    requires Queued(st, st', None, None)
    ensures InOrder(st, a, st', d)
  {
    hide Leaves, WaitsFor, Joining;
  }

  lemma YieldOrder(st: State, st': State)
    requires Enabled(st, Yield) && TrySchedule(Requeue(st)) == Next(st')
    ensures InOrder(st, Yield, st', None)
  {
  }

  /** What a switch from state st1, in which the running thread is no longer running, does. */
  lemma SwitchLists(st1: State, st': State)
    requires TrySchedule(st1) == Next(st')
    ensures RunsNext(st1.ready, st') && st'.semas == st1.semas
  {
  }

  lemma RaiseLists(st: State, s: SemaId, st1: State)
    requires TryUp(st, s) == Next(st1)
    ensures s in st.semas
    ensures st1.ready == st.ready + if st.semas[s].waiters == [] then [] else [st.semas[s].waiters[0]]
    ensures st1.cur == st.cur && Queued(st, st1, Some(s), None)
  {
  }

  lemma ExitOrder(st: State, st': State)
    requires Enabled(st, ThreadExit) && Exit(st) == Next(st')
    ensures InOrder(st, ThreadExit, st', Some(Die))
  {
    hide TryUp, TrySchedule, RunsNext, Queued;
    if st.cur == MAIN {
      SwitchLists(SetStatus(st, Dying), st');
      assert st.ready + [] == st.ready;
      assert Queued(st, st', None, None) by { SameQueues(st, st'); }
    } else {
      var st1 := TryUp(st, OfExit(st.cur)).st;
      RaiseLists(st, OfExit(st.cur), st1);
      SwitchLists(SetStatus(st1, Dying), st');
      JoinsOne(st);
      assert Queued(st, st', Some(OfExit(st.cur)), None) by { QueuesAfter(st, st1, st'); }
    }
  }

  lemma JoinsOne(st: State)
    requires Wf(st) && OfExit(st.cur) in st.semas && st.cur != MAIN
    ensures var ws := st.semas[OfExit(st.cur)].waiters;
      Joining(st, ThreadExit, Some(Die)) == if ws == [] then [] else [ws[0]]
  {
  }

  lemma SameQueues(st: State, st': State)
    requires st'.semas == st.semas
    ensures Queued(st, st', None, None)
  {
  }

  lemma QueuesAfter(st: State, st1: State, st': State)
    requires st'.semas == st1.semas
    ensures forall raised, waits {:trigger Queued(st, st1, raised, waits)} :: Queued(st, st1, raised, waits) ==> Queued(st, st', raised, waits)
  {
  }

  lemma CreateOrder(st: State)
    requires Inv(st) && Enabled(st, ThreadCreate)
    ensures InOrder(st, ThreadCreate, Create(st), Some(Spawn(|st.status|)))
  {
    hide Inv;
    if OfExit(|st.status|) in st.semas {
      NewQueueEmpty(st);
    }
    assert Joining(st, ThreadCreate, Some(Spawn(|st.status|))) == [|st.status|];
  }

  /** Nobody waits for a thread that there is not yet. */
  lemma NewQueueEmpty(st: State)
    requires Inv(st) && OfExit(|st.status|) in st.semas
    ensures st.semas[OfExit(|st.status|)].waiters == []
  {
    if st.semas[OfExit(|st.status|)].waiters != [] {
      FirstWaits(st, OfExit(|st.status|));
      assert false;
    }
  }

  /** The first waiter is blocked in a `sema_down` on that semaphore. */
  lemma FirstWaits(st: State, s: SemaId)
    requires Inv(st) && s in st.semas && st.semas[s].waiters != []
    ensures var t := st.semas[s].waiters[0];
      && t < |st.pc| && t < |st.status| && st.status[t].Blocked? && st.pc[t].Recheck? && st.pc[t].s == s
      && DownOk(st, t, s, st.pc[t].next)
  {
    hide WakeInv, CountInv, LockInv, CondsInv, ChildInv, ReadyInv, IdleInv, DyingInv, RunInv;
    var t := st.semas[s].waiters[0];
    assert t in st.semas[s].waiters;
    assert PcOk(st, t, st.pc[t]);
  }

  lemma IdleOrder(st: State, st': State)
    requires Enabled(st, Continue) && st.pc[st.cur].IdleLoop? && GoOn(st) == Next(st')
    ensures InOrder(st, Continue, st', None)
  {
  }

  // ----- every step -----

  /** What the thread has done is the first thing that it owed, if it now owes less. */
  lemma DoneIs(st: State, a: Action, st': State, d: Option<Event>)
    requires Enabled(st, a) && Pays(st, a, st', d)
    ensures d == if |Todo(st', st'.pc[st.cur])| < |Owed(st, a)| then Some(Owed(st, a)[0]) else None
  {
    hide Did, Owed, Todo;
    if d.Some? {
      assert Owed(st, a)[0] == Seq(d)[0];
    }
  }

  lemma GoOnDownOrder(st: State, s: SemaId, next: Pc, st': State, d: Option<Event>)
    requires Enabled(st, Continue) && (st.pc[st.cur] == Recheck(s, next) || st.pc[st.cur] == StartDown(s, next))
    requires TryDown(st, s, next) == Next(st') && Pays(st, Continue, st', d)
    ensures InOrder(st, Continue, st', d)
  {
    hide TryDown, Did, InOrder, Pays;
    DoneIs(st, Continue, st', d);
    var _ := DownDoes(st, s, next, st');
    TodoSame(st, st', next);
    DownOrder(st, Continue, s, next, st', d);
  }

  lemma GoOnUpOrder(st: State, st1: State, s: SemaId, next: Pc, st': State, d: Option<Event>)
    requires Enabled(st, Continue) && SameThings(st, st1) && st1.ready == st.ready && st1.pc == st.pc[st.cur := next]
    requires TryUp(st1, s) == Next(st') && !st.pc[st.cur].IdleLoop?
    requires Pays(st, Continue, st', d) && Todo(st, st.pc[st.cur]) == [Raise(s)] + Todo(st, next)
    ensures InOrder(st, Continue, st', d)
  {
    hide TryUp, Did, InOrder, Pays;
    DoneIs(st, Continue, st', d);
    UpDoes(st1, s, st');
    TodoSame(st, st', next);
    UpOrder(st, Continue, st1, s, st', d);
  }

  lemma GoOnLocalOrder(st: State, st': State, d: Option<Event>)
    requires Enabled(st, Continue) && GoOn(st) == Next(st') && Pays(st, Continue, st', d)
    requires var pc := st.pc[st.cur]; pc.TakeLock? || pc.Releasing? || pc.Broadcast? || pc.Collect? || pc.IdleBoot?
    ensures InOrder(st, Continue, st', d)
  {
    hide Did, InOrder, Queued;
    DoneIs(st, Continue, st', d);
    hide Pays;
    SameQueues(st, st');
    StillOrder(st, Continue, st', d);
  }

  lemma GoOnOrder(st: State, st': State, d: Option<Event>)
    requires Enabled(st, Continue) && GoOn(st) == Next(st') && Pays(st, Continue, st', d)
    ensures InOrder(st, Continue, st', d)
  {
    hide TryUp, TryDown, TrySchedule, InOrder, Pays;
    match st.pc[st.cur]
    case Recheck(s, next) => GoOnDownOrder(st, s, next, st', d);
    case StartDown(s, next) => GoOnDownOrder(st, s, next, st', d);
    case DropLock(l, next) => GoOnUpOrder(st, SetPc(st, next), OfLock(l), next, st', d);
    case SignalUp(w, next) =>
      GoOnUpOrder(st, SetPc(st.(phase := st.phase[w := Signalled]), next), OfWaiter(w), next, st', d);
    case IdleUp => GoOnUpOrder(st, SetPc(st, IdleLoop), IDLE_STARTED, IdleLoop, st', d);
    case IdleLoop =>
      DoneIs(st, Continue, st', d);
      IdleOrder(st, st');
    case _ => GoOnLocalOrder(st, st', d);
  }

  lemma CallDownOrder(st: State, a: Action, s: SemaId, next: Pc, st': State, d: Option<Event>)
    requires Enabled(st, a) && IsCall(a) && !a.ThreadExit? && TryDown(st, s, next) == Next(st') && Pays(st, a, st', d)
    requires Owed(st, a) == [Lower(s)] + Todo(st, next)
    ensures InOrder(st, a, st', d)
  {
    hide TryDown, Did, InOrder, Pays, Owed;
    DoneIs(st, a, st', d);
    var _ := DownDoes(st, s, next, st');
    TodoSame(st, st', next);
    DownOrder(st, a, s, next, st', d);
  }

  lemma CallTryOrder(st: State, a: Action, s: SemaId, next: Pc, st': State, d: Option<Event>)
    requires Enabled(st, a) && IsCall(a) && !a.ThreadExit? && s in st.semas && Pays(st, a, st', d)
    requires st' == if st.semas[s].value > 0 then Take(st, s, next) else st
    requires Owed(st, a) == if st.semas[s].value > 0 then [Lower(s)] + Todo(st, next) else []
    ensures InOrder(st, a, st', d)
  {
    hide Did, InOrder, Pays, Owed, Queued;
    if st.semas[s].value > 0 {
      CallDownOrder(st, a, s, next, st', d);
    } else {
      DoneIs(st, a, st', d);
      SameQueues(st, st');
      StillOrder(st, a, st', d);
    }
  }

  lemma CallUpOrder(st: State, n: nat, st': State, d: Option<Event>)
    requires Enabled(st, SemaUp(n)) && TryUp(st, Plain(n)) == Next(st') && Pays(st, SemaUp(n), st', d)
    ensures InOrder(st, SemaUp(n), st', d)
  {
    hide TryUp, Did, InOrder, Pays;
    DoneIs(st, SemaUp(n), st', d);
    UpDoes(st, Plain(n), st');
    UpOrder(st, SemaUp(n), st, Plain(n), st', d);
  }

  /** Calls that leave the lists alone, or only make a new, empty one. */
  predicate Still(st: State, a: Action)
    requires Wf(st)
  {
    || a.SemaInit? || a.LockInit? || a.CondInit? || a.LockRelease? || a.CondWait? || a.CondSignal? || a.CondBroadcast?
    || a.SetExitStatus? || (a.ProcessWait? && a.c !in st.children[st.cur])
  }

  lemma CallStillOrder(st: State, a: Action, st': State, d: Option<Event>)
    requires Inv(st) && Enabled(st, a) && Still(st, a) && Step(st, a) == Next(st') && Pays(st, a, st', d)
    ensures InOrder(st, a, st', d)
  {
    hide Inv, Did, InOrder, Queued, Pays;
    NewQueues(st, a, st');
    StillJoins(st, a, st', d);
    StillLists(st, a, st');
    StillOrder(st, a, st', d);
  }

  lemma StillLists(st: State, a: Action, st': State)
    requires Enabled(st, a) && Step(st, a) == Next(st') && Still(st, a)
    ensures st'.cur == st.cur && st'.ready == st.ready && !Leaves(st, a) && WaitsFor(st, a).None?
  {
  }

  /** What such a call has done by then, if anything, puts no thread into the ready list. */
  lemma StillJoins(st: State, a: Action, st': State, d: Option<Event>)
    requires Enabled(st, a) && Still(st, a) && Pays(st, a, st', d)
    ensures RaisedBy(d, st.cur).None? && Joining(st, a, d) == []
  {
    hide Did;
    DoneIs(st, a, st', d);
    hide Pays;
  }

  lemma NewQueues(st: State, a: Action, st': State)
    requires Inv(st) && Enabled(st, a) && Still(st, a) && Step(st, a) == Next(st')
    ensures Queued(st, st', None, None)
  {
    hide Queued, Inv, TryPop, JoinCond;
    match a
    case CondWait(c) => WaiterQueues(st, c);
    case SemaInit(n, v) => AnotherQueue(st, st', Plain(n), v);
    case LockInit(l) =>
      LockUnknown(st, l);
      AnotherQueue(st, st', OfLock(l), 1);
    case _ =>
      StillSemas(st, a, st');
      SameQueues(st, st');
  }

  lemma StillSemas(st: State, a: Action, st': State)
    requires Enabled(st, a) && Still(st, a) && Step(st, a) == Next(st') && !a.CondWait? && !a.SemaInit? && !a.LockInit?
    ensures st'.semas == st.semas
  {
  }

  lemma LockUnknown(st: State, l: nat)
    requires Inv(st) && l !in st.locks
    ensures OfLock(l) !in st.semas
  {
  }

  lemma AnotherQueue(st: State, st': State, s: SemaId, v: nat)
    requires s !in st.semas && st'.semas == st.semas[s := InitSema(v)]
    ensures Queued(st, st', None, None)
  {
  }

  lemma WaiterQueues(st: State, c: nat)
    requires Inv(st) && Enabled(st, CondWait(c))
    ensures Queued(st, JoinCond(st, c), None, None)
  {
    if OfWaiter(st.cur) in st.semas {
      OwnQueueEmpty(st);
    }
    hide Inv;
  }

  /** Nobody waits on the semaphore that a running thread waits on in `cond_wait`. */
  lemma OwnQueueEmpty(st: State)
    requires Inv(st) && OfWaiter(st.cur) in st.semas
    ensures st.semas[OfWaiter(st.cur)].waiters == []
  {
    hide WakeInv, CountInv, LockInv, CondsInv, ChildInv, ReadyInv, IdleInv, DyingInv;
    assert st.status[st.cur].Running?;
    if st.semas[OfWaiter(st.cur)].waiters != [] {
      FirstWaits(st, OfWaiter(st.cur));
      assert false;
    }
  }

  lemma CallOrder(st: State, a: Action, st': State, d: Option<Event>)
    requires Inv(st) && Enabled(st, a) && Step(st, a) == Next(st') && IsCall(a) && Pays(st, a, st', d)
    ensures InOrder(st, a, st', d)
  {
    hide Inv, TryUp, TryDown, TryPop, Exit, Create, JoinCond, Take, Pays, InOrder;
    match a
    case SemaDown(n) => CallDownOrder(st, a, Plain(n), Free, st', d);
    case SemaTryDown(n) => CallTryOrder(st, a, Plain(n), Free, st', d);
    case SemaUp(n) => CallUpOrder(st, n, st', d);
    case LockAcquire(l) => CallDownOrder(st, a, OfLock(l), TakeLock(l), st', d);
    case LockTryAcquire(l) => CallTryOrder(st, a, OfLock(l), TakeLock(l), st', d);
    case ThreadCreate =>
      DoneFree(st, a, st', d);
      CreateOrder(st);
    case ThreadExit =>
      DoneFree(st, a, st', d);
      ExitOrder(st, st');
    case ProcessWait(c) =>
      if c in st.children[st.cur] {
        CallDownOrder(st, a, OfExit(c), Collect(c), st', d);
      } else {
        CallStillOrder(st, a, st', d);
      }
    case _ => CallStillOrder(st, a, st', d);
  }

  lemma DoneFree(st: State, a: Action, st': State, d: Option<Event>)
    requires Inv(st) && Enabled(st, a) && Step(st, a) == Next(st') && (a.ThreadCreate? || a.ThreadExit?) && Pays(st, a, st', d)
    ensures d == Some(Owed(st, a)[0])
  {
    hide Did, Step, Inv;
    DoneIs(st, a, st', d);
    StaysFree(st, a, st');
    hide Pays;
  }

  lemma StaysFree(st: State, a: Action, st': State)
    requires Enabled(st, a) && Step(st, a) == Next(st') && (a.ThreadCreate? || a.ThreadExit?)
    ensures st.cur < |st'.pc| && st'.pc[st.cur].Free?
  {
    if a.ThreadExit? {
      MovesExit(st);
    }
  }

  lemma InterruptOrder(st: State, n: nat, st': State)
    requires Enabled(st, InterruptUp(n)) && TryUp(st, Plain(n)) == Next(st')
    ensures InOrder(st, InterruptUp(n), st', Some(Raise(Plain(n))))
  {
    hide TryUp, InOrder;
    UpOrder(st, InterruptUp(n), st, Plain(n), st', Some(Raise(Plain(n))));
  }

  /** Every step, whatever it is, treats the ready list and the lists of waiters as queues, and the
      running thread gives the processor up exactly if it yields, dies, has to wait or has nothing to do. */
  lemma StepOrders(st: State, a: Action) returns (d: Option<Event>)
    requires Inv(st) && Enabled(st, a)
    ensures Step(st, a).Next? && Did(st, Step(st, a).st, st.cur, d) && InOrder(st, a, Step(st, a).st, d)
  {
    hide Inv, Did, InOrder, GoOn, TryUp, Todo;
    StepInv(st, a);
    var st' := Step(st, a).st;
    if a.InterruptUp? {
      InterruptDoes(st, a.n);
      InterruptOrder(st, a.n, st');
      d := Some(Raise(Plain(a.n)));
    } else {
      d := StepDoes(st, a);
      if a.Continue? {
        GoOnOrder(st, st', d);
      } else if a.Yield? {
        YieldOrder(st, st');
        YieldDone(st, st', d);
      } else {
        CallOrder(st, a, st', d);
      }
    }
  }

  lemma YieldDone(st: State, st': State, d: Option<Event>)
    requires Enabled(st, Yield) && TrySchedule(Requeue(st)) == Next(st') && Pays(st, Yield, st', d)
    ensures d.None?
  {
    hide Did;
    DoneIs(st, Yield, st', d);
    TodoSame(st, st', st.pc[st.cur]);
    hide Pays;
  }

  /** `thread_yield`: the first ready thread runs, and the one that yielded goes to the end of the list. */
  lemma YieldGivesWay(st: State)
    requires Inv(st) && Enabled(st, Yield) && st.ready != []
    ensures Step(st, Yield).Next? && Step(st, Yield).st.cur == st.ready[0]
    ensures Step(st, Yield).st.ready == st.ready[1..] + if st.idle == Some(st.cur) then [] else [st.cur]
  {
    hide Inv, Did, Step;
    StepInv(st, Yield);
    YieldOrder(st, Step(st, Yield).st) by { assert Step(st, Yield) == TrySchedule(Requeue(st)) by { YieldIs(st); } }
  }

  lemma YieldIs(st: State)
    requires Enabled(st, Yield) && Step(st, Yield).Next?
    ensures Step(st, Yield) == TrySchedule(Requeue(st))
  {
  }

  // ----- every run -----

  ghost predicate Before(q: seq<Tid>, x: Tid, y: Tid) {
    exists i, j {:trigger q[i], q[j]} :: 0 <= i < j < |q| && q[i] == x && q[j] == y
  }

  lemma BeforeGrows(q: seq<Tid>, more: seq<Tid>, x: Tid, y: Tid)
    requires Before(q, x, y)
    ensures Before(q + more, x, y)
  {
    var i, j :| 0 <= i < j < |q| && q[i] == x && q[j] == y;
    assert (q + more)[i] == x && (q + more)[j] == y;
  }

  lemma BeforeShifts(q: seq<Tid>, x: Tid, y: Tid)
    requires Before(q, x, y) && q[0] != x
    ensures Before(q[1..], x, y)
  {
    var i, j :| 0 <= i < j < |q| && q[i] == x && q[j] == y;
    assert q[1..][i - 1] == x && q[1..][j - 1] == y;
  }

  lemma HeadIsNot(q: seq<Tid>, x: Tid, y: Tid)
    requires NoDup(q) && Before(q, x, y)
    ensures q != [] && q[0] != y
  {
  }

  /** Thread x does not run, at the start or after any step. */
  ghost predicate NeverRuns(st: State, acts: seq<Action>, x: Tid)
    decreases |acts|
  {
    st.cur != x &&
    (acts != [] && Enabled(st, acts[0]) && Step(st, acts[0]).Next? ==> NeverRuns(Step(st, acts[0]).st, acts[1..], x))
  }

  lemma TurnStep(st: State, a: Action, x: Tid, y: Tid)
    requires Inv(st) && Enabled(st, a) && Step(st, a).Next? && Before(st.ready, x, y) && Step(st, a).st.cur != x
    ensures Before(Step(st, a).st.ready, x, y) && (st.cur != y ==> Step(st, a).st.cur != y)
  {
    hide Inv, Step, Did, Before, Joining, Leaves, Queued, NoDup;
    var d := StepOrders(st, a);
    var more := Joining(st, a, d);
    BeforeGrows(st.ready, more, x, y);
    ReadyOnce(st);
    HeadIsNot(st.ready, x, y);
    assert (st.ready + more)[0] == st.ready[0];
    if Leaves(st, a) {
      BeforeShifts(st.ready + more, x, y);
    }
  }

  lemma ReadyOnce(st: State)
    requires Inv(st)
    ensures NoDup(st.ready) && st.cur !in st.ready
  {
    hide NoDup, WakeInv, CountInv, PcInv, LockInv, CondsInv, ChildInv, WaitInv, IdleInv, DyingInv;
  }

  /** First come, first served: a ready thread does not run before one that was ahead of it. */
  lemma {:induction false} RunsInTurn(st: State, acts: seq<Action>, st': State, x: Tid, y: Tid)
    requires Inv(st) && Reaches(st, acts, Next(st')) && Before(st.ready, x, y) && NeverRuns(st, acts, x) && st.cur != y
    ensures Before(st'.ready, x, y) && st'.cur != y
    decreases |acts|
  {
    hide Inv, Step, Enabled, Before;
    if acts != [] {
      StepInv(st, acts[0]);
      TurnStep(st, acts[0], x, y);
      RunsInTurn(Step(st, acts[0]).st, acts[1..], st', x, y);
    }
  }

  /** Thread x waits on s, at the start and after every step. */
  ghost predicate KeepsWaiting(st: State, acts: seq<Action>, s: SemaId, x: Tid)
    decreases |acts|
  {
    s in st.semas && x in st.semas[s].waiters &&
    (acts != [] && Enabled(st, acts[0]) && Step(st, acts[0]).Next? ==> KeepsWaiting(Step(st, acts[0]).st, acts[1..], s, x))
  }

  lemma WaitStep(st: State, a: Action, s: SemaId, x: Tid, y: Tid)
    requires Inv(st) && Enabled(st, a) && Step(st, a).Next? && s in st.semas && Before(st.semas[s].waiters, x, y)
    requires s in Step(st, a).st.semas && x in Step(st, a).st.semas[s].waiters
    ensures Before(Step(st, a).st.semas[s].waiters, x, y)
  {
    hide Inv, Step, Did, Before, Joining, Leaves, NoDup, WaitsFor;
    var d := StepOrders(st, a);
    var ws := st.semas[s].waiters;
    WaitsOnce(st, s);
    if RaisedBy(d, st.cur) == Some(s) {
      HeadLeaves(ws, x, y);
      BeforeShifts(ws, x, y);
    } else if WaitsFor(st, a) == Some(s) {
      BeforeGrows(ws, [st.cur], x, y);
    }
  }

  lemma WaitsOnce(st: State, s: SemaId)
    requires Inv(st) && s in st.semas
    ensures NoDup(st.semas[s].waiters)
  {
    hide NoDup, WakeInv, CountInv, PcInv, LockInv, CondsInv, ChildInv, RunInv, ReadyInv, IdleInv, DyingInv;
  }

  lemma HeadLeaves(ws: seq<Tid>, x: Tid, y: Tid)
    requires NoDup(ws) && Before(ws, x, y) && x in ws[1..]
    ensures ws[0] != x
  {
    var i :| 0 <= i < |ws[1..]| && ws[1..][i] == x;
    assert ws[i + 1] == x;
  }

  /** A waiter is not woken before one that was ahead of it. */
  lemma {:induction false} WokenInTurn(st: State, acts: seq<Action>, st': State, s: SemaId, x: Tid, y: Tid)
    requires Inv(st) && Reaches(st, acts, Next(st')) && s in st.semas && Before(st.semas[s].waiters, x, y) && KeepsWaiting(st, acts, s, x)
    ensures s in st'.semas && Before(st'.semas[s].waiters, x, y)
    decreases |acts|
  {
    hide Inv, Step, Enabled, Before;
    if acts != [] {
      StepInv(st, acts[0]);
      WaitStep(st, acts[0], s, x, y);
      WokenInTurn(Step(st, acts[0]).st, acts[1..], st', s, x, y);
    }
  }
}
