/** The scheduler and the semaphores on their linked lists: the sections of threads/thread.c and
    threads/synch.c that run with interrupts off. A thread is linked into a list only when it is in
    none, and every section takes exactly the step of the state machine. */
module KernelObject {
  import opened Common
  import opened ThreadModel
  import opened ThreadQueues
  import opened SchedulerProof
  import opened KernelInvariants
  import opened KernelRuns

  /** The lists are the ready list and one waiters list for each semaphore, as in the machine. */
  ghost predicate Agree(content: Contents, st: State) {
    && ReadyList in content && content[ReadyList] == st.ready
    && (forall s {:trigger st.semas[s]} :: s in st.semas ==> Waiters(s) in content && content[Waiters(s)] == st.semas[s].waiters)
    && (forall w {:trigger w in content} :: w in content ==> w.ReadyList? || w.s in st.semas)
  }

  ghost predicate SameValues(values: map<SemaId, nat>, st: State) {
    values.Keys == st.semas.Keys && forall s {:trigger st.semas[s]} :: s in st.semas ==> values[s] == st.semas[s].value
  }

  lemma AgreeReady(content: Contents, st: State, ready: seq<Tid>, st': State)
    requires Agree(content, st) && st'.ready == ready && st'.semas == st.semas
    ensures Agree(content[ReadyList := ready], st')
  {
  }

  lemma AgreeAt(content: Contents, st: State, s: SemaId)
    requires Agree(content, st)
    ensures ReadyList in content && content[ReadyList] == st.ready
    ensures s in st.semas ==> Waiters(s) in content && content[Waiters(s)] == st.semas[s].waiters
    ensures s !in st.semas ==> Waiters(s) !in content
  {
    assert s in st.semas ==> st.semas[s] == st.semas[s];
  }

  lemma AgreeWaiters(content: Contents, st: State, s: SemaId, x: Sema, st': State)
    requires Agree(content, st) && st'.ready == st.ready && st'.semas == st.semas[s := x]
    ensures Agree(content[Waiters(s) := x.waiters], st')
  {
    var content' := content[Waiters(s) := x.waiters];
    forall r | r in st'.semas ensures Waiters(r) in content' && content'[Waiters(r)] == st'.semas[r].waiters {
      assert r != s ==> st.semas[r] == st'.semas[r];
    }
  }

  lemma AgreeSame(content: Contents, st: State, s: SemaId, x: Sema, st': State)
    requires Agree(content, st) && s in st.semas && x.waiters == st.semas[s].waiters
    requires st'.ready == st.ready && st'.semas == st.semas[s := x]
    ensures Agree(content, st')
  {
    AgreeAt(content, st, s);
    AgreeWaiters(content, st, s, x, st');
    assert content[Waiters(s) := x.waiters] == content;
  }

  lemma ValuesSet(values: map<SemaId, nat>, st: State, s: SemaId, x: Sema, st': State)
    requires SameValues(values, st) && st'.semas == st.semas[s := x]
    ensures SameValues(values[s := x.value], st')
  {
    var values' := values[s := x.value];
    forall r | r in st'.semas ensures values'[r] == st'.semas[r].value {
      assert r != s ==> st.semas[r] == st'.semas[r];
    }
  }

  lemma ValueAt(values: map<SemaId, nat>, st: State, s: SemaId)
    requires SameValues(values, st) && s in st.semas
    ensures s in values && values[s] == st.semas[s].value && values[s := st.semas[s].value] == values
  {
    assert st.semas[s] == st.semas[s];
  }

  lemma ValuesSame(values: map<SemaId, nat>, st: State, st': State)
    requires SameValues(values, st) && st'.semas == st.semas
    ensures SameValues(values, st')
  {
  }

  /** Exit semaphores belong to threads. */
  ghost predicate ExitsNumbered(st: State) {
    forall t: nat {:trigger OfExit(t) in st.semas} :: OfExit(t) in st.semas ==> t < |st.status|
  }

  /** Thread t is in no list of the machine. */
  ghost predicate Loose(st: State, t: Tid) {
    t !in st.ready && forall s {:trigger st.semas[s]} :: s in st.semas ==> t !in st.semas[s].waiters
  }

  /** The running thread is in no list. */
  lemma RunningLoose(st: State)
    requires Core(st, true)
    ensures Loose(st, st.cur)
  {
    hide IdleInv, DyingInv, NoDup;
    assert st.status[st.cur].Running?;
  }

  /** Nor is a thread that has just been taken off the list it waited in. */
  lemma WokenLoose(st: State, s: SemaId, st': State)
    requires Core(st, true) && s in st.semas && st.semas[s].waiters != []
    requires st' == st.(semas := st.semas[s := st.semas[s].(waiters := st.semas[s].waiters[1..])])
    ensures Loose(st', st.semas[s].waiters[0])
  {
    hide IdleInv, DyingInv, RunInv;
    var t := st.semas[s].waiters[0];
    assert t in st.semas[s].waiters;
    SchedulerProof.PopFront(st.semas[s].waiters);
  }

  lemma NewLoose(st: State)
    requires Core(st, true)
    ensures Loose(st, |st.status|)
  {
    hide IdleInv, DyingInv, RunInv, NoDup;
  }

  /** Who runs next, given the queue of ready threads, and who then is still ready. */
  function Head(queue: seq<Tid>): Tid { if queue == [] then IDLE else queue[0] }

  function Tail(queue: seq<Tid>): seq<Tid> { if queue == [] then [] else queue[1..] }

  class Kernel {
    const q: Queues
    var status: seq<Status>
    var cur: Tid
    var idle: Option<Tid>
    var values: map<SemaId, nat>
    /** The state of the machine, with what the C code does not keep: history and control points. */
    ghost var st: State

    ghost predicate Valid()
      reads this, q, q.footprint
    {
      && q.Valid() && this !in q.footprint && Wf(st) && |q.elems| == |st.status|
      && status == st.status && cur == st.cur && idle == st.idle
      && Agree(q.content, st) && SameValues(values, st) && ExitsNumbered(st)
    }

    /** `thread_init` and `thread_start`: the idle thread is ready, and nothing else is linked. */
    constructor ()
      ensures Valid() && fresh(q.footprint) && st == Boot() && Inv(st)
    {
      hide Queues.Valid, Inv, Agree;
      q := new Queues();
      status, cur, idle := [Running, Ready], MAIN, None;
      values := map[IDLE_STARTED := 0, OfExit(MAIN) := 0, OfExit(IDLE) := 0];
      st := Boot();
      new;
      BootInv();
      LinkFirst(q);
    }

    /** The elements and lists of the first two threads. */
    static method LinkFirst(q: Queues)
      requires q.Valid() && q.elems == [] && q.content == map[ReadyList := []]
      modifies q.footprint
      ensures q.Valid() && fresh(q.footprint - old(q.footprint)) && |q.elems| == 2 && Agree(q.content, Boot())
    {
      hide Queues.Valid;
      InFootprint(q);
      var _ := q.NewElem();
      var _ := q.NewElem();
      q.NewList(Waiters(IDLE_STARTED));
      q.NewList(Waiters(OfExit(MAIN)));
      q.NewList(Waiters(OfExit(IDLE)));
      InFootprint(q);
      q.PushBack(ReadyList, IDLE);
    }

    lemma InNone(t: Tid)
      requires Valid() && Loose(st, t)
      ensures q.InNoList(t)
    {
      forall w | w in q.content ensures t !in q.content[w] {
        if w.Waiters? {
          assert st.semas[w.s] == st.semas[w.s];
        }
      }
    }

    /** `next_thread_to_run`. */
    method NextThreadToRun() returns (next: Tid)
      requires Valid() && CanSchedule(st)
      modifies q.footprint
      ensures q.Valid() && q.footprint == old(q.footprint) && q.elems == old(q.elems)
      ensures next == if st.ready == [] then IDLE else st.ready[0]
      ensures q.content == if st.ready == [] then old(q.content) else old(q.content)[ReadyList := st.ready[1..]]
    {
      hide Queues.Valid, Agree, SameValues, ExitsNumbered;
      AgreeAt(q.content, st, IDLE_STARTED);
      var empty := q.IsEmpty(ReadyList);
      if empty {
        next := idle.value;
      } else {
        next := q.PopFront(ReadyList);
      }
    }

    /** `schedule` and `thread_schedule_tail`. */
    method Reschedule()
      requires Valid() && CanSchedule(st) && !status[cur].Running?
      modifies this, q.footprint
      ensures Valid() && q.footprint == old(q.footprint) && st == Schedule(old(st))
      ensures cur == Head(old(st).ready) && status == old(status)[cur := Running] && values == old(values)
      ensures q.content == old(q.content)[ReadyList := Tail(old(st).ready)]
    {
      hide Queues.Valid, Agree, SameValues;
      var next := NextThreadToRun();
      assert next < |status|;  // is_thread (next)
      cur := next;
      status := status[cur := Running];
      ghost var st0 := st;
      st := Schedule(st0);
      ValuesSame(values, st0, st);
      AgreeReady(old(q.content), st0, st.ready, st);
      AgreeAt(old(q.content), st0, IDLE_STARTED);
      assert st0.ready == [] ==> old(q.content)[ReadyList := []] == old(q.content);
    }

    /** `thread_unblock`: a blocked thread that is in no list goes to the end of the ready list. */
    method ThreadUnblock(t: Tid)
      requires Valid() && t < |status| && status[t].Blocked? && Loose(st, t)
      modifies this, q.footprint
      ensures Valid() && q.footprint == old(q.footprint) && st == Unblock(old(st), t) && values == old(values)
      ensures status[t].Ready? && q.content == old(q.content)[ReadyList := old(st).ready + [t]]
    {
      hide Queues.Valid, Agree, SameValues, Loose;
      InNone(t);
      AgreeAt(q.content, st, IDLE_STARTED);
      q.PushBack(ReadyList, t);
      status := status[t := Ready];
      ghost var st0 := st;
      st := Unblock(st, t);
      ValuesSame(values, st0, st);
      AgreeReady(old(q.content), st0, st.ready, st);
    }

    /** One pass through the loop of `sema_down`: link the thread into the waiters and block, or take one
        unit. */
    method SemaDownPass(s: SemaId, ghost next: Pc)
      requires Valid() && Core(st, true) && TryDown(st, s, next).Next?
      modifies this, q.footprint
      ensures Valid() && q.footprint == old(q.footprint) && TryDown(old(st), s, next) == Next(st)
      ensures var x := old(st).semas[s];
        if x.value > 0 then
          q.content == old(q.content) && cur == old(cur) && s in values && values == old(values)[s := x.value - 1]
        else
          && q.content == old(q.content)[Waiters(s) := x.waiters + [old(cur)]][ReadyList := Tail(old(st).ready)]
          && cur == Head(old(st).ready) && status == old(status)[old(cur) := Blocked][cur := Running] && values == old(values)
    {
      hide Queues.Valid, RunInv, ReadyInv, WaitInv, IdleInv, DyingInv, Agree, SameValues, Loose;
      ghost var st0 := st;
      ValueAt(values, st, s);
      if values[s] == 0 {
        SleepOn(s, next);
      } else {
        values := values[s := values[s] - 1];
        st := Take(st, s, next);
        ValuesSet(old(values), st0, s, st.semas[s], st);
        AgreeSame(q.content, st0, s, st.semas[s], st);
      }
    }

    /** The body of the loop of `sema_down`, with `thread_block`. */
    method SleepOn(s: SemaId, ghost next: Pc)
      requires Valid() && Core(st, true) && s in st.semas && CanSchedule(Sleep(st, s, next))
      modifies this, q.footprint
      ensures Valid() && q.footprint == old(q.footprint) && st == Schedule(Sleep(old(st), s, next))
      ensures q.content == old(q.content)[Waiters(s) := old(st).semas[s].waiters + [old(cur)]][ReadyList := Tail(old(st).ready)]
      ensures cur == Head(old(st).ready) && status == old(status)[old(cur) := Blocked][cur := Running] && values == old(values)
    {
      hide Queues.Valid, RunInv, ReadyInv, WaitInv, IdleInv, DyingInv, Agree, SameValues, Loose;
      ghost var st0 := st;
      ValueAt(values, st, s);
      RunningLoose(st);
      InNone(cur);
      AgreeAt(q.content, st, s);
      q.PushBack(Waiters(s), cur);
      status := status[cur := Blocked];
      st := Sleep(st, s, next);
      AgreeWaiters(old(q.content), st0, s, st.semas[s], st);
      ValuesSet(values, st0, s, st.semas[s], st);
      Reschedule();
    }

    /** `sema_up`: the first waiter is taken off its list before it is linked into the ready list. */
    method Raise(s: SemaId)
      requires Valid() && Core(st, true) && CanUp(st, s)
      modifies this, q.footprint
      ensures Valid() && q.footprint == old(q.footprint) && st == Up(old(st), s)
      ensures s in values && values[s] == old(st).semas[s].value + 1
      ensures var ws := old(st).semas[s].waiters;
        q.content == if ws == [] then old(q.content)
                     else old(q.content)[Waiters(s) := ws[1..]][ReadyList := old(st).ready + [ws[0]]]
    {
      hide Queues.Valid, RunInv, ReadyInv, WaitInv, IdleInv, DyingInv, Loose, Agree, SameValues;
      ghost var st0 := st;
      ghost var x := st.semas[s];
      AgreeAt(q.content, st, s);
      ValueAt(values, st, s);
      var empty := q.IsEmpty(Waiters(s));
      if !empty {
        WakeFirst(s);
      }
      ghost var st1 := st;
      values := values[s := values[s] + 1];
      st := Up(st0, s);
      ValueAt(old(values), st1, s);
      ValuesSet(old(values), st1, s, st.semas[s], st);
      AgreeSame(q.content, st1, s, st.semas[s], st);
    }

    method WakeFirst(s: SemaId)
      requires Valid() && Core(st, true) && CanUp(st, s) && st.semas[s].waiters != []
      modifies this, q.footprint
      ensures Valid() && q.footprint == old(q.footprint) && values == old(values)
      ensures var x := old(st).semas[s];
        && st == Unblock(old(st).(semas := old(st).semas[s := x.(waiters := x.waiters[1..])]), x.waiters[0])
        && q.content == old(q.content)[Waiters(s) := x.waiters[1..]][ReadyList := old(st).ready + [x.waiters[0]]]
    {
      hide Queues.Valid, RunInv, ReadyInv, WaitInv, IdleInv, DyingInv, Loose, Agree, SameValues;
      ghost var st0 := st;
      ghost var x := st.semas[s];
      AgreeAt(q.content, st, s);
      ValueAt(values, st, s);
      var t := q.PopFront(Waiters(s));
      st := st.(semas := st.semas[s := x.(waiters := x.waiters[1..])]);
      WokenLoose(st0, s, st);
      AgreeWaiters(old(q.content), st0, s, st.semas[s], st);
      ValuesSet(values, st0, s, st.semas[s], st);
      assert status[t].Blocked?;  // thread_unblock
      ThreadUnblock(t);
    }

    /** `thread_yield`, at any point where interrupts are on: the running thread goes to the end of the
        ready list, unless it is the idle thread, and the first thread of the list runs. */
    method ThreadYield()
      requires Valid() && Inv(st) && Enabled(st, Yield)
      modifies this, q.footprint
      ensures Valid() && q.footprint == old(q.footprint)
      ensures var queue := old(st).ready + if old(idle) == Some(old(cur)) then [] else [old(cur)];
        cur == Head(queue) && q.content == old(q.content)[ReadyList := Tail(queue)]
      ensures Step(old(st), Yield) == Next(st) && Inv(st)
    {
      hide Queues.Valid, RunInv, ReadyInv, WaitInv, IdleInv, DyingInv, WakeInv, CountInv, PcInv, LockInv, CondsInv, ChildInv, Agree, SameValues, Loose;
      StepInv(st, Yield);
      LinkYielding();
      ghost var queue := st.ready;
      Reschedule();
      assert old(q.content)[ReadyList := queue][ReadyList := Tail(queue)] == old(q.content)[ReadyList := Tail(queue)];
    }

    method LinkYielding()
      requires Valid() && Core(st, true)
      modifies this, q.footprint
      ensures Valid() && q.footprint == old(q.footprint) && st == Requeue(old(st)) && cur == old(cur) && !status[cur].Running?
      ensures st.ready == old(st).ready + if old(idle) == Some(old(cur)) then [] else [old(cur)]
      ensures q.content == old(q.content)[ReadyList := st.ready]
    {
      hide Queues.Valid, RunInv, ReadyInv, WaitInv, IdleInv, DyingInv, Agree, SameValues, Loose;
      ghost var st0 := st;
      AgreeAt(q.content, st, IDLE_STARTED);
      if idle != Some(cur) {
        RunningLoose(st);
        InNone(cur);
        q.PushBack(ReadyList, cur);
      }
      status := status[cur := Ready];
      st := Requeue(st0);
      AgreeReady(old(q.content), st0, st.ready, st);
      assert old(q.content)[ReadyList := st0.ready] == old(q.content);
      assert st0.ready + [] == st0.ready;
      ValuesSame(values, st0, st);
    }

    /** `sema_down` as called by a thread. */
    method SemaDownCall(n: nat)
      requires Valid() && Inv(st) && Enabled(st, SemaDown(n))
      modifies this, q.footprint
      ensures Valid() && q.footprint == old(q.footprint) && Step(old(st), SemaDown(n)) == Next(st) && Inv(st)
    {
      hide Queues.Valid, RunInv, ReadyInv, WaitInv, IdleInv, DyingInv, WakeInv, CountInv, PcInv, LockInv, CondsInv, ChildInv, Agree, SameValues, Loose;
      StepInv(st, SemaDown(n));
      assert status[cur].Running?;  // thread_current ()
      SemaDownPass(Plain(n), Free);
    }

    /** A thread that has been woken goes round the loop of `sema_down` again. */
    method SemaDownAgain(s: SemaId, ghost next: Pc)
      requires Valid() && Inv(st) && Enabled(st, Continue) && st.pc[cur] == Recheck(s, next)
      modifies this, q.footprint
      ensures Valid() && q.footprint == old(q.footprint) && Step(old(st), Continue) == Next(st) && Inv(st)
    {
      hide Queues.Valid, RunInv, ReadyInv, WaitInv, IdleInv, DyingInv, WakeInv, CountInv, PcInv, LockInv, CondsInv, ChildInv, Agree, SameValues, Loose;
      StepInv(st, Continue);
      SemaDownPass(s, next);
    }

    /** `sema_up` as called by a thread or an interrupt handler. */
    method SemaUpCall(n: nat)
      requires Valid() && Inv(st) && Enabled(st, InterruptUp(n))
      modifies this, q.footprint
      ensures Valid() && q.footprint == old(q.footprint) && Step(old(st), InterruptUp(n)) == Next(st) && Inv(st)
    {
      hide Queues.Valid, RunInv, ReadyInv, WaitInv, IdleInv, DyingInv, WakeInv, CountInv, PcInv, LockInv, CondsInv, ChildInv, Agree, SameValues, Loose;
      StepInv(st, InterruptUp(n));
      Raise(Plain(n));
    }

    /** `thread_exit` after `process_exit`: one section with interrupts off. */
    method ThreadExitCall()
      requires Valid() && Inv(st) && Enabled(st, ThreadExit)
      modifies this, q.footprint
      ensures Valid() && q.footprint == old(q.footprint) && Step(old(st), ThreadExit) == Next(st) && Inv(st)
    {
      hide Queues.Valid, RunInv, ReadyInv, WaitInv, IdleInv, DyingInv, WakeInv, CountInv, PcInv, LockInv, CondsInv, ChildInv, Agree, SameValues, Loose;
      StepInv(st, ThreadExit);
      ghost var st0 := st;
      if cur != MAIN {
        Raise(OfExit(cur));
      }
      status := status[cur := Dying];
      ghost var st1 := st;
      st := SetStatus(st1, Dying);
      AgreeReady(q.content, st1, st1.ready, st);
      AgreeAt(q.content, st1, IDLE_STARTED);
      assert q.content[ReadyList := st1.ready] == q.content;
      ValuesSame(values, st1, st);
      Reschedule();
    }

    /** The element of a dead thread is in no list, so its page can be freed. */
    lemma DeadUnlinked(t: Tid)
      requires Valid() && Inv(st) && t < |status| && status[t].Dying?
      ensures q.InNoList(t)
    {
      hide Queues.Valid, RunInv, ReadyInv, WaitInv, IdleInv, DyingInv, WakeInv, CountInv, PcInv, LockInv, CondsInv, ChildInv, Agree, SameValues, Loose;
      DyingLoose(st, t);
      InNone(t);
    }

    /** `sema_init`. */
    method SemaInitCall(n: nat, v: nat)
      requires Valid() && Inv(st) && Enabled(st, SemaInit(n, v))
      modifies this, q
      ensures Valid() && fresh(q.footprint - old(q.footprint)) && Step(old(st), SemaInit(n, v)) == Next(st) && Inv(st)
    {
      hide Queues.Valid, RunInv, ReadyInv, WaitInv, IdleInv, DyingInv, WakeInv, CountInv, PcInv, LockInv, CondsInv, ChildInv, Agree, SameValues, Loose;
      StepInv(st, SemaInit(n, v));
      AgreeAt(q.content, st, Plain(n));
      q.NewList(Waiters(Plain(n)));
      values := values[Plain(n) := v];
      ghost var st0 := st;
      st := st.(semas := st.semas[Plain(n) := InitSema(v)]);
      AgreeWaiters(old(q.content), st0, Plain(n), InitSema(v), st);
      ValuesSet(old(values), st0, Plain(n), InitSema(v), st);
    }

    /** `thread_create`: fails exactly if there is no page for the thread. Otherwise the new thread's
        element is linked into the ready list and nowhere else. */
    method ThreadCreateCall(memory: bool) returns (tid: Option<Tid>)
      requires Valid() && Inv(st) && Enabled(st, ThreadCreate)
      modifies this, q.footprint
      ensures Valid() && fresh(q.footprint - old(q.footprint)) && Inv(st) && (tid.Some? <==> memory)
      ensures tid.None? ==> st == old(st)
      ensures tid.Some? ==>
        && Step(old(st), ThreadCreate) == Next(st) && tid.value == |old(status)|
        && q.content[ReadyList] == old(q.content)[ReadyList] + [tid.value]
    {
      hide Queues.Valid, Inv, Step;
      if !memory {
        return None;
      }
      var t := LinkNewThread();
      return Some(t);
    }

    method LinkNewThread() returns (t: Tid)
      requires Valid() && Inv(st) && Enabled(st, ThreadCreate)
      modifies this, q.footprint
      ensures Valid() && fresh(q.footprint - old(q.footprint)) && Step(old(st), ThreadCreate) == Next(st) && Inv(st)
      ensures t == |old(status)| && q.content[ReadyList] == old(q.content)[ReadyList] + [t]
    {
      hide Queues.Valid, RunInv, ReadyInv, WaitInv, IdleInv, DyingInv, WakeInv, CountInv, PcInv, LockInv, CondsInv, ChildInv, Agree, SameValues, Loose;
      StepInv(st, ThreadCreate);
      ghost var st0 := st;
      InFootprint(q);
      AgreeAt(q.content, st, IDLE_STARTED);
      t := q.NewElem();
      assert OfExit(t) !in st.semas;
      AgreeAt(q.content, st, OfExit(t));
      q.NewList(Waiters(OfExit(t)));
      values := values[OfExit(t) := 0];
      status := status + [Blocked];
      st := Create(st).(status := status, ready := st.ready);
      CreateByUnblocking(st0, st);
      AgreeWaiters(old(q.content), st0, OfExit(t), InitSema(0), st);
      ValuesSet(old(values), st0, OfExit(t), InitSema(0), st);
      assert Loose(st, t) by { NewLoose(st0); CreatedLoose(st0, st); }
      ThreadUnblock(t);
      AgreeAt(q.content, st, IDLE_STARTED);
    }
  }

  lemma InFootprint(q: Queues)
    requires q.Valid()
    ensures q in q.footprint
  {
  }

  lemma CreateByUnblocking(st: State, st1: State)
    requires Wf(st) && st1 == Create(st).(status := st.status + [Blocked], ready := st.ready)
    ensures Wf(st1) && Unblock(st1, |st.status|) == Create(st)
  {
    assert (st.status + [Blocked])[|st.status| := Ready] == st.status + [Ready];
  }

  lemma CreatedLoose(st: State, st': State)
    requires Wf(st) && Loose(st, |st.status|)
    requires st'.ready == st.ready && st'.semas == st.semas[OfExit(|st.status|) := InitSema(0)]
    ensures Loose(st', |st.status|)
  {
  }

  lemma DyingLoose(st: State, t: Tid)
    requires Core(st, true) && t < |st.status| && st.status[t].Dying?
    ensures Loose(st, t)
  {
    hide IdleInv, DyingInv, NoDup;
  }
}
