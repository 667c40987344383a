/** The theorems about every run of the thread system: whatever the threads call, in whatever
    order, and wherever timer and device interrupts strike. */
module KernelRuns {
  import opened Common
  import opened ThreadModel
  import opened SchedulerProof
  import opened KernelInvariants
  import opened KernelCore
  import opened KernelFrames
  import LockProof
  import CondProof
  import ExitWaitProof

  lemma BootCore()
    ensures Core(Boot(), true) && CountInv(Boot())
  {
    var st := Boot();
    assert forall s :: s in st.semas ==> st.semas[s].waiters == [];
  }

  lemma BootWakes()
    ensures WakeInv(Boot()) && PcInv(Boot()) && LockInv(Boot())
  {
    var st := Boot();
    assert forall s :: s in st.semas ==> st.semas[s].waiters == [];
    forall t | 0 <= t < |st.pc|
      ensures PcOk(st, t, st.pc[t]) && (t == IDLE <==> IsIdlePc(st.pc[t])) && LockPc(st, t)
    {
      assert t == MAIN || t == IDLE;
    }
  }

  lemma BootKin()
    ensures CondsInv(Boot()) && ChildInv(Boot())
  {
    var st := Boot();
    assert LogInv(st);
    forall t | 0 <= t < |st.pc| ensures PhaseOk(st, t) && ParentOk(st, t) && (0 < t ==> ChildOk(st, t)) {
      assert t == MAIN || t == IDLE;
    }
  }

  lemma BootInv()
    ensures Inv(Boot())
  {
    hide Core, WakeInv, CountInv, PcInv, LockInv, CondsInv, ChildInv;
    BootCore();
    BootWakes();
    BootKin();
  }

  /** No assertion fails and the invariant is kept, in one step... */
  lemma StepInv(st: State, a: Action)
    requires Inv(st) && Enabled(st, a)
    ensures Step(st, a).Next? && Inv(Step(st, a).st)
  {
    hide RunInv, ReadyInv, WaitInv, IdleInv, DyingInv, WakeInv, CountInv, PcInv, LockInv, CondsInv, ChildInv;
    hide GoOn, Exit, TryDown, TryUp, Create, TryPop, TrySchedule, Requeue, Step;
    GoodStep(st, a);
    PcStep(st, a);
    LockProof.LockStep(st, a);
    CondProof.CondStep(st, a);
    ExitWaitProof.ChildStep(st, a);
  }

  /** ...and in every run. */
  lemma {:induction false} RunInvariant(st: State, acts: seq<Action>, r: Outcome)
    requires Inv(st) && Reaches(st, acts, r)
    ensures r.Next? && Inv(r.st)
    decreases |acts|
  {
    hide Inv, Step, Enabled;
    if acts != [] {
      StepInv(st, acts[0]);
      RunInvariant(Step(st, acts[0]).st, acts[1..], r);
    }
  }

  /** States that the booted system can get to. */
  ghost predicate Reachable(st: State) {
    exists acts :: Reaches(Boot(), acts, Next(st))
  }

  lemma ReachableInv(st: State)
    requires Reachable(st)
    ensures Inv(st)
  {
    var acts :| Reaches(Boot(), acts, Next(st));
    BootInv();
    RunInvariant(Boot(), acts, Next(st));
  }

  /** No run of the booted system ends in a failed kernel assertion. */
  lemma NeverPanics(acts: seq<Action>)
    ensures !Reaches(Boot(), acts, Panic)
  {
    if Reaches(Boot(), acts, Panic) {
      BootInv();
      RunInvariant(Boot(), acts, Panic);
    }
  }

  /** A semaphore's value is its initial value plus ups minus completed downs; while threads
      wait on it, every unit of it is claimed by a woken thread; and when nothing but the idle
      thread is left to run, every semaphore that is waited for has value 0. */
  lemma SemaphoresLoseNothing(st: State, s: SemaId)
    requires Reachable(st) && s in st.semas
    ensures Wf(st)
    ensures st.semas[s].value == st.semas[s].init + st.semas[s].ups - st.semas[s].downs
    ensures st.semas[s].waiters != [] ==> st.semas[s].value <= |Woken(st, s)|
    ensures st.semas[s].waiters != [] && st.ready == [] && st.idle == Some(st.cur) ==> st.semas[s].value == 0
  {
    ReachableInv(st);
    hide RunInv, ReadyInv, WaitInv, IdleInv, DyingInv, PcInv, LockInv, CondsInv, ChildInv;
    if st.semas[s].waiters != [] && st.ready == [] && st.idle == Some(st.cur) {
      NoLostWakeup(st, s);
    }
  }

  /** The one `elem` link of a thread is in the ready list exactly when the thread is ready, in
      one waiters list exactly when it is blocked, and nowhere else; the started idle thread is
      in none.  Exactly one thread runs. */
  lemma ElemDiscipline(st: State, t: Tid)
    requires Reachable(st) && t < |st.status|
    ensures NoDup(st.ready)
    ensures st.status[t].Running? <==> t == st.cur
    ensures st.idle != Some(t) ==> (t in st.ready <==> st.status[t].Ready?)
    ensures st.idle != Some(t) ==> (st.status[t].Blocked? <==> exists s :: s in st.semas && t in st.semas[s].waiters)
    ensures st.idle == Some(t) ==> t !in st.ready && forall s :: s in st.semas ==> t !in st.semas[s].waiters
    ensures forall s, r :: s in st.semas && r in st.semas && t in st.semas[s].waiters && t in st.semas[r].waiters ==> s == r
    ensures forall s :: s in st.semas ==> NoDup(st.semas[s].waiters)
  {
    ReachableInv(st);
    hide NoDup, WakeInv, CountInv, PcInv, LockInv, CondsInv, ChildInv;
    assert st.status[t] == st.status[t] && st.pc[t] == st.pc[t];
  }

  /** At most one thread is inside a lock, the recorded holder if there is one. */
  lemma LocksExclude(st: State, l: nat)
    requires Reachable(st) && l in st.locks
    ensures OfLock(l) in st.semas
    ensures st.semas[OfLock(l)].value + |set t | 0 <= t < |st.pc| && LockProof.Owns(st, t, l)| == 1
  {
    ReachableInv(st);
    LockProof.MutualExclusion(st, l);
  }

  /** A thread in `cond_wait` is still queued, or has been popped by a signaller that is about
      to wake it, or has been woken; it gets past its own semaphore only by that one signal. */
  lemma SignalsReachWaiters(st: State, t: Tid)
    requires Reachable(st) && t < |st.pc| && InWait(st.pc[t])
    ensures t < |st.phase| && OfWaiter(t) in st.semas
    ensures match st.phase[t]
            case NotWaiting => false
            case Queued(c) => c in st.conds && t in st.conds[c].waiters && st.semas[OfWaiter(t)].value == 0
            case Popped(u) => u < |st.pc| && st.pc[u].SignalUp? && st.pc[u].w == t && st.semas[OfWaiter(t)].value == 0
            case Signalled => st.semas[OfWaiter(t)].value == 1
    ensures forall c :: c in st.conds && t in st.conds[c].waiters ==> st.phase[t] == Queued(c)
    ensures forall u :: 0 <= u < |st.pc| && st.pc[u].SignalUp? && st.pc[u].w == t ==> st.phase[t] == Popped(u)
  {
    ReachableInv(st);
    hide RunInv, ReadyInv, WaitInv, IdleInv, DyingInv, WakeInv, CountInv, PcInv, LockInv, ChildInv;
    assert PhaseOk(st, t);
    forall c | c in st.conds && t in st.conds[c].waiters ensures st.phase[t] == Queued(c) {
      assert CondOk(st, c);
    }
    forall u | 0 <= u < |st.pc| && st.pc[u].SignalUp? && st.pc[u].w == t ensures st.phase[t] == Popped(u) {
      assert PhaseOk(st, u);
    }
  }

  /** `process_wait` waits exactly for children that have not been collected... */
  lemma WaitAccepts(st: State, c: Tid)
    requires Reachable(st) && Enabled(st, ProcessWait(c))
    ensures NeverCollected(st.log, c) && 0 < c < |st.parent| && st.parent[c] == st.cur <==> c in st.children[st.cur]
    ensures c !in st.children[st.cur] ==>
            Step(st, ProcessWait(c)) == Next(st.(log := st.log + [Refused(st.cur, c)]))
  {
    ReachableInv(st);
    hide ReadyInv, WaitInv, IdleInv, DyingInv, WakeInv, CountInv, PcInv, LockInv, CondsInv, ChildInv, NeverCollected;
    if c in st.children[st.cur] {
      ListedNotCollected(st, c);
    } else if 0 < c < |st.parent| && st.parent[c] == st.cur {
      UnlistedCollected(st, c);
    }
  }

  ghost predicate NeverCollected(log: seq<WaitResult>, c: Tid) {
    forall p, v {:trigger Collected(p, c, v)} :: Collected(p, c, v) !in log
  }

  lemma ListedNotCollected(st: State, c: Tid)
    requires Wf(st) && ChildInv(st) && c in st.children[st.cur]
    ensures NeverCollected(st.log, c) && 0 < c < |st.parent| && st.parent[c] == st.cur
  {
    assert LogInv(st);
    ExitWaitProof.KinAt(st, st.cur);
    ExitWaitProof.KinAt(st, c);
    forall p, v ensures Collected(p, c, v) !in st.log {
      assert Collected(p, c, v) in st.log ==> EntryOk(st, Collected(p, c, v));
    }
  }

  lemma UnlistedCollected(st: State, c: Tid)
    requires Wf(st) && ChildInv(st) && 0 < c < |st.parent| && st.parent[c] == st.cur && c !in st.children[st.cur]
    ensures !NeverCollected(st.log, c)
  {
    assert LogInv(st);
    ExitWaitProof.KinAt(st, c);
    assert WasCollected(st.log, c);
    var i :| 0 <= i < |st.log| && st.log[i].Collected? && st.log[i].child == c;
    assert Collected(st.log[i].parent, c, st.log[i].status) in st.log;
  }

  /** ...and what it returns is the status the child left when it died; only then is the
      child's page freed, and no page is freed twice. */
  lemma WaitReturnsStatus(st: State, c: Tid)
    requires Reachable(st) && st.cur < |st.pc| && st.pc[st.cur] == Collect(c)
    ensures c < |st.status| && st.status[c].Dying? && c != st.cur && c !in st.freed && Wf(st)
    ensures Step(st, Continue) == Next(Reap(st, c))
    ensures Reap(st, c).log == st.log + [Collected(st.cur, c, st.exitStatus[c])] && c in Reap(st, c).freed
  {
    ReachableInv(st);
    hide ReadyInv, WaitInv, IdleInv, DyingInv, WakeInv, PcInv, LockInv, CondsInv;
    assert st.status[st.cur].Running?;
    ExitWaitProof.CollectedIsDying(st, c);
  }

  /** Every status ever collected is the one its child still has, collected once, from a thread
      that is dead, off every list and not running. */
  lemma CollectedStatuses(st: State, i: nat)
    requires Reachable(st) && i < |st.log| && st.log[i].Collected?
    ensures Wf(st) && var e := st.log[i];
            && 0 < e.child < |st.status| && st.parent[e.child] == e.parent && e.status == st.exitStatus[e.child]
            && st.status[e.child].Dying? && e.child != st.cur && e.child in st.freed && e.child !in st.ready
            && (forall s :: s in st.semas ==> e.child !in st.semas[s].waiters)
    ensures forall j :: 0 <= j < |st.log| && j != i && st.log[j].Collected? ==> st.log[j].child != st.log[i].child
  {
    ReachableInv(st);
    hide NoDup, IdleInv, DyingInv, WakeInv, CountInv, PcInv, LockInv, CondsInv;
    assert LogInv(st) && st.log[i] in st.log;
    var c := st.log[i].child;
    ExitWaitProof.KinAt(st, c);
    assert st.status[c].Dying?;
  }

  // ----- the dead stay dead -----

  ghost predicate DeadStay(st: State, st': State) {
    forall t {:trigger st.status[t]} :: 0 <= t < |st.status| && st.status[t].Dying? ==>
      t < |st'.status| && st'.status[t].Dying?
  }

  lemma DeadSchedule(st: State, st0: State)
    requires Core(st, false) && TrySchedule(st).Next? && DeadStay(st0, st)
    ensures DeadStay(st0, TrySchedule(st).st)
  {
    ExitWaitProof.NextNotDying(st, false);
    hide RunInv, ReadyInv, WaitInv, IdleInv, DyingInv;
  }

  lemma DeadDown(st: State, s: SemaId, next: Pc)
    requires Core(st, true) && s in st.semas && TryDown(st, s, next).Next? && st.cur != IDLE
    ensures DeadStay(st, TryDown(st, s, next).st)
  {
    ExitWaitProof.RunningAlive(st);
    SleepCore(st, s, next);
    hide RunInv, ReadyInv, WaitInv, IdleInv, DyingInv;
    if st.semas[s].value == 0 {
      DeadSchedule(Sleep(st, s, next), st);
    }
  }

  lemma DeadUp(st: State, s: SemaId, st0: State)
    requires TryUp(st, s).Next? && st.status == st0.status
    ensures DeadStay(st0, TryUp(st, s).st)
  {
  }

  lemma DeadYield(st: State)
    requires Core(st, true) && TrySchedule(Requeue(st)).Next?
    ensures DeadStay(st, TrySchedule(Requeue(st)).st)
  {
    ExitWaitProof.RunningAlive(st);
    RequeueCore(st);
    hide RunInv, ReadyInv, WaitInv, IdleInv, DyingInv, TrySchedule;
    DeadSchedule(Requeue(st), st);
  }

  lemma DeadExit(st: State)
    requires Core(st, true) && st.pc[st.cur].Free? && Exit(st).Next?
    ensures DeadStay(st, Exit(st).st)
  {
    ExitWaitProof.RunningAlive(st);
    var st1 := if st.cur == MAIN then st else Up(st, OfExit(st.cur));
    if st.cur != MAIN {
      UpCore(st, OfExit(st.cur));
      DeadUp(st, OfExit(st.cur), st);
    }
    DieCore(st1);
    hide RunInv, ReadyInv, WaitInv, IdleInv, DyingInv, TrySchedule;
    DeadSchedule(SetStatus(st1, Dying), st);
  }

  lemma DeadGoOn(st: State)
    requires Core(st, true) && PcInv(st) && GoOn(st).Next? && !st.pc[st.cur].Free?
    ensures DeadStay(st, GoOn(st).st)
  {
    ExitWaitProof.RunningAlive(st);
    PcAt(st, st.cur);
    match st.pc[st.cur]
    case Recheck(s, next) => DeadDown(st, s, next);
    case StartDown(s, next) => DeadDown(st, s, next);
    case DropLock(l, next) => DeadUp(SetPc(st, next), OfLock(l), st);
    case SignalUp(w, next) => DeadUp(SetPc(st.(phase := st.phase[w := Signalled]), next), OfWaiter(w), st);
    case IdleUp => DeadUp(SetPc(st, IdleLoop), IDLE_STARTED, st);
    case IdleLoop =>
      IdleBlockCore(st);
      DeadSchedule(SetStatus(st, Blocked), st);
    case _ =>
  }

  lemma DeadStep(st: State, a: Action)
    requires Inv(st) && Enabled(st, a) && Step(st, a).Next?
    ensures DeadStay(st, Step(st, a).st)
  {
    hide RunInv, ReadyInv, WaitInv, IdleInv, DyingInv, WakeInv, CountInv, LockInv, CondsInv, ChildInv, PcInv, DeadStay;
    hide TryUp, TryDown, TrySchedule, GoOn, Exit, TryPop, Requeue;
    match a
    case Continue => DeadGoOn(st);
    case Yield => DeadYield(st);
    case ThreadExit => DeadExit(st);
    case SemaUp(n) => DeadUp(st, Plain(n), st);
    case InterruptUp(n) => DeadUp(st, Plain(n), st);
    case SemaDown(n) => DeadCallDown(st, Plain(n), Free);
    case LockAcquire(l) => DeadCallDown(st, OfLock(l), TakeLock(l));
    case ProcessWait(c) =>
      if c in st.children[st.cur] {
        DeadCallDown(st, OfExit(c), Collect(c));
      } else {
        DeadSame(st, a);
      }
    case _ => DeadSame(st, a);
  }

  lemma DeadCallDown(st: State, s: SemaId, next: Pc)
    requires Core(st, true) && PcInv(st) && st.pc[st.cur].Free? && TryDown(st, s, next).Next?
    ensures DeadStay(st, TryDown(st, s, next).st)
  {
    FreeNotIdle(st);
    DeadDown(st, s, next);
  }

  lemma DeadSame(st: State, a: Action)
    requires Enabled(st, a) && Step(st, a).Next?
    requires !a.Continue? && !a.Yield? && !a.ThreadExit? && !a.SemaUp? && !a.InterruptUp? && !a.SemaDown? && !a.LockAcquire?
    requires a.ProcessWait? ==> a.c !in st.children[st.cur]
    ensures DeadStay(st, Step(st, a).st)
  {
  }

  /** Once dead, a thread never runs, waits or gets ready again. */
  lemma {:induction false} DeadForever(st: State, acts: seq<Action>, st': State, t: Tid)
    requires Inv(st) && Reaches(st, acts, Next(st')) && t < |st.status| && st.status[t].Dying?
    ensures t < |st'.status| && st'.status[t].Dying? && t != st'.cur
    decreases |acts|
  {
    hide Step, Enabled, WakeInv, CountInv, PcInv, LockInv, CondsInv, ChildInv;
    if acts != [] {
      StepInv(st, acts[0]);
      DeadStep(st, acts[0]);
      DeadForever(Step(st, acts[0]).st, acts[1..], st', t);
    }
  }
}
