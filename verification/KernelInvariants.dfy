/** The invariant of the whole thread system: the scheduler part together with what locks,
    condition variables and the exit/wait handshake add to it. */
module KernelInvariants {
  import opened Common
  import opened ThreadModel
  import opened SchedulerProof

  // ----- program counters -----

  /** The continuation of a `sema_down` fits the semaphore. */
  predicate DownOk(st: State, t: Tid, s: SemaId, next: Pc) {
    && s in st.semas
    && match s
       case Plain(_) => next.Free?
       case OfLock(l) => l in st.locks && next == TakeLock(l)
       case OfWaiter(u) =>
         && u == t && next.StartDown? && next.s.OfLock? && next.s in st.semas
         && next.s.l in st.locks && next.next == TakeLock(next.s.l)
       case OfExit(c) => c < |st.status| && next == Collect(c)
  }

  /** `lock_release` returns to the caller, or into `cond_wait`. */
  predicate AfterRelease(st: State, t: Tid, l: nat, next: Pc) {
    next.Free? || (next == WaitThenRelock(t, l) && OfWaiter(t) in st.semas && OfLock(l) in st.semas)
  }

  predicate PcOk(st: State, t: Tid, pc: Pc) {
    match pc
    case Recheck(s, next) => DownOk(st, t, s, next)
    case StartDown(s, next) => DownOk(st, t, s, next)
    case TakeLock(l) => l in st.locks
    case Releasing(l, next) => l in st.locks && AfterRelease(st, t, l, next)
    case DropLock(l, next) => l in st.locks && AfterRelease(st, t, l, next)
    case SignalUp(w, next) => w < |st.status| && (next.Free? || (next.Broadcast? && next.c in st.conds))
    case Broadcast(c) => c in st.conds
    case Collect(c) => c < |st.status|
    case _ => true
  }

  /** Only the idle thread runs the idle loop, and it runs nothing else. */
  predicate IsIdlePc(pc: Pc) { pc.IdleBoot? || pc.IdleUp? || pc.IdleLoop? }

  ghost predicate PcInv(st: State)
    requires Wf(st)
  {
    forall t {:trigger st.pc[t]} :: 0 <= t < |st.pc| ==>
      PcOk(st, t, st.pc[t]) && (t == IDLE <==> IsIdlePc(st.pc[t]))
  }

  // ----- locks -----

  predicate AtLock(pc: Pc, l: nat) { pc == TakeLock(l) || (pc.DropLock? && pc.l == l) }

  /** The lock that a thread has yet to acquire in the call it is in. */
  function Wanted(pc: Pc): Option<nat> {
    if (pc.Recheck? || pc.StartDown?) && pc.s.OfLock? then Some(pc.s.l)
    else if (pc.Recheck? || pc.StartDown?) && pc.s.OfWaiter? && pc.next.StartDown? && pc.next.s.OfLock?
      then Some(pc.next.s.l)
    else None
  }

  /** What the position of thread t says about locks. */
  ghost predicate LockPc(st: State, t: Tid)
    requires t < |st.pc|
  {
    var pc := st.pc[t];
    && (pc.TakeLock? || pc.DropLock? ==> pc.l in st.locks && st.locks[pc.l] == Lock(None, Some(t)))
    && (pc.Releasing? ==> pc.l in st.locks && st.locks[pc.l].holder == Some(t))
    && (Wanted(pc).Some? && Wanted(pc).value in st.locks ==> st.locks[Wanted(pc).value].holder != Some(t))
    && (pc.Broadcast? ==> HoldsFor(st, t, pc.c))
    && (pc.SignalUp? && pc.next.Broadcast? ==> HoldsFor(st, t, pc.next.c))
  }

  predicate HoldsFor(st: State, t: Tid, c: nat) {
    c in st.conds && st.conds[c].lock in st.locks && st.locks[st.conds[c].lock].holder == Some(t)
  }

  /** The semaphore of a lock is 1 exactly when no thread is between its down and its up; a
      holder is that thread, and that thread is the holder except at the two ends. */
  ghost predicate LockOk(st: State, l: nat)
    requires l in st.locks
  {
    var x := st.locks[l];
    && OfLock(l) in st.semas
    && st.semas[OfLock(l)].value == (if x.owner.None? then 1 else 0)
    && (x.holder.Some? ==> x.holder == x.owner)
    && (x.owner.Some? ==> x.owner.value < |st.pc| && (x.holder == x.owner || AtLock(st.pc[x.owner.value], l)))
  }

  ghost predicate LockInv(st: State)
    requires Wf(st)
  {
    && (forall l {:trigger st.locks[l]} :: l in st.locks ==> LockOk(st, l))
    && (forall l {:trigger OfLock(l) in st.semas} :: OfLock(l) in st.semas ==> l in st.locks)
    && (forall t {:trigger st.pc[t]} :: 0 <= t < |st.pc| ==> LockPc(st, t))
  }

  // ----- condition variables -----

  /** In `cond_wait`, after joining the waiters and before passing the waiter's semaphore. */
  predicate InWait(pc: Pc) {
    || ((pc.Releasing? || pc.DropLock?) && !pc.next.Free?)
    || ((pc.Recheck? || pc.StartDown?) && pc.s.OfWaiter?)
  }

  /** Each wait is queued, or popped by a signaller, or signalled: exactly one of them. */
  ghost predicate PhaseOk(st: State, t: Tid)
    requires Wf(st) && t < |st.pc|
  {
    && (st.phase[t].NotWaiting? <==> !InWait(st.pc[t]))
    && (InWait(st.pc[t]) ==>
          && OfWaiter(t) in st.semas
          && st.semas[OfWaiter(t)].value == if st.phase[t].Signalled? then 1 else 0)
    && (st.phase[t].Queued? ==> st.phase[t].c in st.conds && t in st.conds[st.phase[t].c].waiters)
    && (st.phase[t].Popped? ==>
          && st.phase[t].signaller < |st.pc|
          && st.pc[st.phase[t].signaller].SignalUp? && st.pc[st.phase[t].signaller].w == t)
    && (st.pc[t].SignalUp? ==> st.pc[t].w < |st.phase| && st.phase[st.pc[t].w] == Popped(t))
  }

  ghost predicate CondOk(st: State, c: nat)
    requires Wf(st) && c in st.conds
  {
    && st.conds[c].lock in st.locks
    && NoDup(st.conds[c].waiters)
    && (forall t {:trigger t in st.conds[c].waiters} :: t in st.conds[c].waiters ==>
          t < |st.phase| && st.phase[t] == Queued(c))
  }

  ghost predicate CondsInv(st: State)
    requires Wf(st)
  {
    && (forall t {:trigger st.phase[t]} :: 0 <= t < |st.phase| ==> PhaseOk(st, t))
    && (forall c {:trigger st.conds[c]} :: c in st.conds ==> CondOk(st, c))
  }

  // ----- exit and wait -----

  /** Any thread but the initial one: on its parent's list until it is freed,
      its semaphore raised once, when it dies, and lowered once, by its parent. */
  ghost predicate ChildOk(st: State, c: Tid)
    requires Wf(st) && c < |st.status|
  {
    && st.parent[c] < |st.status|
    && OfExit(c) in st.semas
    && st.semas[OfExit(c)].init == 0
    && st.semas[OfExit(c)].ups == (if st.status[c].Dying? then 1 else 0)
    && st.semas[OfExit(c)].downs == (if c in st.freed || st.pc[st.parent[c]] == Collect(c) then 1 else 0)
    && (c in st.freed ==> st.status[c].Dying?)
    && (c in st.freed <==> c !in st.children[st.parent[c]])
  }

  ghost predicate ParentOk(st: State, p: Tid)
    requires Wf(st) && p < |st.status|
  {
    && NoDup(st.children[p])
    && (forall c {:trigger c in st.children[p]} :: c in st.children[p] ==>
          0 < c < |st.status| && st.parent[c] == p)
    && (st.pc[p].Collect? ==> st.pc[p].c in st.children[p])
    && ((st.pc[p].Recheck? || st.pc[p].StartDown?) && st.pc[p].s.OfExit? ==> st.pc[p].s.t in st.children[p])
  }

  /** A collected status is the one that a child of the collector, now freed, has left. */
  predicate EntryOk(st: State, e: WaitResult)
    requires Wf(st)
  {
    e.Collected? ==>
      && 0 < e.child < |st.status| && e.child in st.freed
      && e.parent == st.parent[e.child] && e.status == st.exitStatus[e.child]
  }

  ghost predicate CollectedOnce(log: seq<WaitResult>) {
    forall i, j :: 0 <= i < j < |log| && log[i].Collected? && log[j].Collected? ==> log[i].child != log[j].child
  }

  ghost predicate WasCollected(log: seq<WaitResult>, c: Tid) {
    exists i :: 0 <= i < |log| && log[i].Collected? && log[i].child == c
  }

  ghost predicate LogInv(st: State)
    requires Wf(st)
  {
    && (forall e {:trigger e in st.log} :: e in st.log ==> EntryOk(st, e)) && CollectedOnce(st.log)
    && (forall c {:trigger c in st.freed} :: c in st.freed ==> WasCollected(st.log, c))
  }

  ghost predicate ChildInv(st: State)
    requires Wf(st)
  {
    && (forall c {:trigger st.parent[c]} :: 0 < c < |st.parent| ==> ChildOk(st, c))
    && (forall p {:trigger st.children[p]} :: 0 <= p < |st.children| ==> ParentOk(st, p))
    && (forall c {:trigger c in st.freed} :: c in st.freed ==> 0 < c < |st.status|)
    && LogInv(st)
  }

  // ----- everything -----

  ghost predicate Inv(st: State) {
    && Core(st, true) && WakeInv(st) && CountInv(st) && PcInv(st)
    && LockInv(st) && CondsInv(st) && ChildInv(st)
  }
}
