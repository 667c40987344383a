/** Threads, semaphores, locks, condition variables and the exit/wait handshake
    (threads/thread.c, threads/synch.c, userprog/process.c) as a state machine.

    An atomic step is a section that the kernel runs with interrupts off, or one that only
    touches data of the running thread or data guarded by a lock it holds.  Between two steps
    a timer interrupt may preempt the running thread, except while it is in the `while` loop
    of `sema_down`, which it re-enters with interrupts off. */
module ThreadModel {
  import opened Common

  type Tid = nat

  datatype Status = Running | Ready | Blocked | Dying

  /** A semaphore by itself, or the one inside a lock, inside the `semaphore_elem` of a thread
      that waits on a condition variable, or inside a thread for its parent to wait on. */
  datatype SemaId = Plain(n: nat) | OfLock(l: nat) | OfWaiter(t: Tid) | OfExit(t: Tid)

  /** `init`, `ups` and `downs` record the history: initial value, completed ups and downs. */
  datatype Sema = Sema(value: nat, waiters: seq<Tid>, init: nat, ups: nat, downs: nat)

  /** `holder` is the C field.  `owner` records the thread between the completed `sema_down`
      on the lock's semaphore and the `sema_up` that gives it back. */
  datatype Lock = Lock(holder: Option<Tid>, owner: Option<Tid>)

  /** A condition variable with its one associated lock; each waiter is named by the thread
      on whose stack its `semaphore_elem` lies. */
  datatype Cond = Cond(lock: nat, waiters: seq<Tid>)

  /** How far the `cond_wait` of a thread has got, as a record of history. */
  datatype Phase = NotWaiting | Queued(c: nat) | Popped(signaller: Tid) | Signalled

  /** Where a thread is inside the kernel. */
  datatype Pc =
    | Free                            // between kernel calls
    | Recheck(s: SemaId, next: Pc)    // in the loop of sema_down
    | StartDown(s: SemaId, next: Pc)  // about to call sema_down
    | TakeLock(l: nat)                // sema_down in lock_acquire has returned
    | Releasing(l: nat, next: Pc)     // at the start of lock_release
    | DropLock(l: nat, next: Pc)      // holder cleared, about to call sema_up
    | SignalUp(w: Tid, next: Pc)      // cond_signal has popped w, about to call sema_up
    | Broadcast(c: nat)               // at the loop head of cond_broadcast
    | Collect(c: Tid)                 // sema_down in process_wait has returned
    | IdleBoot | IdleUp | IdleLoop    // the idle thread

  /** Results of `process_wait`: the status of a child, or -1 without waiting. */
  datatype WaitResult = Collected(parent: Tid, child: Tid, status: int) | Refused(parent: Tid, child: Tid)

  /** Per-thread fields are sequences indexed by thread number; thread 0 is the initial thread
      and thread 1 the idle thread. */
  datatype State = State(
    status: seq<Status>,
    pc: seq<Pc>,
    phase: seq<Phase>,
    parent: seq<Tid>,
    children: seq<seq<Tid>>,
    exitStatus: seq<int>,
    ready: seq<Tid>,
    cur: Tid,
    idle: Option<Tid>,
    semas: map<SemaId, Sema>,
    locks: map<nat, Lock>,
    conds: map<nat, Cond>,
    freed: set<Tid>,
    log: seq<WaitResult>)

  const MAIN: Tid := 0
  const IDLE: Tid := 1
  const IDLE_STARTED: SemaId := Plain(0)

  function InitSema(v: nat): Sema { Sema(v, [], v, 0, 0) }

  /** After `thread_init` and the `thread_create` in `thread_start`. */
  function Boot(): State {
    State([Running, Ready], [Free, IdleBoot], [NotWaiting, NotWaiting], [MAIN, MAIN], [[IDLE], []], [0, 0],
          [IDLE], MAIN, None,
          map[IDLE_STARTED := InitSema(0), OfExit(MAIN) := InitSema(0), OfExit(IDLE) := InitSema(0)],
          map[], map[], {}, [])
  }

  predicate Wf(st: State) {
    && 2 <= |st.status| == |st.pc| == |st.phase| == |st.parent| == |st.children| == |st.exitStatus|
    && st.cur < |st.status|
    && (st.idle.Some? ==> st.idle.value == IDLE)
  }

  // ----- thread.c -----

  /** The assertion of `schedule` that there is a thread to run next. */
  predicate CanSchedule(st: State) {
    && Wf(st) && (st.ready != [] || st.idle.Some?)
    && (st.ready != [] ==> st.ready[0] < |st.status|)
  }

  /** `schedule` with `next_thread_to_run` and `thread_schedule_tail`. */
  function Schedule(st: State): State
    requires CanSchedule(st)
  {
    if st.ready == [] then
      st.(cur := IDLE, status := st.status[IDLE := Running])
    else
      st.(ready := st.ready[1..], cur := st.ready[0], status := st.status[st.ready[0] := Running])
  }

  function SetStatus(st: State, x: Status): State
    requires Wf(st)
  {
    st.(status := st.status[st.cur := x])
  }

  function SetPc(st: State, pc: Pc): State
    requires Wf(st)
  {
    st.(pc := st.pc[st.cur := pc])
  }

  /** `thread_unblock`. */
  function Unblock(st: State, t: Tid): State
    requires Wf(st) && t < |st.status|
  {
    st.(ready := st.ready + [t], status := st.status[t := Ready])
  }

  /** `thread_yield` up to the call of `schedule`. */
  function Requeue(st: State): State
    requires Wf(st)
  {
    var st' := if st.idle == Some(st.cur) then st else st.(ready := st.ready + [st.cur]);
    SetStatus(st', Ready)
  }

  // ----- synch.c -----

  function OwnerAfterDown(locks: map<nat, Lock>, s: SemaId, t: Tid): map<nat, Lock> {
    if s.OfLock? && s.l in locks then locks[s.l := locks[s.l].(owner := Some(t))] else locks
  }

  function OwnerAfterUp(locks: map<nat, Lock>, s: SemaId): map<nat, Lock> {
    if s.OfLock? && s.l in locks then locks[s.l := locks[s.l].(owner := None)] else locks
  }

  /** `sema_down` finds a positive value. */
  function Take(st: State, s: SemaId, next: Pc): State
    requires Wf(st) && s in st.semas && st.semas[s].value > 0
  {
    var x := st.semas[s];
    st.(semas := st.semas[s := x.(value := x.value - 1, downs := x.downs + 1)],
        locks := OwnerAfterDown(st.locks, s, st.cur),
        phase := if s == OfWaiter(st.cur) then st.phase[st.cur := NotWaiting] else st.phase,
        pc := st.pc[st.cur := next])
  }

  /** `sema_down` finds value 0: the thread queues itself; `schedule` follows. */
  function Sleep(st: State, s: SemaId, next: Pc): State
    requires Wf(st) && s in st.semas
  {
    var x := st.semas[s];
    st.(semas := st.semas[s := x.(waiters := x.waiters + [st.cur])],
        status := st.status[st.cur := Blocked],
        pc := st.pc[st.cur := Recheck(s, next)])
  }

  /** The assertion of `thread_unblock` that the thread to wake is blocked. */
  predicate CanUp(st: State, s: SemaId) {
    && Wf(st) && s in st.semas
    && var w := st.semas[s].waiters;
       w != [] ==> w[0] < |st.status| && st.status[w[0]].Blocked?
  }

  /** `sema_up`. */
  function Up(st: State, s: SemaId): State
    requires CanUp(st, s)
  {
    var x := st.semas[s];
    var st' := st.(locks := OwnerAfterUp(st.locks, s));
    if x.waiters == [] then
      st'.(semas := st.semas[s := x.(value := x.value + 1, ups := x.ups + 1)])
    else
      Unblock(st'.(semas := st.semas[s := x.(value := x.value + 1, ups := x.ups + 1, waiters := x.waiters[1..])]),
              x.waiters[0])
  }

  predicate Holds(st: State, l: nat) {
    l in st.locks && st.locks[l].holder == Some(st.cur)
  }

  function SetHolder(st: State, l: nat, h: Option<Tid>): State
    requires l in st.locks
  {
    st.(locks := st.locks[l := st.locks[l].(holder := h)])
  }

  /** What `cond_wait` still has to do after releasing lock l. */
  function WaitThenRelock(t: Tid, l: nat): Pc {
    StartDown(OfWaiter(t), StartDown(OfLock(l), TakeLock(l)))
  }

  /** `cond_wait` up to the call of `lock_release`. */
  function JoinCond(st: State, c: nat): State
    requires Wf(st) && c in st.conds
  {
    var x := st.conds[c];
    st.(semas := st.semas[OfWaiter(st.cur) := InitSema(0)],
        conds := st.conds[c := x.(waiters := x.waiters + [st.cur])],
        phase := st.phase[st.cur := Queued(c)],
        pc := st.pc[st.cur := Releasing(x.lock, WaitThenRelock(st.cur, x.lock))])
  }

  predicate CanPop(st: State, c: nat) {
    Wf(st) && c in st.conds && (st.conds[c].waiters != [] ==> st.conds[c].waiters[0] < |st.status|)
  }

  /** `cond_signal` up to the call of `sema_up`. */
  function PopCond(st: State, c: nat, next: Pc): State
    requires CanPop(st, c)
  {
    var x := st.conds[c];
    if x.waiters == [] then SetPc(st, Free)
    else
      st.(conds := st.conds[c := x.(waiters := x.waiters[1..])],
          phase := st.phase[x.waiters[0] := Popped(st.cur)],
          pc := st.pc[st.cur := SignalUp(x.waiters[0], next)])
  }

  // ----- process.c -----

  /** `thread_create`, called by the running thread. */
  function Create(st: State): State
    requires Wf(st)
  {
    var t := |st.status|;
    st.(status := st.status + [Ready],
        pc := st.pc + [Free],
        phase := st.phase + [NotWaiting],
        parent := st.parent + [st.cur],
        children := st.children[st.cur := st.children[st.cur] + [t]] + [[]],
        exitStatus := st.exitStatus + [0],
        ready := st.ready + [t],
        semas := st.semas[OfExit(t) := InitSema(0)])
  }

  function Without(s: seq<Tid>, x: Tid): seq<Tid> {
    if s == [] then [] else if s[0] == x then s[1..] else [s[0]] + Without(s[1..], x)
  }

  /** `process_wait` after its `sema_down`: read the status, unlink the child, free its page. */
  function Reap(st: State, c: Tid): State
    requires Wf(st) && c < |st.status|
  {
    st.(log := st.log + [Collected(st.cur, c, st.exitStatus[c])],
        children := st.children[st.cur := Without(st.children[st.cur], c)],
        freed := st.freed + {c},
        pc := st.pc[st.cur := Free])
  }

  // ----- steps -----

  datatype Action =
    | SemaInit(n: nat, v: nat) | LockInit(l: nat) | CondInit(c: nat, l: nat)
    | SemaDown(n: nat) | SemaTryDown(n: nat) | SemaUp(n: nat)
    | LockAcquire(l: nat) | LockTryAcquire(l: nat) | LockRelease(l: nat)
    | CondWait(c: nat) | CondSignal(c: nat) | CondBroadcast(c: nat)
    | ThreadCreate | SetExitStatus(code: int) | ThreadExit | ProcessWait(c: Tid)
    | Continue        // the running thread goes on with the kernel call it is in
    | Yield           // thread_yield, called or forced by the timer interrupt
    | InterruptUp(n: nat)  // sema_up called by an interrupt handler

  /** What callers must respect: kernel calls are made by a thread that is not inside another
      one, objects are initialised once, and the assertions on lock holders. */
  predicate Enabled(st: State, a: Action) {
    && Wf(st)
    && match a
       case SemaInit(n, v) => st.pc[st.cur].Free? && Plain(n) !in st.semas
       case LockInit(l) => st.pc[st.cur].Free? && l !in st.locks
       case CondInit(c, l) => st.pc[st.cur].Free? && c !in st.conds && l in st.locks
       case SemaDown(n) => st.pc[st.cur].Free? && Plain(n) in st.semas
       case SemaTryDown(n) => st.pc[st.cur].Free? && Plain(n) in st.semas
       case SemaUp(n) => st.pc[st.cur].Free? && Plain(n) in st.semas
       case LockAcquire(l) => st.pc[st.cur].Free? && l in st.locks && !Holds(st, l)
       case LockTryAcquire(l) => st.pc[st.cur].Free? && l in st.locks && !Holds(st, l)
       case LockRelease(l) => st.pc[st.cur].Free? && Holds(st, l)
       case CondWait(c) => st.pc[st.cur].Free? && c in st.conds && Holds(st, st.conds[c].lock)
       case CondSignal(c) => st.pc[st.cur].Free? && c in st.conds && Holds(st, st.conds[c].lock)
       case CondBroadcast(c) => st.pc[st.cur].Free? && c in st.conds && Holds(st, st.conds[c].lock)
       case ThreadCreate => st.pc[st.cur].Free?
       case SetExitStatus(_) => st.pc[st.cur].Free?
       case ThreadExit => st.pc[st.cur].Free?
       case ProcessWait(c) => st.pc[st.cur].Free?
       case Continue => !st.pc[st.cur].Free?
       case Yield => !st.pc[st.cur].Recheck?
       case InterruptUp(n) => !st.pc[st.cur].Recheck? && Plain(n) in st.semas
  }

  /** A step ends in a state, or in the panic of a failed assertion of the kernel. */
  datatype Outcome = Next(st: State) | Panic

  /** One evaluation of the loop condition of `sema_down`, and what follows it. */
  function TryDown(st: State, s: SemaId, next: Pc): Outcome
    requires Wf(st)
  {
    if s !in st.semas then Panic
    else if st.semas[s].value > 0 then Next(Take(st, s, next))
    else TrySchedule(Sleep(st, s, next))
  }

  function TryUp(st: State, s: SemaId): Outcome {
    if CanUp(st, s) then Next(Up(st, s)) else Panic
  }

  function TrySchedule(st: State): Outcome {
    if CanSchedule(st) then Next(Schedule(st)) else Panic
  }

  function TryPop(st: State, c: nat, next: Pc): Outcome {
    if !CanPop(st, c) || !Holds(st, st.conds[c].lock) then Panic else Next(PopCond(st, c, next))
  }

  /** The running thread goes on with the kernel call it is in. */
  function GoOn(st: State): Outcome
    requires Wf(st)
  {
    match st.pc[st.cur]
    case Free => Next(st)
    case Recheck(s, next) => TryDown(st, s, next)
    case StartDown(s, next) =>
      if s.OfLock? && Holds(st, s.l) then Panic else TryDown(st, s, next)
    case TakeLock(l) =>
      if l in st.locks then Next(SetPc(SetHolder(st, l, Some(st.cur)), Free)) else Panic
    case Releasing(l, next) =>
      if Holds(st, l) then Next(SetPc(SetHolder(st, l, None), DropLock(l, next))) else Panic
    case DropLock(l, next) => TryUp(SetPc(st, next), OfLock(l))
    case SignalUp(w, next) =>
      if w < |st.phase| then TryUp(SetPc(st.(phase := st.phase[w := Signalled]), next), OfWaiter(w)) else Panic
    case Broadcast(c) =>
      if c in st.conds && st.conds[c].waiters == [] then Next(SetPc(st, Free)) else TryPop(st, c, Broadcast(c))
    case Collect(c) => if c < |st.status| then Next(Reap(st, c)) else Panic
    case IdleBoot => if st.cur == IDLE then Next(SetPc(st, IdleUp).(idle := Some(st.cur))) else Panic
    case IdleUp => TryUp(SetPc(st, IdleLoop), IDLE_STARTED)
    case IdleLoop => TrySchedule(SetStatus(st, Blocked))
  }

  /** `thread_exit` after `process_exit`: wake the parent, die, switch away. */
  function Exit(st: State): Outcome
    requires Wf(st)
  {
    var up := if st.cur == MAIN then Next(st) else TryUp(st, OfExit(st.cur));
    match up
    case Panic => Panic
    case Next(st') => if Wf(st') then TrySchedule(SetStatus(st', Dying)) else Panic
  }

  function Step(st: State, a: Action): Outcome
    requires Enabled(st, a)
  {
    if !st.status[st.cur].Running? then Panic  // thread_current
    else match a
    case SemaInit(n, v) => Next(st.(semas := st.semas[Plain(n) := InitSema(v)]))
    case LockInit(l) =>
      Next(st.(locks := st.locks[l := Lock(None, None)], semas := st.semas[OfLock(l) := InitSema(1)]))
    case CondInit(c, l) => Next(st.(conds := st.conds[c := Cond(l, [])]))
    case SemaDown(n) => TryDown(st, Plain(n), Free)
    case SemaTryDown(n) => Next(if st.semas[Plain(n)].value > 0 then Take(st, Plain(n), Free) else st)
    case SemaUp(n) => TryUp(st, Plain(n))
    case LockAcquire(l) => TryDown(st, OfLock(l), TakeLock(l))
    case LockTryAcquire(l) =>
      if OfLock(l) !in st.semas then Panic
      else Next(if st.semas[OfLock(l)].value > 0 then Take(st, OfLock(l), TakeLock(l)) else st)
    case LockRelease(l) => Next(SetPc(st, Releasing(l, Free)))
    case CondWait(c) => Next(JoinCond(st, c))
    case CondSignal(c) => TryPop(st, c, Free)
    case CondBroadcast(c) => Next(SetPc(st, Broadcast(c)))
    case ThreadCreate => Next(Create(st))
    case SetExitStatus(code) => Next(st.(exitStatus := st.exitStatus[st.cur := code]))
    case ThreadExit => Exit(st)
    case ProcessWait(c) =>
      if c in st.children[st.cur] then TryDown(st, OfExit(c), Collect(c))
      else Next(st.(log := st.log + [Refused(st.cur, c)]))
    case Continue => GoOn(st)
    case Yield => TrySchedule(Requeue(st))
    case InterruptUp(n) => TryUp(st, Plain(n))
  }

  /** Runs a sequence of actions; a disabled action ends the run. */
  ghost predicate Reaches(st: State, acts: seq<Action>, r: Outcome)
    decreases |acts|
  {
    if acts == [] then r == Next(st)
    else
      && Enabled(st, acts[0])
      && match Step(st, acts[0])
         case Panic => r == Panic
         case Next(st') => Reaches(st', acts[1..], r)
  }
}
