/** What every kernel call does, whatever comes between its steps: the events of a call, over any
    interleaving with other threads and interrupts, are exactly those of its C text, in order. */
module KernelCalls {
  import opened Common
  import opened ThreadModel
  import opened SchedulerProof
  import opened KernelInvariants
  import opened KernelFrames
  import opened KernelCore
  import opened KernelRuns

  /** What a thread can do to semaphores, locks, condition variables, threads and their statuses. */
  datatype Event =
    | Lower(s: SemaId) | Raise(s: SemaId)
    | Hold(l: nat) | LetGo(l: nat)
    | Join(c: nat) | Pop(c: nat, w: Tid)
    | Fetch(c: Tid) | Refuse(c: Tid)
    | MakeSema(n: nat, v: nat) | MakeLock(l: nat) | MakeCond(c: nat, l: nat)
    | Spawn(t: Tid) | SetCode(code: int) | Die

  // ----- what an event changes -----

  /** Two semaphores with the same value and the same history. */
  predicate SameCounts(x: Sema, y: Sema) {
    x.value == y.value && x.init == y.init && x.ups == y.ups && x.downs == y.downs
  }

  /** Outside `but` the semaphores are the same, their lists of waiters aside. */
  ghost predicate SemasBut(st: State, st': State, but: set<SemaId>) {
    forall s {:trigger s in st.semas} {:trigger s in st'.semas} :: s !in but ==>
      (s in st.semas <==> s in st'.semas) && (s in st.semas ==> SameCounts(st'.semas[s], st.semas[s]))
  }

  ghost predicate HoldersBut(st: State, st': State, but: set<nat>) {
    forall l {:trigger l in st.locks} {:trigger l in st'.locks} :: l !in but ==>
      (l in st.locks <==> l in st'.locks) && (l in st.locks ==> st'.locks[l].holder == st.locks[l].holder)
  }

  ghost predicate CondsBut(st: State, st': State, but: set<nat>) {
    forall c {:trigger c in st.conds} {:trigger c in st'.conds} :: c !in but ==>
      (c in st.conds <==> c in st'.conds) && (c in st.conds ==> st'.conds[c] == st.conds[c])
  }

  predicate SameKin(st: State, st': State) {
    && st'.parent == st.parent && st'.children == st.children && st'.exitStatus == st.exitStatus
    && st'.freed == st.freed && st'.log == st.log
  }

  /** Between the two states thread t has done this event, and nothing else has happened to these things. */
  ghost predicate Did(st: State, st': State, t: Tid, d: Option<Event>) {
    match d
    case None => SemasBut(st, st', {}) && HoldersBut(st, st', {}) && CondsBut(st, st', {}) && SameKin(st, st')
    case Some(e) => DidEvent(st, st', t, e)
  }

  ghost predicate DidEvent(st: State, st': State, t: Tid, e: Event) {
    match e
    case Lower(s) =>
      && SemasBut(st, st', {s}) && HoldersBut(st, st', {}) && CondsBut(st, st', {}) && SameKin(st, st')
      && s in st.semas && s in st'.semas && st.semas[s].value > 0
      && SameCounts(st'.semas[s], st.semas[s].(value := st.semas[s].value - 1, downs := st.semas[s].downs + 1))
    case Raise(s) =>
      && SemasBut(st, st', {s}) && HoldersBut(st, st', {}) && CondsBut(st, st', {}) && SameKin(st, st') && Raised(st, st', s)
    case Hold(l) =>
      && SemasBut(st, st', {}) && HoldersBut(st, st', {l}) && CondsBut(st, st', {}) && SameKin(st, st')
      && l in st.locks && l in st'.locks && st.locks[l].holder.None? && st'.locks[l].holder == Some(t)
    case LetGo(l) =>
      && SemasBut(st, st', {}) && HoldersBut(st, st', {l}) && CondsBut(st, st', {}) && SameKin(st, st')
      && l in st.locks && l in st'.locks && st.locks[l].holder == Some(t) && st'.locks[l].holder.None?
    case Join(c) =>
      && SemasBut(st, st', {OfWaiter(t)}) && HoldersBut(st, st', {}) && CondsBut(st, st', {c}) && SameKin(st, st')
      && OfWaiter(t) in st'.semas && st'.semas[OfWaiter(t)] == InitSema(0)
      && c in st.conds && c in st'.conds && st'.conds[c] == Cond(st.conds[c].lock, st.conds[c].waiters + [t])
    case Pop(c, w) =>
      && SemasBut(st, st', {}) && HoldersBut(st, st', {}) && CondsBut(st, st', {c}) && SameKin(st, st')
      && c in st.conds && c in st'.conds && st.conds[c].lock == st'.conds[c].lock
      && st.conds[c].waiters == [w] + st'.conds[c].waiters
    case Fetch(c) =>
      && SemasBut(st, st', {}) && HoldersBut(st, st', {}) && CondsBut(st, st', {})
      && c < |st.exitStatus| && t < |st.children| && st'.log == st.log + [Collected(t, c, st.exitStatus[c])]
      && st'.freed == st.freed + {c} && st'.parent == st.parent && st'.exitStatus == st.exitStatus
      && c in st.children[t] && Removed(st, st', t, c)
    case Refuse(c) =>
      && SemasBut(st, st', {}) && HoldersBut(st, st', {}) && CondsBut(st, st', {})
      && SameKin(st, st'.(log := st.log)) && st'.log == st.log + [Refused(t, c)]
    case MakeSema(n, v) =>
      && SemasBut(st, st', {Plain(n)}) && HoldersBut(st, st', {}) && CondsBut(st, st', {}) && SameKin(st, st')
      && Plain(n) in st'.semas && st'.semas[Plain(n)] == InitSema(v)
    case MakeLock(l) =>
      && SemasBut(st, st', {OfLock(l)}) && HoldersBut(st, st', {l}) && CondsBut(st, st', {}) && SameKin(st, st')
      && OfLock(l) in st'.semas && st'.semas[OfLock(l)] == InitSema(1) && l in st'.locks && st'.locks[l].holder.None?
    case MakeCond(c, l) =>
      && SemasBut(st, st', {}) && HoldersBut(st, st', {}) && CondsBut(st, st', {c}) && SameKin(st, st')
      && c in st'.conds && st'.conds[c] == Cond(l, [])
    case Spawn(u) =>
      && SemasBut(st, st', {OfExit(u)}) && HoldersBut(st, st', {}) && CondsBut(st, st', {})
      && u == |st.status| && st'.status == st.status + [Ready] && OfExit(u) in st'.semas && st'.semas[OfExit(u)] == InitSema(0)
      && st'.parent == st.parent + [t] && st'.exitStatus == st.exitStatus + [0] && st'.freed == st.freed && st'.log == st.log
      && t < |st.children| && st'.children == st.children[t := st.children[t] + [u]] + [[]]
    case SetCode(code) =>
      && SemasBut(st, st', {}) && HoldersBut(st, st', {}) && CondsBut(st, st', {})
      && SameKin(st, st'.(exitStatus := st.exitStatus)) && t < |st.exitStatus| && st'.exitStatus == st.exitStatus[t := code]
    case Die =>
      && SemasBut(st, st', {OfExit(t)}) && HoldersBut(st, st', {}) && CondsBut(st, st', {}) && SameKin(st, st')
      && t < |st'.status| && st'.status[t].Dying? && (t != MAIN ==> Raised(st, st', OfExit(t)))
  }

  ghost predicate Raised(st: State, st': State, s: SemaId) {
    && s in st.semas && s in st'.semas
    && SameCounts(st'.semas[s], st.semas[s].(value := st.semas[s].value + 1, ups := st.semas[s].ups + 1))
  }

  /** Thread c has left the list of children of t, and the other lists and the order are as they were. */
  ghost predicate Removed(st: State, st': State, t: Tid, c: Tid)
    requires t < |st.children|
  {
    && |st'.children| == |st.children| && c !in st'.children[t]
    && (forall p {:trigger st'.children[p]} :: 0 <= p < |st.children| && p != t ==> st'.children[p] == st.children[p])
    && exists i :: 0 <= i < |st.children[t]| && st.children[t][i] == c && st'.children[t] == st.children[t][..i] + st.children[t][i + 1..]
  }

  // ----- what a call owes -----

  /** Each waiter is taken off the list and raised. */
  ghost function Wakeups(c: nat, ws: seq<Tid>): seq<Event> {
    if ws == [] then [] else [Pop(c, ws[0]), Raise(OfWaiter(ws[0]))] + Wakeups(c, ws[1..])
  }

  /** What a thread at this point of a call has still to do. */
  ghost function Todo(st: State, pc: Pc): seq<Event>
    decreases pc
  {
    match pc
    case Free => []
    case Recheck(s, next) => [Lower(s)] + Todo(st, next)
    case StartDown(s, next) => [Lower(s)] + Todo(st, next)
    case TakeLock(l) => [Hold(l)]
    case Releasing(l, next) => [LetGo(l), Raise(OfLock(l))] + Todo(st, next)
    case DropLock(l, next) => [Raise(OfLock(l))] + Todo(st, next)
    case SignalUp(w, next) => [Raise(OfWaiter(w))] + Todo(st, next)
    case Broadcast(c) => if c in st.conds then Wakeups(c, st.conds[c].waiters) else []
    case Collect(c) => [Fetch(c)]
    case IdleBoot => [Raise(IDLE_STARTED)]
    case IdleUp => [Raise(IDLE_STARTED)]
    case IdleLoop => []
  }

  predicate IsCall(a: Action) { !a.Continue? && !a.Yield? && !a.InterruptUp? }

  /** What each call is to do, from the state it is made in. */
  ghost function Owed(st: State, a: Action): seq<Event>
    requires Enabled(st, a)
  {
    match a
    case SemaInit(n, v) => [MakeSema(n, v)]
    case LockInit(l) => [MakeLock(l)]
    case CondInit(c, l) => [MakeCond(c, l)]
    case SemaDown(n) => [Lower(Plain(n))]
    case SemaTryDown(n) => if st.semas[Plain(n)].value > 0 then [Lower(Plain(n))] else []
    case SemaUp(n) => [Raise(Plain(n))]
    case LockAcquire(l) => [Lower(OfLock(l)), Hold(l)]
    case LockTryAcquire(l) =>
      if OfLock(l) in st.semas && st.semas[OfLock(l)].value > 0 then [Lower(OfLock(l)), Hold(l)] else []
    case LockRelease(l) => [LetGo(l), Raise(OfLock(l))]
    case CondWait(c) =>
      var l := st.conds[c].lock;
      [Join(c), LetGo(l), Raise(OfLock(l)), Lower(OfWaiter(st.cur)), Lower(OfLock(l)), Hold(l)]
    case CondSignal(c) =>
      var ws := st.conds[c].waiters;
      if ws == [] then [] else [Pop(c, ws[0]), Raise(OfWaiter(ws[0]))]
    case CondBroadcast(c) => Wakeups(c, st.conds[c].waiters)
    case ThreadCreate => [Spawn(|st.status|)]
    case SetExitStatus(code) => [SetCode(code)]
    case ThreadExit => [Die]
    case ProcessWait(c) => if c in st.children[st.cur] then [Lower(OfExit(c)), Fetch(c)] else [Refuse(c)]
    case _ => Todo(st, st.pc[st.cur])
  }

  function Seq(d: Option<Event>): seq<Event> { if d.Some? then [d.value] else [] }

  // ----- one step -----

  /** The running thread does the next of the events it owes, or none yet. */
  ghost predicate Pays(st: State, a: Action, st': State, d: Option<Event>)
    requires Enabled(st, a)
  {
    st.cur < |st'.pc| && Did(st, st', st.cur, d) && Seq(d) + Todo(st', st'.pc[st.cur]) == Owed(st, a)
  }

  /** What is not written is the same. */
  lemma Unwritten(st: State, st': State)
    ensures st'.semas == st.semas ==> SemasBut(st, st', {})
    ensures st'.locks == st.locks ==> HoldersBut(st, st', {})
    ensures st'.conds == st.conds ==> CondsBut(st, st', {})
  {
  }

  /** What is written at one place is the same elsewhere. */
  lemma WrittenAt(st: State, st': State)
    ensures forall s, x {:trigger st.semas[s := x]} :: st'.semas == st.semas[s := x] ==> SemasBut(st, st', {s})
    ensures forall l, x {:trigger st.locks[l := x]} :: st'.locks == st.locks[l := x] ==> HoldersBut(st, st', {l})
    ensures forall c, x {:trigger st.conds[c := x]} :: st'.conds == st.conds[c := x] ==> CondsBut(st, st', {c})
  {
  }

  lemma SleepsDoes(st: State, s: SemaId, next: Pc, st': State)
    requires Wf(st) && s in st.semas && TrySchedule(Sleep(st, s, next)) == Next(st')
    ensures Did(st, st', st.cur, None)
  {
    hide CondsBut, HoldersBut;
    Unwritten(st, st');
  }

  lemma TakesDoes(st: State, s: SemaId, next: Pc)
    requires Wf(st) && s in st.semas && st.semas[s].value > 0
    ensures Did(st, Take(st, s, next), st.cur, Some(Lower(s)))
  {
    hide SemasBut, CondsBut;
    Unwritten(st, Take(st, s, next));
    WrittenAt(st, Take(st, s, next));
  }

  lemma DownDoes(st: State, s: SemaId, next: Pc, st': State) returns (d: Option<Event>)
    requires Wf(st) && TryDown(st, s, next) == Next(st')
    ensures st.cur < |st'.pc| && st'.conds == st.conds && st'.pc[st.cur] == if d.Some? then next else Recheck(s, next)
    ensures Did(st, st', st.cur, d) && d == if st.semas[s].value > 0 then Some(Lower(s)) else None
  {
    hide Did;
    if st.semas[s].value > 0 {
      TakesDoes(st, s, next);
      d := Some(Lower(s));
    } else {
      SleepsDoes(st, s, next, st');
      d := None;
    }
  }

  lemma UpDoes(st: State, s: SemaId, st': State)
    requires TryUp(st, s) == Next(st')
    ensures Did(st, st', st.cur, Some(Raise(s))) && st'.conds == st.conds && st'.pc == st.pc
  {
    hide SemasBut, CondsBut;
    Unwritten(st, st');
    WrittenAt(st, st');
  }

  lemma {:induction false} TodoSame(st: State, st': State, pc: Pc)
    requires st'.conds == st.conds
    ensures Todo(st', pc) == Todo(st, pc)
    decreases pc
  {
    match pc
    case Recheck(_, next) => TodoSame(st, st', next);
    case StartDown(_, next) => TodoSame(st, st', next);
    case Releasing(_, next) => TodoSame(st, st', next);
    case DropLock(_, next) => TodoSame(st, st', next);
    case SignalUp(_, next) => TodoSame(st, st', next);
    case _ =>
  }

  /** The two states are the same but for control points and phases. */
  predicate SameThings(st: State, st1: State) {
    && st1.semas == st.semas && st1.locks == st.locks && st1.conds == st.conds && st1.status == st.status
    && st1.parent == st.parent && st1.children == st.children && st1.exitStatus == st.exitStatus
    && st1.freed == st.freed && st1.log == st.log && st1.cur == st.cur
  }

  lemma RaisedFrom(st: State, st1: State, st': State, t: Tid, s: SemaId)
    requires SameThings(st, st1) && Did(st1, st', t, Some(Raise(s)))
    ensures Did(st, st', t, Some(Raise(s)))
  {
    hide SemasBut, HoldersBut, CondsBut;
    ButFrom(st, st1, st');
  }

  lemma ButFrom(st: State, st1: State, st': State)
    requires SameThings(st, st1)
    ensures forall but {:trigger SemasBut(st1, st', but)} :: SemasBut(st1, st', but) ==> SemasBut(st, st', but)
    ensures forall but {:trigger HoldersBut(st1, st', but)} :: HoldersBut(st1, st', but) ==> HoldersBut(st, st', but)
    ensures forall but {:trigger CondsBut(st1, st', but)} :: CondsBut(st1, st', but) ==> CondsBut(st, st', but)
  {
  }

  // ----- going on inside a call -----

  lemma GoOnDown(st: State, s: SemaId, next: Pc, st': State) returns (d: Option<Event>)
    requires Enabled(st, Continue) && (st.pc[st.cur] == Recheck(s, next) || st.pc[st.cur] == StartDown(s, next))
    requires TryDown(st, s, next) == Next(st')
    ensures Pays(st, Continue, st', d)
  {
    hide TryDown, Did;
    d := DownDoes(st, s, next, st');
    TodoSame(st, st', next);
  }

  lemma GoOnUp(st: State, st1: State, s: SemaId, next: Pc, st': State)
    requires Enabled(st, Continue) && SameThings(st, st1) && st1.pc == st.pc[st.cur := next] && TryUp(st1, s) == Next(st')
    requires Todo(st, st.pc[st.cur]) == [Raise(s)] + Todo(st, next)
    ensures Pays(st, Continue, st', Some(Raise(s)))
  {
    hide TryUp, Did;
    UpDoes(st1, s, st');
    RaisedFrom(st, st1, st', st.cur, s);
    TodoSame(st, st', next);
  }

  lemma PopDoes(st: State, c: nat, next: Pc, st': State)
    requires Wf(st) && TryPop(st, c, next) == Next(st') && st.conds[c].waiters != []
    ensures var ws := st.conds[c].waiters;
      && Did(st, st', st.cur, Some(Pop(c, ws[0]))) && st.cur < |st'.pc| && st'.pc[st.cur] == SignalUp(ws[0], next)
      && c in st'.conds && st'.conds[c].waiters == ws[1..]
  {
    hide SemasBut, CondsBut, HoldersBut;
    Unwritten(st, st');
    WrittenAt(st, st');
  }

  lemma GoOnBroadcast(st: State, c: nat, st': State) returns (d: Option<Event>)
    requires Enabled(st, Continue) && st.pc[st.cur] == Broadcast(c) && GoOn(st) == Next(st')
    ensures Pays(st, Continue, st', d)
  {
    if c in st.conds && st.conds[c].waiters != [] {
      hide Did;
      PopDoes(st, c, Broadcast(c), st');
      assert Todo(st', Broadcast(c)) == Wakeups(c, st.conds[c].waiters[1..]);
      d := Some(Pop(c, st.conds[c].waiters[0]));
    } else {
      Unwritten(st, st');
      d := None;
    }
  }

  lemma {:induction false} WithoutIs(s: seq<Tid>, x: Tid) returns (i: nat)
    requires x in s
    ensures i < |s| && s[i] == x && Without(s, x) == s[..i] + s[i + 1..]
  {
    if s[0] == x {
      i := 0;
    } else {
      assert s == [s[0]] + s[1..];
      var j := WithoutIs(s[1..], x);
      i := j + 1;
      assert s[..i] + s[i + 1..] == [s[0]] + (s[1..][..j] + s[1..][j + 1..]);
    }
  }

  lemma GoOnCollect(st: State, c: Tid, st': State)
    requires Inv(st) && Enabled(st, Continue) && st.pc[st.cur] == Collect(c) && GoOn(st) == Next(st')
    ensures Pays(st, Continue, st', Some(Fetch(c)))
  {
    hide Core, WakeInv, CountInv, PcInv, LockInv, CondsInv, LogInv, ChildOk;
    assert ParentOk(st, st.cur);
    hide NoDup, SemasBut, CondsBut, HoldersBut;
    Unwritten(st, st');
    var i := WithoutIs(st.children[st.cur], c);
    ExitWaitProof.WithoutFacts(st.children[st.cur], c);
  }

  lemma GoOnLock(st: State, st': State) returns (d: Option<Event>)
    requires Inv(st) && Enabled(st, Continue) && (st.pc[st.cur].TakeLock? || st.pc[st.cur].Releasing?) && GoOn(st) == Next(st')
    ensures Pays(st, Continue, st', d)
  {
    hide Core, WakeInv, CountInv, PcInv, CondsInv, ChildInv, LockOk, SemasBut, CondsBut, HoldersBut;
    Unwritten(st, st');
    WrittenAt(st, st');
    assert LockPc(st, st.cur);
    if st.pc[st.cur].TakeLock? {
      d := Some(Hold(st.pc[st.cur].l));
    } else {
      d := Some(LetGo(st.pc[st.cur].l));
      TodoSame(st, st', st.pc[st.cur].next);
    }
  }

  lemma GoOnIdle(st: State, st': State) returns (d: Option<Event>)
    requires Enabled(st, Continue) && (st.pc[st.cur].IdleBoot? || st.pc[st.cur].IdleLoop?) && GoOn(st) == Next(st')
    ensures Pays(st, Continue, st', d)
  {
    hide SemasBut, CondsBut, HoldersBut;
    Unwritten(st, st');
    d := None;
  }

  lemma GoOnDoes(st: State, st': State) returns (d: Option<Event>)
    requires Inv(st) && Enabled(st, Continue) && GoOn(st) == Next(st')
    ensures Pays(st, Continue, st', d)
  {
    hide Inv, TryUp, TryDown, TryPop, Reap, TrySchedule, Pays;
    match st.pc[st.cur]
    case Recheck(s, next) => d := GoOnDown(st, s, next, st');
    case StartDown(s, next) => d := GoOnDown(st, s, next, st');
    case TakeLock(l) => d := GoOnLock(st, st');
    case Releasing(l, next) => d := GoOnLock(st, st');
    case DropLock(l, next) =>
      GoOnUp(st, SetPc(st, next), OfLock(l), next, st');
      d := Some(Raise(OfLock(l)));
    case SignalUp(w, next) =>
      GoOnUp(st, SetPc(st.(phase := st.phase[w := Signalled]), next), OfWaiter(w), next, st');
      d := Some(Raise(OfWaiter(w)));
    case Broadcast(c) => d := GoOnBroadcast(st, c, st');
    case Collect(c) =>
      GoOnCollect(st, c, st');
      d := Some(Fetch(c));
    case IdleBoot => d := GoOnIdle(st, st');
    case IdleUp =>
      GoOnUp(st, SetPc(st, IdleLoop), IDLE_STARTED, IdleLoop, st');
      d := Some(Raise(IDLE_STARTED));
    case IdleLoop => d := GoOnIdle(st, st');
  }

  // ----- making a call -----

  lemma CallDown(st: State, a: Action, s: SemaId, next: Pc, st': State) returns (d: Option<Event>)
    requires Enabled(st, a) && TryDown(st, s, next) == Next(st') && Owed(st, a) == [Lower(s)] + Todo(st, next)
    ensures Pays(st, a, st', d)
  {
    hide TryDown, Did, Owed;
    d := DownDoes(st, s, next, st');
    TodoSame(st, st', next);
  }

  lemma CallTry(st: State, a: Action, s: SemaId, next: Pc, st': State) returns (d: Option<Event>)
    requires Enabled(st, a) && st.pc[st.cur].Free? && s in st.semas
    requires st' == if st.semas[s].value > 0 then Take(st, s, next) else st
    requires Owed(st, a) == if st.semas[s].value > 0 then [Lower(s)] + Todo(st, next) else []
    ensures Pays(st, a, st', d)
  {
    if st.semas[s].value > 0 {
      d := CallDown(st, a, s, next, st');
    } else {
      Unwritten(st, st');
      d := None;
    }
  }

  lemma CallMakes(st: State, a: Action, st': State) returns (d: Option<Event>)
    requires Enabled(st, a) && Step(st, a) == Next(st') && (a.SemaInit? || a.LockInit? || a.CondInit? || a.SetExitStatus?)
    ensures Pays(st, a, st', d)
  {
    hide SemasBut, CondsBut, HoldersBut;
    Unwritten(st, st');
    WrittenAt(st, st');
    match a
    case SemaInit(n, v) => d := Some(MakeSema(n, v));
    case LockInit(l) => d := Some(MakeLock(l));
    case CondInit(c, l) => d := Some(MakeCond(c, l));
    case SetExitStatus(code) => d := Some(SetCode(code));
  }

  lemma CallCreate(st: State, st': State) returns (d: Option<Event>)
    requires Enabled(st, ThreadCreate) && st' == Create(st)
    ensures Pays(st, ThreadCreate, st', d)
  {
    hide SemasBut, CondsBut, HoldersBut;
    Unwritten(st, st');
    WrittenAt(st, st');
    d := Some(Spawn(|st.status|));
  }

  lemma CallSignal(st: State, c: nat, st': State) returns (d: Option<Event>)
    requires Enabled(st, CondSignal(c)) && TryPop(st, c, Free) == Next(st')
    ensures Pays(st, CondSignal(c), st', d)
  {
    if st.conds[c].waiters != [] {
      hide Did;
      PopDoes(st, c, Free, st');
      assert Todo(st', Free) == [];
      d := Some(Pop(c, st.conds[c].waiters[0]));
    } else {
      Unwritten(st, st');
      d := None;
    }
  }

  lemma CallWait(st: State, c: nat, st': State)
    requires Enabled(st, CondWait(c)) && st' == JoinCond(st, c)
    ensures Pays(st, CondWait(c), st', Some(Join(c)))
  {
    hide SemasBut, CondsBut, HoldersBut;
    Unwritten(st, st');
    WrittenAt(st, st');
    var l := st.conds[c].lock;
    var relock := StartDown(OfLock(l), TakeLock(l));
    assert Todo(st', relock) == [Lower(OfLock(l)), Hold(l)];
    assert Todo(st', WaitThenRelock(st.cur, l)) == [Lower(OfWaiter(st.cur))] + Todo(st', relock);
  }

  lemma CallExit(st: State, st': State)
    requires Inv(st) && Enabled(st, ThreadExit) && Exit(st) == Next(st')
    ensures Pays(st, ThreadExit, st', Some(Die))
  {
    hide SemasBut, CondsBut, HoldersBut, Inv, TryUp;
    DiesNow(st, st');
    if st.cur == MAIN {
      Unwritten(st, st');
      SemasLess(st, st', OfExit(st.cur));
    } else {
      UpDoes(st, OfExit(st.cur), TryUp(st, OfExit(st.cur)).st);
      AsBefore(st, TryUp(st, OfExit(st.cur)).st, st');
    }
  }

  lemma SemasLess(st: State, st': State, s: SemaId)
    requires SemasBut(st, st', {})
    ensures SemasBut(st, st', {s})
  {
  }

  /** A switch changes none of this. */
  lemma AsBefore(st: State, st1: State, st': State)
    requires st'.semas == st1.semas && st'.locks == st1.locks && st'.conds == st1.conds && SameKin(st1, st')
    ensures forall but {:trigger SemasBut(st, st1, but)} :: SemasBut(st, st1, but) ==> SemasBut(st, st', but)
    ensures forall but {:trigger HoldersBut(st, st1, but)} :: HoldersBut(st, st1, but) ==> HoldersBut(st, st', but)
    ensures forall but {:trigger CondsBut(st, st1, but)} :: CondsBut(st, st1, but) ==> CondsBut(st, st', but)
  {
  }

  lemma DiesNow(st: State, st': State)
    requires Inv(st) && Enabled(st, ThreadExit) && Exit(st) == Next(st')
    ensures st.cur < |st'.status| && st'.status[st.cur].Dying? && st'.pc == st.pc
  {
    hide RunInv, ReadyInv, WaitInv, IdleInv, DyingInv, WakeInv, CountInv, LockInv, CondsInv, ChildInv;
    if st.cur != MAIN {
      UpCore(st, OfExit(st.cur));
    }
    var st1 := if st.cur == MAIN then st else Up(st, OfExit(st.cur));
    DieCore(st1);
    NextAlive(SetStatus(st1, Dying));
  }

  /** The thread that is switched to is not dead. */
  lemma NextAlive(st: State)
    requires Core(st, false) && CanSchedule(st) && st.status[st.cur].Dying?
    ensures st.cur < |Schedule(st).status| && Schedule(st).status[st.cur].Dying?
  {
    ExitWaitProof.NextNotDying(st, false);
    hide Core;
  }

  lemma CallDoesStep(st: State, a: Action, st': State) returns (d: Option<Event>)
    requires Inv(st) && Enabled(st, a) && Step(st, a) == Next(st') && IsCall(a)
    ensures Pays(st, a, st', d)
  {
    hide Inv, TryUp, TryDown, TryPop, Exit, Create, JoinCond, Take, Pays;
    match a
    case SemaDown(n) => d := CallDown(st, a, Plain(n), Free, st');
    case SemaTryDown(n) => d := CallTry(st, a, Plain(n), Free, st');
    case SemaUp(n) => d := CallUp(st, n, st');
    case LockAcquire(l) => d := CallDown(st, a, OfLock(l), TakeLock(l), st');
    case LockTryAcquire(l) => d := CallTry(st, a, OfLock(l), TakeLock(l), st');
    case LockRelease(l) => d := CallLater(st, a, st');
    case CondWait(c) =>
      CallWait(st, c, st');
      d := Some(Join(c));
    case CondSignal(c) => d := CallSignal(st, c, st');
    case CondBroadcast(c) => d := CallLater(st, a, st');
    case ThreadCreate => d := CallCreate(st, st');
    case ThreadExit =>
      CallExit(st, st');
      d := Some(Die);
    case ProcessWait(c) =>
      if c in st.children[st.cur] {
        d := CallDown(st, a, OfExit(c), Collect(c), st');
      } else {
        d := CallRefused(st, c, st');
      }
    case _ => d := CallMakes(st, a, st');
  }

  lemma CallUp(st: State, n: nat, st': State) returns (d: Option<Event>)
    requires Enabled(st, SemaUp(n)) && TryUp(st, Plain(n)) == Next(st')
    ensures Pays(st, SemaUp(n), st', d)
  {
    hide Did, TryUp;
    UpDoes(st, Plain(n), st');
    d := Some(Raise(Plain(n)));
  }

  lemma CallLater(st: State, a: Action, st': State) returns (d: Option<Event>)
    requires Enabled(st, a) && Step(st, a) == Next(st') && (a.LockRelease? || a.CondBroadcast?)
    ensures Pays(st, a, st', d)
  {
    hide SemasBut, CondsBut, HoldersBut;
    Unwritten(st, st');
    assert Todo(st', Free) == [];
    d := None;
  }

  lemma CallRefused(st: State, c: Tid, st': State) returns (d: Option<Event>)
    requires Enabled(st, ProcessWait(c)) && Step(st, ProcessWait(c)) == Next(st') && c !in st.children[st.cur]
    ensures Pays(st, ProcessWait(c), st', d)
  {
    hide SemasBut, CondsBut, HoldersBut;
    Unwritten(st, st');
    d := Some(Refuse(c));
  }

  lemma YieldDoes(st: State, st': State)
    requires Enabled(st, Yield) && TrySchedule(Requeue(st)) == Next(st')
    ensures Pays(st, Yield, st', None)
  {
    hide SemasBut, CondsBut, HoldersBut;
    Unwritten(st, st');
    TodoSame(st, st', st.pc[st.cur]);
  }

  /** Every step of a thread does the next event that it owes, or none yet; and the event changes exactly
      what its name says. */
  lemma StepDoes(st: State, a: Action) returns (d: Option<Event>)
    requires Inv(st) && Enabled(st, a) && !a.InterruptUp?
    ensures Step(st, a).Next? && Pays(st, a, Step(st, a).st, d)
  {
    hide Inv, Pays, GoOn;
    StepInv(st, a);
    var st' := Step(st, a).st;
    if a.Continue? {
      d := GoOnDoes(st, st');
    } else if a.Yield? {
      YieldDoes(st, st');
      d := None;
    } else {
      d := CallDoesStep(st, a, st');
    }
  }

  /** An interrupt handler raises its semaphore and does nothing else. */
  lemma InterruptDoes(st: State, n: nat)
    requires Inv(st) && Enabled(st, InterruptUp(n))
    ensures Step(st, InterruptUp(n)).Next? && Did(st, Step(st, InterruptUp(n)).st, st.cur, Some(Raise(Plain(n))))
    ensures Step(st, InterruptUp(n)).st.pc == st.pc && Step(st, InterruptUp(n)).st.conds == st.conds
  {
    hide Inv, Did, TryUp;
    StepInv(st, InterruptUp(n));
    UpDoes(st, Plain(n), Step(st, InterruptUp(n)).st);
  }

  // ----- the others -----

  /** A condition variable whose lock another thread holds is not touched. */
  lemma GuardedCond(st: State, a: Action, u: Tid, c: nat)
    requires Inv(st) && Enabled(st, a) && Step(st, a).Next? && u != st.cur && HoldsFor(st, u, c)
    ensures c in Step(st, a).st.conds && Step(st, a).st.conds[c] == st.conds[c]
  {
    hide Core, WakeInv, CountInv, PcInv, CondsInv, ChildInv, LockOk;
    assert LockPc(st, st.cur);
    hide Inv, GoOn, TryUp, TryDown, TrySchedule, Exit;
    match a
    case Continue => GuardedGoOn(st, u, c, Step(st, a).st);
    case SemaDown(n) => DownConds(st, Plain(n), Free);
    case LockAcquire(l) => DownConds(st, OfLock(l), TakeLock(l));
    case ProcessWait(d) =>
      if d in st.children[st.cur] {
        DownConds(st, OfExit(d), Collect(d));
      }
    case SemaUp(n) => UpConds(st, Plain(n));
    case InterruptUp(n) => UpConds(st, Plain(n));
    case ThreadExit => ExitConds(st);
    case Yield => SwitchConds(Requeue(st));
    case _ =>
  }

  lemma DownConds(st: State, s: SemaId, next: Pc)
    requires Wf(st) && TryDown(st, s, next).Next?
    ensures TryDown(st, s, next).st.conds == st.conds
  {
  }

  lemma UpConds(st: State, s: SemaId)
    requires TryUp(st, s).Next?
    ensures TryUp(st, s).st.conds == st.conds
  {
  }

  lemma SwitchConds(st: State)
    requires TrySchedule(st).Next?
    ensures TrySchedule(st).st.conds == st.conds
  {
  }

  lemma ExitConds(st: State)
    requires Wf(st) && Exit(st).Next?
    ensures Exit(st).st.conds == st.conds
  {
  }

  lemma GuardedGoOn(st: State, u: Tid, c: nat, st': State)
    requires Wf(st) && GoOn(st) == Next(st') && u != st.cur && HoldsFor(st, u, c) && LockPc(st, st.cur)
    ensures c in st'.conds && st'.conds[c] == st.conds[c]
  {
    hide TryUp, TryDown, TrySchedule;
    match st.pc[st.cur]
    case Recheck(s, next) => DownConds(st, s, next);
    case StartDown(s, next) => DownConds(st, s, next);
    case DropLock(l, next) => UpConds(SetPc(st, next), OfLock(l));
    case SignalUp(w, next) => UpConds(SetPc(st.(phase := st.phase[w := Signalled]), next), OfWaiter(w));
    case IdleUp => UpConds(SetPc(st, IdleLoop), IDLE_STARTED);
    case IdleLoop => SwitchConds(SetStatus(st, Blocked));
    case _ =>
  }

  /** What another thread has still to do does not change. */
  lemma OthersTodo(st: State, a: Action, u: Tid)
    requires Inv(st) && Enabled(st, a) && Step(st, a).Next? && u != st.cur && u < |st.pc|
    ensures u < |Step(st, a).st.pc| && Step(st, a).st.pc[u] == st.pc[u]
    ensures Todo(Step(st, a).st, st.pc[u]) == Todo(st, st.pc[u])
  {
    hide Core, WakeInv, CountInv, CondsInv, ChildInv, LockOk, Step;
    MovesStep(st, a);
    assert LockPc(st, u) && PcOk(st, u, st.pc[u]);
    var pc := st.pc[u];
    if pc.Broadcast? {
      GuardedCond(st, a, u, pc.c);
    } else if pc.SignalUp? && pc.next.Broadcast? {
      GuardedCond(st, a, u, pc.next.c);
      assert Todo(Step(st, a).st, pc.next) == Todo(st, pc.next);
    } else {
      TodoAlone(st, Step(st, a).st, u, pc);
    }
  }

  /** Only a broadcast depends on what is in the state. */
  lemma TodoAlone(st: State, st': State, u: Tid, pc: Pc)
    requires PcOk(st, u, pc) && !pc.Broadcast? && !(pc.SignalUp? && pc.next.Broadcast?)
    ensures Todo(st', pc) == Todo(st, pc)
  {
    match pc
    case Recheck(s, next) => DownAlone(st, st', u, s, next);
    case StartDown(s, next) => DownAlone(st, st', u, s, next);
    case Releasing(l, next) => ReleaseAlone(st, st', u, l, next);
    case DropLock(l, next) => ReleaseAlone(st, st', u, l, next);
    case SignalUp(w, next) => assert Todo(st', Free) == Todo(st, Free);
    case _ =>
  }

  lemma DownAlone(st: State, st': State, u: Tid, s: SemaId, next: Pc)
    requires DownOk(st, u, s, next)
    ensures Todo(st', next) == Todo(st, next)
  {
    if s.OfWaiter? {
      assert Todo(st', next.next) == Todo(st, next.next);
    }
  }

  lemma ReleaseAlone(st: State, st': State, u: Tid, l: nat, next: Pc)
    requires AfterRelease(st, u, l, next)
    ensures Todo(st', next) == Todo(st, next)
  {
    if !next.Free? {
      var relock := StartDown(OfLock(l), TakeLock(l));
      assert Todo(st', TakeLock(l)) == Todo(st, TakeLock(l));
      assert Todo(st', relock) == Todo(st, relock);
    }
  }

  // ----- every run -----

  /** The step is one of thread t's own, not of an interrupt that strikes while it runs. */
  predicate Own(st: State, a: Action, t: Tid) { st.cur == t && !a.InterruptUp? }

  /** In the run thread t makes no new call. */
  ghost predicate Inside(st: State, acts: seq<Action>, t: Tid)
    decreases |acts|
  {
    acts == [] || (Enabled(st, acts[0]) ==>
      && (Own(st, acts[0], t) ==> !IsCall(acts[0]))
      && (Step(st, acts[0]).Next? ==> Inside(Step(st, acts[0]).st, acts[1..], t)))
  }

  /** In the run thread t does the events `es`, in this order, and no others. */
  ghost predicate Does(st: State, acts: seq<Action>, t: Tid, es: seq<Event>)
    decreases |acts|
  {
    if acts == [] then es == []
    else
      && Enabled(st, acts[0]) && Step(st, acts[0]).Next?
      && if !Own(st, acts[0], t) then Does(Step(st, acts[0]).st, acts[1..], t, es)
         else exists d {:trigger Did(st, Step(st, acts[0]).st, t, d)} ::
           && Did(st, Step(st, acts[0]).st, t, d) && Seq(d) <= es
           && Does(Step(st, acts[0]).st, acts[1..], t, es[|Seq(d)|..])
  }

  lemma DoesOwn(st: State, acts: seq<Action>, t: Tid, d: Option<Event>, es: seq<Event>)
    requires acts != [] && Enabled(st, acts[0]) && Step(st, acts[0]).Next? && Own(st, acts[0], t)
    requires Did(st, Step(st, acts[0]).st, t, d) && Does(Step(st, acts[0]).st, acts[1..], t, es)
    ensures Does(st, acts, t, Seq(d) + es)
  {
    hide Did, Step, Enabled;
    assert (Seq(d) + es)[|Seq(d)|..] == es;
  }

  lemma DoesOther(st: State, acts: seq<Action>, t: Tid, es: seq<Event>)
    requires acts != [] && Enabled(st, acts[0]) && Step(st, acts[0]).Next? && !Own(st, acts[0], t)
    requires Does(Step(st, acts[0]).st, acts[1..], t, es)
    ensures Does(st, acts, t, es)
  {
    hide Did, Step, Enabled;
  }

  lemma InsideNext(st: State, acts: seq<Action>, t: Tid)
    requires acts != [] && Inside(st, acts, t) && Enabled(st, acts[0]) && Step(st, acts[0]).Next?
    ensures (Own(st, acts[0], t) ==> !IsCall(acts[0])) && Inside(Step(st, acts[0]).st, acts[1..], t)
  {
    hide Step, Enabled;
  }

  /** Whatever the others do, a thread in a call does what it owes in order: what it has done and what it
      has still to do make up what it had to do. */
  lemma {:induction false} RunDoes(st: State, acts: seq<Action>, st': State, t: Tid) returns (es: seq<Event>)
    requires Inv(st) && Reaches(st, acts, Next(st')) && Inside(st, acts, t) && t < |st.pc|
    ensures Does(st, acts, t, es) && t < |st'.pc| && es + Todo(st', st'.pc[t]) == Todo(st, st.pc[t])
    decreases |acts|
  {
    hide Inv, Step, Enabled, Todo, Did, Does, Owed, Inside;
    if acts == [] {
      es := [];
      DoesNothing(st, t);
    } else {
      var a, st1 := acts[0], Step(st, acts[0]).st;
      StepInv(st, a);
      InsideNext(st, acts, t);
      if Own(st, a, t) {
        var d := StepDoes(st, a);
        OwedInside(st, a);
        var rest := RunDoes(st1, acts[1..], st', t);
        DoesOwn(st, acts, t, d, rest);
        es := Seq(d) + rest;
      } else {
        KeepsTodo(st, a, t);
        es := RunDoes(st1, acts[1..], st', t);
        DoesOther(st, acts, t, es);
      }
    }
  }

  lemma DoesNothing(st: State, t: Tid)
    ensures Does(st, [], t, [])
  {
  }

  lemma OwedInside(st: State, a: Action)
    requires Enabled(st, a) && !IsCall(a)
    ensures Owed(st, a) == Todo(st, st.pc[st.cur])
  {
  }

  lemma KeepsTodo(st: State, a: Action, t: Tid)
    requires Inv(st) && Enabled(st, a) && Step(st, a).Next? && !Own(st, a, t) && t < |st.pc|
    ensures t < |Step(st, a).st.pc| && Todo(Step(st, a).st, Step(st, a).st.pc[t]) == Todo(st, st.pc[t])
  {
    hide Inv, Step, Todo, Did;
    if st.cur == t {
      InterruptDoes(st, a.n);
      TodoSame(st, Step(st, a).st, st.pc[t]);
    } else {
      OthersTodo(st, a, t);
    }
  }

  /** From any good state: when a call has returned, whatever came in between, the thread has done exactly
      what the call is to do. */
  lemma CallDoes(st: State, a: Action, acts: seq<Action>, st': State) returns (es: seq<Event>)
    requires Inv(st) && Enabled(st, a) && IsCall(a) && Reaches(st, [a] + acts, Next(st'))
    requires Step(st, a).Next? && Inside(Step(st, a).st, acts, st.cur) && st.cur < |st'.pc| && st'.pc[st.cur].Free?
    ensures Does(st, [a] + acts, st.cur, es) && es == Owed(st, a)
  {
    hide Inv, Step, Enabled, Did, Owed;
    StepInv(st, a);
    var d := StepDoes(st, a);
    assert ([a] + acts)[1..] == acts;
    var rest := RunDoes(Step(st, a).st, acts, st', st.cur);
    DoesOwn(st, [a] + acts, st.cur, d, rest);
    es := Seq(d) + rest;
    assert Todo(st', Free) == [];
  }
}
