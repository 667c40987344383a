/** Evictions and faults in the steps that other processes can come between (vm/frame.c,
    userprog/process.c), and exactly what each step does to what a process sees. */
module PagingMachine {
  import opened Common
  import opened Paging
  import opened PagingProof

  /** A page that has been saved but not yet cleared: its list position, and the process evicting it. */
  datatype Victim = Victim(i: nat, v: nat, evictor: nat)

  /** How far `handle_mm_fault` has got after `alloc_page`: the `vme` of the `struct page` is not set, it
      is set, the entry's type has been read, the entry has been pinned. */
  datatype Phase = Unset | Tied | Typed(kind: Kind) | Pinned(kind: Kind)

  /** The fault that a process is in. It is robbed once a sweep has taken its page. */
  datatype Fault = Fault(v: nat, phase: Phase, robbed: bool)

  /** The pages, the process of each, the eviction under way and the fault of each process that is in one.
      There is at most one eviction, since `lru_list_lock` is held throughout; interrupts are on, so other
      processes run. A sweep has gone astray if it followed a `vme` that was not set. */
  datatype Machine = Machine(st: State, owner: seq<nat>, victim: Option<Victim>, faults: map<nat, Fault>, astray: bool)

  /** What can happen to the pages of all processes.  Any unpinned page may be evicted at any time that its
      accessed bit is clear, so that the runs cover every choice the clock sweep could make. */
  datatype Op =
    | Read(v: nat)
    | Write(v: nat, ofs: nat, b: Byte)
    | SaveAt(i: nat, v: nat, evictor: nat)   // `try_to_free_pages` up to `is_loaded := false`
    | ClearOf(v: nat)                        // and from there on
    | Take(v: nat, f: nat, spoil: Option<Bytes>)  // `alloc_page` in a fault, and what a sweep would make of the page
    | Tie(v: nat)                            // `phys_page->vme := vme`
    | ReadType(v: nat)                       // `type := vme->type`
    | PinPage(v: nat)                        // `vme->pinned := true`
    | Fill(v: nat)                           // the rest of the fault
    | Sweep(v: nat)                          // the clock passes v over
    | StrayVisit(v: nat)                     // the clock comes to a page whose `vme` is not set
    | SetPin(v: nat, pinned: bool)

  /** Process owner[v] is in a fault on v. */
  predicate Faulting(m: Machine, v: nat) {
    v < |m.owner| && m.owner[v] in m.faults && m.faults[m.owner[v]].v == v
  }

  function FaultOn(m: Machine, v: nat): Fault
    requires Faulting(m, v)
  {
    m.faults[m.owner[v]]
  }

  function SetFault(m: Machine, v: nat, fault: Fault): map<nat, Fault>
    requires v < |m.owner|
  {
    m.faults[m.owner[v] := fault]
  }

  /** A fault on v has its frame, and no sweep has taken it. */
  predicate InFlight(m: Machine, v: nat) { Faulting(m, v) && !FaultOn(m, v).robbed }

  ghost function Flight(m: Machine): set<nat> { set v | 0 <= v < |m.owner| && InFlight(m, v) }

  /** The process of page v is neither evicting nor in a fault. */
  predicate Runs(m: Machine, v: nat) {
    v < |m.owner| && m.owner[v] !in m.faults && (m.victim.Some? ==> m.owner[v] != m.victim.value.evictor)
  }

  predicate VmeUnset(m: Machine, v: nat) { Faulting(m, v) && FaultOn(m, v).phase.Unset? }

  predicate Enabled(m: Machine, op: Op) {
    && !m.astray
    && match op
       case Read(v) => Mapped(m.st, v) && Runs(m, v)
       case Write(v, ofs, b) =>
         Mapped(m.st, v) && Runs(m, v) && m.st.vmes[v].writable && ofs < PGSIZE && ofs < |m.st.mem[m.st.ptes[v].frame]|
       case SaveAt(i, v, p) =>
         && m.victim.None? && p !in m.faults && i < |m.st.lru| && v == m.st.lru[i] && CanEvict(m.st, v)
         && (NeedsSwap(m.st, v) ==> HasFree(m.st.swapMap))
         && !m.st.vmes[v].pinned && !m.st.ptes[v].accessed && !VmeUnset(m, v)
       case ClearOf(v) => m.victim.Some? && m.victim.value.v == v && CanClear(m.st, m.victim.value.i)
       case Take(v, f, spoil) =>
         && m.victim.None? && Runs(m, v) && CanTake(m.st, v, f)
         && CanEvict(Taken(m.st, v, f), v) && spoil == Spoil(Taken(m.st, v, f), v)
       case Tie(v) => VmeUnset(m, v)
       case ReadType(v) => Faulting(m, v) && FaultOn(m, v).phase.Tied? && v < |m.st.vmes|
       case PinPage(v) => Faulting(m, v) && FaultOn(m, v).phase.Typed? && v < |m.st.vmes|
       case Fill(v) => Faulting(m, v) && FaultOn(m, v).phase.Pinned? && CanFill(m.st, v, FaultOn(m, v).phase.kind)
       case Sweep(v) => m.victim.None? && Wf(m.st) && v < |m.st.vmes| && v in m.st.lru && !VmeUnset(m, v)
       case StrayVisit(v) => m.victim.None? && v in m.st.lru && VmeUnset(m, v)
       case SetPin(v, _) => Runs(m, v) && Wf(m.st) && v < |m.st.vmes|
  }

  function Do(m: Machine, op: Op): Machine
    requires Enabled(m, op)
  {
    match op
    case Read(v) => m.(st := UserRead(m.st, v))
    case Write(v, ofs, b) => m.(st := UserWrite(m.st, v, ofs, b))
    case SaveAt(i, v, p) =>
      m.(st := Save(m.st, v), victim := Some(Victim(i, v, p)),
         faults := if Faulting(m, v) then SetFault(m, v, FaultOn(m, v).(robbed := true)) else m.faults)
    case ClearOf(v) => m.(st := Clear(m.st, m.victim.value.i), victim := None)
    case Take(v, f, _) => m.(st := Taken(m.st, v, f), faults := SetFault(m, v, Fault(v, Unset, false)))
    case Tie(v) => m.(faults := SetFault(m, v, FaultOn(m, v).(phase := Tied)))
    case ReadType(v) => m.(faults := SetFault(m, v, FaultOn(m, v).(phase := Typed(m.st.vmes[v].kind))))
    case PinPage(v) =>
      m.(st := Pin(m.st, v, true), faults := SetFault(m, v, FaultOn(m, v).(phase := Pinned(FaultOn(m, v).phase.kind))))
    case Fill(v) => m.(st := Filled(m.st, v, FaultOn(m, v).phase.kind), faults := m.faults - {m.owner[v]})
    case Sweep(v) => m.(st := if m.st.vmes[v].pinned then m.st else ClearAccessed(m.st, v))
    case StrayVisit(v) => m.(astray := true)
    case SetPin(v, pinned) => m.(st := Pin(m.st, v, pinned))
  }

  /** The operation neither follows an unset `vme` nor completes a fault whose page a sweep has taken. */
  predicate SoundOp(m: Machine, op: Op) {
    !op.StrayVisit? && (op.Fill? ==> InFlight(m, op.v))
  }

  // ----- the invariant -----

  /** The victim is still mapped in a frame of its own, or it was taken in the middle of its fault. */
  ghost predicate InHand(st: State, i: nat, v: nat, flight: set<nat>) {
    && CanClear(st, i) && st.lru[i] == v && v !in flight
    && st.ptes[v].frame < |st.mem| && |st.mem[st.ptes[v].frame]| == PGSIZE
    && (st.vmes[v].kind.File? ==> st.vmes[v].readBytes <= PGSIZE)
    && (forall w {:trigger st.vmes[w]} :: 0 <= w < |st.vmes| && w != v && Framed(st, w, flight) ==>
          st.ptes[w].frame != st.ptes[v].frame)
  }

  /** The state as it is, or as it would be if the victim were cleared now. */
  ghost function Base(m: Machine): State {
    if m.victim.Some? && CanClear(m.st, m.victim.value.i) then Clear(m.st, m.victim.value.i) else m.st
  }

  /** Fault p has the page of its process, not loaded; if no sweep has taken it, what was read is still so. */
  ghost predicate FaultOk(m: Machine, p: nat)
    requires p in m.faults
  {
    var fault := m.faults[p];
    && fault.v < |m.owner| && fault.v < |m.st.vmes| && fault.v < |m.st.ptes| && m.owner[fault.v] == p
    && !m.st.vmes[fault.v].loaded && m.st.ptes[fault.v].frame < |m.st.mem|
    && (!fault.robbed && (fault.phase.Typed? || fault.phase.Pinned?) ==> fault.phase.kind == m.st.vmes[fault.v].kind)
    && (fault.phase.Unset? ==> !fault.robbed)
    && (m.victim.Some? ==> m.victim.value.evictor != p)
  }

  ghost predicate MInv(m: Machine) {
    && !m.astray && |m.owner| == |m.st.vmes|
    && (forall p {:trigger m.faults[p]} :: p in m.faults ==> FaultOk(m, p))
    && Inv(Base(m), Flight(m))
    && (m.victim.Some? ==>
          && InHand(m.st, m.victim.value.i, m.victim.value.v, Flight(m))
          && (m.st.vmes[m.victim.value.v].loaded || Faulting(m, m.victim.value.v)))
  }

  lemma InFlightIs(m: Machine, v: nat)
    ensures v in Flight(m) <==> InFlight(m, v)
  {
  }

  // ----- what a page is -----

  /** Where a page is: nowhere special; saved, with what was saved; in a fault, with what a sweep would make
      of it; or taken by a sweep in the middle of its fault. */
  datatype Place = Home | Saved(copy: Bytes) | Away(spoil: Option<Bytes>) | Robbed

  datatype Copy = Copy(now: Bytes, place: Place)

  ghost function SpoilOf(m: Machine, v: nat): Option<Bytes> {
    if CanEvict(m.st, v) then Spoil(m.st, v) else None
  }

  ghost function PlaceOf(m: Machine, v: nat): Place {
    if Faulting(m, v) then (if FaultOn(m, v).robbed then Robbed else Away(SpoilOf(m, v)))
    else if m.victim.Some? && m.victim.value.v == v && Wf(Base(m)) && v < |Base(m).vmes| && Visible(Base(m), v).Some?
      then Saved(Visible(Base(m), v).value)
    else Home
  }

  ghost function CopyOf(m: Machine, v: nat): Copy
    requires MInv(m) && v < |m.owner|
  {
    MachineVisible(m, v);
    Copy(Visible(m.st, v).value, PlaceOf(m, v))
  }

  /** What an operation does to a page: clearing brings back what was saved, and saving a page in the
      middle of its fault spoils it. */
  function AfterOp(c: Copy, op: Op, v: nat): Copy {
    match op
    case Write(u, ofs, b) => if u == v && ofs < |c.now| then c.(now := c.now[ofs := b]) else c
    case SaveAt(_, u, _) =>
      if u != v then c
      else if c.place.Away? then Copy(if c.place.spoil.Some? then c.place.spoil.value else c.now, Robbed)
      else Copy(c.now, Saved(c.now))
    case ClearOf(u) => if u == v && c.place.Saved? then Copy(c.place.copy, Home) else c
    case Take(u, _, spoil) => if u == v then Copy(c.now, Away(spoil)) else c
    case Fill(u) => if u == v then Copy(c.now, Home) else c
    case _ => c
  }

  // ----- clearing commutes with what goes on meanwhile -----

  lemma ClearKeeps(st: State, i: nat, w: nat)
    requires CanClear(st, i) && w < |st.vmes| && w != st.lru[i]
    ensures var st' := Clear(st, i);
      && Wf(st') && w < |st'.vmes| == |st.vmes| && Visible(st', w) == Visible(st, w)
      && st'.vmes[w] == st.vmes[w] && st'.ptes[w] == st.ptes[w] && st'.mem == st.mem
  {
  }

  lemma InvVisible(st: State, flight: set<nat>, v: nat)
    requires Inv(st, flight) && v < |st.vmes|
    ensures Wf(st) && Visible(st, v).Some?
  {
    At(st, flight, v);
  }

  lemma MachineVisible(m: Machine, v: nat)
    requires MInv(m) && v < |m.owner|
    ensures Wf(m.st) && v < |m.st.vmes| && Visible(m.st, v).Some?
    ensures Wf(Base(m)) && |Base(m).vmes| == |m.st.vmes| && Visible(Base(m), v).Some?
    ensures m.victim.None? || m.victim.value.v != v || !m.st.vmes[v].loaded ==> Visible(Base(m), v) == Visible(m.st, v)
  {
    hide FaultOk, PageOk, Apart, LruOk, FramesOk, Flight;
    if m.victim.None? {
      InvVisible(m.st, Flight(m), v) by { hide Inv; }
    } else {
      var i := m.victim.value.i;
      BaseSize(m);
      InvVisible(Base(m), Flight(m), v) by { hide Inv; }
      hide Inv;
      if v != m.victim.value.v {
        ClearKeeps(m.st, i, v);
      }
    }
  }

  lemma BaseSize(m: Machine)
    requires m.victim.Some? && CanClear(m.st, m.victim.value.i)
    ensures |Base(m).vmes| == |m.st.vmes|
  {
  }

  lemma SameAt(st: State, st': State, v: nat)
    requires SameView(st, st') && v < |st.vmes|
    ensures Visible(st', v) == Visible(st, v)
  {
    assert st'.vmes[v] == st'.vmes[v];
  }

  ghost predicate NobodyHas(st: State, flight: set<nat>, f: nat)
    requires Wf(st)
  {
    forall w {:trigger st.vmes[w]} :: 0 <= w < |st.vmes| && Framed(st, w, flight) ==> st.ptes[w].frame != f
  }

  /** A frame that no page has, and the bits of a page that has none, matter to nobody. */
  lemma GarbageInvisible(st: State, flight: set<nat>, v: nat, page: Bytes, pte: Pte)
    requires Inv(st, flight) && v < |st.vmes| && !Framed(st, v, flight) && st.ptes[v].frame < |st.mem| && |page| == PGSIZE
    requires pte == st.ptes[v].(dirty := pte.dirty, accessed := pte.accessed)
    requires NobodyHas(st, flight, st.ptes[v].frame)
    ensures var st' := st.(mem := st.mem[st.ptes[v].frame := page], ptes := st.ptes[v := pte]);
      Inv(st', flight) && SameView(st, st')
  {
    hide NoDup;
    var st' := st.(mem := st.mem[st.ptes[v].frame := page], ptes := st.ptes[v := pte]);
    assert LruOk(st, flight);
    LruSame(st, st', flight);
    forall w | 0 <= w < |st.vmes| ensures PageOk(st', w, flight) && Visible(st', w) == Visible(st, w) {
      At(st, flight, w);
    }
    forall w, u | 0 <= w < |st.vmes| && 0 <= u < |st.vmes| && w != u ensures Apart(st', w, u, flight) {
      ApartAt(st, flight, w, u);
    }
  }

  lemma ClearWrite(st: State, flight: set<nat>, i: nat, v: nat, w: nat, ofs: nat, b: Byte)
    requires InHand(st, i, v, flight) && w != v && Mapped(st, w) && ofs < |st.mem[st.ptes[w].frame]|
    ensures var st' := UserWrite(st, w, ofs, b);
      CanClear(st', i) && Mapped(Clear(st, i), w) && Clear(st', i) == UserWrite(Clear(st, i), w, ofs, b)
  {
  }

  lemma ClearOwnWrite(st: State, flight: set<nat>, i: nat, v: nat, ofs: nat, b: Byte)
    requires InHand(st, i, v, flight) && Mapped(st, v) && ofs < PGSIZE
    ensures var st', f := UserWrite(st, v, ofs, b), st.ptes[v].frame;
      && CanClear(st', i)
      && Clear(st', i) == Clear(st, i).(mem := Clear(st, i).mem[f := st.mem[f][ofs := b]],
           ptes := Clear(st, i).ptes[v := Clear(st, i).ptes[v].(dirty := true, accessed := true)])
  {
  }

  lemma ClearFill(st: State, flight: set<nat>, i: nat, v: nat, w: nat, kind: Kind)
    requires InHand(st, i, v, flight) && w != v && CanFill(st, w, kind)
    ensures var st' := Filled(st, w, kind);
      CanClear(st', i) && CanFill(Clear(st, i), w, kind) && Clear(st', i) == Filled(Clear(st, i), w, kind)
  {
  }

  lemma ClearedBits(st: State, st': State, i: nat)
    requires CanClear(st, i) && OnlyBits(st, st') && st'.hand == st.hand
    ensures CanClear(st', i) && OnlyBits(Clear(st, i), Clear(st', i)) && Clear(st', i).hand == Clear(st, i).hand
  {
    var v := st.lru[i];
    assert st'.vmes[v] == st'.vmes[v] && st'.ptes[v] == st'.ptes[v];
    var c, c' := Clear(st, i), Clear(st', i);
    assert c'.used == c.used;
    forall w | 0 <= w < |st.vmes|
      ensures c'.ptes[w].(accessed := c.ptes[w].accessed) == c.ptes[w] && c'.vmes[w].(pinned := c.vmes[w].pinned) == c.vmes[w]
    {
      assert st'.vmes[w] == st'.vmes[w] && st'.ptes[w] == st'.ptes[w];
    }
  }

  lemma HandOk(st: State, flight: set<nat>)
    requires Inv(st, flight)
    ensures st.hand.On? ==> st.hand.i < |st.lru|
  {
    assert LruOk(st, flight);
  }
}
