/** Every run of accesses, evictions and faults: what a process sees is what it wrote, except what it
    writes into a page between the two halves of the page's eviction, and except for a page that a sweep
    takes between being listed and being pinned by its fault. */
module PagingRuns {
  import opened Common
  import opened Paging
  import opened PagingProof
  import opened PagingMachine
  import opened PagingSteps

  ghost predicate Run(m: Machine, ops: seq<Op>, m': Machine)
    decreases |ops|
  {
    if ops == [] then m' == m
    else Enabled(m, ops[0]) && Run(Do(m, ops[0]), ops[1..], m')
  }

  /** No sweep follows an unset `vme`, and no fault whose page a sweep has taken is completed. */
  ghost predicate Sound(m: Machine, ops: seq<Op>)
    decreases |ops|
  {
    ops == [] || (Enabled(m, ops[0]) ==> SoundOp(m, ops[0]) && Sound(Do(m, ops[0]), ops[1..]))
  }

  function AfterRun(c: Copy, ops: seq<Op>, v: nat): Copy
    decreases |ops|
  {
    if ops == [] then c else AfterRun(AfterOp(c, ops[0], v), ops[1..], v)
  }

  /** The bytes of page v after its own writes, and no others. */
  function AfterWrites(x: Bytes, ops: seq<Op>, v: nat): Bytes
    decreases |ops|
  {
    if ops == [] then x else AfterWrites(AfterWrite(x, ops[0], v), ops[1..], v)
  }

  /** Over every sound run each page, the copy of a page being evicted and the page of a fault are what
      the operations on that page make them, whatever else is evicted, swapped and reloaded in between. */
  lemma {:induction false} RunVisible(m: Machine, ops: seq<Op>, m': Machine, v: nat)
    requires MInv(m) && Run(m, ops, m') && Sound(m, ops) && v < |m.owner|
    ensures MInv(m') && m'.owner == m.owner && CopyOf(m', v) == AfterRun(CopyOf(m, v), ops, v)
    decreases |ops|
  {
    hide MInv, Enabled, Do, AfterOp, SoundOp;
    if ops != [] {
      StepVisible(m, ops[0], v);
      RunVisible(Do(m, ops[0]), ops[1..], m', v);
    }
  }

  // ----- transparency -----

  datatype Spot = AtHome | OnHold | InAir

  function NextSpot(spot: Spot, op: Op, v: nat): Spot {
    match op
    case SaveAt(_, u, _) => if u == v then OnHold else spot
    case ClearOf(u) => if u == v && spot.OnHold? then AtHome else spot
    case Take(u, _, _) => if u == v then InAir else spot
    case Fill(u) => if u == v then AtHome else spot
    case _ => spot
  }

  /** No write to page v falls between the two halves of an eviction of v, and no sweep takes v in the
      middle of its fault. */
  predicate Calm(ops: seq<Op>, v: nat, spot: Spot)
    decreases |ops|
  {
    ops == [] ||
    (&& !(spot.OnHold? && ops[0].Write? && ops[0].v == v)
     && !(spot.InAir? && ops[0].SaveAt? && ops[0].v == v)
     && Calm(ops[1..], v, NextSpot(spot, ops[0], v)))
  }

  predicate Fits(c: Copy, spot: Spot) {
    match spot
    case AtHome => c.place.Home?
    case OnHold => c.place == Saved(c.now)
    case InAir => c.place.Away?
  }

  lemma {:induction false} CopyStaysTrue(c: Copy, ops: seq<Op>, v: nat, spot: Spot)
    requires Calm(ops, v, spot) && Fits(c, spot)
    ensures AfterRun(c, ops, v).now == AfterWrites(c.now, ops, v)
    decreases |ops|
  {
    if ops != [] {
      CalmStep(c, ops[0], v, spot);
      CopyStaysTrue(AfterOp(c, ops[0], v), ops[1..], v, NextSpot(spot, ops[0], v));
    }
  }

  lemma CalmStep(c: Copy, op: Op, v: nat, spot: Spot)
    requires Fits(c, spot) && !(spot.OnHold? && op.Write? && op.v == v) && !(spot.InAir? && op.SaveAt? && op.v == v)
    ensures Fits(AfterOp(c, op, v), NextSpot(spot, op, v)) && AfterOp(c, op, v).now == AfterWrite(c.now, op, v)
  {
  }

  /** Paging transparency: over every sound run in which nobody writes to a page between the two halves of
      its eviction and no sweep takes it in the middle of its fault, the page holds what its process last
      wrote there. */
  lemma RunTransparent(m: Machine, ops: seq<Op>, m': Machine, v: nat)
    requires MInv(m) && Run(m, ops, m') && Sound(m, ops) && v < |m.owner|
    requires PlaceOf(m, v).Home? && Calm(ops, v, AtHome)
    ensures MInv(m') && m'.owner == m.owner && Wf(m.st) && v < |m.st.vmes| && Visible(m.st, v).Some?
    ensures Wf(m'.st) && v < |m'.st.vmes| && Visible(m'.st, v) == Some(AfterWrites(Visible(m.st, v).value, ops, v))
  {
    hide MInv, Run, Sound, Visible, PlaceOf, Calm;
    RunVisible(m, ops, m', v);
    MachineVisible(m, v);
    MachineVisible(m', v);
    CopyStaysTrue(CopyOf(m, v), ops, v, AtHome);
  }

  /** No page is being evicted, and no fault is under way. */
  ghost predicate Quiet(m: Machine) { m.victim.None? && m.faults == map[] }

  /** Every eviction takes a page of the evicting process, and no sweep comes to a page whose `vme` is not
      set. */
  predicate OwnVictims(ops: seq<Op>, owner: seq<nat>) {
    forall k {:trigger ops[k]} :: 0 <= k < |ops| ==>
      !ops[k].StrayVisit? && (ops[k].SaveAt? ==> ops[k].v < |owner| && owner[ops[k].v] == ops[k].evictor)
  }

  /** Runs in which processes evict only pages of their own are transparent. */
  lemma OwnVictimsTransparent(m: Machine, ops: seq<Op>, m': Machine, v: nat)
    requires MInv(m) && Quiet(m) && Run(m, ops, m') && v < |m.owner| && OwnVictims(ops, m.owner)
    ensures MInv(m') && m'.owner == m.owner && Wf(m.st) && v < |m.st.vmes| && Visible(m.st, v).Some?
    ensures Wf(m'.st) && v < |m'.st.vmes| && Visible(m'.st, v) == Some(AfterWrites(Visible(m.st, v).value, ops, v))
  {
    hide Run, OwnVictims, Calm, Visible, MInv, Sound;
    OwnCalm(m, ops, m', v);
    RunTransparent(m, ops, m', v);
  }

  ghost function SpotOf(m: Machine, v: nat): Spot {
    if Faulting(m, v) then InAir else if m.victim.Some? && m.victim.value.v == v then OnHold else AtHome
  }

  /** What such a run keeps: nobody is robbed, and the victim is the evictor's own. */
  ghost predicate OwnOnly(m: Machine) {
    && (forall p {:trigger m.faults[p]} :: p in m.faults ==> !m.faults[p].robbed)
    && (m.victim.Some? ==> m.victim.value.v < |m.owner| && m.owner[m.victim.value.v] == m.victim.value.evictor)
  }

  lemma {:induction false} OwnCalm(m: Machine, ops: seq<Op>, m': Machine, v: nat)
    requires MInv(m) && Run(m, ops, m') && v < |m.owner| && OwnVictims(ops, m.owner) && OwnOnly(m)
    ensures Sound(m, ops) && Calm(ops, v, SpotOf(m, v))
    decreases |ops|
  {
    hide MInv, Enabled, Do, SoundOp;
    if ops != [] {
      OwnStep(m, ops[0], v);
      StepVisible(m, ops[0], v);
      assert forall k {:trigger ops[1..][k]} :: 0 <= k < |ops[1..]| ==> ops[1..][k] == ops[k + 1];
      OwnCalm(Do(m, ops[0]), ops[1..], m', v);
    }
  }

  lemma OwnStep(m: Machine, op: Op, v: nat)
    requires MInv(m) && Enabled(m, op) && v < |m.owner| && OwnOnly(m) && !op.StrayVisit?
    requires op.SaveAt? ==> op.v < |m.owner| && m.owner[op.v] == op.evictor
    ensures SoundOp(m, op) && OwnOnly(Do(m, op)) && SpotOf(Do(m, op), v) == NextSpot(SpotOf(m, v), op, v)
    ensures !(SpotOf(m, v).OnHold? && op.Write? && op.v == v) && !(SpotOf(m, v).InAir? && op.SaveAt? && op.v == v)
  {
    hide Inv, InHand, FaultOk;
    OwnFaults(m, op);
    if Faulting(m, v) {
      VictimNotInFlight(m, v);
    }
    hide MInv;
  }

  lemma OwnFaults(m: Machine, op: Op)
    requires Enabled(m, op) && OwnOnly(m) && !op.StrayVisit?
    requires op.SaveAt? ==> op.v < |m.owner| && m.owner[op.v] == op.evictor
    ensures OwnOnly(Do(m, op)) && SoundOp(m, op) && forall u {:trigger Faulting(m, u)} :: Faulting(m, u) ==> InFlight(m, u)
  {
    forall u: nat | Faulting(m, u) ensures InFlight(m, u) {
      assert !m.faults[m.owner[u]].robbed;
    }
  }

  // ----- exactly when an eviction loses nothing -----

  ghost predicate BeingEvicted(m: Machine, v: nat) {
    m.victim.Some? && m.victim.value.v == v && v < |m.st.vmes| && m.st.vmes[v].loaded && !Faulting(m, v)
  }

  lemma {:induction false} Meanwhile(m: Machine, ops: seq<Op>, m': Machine, v: nat)
    requires MInv(m) && Run(m, ops, m') && Sound(m, ops) && v < |m.owner| && BeingEvicted(m, v) && ClearOf(v) !in ops
    ensures MInv(m') && m'.owner == m.owner && m'.victim == m.victim && BeingEvicted(m', v)
    ensures CopyOf(m', v) == Copy(AfterWrites(CopyOf(m, v).now, ops, v), CopyOf(m, v).place)
    decreases |ops|
  {
    hide MInv, SoundOp, Enabled, Do;
    if ops != [] {
      StepVisible(m, ops[0], v);
      assert ops[0] in ops;
      VictimStays(m, ops[0], v);
      assert forall op {:trigger op in ops[1..]} :: op in ops[1..] ==> op in ops;
      Meanwhile(Do(m, ops[0]), ops[1..], m', v);
    }
  }

  lemma VictimStays(m: Machine, op: Op, v: nat)
    requires Enabled(m, op) && BeingEvicted(m, v) && op != ClearOf(v)
    ensures Do(m, op).victim == m.victim && !op.SaveAt? && !op.ClearOf? && !op.Take? && BeingEvicted(Do(m, op), v)
    ensures !(op.Fill? && op.v == v)
  {
  }

  /** Page v is saved, the operations `ops` happen, page v is cleared: it is then back at what was
      saved, so the eviction is transparent if and only if the writes in between change nothing. */
  lemma EvictionTransparentIff(m: Machine, i: nat, v: nat, evictor: nat, ops: seq<Op>, m2: Machine)
    requires MInv(m) && Enabled(m, SaveAt(i, v, evictor)) && v < |m.owner| && m.st.vmes[v].loaded
    requires Run(Do(m, SaveAt(i, v, evictor)), ops, m2) && Sound(Do(m, SaveAt(i, v, evictor)), ops) && ClearOf(v) !in ops
    ensures Enabled(m2, ClearOf(v)) && MInv(m2) && m2.owner == m.owner && Wf(m2.st) && v < |m2.st.vmes|
    ensures Visible(m.st, v).Some? && Wf(Do(m2, ClearOf(v)).st)
    ensures var x, st' := Visible(m.st, v).value, Do(m2, ClearOf(v)).st;
      && Visible(m2.st, v) == Some(AfterWrites(x, ops, v)) && v < |st'.vmes| && Visible(st', v) == Some(x)
      && (Visible(st', v) == Visible(m2.st, v) <==> AfterWrites(x, ops, v) == x)
  {
    hide Run, Sound, Visible, MInv;
    var m1 := Do(m, SaveAt(i, v, evictor));
    MachineVisible(m, v);
    LoadedNotFaulting(m, v);
    StepVisible(m, SaveAt(i, v, evictor), v);
    SavedVictim(m, i, v, evictor);
    Meanwhile(m1, ops, m2, v);
    MachineVisible(m2, v);
    CanClearVictim(m2);
    StepVisible(m2, ClearOf(v), v);
    MachineVisible(Do(m2, ClearOf(v)), v);
  }

  lemma SavedVictim(m: Machine, i: nat, v: nat, evictor: nat)
    requires Enabled(m, SaveAt(i, v, evictor)) && m.st.vmes[v].loaded && !Faulting(m, v)
    ensures BeingEvicted(Do(m, SaveAt(i, v, evictor)), v)
  {
  }

  lemma CanClearVictim(m: Machine)
    requires MInv(m) && m.victim.Some?
    ensures Enabled(m, ClearOf(m.victim.value.v))
  {
    hide Inv, FaultOk;
  }

  /** Whatever sound operations happen between the two halves, nothing is lost. */
  ghost predicate Safe(m: Machine, i: nat, v: nat, evictor: nat)
    requires Enabled(m, SaveAt(i, v, evictor))
  {
    forall ops, m2 {:trigger Run(Do(m, SaveAt(i, v, evictor)), ops, m2)} ::
      Run(Do(m, SaveAt(i, v, evictor)), ops, m2) && Sound(Do(m, SaveAt(i, v, evictor)), ops) && ClearOf(v) !in ops
      && Enabled(m2, ClearOf(v)) && Wf(m2.st) && v < |m2.st.vmes| && Wf(Do(m2, ClearOf(v)).st) && v < |Do(m2, ClearOf(v)).st.vmes| ==>
        Visible(Do(m2, ClearOf(v)).st, v) == Visible(m2.st, v)
  }

  /** The process of page v is in a fault whose page a sweep has taken. */
  ghost predicate OwnerRobbed(m: Machine, v: nat) {
    v < |m.owner| && m.owner[v] in m.faults && m.faults[m.owner[v]].robbed
  }

  /** Evicting a loaded page is safe exactly if it is the evicting process's own, or cannot be written, or
      has no bytes to see, or its process is in a fault that it cannot soundly complete. */
  lemma SafeIff(m: Machine, i: nat, v: nat, evictor: nat)
    requires MInv(m) && Enabled(m, SaveAt(i, v, evictor)) && v < |m.owner| && m.st.vmes[v].loaded
    ensures v < |m.st.vmes| && Visible(m.st, v).Some?
    ensures Safe(m, i, v, evictor) <==>
      m.owner[v] == evictor || !m.st.vmes[v].writable || Visible(m.st, v).value == [] || OwnerRobbed(m, v)
  {
    hide Run, Sound, Visible, MInv, Safe, Enabled, OwnerRobbed;
    MachineVisible(m, v);
    if m.owner[v] == evictor || !m.st.vmes[v].writable || Visible(m.st, v).value == [] || OwnerRobbed(m, v) {
      SafeVictim(m, i, v, evictor);
    } else {
      LostWrite(m, i, v, evictor);
    }
  }

  lemma SafeVictim(m: Machine, i: nat, v: nat, evictor: nat)
    requires MInv(m) && Enabled(m, SaveAt(i, v, evictor)) && v < |m.owner| && m.st.vmes[v].loaded && Visible(m.st, v).Some?
    requires m.owner[v] == evictor || !m.st.vmes[v].writable || Visible(m.st, v).value == [] || OwnerRobbed(m, v)
    ensures Safe(m, i, v, evictor)
  {
    hide Run, Sound, Visible, MInv;
    var m1 := Do(m, SaveAt(i, v, evictor));
    forall ops, m2 | Run(m1, ops, m2) && Sound(m1, ops) && ClearOf(v) !in ops && Enabled(m2, ClearOf(v))
      ensures Wf(m2.st) && v < |m2.st.vmes| && Wf(Do(m2, ClearOf(v)).st) && v < |Do(m2, ClearOf(v)).st.vmes|
           && Visible(Do(m2, ClearOf(v)).st, v) == Visible(m2.st, v)
    {
      EvictionTransparentIff(m, i, v, evictor, ops, m2);
      if m.owner[v] == evictor || !m.st.vmes[v].writable || OwnerRobbed(m, v) {
        LoadedNotFaulting(m, v);
        SavedVictim(m, i, v, evictor);
        SaveKeepsWritable(m.st, v);
        NoWrites(m1, ops, m2, v, Visible(m.st, v).value);
      } else {
        NothingToWrite(ops, v);
      }
    }
  }

  lemma SaveKeepsWritable(st: State, v: nat)
    requires CanEvict(st, v)
    ensures var st' := Save(st, v); |st'.vmes| == |st.vmes| && st'.vmes[v].writable == st.vmes[v].writable
  {
  }

  lemma {:induction false} NothingToWrite(ops: seq<Op>, v: nat)
    ensures AfterWrites([], ops, v) == []
    decreases |ops|
  {
    if ops != [] {
      NothingToWrite(ops[1..], v);
    }
  }

  lemma {:induction false} NoWrites(m: Machine, ops: seq<Op>, m': Machine, v: nat, x: Bytes)
    requires Run(m, ops, m') && Sound(m, ops) && v < |m.owner| && BeingEvicted(m, v) && ClearOf(v) !in ops
    requires m.owner[v] == m.victim.value.evictor || !m.st.vmes[v].writable || OwnerRobbed(m, v)
    ensures AfterWrites(x, ops, v) == x
    decreases |ops|
  {
    hide Enabled, Do, OwnerRobbed, SoundOp;
    if ops != [] {
      assert ops[0] in ops;
      VictimStays(m, ops[0], v);
      OwnersStay(m, ops[0]);
      WritableStays(m, ops[0], v);
      assert forall op {:trigger op in ops[1..]} :: op in ops[1..] ==> op in ops;
      NoWrites(Do(m, ops[0]), ops[1..], m', v, x);
    }
  }

  lemma WritableStays(m: Machine, op: Op, v: nat)
    requires Enabled(m, op) && SoundOp(m, op) && v < |m.st.vmes| && v < |m.owner| && m.victim.Some?
    ensures v < |Do(m, op).st.vmes| && Do(m, op).st.vmes[v].writable == m.st.vmes[v].writable
    ensures OwnerRobbed(m, v) ==> OwnerRobbed(Do(m, op), v)
    ensures op.Write? && op.v == v ==> m.st.vmes[v].writable && m.owner[v] != m.victim.value.evictor && !OwnerRobbed(m, v)
  {
  }

  // ----- joining runs -----

  lemma {:induction false} Joined(m: Machine, a: seq<Op>, m1: Machine, b: seq<Op>, m2: Machine)
    requires Run(m, a, m1) && Run(m1, b, m2) && Sound(m, a) && Sound(m1, b)
    ensures Run(m, a + b, m2) && Sound(m, a + b)
    decreases |a|
  {
    hide Enabled, Do, SoundOp;
    if a == [] {
      assert a + b == b;
    } else {
      assert (a + b)[1..] == a[1..] + b && (a + b)[0] == a[0];
      Joined(Do(m, a[0]), a[1..], m1, b, m2);
    }
  }

  lemma {:induction false} WritesJoined(x: Bytes, a: seq<Op>, b: seq<Op>, v: nat)
    ensures AfterWrites(x, a + b, v) == AfterWrites(AfterWrites(x, a, v), b, v)
    decreases |a|
  {
    if a == [] {
      assert a + b == b;
    } else {
      assert (a + b)[1..] == a[1..] + b && (a + b)[0] == a[0];
      WritesJoined(AfterWrite(x, a[0], v), a[1..], b, v);
    }
  }

  /** Steps of a fault, which write nothing, save nothing and clear nothing. */
  predicate FaultSteps(ops: seq<Op>) {
    forall op {:trigger op in ops} :: op in ops ==> op.Tie? || op.ReadType? || op.PinPage? || op.Fill?
  }

  lemma {:induction false} FaultStepsWriteNothing(x: Bytes, ops: seq<Op>, v: nat)
    requires FaultSteps(ops)
    ensures AfterWrites(x, ops, v) == x
    decreases |ops|
  {
    if ops != [] {
      assert ops[0] in ops;
      assert forall op {:trigger op in ops[1..]} :: op in ops[1..] ==> op in ops;
      FaultStepsWriteNothing(x, ops[1..], v);
    }
  }

  function Rank(phase: Phase): nat {
    match phase case Unset => 3 case Tied => 2 case Typed(_) => 1 case Pinned(_) => 0
  }

  function NextStep(m: Machine, w: nat): Op
    requires Faulting(m, w)
  {
    match FaultOn(m, w).phase
    case Unset => Tie(w)
    case Tied => ReadType(w)
    case Typed(_) => PinPage(w)
    case Pinned(_) => Fill(w)
  }

  lemma NextStepEnabled(m: Machine, w: nat)
    requires MInv(m) && InFlight(m, w)
    ensures Enabled(m, NextStep(m, w)) && SoundOp(m, NextStep(m, w))
    ensures var m' := Do(m, NextStep(m, w));
      && (FaultOn(m, w).phase.Pinned? ==> m.owner[w] !in m'.faults)
      && (!FaultOn(m, w).phase.Pinned? ==> InFlight(m', w) && Rank(FaultOn(m', w).phase) < Rank(FaultOn(m, w).phase))
  {
    hide Inv, InHand;
    assert FaultOk(m, m.owner[w]);
    if FaultOn(m, w).phase.Pinned? {
      InFlightIs(m, w);
      VictimNotInFlight(m, w);
      BaseKeeps(m, w);
      CanBeFilled(Base(m), Flight(m), w);
      FillsAsBase(m, w);
    }
  }

  lemma FillsAsBase(m: Machine, w: nat)
    requires MInv(m) && InFlight(m, w) && w < |m.st.vmes| && CanFill(Base(m), w, m.st.vmes[w].kind)
    ensures CanFill(m.st, w, m.st.vmes[w].kind)
  {
    hide Inv, FaultOk;
    VictimNotInFlight(m, w);
    BaseKeeps(m, w);
    BaseSwap(m);
  }

  lemma BaseSwap(m: Machine)
    ensures Base(m).slots == m.st.slots && Base(m).swapMap == m.st.swapMap && Base(m).files == m.st.files
  {
  }

  /** A process whose fault no sweep has taken can go on to the end of it. */
  lemma {:induction false} FaultCompletes(m: Machine, w: nat) returns (ops: seq<Op>, m': Machine)
    requires MInv(m) && InFlight(m, w)
    ensures Run(m, ops, m') && Sound(m, ops) && FaultSteps(ops) && MInv(m') && m'.owner == m.owner && m.owner[w] !in m'.faults
    decreases Rank(FaultOn(m, w).phase)
  {
    hide MInv, Enabled, Do, SoundOp, Run, Sound;
    var op := NextStep(m, w);
    NextStepEnabled(m, w);
    StepVisible(m, op, w);
    OneOp(m, op);
    if FaultOn(m, w).phase.Pinned? {
      ops, m' := [op], Do(m, op);
    } else {
      var rest, m2 := FaultCompletes(Do(m, op), w);
      Joined(m, [op], Do(m, op), rest, m2);
      ops, m' := [op] + rest, m2;
    }
  }

  /** Otherwise one write between the two halves is lost. */
  lemma LostWrite(m: Machine, i: nat, v: nat, evictor: nat)
    requires MInv(m) && Enabled(m, SaveAt(i, v, evictor)) && v < |m.owner| && m.st.vmes[v].loaded
    requires Wf(m.st) && v < |m.st.vmes| && Visible(m.st, v).Some? && !OwnerRobbed(m, v)
    requires m.owner[v] != evictor && m.st.vmes[v].writable && Visible(m.st, v).value != []
    ensures !Safe(m, i, v, evictor)
  {
    hide Visible, MInv, Clear, Enabled, Do, Run, Sound, OwnerRobbed;
    var x := Visible(m.st, v).value;
    var b: Byte := if x[0] == 0 then 1 else 0;
    var m1, w := Do(m, SaveAt(i, v, evictor)), Write(v, 0, b);
    var a, m2 := BackAtWork(m, i, v, evictor);
    WriteEnabled(m2, v, b);
    OneOp(m2, w);
    var m3 := Do(m2, w);
    Joined(m1, a, m2, [w], m3);
    WritesJoined(x, a, [w], v);
    FaultStepsWriteNothing(x, a, v);
    EvictionTransparentIff(m, i, v, evictor, a + [w], m3);
    OneWrite(x, v, b);
    assert x[0 := b][0] != x[0];
    Cleared(m3, v);
  }

  /** After the page is saved its process completes the fault it is in, if any. */
  lemma BackAtWork(m: Machine, i: nat, v: nat, evictor: nat) returns (a: seq<Op>, m2: Machine)
    requires MInv(m) && Enabled(m, SaveAt(i, v, evictor)) && v < |m.owner| && m.st.vmes[v].loaded
    requires !OwnerRobbed(m, v) && m.st.vmes[v].writable && m.owner[v] != evictor
    ensures var m1 := Do(m, SaveAt(i, v, evictor));
      Run(m1, a, m2) && Sound(m1, a) && FaultSteps(a) && MInv(m2) && m2.owner == m.owner
    ensures BeingEvicted(m2, v) && m2.st.vmes[v].writable && m2.victim.value.evictor == evictor && m.owner[v] !in m2.faults
  {
    hide MInv, Enabled, Do, Run, Sound;
    var save := SaveAt(i, v, evictor);
    var m1 := Do(m, save);
    StepVisible(m, save, v) by { SoundSave(m, i, v, evictor); }
    MachineVisible(m, v);
    LoadedNotFaulting(m, v);
    SavedVictim(m, i, v, evictor);
    SavedOwner(m, i, v, evictor);
    if m.owner[v] in m1.faults {
      a, m2 := FaultCompletes(m1, m1.faults[m.owner[v]].v);
      StillEvicted(m1, a, m2, v);
    } else {
      a, m2 := [], m1;
      assert Run(m1, [], m1) && Sound(m1, []) by { Nothing(m1); }
    }
  }

  lemma Nothing(m: Machine)
    ensures Run(m, [], m) && Sound(m, [])
  {
  }

  lemma SoundSave(m: Machine, i: nat, v: nat, evictor: nat)
    ensures SoundOp(m, SaveAt(i, v, evictor))
  {
  }

  lemma SavedOwner(m: Machine, i: nat, v: nat, evictor: nat)
    requires MInv(m) && Enabled(m, SaveAt(i, v, evictor)) && v < |m.owner| && m.st.vmes[v].loaded && !OwnerRobbed(m, v) && !Faulting(m, v)
    ensures var m1 := Do(m, SaveAt(i, v, evictor));
      && m1.owner == m.owner && m1.victim == Some(Victim(i, v, evictor)) && m1.st.vmes[v].writable == m.st.vmes[v].writable
      && (m.owner[v] in m1.faults ==> InFlight(m1, m1.faults[m.owner[v]].v) && m1.owner[m1.faults[m.owner[v]].v] == m.owner[v])
  {
    hide Inv, InHand;
    if m.owner[v] in m.faults {
      assert FaultOk(m, m.owner[v]);
    }
  }

  lemma {:induction false} StillEvicted(m: Machine, ops: seq<Op>, m': Machine, v: nat)
    requires Run(m, ops, m') && Sound(m, ops) && FaultSteps(ops) && BeingEvicted(m, v) && v < |m.owner|
    ensures BeingEvicted(m', v) && m'.victim == m.victim && m'.st.vmes[v].writable == m.st.vmes[v].writable
    decreases |ops|
  {
    hide Enabled, Do, OwnerRobbed, SoundOp;
    if ops != [] {
      assert ops[0] in ops;
      VictimStays(m, ops[0], v);
      OwnersStay(m, ops[0]);
      WritableStays(m, ops[0], v);
      assert forall op {:trigger op in ops[1..]} :: op in ops[1..] ==> op in ops;
      StillEvicted(Do(m, ops[0]), ops[1..], m', v);
    }
  }

  lemma Cleared(m: Machine, v: nat)
    requires MInv(m) && Enabled(m, ClearOf(v)) && v < |m.owner|
    ensures Wf(Do(m, ClearOf(v)).st) && v < |Do(m, ClearOf(v)).st.vmes|
  {
    hide MInv, Enabled, Do;
    StepVisible(m, ClearOf(v), v) by { SoundClear(m, v); }
    MachineVisible(Do(m, ClearOf(v)), v) by { OwnersStay(m, ClearOf(v)); }
  }

  lemma SoundClear(m: Machine, v: nat)
    ensures SoundOp(m, ClearOf(v))
  {
  }

  lemma OneWrite(x: Bytes, v: nat, b: Byte)
    requires x != []
    ensures AfterWrites(x, [Write(v, 0, b)], v) == x[0 := b]
  {
    var ops := [Write(v, 0, b)];
    assert ops[1..] == [];
    assert AfterWrites(x, ops, v) == AfterWrites(x[0 := b], ops[1..], v) == x[0 := b];
  }

  lemma OneOp(m: Machine, op: Op)
    requires Enabled(m, op) && SoundOp(m, op)
    ensures Run(m, [op], Do(m, op)) && Sound(m, [op])
  {
    assert [op][1..] == [];
    assert Sound(Do(m, op), [op][1..]);
  }

  lemma WriteEnabled(m: Machine, v: nat, b: Byte)
    requires MInv(m) && BeingEvicted(m, v) && v < |m.owner| && m.st.vmes[v].writable
    requires m.owner[v] !in m.faults && m.owner[v] != m.victim.value.evictor
    ensures Enabled(m, Write(v, 0, b)) && SoundOp(m, Write(v, 0, b))
  {
    hide FaultOk, PageOk, Apart, LruOk, FramesOk;
  }

  /** A run that loses a byte: process 2 evicts the page of process 1, which writes meanwhile. */
  lemma LostByte(m: Machine)
    requires m == Machine(
      State([Vme(Anon, true, true, false, 0, 0, 0, 0)], [Pte(true, true, false, 0)], [0], NoHand, [Zeros(PGSIZE)], [true],
            [Zeros(PGSIZE)], [false], map[], {}),
      [1], None, map[], false)
    ensures MInv(m) && Visible(m.st, 0) == Some(Zeros(PGSIZE))
    ensures exists m2 ::
      && Run(m, [SaveAt(0, 0, 2), Write(0, 0, 7)], m2) && Enabled(m2, ClearOf(0)) && Wf(Do(m2, ClearOf(0)).st)
      && |Do(m2, ClearOf(0)).st.vmes| == 1
      && Visible(Do(m2, ClearOf(0)).st, 0) == Some(Zeros(PGSIZE))
      && AfterWrites(Zeros(PGSIZE), [SaveAt(0, 0, 2), Write(0, 0, 7)], 0)[0] == 7
  {
    OneLoadedPage(m);
    var save, write := SaveAt(0, 0, 2), Write(0, 0, 7);
    var m1 := Do(m, save);
    StepVisible(m, save, 0);
    WriteEnabled(m1, 0, 7);
    var m2 := Do(m1, write);
    OneOp(m1, write);
    EvictionTransparentIff(m, 0, 0, 2, [write], m2);
    hide Visible, MInv, Enabled, Do;
    assert [save, write][1..] == [write];
    assert Run(m, [save, write], m2);
    Cleared(m2, 0);
    var z: Bytes := Zeros(PGSIZE);
    OneWrite(z, 0, 7);
    assert AfterWrites(z, [save, write], 0) == AfterWrites(z, [write], 0);
  }

  lemma OneLoadedPage(m: Machine)
    requires m == Machine(
      State([Vme(Anon, true, true, false, 0, 0, 0, 0)], [Pte(true, true, false, 0)], [0], NoHand, [Zeros(PGSIZE)], [true],
            [Zeros(PGSIZE)], [false], map[], {}),
      [1], None, map[], false)
    ensures MInv(m) && Visible(m.st, 0) == Some(Zeros(PGSIZE)) && Enabled(m, SaveAt(0, 0, 2))
  {
    NoFlight(m);
    assert LruOk(m.st, {}) && PageOk(m.st, 0, {});
    assert HasFree(m.st.swapMap) by { assert !m.st.swapMap[0]; }
  }

  lemma NoFlight(m: Machine)
    requires m.faults == map[]
    ensures Flight(m) == {}
  {
  }
}
