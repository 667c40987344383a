/** Nothing is lost or freed twice: over every run each used frame and each marked swap slot has the page
    it was given to. */
module PagingConserve {
  import opened Common
  import opened Paging
  import opened PagingProof
  import opened PagingMachine
  import opened PagingSteps
  import opened PagingRuns

  /** Page v has frame f, once an eviction that is under way is over. */
  ghost predicate HasFrame(m: Machine, v: nat, f: nat) {
    && v < |Base(m).vmes| && v < |Base(m).ptes|
    && (Base(m).vmes[v].loaded || InFlight(m, v)) && Base(m).ptes[v].frame == f
  }

  /** Page v is in swap, in slot k. */
  ghost predicate HasSlot(m: Machine, v: nat, k: nat) {
    v < |Base(m).vmes| && !Base(m).vmes[v].loaded && Base(m).vmes[v].kind.Anon? && Base(m).vmes[v].slot == k
  }

  /** Frame f is used, but no page has it. */
  ghost predicate StrayFrame(m: Machine, f: nat) {
    f < |Base(m).used| && Base(m).used[f] && forall v {:trigger HasFrame(m, v, f)} :: !HasFrame(m, v, f)
  }

  /** Slot k is marked, but no page is in it. */
  ghost predicate StraySlot(m: Machine, k: nat) {
    k < |m.st.swapMap| && m.st.swapMap[k] && forall v {:trigger HasSlot(m, v, k)} :: !HasSlot(m, v, k)
  }

  // ----- operations that take and give nothing -----

  ghost predicate SameVme(e: Vme, d: Vme) { e.loaded == d.loaded && e.kind == d.kind && e.slot == d.slot }

  /** Bits and bytes aside, the two machines are the same. */
  ghost predicate Alike(m: Machine, m': Machine) {
    && m'.victim == m.victim && m'.st.used == m.st.used && m'.st.swapMap == m.st.swapMap && m'.st.lru == m.st.lru
    && |m'.st.vmes| == |m.st.vmes| && |m'.st.ptes| == |m.st.ptes| && Wf(m'.st) == Wf(m.st)
    && (forall v {:trigger m'.st.vmes[v]} :: 0 <= v < |m.st.vmes| ==> SameVme(m.st.vmes[v], m'.st.vmes[v]))
    && (forall v {:trigger m'.st.ptes[v]} :: 0 <= v < |m.st.ptes| ==> m'.st.ptes[v].frame == m.st.ptes[v].frame)
    && (forall v {:trigger InFlight(m', v)} :: InFlight(m', v) == InFlight(m, v))
  }

  lemma AlikeStrays(m: Machine, m': Machine, f: nat)
    requires Alike(m, m')
    ensures StrayFrame(m', f) == StrayFrame(m, f) && StraySlot(m', f) == StraySlot(m, f)
  {
    forall v: nat ensures HasFrame(m', v, f) == HasFrame(m, v, f) && HasSlot(m', v, f) == HasSlot(m, v, f) {
      AlikeHas(m, m', v, f);
    }
    AlikeUsed(m, m');
  }

  lemma AlikeUsed(m: Machine, m': Machine)
    requires Alike(m, m')
    ensures Base(m').used == Base(m).used
  {
    if m.victim.Some? && CanClear(m.st, m.victim.value.i) {
      var v := m.st.lru[m.victim.value.i];
      assert m'.st.ptes[v].frame == m.st.ptes[v].frame;
    }
  }

  lemma AlikeHas(m: Machine, m': Machine, v: nat, f: nat)
    requires Alike(m, m')
    ensures HasFrame(m', v, f) == HasFrame(m, v, f) && HasSlot(m', v, f) == HasSlot(m, v, f)
  {
    assert v < |m.st.vmes| ==> SameVme(m.st.vmes[v], m'.st.vmes[v]);
    assert InFlight(m', v) == InFlight(m, v);
    if m.victim.Some? && m.victim.value.i < |m.st.lru| && m.st.lru[m.victim.value.i] < |m.st.ptes| {
      var w := m.st.lru[m.victim.value.i];
      assert m'.st.ptes[w].frame == m.st.ptes[w].frame;
    }
  }

  lemma QuietAlike(m: Machine, op: Op)
    requires Enabled(m, op) && !op.SaveAt? && !op.ClearOf? && !op.Take? && !op.Fill?
    ensures Alike(m, Do(m, op))
  {
    var m' := Do(m, op);
    forall v: nat ensures InFlight(m', v) == InFlight(m, v) {
    }
  }

  lemma ClearStrays(m: Machine, v: nat, f: nat)
    requires Enabled(m, ClearOf(v))
    ensures StrayFrame(Do(m, ClearOf(v)), f) == StrayFrame(m, f) && StraySlot(Do(m, ClearOf(v)), f) == StraySlot(m, f)
  {
    var m' := Do(m, ClearOf(v));
    assert Base(m') == Base(m);
    forall u: nat ensures HasFrame(m', u, f) == HasFrame(m, u, f) && HasSlot(m', u, f) == HasSlot(m, u, f) {
    }
  }

  // ----- a fault -----

  lemma TakeStrays(m: Machine, op: Op, f: nat)
    requires MInv(m) && Enabled(m, op) && op.Take?
    ensures StrayFrame(Do(m, op), f) == StrayFrame(m, f) && StraySlot(Do(m, op), f) == StraySlot(m, f)
  {
    hide Inv, FaultOk, InHand;
    var m', v := Do(m, op), op.v;
    assert !m.st.vmes[v].loaded && !InFlight(m, v) && InFlight(m', v);
    hide MInv;
    assert m'.victim.None? && Base(m') == m'.st && Base(m) == m.st;
    forall u: nat | u != v ensures HasFrame(m', u, f) == HasFrame(m, u, f) && HasSlot(m', u, f) == HasSlot(m, u, f) {
    }
    assert HasFrame(m', v, op.f) && !HasFrame(m, v, f) && HasSlot(m', v, f) == HasSlot(m, v, f);
  }

  lemma FillStrays(m: Machine, v: nat, f: nat)
    requires MInv(m) && Enabled(m, Fill(v)) && InFlight(m, v)
    ensures StrayFrame(Do(m, Fill(v)), f) == StrayFrame(m, f) && StraySlot(Do(m, Fill(v)), f) == StraySlot(m, f)
  {
    hide Inv, Visible;
    var m', kind := Do(m, Fill(v)), FaultOn(m, v).phase.kind;
    assert FaultOk(m, m.owner[v]);
    VictimNotInFlight(m, v);
    FillBase(m, v);
    forall u: nat | u != v ensures HasFrame(m', u, f) == HasFrame(m, u, f) && HasSlot(m', u, f) == HasSlot(m, u, f) {
      assert InFlight(m', u) == InFlight(m, u);
    }
    assert HasFrame(m', v, f) == HasFrame(m, v, f);
    assert kind.Anon? ==> HasSlot(m, v, m.st.vmes[v].slot);
  }

  /** Filling a frame commutes with clearing the victim. */
  lemma FillBase(m: Machine, v: nat)
    requires MInv(m) && Enabled(m, Fill(v)) && InFlight(m, v) && (m.victim.Some? ==> m.victim.value.v != v)
    ensures var b, b' := Base(m), Base(Do(m, Fill(v)));
      && |b'.vmes| == |b.vmes| == |m.st.vmes| && |b'.ptes| == |b.ptes| && v < |b.vmes| && v < |b.ptes| && b'.used == b.used
      && b'.vmes == b.vmes[v := b'.vmes[v]] && b'.ptes == b.ptes[v := b'.ptes[v]]
      && b'.vmes[v].loaded && b'.ptes[v].frame == b.ptes[v].frame && b.vmes[v] == m.st.vmes[v]
  {
    hide Inv, FaultOk;
  }

  // ----- an eviction -----

  /** The state after saving and clearing the victim, at page u. */
  lemma SaveBase(m: Machine, op: Op, u: nat)
    requires MInv(m) && Enabled(m, op) && op.SaveAt? && u < |m.st.vmes| && u < |m.st.ptes|
    ensures var b, v := Base(Do(m, op)), op.v;
      && |b.vmes| == |m.st.vmes| && |b.ptes| == |m.st.ptes| && v < |m.st.vmes| && v < |m.st.ptes| && m.st.ptes[v].frame < |m.st.used|
      && b.used == m.st.used[m.st.ptes[v].frame := false] && b.ptes[u].frame == m.st.ptes[u].frame
      && (u != v ==> b.vmes[u] == m.st.vmes[u])
      && !b.vmes[v].loaded && (NeedsSwap(m.st, v) ==> b.vmes[v].kind.Anon? && b.vmes[v].slot == FirstFree(m.st.swapMap))
      && (!NeedsSwap(m.st, v) ==> !b.vmes[v].kind.Anon?)
      && Do(m, op).st.swapMap == if NeedsSwap(m.st, v) then m.st.swapMap[FirstFree(m.st.swapMap) := true] else m.st.swapMap
  {
    hide Inv, FaultOk, HasFree;
  }

  lemma SaveFlight(m: Machine, op: Op, u: nat)
    requires Enabled(m, op) && op.SaveAt?
    ensures InFlight(Do(m, op), u) == (InFlight(m, u) && u != op.v)
  {
  }

  lemma SaveStrayFrames(m: Machine, op: Op, f: nat)
    requires MInv(m) && Enabled(m, op) && op.SaveAt?
    ensures StrayFrame(Do(m, op), f) == StrayFrame(m, f)
  {
    hide FaultOk, Save, PageOk, Apart, LruOk, FramesOk;
    var m', v := Do(m, op), op.v;
    SaveBase(m, op, v);
    assert Base(m) == m.st;
    assert HasFrame(m, v, m.st.ptes[v].frame) by { VictimFramed(m, op); }
    forall u: nat ensures HasFrame(m', u, f) == (HasFrame(m, u, f) && u != v) {
      SaveFlight(m, op, u);
      if u < |m.st.vmes| && u < |m.st.ptes| {
        SaveBase(m, op, u);
      }
    }
    if f != m.st.ptes[v].frame {
      assert !HasFrame(m, v, f);
    }
  }

  lemma VictimFramed(m: Machine, op: Op)
    requires MInv(m) && Enabled(m, op) && op.SaveAt?
    ensures op.v < |m.st.vmes| && (m.st.vmes[op.v].loaded || InFlight(m, op.v))
  {
    hide FaultOk, PageOk, Apart, FramesOk;
    assert LruOk(m.st, Flight(m)) && op.v in m.st.lru;
    InFlightIs(m, op.v);
  }

  /** A sweep that takes a page in the middle of its fault leaves the slot behind that the page was in. */
  lemma SaveStraySlots(m: Machine, op: Op, k: nat)
    requires MInv(m) && Enabled(m, op) && op.SaveAt?
    ensures StraySlot(Do(m, op), k) <==> StraySlot(m, k) || HasSlot(m, op.v, k)
  {
    hide FaultOk, Save, LruOk, FramesOk;
    var m', v := Do(m, op), op.v;
    SaveBase(m, op, v);
    assert Base(m) == m.st;
    forall u: nat | u != v ensures HasSlot(m', u, k) == HasSlot(m, u, k) {
      if u < |m.st.vmes| && u < |m.st.ptes| {
        SaveBase(m, op, u);
      }
    }
    if HasSlot(m, v, k) {
      SlotIsMine(m, v, k);
    }
    assert NeedsSwap(m.st, v) ==> HasSlot(m', v, FirstFree(m.st.swapMap));
  }

  lemma SlotIsMine(m: Machine, v: nat, k: nat)
    requires MInv(m) && m.victim.None? && HasSlot(m, v, k)
    ensures k < |m.st.swapMap| && m.st.swapMap[k] && forall u {:trigger HasSlot(m, u, k)} :: HasSlot(m, u, k) ==> u == v
  {
    hide FaultOk, LruOk, FramesOk;
    assert m.st.vmes[v] == m.st.vmes[v];
    assert PageOk(m.st, v, Flight(m));
    forall u: nat | HasSlot(m, u, k) ensures u == v {
      assert m.st.vmes[u] == m.st.vmes[u];
      assert u != v ==> Apart(m.st, u, v, Flight(m));
    }
  }

  // ----- every run -----

  /** One operation: no frame gets lost or comes back, and no slot, but for the one that a page in a fault
      was in when a sweep took it. */
  lemma StepConserves(m: Machine, op: Op, k: nat)
    requires MInv(m) && Enabled(m, op) && SoundOp(m, op)
    ensures StrayFrame(Do(m, op), k) == StrayFrame(m, k)
    ensures StraySlot(Do(m, op), k) <==> StraySlot(m, k) || (op.SaveAt? && HasSlot(m, op.v, k))
  {
    hide MInv, StrayFrame, StraySlot, Alike;
    if op.SaveAt? {
      SaveStrayFrames(m, op, k);
      SaveStraySlots(m, op, k);
    } else if op.ClearOf? {
      ClearStrays(m, op.v, k);
    } else if op.Take? {
      TakeStrays(m, op, k);
    } else if op.Fill? {
      FillStrays(m, op.v, k);
    } else {
      QuietAlike(m, op);
      AlikeStrays(m, Do(m, op), k);
    }
  }

  /** In the run no sweep takes a page in the middle of its fault. */
  ghost predicate NoRobbery(m: Machine, ops: seq<Op>)
    decreases |ops|
  {
    ops == [] || (Enabled(m, ops[0]) ==> !(ops[0].SaveAt? && Faulting(m, ops[0].v)) && NoRobbery(Do(m, ops[0]), ops[1..]))
  }

  /** Over every sound run, frames that no page has are the same as at the start; over every one in which
      no sweep takes a page in the middle of its fault, so are the slots that no page is in. */
  lemma {:induction false} RunConserves(m: Machine, ops: seq<Op>, m': Machine, k: nat)
    requires MInv(m) && Run(m, ops, m') && Sound(m, ops)
    ensures StrayFrame(m', k) == StrayFrame(m, k)
    ensures StraySlot(m, k) ==> StraySlot(m', k)
    ensures NoRobbery(m, ops) ==> StraySlot(m', k) == StraySlot(m, k)
    decreases |ops|
  {
    hide MInv, Enabled, Do, SoundOp, StrayFrame, StraySlot, HasSlot;
    if ops != [] {
      var op := ops[0];
      StepConserves(m, op, k);
      if op.SaveAt? && !Faulting(m, op.v) {
        LoadedVictim(m, op, k);
      }
      OpPage(m, op);
      StepVisible(m, op, op.v);
      RunConserves(Do(m, op), ops[1..], m', k);
    }
  }

  lemma LoadedVictim(m: Machine, op: Op, k: nat)
    requires MInv(m) && Enabled(m, op) && op.SaveAt? && !Faulting(m, op.v)
    ensures !HasSlot(m, op.v, k)
  {
    hide Inv, FaultOk;
    VictimFramed(m, op);
  }
}
