/** Every step of the paging machine keeps its invariant and does to each page what `AfterOp` says. */
module PagingSteps {
  import opened Common
  import opened Paging
  import opened PagingProof
  import opened PagingMachine

  // ----- steps that change only bits and phases -----

  /** The same processes are in faults on the same pages, robbed or not as before. */
  ghost predicate SameFaults(m: Machine, m': Machine) {
    && m'.owner == m.owner && m'.victim == m.victim && m'.faults.Keys == m.faults.Keys
    && forall p {:trigger m'.faults[p]} :: p in m.faults ==>
         m'.faults[p].v == m.faults[p].v && m'.faults[p].robbed == m.faults[p].robbed
  }

  lemma SameFlight(m: Machine, m': Machine)
    requires SameFaults(m, m')
    ensures Flight(m') == Flight(m)
    ensures forall v {:trigger Faulting(m', v)} :: Faulting(m', v) == Faulting(m, v) && InFlight(m', v) == InFlight(m, v)
  {
    forall v: nat ensures InFlight(m', v) == InFlight(m, v) && Faulting(m', v) == Faulting(m, v) {
      if v < |m.owner| && m.owner[v] in m.faults {
        assert m'.faults[m.owner[v]] == m'.faults[m.owner[v]];
      }
    }
  }

  lemma SpoilBits(st: State, st': State, v: nat)
    requires OnlyBits(st, st') && CanEvict(st, v)
    ensures CanEvict(st', v) && Spoil(st', v) == Spoil(st, v)
  {
    assert st'.vmes[v] == st'.vmes[v] && st'.ptes[v] == st'.ptes[v];
  }

  lemma HandBits(st: State, st': State, i: nat, v: nat, flight: set<nat>)
    requires InHand(st, i, v, flight) && OnlyBits(st, st') && st'.hand == st.hand
    ensures InHand(st', i, v, flight)
  {
    ClearedBits(st, st', i);
    assert st'.vmes[v] == st'.vmes[v] && st'.ptes[v] == st'.ptes[v];
    forall w | 0 <= w < |st'.vmes| && w != v && Framed(st', w, flight) ensures st'.ptes[w].frame != st'.ptes[v].frame {
      assert Framed(st, w, flight) && st'.ptes[w].(accessed := st.ptes[w].accessed) == st.ptes[w];
    }
  }

  /** Every page in flight has a frame of its own to be saved from. */
  lemma FlightCanEvict(m: Machine, v: nat)
    requires MInv(m) && InFlight(m, v)
    ensures CanEvict(m.st, v)
  {
    hide FaultOk;
    InFlightIs(m, v);
    var flight := Flight(m);
    BaseKeeps(m, v);
    At(Base(m), flight, v);
    FrameAt(Base(m).mem, Base(m).ptes[v].frame);
  }

  /** A page other than the victim is the same with the victim cleared. */
  lemma BaseKeeps(m: Machine, v: nat)
    requires MInv(m) && v < |m.owner| && (m.victim.Some? ==> m.victim.value.v != v)
    ensures var b := Base(m);
      && Wf(m.st) && Wf(b) && v < |b.vmes| == |m.st.vmes| && b.vmes[v] == m.st.vmes[v] && b.ptes[v] == m.st.ptes[v]
      && b.mem == m.st.mem && b.files == m.st.files && Visible(b, v) == Visible(m.st, v)
  {
    hide FaultOk, PageOk, Apart, LruOk, FramesOk;
    if m.victim.Some? {
      ClearKeeps(m.st, m.victim.value.i, v);
    }
  }

  lemma VictimNotInFlight(m: Machine, v: nat)
    requires MInv(m) && InFlight(m, v)
    ensures m.victim.Some? ==> m.victim.value.v != v
  {
    InFlightIs(m, v);
  }

  lemma QuietStep(m: Machine, m': Machine, v: nat)
    requires MInv(m) && v < |m.owner| && SameFaults(m, m') && !m'.astray
    requires OnlyBits(m.st, m'.st) && m'.st.hand == m.st.hand
    requires forall p {:trigger m'.faults[p]} :: p in m'.faults ==> FaultOk(m', p)
    ensures MInv(m') && CopyOf(m', v) == CopyOf(m, v)
  {
    SameFlight(m, m');
    QuietBase(m, m');
    MachineVisible(m, v);
    hide FaultOk, Inv, InHand;
    MachineVisible(m', v);
    BitsVisible(m.st, m'.st, v);
    SameAt(Base(m), Base(m'), v);
    assert Faulting(m', v) == Faulting(m, v) && InFlight(m', v) == InFlight(m, v);
    if InFlight(m, v) {
      FlightCanEvict(m, v);
      SpoilBits(m.st, m'.st, v);
    }
  }

  lemma BitsVisible(st: State, st': State, v: nat)
    requires OnlyBits(st, st') && v < |st.vmes|
    ensures Visible(st', v) == Visible(st, v) && st'.vmes[v].loaded == st.vmes[v].loaded
  {
    assert st'.vmes[v] == st'.vmes[v] && st'.ptes[v] == st'.ptes[v];
  }

  lemma QuietBase(m: Machine, m': Machine)
    requires MInv(m) && SameFaults(m, m') && OnlyBits(m.st, m'.st) && m'.st.hand == m.st.hand && Flight(m') == Flight(m)
    ensures Inv(Base(m'), Flight(m')) && SameView(Base(m), Base(m'))
    ensures m.victim.Some? ==>
      && InHand(m'.st, m.victim.value.i, m.victim.value.v, Flight(m'))
      && (m'.st.vmes[m.victim.value.v].loaded || Faulting(m', m.victim.value.v))
  {
    hide FaultOk;
    HandOk(Base(m), Flight(m));
    if m.victim.Some? {
      ClearedBits(m.st, m'.st, m.victim.value.i);
      HandBits(m.st, m'.st, m.victim.value.i, m.victim.value.v, Flight(m));
      SameFlight(m, m');
      BitsVisible(m.st, m'.st, m.victim.value.v);
    }
    hide Inv;
    BitsInvisible(Base(m), Flight(m), Base(m'));
  }

  lemma BitsStep(m: Machine, op: Op, v: nat)
    requires MInv(m) && Enabled(m, op) && v < |m.owner| && (op.Read? || op.Sweep? || op.SetPin?)
    ensures MInv(Do(m, op)) && CopyOf(Do(m, op), v) == CopyOf(m, v)
  {
    hide MInv, FaultOk, OnlyBits;
    MachineVisible(m, v);
    BitsOnly(m.st, op, m, Do(m, op).st);
    BitsFaults(m, Do(m, op));
    QuietStep(m, Do(m, op), v);
  }

  lemma BitsOnly(st: State, op: Op, m: Machine, st': State)
    requires Enabled(m, op) && st == m.st && Wf(st) && st' == Do(m, op).st
    requires op.Read? || op.Sweep? || op.SetPin? || ((op.Tie? || op.ReadType? || op.PinPage?) && op.v < |st.vmes|)
    ensures OnlyBits(st, st') && st'.hand == st.hand
  {
  }

  lemma BitsFaults(m: Machine, m': Machine)
    requires MInv(m) && OnlyBits(m.st, m'.st) && m'.faults == m.faults && m'.owner == m.owner && m'.victim == m.victim
    ensures SameFaults(m, m') && forall p {:trigger m'.faults[p]} :: p in m'.faults ==> FaultOk(m', p)
  {
    hide Inv, InHand;
    forall p | p in m'.faults ensures FaultOk(m', p) {
      assert FaultOk(m, p);
      var v := m.faults[p].v;
      assert m'.st.vmes[v] == m'.st.vmes[v] && m'.st.ptes[v] == m'.st.ptes[v];
    }
  }

  lemma PhaseStep(m: Machine, op: Op, v: nat)
    requires MInv(m) && Enabled(m, op) && v < |m.owner| && (op.Tie? || op.ReadType? || op.PinPage?)
    ensures MInv(Do(m, op)) && CopyOf(Do(m, op), v) == CopyOf(m, v)
  {
    hide MInv, FaultOk, OnlyBits, SameFaults, Enabled, Do, Inv, CopyOf;
    MachineVisible(m, v);
    PhaseBits(m, op);
    PhaseFaults(m, op);
    QuietStep(m, Do(m, op), v);
  }

  lemma PhaseBits(m: Machine, op: Op)
    requires MInv(m) && Wf(m.st) && Enabled(m, op) && (op.Tie? || op.ReadType? || op.PinPage?)
    ensures OnlyBits(m.st, Do(m, op).st) && Do(m, op).st.hand == m.st.hand && !Do(m, op).astray
  {
    hide Inv, InHand, FaultOk, OnlyBits, Do;
    BitsOnly(m.st, op, m, Do(m, op).st);
    PhaseCalm(m, op);
  }

  lemma PhaseCalm(m: Machine, op: Op)
    requires Enabled(m, op) && (op.Tie? || op.ReadType? || op.PinPage?)
    ensures !Do(m, op).astray
  {
  }

  lemma PhaseFaults(m: Machine, op: Op)
    requires MInv(m) && Enabled(m, op) && (op.Tie? || op.ReadType? || op.PinPage?)
    ensures SameFaults(m, Do(m, op))
    ensures forall p {:trigger Do(m, op).faults[p]} :: p in Do(m, op).faults ==> FaultOk(Do(m, op), p)
  {
    hide Inv, InHand, FaultOk, Do, Enabled, SameFaults;
    PhaseSame(m, op);
    forall p | p in Do(m, op).faults ensures FaultOk(Do(m, op), p) {
      PhaseFault(m, op, p);
    }
  }

  lemma PhaseSame(m: Machine, op: Op)
    requires Enabled(m, op) && (op.Tie? || op.ReadType? || op.PinPage?)
    ensures SameFaults(m, Do(m, op)) && Do(m, op).faults.Keys == m.faults.Keys
  {
  }

  lemma PhaseFault(m: Machine, op: Op, p: nat)
    requires Enabled(m, op) && (op.Tie? || op.ReadType? || op.PinPage?)
    requires p in m.faults && p in Do(m, op).faults && FaultOk(m, p)
    ensures FaultOk(Do(m, op), p)
  {
  }

  // ----- eviction -----

  lemma ClearStep(m: Machine, op: Op, v: nat)
    requires MInv(m) && Enabled(m, op) && v < |m.owner| && op.ClearOf?
    ensures MInv(Do(m, op)) && CopyOf(Do(m, op), v) == AfterOp(CopyOf(m, v), op, v)
  {
    var m' := Do(m, op);
    assert Flight(m') == Flight(m);
    ClearFaults(m, m');
    hide Inv, FaultOk;
    MachineVisible(m, v);
    MachineVisible(m', v);
    if InFlight(m, v) {
      VictimNotInFlight(m, v);
      FlightCanEvict(m, v);
      FlightCanEvict(m', v);
      ClearKeeps(m.st, m.victim.value.i, v);
      SpoilSame(m.st, m'.st, v);
    }
  }

  lemma ClearFaults(m: Machine, m': Machine)
    requires MInv(m) && m.victim.Some? && CanClear(m.st, m.victim.value.i)
    requires m' == m.(st := Clear(m.st, m.victim.value.i), victim := None)
    ensures forall p {:trigger m'.faults[p]} :: p in m'.faults ==> FaultOk(m', p)
  {
    hide Inv;
    forall p | p in m'.faults ensures FaultOk(m', p) {
      assert FaultOk(m, p);
      var v := m.faults[p].v;
      assert m'.st.vmes[v].kind == m.st.vmes[v].kind && m'.st.ptes[v].frame == m.st.ptes[v].frame;
    }
  }

  lemma SpoilSame(st: State, st': State, v: nat)
    requires CanEvict(st, v) && CanEvict(st', v) && st'.ptes[v].dirty == st.ptes[v].dirty
    requires st'.vmes[v].kind == st.vmes[v].kind && st'.vmes[v].readBytes == st.vmes[v].readBytes
    requires st'.mem[st'.ptes[v].frame] == st.mem[st.ptes[v].frame]
    ensures Spoil(st', v) == Spoil(st, v)
  {
  }

  lemma SaveFlight(m: Machine, op: Op)
    requires MInv(m) && Enabled(m, op) && op.SaveAt?
    ensures Flight(Do(m, op)) == Flight(m) - {op.v} && op.v < |m.owner|
    ensures forall v {:trigger Faulting(Do(m, op), v)} :: Faulting(Do(m, op), v) == Faulting(m, v)
    ensures forall v {:trigger InFlight(Do(m, op), v)} :: InFlight(Do(m, op), v) == (InFlight(m, v) && v != op.v)
  {
    hide Inv, Save;
    var m' := Do(m, op);
    forall v: nat ensures InFlight(m', v) == (InFlight(m, v) && v != op.v) && Faulting(m', v) == Faulting(m, v) {
      if Faulting(m, v) && v != op.v {
        assert FaultOk(m, m.owner[v]);
      }
      if Faulting(m, op.v) {
        assert FaultOk(m, m.owner[op.v]);
      }
    }
  }

  lemma SaveStep(m: Machine, op: Op, v: nat)
    requires MInv(m) && Enabled(m, op) && v < |m.owner| && op.SaveAt?
    ensures MInv(Do(m, op)) && CopyOf(Do(m, op), v) == AfterOp(CopyOf(m, v), op, v)
  {
    hide Inv, FaultOk, InHand, Save, Visible, Spoil;
    var m', st, u := Do(m, op), m.st, op.v;
    SaveKeeps(m, op);
    MachineVisible(m, v);
    MachineVisible(m', v);
    SaveBase(m, op, v);
    SaveFlight(m, op);
    assert Faulting(m', v) == Faulting(m, v) && InFlight(m', v) == (InFlight(m, v) && v != u);
    if v != u {
      if InFlight(m, v) {
        FlightCanEvict(m, v);
        FlightCanEvict(m', v);
        SaveKeepsPage(st, u, v);
        SpoilSame(st, m'.st, v);
      }
    } else if st.vmes[u].loaded {
      SaveVisible(st, u);
      LoadedNotFaulting(m, u);
    } else {
      SaveUnloaded(st, u);
    }
  }

  lemma SaveKeeps(m: Machine, op: Op)
    requires MInv(m) && Enabled(m, op) && op.SaveAt?
    ensures MInv(Do(m, op)) && Base(Do(m, op)) == Evict(m.st, op.i)
  {
    hide FaultOk, Save, PageOk, Apart, LruOk, FramesOk, Spoil, Visible, InHand;
    SaveShape(m.st, op.v);
    SaveFlight(m, op);
    EvictTransparent(m.st, Flight(m), op.i);
    SaveInHand(m, op);
    SaveFaults(m, op);
  }

  /** What is saved of the victim, and what is left of every other page. */
  lemma SaveBase(m: Machine, op: Op, v: nat)
    requires MInv(m) && Enabled(m, op) && op.SaveAt? && v < |m.owner| && v < |m.st.vmes| && Wf(m.st)
    ensures Wf(Evict(m.st, op.i)) && v < |Evict(m.st, op.i).vmes|
    ensures Visible(Evict(m.st, op.i), v) ==
      if v == op.v && InFlight(m, v) && SpoilOf(m, v).Some? then SpoilOf(m, v) else Visible(m.st, v)
    ensures op.v < |m.st.vmes| && (m.st.vmes[op.v].loaded || InFlight(m, op.v))
  {
    hide FaultOk, Save, PageOk, Apart, LruOk, FramesOk, Spoil, Visible, InHand;
    EvictTransparent(m.st, Flight(m), op.i);
    LruCanEvict(m.st, Flight(m), op.i);
    InFlightIs(m, v);
    InFlightIs(m, op.v);
    assert Evict(m.st, op.i).vmes[v] == Evict(m.st, op.i).vmes[v];
  }

  lemma LoadedNotFaulting(m: Machine, u: nat)
    requires MInv(m) && u < |m.st.vmes| && m.st.vmes[u].loaded
    ensures !Faulting(m, u)
  {
    hide Inv;
    assert Faulting(m, u) ==> FaultOk(m, m.owner[u]);
  }

  lemma SaveKeepsPage(st: State, u: nat, v: nat)
    requires CanEvict(st, u) && v < |st.vmes| && v != u
    ensures Save(st, u).vmes[v] == st.vmes[v] && Save(st, u).ptes == st.ptes && Save(st, u).mem == st.mem
  {
  }

  lemma SaveFaults(m: Machine, op: Op)
    requires MInv(m) && Enabled(m, op) && op.SaveAt?
    ensures forall p {:trigger Do(m, op).faults[p]} :: p in Do(m, op).faults ==> FaultOk(Do(m, op), p)
    ensures |Do(m, op).st.vmes| == |m.st.vmes|
  {
    hide Inv;
    var m' := Do(m, op);
    SaveShape(m.st, op.v);
    forall p | p in m'.faults ensures FaultOk(m', p) {
      assert FaultOk(m, p);
      var v := m.faults[p].v;
      assert m'.st.vmes[v].loaded == m.st.vmes[v].loaded;
      if v != op.v {
        SaveKeepsPage(m.st, op.v, v);
      }
    }
  }

  lemma SaveInHand(m: Machine, op: Op)
    requires MInv(m) && Enabled(m, op) && op.SaveAt? && Flight(Do(m, op)) == Flight(m) - {op.v}
    ensures InHand(Do(m, op).st, op.i, op.v, Flight(Do(m, op)))
    ensures Do(m, op).st.vmes[op.v].loaded || Faulting(Do(m, op), op.v)
  {
    var st, u, flight := m.st, op.v, Flight(m);
    SaveShape(st, u);
    LruCanEvict(st, flight, op.i);
    At(st, flight, u);
    InFlightIs(m, u);
    var st' := Save(st, u);
    forall w | 0 <= w < |st'.vmes| && w != u && Framed(st', w, flight - {u}) ensures st'.ptes[w].frame != st'.ptes[u].frame {
      SaveKeepsPage(st, u, w);
      ApartAt(st, flight, u, w);
    }
    hide Inv;
  }

  /** Until it is cleared, the process goes on seeing the frame. */
  lemma SaveVisible(st: State, u: nat)
    requires CanEvict(st, u) && st.vmes[u].loaded
    ensures Wf(Save(st, u)) && u < |Save(st, u).vmes| && Visible(Save(st, u), u) == Visible(st, u)
  {
  }

  /** A page that is not loaded is what it is saved as. */
  lemma SaveUnloaded(st: State, u: nat)
    requires CanEvict(st, u) && !st.vmes[u].loaded
    ensures Wf(Save(st, u)) && u < |Save(st, u).vmes| && !Save(st, u).vmes[u].loaded
  {
  }

  // ----- writes -----

  /** The frame of a page in flight is not that of any other page that has one. */
  lemma OwnFrame(m: Machine, w: nat, v: nat)
    requires MInv(m) && w != v && w < |m.st.vmes| && InFlight(m, v)
    requires m.st.vmes[w].loaded || InFlight(m, w)
    ensures v < |m.st.vmes| && m.st.ptes[w].frame != m.st.ptes[v].frame
  {
    hide FaultOk, PageOk, LruOk, FramesOk;
    InFlightIs(m, v);
    InFlightIs(m, w);
    VictimNotInFlight(m, v);
    BaseKeeps(m, v);
    if m.victim.Some? && m.victim.value.v == w {
      assert m.st.vmes[v] == m.st.vmes[v];
    } else {
      BaseKeeps(m, w);
      ApartAt(Base(m), Flight(m), w, v);
    }
  }

  /** Nor is the victim's. */
  lemma VictimFrame(m: Machine, w: nat)
    requires MInv(m) && m.victim.Some? && m.victim.value.v != w && w < |m.st.vmes|
    requires m.st.vmes[w].loaded || InFlight(m, w)
    ensures m.victim.value.v < |m.st.vmes| && m.st.ptes[w].frame != m.st.ptes[m.victim.value.v].frame
  {
    hide Inv, FaultOk;
    InFlightIs(m, w);
    assert Framed(m.st, w, Flight(m)) && m.st.vmes[w] == m.st.vmes[w];
  }

  lemma LoadedSame(st: State, st': State, v: nat)
    requires Wf(st) && Wf(st') && v < |st.vmes| == |st'.vmes| && st.vmes[v].loaded && |st'.mem| == |st.mem|
    requires st'.vmes[v] == st.vmes[v] && st'.ptes[v] == st.ptes[v]
    requires st.ptes[v].frame < |st.mem| ==> st'.mem[st.ptes[v].frame] == st.mem[st.ptes[v].frame]
    ensures Visible(st', v) == Visible(st, v)
  {
  }

  lemma WriteFaults(m: Machine, op: Op)
    requires MInv(m) && Enabled(m, op) && op.Write?
    ensures SameFaults(m, Do(m, op))
    ensures forall p {:trigger Do(m, op).faults[p]} :: p in Do(m, op).faults ==> FaultOk(Do(m, op), p)
  {
    hide Inv, InHand;
    var m' := Do(m, op);
    forall p | p in m'.faults ensures FaultOk(m', p) {
      assert FaultOk(m, p);
      assert m'.st.ptes[m.faults[p].v].frame == m.st.ptes[m.faults[p].v].frame;
    }
  }

  lemma WriteHand(m: Machine, op: Op)
    requires MInv(m) && Enabled(m, op) && op.Write? && m.victim.Some?
    ensures InHand(Do(m, op).st, m.victim.value.i, m.victim.value.v, Flight(m))
  {
    hide Inv, FaultOk;
    var st, st', u := m.st, Do(m, op).st, m.victim.value.v;
    assert st'.ptes[u].frame == st.ptes[u].frame;
    forall w | 0 <= w < |st'.vmes| && w != u && Framed(st', w, Flight(m)) ensures st'.ptes[w].frame != st'.ptes[u].frame {
      assert Framed(st, w, Flight(m)) && st.vmes[w] == st.vmes[w];
    }
  }

  /** What a write does to the state with the victim cleared. */
  lemma WriteBase(m: Machine, op: Op, v: nat)
    requires MInv(m) && Enabled(m, op) && op.Write? && v < |m.owner|
    ensures var b, b' := Base(m), Base(Do(m, op));
      && Inv(b', Flight(m)) && |b.vmes| == |b'.vmes| == |m.st.vmes| && v < |b.vmes| && Wf(b)
      && Visible(b, v).Some?
      && Visible(b', v) == if m.victim.Some? && m.victim.value.v == op.v then Visible(b, v)
           else Some(AfterWrite(Visible(b, v).value, op, v))
  {
    hide FaultOk, PageOk, Apart, LruOk, FramesOk;
    var st, w := m.st, op.v;
    MachineVisible(m, v);
    if m.victim.None? {
      WriteVisible(st, Flight(m), w, op.ofs, op.b);
    } else if m.victim.value.v != w {
      BaseKeeps(m, w);
      ClearWrite(st, Flight(m), m.victim.value.i, m.victim.value.v, w, op.ofs, op.b);
      hide Inv;
      WriteVisible(Base(m), Flight(m), w, op.ofs, op.b);
    } else {
      hide Inv;
      WriteVictim(m, op);
      SameAt(Base(m), Base(Do(m, op)), v);
    }
  }

  /** The bytes x with one operation's write, if it is to page v. */
  function AfterWrite(x: Bytes, op: Op, v: nat): Bytes {
    if op.Write? && op.v == v && op.ofs < |x| then x[op.ofs := op.b] else x
  }

  /** A write into the victim does not reach what was saved. */
  lemma WriteVictim(m: Machine, op: Op)
    requires MInv(m) && Enabled(m, op) && op.Write? && m.victim.Some? && m.victim.value.v == op.v
    ensures Inv(Base(Do(m, op)), Flight(m)) && SameView(Base(m), Base(Do(m, op)))
  {
    hide FaultOk, PageOk, Apart, LruOk, FramesOk;
    var st, i, u := m.st, m.victim.value.i, op.v;
    var c, f := Clear(st, i), st.ptes[u].frame;
    ClearOwnWrite(st, Flight(m), i, u, op.ofs, op.b);
    NoFrame(st, Flight(m), i, u);
    hide Inv, NobodyHas;
    GarbageInvisible(c, Flight(m), u, st.mem[f][op.ofs := op.b], c.ptes[u].(dirty := true, accessed := true));
  }

  lemma NoFrame(st: State, flight: set<nat>, i: nat, u: nat)
    requires InHand(st, i, u, flight)
    ensures var c := Clear(st, i);
      && u < |c.vmes| && !Framed(c, u, flight) && c.ptes[u].frame == st.ptes[u].frame && c.mem == st.mem
      && Wf(c) && NobodyHas(c, flight, c.ptes[u].frame)
  {
    var c := Clear(st, i);
    forall w | 0 <= w < |c.vmes| && Framed(c, w, flight) ensures c.ptes[w].frame != c.ptes[u].frame {
      assert Framed(st, w, flight) && st.vmes[w] == st.vmes[w];
    }
  }

  /** What the process sees of the page it writes. */
  lemma WriteSeen(m: Machine, op: Op)
    requires MInv(m) && Enabled(m, op) && op.Write? && Wf(m.st) && Visible(m.st, op.v).Some?
    ensures Visible(Do(m, op).st, op.v) == Some(AfterWrite(Visible(m.st, op.v).value, op, op.v))
  {
    hide FaultOk, InHand;
    var st, w := m.st, op.v;
    assert |st.mem[st.ptes[w].frame]| == PGSIZE by {
      MemBase(m);
      FrameAt(Base(m).mem, st.ptes[w].frame);
    }
    hide Inv;
  }

  lemma MemBase(m: Machine)
    requires MInv(m)
    ensures Base(m).mem == m.st.mem && FramesOk(m.st.mem)
  {
    hide FaultOk, PageOk, Apart, LruOk;
  }

  lemma WriteStep(m: Machine, op: Op, v: nat)
    requires MInv(m) && Enabled(m, op) && v < |m.owner| && op.Write?
    ensures MInv(Do(m, op)) && CopyOf(Do(m, op), v) == AfterOp(CopyOf(m, v), op, v)
  {
    hide Inv, Visible, InHand, FaultOk;
    var m' := Do(m, op);
    WriteFaults(m, op);
    SameFlight(m, m');
    WriteBase(m, op, v);
    if m.victim.Some? {
      WriteHand(m, op);
    }
    MachineVisible(m, v);
    MachineVisible(m', v);
    MachineVisible(m, op.v);
    LoadedNotFaulting(m, op.v);
    assert Faulting(m', v) == Faulting(m, v) && InFlight(m', v) == InFlight(m, v);
    if v == op.v {
      WriteSeen(m, op);
    } else if m.victim.Some? && m.victim.value.v == v && m.st.vmes[v].loaded {
      VictimFrame(m, op.v);
      LoadedSame(m.st, m'.st, v);
    } else if InFlight(m, v) {
      OwnFrame(m, op.v, v);
      FlightCanEvict(m, v);
      FlightCanEvict(m', v);
      SpoilSame(m.st, m'.st, v);
    }
  }

  // ----- faults -----

  lemma TakeFlight(m: Machine, op: Op)
    requires MInv(m) && Enabled(m, op) && op.Take?
    ensures Flight(Do(m, op)) == Flight(m) + {op.v} && op.v !in Flight(m) && InFlight(Do(m, op), op.v)
    ensures forall v {:trigger Faulting(Do(m, op), v)} :: v != op.v ==>
      Faulting(Do(m, op), v) == Faulting(m, v) && InFlight(Do(m, op), v) == InFlight(m, v)
  {
    hide Inv, InHand, FaultOk;
    var m' := Do(m, op);
    forall v: nat | v != op.v ensures Faulting(m', v) == Faulting(m, v) && InFlight(m', v) == InFlight(m, v) {
    }
    assert InFlight(m', op.v) && !InFlight(m, op.v);
  }

  lemma TakeFaults(m: Machine, op: Op)
    requires MInv(m) && Enabled(m, op) && op.Take?
    ensures forall p {:trigger Do(m, op).faults[p]} :: p in Do(m, op).faults ==> FaultOk(Do(m, op), p)
  {
    hide Inv, InHand;
    var m' := Do(m, op);
    forall p | p in m'.faults ensures FaultOk(m', p) {
      if p != m.owner[op.v] {
        assert FaultOk(m, p);
      }
    }
  }

  lemma TakeStep(m: Machine, op: Op, v: nat)
    requires MInv(m) && Enabled(m, op) && v < |m.owner| && op.Take?
    ensures MInv(Do(m, op)) && CopyOf(Do(m, op), v) == AfterOp(CopyOf(m, v), op, v)
  {
    hide Inv, Visible, InHand, FaultOk, Spoil;
    var m' := Do(m, op);
    TakeFlight(m, op);
    TakeFaults(m, op);
    TakeTransparent(m.st, Flight(m), op.v, op.f);
    MachineVisible(m, v);
    MachineVisible(m', v);
    SameAt(m.st, m'.st, v);
    if v != op.v {
      assert Faulting(m', v) == Faulting(m, v);
      if InFlight(m, v) {
        FlightCanEvict(m, v);
        FlightCanEvict(m', v);
        SpoilSame(m.st, m'.st, v);
      }
    }
  }

  lemma FillFlight(m: Machine, op: Op)
    requires MInv(m) && Enabled(m, op) && op.Fill? && InFlight(m, op.v)
    ensures Flight(Do(m, op)) == Flight(m) - {op.v} && op.v in Flight(m) && !Faulting(Do(m, op), op.v)
    ensures forall v {:trigger Faulting(Do(m, op), v)} :: v != op.v ==>
      Faulting(Do(m, op), v) == Faulting(m, v) && InFlight(Do(m, op), v) == InFlight(m, v)
    ensures FaultOn(m, op.v).phase.kind == m.st.vmes[op.v].kind
  {
    hide Inv, InHand;
    assert FaultOk(m, m.owner[op.v]);
    forall v: nat | v != op.v ensures Faulting(Do(m, op), v) == Faulting(m, v) && InFlight(Do(m, op), v) == InFlight(m, v) {
    }
  }

  lemma FillFaults(m: Machine, op: Op)
    requires MInv(m) && Enabled(m, op) && op.Fill?
    ensures forall p {:trigger Do(m, op).faults[p]} :: p in Do(m, op).faults ==> FaultOk(Do(m, op), p)
  {
    hide Inv, InHand;
    var m' := Do(m, op);
    forall p | p in m'.faults ensures FaultOk(m', p) {
      assert FaultOk(m, p);
      assert m.faults[p].v != op.v;
    }
  }

  lemma FillHand(m: Machine, op: Op)
    requires MInv(m) && Enabled(m, op) && op.Fill? && InFlight(m, op.v) && m.victim.Some?
    requires Flight(Do(m, op)) == Flight(m) - {op.v} && op.v in Flight(m)
    ensures InHand(Do(m, op).st, m.victim.value.i, m.victim.value.v, Flight(Do(m, op)))
  {
    hide Inv, FaultOk;
    var st, st', u := m.st, Do(m, op).st, m.victim.value.v;
    VictimNotInFlight(m, op.v);
    assert st.vmes[op.v] == st.vmes[op.v] && Framed(st, op.v, Flight(m));
    forall w | 0 <= w < |st'.vmes| && w != u && Framed(st', w, Flight(m) - {op.v}) ensures st'.ptes[w].frame != st'.ptes[u].frame {
      assert Framed(st, w, Flight(m)) && st.vmes[w] == st.vmes[w];
    }
  }

  lemma FillBase(m: Machine, op: Op)
    requires MInv(m) && Enabled(m, op) && op.Fill? && InFlight(m, op.v)
    requires op.v in Flight(m) && FaultOn(m, op.v).phase.kind == m.st.vmes[op.v].kind
    ensures Inv(Base(Do(m, op)), Flight(m) - {op.v}) && SameView(Base(m), Base(Do(m, op)))
  {
    hide FaultOk, PageOk, Apart, LruOk, FramesOk;
    VictimNotInFlight(m, op.v);
    BaseKeeps(m, op.v);
    if m.victim.Some? {
      ClearFill(m.st, Flight(m), m.victim.value.i, m.victim.value.v, op.v, m.st.vmes[op.v].kind);
    }
    hide Inv;
    FillTransparent(Base(m), Flight(m), op.v);
  }

  lemma FillStep(m: Machine, op: Op, v: nat)
    requires MInv(m) && Enabled(m, op) && v < |m.owner| && op.Fill? && InFlight(m, op.v)
    ensures MInv(Do(m, op)) && CopyOf(Do(m, op), v) == AfterOp(CopyOf(m, v), op, v)
  {
    hide Inv, Visible, InHand, FaultOk, Spoil;
    var m' := Do(m, op);
    FillFlight(m, op);
    FillFaults(m, op);
    VictimNotInFlight(m, op.v);
    if m.victim.Some? {
      FillHand(m, op);
      FillVictim(m, op);
    }
    FillBase(m, op);
    MachineVisible(m, v);
    MachineVisible(m', v);
    SameAt(Base(m), Base(m'), v);
    if v != op.v {
      FillSeen(m.st, op.v, FaultOn(m, op.v).phase.kind, v);
      assert Faulting(m', v) == Faulting(m, v) && InFlight(m', v) == InFlight(m, v);
      if m.victim.Some? && m.victim.value.v == v && m.st.vmes[v].loaded {
        VictimFrame(m, op.v);
        LoadedSame(m.st, m'.st, v);
      }
      if InFlight(m, v) {
        OwnFrame(m, op.v, v);
        FlightCanEvict(m, v);
        FlightCanEvict(m', v);
        SpoilSame(m.st, m'.st, v);
      }
    }
  }

  lemma FillVictim(m: Machine, op: Op)
    requires MInv(m) && Enabled(m, op) && op.Fill? && InFlight(m, op.v) && m.victim.Some? && m.victim.value.v != op.v
    ensures var u, m' := m.victim.value.v, Do(m, op);
      u < |m'.st.vmes| && (m'.st.vmes[u].loaded || Faulting(m', u))
  {
    hide Inv;
    FillFlight(m, op);
    assert Faulting(Do(m, op), m.victim.value.v) == Faulting(m, m.victim.value.v);
  }

  lemma FillSeen(st: State, u: nat, kind: Kind, v: nat)
    requires CanFill(st, u, kind) && v < |st.vmes| && v != u
    ensures var st' := Filled(st, u, kind);
      st'.vmes[v] == st.vmes[v] && st'.ptes[v] == st.ptes[v] && |st'.vmes| == |st.vmes|
      && (st.ptes[v].frame < |st.mem| && st.ptes[v].frame != st.ptes[u].frame ==> st'.mem[st.ptes[v].frame] == st.mem[st.ptes[v].frame])
  {
  }

  // ----- every step -----

  /** Exactly what one step does to a page, as its process sees it, as it is saved and as it is taken. */
  lemma StepVisible(m: Machine, op: Op, v: nat)
    requires MInv(m) && Enabled(m, op) && SoundOp(m, op) && v < |m.owner|
    ensures MInv(Do(m, op)) && Do(m, op).owner == m.owner
    ensures CopyOf(Do(m, op), v) == AfterOp(CopyOf(m, v), op, v)
  {
    hide MInv, Enabled, Do, CopyOf, InFlight;
    OwnersStay(m, op);
    match op
    case Write(_, _, _) => WriteStep(m, op, v);
    case SaveAt(_, _, _) => SaveStep(m, op, v);
    case ClearOf(_) => ClearStep(m, op, v);
    case Take(_, _, _) => TakeStep(m, op, v);
    case Fill(_) => FillStep(m, op, v);
    case Tie(_) => PhaseStep(m, op, v);
    case ReadType(_) => PhaseStep(m, op, v);
    case PinPage(_) => PhaseStep(m, op, v);
    case _ => BitsStep(m, op, v);
  }

  lemma OwnersStay(m: Machine, op: Op)
    requires Enabled(m, op)
    ensures Do(m, op).owner == m.owner
  {
  }

  /** Every operation is about a page. */
  lemma OpPage(m: Machine, op: Op)
    requires MInv(m) && Enabled(m, op)
    ensures op.v < |m.owner|
  {
    hide FaultOk, PageOk, Apart, FramesOk;
    if op.StrayVisit? || op.ClearOf? {
      hide Inv;
    }
  }
}
