/** A fault and the sweeps of other processes: exactly when a page comes back with what it had. Also where
    a run may start, and where the clock may end. */
module PagingFaults {
  import opened Common
  import opened Paging
  import opened PagingProof
  import opened PagingMachine
  import opened PagingSteps
  import opened PagingRuns

  // ----- from taking a frame to filling it -----

  /** A sweep takes page v. */
  predicate TakenIn(ops: seq<Op>, v: nat)
    decreases |ops|
  {
    ops != [] && ((ops[0].SaveAt? && ops[0].v == v) || TakenIn(ops[1..], v))
  }

  /** What is left of a page in a fault. */
  function LeftOf(c: Copy, taken: bool): Bytes {
    if taken && c.place.Away? && c.place.spoil.Some? then c.place.spoil.value else c.now
  }

  lemma FaultStays(m: Machine, op: Op, v: nat)
    requires Enabled(m, op) && Faulting(m, v) && op != Fill(v)
    ensures Faulting(Do(m, op), v) && FaultOn(Do(m, op), v).robbed == (FaultOn(m, v).robbed || (op.SaveAt? && op.v == v))
    ensures !(op.Write? && op.v == v) && !(op.Take? && op.v == v)
  {
  }

  lemma {:induction false} MeanwhileFault(m: Machine, ops: seq<Op>, m': Machine, v: nat)
    requires MInv(m) && Run(m, ops, m') && Sound(m, ops) && Faulting(m, v) && Fill(v) !in ops
    ensures MInv(m') && m'.owner == m.owner && Faulting(m', v)
    ensures FaultOn(m', v).robbed == (FaultOn(m, v).robbed || TakenIn(ops, v))
    ensures CopyOf(m', v).now == LeftOf(CopyOf(m, v), TakenIn(ops, v))
    decreases |ops|
  {
    hide MInv, SoundOp, Enabled, Do, SpoilOf;
    if ops != [] {
      StepVisible(m, ops[0], v);
      assert ops[0] in ops;
      FaultStays(m, ops[0], v);
      assert forall op {:trigger op in ops[1..]} :: op in ops[1..] ==> op in ops;
      MeanwhileFault(Do(m, ops[0]), ops[1..], m', v);
    }
  }

  predicate HasType(phase: Phase) { phase.Typed? || phase.Pinned? }

  /** The type of a page in a fault: it changes only when a sweep writes a page of an executable to swap,
      and the executable's bytes stay. */
  ghost predicate KindOk(m: Machine, v: nat, kind0: Kind, image: Bytes) {
    && Faulting(m, v) && v < |m.st.vmes|
    && var kind, fault := m.st.vmes[v].kind, FaultOn(m, v);
       && (kind == kind0 || (kind0.Bin? && kind.Anon? && fault.robbed))
       && (HasType(fault.phase) ==> fault.phase.kind in {kind, kind0})
       && (kind0.Bin? ==> Backed(m.st, v) && FileImage(m.st, v) == image)
  }

  lemma KindStep(m: Machine, op: Op, v: nat, kind0: Kind, image: Bytes)
    requires MInv(m) && Enabled(m, op) && KindOk(m, v, kind0, image) && op != Fill(v)
    ensures KindOk(Do(m, op), v, kind0, image)
  {
    hide Inv, InHand, FaultOk;
    FaultStays(m, op, v);
    if op.SaveAt? {
      KindSave(m, op, v, kind0, image);
    } else {
      hide MInv;
      KindOther(m, op, v);
    }
  }

  lemma KindSave(m: Machine, op: Op, v: nat, kind0: Kind, image: Bytes)
    requires MInv(m) && Enabled(m, op) && KindOk(m, v, kind0, image) && op.SaveAt?
    requires Faulting(Do(m, op), v) && FaultOn(Do(m, op), v).robbed == (FaultOn(m, v).robbed || op.v == v)
    ensures KindOk(Do(m, op), v, kind0, image)
  {
    hide InHand, FaultOk, PageOk, LruOk, FramesOk, FileImage;
    SaveShape(m.st, op.v);
    if op.v != v {
      LruCanEvict(m.st, Flight(m), op.i);
      ApartAt(m.st, Flight(m), op.v, v);
      SaveKeepsPage(m.st, op.v, v);
      SaveKeepsImage(m.st, op.v, v);
    } else {
      SaveOwnImage(m.st, v);
    }
  }

  lemma SaveOwnImage(st: State, v: nat)
    requires CanEvict(st, v)
    ensures var st' := Save(st, v);
      && |st'.vmes| == |st.vmes| && (st'.vmes[v].kind == st.vmes[v].kind || (st.vmes[v].kind.Bin? && st'.vmes[v].kind.Anon?))
      && (!st.vmes[v].kind.File? && Backed(st, v) ==> Backed(st', v) && FileImage(st', v) == FileImage(st, v))
  {
  }

  lemma KindOther(m: Machine, op: Op, v: nat)
    requires Enabled(m, op) && !op.SaveAt? && op != Fill(v) && v < |m.st.vmes| && Faulting(m, v)
    ensures var m' := Do(m, op);
      && v < |m'.st.vmes| && m'.st.vmes[v].kind == m.st.vmes[v].kind
      && (Backed(m.st, v) ==> Backed(m'.st, v) && FileImage(m'.st, v) == FileImage(m.st, v))
      && Faulting(m', v) && (HasType(FaultOn(m', v).phase) ==>
            || FaultOn(m', v).phase.kind == m.st.vmes[v].kind
            || (HasType(FaultOn(m, v).phase) && FaultOn(m', v).phase.kind == FaultOn(m, v).phase.kind))
  {
  }

  lemma {:induction false} KindRun(m: Machine, ops: seq<Op>, m': Machine, v: nat, kind0: Kind, image: Bytes)
    requires MInv(m) && Run(m, ops, m') && Sound(m, ops) && Fill(v) !in ops && KindOk(m, v, kind0, image)
    ensures KindOk(m', v, kind0, image)
    decreases |ops|
  {
    hide MInv, SoundOp, Enabled, Do, KindOk;
    if ops != [] {
      KindFaulting(m, v, kind0, image);
      StepVisible(m, ops[0], v);
      assert ops[0] in ops;
      KindStep(m, ops[0], v, kind0, image);
      assert forall op {:trigger op in ops[1..]} :: op in ops[1..] ==> op in ops;
      KindRun(Do(m, ops[0]), ops[1..], m', v, kind0, image);
    }
  }

  lemma KindFaulting(m: Machine, v: nat, kind0: Kind, image: Bytes)
    requires KindOk(m, v, kind0, image)
    ensures v < |m.owner|
  {
  }

  /** What filling brings: what the page is, or the executable's bytes if its type was read in time. */
  lemma FilledSeen(st: State, v: nat, kind: Kind)
    requires CanFill(st, v, kind) && !st.vmes[v].loaded
    requires kind == st.vmes[v].kind || (kind.Bin? && st.vmes[v].kind.Anon?)
    ensures var st' := Filled(st, v, kind);
      && Wf(st') && v < |st'.vmes| && st'.vmes[v].loaded
      && Visible(st', v) == if kind == st.vmes[v].kind then Visible(st, v) else Some(FileImage(st, v))
  {
  }

  /** The page of an executable that is not loaded is the file's bytes. */
  lemma UnloadedBin(st: State, flight: set<nat>, v: nat)
    requires Inv(st, flight) && v < |st.vmes| && !st.vmes[v].loaded && st.vmes[v].kind.Bin?
    ensures Backed(st, v) && Visible(st, v) == Some(FileImage(st, v))
  {
    At(st, flight, v);
    hide Inv;
  }

  ghost function ImageOf(st: State, v: nat): Bytes {
    if v < |st.vmes| && Backed(st, v) then FileImage(st, v) else []
  }

  /** Page v gets a frame, the operations `ops` happen, the frame is filled and mapped: exactly what the
      process then finds, and exactly when it is what it had. A sweep that takes the page in between leaves
      it with the old bytes of the frame, if it writes it out at all; but a page of an executable whose
      type has been read before is read from the file again. */
  lemma FaultTransparentIff(m: Machine, v: nat, f: nat, spoil: Option<Bytes>, ops: seq<Op>, m2: Machine)
    requires MInv(m) && Enabled(m, Take(v, f, spoil))
    requires Run(Do(m, Take(v, f, spoil)), ops, m2) && Sound(Do(m, Take(v, f, spoil)), ops) && Fill(v) !in ops
    requires Enabled(m2, Fill(v))
    ensures MInv(m2) && Wf(m.st) && v < |m.st.vmes| && Visible(m.st, v).Some?
    ensures Wf(Do(m2, Fill(v)).st) && v < |Do(m2, Fill(v)).st.vmes|
    ensures var x, st', kind := Visible(m.st, v), Do(m2, Fill(v)).st, FaultOn(m2, v).phase.kind;
      && Visible(st', v) == (if TakenIn(ops, v) && spoil.Some? && !kind.Bin? then spoil else x)
      && (Visible(st', v) == x <==> !TakenIn(ops, v) || spoil.None? || kind.Bin? || spoil == x)
  {
    hide Run, Sound, Visible, MInv, SpoilOf, FileImage, Spoil, TakenIn, KindOk, Enabled, Do;
    var take := Take(v, f, spoil);
    var m1, image := Do(m, take), ImageOf(m.st, v);
    TakeFacts(m, v, f, spoil);
    MachineVisible(m, v);
    StepVisible(m, take, v);
    MeanwhileFault(m1, ops, m2, v);
    KindTaken(m, v, f, spoil);
    KindRun(m1, ops, m2, v, m.st.vmes[v].kind, image);
    MachineVisible(m2, v);
    FillFacts(m2, v, m.st.vmes[v].kind, image);
    KindAtTake(m, v, f, spoil);
  }

  lemma TakeFacts(m: Machine, v: nat, f: nat, spoil: Option<Bytes>)
    requires MInv(m) && Enabled(m, Take(v, f, spoil))
    ensures var m1 := Do(m, Take(v, f, spoil));
      && v < |m.owner| && SoundOp(m, Take(v, f, spoil)) && Faulting(m1, v) && !FaultOn(m1, v).robbed && !Faulting(m, v)
  {
    hide Inv, FaultOk, InHand;
  }

  lemma KindTaken(m: Machine, v: nat, f: nat, spoil: Option<Bytes>)
    requires MInv(m) && Enabled(m, Take(v, f, spoil))
    ensures v < |m.st.vmes| && KindOk(Do(m, Take(v, f, spoil)), v, m.st.vmes[v].kind, ImageOf(m.st, v))
  {
    hide FaultOk, InHand, PageOk, Apart, LruOk, FramesOk;
    if m.st.vmes[v].kind.Bin? {
      UnloadedBin(m.st, Flight(m), v);
    }
  }

  /** A page of an executable is its image when the fault starts. */
  lemma KindAtTake(m: Machine, v: nat, f: nat, spoil: Option<Bytes>)
    requires MInv(m) && Enabled(m, Take(v, f, spoil))
    ensures v < |m.st.vmes| && Wf(m.st) && (m.st.vmes[v].kind.Bin? ==> Visible(m.st, v) == Some(ImageOf(m.st, v)))
  {
    hide FaultOk, InHand, PageOk, Apart, LruOk, FramesOk;
    if m.st.vmes[v].kind.Bin? {
      UnloadedBin(m.st, Flight(m), v);
    }
  }

  lemma FillFacts(m: Machine, v: nat, kind0: Kind, image: Bytes)
    requires MInv(m) && Enabled(m, Fill(v)) && KindOk(m, v, kind0, image) && Wf(m.st) && v < |m.st.vmes|
    ensures var st', kind, fault := Do(m, Fill(v)).st, m.st.vmes[v].kind, FaultOn(m, v);
      && Wf(st') && v < |st'.vmes| && fault.phase.Pinned? && !m.st.vmes[v].loaded && (fault.phase.kind.Bin? ==> kind0.Bin?)
      && (fault.phase.kind == kind ==> Visible(st', v) == Visible(m.st, v))
      && (fault.phase.kind != kind ==> fault.phase.kind.Bin? && fault.robbed && Visible(st', v) == Some(image))
      && (fault.phase.kind == kind && kind.Bin? ==> Visible(m.st, v) == Some(image))
  {
    hide Inv, InHand;
    assert FaultOk(m, m.owner[v]);
    FilledSeen(m.st, v, FaultOn(m, v).phase.kind);
  }

  // ----- which faults are safe -----

  /** Whatever sound operations happen between taking the frame and filling it, the page comes back with
      what it had. */
  ghost predicate FaultSafe(m: Machine, v: nat, f: nat, spoil: Option<Bytes>)
    requires Enabled(m, Take(v, f, spoil))
  {
    forall ops, m2 {:trigger Run(Do(m, Take(v, f, spoil)), ops, m2)} ::
      Run(Do(m, Take(v, f, spoil)), ops, m2) && Sound(Do(m, Take(v, f, spoil)), ops) && Fill(v) !in ops
      && Enabled(m2, Fill(v)) && Wf(m.st) && v < |m.st.vmes| && Wf(Do(m2, Fill(v)).st) && v < |Do(m2, Fill(v)).st.vmes| ==>
        Visible(Do(m2, Fill(v)).st, v) == Visible(m.st, v)
  }

  /** A fault is safe exactly if its page is pinned already, or a sweep would not write it out, being
      neither anonymous nor dirty, or would write what it is. An accessed bit only delays the sweep. */
  lemma FaultSafeIff(m: Machine, v: nat, f: nat, spoil: Option<Bytes>, p: nat)
    requires MInv(m) && Enabled(m, Take(v, f, spoil)) && p !in m.faults && p != m.owner[v]
    requires NeedsSwap(m.st, v) ==> HasFree(m.st.swapMap)
    ensures Wf(m.st) && v < |m.st.vmes|
    ensures FaultSafe(m, v, f, spoil) <==> m.st.vmes[v].pinned || spoil.None? || spoil == Visible(m.st, v)
    ensures spoil.None? <==> !m.st.vmes[v].kind.Anon? && !m.st.ptes[v].dirty
  {
    hide Run, Sound, Visible, MInv, Enabled, Do;
    TakeFacts(m, v, f, spoil);
    MachineVisible(m, v);
    SpoilIff(m, v, f, spoil);
    if m.st.vmes[v].pinned || spoil.None? || spoil == Visible(m.st, v) {
      SafeFault(m, v, f, spoil);
    } else {
      var ops, m2 := SpoiledRun(m, v, f, spoil, p);
    }
  }

  lemma SpoilIff(m: Machine, v: nat, f: nat, spoil: Option<Bytes>)
    requires Enabled(m, Take(v, f, spoil))
    ensures v < |m.st.vmes| && (spoil.None? <==> !m.st.vmes[v].kind.Anon? && !m.st.ptes[v].dirty)
  {
  }

  lemma SafeFault(m: Machine, v: nat, f: nat, spoil: Option<Bytes>)
    requires MInv(m) && Enabled(m, Take(v, f, spoil)) && Wf(m.st) && v < |m.st.vmes|
    requires m.st.vmes[v].pinned || spoil.None? || spoil == Visible(m.st, v)
    ensures FaultSafe(m, v, f, spoil)
  {
    hide Run, Sound, Visible, MInv, TakenIn, Enabled, Do;
    var m1 := Do(m, Take(v, f, spoil));
    TakeFacts(m, v, f, spoil);
    forall ops, m2 | Run(m1, ops, m2) && Sound(m1, ops) && Fill(v) !in ops && Enabled(m2, Fill(v))
      ensures Wf(Do(m2, Fill(v)).st) && v < |Do(m2, Fill(v)).st.vmes| && Visible(Do(m2, Fill(v)).st, v) == Visible(m.st, v)
    {
      FaultTransparentIff(m, v, f, spoil, ops, m2);
      if m.st.vmes[v].pinned {
        PinnedTake(m, v, f, spoil);
        NotTaken(m1, ops, m2, v);
      }
    }
  }

  lemma PinnedTake(m: Machine, v: nat, f: nat, spoil: Option<Bytes>)
    requires Enabled(m, Take(v, f, spoil)) && m.st.vmes[v].pinned
    ensures v < |Do(m, Take(v, f, spoil)).st.vmes| && Do(m, Take(v, f, spoil)).st.vmes[v].pinned
  {
  }

  /** A pinned page in a fault stays pinned, so no sweep takes it. */
  lemma {:induction false} NotTaken(m: Machine, ops: seq<Op>, m': Machine, v: nat)
    requires Run(m, ops, m') && Faulting(m, v) && Fill(v) !in ops && v < |m.st.vmes| && m.st.vmes[v].pinned
    ensures !TakenIn(ops, v)
    decreases |ops|
  {
    hide Enabled, Do;
    if ops != [] {
      assert ops[0] in ops;
      FaultStays(m, ops[0], v);
      PinStays(m, ops[0], v);
      assert forall op {:trigger op in ops[1..]} :: op in ops[1..] ==> op in ops;
      NotTaken(Do(m, ops[0]), ops[1..], m', v);
    }
  }

  lemma PinStays(m: Machine, op: Op, v: nat)
    requires Enabled(m, op) && Faulting(m, v) && op != Fill(v) && v < |m.st.vmes| && m.st.vmes[v].pinned
    ensures v < |Do(m, op).st.vmes| && Do(m, op).st.vmes[v].pinned && !(op.SaveAt? && op.v == v)
  {
  }

  // ----- a run that spoils a page -----

  /** A page in a fault that is tied and can be taken at once. */
  ghost predicate Exposed(m: Machine, v: nat, p: nat) {
    && Faulting(m, v) && FaultOn(m, v) == Fault(v, Tied, false) && m.victim.None? && p !in m.faults && !m.astray
    && |m.st.lru| > 0 && m.st.lru[|m.st.lru| - 1] == v && CanEvict(m.st, v) && (NeedsSwap(m.st, v) ==> HasFree(m.st.swapMap))
    && !m.st.vmes[v].pinned
  }

  /** Process p takes the page after it is listed and tied, and then the fault goes on: the page ends with
      the old bytes of the frame. */
  lemma SpoiledRun(m: Machine, v: nat, f: nat, spoil: Option<Bytes>, p: nat) returns (ops: seq<Op>, m2: Machine)
    requires MInv(m) && Enabled(m, Take(v, f, spoil)) && p !in m.faults && p != m.owner[v]
    requires NeedsSwap(m.st, v) ==> HasFree(m.st.swapMap)
    requires !m.st.vmes[v].pinned && spoil.Some?
    ensures Run(Do(m, Take(v, f, spoil)), ops, m2) && Sound(Do(m, Take(v, f, spoil)), ops) && Fill(v) !in ops
    ensures Enabled(m2, Fill(v)) && Wf(Do(m2, Fill(v)).st) && v < |Do(m2, Fill(v)).st.vmes|
    ensures Visible(Do(m2, Fill(v)).st, v) == spoil
  {
    hide Run, Sound, Visible, MInv, TakenIn, Enabled, Do, Exposed;
    var take := Take(v, f, spoil);
    var m1 := Do(m, take);
    TakeFacts(m, v, f, spoil);
    StepVisible(m, take, v);
    var a, mt := GetExposed(m, v, f, spoil, p);
    var b, me := TakeAway(mt, v, p);
    Joined(m1, a, mt, b, me);
    ops, m2 := a + b, me;
    TakenJoined(a, b, v);
    FaultTransparentIff(m, v, f, spoil, ops, m2);
  }

  lemma {:induction false} TakenJoined(a: seq<Op>, b: seq<Op>, v: nat)
    ensures TakenIn(a + b, v) <==> TakenIn(a, v) || TakenIn(b, v)
    decreases |a|
  {
    if a == [] {
      assert a + b == b;
    } else {
      assert (a + b)[1..] == a[1..] + b && (a + b)[0] == a[0];
      TakenJoined(a[1..], b, v);
    }
  }

  lemma GetExposed(m: Machine, v: nat, f: nat, spoil: Option<Bytes>, p: nat) returns (a: seq<Op>, mt: Machine)
    requires MInv(m) && Enabled(m, Take(v, f, spoil)) && p !in m.faults && p != m.owner[v]
    requires NeedsSwap(m.st, v) ==> HasFree(m.st.swapMap)
    requires !m.st.vmes[v].pinned
    ensures var m1 := Do(m, Take(v, f, spoil)); Run(m1, a, mt) && Sound(m1, a) && Fill(v) !in a
    ensures MInv(mt) && mt.owner == m.owner && Exposed(mt, v, p) && !mt.st.ptes[v].accessed && Spoil(mt.st, v) == spoil
  {
    hide Run, Sound, MInv, Do;
    var m1 := Do(m, Take(v, f, spoil));
    TakeFacts(m, v, f, spoil);
    StepVisible(m, Take(v, f, spoil), v);
    TieExposes(m, v, f, spoil, p);
    StepVisible(m1, Tie(v), v);
    OneOp(m1, Tie(v));
    var m2 := Do(m1, Tie(v));
    if m2.st.ptes[v].accessed {
      SweepExposed(m2, v, p);
      StepVisible(m2, Sweep(v), v);
      OneOp(m2, Sweep(v));
      mt := Do(m2, Sweep(v));
      Joined(m1, [Tie(v)], m2, [Sweep(v)], mt);
      a := [Tie(v)] + [Sweep(v)];
    } else {
      a, mt := [Tie(v)], m2;
    }
  }

  lemma TieExposes(m: Machine, v: nat, f: nat, spoil: Option<Bytes>, p: nat)
    requires Enabled(m, Take(v, f, spoil)) && p !in m.faults && p != m.owner[v]
    requires NeedsSwap(m.st, v) ==> HasFree(m.st.swapMap)
    requires !m.st.vmes[v].pinned
    ensures var m1 := Do(m, Take(v, f, spoil));
      Enabled(m1, Tie(v)) && Exposed(Do(m1, Tie(v)), v, p) && Spoil(Do(m1, Tie(v)).st, v) == spoil
  {
  }

  lemma SweepExposed(m: Machine, v: nat, p: nat)
    requires Exposed(m, v, p) && v < |m.owner|
    ensures Enabled(m, Sweep(v)) && Exposed(Do(m, Sweep(v)), v, p) && !Do(m, Sweep(v)).st.ptes[v].accessed
    ensures Spoil(Do(m, Sweep(v)).st, v) == Spoil(m.st, v)
  {
    assert m.st.lru[|m.st.lru| - 1] in m.st.lru;
  }

  /** The sweep takes the page, and then its process reads the type, pins it and is ready to fill. */
  lemma TakeAway(m: Machine, v: nat, p: nat) returns (b: seq<Op>, me: Machine)
    requires MInv(m) && v < |m.owner| && Exposed(m, v, p) && !m.st.ptes[v].accessed
    requires Spoil(m.st, v).Some?
    ensures Run(m, b, me) && Sound(m, b) && Fill(v) !in b && TakenIn(b, v) && MInv(me) && me.owner == m.owner
    ensures Faulting(me, v) && FaultOn(me, v).phase.Pinned? && !FaultOn(me, v).phase.kind.Bin? && Enabled(me, Fill(v))
  {
    hide Run, Sound, MInv, Do, CopyOf, AfterOp, Spoil, CanEvict;
    var save := SaveAt(|m.st.lru| - 1, v, p);
    StepVisible(m, save, v);
    OneOp(m, save);
    var m1 := Do(m, save);
    Robbery(m, v, p);
    StepVisible(m1, ReadType(v), v);
    OneOp(m1, ReadType(v));
    var m2 := Do(m1, ReadType(v));
    TypeRead(m1, v);
    StepVisible(m2, PinPage(v), v);
    OneOp(m2, PinPage(v));
    me := Do(m2, PinPage(v));
    PinRead(m2, v);
    ReadyToFill(me, v);
    Joined(m, [save], m1, [ReadType(v)], m2);
    Joined(m, [save] + [ReadType(v)], m2, [PinPage(v)], me);
    b := [save] + [ReadType(v)] + [PinPage(v)];
    assert b[0] == save;
  }

  lemma Robbery(m: Machine, v: nat, p: nat)
    requires Exposed(m, v, p) && !m.st.ptes[v].accessed && Spoil(m.st, v).Some?
    ensures var save := SaveAt(|m.st.lru| - 1, v, p);
      Enabled(m, save) && Enabled(Do(m, save), ReadType(v)) && !Do(m, save).st.vmes[v].kind.Bin?
  {
  }

  lemma TypeRead(m: Machine, v: nat)
    requires Enabled(m, ReadType(v)) && !m.st.vmes[v].kind.Bin?
    ensures Enabled(Do(m, ReadType(v)), PinPage(v))
    ensures FaultOn(Do(m, ReadType(v)), v).phase.kind == m.st.vmes[v].kind == Do(m, ReadType(v)).st.vmes[v].kind
  {
  }

  lemma PinRead(m: Machine, v: nat)
    requires Enabled(m, PinPage(v)) && FaultOn(m, v).phase.kind == m.st.vmes[v].kind
    ensures var m' := Do(m, PinPage(v));
      && v < |m'.st.vmes| && Faulting(m', v) && FaultOn(m', v).phase == Pinned(m.st.vmes[v].kind)
      && m'.st.vmes[v].kind == m.st.vmes[v].kind && !m'.astray
  {
  }

  lemma ReadyToFill(m: Machine, v: nat)
    requires MInv(m) && Faulting(m, v) && v < |m.st.vmes| && FaultOn(m, v).phase == Pinned(m.st.vmes[v].kind)
    ensures Enabled(m, Fill(v))
  {
    MachineVisible(m, v);
    assert FaultOk(m, m.owner[v]);
    hide Inv, InHand;
  }

  // ----- instances -----

  /** A page in swap that comes back as the old bytes of the frame it is given. */
  lemma SpoiledAnonymous(m: Machine)
    requires m == Machine(
      State([Vme(Anon, true, false, false, 0, 0, 0, 0)], [Pte(false, false, false, 0)], [], NoHand, [Zeros(PGSIZE)], [false],
            [Sevens(), Zeros(PGSIZE)], [true, false], map[], {}),
      [1], None, map[], false)
    ensures MInv(m) && Visible(m.st, 0) == Some(Sevens()) && Sevens() != Zeros(PGSIZE)
    ensures Enabled(m, Take(0, 0, Some(Zeros(PGSIZE)))) && exists ops, m2 ::
      && Run(Do(m, Take(0, 0, Some(Zeros(PGSIZE)))), ops, m2) && Enabled(m2, Fill(0)) && Wf(Do(m2, Fill(0)).st)
      && 0 < |Do(m2, Fill(0)).st.vmes| && Visible(Do(m2, Fill(0)).st, 0) == Some(Zeros(PGSIZE))
  {
    NoFlight(m);
    assert m.st.vmes[0] == Vme(Anon, true, false, false, 0, 0, 0, 0) && m.st.slots[0] == Sevens();
    assert PageOk(m.st, 0, {});
    assert LruOk(m.st, {});
    assert HasFree(m.st.swapMap) by { assert !m.st.swapMap[1]; }
    assert Sevens()[0] != Zeros(PGSIZE)[0];
    hide Run, Sound, Visible, MInv, Enabled, Do, HasFree;
    var ops, m2 := SpoiledRun(m, 0, 0, Some(Zeros(PGSIZE)), 2);
  }

  function Sevens(): (r: Bytes)
    ensures |r| == PGSIZE
  {
    seq(PGSIZE, _ => 7)
  }

  /** A page of a mapped file that was written to before: its page table entry is still dirty, and the old
      byte of the frame goes into the file. */
  lemma SpoiledFile(m: Machine)
    requires m == Machine(
      State([Vme(File, true, false, false, 0, 0, 1, 0)], [Pte(false, true, false, 0)], [], NoHand, [Zeros(PGSIZE)], [false],
            [], [], map[0 := [7]], {}),
      [1], None, map[], false)
    ensures MInv(m) && Visible(m.st, 0) == Some([7])
    ensures Enabled(m, Take(0, 0, Some([0]))) && exists ops, m2 ::
      && Run(Do(m, Take(0, 0, Some([0]))), ops, m2) && Enabled(m2, Fill(0)) && Wf(Do(m2, Fill(0)).st)
      && 0 < |Do(m2, Fill(0)).st.vmes| && Visible(Do(m2, Fill(0)).st, 0) == Some([0])
  {
    NoFlight(m);
    assert Backed(m.st, 0) && FileImage(m.st, 0)[..1] == [7];
    assert LruOk(m.st, {}) && PageOk(m.st, 0, {});
    assert Zeros(PGSIZE)[..1] == [0];
    hide Run, Sound, Visible, MInv, Enabled, Do;
    var ops, m2 := SpoiledRun(m, 0, 0, Some([0]), 2);
  }

  /** A page whose frame is given to another one shows what the other is filled with. */
  lemma SharedFrame(st: State, v: nat, w: nat, kind: Kind)
    requires Wf(st) && v < |st.vmes| && w < |st.vmes| && v != w && st.vmes[v].loaded && CanTake(st, w, st.ptes[v].frame)
    requires CanFill(Taken(st, w, st.ptes[v].frame), w, kind)
    ensures Clash(st, v, w, kind)
  {
  }

  /** If page w takes the frame that page v is mapped to, and is filled, both show the same bytes. */
  ghost predicate Clash(st: State, v: nat, w: nat, kind: Kind)
    requires Wf(st) && v < |st.vmes| && w < |st.vmes| && CanTake(st, w, st.ptes[v].frame)
    requires CanFill(Taken(st, w, st.ptes[v].frame), w, kind)
  {
    var taken := Taken(st, w, st.ptes[v].frame);
    var st' := Filled(taken, w, kind);
    Wf(st') && |st'.vmes| == |st.vmes| && Contents(st', v) == Contents(st', w) == Some(LoadBytes(taken, w, kind))
  }

  /** A fault whose page is taken goes on to map a frame that has been freed: the page is loaded and in no
      list, and once another page takes that frame both show the same bytes. */
  lemma StolenFrame(m: Machine, v: nat)
    requires MInv(m) && m.victim.Some? && m.victim.value.v == v && Faulting(m, v) && v < |m.st.vmes|
    requires FaultOn(m, v).phase == Pinned(m.st.vmes[v].kind)
    ensures Enabled(m, ClearOf(v)) && Enabled(Do(m, ClearOf(v)), Fill(v))
    ensures var st' := Do(Do(m, ClearOf(v)), Fill(v)).st;
      && Wf(st') && v < |st'.vmes| && st'.vmes[v].loaded && v !in st'.lru
      && st'.ptes[v].frame < |st'.used| && !st'.used[st'.ptes[v].frame]
      && forall w: nat, kind {:trigger CanFill(Taken(st', w, st'.ptes[v].frame), w, kind)} ::
           (w < |st'.vmes| && w != v && CanTake(st', w, st'.ptes[v].frame)
            && CanFill(Taken(st', w, st'.ptes[v].frame), w, kind)) ==> Clash(st', v, w, kind)
  {
    hide MInv, Enabled, Do, FaultOn, Faulting, CanTake, CanFill, Taken, Clash;
    CanClearVictim(m);
    var m1 := Do(m, ClearOf(v));
    SoundClear(m, v);
    RobbedVictim(m, v);
    StepVisible(m, ClearOf(v), v);
    ClearedFault(m, v);
    ReadyToFill(m1, v);
    Unlisted(m1, v);
    FillKeepsLists(m1, v);
    var st' := Do(m1, Fill(v)).st;
    forall w: nat, kind | w < |st'.vmes| && w != v && CanTake(st', w, st'.ptes[v].frame)
        && CanFill(Taken(st', w, st'.ptes[v].frame), w, kind)
      ensures Clash(st', v, w, kind)
    {
      SharedFrame(st', v, w, kind);
    }
  }

  lemma RobbedVictim(m: Machine, v: nat)
    requires MInv(m) && m.victim.Some? && m.victim.value.v == v && Faulting(m, v)
    ensures v < |m.owner| && FaultOn(m, v).robbed && !m.st.vmes[v].loaded
    ensures CanClear(m.st, m.victim.value.i) && m.st.lru[m.victim.value.i] == v
  {
    hide Inv;
    InFlightIs(m, v);
    assert FaultOk(m, m.owner[v]);
  }

  lemma FillKeepsLists(m: Machine, v: nat)
    requires Enabled(m, Fill(v))
    ensures var st, st' := m.st, Do(m, Fill(v)).st;
      && Wf(st') && v < |st'.vmes| && st'.vmes[v].loaded && st'.lru == st.lru && st'.used == st.used
      && st'.ptes[v].frame == st.ptes[v].frame
  {
  }

  lemma ClearedFault(m: Machine, v: nat)
    requires Enabled(m, ClearOf(v)) && Faulting(m, v) && v < |m.st.vmes| && FaultOn(m, v).phase == Pinned(m.st.vmes[v].kind)
    requires m.st.lru[m.victim.value.i] == v && FaultOn(m, v).robbed
    ensures var m1 := Do(m, ClearOf(v));
      && Faulting(m1, v) && v < |m1.st.vmes| && FaultOn(m1, v).phase == Pinned(m1.st.vmes[v].kind)
      && m1.victim.None? && !InFlight(m1, v) && !m1.st.vmes[v].loaded
      && m1.st.ptes[v].frame < |m1.st.used| && !m1.st.used[m1.st.ptes[v].frame]
  {
  }

  lemma Unlisted(m: Machine, v: nat)
    requires MInv(m) && m.victim.None? && v < |m.st.vmes| && !m.st.vmes[v].loaded && !InFlight(m, v)
    ensures v !in m.st.lru
  {
    hide FaultOk, PageOk, Apart, FramesOk;
    InFlightIs(m, v);
    assert LruOk(m.st, Flight(m));
  }

  /** A sweep can follow a `vme` that is not set exactly while a fault has listed its page and not set it. */
  lemma StrayIff(m: Machine, v: nat)
    requires MInv(m) && m.victim.None?
    ensures Enabled(m, StrayVisit(v)) <==> VmeUnset(m, v)
  {
    hide PageOk, Apart, FramesOk;
    if VmeUnset(m, v) {
      assert FaultOk(m, m.owner[v]);
      InFlightIs(m, v);
      assert LruOk(m.st, Flight(m));
      assert m.st.vmes[v] == m.st.vmes[v];
    }
  }

  // ----- where a run starts, and where the clock may end -----

  /** Pages either not loaded and backed by their own part of a file, or loaded stack pages in frames
      of their own: where a run may start. */
  lemma FreshInv(st: State)
    requires Wf(st) && LruOk(st, {}) && FramesOk(st.mem)
    requires forall v {:trigger st.vmes[v]} :: 0 <= v < |st.vmes| ==> Unloaded(st, v) || StackPage(st, v)
    requires forall v, w {:trigger st.vmes[v], st.vmes[w]} :: 0 <= v < |st.vmes| && 0 <= w < |st.vmes| && v != w ==>
               Apart(st, v, w, {})
    ensures Inv(st, {})
    ensures forall v :: 0 <= v < |st.vmes| && st.vmes[v].kind.Bin? ==>
              Backed(st, v) && Visible(st, v) == Some(FileImage(st, v))
  {
    forall v | 0 <= v < |st.vmes|
      ensures PageOk(st, v, {}) && (st.vmes[v].kind.Bin? ==> Backed(st, v) && Visible(st, v) == Some(FileImage(st, v)))
    {
      assert st.vmes[v] == st.vmes[v];
    }
    forall v, w | 0 <= v < |st.vmes| && 0 <= w < |st.vmes| && v != w ensures Apart(st, v, w, {}) {
      assert st.vmes[v] == st.vmes[v] && st.vmes[w] == st.vmes[w];
    }
  }

  predicate Unloaded(st: State, v: nat)
    requires Wf(st) && v < |st.vmes|
  {
    && !st.vmes[v].loaded && !st.ptes[v].present && !st.vmes[v].kind.Anon? && Backed(st, v)
    && (st.vmes[v].kind.File? ==> st.vmes[v].file !in st.denied)
  }

  /** As `setup_stack` leaves it. */
  predicate StackPage(st: State, v: nat)
    requires Wf(st) && v < |st.vmes|
  {
    && st.vmes[v].kind.Anon? && st.vmes[v].loaded && st.ptes[v].present && st.ptes[v].frame < |st.mem|
    && st.used[st.ptes[v].frame] && |st.mem[st.ptes[v].frame]| == PGSIZE
  }

  /** A clock hand left on the tail header, as by evicting the last page of the list while the
      hand is on it, stays there for the rest of the run: every later sweep of a nonempty list
      fails the assertion of `list_next`. */
  lemma {:induction false} TailForever(m: Machine, ops: seq<Op>, m': Machine)
    requires m.st.hand.OnTail? && Run(m, ops, m')
    ensures m'.st.hand.OnTail?
    decreases |ops|
  {
    if ops != [] {
      TailStep(m, ops[0]);
      TailForever(Do(m, ops[0]), ops[1..], m');
    }
  }

  lemma TailStep(m: Machine, op: Op)
    requires m.st.hand.OnTail? && Enabled(m, op)
    ensures Do(m, op).st.hand.OnTail?
  {
    if op.SaveAt? {
      SaveShape(m.st, op.v);
    }
  }

  lemma LastVictimStrandsHand(st: State, i: nat)
    requires i < |st.lru| && CanEvict(st, st.lru[i]) && st.hand == On(i)
    ensures Evict(st, i).hand.OnTail? <==> i == |st.lru| - 1
  {
    SaveShape(st, st.lru[i]);
  }
}
