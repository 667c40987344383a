/** The bits of a page over every run: pins, the dirty and accessed bits that the clock goes by, and where
    the clock's hand is after an eviction. */
module PagingBits {
  import opened Common
  import opened Paging
  import opened PagingProof
  import opened PagingMachine
  import opened PagingSteps
  import opened PagingRuns
  import FrameTable

  /** What is noted about a page in its entry and in the page table. */
  datatype Tag = Tag(kind: Kind, loaded: bool, present: bool, dirty: bool, accessed: bool, pinned: bool)

  function TagOf(m: Machine, v: nat): Tag
    requires v < |m.st.vmes| && v < |m.st.ptes|
  {
    var e, p := m.st.vmes[v], m.st.ptes[v];
    Tag(e.kind, e.loaded, p.present, p.dirty, p.accessed, e.pinned)
  }

  /** What an operation on the page makes of it. Only a page that is dirty and not of a file moves to swap;
      the clock clears the accessed bit of a page that is not pinned; a fault leaves the page clean, not
      accessed and not pinned. */
  function TagAfter(tag: Tag, op: Op): Tag {
    match op
    case Read(_) => tag.(accessed := true)
    case Write(_, _, _) => tag.(accessed := true, dirty := true)
    case SaveAt(_, _, _) => if tag.dirty && tag.kind.Bin? then tag.(kind := Anon) else tag
    case ClearOf(_) => tag.(loaded := false, present := false)
    case PinPage(_) => tag.(pinned := true)
    case Fill(_) => tag.(loaded := true, present := true, dirty := false, accessed := false, pinned := false)
    case Sweep(_) => if tag.pinned then tag else tag.(accessed := false)
    case SetPin(_, pinned) => tag.(pinned := pinned)
    case _ => tag
  }

  function TagsAfter(tag: Tag, ops: seq<Op>, v: nat): Tag
    decreases |ops|
  {
    if ops == [] then tag else TagsAfter(if ops[0].v == v then TagAfter(tag, ops[0]) else tag, ops[1..], v)
  }

  lemma StepTags(m: Machine, op: Op, v: nat)
    requires Enabled(m, op) && v < |m.st.vmes| && v < |m.st.ptes|
    requires op.ClearOf? ==> m.victim.value.i < |m.st.lru| && m.st.lru[m.victim.value.i] == op.v
    ensures var m' := Do(m, op); |m'.st.vmes| == |m.st.vmes| && |m'.st.ptes| == |m.st.ptes| && v < |m'.st.vmes|
    ensures TagOf(Do(m, op), v) == if op.v == v then TagAfter(TagOf(m, v), op) else TagOf(m, v)
  {
  }

  /** The victim is where it was found, in the list. */
  ghost predicate VictimListed(m: Machine) {
    m.victim.Some? ==> m.victim.value.i < |m.st.lru| && m.st.lru[m.victim.value.i] == m.victim.value.v
  }

  lemma VictimStaysListed(m: Machine, op: Op)
    requires Enabled(m, op) && VictimListed(m)
    ensures VictimListed(Do(m, op))
  {
  }

  /** Over every run, sound or not, what is noted about a page is what the operations on it make it. */
  lemma {:induction false} RunTags(m: Machine, ops: seq<Op>, m': Machine, v: nat)
    requires Run(m, ops, m') && VictimListed(m) && v < |m.st.vmes| && v < |m.st.ptes|
    ensures v < |m'.st.vmes| && v < |m'.st.ptes| && TagOf(m', v) == TagsAfter(TagOf(m, v), ops, v)
    decreases |ops|
  {
    hide Enabled, Do, TagAfter, TagOf;
    if ops != [] {
      ClearsVictim(m, ops[0]);
      StepTags(m, ops[0], v);
      VictimStaysListed(m, ops[0]);
      RunTags(Do(m, ops[0]), ops[1..], m', v);
    }
  }

  lemma ClearsVictim(m: Machine, op: Op)
    requires Enabled(m, op) && VictimListed(m)
    ensures op.ClearOf? ==> m.victim.Some? && m.victim.value.i < |m.st.lru| && m.st.lru[m.victim.value.i] == op.v
  {
  }

  // ----- pins -----

  /** A page is pinned exactly while its fault is being filled. */
  ghost predicate PinsMatch(m: Machine) {
    forall v {:trigger m.st.vmes[v]} :: 0 <= v < |m.st.vmes| ==>
      (m.st.vmes[v].pinned <==> Faulting(m, v) && FaultOn(m, v).phase.Pinned?)
  }

  lemma PinsStep(m: Machine, op: Op)
    requires Enabled(m, op) && PinsMatch(m) && VictimListed(m) && !op.SetPin?
    ensures PinsMatch(Do(m, op))
  {
    var m' := Do(m, op);
    forall v | 0 <= v < |m'.st.vmes| ensures m'.st.vmes[v].pinned <==> Faulting(m', v) && FaultOn(m', v).phase.Pinned? {
      PinAt(m, op, v);
    }
  }

  lemma PinAt(m: Machine, op: Op, v: nat)
    requires Enabled(m, op) && PinsMatch(m) && VictimListed(m) && !op.SetPin? && v < |Do(m, op).st.vmes|
    ensures var m' := Do(m, op); m'.st.vmes[v].pinned <==> Faulting(m', v) && FaultOn(m', v).phase.Pinned?
  {
    assert v < |m.st.vmes| && m.st.vmes[v] == m.st.vmes[v];
  }

  /** From a state with nothing pinned, in every run in which no system call pins a page: a page is pinned
      if and only if its process is between pinning it and filling its frame. */
  lemma {:induction false} PinnedIff(m: Machine, ops: seq<Op>, m': Machine)
    requires Run(m, ops, m') && PinsMatch(m) && VictimListed(m)
    requires forall op {:trigger op in ops} :: op in ops ==> !op.SetPin?
    ensures PinsMatch(m') && VictimListed(m')
    decreases |ops|
  {
    hide Enabled, Do, PinsMatch, VictimListed;
    if ops != [] {
      assert ops[0] in ops;
      PinsStep(m, ops[0]);
      VictimStaysListed(m, ops[0]);
      assert forall op {:trigger op in ops[1..]} :: op in ops[1..] ==> op in ops;
      PinnedIff(Do(m, ops[0]), ops[1..], m');
    }
  }

  /** So with no fault under way the clock always finds a page that is not pinned. */
  lemma NoFaultNoPin(m: Machine, ops: seq<Op>, m': Machine)
    requires MInv(m) && Quiet(m) && (forall v {:trigger m.st.vmes[v]} :: 0 <= v < |m.st.vmes| ==> !m.st.vmes[v].pinned)
    requires Run(m, ops, m') && Sound(m, ops) && m'.faults == map[] && m'.victim.None? && |m'.st.lru| > 0
    requires forall op {:trigger op in ops} :: op in ops ==> !op.SetPin?
    ensures FrameTable.SomeUnpinned(m'.st.lru, m'.st.vmes)
  {
    hide Run, Sound, FrameTable.SomeUnpinned;
    assert VictimListed(m) && PinsMatch(m);
    hide MInv;
    PinnedIff(m, ops, m');
    assert MInv(m') by { RunKeepsMInv(m, ops, m'); }
    UnpinnedListed(m');
  }

  lemma RunKeepsMInv(m: Machine, ops: seq<Op>, m': Machine)
    requires MInv(m) && Run(m, ops, m') && Sound(m, ops)
    ensures MInv(m')
  {
    hide MInv, Sound;
    if ops != [] {
      OpPage(m, ops[0]);
      RunVisible(m, ops, m', ops[0].v);
    }
  }

  lemma UnpinnedListed(m: Machine)
    requires MInv(m) && PinsMatch(m) && m.faults == map[] && m.victim.None? && |m.st.lru| > 0
    ensures FrameTable.SomeUnpinned(m.st.lru, m.st.vmes)
  {
    hide FaultOk, PageOk, Apart, FramesOk;
    var v := m.st.lru[0];
    assert v in m.st.lru && LruOk(m.st, Flight(m));
    assert !m.st.vmes[v].pinned;
  }

  // ----- the second chance -----

  /** No operation lets the clock pass over page v, and none faults it in again. */
  predicate Unswept(ops: seq<Op>, v: nat) {
    forall op {:trigger op in ops} :: op in ops ==> op != Sweep(v) && op != Fill(v)
  }

  /** A page that has been accessed is not evicted before the clock has passed over it. */
  lemma {:induction false} SecondChance(m: Machine, ops: seq<Op>, m': Machine, v: nat, i: nat, evictor: nat)
    requires Run(m, ops, m') && VictimListed(m) && Unswept(ops, v) && v < |m.st.vmes| && v < |m.st.ptes|
    requires m.st.ptes[v].accessed
    ensures v < |m'.st.ptes| && m'.st.ptes[v].accessed && !Enabled(m', SaveAt(i, v, evictor))
    decreases |ops|
  {
    if ops != [] {
      hide Enabled, Do, Unswept;
      StaysAccessed(m, ops, v);
      VictimStaysListed(m, ops[0]);
      SecondChance(Do(m, ops[0]), ops[1..], m', v, i, evictor);
    }
  }

  lemma StaysAccessed(m: Machine, ops: seq<Op>, v: nat)
    requires ops != [] && Enabled(m, ops[0]) && VictimListed(m) && Unswept(ops, v) && v < |m.st.vmes| && v < |m.st.ptes|
    requires m.st.ptes[v].accessed
    ensures var m' := Do(m, ops[0]); v < |m'.st.vmes| && v < |m'.st.ptes| && m'.st.ptes[v].accessed && Unswept(ops[1..], v)
  {
    assert ops[0] in ops;
    ClearsVictim(m, ops[0]);
    StepTags(m, ops[0], v);
    assert forall op {:trigger op in ops[1..]} :: op in ops[1..] ==> op in ops;
    hide Enabled, Do;
    assert TagOf(Do(m, ops[0]), v).accessed;
  }

  // ----- the hand -----

  /** The page that the hand is on. */
  function UnderHand(st: State): Option<nat> {
    if st.hand.On? && st.hand.i < |st.lru| then Some(st.lru[st.hand.i]) else None
  }

  /** The list is a queue for the clock: a fault appends its page, the second half of an eviction takes the
      victim out, and nothing else changes the order; the hand stays on its page, or moves to the next one if
      that page is evicted. */
  lemma ListStep(m: Machine, op: Op)
    requires MInv(m) && Enabled(m, op)
    ensures var st, st' := m.st, Do(m, op).st;
      && (op.Take? ==> st'.lru == st.lru + [op.v] && UnderHand(st') == UnderHand(st))
      && (op.ClearOf? ==> exists i: nat {:trigger st.lru[i]} :: i < |st.lru| && st.lru[i] == op.v && st'.lru == st.lru[..i] + st.lru[i + 1..])
      && (op.ClearOf? && UnderHand(st) != Some(op.v) ==> UnderHand(st') == UnderHand(st))
      && (!op.Take? && !op.ClearOf? ==> st'.lru == st.lru && st'.hand == st.hand)
  {
    hide Inv, FaultOk;
    if op.ClearOf? {
      VictimInHand(m);
      HandKept(m.st, m.victim.value.i);
    } else if op.Take? {
      HandInside(m);
    } else {
      hide MInv;
      if op.SaveAt? {
        SaveShape(m.st, op.v);
      }
    }
  }

  lemma VictimInHand(m: Machine)
    requires MInv(m) && m.victim.Some?
    ensures CanClear(m.st, m.victim.value.i) && m.st.lru[m.victim.value.i] == m.victim.value.v
  {
    hide Inv, FaultOk;
  }

  lemma HandInside(m: Machine)
    requires MInv(m) && m.victim.None?
    ensures m.st.hand.On? ==> m.st.hand.i < |m.st.lru|
  {
    hide FaultOk, PageOk, Apart, FramesOk;
    assert LruOk(m.st, Flight(m));
  }

  lemma HandKept(st: State, i: nat)
    requires CanClear(st, i)
    ensures UnderHand(st) != Some(st.lru[i]) ==> UnderHand(Clear(st, i)) == UnderHand(st)
    ensures Clear(st, i).lru == st.lru[..i] + st.lru[i + 1..]
  {
  }

  /** After an eviction the other pages are listed in the same order; the hand is on the same page as
      before, or, if that was the victim, on the one after it. */
  lemma EvictKeepsOrder(st: State, i: nat)
    requires i < |st.lru| && CanEvict(st, st.lru[i]) && (st.hand.On? ==> st.hand.i < |st.lru|)
    ensures var st' := Evict(st, i);
      && st'.lru == st.lru[..i] + st.lru[i + 1..]
      && (st.hand != On(i) ==> UnderHand(st') == UnderHand(st))
      && (st.hand == On(i) && i + 1 < |st.lru| ==> UnderHand(st') == Some(st.lru[i + 1]))
      && (st.hand == On(i) && i + 1 == |st.lru| ==> st'.hand.OnTail?)
  {
    SaveShape(st, st.lru[i]);
  }

  // ----- files -----

  /** Byte k of file f is in the mapped page v. */
  predicate Covers(e: Vme, f: nat, k: nat) {
    e.kind.File? && e.file == f && e.offset <= k < e.offset + e.readBytes
  }

  /** No page writes byte k of file f back: none maps it, or writes to the file are denied. */
  ghost predicate Guarded(st: State, f: nat, k: nat) {
    f in st.denied || forall v {:trigger st.vmes[v]} :: 0 <= v < |st.vmes| ==> !Covers(st.vmes[v], f, k)
  }

  /** Saving a page writes its part of the file back exactly if it is a dirty page of a mapped file to
      which writes are not denied. */
  lemma WritesBack(m: Machine, i: nat, v: nat, evictor: nat, k: nat)
    requires Enabled(m, SaveAt(i, v, evictor)) && m.st.vmes[v].kind.File? && k < m.st.vmes[v].readBytes
    ensures var e, p, files := m.st.vmes[v], m.st.ptes[v], Do(m, SaveAt(i, v, evictor)).st.files;
      && e.file in files && e.offset + k < |files[e.file]| && k < |m.st.mem[p.frame]|
      && files[e.file][e.offset + k] ==
           if p.dirty && e.file !in m.st.denied then m.st.mem[p.frame][k] else m.st.files[e.file][e.offset + k]
  {
  }

  lemma FilesStep(m: Machine, op: Op, f: nat, k: nat)
    requires Enabled(m, op) && f in m.st.files && k < |m.st.files[f]| && Guarded(m.st, f, k)
    ensures var st' := Do(m, op).st; f in st'.files && |st'.files[f]| == |m.st.files[f]| && st'.files[f][k] == m.st.files[f][k]
  {
    if op.SaveAt? {
      assert f in m.st.denied || !Covers(m.st.vmes[op.v], f, k);
    }
  }

  lemma GuardedStep(m: Machine, op: Op, f: nat, k: nat)
    requires Enabled(m, op) && Guarded(m.st, f, k)
    ensures Guarded(Do(m, op).st, f, k)
  {
    var st' := Do(m, op).st;
    assert st'.denied == m.st.denied;
    forall v | 0 <= v < |st'.vmes| ensures Covers(st'.vmes[v], f, k) ==> Covers(m.st.vmes[v], f, k) {
    }
  }

  /** In every run, a file to which writes are denied, such as that of a running program, stays as it is,
      and so does every byte that no page maps. */
  lemma {:induction false} FilesKept(m: Machine, ops: seq<Op>, m': Machine, f: nat, k: nat)
    requires Run(m, ops, m') && f in m.st.files && k < |m.st.files[f]| && Guarded(m.st, f, k)
    ensures f in m'.st.files && |m'.st.files[f]| == |m.st.files[f]| && m'.st.files[f][k] == m.st.files[f][k]
    decreases |ops|
  {
    hide Enabled, Do, Guarded;
    if ops != [] {
      FilesStep(m, ops[0], f, k);
      GuardedStep(m, ops[0], f, k);
      FilesKept(Do(m, ops[0]), ops[1..], m', f, k);
    }
  }
}
