/** The frame table of vm/frame.c with its own loops: the clock sweep that picks a victim, and
    the page fault handler on top of it. */
module FrameTable {
  import opened Common
  import opened Paging
  import opened PagingProof
  import opened SwapDevice

  /** What one call of `get_next_lru_clock` yields: a list position, nothing (a null pointer), or
      the failed assertion of `list_next` on the tail header. */
  datatype Tick = Visit(i: nat) | Stop | TickPanic

  function NextTick(lru: seq<nat>, hand: Hand): Tick {
    match hand
    case NoHand => if lru == [] then Stop else Visit(0)
    case On(i) =>
      if i + 1 < |lru| then Visit(i + 1)
      else if i == 0 then Stop
      else Visit(0)
    case OnTail => TickPanic
  }

  /** The list position of the k-th visit of a sweep that starts at p, in its first two rounds. */
  function Pos(p: nat, k: nat, n: nat): nat
    requires p < n && k < 2 * n
  {
    if p + k < n then p + k else if p + k < 2 * n then p + k - n else p + k - 2 * n
  }

  predicate IsVictim(st: State, i: nat)
    requires i < |st.lru| && st.lru[i] < |st.vmes| && st.lru[i] < |st.ptes|
  {
    !st.vmes[st.lru[i]].pinned && !st.ptes[st.lru[i]].accessed
  }

  /** Passing over the page at list position i: the hand is on it, and a page that is not pinned has its
      accessed bit cleared. */
  function Passing(st: State, i: nat): State
    requires i < |st.lru| && st.lru[i] < |st.vmes| && st.lru[i] < |st.ptes|
  {
    var v := st.lru[i];
    st.(hand := On(i), ptes := if st.vmes[v].pinned then st.ptes else st.ptes[v := st.ptes[v].(accessed := false)])
  }

  /** `try_to_free_pages` returns with nothing freed: there is no page, or one that the clock is on
      already or that is pinned or accessed. */
  predicate Idle(st: State) {
    st.lru == [] ||
    (|st.lru| == 1 && !st.hand.OnTail? && st.lru[0] < |st.vmes| && st.lru[0] < |st.ptes| &&
     (st.hand.On? || !IsVictim(st, 0)))
  }

  function IdleAfter(st: State): State
    requires Idle(st)
  {
    if st.lru != [] && st.hand.NoHand? then Passing(st, 0) else st
  }

  /** `try_to_free_pages` frees a page. */
  ghost predicate Reclaimable(st: State) {
    st.lru != [] && !st.hand.OnTail? && !Idle(st) && (|st.lru| >= 2 ==> SomeUnpinned(st.lru, st.vmes))
  }

  // ----- when nothing is freed -----

  /** An idle clock stays idle: the loop of `alloc_page` calls it again and again, with no frame free. */
  lemma {:induction false} IdleForever(st: State, calls: nat)
    requires Idle(st)
    ensures Idle(IdleCalls(st, calls)) && IdleCalls(st, calls).used == st.used
    decreases calls
  {
    if calls > 0 {
      IdleStays(st);
      IdleForever(IdleAfter(st), calls - 1);
    }
  }

  /** The state after some calls of `try_to_free_pages` that free nothing. */
  function IdleCalls(st: State, calls: nat): State
    decreases calls
  {
    if calls == 0 || !Idle(st) then st else IdleCalls(IdleAfter(st), calls - 1)
  }

  lemma IdleStays(st: State)
    requires Idle(st)
    ensures Idle(IdleAfter(st)) && IdleAfter(st).used == st.used
  {
  }

  /** The sweep passes over pages for that many visits. */
  predicate PassesOver(st: State, visits: nat)
    decreases visits
  {
    visits == 0 ||
    (NextTick(st.lru, st.hand).Visit?
     && var i := NextTick(st.lru, st.hand).i;
        i < |st.lru| && st.lru[i] < |st.vmes| && st.lru[i] < |st.ptes| && !IsVictim(st, i)
        && PassesOver(Passing(st, i), visits - 1))
  }

  /** With two pages or more and all of them pinned, the sweep never ends. */
  lemma {:induction false} AllPinnedForever(st: State, visits: nat)
    requires Inv(st, {}) && |st.lru| >= 2 && !st.hand.OnTail? && !SomeUnpinned(st.lru, st.vmes)
    ensures PassesOver(st, visits)
    decreases visits
  {
    if visits > 0 {
      assert LruOk(st, {});
      var i := NextTick(st.lru, st.hand).i;
      ListedPage(st, i);
      var st' := Passing(st, i);
      assert Inv(st', {}) by { BitsInvisible(st, {}, st'); }
      AllPinnedForever(st', visits - 1);
    }
  }

  /** Without a free frame, `alloc_page` gets one if and only if the clock can free a page. In the other
      cases the clock stays idle, its assertion fails, or it sweeps forever. */
  lemma NoProgress(st: State, n: nat)
    requires Inv(st, {}) && !HasFree(st.used) && !Reclaimable(st)
    ensures
      || (Idle(st) && Idle(IdleCalls(st, n)) && !HasFree(IdleCalls(st, n).used))
      || (st.lru != [] && st.hand.OnTail?)
      || PassesOver(st, n)
  {
    hide Inv, HasFree, IdleCalls, PassesOver, SomeUnpinned;
    if Idle(st) {
      IdleForever(st, n);
    } else if !st.hand.OnTail? {
      AllPinnedForever(st, n);
    }
  }

  // ----- the sweep -----

  datatype Swept = Evicted(i: nat, visits: nat) | NothingFreed | SweepPanic

  /** The accessed bits of some pages have been cleared; nothing else differs. */
  ghost predicate OnlyCleared(ptes: seq<Pte>, ptes': seq<Pte>) {
    && |ptes'| == |ptes|
    && forall w {:trigger ptes'[w]} :: 0 <= w < |ptes| ==>
         ptes'[w] == ptes[w] || ptes'[w] == ptes[w].(accessed := false)
  }

  /** A page the sweep has passed over: pinned, or in the first round with its bit cleared. */
  predicate Passed(vmes: seq<Vme>, ptes: seq<Pte>, v: nat, firstRound: bool)
    requires v < |vmes| && v < |ptes|
  {
    vmes[v].pinned || (firstRound && !ptes[v].accessed)
  }

  lemma TickPos(lru: seq<nat>, p: nat, k: nat)
    requires |lru| >= 2 && p < |lru| && 0 < k < 2 * |lru|
    ensures NextTick(lru, On(Pos(p, k - 1, |lru|))) == Visit(Pos(p, k, |lru|))
  {
  }

  /** Every position is visited in every round. */
  lemma RoundVisits(p: nat, q: nat, n: nat) returns (k: nat)
    requires p < n && q < n
    ensures k < n && Pos(p, k, n) == q && Pos(p, n + k, n) == q
  {
    k := if q >= p then q - p else q + n - p;
  }

  predicate PassedAt(lru: seq<nat>, vmes: seq<Vme>, ptes: seq<Pte>, p: nat, j: nat)
    requires p < |lru| && j < 2 * |lru|
  {
    var v := lru[Pos(p, j, |lru|)];
    v < |vmes| && v < |ptes| && Passed(vmes, ptes, v, j < |lru|)
  }

  /** Every page of the first visits has been passed over. */
  ghost predicate SweptOver(lru: seq<nat>, vmes: seq<Vme>, ptes: seq<Pte>, p: nat, visits: nat)
    requires p < |lru| && visits <= 2 * |lru|
  {
    forall j {:trigger Pos(p, j, |lru|)} :: 0 <= j < visits ==> PassedAt(lru, vmes, ptes, p, j)
  }

  ghost predicate SomeUnpinned(lru: seq<nat>, vmes: seq<Vme>) {
    exists q :: 0 <= q < |lru| && lru[q] < |vmes| && !vmes[lru[q]].pinned
  }

  /** A sweep in progress, from state st0, after some visits that evicted nothing. */
  ghost predicate Sweeping(st0: State, st: State, p: nat, visits: nat) {
    && st == st0.(ptes := st.ptes, hand := st.hand) && OnlyCleared(st0.ptes, st.ptes)
    && p < |st.lru| && visits < 2 * |st.lru|
    && (visits == 0 ==> st == st0 && (!st.hand.OnTail? ==> NextTick(st.lru, st.hand) in {Visit(p), Stop}))
    && (visits > 0 ==> st.hand == On(Pos(p, visits - 1, |st.lru|)) && !st0.hand.OnTail?)
    && (visits == 1 == |st.lru| ==> Idle(st0) && st == IdleAfter(st0))
    && |st.ptes| == |st0.ptes| && SweptOver(st.lru, st.vmes, st.ptes, p, visits)
  }

  lemma SweepTick(st0: State, st: State, p: nat, visits: nat)
    requires Inv(st0, {}) && Sweeping(st0, st, p, visits)
    ensures st.hand.On? ==> st.hand.i < |st.lru|
    ensures NextTick(st.lru, st.hand).Visit? ==>
              NextTick(st.lru, st.hand).i == Pos(p, visits, |st.lru|) < |st.lru| && (|st.lru| == 1 ==> visits == 0)
    ensures NextTick(st.lru, st.hand).Stop? ==> Idle(st0) && st == IdleAfter(st0)
    ensures NextTick(st.lru, st.hand).TickPanic? <==> st0.hand.OnTail?
    ensures NextTick(st.lru, st.hand).TickPanic? ==> !Idle(st0)
  {
    hide SweptOver, OnlyCleared;
    assert LruOk(st0, {});
    ListedPage(st0, 0);
    if visits > 0 && |st.lru| >= 2 {
      TickPos(st.lru, p, visits);
    }
  }

  lemma ClearedInv(st0: State, st: State)
    requires Inv(st0, {}) && st == st0.(ptes := st.ptes, hand := st.hand) && OnlyCleared(st0.ptes, st.ptes)
    requires st.hand.On? ==> st.hand.i < |st.lru|
    ensures Inv(st, {}) && SameView(st0, st)
  {
    hide PageOk, Apart, LruOk, Visible;
    BitsInvisible(st0, {}, st);
  }

  lemma SweepPass(st0: State, st: State, p: nat, visits: nat, v: nat, st': State)
    requires Inv(st0, {}) && Sweeping(st0, st, p, visits) && (|st.lru| >= 2 ==> SomeUnpinned(st.lru, st.vmes))
    requires !st0.hand.OnTail? && v < |st.vmes| == |st.ptes| && v == st.lru[Pos(p, visits, |st.lru|)]
    requires !IsVictim(st, Pos(p, visits, |st.lru|)) && st' == Passing(st, Pos(p, visits, |st.lru|))
    requires |st.lru| == 1 ==> visits == 0 && st.hand.NoHand?
    ensures Sweeping(st0, st', p, visits + 1)
  {
    var n := |st.lru|;
    if visits >= n {
      assert Pos(p, visits - n, n) == Pos(p, visits, n);
    }
    PassOver(st.lru, st.vmes, st.ptes, p, visits, v, st'.ptes);
    if n >= 2 {
      FirstRoundEnds(st.lru, st.vmes, st'.ptes, p, visits + 1);
    }
  }

  lemma PassOver(lru: seq<nat>, vmes: seq<Vme>, ptes: seq<Pte>, p: nat, visits: nat, v: nat, ptes': seq<Pte>)
    requires p < |lru| && visits < 2 * |lru| && SweptOver(lru, vmes, ptes, p, visits)
    requires v < |vmes| == |ptes| && v == lru[Pos(p, visits, |lru|)]
    requires (vmes[v].pinned && ptes' == ptes)
             || (visits < |lru| && ptes' == ptes[v := ptes[v].(accessed := false)])
    ensures SweptOver(lru, vmes, ptes', p, visits + 1)
  {
    forall j | 0 <= j < visits + 1 ensures PassedAt(lru, vmes, ptes', p, j) {
      if j < visits {
        assert Pos(p, j, |lru|) == Pos(p, j, |lru|);
      }
    }
  }

  /** With a page that is not pinned, no sweep passes over everything twice. */
  lemma FirstRoundEnds(lru: seq<nat>, vmes: seq<Vme>, ptes: seq<Pte>, p: nat, visits: nat)
    requires p < |lru| && visits <= 2 * |lru| && SweptOver(lru, vmes, ptes, p, visits) && SomeUnpinned(lru, vmes)
    ensures visits < 2 * |lru|
  {
    var q :| 0 <= q < |lru| && lru[q] < |vmes| && !vmes[lru[q]].pinned;
    var k := RoundVisits(p, q, |lru|);
  }

  lemma SweepStarts(st: State, p: nat)
    requires Inv(st, {}) && st.lru != []
    requires p == if NextTick(st.lru, st.hand).Visit? then NextTick(st.lru, st.hand).i else 0
    ensures Sweeping(st, st, p, 0)
  {
    assert LruOk(st, {});
  }

  lemma SweepEnds(st0: State, st: State)
    requires st == st0
    ensures OnlyCleared(st0.ptes, st.ptes)
  {
  }

  /** A victim is found at a position where the clock is not idle. */
  lemma VictimNotIdle(st0: State, st: State, p: nat, visits: nat)
    requires Sweeping(st0, st, p, visits) && (st.hand.On? ==> st.hand.i < |st.lru|)
    requires NextTick(st.lru, st.hand) == Visit(Pos(p, visits, |st.lru|))
    requires st.lru[Pos(p, visits, |st.lru|)] < |st.vmes| == |st.ptes| && IsVictim(st, Pos(p, visits, |st.lru|))
    ensures !Idle(st0)
  {
    if |st.lru| == 1 {
      assert p == 0 && visits <= 1;
      assert visits == 0;
    }
  }

  lemma ListedPage(st: State, i: nat)
    requires Inv(st, {}) && i < |st.lru|
    ensures st.lru[i] < |st.vmes| == |st.ptes|
  {
    assert LruOk(st, {}) && st.lru[i] in st.lru;
  }

  /** A page that has to be swapped out finds no slot. */
  predicate NoSlot(st: State, i: nat)
    requires i < |st.lru| && CanEvict(st, st.lru[i])
  {
    NeedsSwap(st, st.lru[i]) && !HasFree(st.swapMap)
  }

  ghost predicate SamePins(vmes: seq<Vme>, vmes': seq<Vme>) {
    |vmes'| == |vmes| && forall w {:trigger vmes'[w]} :: 0 <= w < |vmes| ==> vmes'[w].pinned == vmes[w].pinned
  }

  lemma EvictKeepsPins(st: State, i: nat)
    requires i < |st.lru| && CanEvict(st, st.lru[i])
    ensures SamePins(st.vmes, Evict(st, i).vmes)
  {
  }

  /** What `alloc_page` may have done before a frame was free; `lost` says that a page found no slot. */
  ghost predicate Allocated(st0: State, st: State, lost: bool) {
    && Wf(st) && |st.vmes| == |st0.vmes| && SamePins(st0.vmes, st.vmes)
    && (forall w {:trigger st.vmes[w]} :: 0 <= w < |st.vmes| && !st0.vmes[w].loaded ==> st.vmes[w] == st0.vmes[w])
    && (!lost ==> Inv(st, {}) && SameView(st0, st))
    && (lost ==> st.files == st0.files && !HasFree(st0.swapMap))
  }

  lemma AllocNothing(st: State)
    requires Inv(st, {})
    ensures Allocated(st, st, false)
  {
  }

  lemma AllocEvicted(st0: State, mid: State, i: nat)
    requires !HasFree(st0.used) && Inv(st0, {}) && mid == st0.(ptes := mid.ptes, hand := mid.hand) && OnlyCleared(st0.ptes, mid.ptes)
    requires mid.hand == On(i) && i < |mid.lru| && CanEvict(mid, mid.lru[i])
    ensures var st := Evict(mid, i); HasFree(st.used) && Allocated(st0, st, NoSlot(mid, i))
  {
    ClearedInv(st0, mid);
    LruCanEvict(mid, {}, i);
    FreesFrame(mid, i);
    EvictKeepsPins(mid, i);
    hide SamePins;
    if NoSlot(mid, i) {
      assert Evict(mid, i).files == st0.files;
    } else {
      hide PageOk, Apart, LruOk, Inv, Visible, Save;
      EvictTransparent(mid, {}, i);
      assert {} - {mid.lru[i]} == {};
      forall w | 0 <= w < |mid.vmes| ensures Visible(Evict(mid, i), w) == Visible(mid, w) {
        assert Evict(mid, i).vmes[w] == Evict(mid, i).vmes[w];
      }
      ViewTrans(st0, mid, Evict(mid, i));
    }
  }

  /** A page that is not loaded can be faulted in, unless it is in swap and another page was lost. */
  lemma FaultsAfter(st0: State, st: State, lost: bool, v: nat)
    requires Inv(st0, {}) && Allocated(st0, st, lost) && v < |st0.vmes| && !st0.vmes[v].loaded && HasFree(st.used)
    requires lost ==> !st.vmes[v].kind.Anon?
    ensures CanFault(st, v)
  {
    if lost {
      At(st0, {}, v);
      assert st.vmes[v] == st0.vmes[v];
    } else {
      assert st.vmes[v] == st0.vmes[v];
      CanFaultIn(st, v);
    }
  }

  /** Eviction frees the victim's frame and touches no unloaded page. */
  lemma FreesFrame(st: State, i: nat)
    requires i < |st.lru| && CanEvict(st, st.lru[i]) && st.vmes[st.lru[i]].loaded
    ensures var st' := Evict(st, i);
            && Wf(st') && HasFree(st'.used) && |st'.vmes| == |st.vmes|
            && (forall w {:trigger st'.vmes[w]} :: 0 <= w < |st.vmes| && !st.vmes[w].loaded ==> st'.vmes[w] == st.vmes[w])
  {
    var st' := Evict(st, i);
    assert !st'.used[st.ptes[st.lru[i]].frame];
  }

  lemma FaultLoads(st: State, v: nat)
    requires CanFault(st, v)
    ensures var st' := FaultIn(st, v);
            && v < |st'.vmes| == |st.vmes| && v < |st'.ptes| && st'.vmes[v].loaded && st'.ptes[v].present && st'.lru == st.lru + [v]
            && !st'.vmes[v].pinned && !st'.ptes[v].dirty && !st'.ptes[v].accessed
            && forall w {:trigger st'.vmes[w]} :: 0 <= w < |st.vmes| && w != v ==> st'.vmes[w] == st.vmes[w]
  {
  }

  class Frames {
    var vmes: seq<Vme>
    var ptes: seq<Pte>
    var lru: seq<nat>
    var hand: Hand
    var mem: seq<Bytes>
    var used: seq<bool>
    const swap: Device
    var files: map<nat, Bytes>
    var denied: set<nat>

    ghost function View(): State
      requires swap.Valid()
      reads this, swap, swap.sectors
    {
      State(vmes, ptes, lru, hand, mem, used, swap.Slots(), swap.swapMap, files, denied)
    }

    constructor (st: State, swap: Device)
      requires swap.Valid() && swap.Slots() == st.slots && swap.swapMap == st.swapMap
      ensures this.swap == swap && View() == st
    {
      vmes, ptes, lru, hand, mem, used := st.vmes, st.ptes, st.lru, st.hand, st.mem, st.used;
      this.swap := swap;
      files, denied := st.files, st.denied;
    }

    /** `get_next_lru_clock`. */
    method GetNextLruClock() returns (t: Tick)
      requires hand.On? ==> hand.i < |lru|
      modifies this`hand
      ensures t == NextTick(lru, old(hand))
      ensures hand == if t.Visit? then On(t.i) else old(hand)
    {
      if hand.NoHand? {
        if lru == [] {
          return Stop;
        }
        hand := On(0);
        return Visit(0);
      }
      if hand.OnTail? {
        return TickPanic;
      }
      var e := hand.i + 1;
      if e == |lru| {
        if hand.i == 0 {
          return Stop;
        }
        e := 0;
      }
      hand := On(e);
      return Visit(e);
    }

    /** The tail of `try_to_free_pages`: save the victim at list position i and free its frame. The swap
        lock stays held if the page needs a slot and there is none. */
    method Reclaim(i: nat)
      requires swap.Valid() && !swap.locked && i < |lru| && CanEvict(View(), lru[i])
      modifies this, swap, swap.sectors
      ensures swap.Valid() && View() == Evict(old(View()), i) && swap.locked == old(NoSlot(View(), i))
    {
      hide Save, Device.Slots, HasFree;
      var v := lru[i];
      var f := ptes[v].frame;
      SaveShape(View(), v);
      SaveVictim(v);
      vmes := vmes[v := vmes[v].(loaded := false)];
      ptes := ptes[v := ptes[v].(present := false)];
      used := used[f := false];
      DelPageFromLruList(i);
    }

    method SaveVictim(v: nat)
      requires swap.Valid() && !swap.locked && CanEvict(View(), v)
      modifies this`files, this`vmes, swap, swap.sectors
      ensures swap.Valid() && View() == Save(old(View()), v)
      ensures swap.locked == old(NeedsSwap(View(), v) && !HasFree(swap.swapMap))
    {
      hide Device.Slots, HasFree;
      var e, f := vmes[v], ptes[v].frame;
      if ptes[v].dirty || e.kind.Anon? {
        if e.kind.File? {
          var b := mem[f][..e.readBytes];
          if e.file !in denied {  // file_write_at
            files := files[e.file := files[e.file][..e.offset] + b + files[e.file][e.offset + |b|..]];
          }
        } else {
          var s := swap.SwapOut(mem[f]);
          vmes := vmes[v := e.(kind := Anon, slot := if s.Some? then s.value else BITMAP_ERROR)];
        }
      }
    }

    /** `del_page_from_lru_list`. */
    method DelPageFromLruList(i: nat)
      requires swap.Valid() && i < |lru|
      modifies this`lru, this`hand
      ensures View() == Unlist(old(View()), i)
    {
      if hand == On(i) {
        hand := if i + 1 < |lru| then On(i) else OnTail;
      } else if hand.On? && hand.i > i {
        hand := On(hand.i - 1);  // the same element, one position further to the front
      }
      lru := lru[..i] + lru[i + 1..];
    }

    /** One visit of the sweep. */
    method VisitPage(i: nat) returns (evicted: bool)
      requires swap.Valid() && !swap.locked && Inv(View(), {}) && i < |lru| && hand == On(i)
      modifies this, swap, swap.sectors
      ensures swap.Valid() && old(lru[i] < |vmes| == |ptes| && CanEvict(View(), lru[i]))
      ensures evicted == old(IsVictim(View(), i))
      ensures evicted ==> View() == Evict(old(View()), i) && swap.locked == old(NoSlot(View(), i))
      ensures !evicted ==> View() == Passing(old(View()), i) && !swap.locked
    {
      hide Inv, CanEvict, NoSlot, Evict, Device.Slots;
      ListedPage(View(), i);
      LruCanEvict(View(), {}, i);
      var v := lru[i];
      if vmes[v].pinned {
        return false;
      }
      if ptes[v].accessed {
        ptes := ptes[v := ptes[v].(accessed := false)];
        return false;
      }
      Reclaim(i);
      return true;
    }

    /** `try_to_free_pages`.  With two pages or more, all pinned, the loop of the C code does not end.
        `mid` is the state in which the victim was chosen and `p` the position of the first visit. */
    method TryToFreePages() returns (r: Swept, ghost mid: State, ghost p: nat)
      requires swap.Valid() && !swap.locked && Inv(View(), {})
      requires |lru| >= 2 ==> hand.OnTail? || SomeUnpinned(lru, vmes)
      modifies this, swap, swap.sectors
      ensures swap.Valid()
      ensures mid == old(View()).(ptes := mid.ptes, hand := mid.hand) && OnlyCleared(old(ptes), mid.ptes)
      ensures r.SweepPanic? <==> old(lru) != [] && old(hand).OnTail?
      ensures r.NothingFreed? <==> old(Idle(View()))
      ensures r.NothingFreed? ==> View() == old(IdleAfter(View()))
      ensures !r.Evicted? ==> View() == mid && !swap.locked
      ensures r.Evicted? ==>
        && r.i < |mid.lru| && CanEvict(mid, mid.lru[r.i]) && View() == Evict(mid, r.i) && mid.hand == On(r.i)
        && swap.locked == NoSlot(mid, r.i)
        && !mid.vmes[mid.lru[r.i]].pinned && !mid.ptes[mid.lru[r.i]].accessed
        && 0 < r.visits <= 2 * |mid.lru| && p < |mid.lru| && r.i == Pos(p, r.visits - 1, |mid.lru|)
        && SweptOver(mid.lru, mid.vmes, mid.ptes, p, r.visits - 1)
    {
      hide OnlyCleared, SweptOver, CanEvict, SomeUnpinned, Inv, Evict, Pos, NoSlot, Sweeping, Idle, IdleAfter, Passing, Device.Slots;
      mid, p := View(), 0;
      if lru == [] {
        SweepEnds(mid, mid);
        NothingListed(mid);
        return NothingFreed, mid, p;
      }
      p := if NextTick(lru, hand).Visit? then NextTick(lru, hand).i else 0;
      ghost var st0 := View();
      var visits := 0;
      SweepStarts(st0, p);
      SweepFacts(st0, mid, p, visits);
      while true
        invariant swap.Valid() && !swap.locked && View() == mid && Sweeping(st0, mid, p, visits)
        invariant lru == st0.lru && vmes == st0.vmes && visits < 2 * |lru|
        decreases 2 * |lru| - visits
      {
        SweepTick(st0, mid, p, visits);
        SweepFacts(st0, mid, p, visits);
        var t := GetNextLruClock();
        if !t.Visit? {
          r := if t.Stop? then NothingFreed else SweepPanic;
          return;
        }
        ghost var at := View();
        HandMoved(st0, mid, at, p, visits);
        var evicted := VisitPage(t.i);
        if evicted {
          VictimNotIdle(st0, mid, p, visits);
          mid := at;
          return Evicted(t.i, visits + 1), mid, p;
        }
        SweepPass(st0, mid, p, visits, st0.lru[t.i], View());
        visits := visits + 1;
        mid := View();
        SweepFacts(st0, mid, p, visits);
      }
    }

    /** The loop of `alloc_page`: free pages until a frame is free. */
    method AllocFrame() returns (ghost lost: bool)
      requires swap.Valid() && !swap.locked && Inv(View(), {}) && (HasFree(used) || Reclaimable(View()))
      modifies this, swap, swap.sectors
      ensures swap.Valid() && HasFree(used) && swap.locked == lost && Allocated(old(View()), View(), lost)
      ensures HasFree(old(used)) ==> View() == old(View()) && !lost
    {
      hide Inv, SweptOver, Visible, Allocated, Device.Slots, Reclaimable;
      ghost var st0 := View();
      AllocNothing(st0);
      lost := false;
      while !HasFree(used)
        invariant swap.Valid() && swap.locked == lost && Allocated(st0, View(), lost)
        invariant View() == st0 || HasFree(used)
        invariant !HasFree(used) ==> !lost
        invariant HasFree(st0.used) ==> View() == st0 && !lost
        decreases if HasFree(used) then 0 else 1
      {
        CanSweep(st0);
        var r, mid, p := TryToFreePages();
        lost := NoSlot(mid, r.i);
        AllocEvicted(st0, mid, r.i);
      }
    }

    /** `handle_mm_fault` with `page_fault`: afterwards the page is loaded, and no process sees a
        difference anywhere, unless a victim found no swap slot. Then its contents are lost, the swap lock
        stays held, and a page that is in swap itself cannot be loaded. */
    method HandleMmFault(v: nat) returns (done: bool, ghost lost: bool)
      requires swap.Valid() && !swap.locked && Inv(View(), {}) && v < |vmes| && !vmes[v].loaded
      requires HasFree(used) || Reclaimable(View())
      modifies this, swap, swap.sectors
      ensures swap.Valid() && (done <==> !lost || !old(vmes[v]).kind.Anon?)
      ensures lost ==> !HasFree(old(used)) && !HasFree(old(swap.swapMap)) && swap.locked
      ensures !lost ==> Inv(View(), {}) && SameView(old(View()), View()) && !swap.locked
      ensures done ==>
        && v < |vmes| && v < |ptes| && vmes[v].loaded && ptes[v].present && lru != [] && lru[|lru| - 1] == v
        && !vmes[v].pinned && !ptes[v].dirty && !ptes[v].accessed
      ensures done && HasFree(old(used)) ==> lru == old(lru) + [v]
      ensures |vmes| == |old(vmes)| && forall w {:trigger vmes[w]} :: 0 <= w < |vmes| && w != v ==> vmes[w].pinned == old(vmes[w]).pinned
    {
      hide Inv, Visible, FaultIn, CanFault, Device.Slots, Reclaimable, HasFree;
      ghost var st0 := View();
      lost := AllocFrame();
      ghost var st1 := View();
      SamePage(st0, st1, lost, v);
      if swap.locked && vmes[v].kind.Anon? {
        return false, lost;  // swap_in asserts that the lock is not held by this thread
      }
      FaultsAfter(st0, st1, lost, v);
      FaultLoads(st1, v);
      if !lost {
        FaultTransparent(st1, v);
        ViewTrans(st0, st1, FaultIn(st1, v));
      }
      FillFrame(v);
      return true, lost;
    }

    /** `handle_mm_fault` after `alloc_page`: fill the first free frame and map it. */
    method FillFrame(v: nat)
      requires swap.Valid() && CanFault(View(), v) && (vmes[v].kind.Anon? ==> !swap.locked)
      modifies this, swap
      ensures swap.Valid() && View() == FaultIn(old(View()), v) && swap.locked == old(swap.locked)
    {
      hide HasFree, Device.Slots, FirstFree, Zeros;
      var f := FirstFree(used);
      used := used[f := true];
      lru := lru + [v];
      var e := vmes[v];
      var page: Bytes;
      if e.kind.Anon? {
        var filled := swap.SwapIn(e.slot);
        page := filled.value;
      } else {
        page := files[e.file][e.offset..e.offset + e.readBytes] + Zeros(PGSIZE - e.readBytes);  // load_file
      }
      mem := mem[f := page];
      ptes := ptes[v := Pte(true, false, false, f)];
      vmes := vmes[v := e.(loaded := true, pinned := false)];
    }
  }

  lemma NothingListed(st: State)
    requires st.lru == []
    ensures Idle(st) && IdleAfter(st) == st
  {
  }

  lemma SweepFacts(st0: State, st: State, p: nat, visits: nat)
    requires Sweeping(st0, st, p, visits)
    ensures st == st0.(ptes := st.ptes, hand := st.hand) && OnlyCleared(st0.ptes, st.ptes)
    ensures p < |st.lru| && visits < 2 * |st.lru| && SweptOver(st.lru, st.vmes, st.ptes, p, visits)
  {
  }

  /** The state in which a page is visited is as good as the one at the start of the sweep. */
  lemma HandMoved(st0: State, st: State, at: State, p: nat, visits: nat)
    requires Inv(st0, {}) && Sweeping(st0, st, p, visits) && NextTick(st.lru, st.hand).Visit?
    requires at == st.(hand := On(NextTick(st.lru, st.hand).i))
    ensures Inv(at, {}) && NextTick(st.lru, st.hand).i == Pos(p, visits, |st.lru|) && st.lru[Pos(p, visits, |st.lru|)] < |st.vmes| == |st.ptes|
    ensures IsVictim(at, Pos(p, visits, |st.lru|)) == IsVictim(st, Pos(p, visits, |st.lru|))
    ensures Passing(at, Pos(p, visits, |st.lru|)) == Passing(st, Pos(p, visits, |st.lru|))
    ensures !st0.hand.OnTail? && (|st.lru| == 1 ==> visits == 0 && st.hand.NoHand?)
    ensures at == st0.(ptes := at.ptes, hand := at.hand)
  {
    hide PageOk, Apart, LruOk, Visible, SweptOver;
    SweepTick(st0, st, p, visits);
    ListedPage(st0, NextTick(st.lru, st.hand).i);
    ClearedInv(st0, at);
  }

  lemma CanSweep(st: State)
    requires Reclaimable(st)
    ensures |st.lru| >= 2 ==> SomeUnpinned(st.lru, st.vmes)
    ensures !Idle(st) && !(st.lru != [] && st.hand.OnTail?)
  {
  }

  lemma SamePage(st0: State, st: State, lost: bool, v: nat)
    requires Allocated(st0, st, lost) && v < |st0.vmes| && !st0.vmes[v].loaded
    ensures v < |st.vmes| && st.vmes[v] == st0.vmes[v] && (lost ==> !HasFree(st0.swapMap)) && SamePins(st0.vmes, st.vmes)
  {
  }
}
