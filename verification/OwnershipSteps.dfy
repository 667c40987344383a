/** Each operation of the file system keeps the ownership invariant, without a panic. */
module OwnershipSteps {
  import opened Common
  import B = Bitmap
  import opened FileSystem
  import opened OwnershipProof

  /** The inodes in `live` are still on disk as they were. */
  ghost predicate Agree(headers: map<nat, Header>, headers': map<nat, Header>, live: set<nat>) {
    forall t {:trigger t in live} :: t in live ==> t in headers && t in headers' && headers'[t] == headers[t]
  }

  lemma CoveredSame(headers: map<nat, Header>, headers': map<nat, Header>, live: set<nat>, k: nat)
    requires Agree(headers, headers', live)
    ensures Covered(headers, live, k) == Covered(headers', live, k)
  {
    hide InExtent;
  }

  lemma SpareSame(used: seq<bool>, headers: map<nat, Header>, headers': map<nat, Header>, live: set<nat>, a: nat, cnt: nat)
    requires Agree(headers, headers', live) && Spare(used, headers, live, a, cnt)
    ensures Spare(used, headers', live, a, cnt)
  {
    hide Covered, Agree, B.AllAre;
    forall k: nat | a <= k < a + cnt ensures !Covered(headers', live, k) {
      CoveredSame(headers, headers', live, k);
    }
  }

  lemma LiveIs(st: State, s: nat)
    ensures s in LiveSet(st) <==> Live(st, s)
  {
  }

  lemma LiveSame(st: State, st': State)
    requires st'.open.Keys == st.open.Keys && st'.dir == st.dir
    ensures LiveSet(st') == LiveSet(st)
  {
    hide LiveSet;
    assert forall s {:trigger s in LiveSet(st)} :: s in LiveSet(st) ==> Live(st, s);
    forall s: nat ensures s in LiveSet(st) <==> s in LiveSet(st') {
      LiveIs(st, s);
      LiveIs(st', s);
      assert s in st.open.Keys <==> s in st'.open.Keys;
    }
  }

  /** A step that changes only the free map and the disk keeps what concerns names and references. */
  lemma DiskStep(st: State, st': State)
    requires Inv(st) && st'.open == st.open && st'.dir == st.dir && st'.handles == st.handles
    requires Owned(st'.used, st'.headers, LiveSet(st)) && Agree(st.headers, st'.headers, LiveSet(st))
    ensures Inv(st') && LiveSet(st') == LiveSet(st)
  {
    hide Owned, LiveSet, Named, NamesOk;
    LiveSame(st, st');
    forall s | s in st'.open ensures OpenOk(st', s) {
      LiveIs(st, s);
      assert OpenOk(st, s);
    }
  }

  lemma Reserved(st: State)
    requires Inv(st)
    ensures FREE_MAP_SECTOR in LiveSet(st) && ROOT_DIR_SECTOR in LiveSet(st)
    ensures FREE_MAP_SECTOR in st.open && FREE_MAP_SECTOR in st.headers && ROOT_DIR_SECTOR in st.headers
    ensures st.open[FREE_MAP_SECTOR].data == st.headers[FREE_MAP_SECTOR]
  {
    hide DataKept, DataApart, NamesOk, Named;
    LiveIs(st, FREE_MAP_SECTOR);
    LiveIs(st, ROOT_DIR_SECTOR);
    assert OpenOk(st, FREE_MAP_SECTOR);
  }

  /** Writing the free map to its file. */
  lemma FlushStep(st: State, st': State)
    requires Inv(st) && st' == FlushFreeMap(st)
    ensures Inv(st') && Agree(st.headers, st'.headers, LiveSet(st)) && LiveSet(st') == LiveSet(st)
    ensures st'.used == st.used && st'.open == st.open && st'.dir == st.dir && st'.handles == st.handles
  {
    hide Owned, LiveSet, OpensOk, NamesOk, Overwritten;
    Reserved(st);
    OwnedOverwrite(st.used, st.headers, LiveSet(st), FREE_MAP_SECTOR);
    OwnedAgree(st.used, st'.headers, LiveSet(st));
    DiskStep(st, st');
  }

  lemma OwnedAgree(used: seq<bool>, headers: map<nat, Header>, live: set<nat>)
    requires Owned(used, headers, live)
    ensures InodesKept(used, headers, live)
    ensures forall t {:trigger t in live} :: t in live ==> t in headers
  {
  }

  /** Marking more sectors. */
  lemma MarkStep(st: State, st': State, a: nat, cnt: nat)
    requires Inv(st) && a + cnt <= |st.used| && st' == st.(used := B.SetRange(st.used, a, cnt, true))
    ensures Inv(st') && LiveSet(st') == LiveSet(st)
  {
    hide Owned, LiveSet, OpensOk, NamesOk, B.SetRange;
    OwnedMore(st.used, st'.used, st.headers, LiveSet(st));
    OwnedAgree(st.used, st.headers, LiveSet(st));
    DiskStep(st, st');
  }

  /** Unmarking spare sectors. */
  lemma UnmarkStep(st: State, st': State, a: nat, cnt: nat)
    requires Inv(st) && Spare(st.used, st.headers, LiveSet(st), a, cnt)
    requires st' == st.(used := B.SetRange(st.used, a, cnt, false))
    ensures Inv(st') && LiveSet(st') == LiveSet(st)
  {
    hide Owned, LiveSet, OpensOk, NamesOk, B.SetRange, Spare;
    OwnedRelease(st.used, st.headers, LiveSet(st), a, cnt);
    OwnedAgree(st.used, st.headers, LiveSet(st));
    DiskStep(st, st');
  }

  /** An allocation takes sectors that belonged to nobody, and gives them back if it fails. */
  lemma AllocateStep(st: State, cnt: nat, written: bool, st': State, group: Option<nat>)
    requires Inv(st) && (st', group) == Allocate(st, cnt, written)
    ensures Inv(st') && LiveSet(st') == LiveSet(st) && Agree(st.headers, st'.headers, LiveSet(st))
    ensures st'.open == st.open && st'.dir == st.dir && st'.handles == st.handles
    ensures group.Some? ==>
      && B.AllAre(st.used, group.value, cnt, false)
      && st'.used == B.SetRange(st.used, group.value, cnt, true)
      && Spare(st'.used, st'.headers, LiveSet(st), group.value, cnt)
    ensures group.None? ==> st'.used == st.used
  {
    hide Owned, LiveSet, OpensOk, NamesOk, FlushFreeMap, Spare, Agree, B.FirstGroup, B.SetRange;
    var a := B.FirstGroup(st.used, 0, cnt, false);
    if a.Some? {
      var marked := st.(used := B.SetRange(st.used, a.value, cnt, true));
      var flushed := FlushFreeMap(marked);
      MarkStep(st, marked, a.value, cnt);
      FlushStep(marked, flushed);
      FreeIsSpare(st.used, st.headers, LiveSet(st), a.value, cnt);
      SpareSame(marked.used, st.headers, flushed.headers, LiveSet(st), a.value, cnt);
      if group.None? {
        UnmarkStep(flushed, st', a.value, cnt);
        Remark(st.used, a.value, cnt);
      }
    } else {
      Reflexive(st);
    }
  }

  lemma Reflexive(st: State)
    requires Inv(st)
    ensures Agree(st.headers, st.headers, LiveSet(st))
  {
    hide LiveSet, DataKept, DataApart, OpensOk, NamesOk;
  }

  lemma Remark(used: seq<bool>, a: nat, cnt: nat)
    requires B.AllAre(used, a, cnt, false)
    ensures B.SetRange(B.SetRange(used, a, cnt, true), a, cnt, false) == used
  {
  }

  /** A release of spare sectors never fails its assertion. */
  lemma ReleaseStep(st: State, a: nat, cnt: nat, ok: bool)
    requires Inv(st) && Spare(st.used, st.headers, LiveSet(st), a, cnt)
    ensures Release(st, a, cnt, ok).Next? && Release(st, a, cnt, ok).ok == ok
    ensures var st' := Release(st, a, cnt, ok).st;
      && Inv(st') && LiveSet(st') == LiveSet(st) && Agree(st.headers, st'.headers, LiveSet(st))
      && st'.open == st.open && st'.dir == st.dir && st'.handles == st.handles
      && st'.used == B.SetRange(st.used, a, cnt, false)
  {
    hide Owned, LiveSet, OpensOk, NamesOk, FlushFreeMap, Covered, Agree, B.SetRange;
    var unmarked := st.(used := B.SetRange(st.used, a, cnt, false));
    UnmarkStep(st, unmarked, a, cnt);
    FlushStep(unmarked, FlushFreeMap(unmarked));
  }
}
