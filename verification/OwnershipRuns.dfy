/** Opening, removing and closing keep the ownership invariant; so does every run. */
module OwnershipRuns {
  import opened Common
  import B = Bitmap
  import Directory
  import opened FileSystem
  import opened OwnershipProof
  import opened OwnershipSteps
  import opened OwnershipCreate

  // ---- Opening

  lemma LiveOpened(st: State, st': State, s: nat)
    requires s in LiveSet(st) && st'.open.Keys == st.open.Keys + {s} && st'.dir == st.dir
    ensures LiveSet(st') == LiveSet(st)
  {
    hide LiveSet, Named;
    forall t: nat ensures t in LiveSet(st') <==> t in LiveSet(st) {
      LiveIs(st, t);
      LiveIs(st', t);
      assert t in st'.open.Keys <==> t in st.open.Keys || t == s;
    }
  }

  lemma OpenAt(st: State, s: nat)
    requires OpensOk(st) && s in st.open
    ensures OpenOk(st, s)
  {
  }

  /** `inode_open` of a named inode: found open or read from its sector, with one more reference. */
  lemma InodeOpenStep(st: State, s: nat, memory: bool, o: Outcome, st': State)
    requires Inv(st) && Named(st.dir, s) && 2 <= s && o == InodeOpen(st, s, memory)
    requires st' == (if o.Next? && o.ok then o.st.(handles := o.st.handles + multiset{s}) else st)
    ensures o.Next? && (!o.ok ==> o.st == st)
    ensures Inv(st') && LiveSet(st') == LiveSet(st) && (o.ok ==> s in st'.open)
  {
    hide Owned, LiveSet, Named, NamesOk;
    LiveIs(st, s);
    OwnedAgree(st.used, st.headers, LiveSet(st));
    if o.ok {
      assert s in st.open ==> OpenOk(st, s);
      LiveOpened(st, st', s);
      forall t | t in st'.open ensures OpenOk(st', t) {
        if t != s {
          OpenAt(st, t);
        }
      }
    }
  }

  /** One more reference to an inode that a caller already holds. */
  lemma ReopenStep(st: State, s: nat, st': State)
    requires Inv(st) && s in st.handles && s in st.open
    requires st' == st.(open := st.open[s := st.open[s].(cnt := st.open[s].cnt + 1)], handles := st.handles + multiset{s})
    ensures Inv(st') && LiveSet(st') == LiveSet(st)
  {
    hide Owned, LiveSet, Named, NamesOk;
    OpenAt(st, s);
    LiveSame(st, st');
    forall t | t in st'.open ensures OpenOk(st', t) {
      if t != s {
        OpenAt(st, t);
      }
    }
  }

  // ---- Closing

  lemma CloseNotLast(st: State, s: nat, st': State)
    requires Inv(st) && s in st.handles && s in st.open && st.open[s].cnt > 1
    requires st' == st.(open := st.open[s := st.open[s].(cnt := st.open[s].cnt - 1)], handles := st.handles - multiset{s})
    ensures Inv(st') && LiveSet(st') == LiveSet(st)
  {
    hide Owned, LiveSet, Named, NamesOk;
    OpenAt(st, s);
    LiveSame(st, st');
    forall t | t in st'.open ensures OpenOk(st', t) {
      if t != s {
        OpenAt(st, t);
      }
    }
  }

  /** The last close drops the inode from the list; it stays live only by name. */
  lemma CloseDrops(st: State, s: nat, st': State)
    requires Inv(st) && s in st.handles && s in st.open && st.open[s].cnt == 1
    requires st' == st.(open := st.open - {s}, handles := st.handles - multiset{s})
    ensures Inv(st') && s in LiveSet(st)
    ensures LiveSet(st') == if Named(st.dir, s) then LiveSet(st) else LiveSet(st) - {s}
  {
    hide Owned, LiveSet, Named, NamesOk;
    OpenAt(st, s);
    LiveDropped(st, s, st');
    OwnedFewer(st.used, st.headers, LiveSet(st), LiveSet(st'));
    forall t | t in st'.open ensures OpenOk(st', t) {
      OpenAt(st, t);
    }
    LiveIs(st, s);
  }

  lemma LiveDropped(st: State, s: nat, st': State)
    requires s in st.open && 2 <= s && st'.open == st.open - {s} && st'.dir == st.dir
    ensures LiveSet(st') == if Named(st.dir, s) then LiveSet(st) else LiveSet(st) - {s}
  {
    hide LiveSet, Named;
    forall t: nat ensures t in LiveSet(st') <==> t in LiveSet(st) && (t != s || Named(st.dir, s)) {
      LiveIs(st, t);
      LiveIs(st', t);
    }
  }

  /** The sectors of an inode that just stopped being live are spare. */
  lemma SpareData(used: seq<bool>, headers: map<nat, Header>, live: set<nat>, s: nat)
    requires s !in live && Owned(used, headers, live + {s})
    ensures s in headers && !InExtent(headers[s], s)
    ensures Spare(used, headers, live, headers[s].start, BytesToSectors(headers[s].length))
  {
    hide BytesToSectors;
    var all := live + {s};
    assert s in all;
    var h := headers[s];
    assert forall t {:trigger t in live} :: t in live ==> t in all;
    forall k: nat | h.start <= k < h.start + BytesToSectors(h.length) ensures k < |used| && used[k] && !Covered(headers, live, k) {
      assert InExtent(h, k);
      forall t | t in live && t in headers ensures !(k == t || InExtent(headers[t], k)) {
        assert t in all;
      }
    }
  }

  lemma SpareAfter(used: seq<bool>, headers: map<nat, Header>, live: set<nat>, a: nat, cnt: nat, s: nat)
    requires Spare(used, headers, live, a, cnt) && s < |used| && !(a <= s < a + cnt)
    ensures Spare(B.SetRange(used, s, 1, false), headers, live, a, cnt)
  {
    hide Covered;
  }

  /** The last close of a removed inode releases its sectors, all of them marked. */
  lemma CloseReleases(st: State, s: nat, ok: bool, o: Outcome)
    requires Inv(st) && s in st.handles && s in st.open && st.open[s].cnt == 1 && st.open[s].removed
    requires o == InodeClose(st.(handles := st.handles - multiset{s}), s, ok)
    ensures o.Next? && o.ok == ok && Inv(o.st) && s in LiveSet(st) && s in st.headers && !InExtent(st.headers[s], s)
    ensures LiveSet(o.st) == LiveSet(st) - {s} && Agree(st.headers, o.st.headers, LiveSet(st) - {s})
    ensures var h := st.headers[s];
      && s < |st.used| && h.start + BytesToSectors(h.length) <= |st.used|
      && o.st.used == B.SetRange(B.SetRange(st.used, s, 1, false), h.start, BytesToSectors(h.length), false)
    ensures o.st.dir == st.dir && o.st.open == st.open - {s}
  {
    hide Owned, LiveSet, Named, NamesOk, Release, Spare, Agree, BytesToSectors, InExtent, B.SetRange;
    var st1 := st.(open := st.open - {s}, handles := st.handles - multiset{s});
    CloseDrops(st, s, st1);
    OpenAt(st, s);
    var live := LiveSet(st1);
    assert live + {s} == LiveSet(st);
    var h := st.headers[s];
    SpareInode(st.used, st.headers, live, s);
    SpareData(st.used, st.headers, live, s);
    SpareIn(st.used, st.headers, live, s, 1);
    SpareIn(st.used, st.headers, live, h.start, BytesToSectors(h.length));
    ReleaseStep(st1, s, 1, ok);
    var st2 := Release(st1, s, 1, ok).st;
    NotInside(h, s);
    SpareAfter(st.used, st.headers, live, h.start, BytesToSectors(h.length), s);
    SpareSame(st2.used, st.headers, st2.headers, live, h.start, BytesToSectors(h.length));
    ReleaseStep(st2, h.start, BytesToSectors(h.length), ok);
    AgreeTrans(st.headers, st2.headers, o.st.headers, live);
  }

  lemma SpareIn(used: seq<bool>, headers: map<nat, Header>, live: set<nat>, a: nat, cnt: nat)
    requires Spare(used, headers, live, a, cnt)
    ensures a + cnt <= |used|
  {
  }

  lemma NotInside(h: Header, s: nat)
    requires !InExtent(h, s)
    ensures !(h.start <= s < h.start + BytesToSectors(h.length))
  {
  }

  lemma CloseStep(st: State, s: nat, ok: bool, o: Outcome)
    requires Inv(st) && s in st.handles && s in st.open
    requires o == InodeClose(st.(handles := st.handles - multiset{s}), s, ok)
    ensures o.Next? && o.ok == ok && Inv(o.st)
  {
    hide Owned, LiveSet, Named, NamesOk, Release;
    OpenAt(st, s);
    if st.open[s].cnt > 1 {
      CloseNotLast(st, s, o.st);
    } else if st.open[s].removed {
      CloseReleases(st, s, ok, o);
    } else {
      CloseDrops(st, s, o.st);
    }
  }

  // ---- Removing

  /** Entry k is the only one that names its inode. */
  lemma NameGone(dir: seq<Directory.Entry>, k: nat, s: nat)
    requires NamesOk(dir) && k < |dir| && dir[k].inUse
    ensures Named(Directory.Erased(dir, k), s) <==> Named(dir, s) && s != dir[k].sector
  {
    var dir' := Directory.Erased(dir, k);
    if Named(dir, s) && s != dir[k].sector {
      var i :| 0 <= i < |dir| && dir[i].inUse && dir[i].sector == s;
      assert i != k && dir'[i] == dir[i];
    }
    if Named(dir', s) {
      var i :| 0 <= i < |dir'| && dir'[i].inUse && dir'[i].sector == s;
      assert i != k && dir[i] == dir'[i];
    }
  }

  lemma NamesFewer(dir: seq<Directory.Entry>, k: nat)
    requires NamesOk(dir) && k < |dir| && dir[k].inUse
    ensures NamesOk(Directory.Erased(dir, k))
  {
  }

  /** Taking the name away from an open inode, and marking the inode removed. */
  lemma UnnameStep(st: State, k: nat, st': State)
    requires Inv(st) && k < |st.dir| && st.dir[k].inUse
    requires st.dir[k].sector in st.handles && st.dir[k].sector in st.open && ROOT_DIR_SECTOR in st.headers
    requires var s := st.dir[k].sector;
      st' == st.(dir := Directory.Erased(st.dir, k), headers := Overwritten(st.headers, st.headers[ROOT_DIR_SECTOR]),
                 open := st.open[s := st.open[s].(removed := true)])
    ensures Inv(st') && LiveSet(st') == LiveSet(st) && Agree(st.headers, st'.headers, LiveSet(st))
  {
    hide Owned, LiveSet, Named, NamesOk, Overwritten, Directory.Erased;
    var s := st.dir[k].sector;
    Reserved(st);
    NamesFewer(st.dir, k);
    NamedAtLeast(st.dir, k);
    OverwriteAgrees(st.used, st.headers, LiveSet(st), ROOT_DIR_SECTOR);
    LiveUnnamed(st, k, st');
    OpenAt(st, s);
    forall t | t in st'.open ensures OpenOk(st', t) {
      OpenAt(st, t);
      LiveIs(st, t);
      NameGone(st.dir, k, t);
      AgreeAt(st.headers, st'.headers, LiveSet(st), t);
    }
  }

  lemma LiveUnnamed(st: State, k: nat, st': State)
    requires NamesOk(st.dir) && k < |st.dir| && st.dir[k].inUse && st.dir[k].sector in st.open
    requires st'.dir == Directory.Erased(st.dir, k) && st'.open.Keys == st.open.Keys
    ensures LiveSet(st') == LiveSet(st)
  {
    hide LiveSet, Named, NamesOk, Directory.Erased;
    forall t: nat ensures t in LiveSet(st') <==> t in LiveSet(st) {
      LiveIs(st, t);
      LiveIs(st', t);
      NameGone(st.dir, k, t);
      assert t in st'.open.Keys <==> t in st.open.Keys;
    }
  }

  lemma NamedAtLeast(dir: seq<Directory.Entry>, k: nat)
    requires NamesOk(dir) && k < |dir| && dir[k].inUse
    ensures 2 <= dir[k].sector && Named(dir, dir[k].sector)
  {
  }

  lemma OpenStep(st: State, name: string, luck: Luck, o: Outcome)
    requires Inv(st) && o == Open(st, name, luck)
    ensures o.Next? && Inv(o.st)
    ensures o.ok ==> var k := Found(st.dir, name, luck);
      k.Some? && o.st.handles == st.handles + multiset{st.dir[k.value].sector}
  {
    hide Owned, LiveSet, Named, NamesOk, InodeClose, InodeOpen, OpensOk, Directory.Find;
    var k := Found(st.dir, name, luck);
    if k.Some? {
      var s := st.dir[k.value].sector;
      NamedAtLeast(st.dir, k.value);
      var mid := InodeOpen(st, s, luck.memory);
      InodeOpenHandles(st, s, luck.memory);
      var held := if mid.Next? && mid.ok then mid.st.(handles := mid.st.handles + multiset{s}) else st;
      InodeOpenStep(st, s, luck.memory, mid, held);
      if mid.ok && !luck.fileMemory {
        assert held.(handles := held.handles - multiset{s}) == mid.st;
        CloseStep(held, s, false, o);
      }
    }
  }

  lemma InodeOpenHandles(st: State, s: nat, memory: bool)
    ensures var o := InodeOpen(st, s, memory);
      o.Next? ==> o.st.handles == st.handles && o.st.dir == st.dir && o.st.headers == st.headers && o.st.used == st.used
  {
  }

  /** `filesys_remove`, whose last step may be the last close. */
  lemma RemoveStep(st: State, name: string, luck: Luck, o: Outcome)
    requires Inv(st) && o == Remove(st, name, luck)
    ensures o.Next? && Inv(o.st)
  {
    hide Owned, LiveSet, Named, NamesOk, InodeClose, InodeOpen, Overwritten, OpensOk, Directory.Find, Directory.Erased;
    var k := Found(st.dir, name, luck);
    if k.Some? {
      var s := st.dir[k.value].sector;
      NamedAtLeast(st.dir, k.value);
      var mid := InodeOpen(st, s, luck.memory);
      InodeOpenHandles(st, s, luck.memory);
      var held := if mid.Next? && mid.ok then mid.st.(handles := mid.st.handles + multiset{s}) else st;
      InodeOpenStep(st, s, luck.memory, mid, held);
      if mid.ok {
        Reserved(held);
        assert held.(handles := held.handles - multiset{s}) == mid.st;
        if !luck.dirWritten {
          CloseStep(held, s, false, o);
        } else {
          var gone := held.(dir := Directory.Erased(held.dir, k.value),
            headers := Overwritten(held.headers, held.headers[ROOT_DIR_SECTOR]),
            open := held.open[s := held.open[s].(removed := true)]);
          UnnameStep(held, k.value, gone);
          assert gone.handles - multiset{s} == mid.st.handles;
          CloseStep(gone, s, true, o);
        }
      }
    }
  }
}
