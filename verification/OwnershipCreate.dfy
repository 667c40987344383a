/** `filesys_create` keeps the ownership invariant, and what it leaks. */
module OwnershipCreate {
  import opened Common
  import B = Bitmap
  import Directory
  import opened FileSystem
  import opened OwnershipProof
  import opened OwnershipSteps

  lemma SpareMarked(used: seq<bool>, used': seq<bool>, headers: map<nat, Header>, live: set<nat>, a: nat, cnt: nat, b: nat, n: nat)
    requires Spare(used, headers, live, a, cnt) && B.AllAre(used, b, n, false)
    requires used' == B.SetRange(used, b, n, true)
    ensures Spare(used', headers, live, a, cnt)
  {
    hide Covered;
  }

  /** The sector of a live inode is spare once that inode is no longer live. */
  lemma {:induction false} SpareInode(used: seq<bool>, headers: map<nat, Header>, live: set<nat>, s: nat)
    requires s !in live && Owned(used, headers, live + {s})
    ensures Spare(used, headers, live, s, 1)
  {
    hide InExtent;
    var all := live + {s};
    assert s in all;
    forall k: nat | s <= k < s + 1 ensures !Covered(headers, live, k) {
      forall t | t in live && t in headers ensures !(s == t || InExtent(headers[t], s)) {
        assert t in all;
      }
    }
  }

  lemma AgreeUp(headers: map<nat, Header>, live: set<nat>, s: nat, h: Header)
    requires s !in live && forall t {:trigger t in live} :: t in live ==> t in headers
    ensures Agree(headers, headers[s := h], live)
  {
  }

  lemma AgreeTrans(h1: map<nat, Header>, h2: map<nat, Header>, h3: map<nat, Header>, live: set<nat>)
    requires Agree(h1, h2, live) && Agree(h2, h3, live)
    ensures Agree(h1, h3, live)
  {
  }

  lemma AgreeFewer(h1: map<nat, Header>, h2: map<nat, Header>, live: set<nat>, s: nat)
    requires Agree(h1, h2, live + {s})
    ensures Agree(h1, h2, live)
  {
    assert forall t {:trigger t in live} :: t in live ==> t in live + {s};
  }

  lemma OverwriteAgrees(used: seq<bool>, headers: map<nat, Header>, live: set<nat>, s: nat)
    requires Owned(used, headers, live) && s in live
    ensures Owned(used, Overwritten(headers, headers[s]), live)
    ensures Agree(headers, Overwritten(headers, headers[s]), live)
  {
    hide Owned, Overwritten;
    OwnedAgree(used, headers, live);
    OwnedOverwrite(used, headers, live, s);
    OwnedAgree(used, Overwritten(headers, headers[s]), live);
  }

  lemma SpareNotLive(used: seq<bool>, headers: map<nat, Header>, live: set<nat>, s: nat)
    requires Spare(used, headers, live, s, 1) && Owned(used, headers, live)
    ensures s !in live && s < |used| && used[s]
  {
    if s in live {
      CoveredBy(headers, live, s, s);
    }
  }

  /** Writing the inode of allocated data, then zeroing the data. */
  lemma WriteInode(st1: State, live: set<nat>, sector: nat, h: Header, headers': map<nat, Header>)
    requires Owned(st1.used, st1.headers, live)
    requires Spare(st1.used, st1.headers, live, sector, 1)
    requires Spare(st1.used, st1.headers, live, h.start, BytesToSectors(h.length)) && !InExtent(h, sector)
    requires headers' == Overwritten(st1.headers[sector := h], h)
    ensures Owned(st1.used, headers', live + {sector}) && sector !in live
    ensures Agree(st1.headers, headers', live) && sector in headers' && headers'[sector] == h
  {
    hide Owned, Spare, Overwritten, InExtent, BytesToSectors, Agree;
    var written := st1.headers[sector := h];
    SpareNotLive(st1.used, st1.headers, live, sector);
    OwnedNew(st1.used, st1.headers, live, sector, h);
    OwnedAgree(st1.used, st1.headers, live);
    AgreeUp(st1.headers, live, sector, h);
    OverwriteAgrees(st1.used, written, live + {sector}, sector);
    AgreeAt(written, headers', live + {sector}, sector);
    AgreeFewer(written, headers', live, sector);
    AgreeTrans(st1.headers, written, headers', live);
  }

  lemma AgreeAt(h1: map<nat, Header>, h2: map<nat, Header>, live: set<nat>, s: nat)
    requires Agree(h1, h2, live) && s in live
    ensures s in h1 && s in h2 && h2[s] == h1[s]
  {
  }

  lemma OwnedWithout(used: seq<bool>, headers: map<nat, Header>, live: set<nat>, s: nat)
    requires Owned(used, headers, live + {s})
    ensures Owned(used, headers, live)
  {
    OwnedFewer(used, headers, live + {s}, live);
  }

  /** What `inode_create` leaves behind: a new inode owned on top of the live ones, or nothing. */
  lemma InodeCreateStep(st: State, sector: nat, length: nat, memory: bool, written: bool, st': State, made: bool)
    requires Inv(st) && Spare(st.used, st.headers, LiveSet(st), sector, 1)
    requires (st', made) == InodeCreate(st, sector, length, memory, written)
    ensures Inv(st') && LiveSet(st') == LiveSet(st) && Agree(st.headers, st'.headers, LiveSet(st))
    ensures st'.open == st.open && st'.dir == st.dir && st'.handles == st.handles
    ensures Spare(st'.used, st'.headers, LiveSet(st), sector, 1)
    ensures made ==>
      && Owned(st'.used, st'.headers, LiveSet(st) + {sector}) && sector !in LiveSet(st)
      && sector in st'.headers && st'.headers[sector].length == length
      && B.AllAre(st.used, st'.headers[sector].start, BytesToSectors(length), false)
      && st'.used == B.SetRange(st.used, st'.headers[sector].start, BytesToSectors(length), true)
    ensures !made ==> st'.used == st.used
    ensures made <==> memory && Allocate(st, BytesToSectors(length), written).1.Some?
  {
    hide Owned, LiveSet, OpensOk, NamesOk, Spare, Agree, Allocate, Overwritten, BytesToSectors, B.AllAre, B.SetRange;
    var live := LiveSet(st);
    if !memory {
      Reflexive(st);
    } else {
      var (st1, start) := Allocate(st, BytesToSectors(length), written);
      AllocateStep(st, BytesToSectors(length), written, st1, start);
      if start.None? {
        SpareSame(st.used, st.headers, st1.headers, live, sector, 1);
      } else {
        var h := Header(start.value, length);
        SpareMarked(st.used, st1.used, st.headers, live, sector, 1, start.value, BytesToSectors(length));
        SpareSame(st1.used, st.headers, st1.headers, live, sector, 1);
        NotInNew(st.used, st.headers, live, sector, h);
        WriteInode(st1, live, sector, h, st'.headers);
        AgreeTrans(st.headers, st1.headers, st'.headers, live);
        SpareSame(st1.used, st1.headers, st'.headers, live, sector, 1);
        OwnedWithout(st1.used, st'.headers, live, sector);
        DiskStep(st1, st');
      }
    }
  }

  lemma NotInNew(used: seq<bool>, headers: map<nat, Header>, live: set<nat>, sector: nat, h: Header)
    requires Spare(used, headers, live, sector, 1) && B.AllAre(used, h.start, BytesToSectors(h.length), false)
    ensures !InExtent(h, sector)
  {
    hide Covered, BytesToSectors;
    assert used[sector];
  }

  lemma NameLive(st: State, i: nat)
    requires i < |st.dir| && st.dir[i].inUse
    ensures st.dir[i].sector in LiveSet(st) && Named(st.dir, st.dir[i].sector)
  {
    LiveIs(st, st.dir[i].sector);
  }

  /** The directory with a new entry for an inode that has none. */
  ghost function Put(dir: seq<Directory.Entry>, k: nat, name: string, sector: nat): seq<Directory.Entry>
    requires k < |dir|
  {
    dir[k := Directory.Entry(sector, name, true)]
  }

  /** The new entry names its inode, and the one that the old entry named has no name any more. */
  lemma NameAdded(dir: seq<Directory.Entry>, k: nat, name: string, sector: nat, s: nat)
    requires NamesOk(dir) && k < |dir|
    ensures Named(Put(dir, k, name, sector), s) <==> s == sector || (Named(dir, s) && !(dir[k].inUse && s == dir[k].sector))
  {
    var dir' := Put(dir, k, name, sector);
    assert dir'[k].inUse && dir'[k].sector == sector;
    if Named(dir, s) {
      var i :| 0 <= i < |dir| && dir[i].inUse && dir[i].sector == s;
      assert i != k ==> dir'[i] == dir[i];
    }
    if Named(dir', s) {
      var i :| 0 <= i < |dir'| && dir'[i].inUse && dir'[i].sector == s;
      assert i != k ==> dir[i] == dir'[i];
    }
  }

  lemma NamesAdded(st: State, k: nat, name: string, sector: nat)
    requires NamesOk(st.dir) && k < |st.dir| && sector !in LiveSet(st)
    ensures NamesOk(Put(st.dir, k, name, sector))
  {
    hide LiveSet, Named;
    LiveIs(st, sector);
    forall i | 0 <= i < |st.dir| && st.dir[i].inUse ensures st.dir[i].sector != sector {
      NameLive(st, i);
    }
  }

  /** An inode that loses its name to the new entry, and is not open either. */
  ghost function Displaced(st: State, k: nat): set<nat>
    requires k < |st.dir|
  {
    if st.dir[k].inUse && st.dir[k].sector !in st.open then {st.dir[k].sector} else {}
  }

  lemma DirAddStep(st: State, name: string, sector: nat, luck: Luck, st': State)
    requires Inv(st) && sector !in LiveSet(st) && Owned(st.used, st.headers, LiveSet(st) + {sector})
    requires Accepts(st.dir, name, luck)
    requires ROOT_DIR_SECTOR in st.headers && st' == DirAdd(st, name, sector, luck).0
    ensures Inv(st') && LiveSet(st') == LiveSet(st) + {sector} - Displaced(st, Directory.Slot(st.dir, luck.grant2))
    ensures st'.used == st.used && Agree(st.headers, st'.headers, LiveSet(st) + {sector})
  {
    hide Owned, LiveSet, Named, NamesOk, Overwritten, Directory.Slot, Directory.Find, Displaced;
    var live := LiveSet(st) + {sector};
    var k := Directory.Slot(st.dir, luck.grant2);
    Reserved(st);
    OverwriteAgrees(st.used, st.headers, live, ROOT_DIR_SECTOR);
    NamesAdded(st, k, name, sector);
    LiveAdded(st, st', k, name, sector);
    OwnedFewer(st'.used, st'.headers, live, LiveSet(st'));
    forall s | s in st'.open ensures OpenOk(st', s) {
      LiveIs(st, s);
      assert OpenOk(st, s);
      NameAdded(st.dir, k, name, sector, s);
      AgreeAt(st.headers, st'.headers, live, s);
    }
  }

  lemma LiveAdded(st: State, st': State, k: nat, name: string, sector: nat)
    requires NamesOk(st.dir) && k < |st.dir| && sector !in LiveSet(st)
    requires st'.dir == Put(st.dir, k, name, sector) && st'.open == st.open
    ensures LiveSet(st') == LiveSet(st) + {sector} - Displaced(st, k)
  {
    hide LiveSet, Named, NamesOk;
    var live := LiveSet(st) + {sector} - Displaced(st, k);
    AtLeastTwo(st.dir, k);
    if st.dir[k].inUse {
      NameLive(st, k);
    }
    forall s: nat ensures s in LiveSet(st') <==> s in live {
      LiveIs(st, s);
      LiveIs(st', s);
      NameAdded(st.dir, k, name, sector, s);
    }
  }

  lemma AtLeastTwo(dir: seq<Directory.Entry>, k: nat)
    requires NamesOk(dir) && k < |dir|
    ensures dir[k].inUse ==> 2 <= dir[k].sector
  {
  }

  /** The sector and then the data that `filesys_create` would allocate. */
  ghost function SectorFor(st: State, luck: Luck): Option<nat> { Allocate(st, 1, luck.sectorWritten).1 }

  ghost function DataFor(st: State, size: nat, luck: Luck): Option<nat> {
    Allocate(Allocate(st, 1, luck.sectorWritten).0, BytesToSectors(size), luck.dataWritten).1
  }

  /** There is memory and room on the disk for a new file. */
  ghost predicate Makes(st: State, size: nat, luck: Luck) {
    luck.dirOpens && luck.memory && SectorFor(st, luck).Some? && size < OFF_T_LIMIT && DataFor(st, size, luck).Some?
  }

  /** `inode_create` is reached with a size that is negative as an `off_t`. */
  ghost predicate Overlong(st: State, size: nat, luck: Luck) {
    luck.dirOpens && SectorFor(st, luck).Some? && OFF_T_LIMIT <= size
  }

  ghost predicate Names(st: State, name: string, luck: Luck) { Accepts(st.dir, name, luck) }

  /** The entry that the new name goes into. */
  ghost function EntryFor(st: State, luck: Luck): nat { Directory.Slot(st.dir, luck.grant2) }

  /** No sector found for the inode, or no directory. */
  lemma CreateNoSector(st: State, name: string, size: nat, luck: Luck, o: Outcome)
    requires Inv(st) && o == Create(st, name, size, luck)
    requires !luck.dirOpens || SectorFor(st, luck).None?
    ensures o.Next? && !o.ok && Inv(o.st) && LiveSet(o.st) == LiveSet(st)
    ensures o.st.used == st.used && Agree(st.headers, o.st.headers, LiveSet(st))
  {
    hide Owned, LiveSet, OpensOk, NamesOk, Spare, Agree, Allocate, InodeCreate, DirAdd, Release, BytesToSectors;
    Reflexive(st);
    Reserved(st);
    var (st1, sector) := Allocate(st, 1, luck.sectorWritten);
    AllocateStep(st, 1, luck.sectorWritten, st1, sector);
  }

  /** The inode's sector is marked and belongs to nobody yet. */
  lemma SectorTaken(st: State, luck: Luck, st1: State, sector: nat)
    requires Inv(st) && SectorFor(st, luck) == Some(sector) && st1 == Allocate(st, 1, luck.sectorWritten).0
    ensures Inv(st1) && LiveSet(st1) == LiveSet(st) && Agree(st.headers, st1.headers, LiveSet(st))
    ensures st1.dir == st.dir && B.AllAre(st.used, sector, 1, false)
    ensures st1.used == B.SetRange(st.used, sector, 1, true) && Spare(st1.used, st1.headers, LiveSet(st1), sector, 1)
    ensures sector !in LiveSet(st) && 2 <= sector
  {
    hide Owned, LiveSet, OpensOk, NamesOk, Spare, Agree, Allocate, B.AllAre, B.SetRange;
    AllocateStep(st, 1, luck.sectorWritten, st1, Some(sector));
    SpareNotLive(st1.used, st1.headers, LiveSet(st1), sector);
    LiveIs(st1, sector);
  }

  /** The inode could not be made: its sector goes back. */
  lemma CreateNoInode(st: State, name: string, size: nat, luck: Luck, o: Outcome)
    requires Inv(st) && o == Create(st, name, size, luck)
    requires luck.dirOpens && SectorFor(st, luck).Some? && size < OFF_T_LIMIT && !Makes(st, size, luck)
    ensures o.Next? && !o.ok && Inv(o.st) && LiveSet(o.st) == LiveSet(st)
    ensures o.st.used == st.used && Agree(st.headers, o.st.headers, LiveSet(st))
  {
    hide Owned, LiveSet, OpensOk, NamesOk, Spare, Agree, Allocate, InodeCreate, DirAdd, Release, BytesToSectors, B.AllAre, B.SetRange;
    Reserved(st);
    var (st1, found) := Allocate(st, 1, luck.sectorWritten);
    var sector := found.value;
    SectorTaken(st, luck, st1, sector);
    var (st2, made) := InodeCreate(st1, sector, size, luck.memory, luck.dataWritten);
    InodeCreateStep(st1, sector, size, luck.memory, luck.dataWritten, st2, made);
    Reserved(st2);
    ReleaseStep(st2, sector, 1, false);
    Remark(st.used, sector, 1);
    AgreeTrans(st.headers, st1.headers, st2.headers, LiveSet(st));
    AgreeTrans(st.headers, st2.headers, o.st.headers, LiveSet(st));
  }

  /** The directory refuses the name: the sector goes back, the data do not. */
  lemma CreateRefused(st: State, name: string, size: nat, luck: Luck, o: Outcome)
    requires Inv(st) && o == Create(st, name, size, luck)
    requires Makes(st, size, luck) && !Names(st, name, luck)
    ensures o.Next? && !o.ok && Inv(o.st) && LiveSet(o.st) == LiveSet(st)
    ensures Agree(st.headers, o.st.headers, LiveSet(st))
    ensures var start := DataFor(st, size, luck).value;
      && B.AllAre(st.used, start, BytesToSectors(size), false)
      && o.st.used == B.SetRange(st.used, start, BytesToSectors(size), true)
  {
    hide Owned, LiveSet, OpensOk, NamesOk, Spare, Agree, Allocate, InodeCreate, Release, BytesToSectors, B.AllAre, B.SetRange, Accepts;
    Reserved(st);
    var (st1, found) := Allocate(st, 1, luck.sectorWritten);
    var sector := found.value;
    SectorTaken(st, luck, st1, sector);
    var (st2, made) := InodeCreate(st1, sector, size, luck.memory, luck.dataWritten);
    InodeCreateStep(st1, sector, size, luck.memory, luck.dataWritten, st2, made);
    InodeCreateStart(st1, sector, size, luck, st2);
    Reserved(st2);
    ReleaseStep(st2, sector, 1, false);
    MarkBoth(st.used, sector, DataFor(st, size, luck).value, BytesToSectors(size));
    AgreeTrans(st.headers, st1.headers, st2.headers, LiveSet(st));
    AgreeTrans(st.headers, st2.headers, o.st.headers, LiveSet(st));
  }

  lemma AllocateRest(st: State, cnt: nat, written: bool)
    ensures var st' := Allocate(st, cnt, written).0;
      st'.handles == st.handles && st'.open == st.open && st'.dir == st.dir
  {
  }

  lemma InodeCreateRest(st: State, sector: nat, size: nat, memory: bool, written: bool)
    ensures var st' := InodeCreate(st, sector, size, memory, written).0;
      st'.handles == st.handles && st'.open == st.open && st'.dir == st.dir
  {
    hide Allocate, BytesToSectors, Overwritten;
    AllocateRest(st, BytesToSectors(size), written);
  }

  lemma InodeCreateStart(st1: State, sector: nat, size: nat, luck: Luck, st2: State)
    requires luck.memory && Allocate(st1, BytesToSectors(size), luck.dataWritten).1.Some?
    requires st2 == InodeCreate(st1, sector, size, true, luck.dataWritten).0
    ensures sector in st2.headers ==> st2.headers[sector].start == Allocate(st1, BytesToSectors(size), luck.dataWritten).1.value
  {
    hide Allocate, BytesToSectors;
  }

  lemma MarkBoth(used: seq<bool>, sector: nat, start: nat, n: nat)
    requires B.AllAre(used, sector, 1, false)
    requires B.AllAre(B.SetRange(used, sector, 1, true), start, n, false)
    ensures B.AllAre(used, start, n, false) && !(start <= sector < start + n)
    ensures B.SetRange(B.SetRange(B.SetRange(used, sector, 1, true), start, n, true), sector, 1, false)
         == B.SetRange(used, start, n, true)
  {
    var used1 := B.SetRange(used, sector, 1, true);
    assert used1[sector];
    assert forall i {:trigger used[i]} :: start <= i < start + n ==> used1[i] == used[i];
  }

  /** The file is made and named. */
  lemma CreateNamed(st: State, name: string, size: nat, luck: Luck, o: Outcome)
    requires Inv(st) && o == Create(st, name, size, luck)
    requires Makes(st, size, luck) && Names(st, name, luck)
    ensures o.Next? && o.ok && Inv(o.st)
    ensures var sector, start := SectorFor(st, luck).value, DataFor(st, size, luck).value;
      && EntryFor(st, luck) < |st.dir| && sector !in LiveSet(st)
      && LiveSet(o.st) == LiveSet(st) + {sector} - Displaced(st, EntryFor(st, luck))
      && o.st.dir == Put(st.dir, EntryFor(st, luck), name, sector)
      && sector in o.st.headers && o.st.headers[sector] == Header(start, size)
      && B.AllAre(st.used, sector, 1, false) && B.AllAre(st.used, start, BytesToSectors(size), false)
      && !(start <= sector < start + BytesToSectors(size))
      && o.st.used == B.SetRange(B.SetRange(st.used, sector, 1, true), start, BytesToSectors(size), true)
      && Agree(st.headers, o.st.headers, LiveSet(st))
  {
    hide Owned, LiveSet, OpensOk, NamesOk, Spare, Agree, Allocate, InodeCreate, Release, BytesToSectors, B.AllAre, B.SetRange, Overwritten, Directory.Slot, Directory.Find;
    Reserved(st);
    var (st1, found) := Allocate(st, 1, luck.sectorWritten);
    var sector := found.value;
    SectorTaken(st, luck, st1, sector);
    var (st2, made) := InodeCreate(st1, sector, size, luck.memory, luck.dataWritten);
    InodeCreateStep(st1, sector, size, luck.memory, luck.dataWritten, st2, made);
    InodeCreateStart(st1, sector, size, luck, st2);
    Reserved(st2);
    DirAddStep(st2, name, sector, luck, o.st);
    AllocateRest(st, 1, luck.sectorWritten);
    InodeCreateRest(st1, sector, size, luck.memory, luck.dataWritten);
    MarkBoth(st.used, sector, DataFor(st, size, luck).value, BytesToSectors(size));
    var all := LiveSet(st) + {sector};
    assert sector in all;
    AgreeAt(st2.headers, o.st.headers, all, sector);
    AgreeFewer(st2.headers, o.st.headers, LiveSet(st), sector);
    AgreeTrans(st.headers, st1.headers, st2.headers, LiveSet(st));
    AgreeTrans(st.headers, st2.headers, o.st.headers, LiveSet(st));
  }

  /** The assertion on the size fails before anything of the file is made. */
  lemma CreateFails(st: State, name: string, size: nat, luck: Luck)
    requires Inv(st) && Overlong(st, size, luck)
    ensures Create(st, name, size, luck).Panic?
  {
    hide Owned, LiveSet, OpensOk, NamesOk, Allocate, InodeCreate, DirAdd, Release, BytesToSectors;
    Reserved(st);
  }

  /** From a good state a create fails an assertion exactly if its size is negative as an `off_t` once
      the inode has its sector; otherwise it returns, in a good state, with success exactly if there was
      room for the file and for its name. */
  lemma CreateStep(st: State, name: string, size: nat, luck: Luck, o: Outcome)
    requires Inv(st) && o == Create(st, name, size, luck)
    ensures o.Panic? <==> Overlong(st, size, luck)
    ensures !Overlong(st, size, luck) ==>
      o.Next? && Inv(o.st) && (o.ok <==> Makes(st, size, luck) && Names(st, name, luck))
  {
    hide Inv, Create, SectorFor, DataFor, Names;
    if Overlong(st, size, luck) {
      CreateFails(st, name, size, luck);
    } else if !luck.dirOpens || SectorFor(st, luck).None? {
      CreateNoSector(st, name, size, luck, o);
    } else if !Makes(st, size, luck) {
      CreateNoInode(st, name, size, luck, o);
    } else if !Names(st, name, luck) {
      CreateRefused(st, name, size, luck, o);
    } else {
      CreateNamed(st, name, size, luck, o);
    }
  }

  // ---- Sectors lost

  /** Sector k is marked but belongs to no live inode. */
  ghost predicate Orphan(st: State, k: nat) {
    k < |st.used| && st.used[k] && !Covered(st.headers, LiveSet(st), k)
  }

  /** The data of a refused file. */
  ghost predicate Leaked(st: State, name: string, size: nat, luck: Luck, k: nat) {
    && Makes(st, size, luck) && !Names(st, name, luck)
    && DataFor(st, size, luck).value <= k < DataFor(st, size, luck).value + BytesToSectors(size)
  }

  lemma OrphanSame(st: State, st': State, k: nat)
    requires LiveSet(st') == LiveSet(st) && st'.used == st.used && Agree(st.headers, st'.headers, LiveSet(st))
    ensures Orphan(st', k) == Orphan(st, k)
  {
    hide LiveSet, Covered, Agree;
    CoveredSame(st.headers, st'.headers, LiveSet(st), k);
  }

  lemma FreeNotCovered(st: State, a: nat, n: nat, k: nat)
    requires Inv(st) && B.AllAre(st.used, a, n, false) && a <= k < a + n
    ensures !Covered(st.headers, LiveSet(st), k) && !st.used[k]
  {
    hide Covered, OpensOk, NamesOk, LiveSet, Owned;
    FreeIsSpare(st.used, st.headers, LiveSet(st), a, n);
  }

  lemma CoveredAdded(headers: map<nat, Header>, headers': map<nat, Header>, live: set<nat>, s: nat, k: nat)
    requires Agree(headers, headers', live) && s in headers'
    ensures Covered(headers', live + {s}, k) <==> Covered(headers, live, k) || k == s || InExtent(headers'[s], k)
  {
    hide InExtent;
    var all := live + {s};
    assert s in all;
    assert forall t {:trigger t in live} :: t in live ==> t in all;
    if Covered(headers', all, k) {
      var t :| t in all && t in headers' && (k == t || InExtent(headers'[t], k));
      assert t == s || t in live;
    }
  }

  /** The sectors of an inode whose entry is overwritten while it is not open. */
  ghost predicate Ousted(st: State, name: string, size: nat, luck: Luck, k: nat) {
    && Makes(st, size, luck) && Names(st, name, luck) && EntryFor(st, luck) < |st.dir|
    && var e := st.dir[EntryFor(st, luck)];
       e.inUse && e.sector !in st.open && e.sector in st.headers && (k == e.sector || InExtent(st.headers[e.sector], k))
  }

  /** Dropping an inode from the live ones uncovers exactly its own sectors. */
  lemma CoveredDropped(used: seq<bool>, headers: map<nat, Header>, live: set<nat>, s: nat, k: nat)
    requires Owned(used, headers, live) && s in live
    ensures s in headers && (Covered(headers, live - {s}, k) <==>
      Covered(headers, live, k) && !(k == s || InExtent(headers[s], k)))
    ensures k == s || InExtent(headers[s], k) ==> k < |used| && used[k] && Covered(headers, live, k)
  {
    hide InExtent;
    var rest := live - {s};
    assert forall t {:trigger t in rest} :: t in rest ==> t in live;
    if Covered(headers, live, k) && !Covered(headers, rest, k) {
      var t :| t in live && t in headers && (k == t || InExtent(headers[t], k));
      assert t == s;
    }
    if Covered(headers, rest, k) {
      var t :| t in rest && t in headers && (k == t || InExtent(headers[t], k));
      assert t in live && t != s;
      assert InExtent(headers[t], s) ==> s !in live;
    }
    if k == s || InExtent(headers[s], k) {
      CoveredBy(headers, live, s, k);
    }
  }

  /** `filesys_create` loses the data of a refused file, and the sectors of a file not open whose entry
      it overwrites, and nothing else. */
  lemma CreateLeaks(st: State, name: string, size: nat, luck: Luck, o: Outcome, k: nat)
    requires Inv(st) && o == Create(st, name, size, luck)
    ensures o.Next? <==> !Overlong(st, size, luck)
    ensures o.Next? ==> (Orphan(o.st, k) <==>
      Orphan(st, k) || Leaked(st, name, size, luck, k) || Ousted(st, name, size, luck, k))
  {
    hide Inv, Create, SectorFor, DataFor, Names, LiveSet, Covered, Agree, BytesToSectors, EntryFor;
    if Overlong(st, size, luck) {
      CreateFails(st, name, size, luck);
    } else if !luck.dirOpens || SectorFor(st, luck).None? {
      CreateNoSector(st, name, size, luck, o);
      OrphanSame(st, o.st, k);
    } else if !Makes(st, size, luck) {
      CreateNoInode(st, name, size, luck, o);
      OrphanSame(st, o.st, k);
    } else if !Names(st, name, luck) {
      CreateRefused(st, name, size, luck, o);
      CoveredSame(st.headers, o.st.headers, LiveSet(st), k);
      var start := DataFor(st, size, luck).value;
      if start <= k < start + BytesToSectors(size) {
        FreeNotCovered(st, start, BytesToSectors(size), k);
      }
    } else {
      CreateNamed(st, name, size, luck, o);
      NamedOrphans(st, name, size, luck, o, k);
    }
  }

  lemma NamedOrphans(st: State, name: string, size: nat, luck: Luck, o: Outcome, k: nat)
    requires Inv(st) && o == Create(st, name, size, luck) && Makes(st, size, luck) && Names(st, name, luck)
    ensures o.Next? && (Orphan(o.st, k) <==> Orphan(st, k) || Ousted(st, name, size, luck, k))
  {
    hide Inv, Create, SectorFor, DataFor, Names, LiveSet, Covered, Agree, BytesToSectors, EntryFor;
    CreateNamed(st, name, size, luck, o);
    var s := SectorFor(st, luck).value;
    CoveredAdded(st.headers, o.st.headers, LiveSet(st), s, k);
    var all := LiveSet(st) + {s};
    var e := st.dir[EntryFor(st, luck)];
    if e.inUse && e.sector !in st.open {
      NameLive(st, EntryFor(st, luck));
      InvOwned(st);
      CoveredDropped(st.used, st.headers, LiveSet(st), e.sector, k);
      AgreeAt(st.headers, o.st.headers, LiveSet(st), e.sector);
      AgreeWithout(st.headers, o.st.headers, LiveSet(st), e.sector);
      CoveredAdded(st.headers, o.st.headers, LiveSet(st) - {e.sector}, s, k);
      assert all - {e.sector} == LiveSet(st) - {e.sector} + {s};
    } else {
      assert all - {} == all;
    }
  }

  lemma InvOwned(st: State)
    requires Inv(st)
    ensures Owned(st.used, st.headers, LiveSet(st))
  {
  }

  lemma AgreeWithout(h1: map<nat, Header>, h2: map<nat, Header>, live: set<nat>, s: nat)
    requires Agree(h1, h2, live)
    ensures Agree(h1, h2, live - {s})
  {
    assert forall t {:trigger t in live - {s}} :: t in live - {s} ==> t in live;
  }
}
