/** What each operation of the file system achieves, told apart from how: which names are bound, which
    files are held, which sectors are marked. */
module OwnershipEffects {
  import opened Common
  import B = Bitmap
  import Directory
  import opened FileSystem
  import opened OwnershipProof
  import opened OwnershipSteps
  import opened OwnershipCreate
  import opened OwnershipRuns
  import opened OwnershipTheorems

  // ---- The free map

  /** A group of cnt sectors from a on is free. */
  ghost predicate FreeGroup(used: seq<bool>, a: nat, cnt: nat) {
    a + cnt <= |used| && forall i {:trigger used[i]} :: a <= i < a + cnt ==> !used[i]
  }

  /** A group is found if and only if one is free and the free map can be written, if it is open; it is the
      first one, and its sectors and no others are marked. */
  lemma AllocateDoes(st: State, cnt: nat, written: bool)
    ensures var (st', r) := Allocate(st, cnt, written);
      && (r.Some? <==> (exists a {:trigger FreeGroup(st.used, a, cnt)} :: FreeGroup(st.used, a, cnt)) && (written || FREE_MAP_SECTOR !in st.open))
      && (r.Some? ==> FreeGroup(st.used, r.value, cnt) && forall a {:trigger FreeGroup(st.used, a, cnt)} :: FreeGroup(st.used, a, cnt) ==> r.value <= a)
      && |st'.used| == |st.used|
      && (forall i {:trigger st'.used[i]} :: 0 <= i < |st.used| ==>
            (st'.used[i] <==> st.used[i] || (r.Some? && r.value <= i < r.value + cnt)))
      && st'.dir == st.dir && st'.open == st.open && st'.handles == st.handles
  {
    hide Overwritten;
    var group := B.FirstGroup(st.used, 0, cnt, false);
    forall a: nat ensures FreeGroup(st.used, a, cnt) <==> B.AllAre(st.used, a, cnt, false) {
    }
    if group.Some? {
      assert FreeGroup(st.used, group.value, cnt);
    }
  }

  // ---- Opening

  /** The scan of the directory finds the name at entry k: the first in use with it, among those read. */
  ghost predicate FoundAt(dir: seq<Directory.Entry>, name: string, luck: Luck, k: nat) {
    && luck.dirOpens && k < |dir| && k < luck.grant1 && dir[k].inUse && dir[k].name == name
    && forall j {:trigger dir[j]} :: 0 <= j < k ==> !(dir[j].inUse && dir[j].name == name)
  }

  lemma FoundIs(dir: seq<Directory.Entry>, name: string, luck: Luck, k: nat)
    ensures FoundAt(dir, name, luck, k) <==> Found(dir, name, luck) == Some(k)
  {
    var r := Found(dir, name, luck);
    if FoundAt(dir, name, luck, k) {
      assert k < Directory.ScanEnd(dir, luck.grant1) && Directory.IsNamed(dir[k], name);
    }
  }

  /** The open inode of sector s, with one more reference. */
  function OneMore(st: State, s: nat): OpenInode
    requires s in st.open || s in st.headers
  {
    if s in st.open then st.open[s].(cnt := st.open[s].cnt + 1) else OpenInode(1, false, st.headers[s])
  }

  lemma InodeOpens(st: State, s: nat, memory: bool)
    requires Inv(st) && Named(st.dir, s)
    ensures s in st.headers
    ensures InodeOpen(st, s, memory) ==
      if s in st.open || memory then Next(st.(open := st.open[s := OneMore(st, s)]), true) else Next(st, false)
  {
    hide Owned, LiveSet, Named, NamesOk, OpensOk;
    LiveIs(st, s);
    InvOwned(st);
    OwnedAgree(st.used, st.headers, LiveSet(st));
  }

  /** Closing an inode that has just been opened takes that back. */
  lemma CloseUndoes(st: State, s: nat, ok: bool)
    requires Inv(st) && s in st.headers
    ensures InodeClose(st.(open := st.open[s := OneMore(st, s)]), s, ok) == Next(st, ok)
  {
    hide Owned, LiveSet, Named, NamesOk;
    var open' := st.open[s := OneMore(st, s)];
    if s in st.open {
      OpenAt(st, s);
      assert open'[s := st.open[s]] == st.open;
    } else {
      assert open' - {s} == st.open;
    }
  }

  /** `filesys_open` succeeds if and only if the name is found, its inode is open or there is memory for it,
      and there is memory for the file. Then the caller holds one more reference, to the inode that the name
      is bound to, and nothing else changes; on failure nothing changes. */
  lemma OpenDoes(st: State, name: string, luck: Luck, o: Outcome)
    requires Inv(st) && o == Open(st, name, luck)
    ensures o.Next?
    ensures o.ok <==> luck.fileMemory && exists k: nat {:trigger FoundAt(st.dir, name, luck, k)} ::
      FoundAt(st.dir, name, luck, k) && (st.dir[k].sector in st.open || luck.memory)
    ensures o.ok ==> forall k: nat {:trigger FoundAt(st.dir, name, luck, k)} :: FoundAt(st.dir, name, luck, k) ==>
      var s := st.dir[k].sector;
      && (s in st.open || s in st.headers)
      && o.st == st.(handles := st.handles + multiset{s}, open := st.open[s := OneMore(st, s)])
    ensures !o.ok ==> o.st == st
  {
    hide Inv, InodeClose, InodeOpen, OneMore, FoundAt, Directory.Find;
    var f := Found(st.dir, name, luck);
    forall k: nat ensures FoundAt(st.dir, name, luck, k) <==> f == Some(k) {
      FoundIs(st.dir, name, luck, k);
    }
    if f.Some? {
      var s := st.dir[f.value].sector;
      IsNamedThere(st, name, luck, f.value);
      InodeOpens(st, s, luck.memory);
      CloseUndoes(st, s, false);
    }
  }

  lemma IsNamedThere(st: State, name: string, luck: Luck, k: nat)
    requires Inv(st) && FoundAt(st.dir, name, luck, k)
    ensures 2 <= st.dir[k].sector && Named(st.dir, st.dir[k].sector)
  {
    hide Owned, LiveSet, OpensOk, Named;
    NamedAtLeast(st.dir, k);
  }

  // ---- Closing

  /** Exactly the inode's sector and its data are unmarked. */
  ghost predicate Unmarked(used: seq<bool>, used': seq<bool>, s: nat, h: Header) {
    && |used'| == |used|
    && forall i {:trigger used'[i]} :: 0 <= i < |used| ==> (used'[i] <==> used[i] && i != s && !InExtent(h, i))
  }

  lemma UnmarkedBoth(used: seq<bool>, s: nat, h: Header)
    requires s < |used| && h.start + BytesToSectors(h.length) <= |used|
    ensures Unmarked(used, B.SetRange(B.SetRange(used, s, 1, false), h.start, BytesToSectors(h.length), false), s, h)
  {
    hide BytesToSectors;
  }

  /** `file_close` gives one reference back. The last one takes the inode off the list and, if the file has
      been removed, unmarks its sectors; otherwise the free map does not change. */
  lemma CloseDoes(st: State, s: nat, o: Outcome)
    requires Inv(st) && s in st.handles && o == Step(st, DoClose(s))
    ensures s in st.open && o.Next? && o.ok && o.st.dir == st.dir && o.st.handles == st.handles - multiset{s}
    ensures st.handles[s] > 1 ==> o.st.open == st.open[s := st.open[s].(cnt := st.open[s].cnt - 1)]
    ensures st.handles[s] == 1 ==> o.st.open == st.open - {s}
    ensures if st.handles[s] == 1 && st.open[s].removed then s in st.headers && Unmarked(st.used, o.st.used, s, st.headers[s])
            else o.st.used == st.used
  {
    hide Owned, LiveSet, Named, NamesOk, Release, Unmarked;
    HeldIsOpen(st, s);
    OpenAt(st, s);
    assert 2 <= s by { assert st.handles[s] > 0; }
    CloseRest(st.(handles := st.handles - multiset{s}), s, true, s);
    if st.open[s].cnt == 1 && st.open[s].removed {
      CloseReleases(st, s, true, o);
      UnmarkedBoth(st.used, s, st.headers[s]);
    }
  }

  // ---- Removing

  /** The entry is no longer in use; the others are as they were. */
  ghost predicate ErasedAt(dir: seq<Directory.Entry>, dir': seq<Directory.Entry>, k: nat) {
    && |dir'| == |dir| && k < |dir| && !dir'[k].inUse
    && forall i {:trigger dir'[i]} :: 0 <= i < |dir| && i != k ==> dir'[i] == dir[i]
  }

  /** What is left of inode s once its name is gone: it is open and marked removed, if it was open; otherwise
      its sectors are unmarked. */
  ghost predicate Gone(st: State, st': State, s: nat) {
    if s in st.open then st'.open == st.open[s := st.open[s].(removed := true)] && st'.used == st.used
    else st'.open == st.open && s in st.headers && Unmarked(st.used, st'.used, s, st.headers[s])
  }

  /** `filesys_remove` succeeds if and only if the name is found, its inode is open or there is memory for
      it, and the directory can be written. Then the name is gone, at once, and the sectors are free unless
      the file is open; on failure nothing changes. */
  lemma RemoveDoes(st: State, name: string, luck: Luck, o: Outcome)
    requires Inv(st) && o == Remove(st, name, luck)
    ensures o.Next?
    ensures o.ok <==> luck.dirWritten && exists k: nat {:trigger FoundAt(st.dir, name, luck, k)} ::
      FoundAt(st.dir, name, luck, k) && (st.dir[k].sector in st.open || luck.memory)
    ensures o.ok ==> o.st.handles == st.handles && forall k: nat {:trigger FoundAt(st.dir, name, luck, k)} ::
      FoundAt(st.dir, name, luck, k) ==> ErasedAt(st.dir, o.st.dir, k) && Gone(st, o.st, st.dir[k].sector)
    ensures !o.ok ==> o.st == st
  {
    hide Inv, InodeClose, InodeOpen, OneMore, FoundAt, Directory.Find, Gone, ErasedAt, Overwritten;
    var f := Found(st.dir, name, luck);
    forall k: nat ensures FoundAt(st.dir, name, luck, k) <==> f == Some(k) {
      FoundIs(st.dir, name, luck, k);
    }
    if f.Some? {
      var s := st.dir[f.value].sector;
      IsNamedThere(st, name, luck, f.value);
      InodeOpens(st, s, luck.memory);
      CloseUndoes(st, s, false);
      Reserved(st);
      if (s in st.open || luck.memory) && luck.dirWritten {
        assert st.open[s := OneMore(st, s)][s := OneMore(st, s).(removed := true)] == Struck(st, f.value).open;
        RemovesNow(st, f.value, o);
      }
    }
  }

  /** The state in which `dir_remove` closes the inode again. */
  function Struck(st: State, k: nat): State
    requires k < |st.dir| && ROOT_DIR_SECTOR in st.headers
    requires st.dir[k].sector in st.open || st.dir[k].sector in st.headers
  {
    var s := st.dir[k].sector;
    st.(dir := Directory.Erased(st.dir, k),
        headers := Overwritten(st.headers, st.headers[ROOT_DIR_SECTOR]),
        open := st.open[s := OneMore(st, s).(removed := true)])
  }

  lemma RemovesNow(st: State, k: nat, o: Outcome)
    requires Inv(st) && k < |st.dir| && st.dir[k].inUse && ROOT_DIR_SECTOR in st.headers && st.dir[k].sector in st.headers
    requires Named(st.dir, st.dir[k].sector) && 2 <= st.dir[k].sector && o == InodeClose(Struck(st, k), st.dir[k].sector, true)
    ensures o.Next? && o.ok && o.st.handles == st.handles
    ensures ErasedAt(st.dir, o.st.dir, k) && Gone(st, o.st, st.dir[k].sector)
  {
    hide Inv, Overwritten, Release, Unmarked;
    var s := st.dir[k].sector;
    CloseRest(Struck(st, k), s, true, s);
    if s in st.open {
      assert st.open[s].cnt > 0 by { OpenCounted(st, s); }
      assert st.open[s := OneMore(st, s).(removed := true)][s := st.open[s].(removed := true)]
          == st.open[s := st.open[s].(removed := true)];
    } else {
      ReleasesNow(st, k, o);
    }
  }

  lemma OpenCounted(st: State, s: nat)
    requires Inv(st) && s in st.open
    ensures st.open[s].cnt > 0
  {
    hide Owned, LiveSet, Named, NamesOk;
    OpenAt(st, s);
  }

  lemma ReleasesNow(st: State, k: nat, o: Outcome)
    requires Inv(st) && k < |st.dir| && st.dir[k].inUse && ROOT_DIR_SECTOR in st.headers && st.dir[k].sector in st.headers
    requires Named(st.dir, st.dir[k].sector) && 2 <= st.dir[k].sector && st.dir[k].sector !in st.open
    requires o == InodeClose(Struck(st, k), st.dir[k].sector, true)
    ensures o.Next? && o.ok && o.st.open == st.open && Unmarked(st.used, o.st.used, st.dir[k].sector, st.headers[st.dir[k].sector])
  {
    hide Inv, Overwritten, InodeClose, Unmarked, Agree, LiveSet, B.SetRange, BytesToSectors;
    var s := st.dir[k].sector;
    var held := st.(open := st.open[s := OneMore(st, s)], handles := st.handles + multiset{s});
    InodeOpens(st, s, true);
    InodeOpenStep(st, s, true, InodeOpen(st, s, true), held);
    var gone := Struck(st, k).(handles := held.handles);
    assert held.open[s := held.open[s].(removed := true)] == gone.open;
    UnnameStep(held, k, gone);
    assert gone.(handles := gone.handles - multiset{s}) == Struck(st, k);
    CloseReleases(gone, s, true, o);
    LiveIs(held, s);
    AgreeAt(held.headers, gone.headers, LiveSet(held), s);
    UnmarkedBoth(st.used, s, st.headers[s]);
    assert gone.open - {s} == st.open;
  }

  /** With unique names, removing refines removal from the map of names. */
  lemma RemoveRefinesMap(st: State, name: string, luck: Luck, o: Outcome, m: map<string, nat>)
    requires Inv(st) && o == Remove(st, name, luck) && Directory.Represents(st.dir, m)
    ensures o.Next? && Directory.Represents(o.st.dir, if o.ok then m - {name} else m)
    ensures o.ok ==> name in m && Gone(st, o.st, m[name])
  {
    hide Inv, Remove, Gone, Directory.Represents;
    RemoveDoes(st, name, luck, o);
    if o.ok {
      var k: nat :| FoundAt(st.dir, name, luck, k) && (st.dir[k].sector in st.open || luck.memory);
      EraseIs(st.dir, o.st.dir, k, m);
    }
  }

  lemma EraseIs(dir: seq<Directory.Entry>, dir': seq<Directory.Entry>, k: nat, m: map<string, nat>)
    requires Directory.Represents(dir, m) && ErasedAt(dir, dir', k) && dir[k].inUse
    ensures dir[k].name in m && m[dir[k].name] == dir[k].sector && Directory.Represents(dir', m - {dir[k].name})
  {
    forall n | n in m - {dir[k].name} ensures Directory.Uses(dir', n) {
      assert Directory.Uses(dir, n);
      var i :| 0 <= i < |dir| && Directory.IsNamed(dir[i], n);
      assert dir'[i] == dir[i];
    }
    forall i | 0 <= i < |dir'| && dir'[i].inUse
      ensures dir'[i].name in m - {dir[k].name} && m[dir'[i].name] == dir'[i].sector
    {
      assert dir'[i] == dir[i];
      assert i < k ==> dir[i].name != dir[k].name;
      assert k < i ==> dir[k].name != dir[i].name;
    }
  }

  // ---- Reopening, writing, formatting

  /** `file_reopen` gives one more reference to a file that is held. */
  lemma ReopenDoes(st: State, s: nat, o: Outcome)
    requires Inv(st) && s in st.handles && o == Step(st, DoReopen(s))
    ensures s in st.open && o == Next(st.(handles := st.handles + multiset{s}, open := st.open[s := OneMore(st, s)]), true)
  {
    hide Inv;
    HeldIsOpen(st, s);
  }

  /** Writing the data of a file that is held changes no name, no reference and no mark, and no inode. */
  lemma WriteDoes(st: State, s: nat, o: Outcome)
    requires Inv(st) && s in st.handles && o == Step(st, DoWrite(s))
    ensures o.Next? && o.ok && o.st == st.(headers := o.st.headers) && Agree(st.headers, o.st.headers, LiveSet(st))
  {
    hide Inv, LiveSet, Agree, Overwritten;
    HeldIsOpen(st, s);
    WriteStep(st, s, o.st);
  }

  /** The first free group of a disk on which exactly the sectors below a are marked. */
  lemma FirstIs(used: seq<bool>, a: nat, cnt: nat)
    requires a <= |used| && (forall i {:trigger used[i]} :: 0 <= i < |used| ==> (used[i] <==> i < a)) && 0 < cnt
    ensures B.FirstGroup(used, 0, cnt, false) == if a + cnt <= |used| then Some(a) else None
  {
    var r := B.FirstGroup(used, 0, cnt, false);
    assert a + cnt <= |used| ==> B.AllAre(used, a, cnt, false);
    if r.Some? {
      assert !used[r.value];
    }
  }

  /** The sectors that the free map's own file takes. */
  function MapSectors(n: nat): nat { BytesToSectors(4 * ((n + 31) / 32)) }

  /** A device can be formatted if and only if it has room for two inodes, the free map and one sector of
      directory, and the free map is not too long for a file; these sectors and no others are then marked. */
  lemma FormatsIff(n: nat)
    requires 2 <= n
    ensures Format(n).Some? <==> 3 + MapSectors(n) <= n && 4 * ((n + 31) / 32) < OFF_T_LIMIT
    ensures Format(n).Some? ==>
      var st := Format(n).value;
      |st.used| == n && forall i {:trigger st.used[i]} :: 0 <= i < n ==> (st.used[i] <==> i < 3 + MapSectors(n))
  {
    hide Overwritten, B.FirstGroup;
    var blank, size := Blank(n), 4 * ((n + 31) / 32);
    assert 0 < MapSectors(n) && BytesToSectors(ROOT_ENTRIES * ENTRY_SIZE) == 1;
    hide BytesToSectors;
    FirstIs(blank.used, 2, MapSectors(n));
    var (st1, mapMade) := InodeCreate(blank, FREE_MAP_SECTOR, size, true, true);
    if mapMade {
      assert forall i {:trigger st1.used[i]} :: 0 <= i < n ==> (st1.used[i] <==> i < 2 + MapSectors(n));
      NotItself(blank, size, MapSectors(n), st1);
      var mapOpen := InodeOpen(st1, FREE_MAP_SECTOR, true);
      var flushed := FlushFreeMap(mapOpen.st);
      FirstIs(flushed.used, 2 + MapSectors(n), 1);
    }
  }

  /** The data of the first inode do not overwrite it. */
  lemma NotItself(blank: State, size: nat, k: nat, st1: State)
    requires blank.open == map[] && k == BytesToSectors(size) && B.FirstGroup(blank.used, 0, k, false) == Some(2)
    requires (st1, true) == InodeCreate(blank, FREE_MAP_SECTOR, size, true, true)
    ensures FREE_MAP_SECTOR in st1.headers && FREE_MAP_SECTOR !in st1.open
  {
    hide BytesToSectors, B.FirstGroup;
  }

  // ---- Names as a map

  /** With memory for the whole scan, a name is found if and only if it is bound, and with its binding. */
  lemma FoundInMap(dir: seq<Directory.Entry>, m: map<string, nat>, name: string, luck: Luck)
    requires Directory.Represents(dir, m) && luck.dirOpens && |dir| <= luck.grant1
    ensures name in m <==> exists k: nat {:trigger FoundAt(dir, name, luck, k)} :: FoundAt(dir, name, luck, k)
    ensures forall k: nat {:trigger FoundAt(dir, name, luck, k)} :: FoundAt(dir, name, luck, k) ==> name in m && dir[k].sector == m[name]
  {
    assert name in m ==> Directory.Uses(dir, name);
    var r := Found(dir, name, luck);
    if r.Some? {
      FoundIs(dir, name, luck, r.value);
    }
  }

  /** `filesys_open`, with memory for the scan, gives a reference to what the name is bound to. */
  lemma OpenRefinesMap(st: State, name: string, luck: Luck, o: Outcome, m: map<string, nat>)
    requires Inv(st) && o == Open(st, name, luck) && Directory.Represents(st.dir, m) && luck.dirOpens && |st.dir| <= luck.grant1
    ensures o.Next? && (o.ok <==> name in m && (m[name] in st.open || luck.memory) && luck.fileMemory)
    ensures o.ok ==> o.st.handles == st.handles + multiset{m[name]} && m[name] in o.st.open
    ensures Directory.Represents(o.st.dir, m)
  {
    hide Inv, Open, Directory.Represents, FoundAt, OneMore;
    OpenDoes(st, name, luck, o);
    FoundInMap(st.dir, m, name, luck);
  }

  /** There is room for a file: the first free sector for the inode, and then a group for the data. */
  ghost predicate Room(used: seq<bool>, a: nat, b: nat, n: nat) {
    && FreeGroup(used, a, 1) && (forall c: nat {:trigger FreeGroup(used, c, 1)} :: FreeGroup(used, c, 1) ==> a <= c)
    && FreeGroup(used[a := true], b, n) && (forall c: nat {:trigger FreeGroup(used[a := true], c, n)} :: FreeGroup(used[a := true], c, n) ==> b <= c)
  }

  /** A file can be made if and only if the root opens, there is memory, the free map can be written, the
      size is not negative as an `off_t`, and there is room. */
  lemma MakesIff(st: State, size: nat, luck: Luck)
    requires Inv(st)
    ensures Makes(st, size, luck) <==>
      && luck.dirOpens && luck.memory && luck.sectorWritten && luck.dataWritten && size < OFF_T_LIMIT
      && exists a: nat, b: nat {:trigger Room(st.used, a, b, BytesToSectors(size))} :: Room(st.used, a, b, BytesToSectors(size))
    ensures Makes(st, size, luck) ==> Room(st.used, SectorFor(st, luck).value, DataFor(st, size, luck).value, BytesToSectors(size))
  {
    hide Owned, LiveSet, NamesOk, Allocate, BytesToSectors, FreeGroup;
    var n := BytesToSectors(size);
    var (st1, sector) := Allocate(st, 1, luck.sectorWritten);
    AllocateDoes(st, 1, luck.sectorWritten);
    AllocateDoes(st1, n, luck.dataWritten);
    assert FREE_MAP_SECTOR in st.open;
    if sector.Some? {
      FreeIn(st.used, sector.value);
      assert st1.used == st.used[sector.value := true];
    }
    if Makes(st, size, luck) {
      assert Room(st.used, sector.value, DataFor(st, size, luck).value, n);
    }
    if exists a: nat, b: nat {:trigger Room(st.used, a, b, n)} :: Room(st.used, a, b, n) {
      var a: nat, b: nat :| Room(st.used, a, b, n);
      if sector.Some? {
        assert sector.value == a;
      }
    }
  }

  lemma FreeIn(used: seq<bool>, a: nat)
    requires FreeGroup(used, a, 1)
    ensures a < |used|
  {
  }

  /** `filesys_create`, with memory for its scans, refines insertion into the map of names. */
  lemma CreateRefinesMap(st: State, name: string, size: nat, luck: Luck, o: Outcome, m: map<string, nat>)
    requires Inv(st) && o == Create(st, name, size, luck) && Directory.Represents(st.dir, m)
    requires |st.dir| <= luck.grant1 && |st.dir| <= luck.grant2 && !Overlong(st, size, luck)
    ensures o.Next? && o.st.handles == st.handles && o.st.open == st.open
    ensures o.ok <==>
      && Makes(st, size, luck) && Directory.ValidName(name) && name !in m && Directory.HasFreeSlot(st.dir) && luck.dirWritten
    ensures o.ok ==>
      var s := SectorFor(st, luck).value;
      && Directory.Represents(o.st.dir, m[name := s]) && s !in LiveSet(st)
      && s in o.st.headers && o.st.headers[s] == Header(DataFor(st, size, luck).value, size)
    ensures !o.ok ==> o.st.dir == st.dir
  {
    hide Inv, Create, Makes, Directory.Represents, Directory.HasFreeSlot, Directory.CanAdd, LiveSet, SectorFor, DataFor, Overlong, Agree, B.SetRange, B.AllAre;
    CreateStep(st, name, size, luck, o);
    CreateRest(st, name, size, luck);
    Directory.AddRefinesMap(st.dir, m, name, if SectorFor(st, luck).Some? then SectorFor(st, luck).value else 0, luck.grant1, luck.grant2);
    if o.ok {
      CreateNamed(st, name, size, luck, o);
      MakesSector(st, size, luck);
    }
  }

  lemma MakesSector(st: State, size: nat, luck: Luck)
    requires Makes(st, size, luck)
    ensures SectorFor(st, luck).Some? && DataFor(st, size, luck).Some?
  {
  }

  /** A file that has been created can be opened, and has the size that was asked for. */
  lemma CreateThenOpen(st: State, name: string, size: nat, luck: Luck, luck': Luck, m: map<string, nat>)
    requires Inv(st) && Directory.Represents(st.dir, m) && |st.dir| <= luck.grant1 && |st.dir| <= luck.grant2
    requires Create(st, name, size, luck).Next? && Create(st, name, size, luck).ok
    requires luck'.dirOpens && |st.dir| <= luck'.grant1 && luck'.memory && luck'.fileMemory
    ensures var o := Open(Create(st, name, size, luck).st, name, luck');
      && o.Next? && o.ok && name !in m && Directory.Represents(o.st.dir, m[name := SectorFor(st, luck).value])
      && o.st.handles == st.handles + multiset{SectorFor(st, luck).value}
      && SectorFor(st, luck).value in o.st.open && o.st.open[SectorFor(st, luck).value].data.length == size
  {
    hide Inv, Create, Open, Makes, Directory.Represents, Directory.HasFreeSlot, LiveSet, SectorFor, DataFor, FoundAt, Overlong;
    var o1 := Create(st, name, size, luck);
    CreateStep(st, name, size, luck, o1);
    CreateRefinesMap(st, name, size, luck, o1, m);
    MakesSector(st, size, luck);
    var s := SectorFor(st, luck).value;
    SameEntries(st, name, size, luck);
    OpenRefinesMap(o1.st, name, luck', Open(o1.st, name, luck'), m[name := s]);
    OpenDoes(o1.st, name, luck', Open(o1.st, name, luck'));
    FoundInMap(o1.st.dir, m[name := s], name, luck');
    NotOpen(st, s);
  }

  lemma SameEntries(st: State, name: string, size: nat, luck: Luck)
    requires Inv(st) && Create(st, name, size, luck).Next? && !Overlong(st, size, luck)
    ensures |Create(st, name, size, luck).st.dir| == |st.dir|
  {
    hide Owned, LiveSet, OpensOk, Create, Overlong;
    CreateStep(st, name, size, luck, Create(st, name, size, luck));
  }

  lemma NotOpen(st: State, s: nat)
    requires s !in LiveSet(st)
    ensures s !in st.open
  {
    hide LiveSet, Named;
    LiveIs(st, s);
  }

  /** A name that has been removed is not found any more, and can be created again. */
  lemma RemoveThenOpen(st: State, name: string, luck: Luck, luck': Luck, m: map<string, nat>)
    requires Inv(st) && Directory.Represents(st.dir, m) && Remove(st, name, luck).Next? && Remove(st, name, luck).ok
    ensures Directory.Represents(Remove(st, name, luck).st.dir, m - {name})
    ensures Open(Remove(st, name, luck).st, name, luck') == Next(Remove(st, name, luck).st, false)
  {
    hide Inv, Remove, Open, Directory.Represents, Gone, FoundAt;
    var o := Remove(st, name, luck);
    RemoveStep(st, name, luck, o);
    RemoveRefinesMap(st, name, luck, o, m);
    OpenDoes(o.st, name, luck', Open(o.st, name, luck'));
    Unbound(o.st.dir, m - {name}, name, luck');
  }

  lemma Unbound(dir: seq<Directory.Entry>, m: map<string, nat>, name: string, luck: Luck)
    requires Directory.Represents(dir, m) && name !in m
    ensures forall k: nat {:trigger FoundAt(dir, name, luck, k)} :: !FoundAt(dir, name, luck, k)
  {
  }
}
