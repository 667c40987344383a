/** The file system operations as code over a packed free map, the root directory's entries and the list
    of open inodes, proved to take exactly the model's steps. */
module Volume {
  import Arithmetic
  import opened Common
  import B = Bitmap
  import Directory
  import opened FileSystem
  import opened OwnershipProof
  import opened OwnershipCreate
  import opened OwnershipRuns
  import opened OwnershipTheorems

  /** The list of open inodes holds exactly the open inodes, each once. */
  ghost predicate Lists(list: seq<(nat, OpenInode)>, open: map<nat, OpenInode>) {
    && (forall i {:trigger list[i]} :: 0 <= i < |list| ==> list[i].0 in open && open[list[i].0] == list[i].1)
    && (forall s {:trigger s in open} :: s in open ==> Listed(list, s))
    && (forall i, j {:trigger list[i], list[j]} :: 0 <= i < j < |list| ==> list[i].0 != list[j].0)
  }

  ghost predicate Listed(list: seq<(nat, OpenInode)>, s: nat) {
    exists i :: 0 <= i < |list| && list[i].0 == s
  }

  lemma ListsPush(list: seq<(nat, OpenInode)>, open: map<nat, OpenInode>, s: nat, inode: OpenInode)
    requires Lists(list, open) && s !in open
    ensures Lists([(s, inode)] + list, open[s := inode])
  {
    var list' := [(s, inode)] + list;
    forall t | t in open[s := inode] ensures Listed(list', t) {
      if t == s {
        assert list'[0].0 == s;
      } else {
        assert Listed(list, t);
        var i :| 0 <= i < |list| && list[i].0 == t;
        assert list'[i + 1].0 == t;
      }
    }
  }

  lemma ListsSet(list: seq<(nat, OpenInode)>, open: map<nat, OpenInode>, k: nat, inode: OpenInode)
    requires Lists(list, open) && k < |list|
    ensures Lists(list[k := (list[k].0, inode)], open[list[k].0 := inode])
  {
    var list' := list[k := (list[k].0, inode)];
    forall t | t in open[list[k].0 := inode] ensures Listed(list', t) {
      assert t in open && Listed(list, t);
      var i :| 0 <= i < |list| && list[i].0 == t;
      assert list'[i].0 == t;
    }
  }

  lemma ListsDrop(list: seq<(nat, OpenInode)>, open: map<nat, OpenInode>, k: nat)
    requires Lists(list, open) && k < |list|
    ensures Lists(list[..k] + list[k + 1..], open - {list[k].0})
  {
    var list' := list[..k] + list[k + 1..];
    assert forall i {:trigger list'[i]} :: 0 <= i < |list'| ==> list'[i] == list[if i < k then i else i + 1];
    forall t | t in open && t != list[k].0 ensures Listed(list', t) {
      assert Listed(list, t);
      var i :| 0 <= i < |list| && list[i].0 == t;
      assert list'[if i < k then i else i - 1].0 == t;
    }
  }

  class Disk {
    const freeMap: B.Packed
    var headers: map<nat, Header>
    const root: Directory.Dir
    var openInodes: seq<(nat, OpenInode)>
    ghost var open: map<nat, OpenInode>
    ghost var handles: multiset<nat>

    ghost function Model(): State
      reads this, freeMap, root.file
    {
      State(freeMap.bits, headers, root.file[..], open, handles)
    }

    ghost predicate Valid()
      reads this, freeMap, freeMap.words
    {
      freeMap.Valid() && Lists(openInodes, open) && (root.file as object) != freeMap.words
    }

    /** `free_map_init`. */
    constructor (n: nat)
      requires 2 <= n
      ensures Valid() && Model() == Blank(n) && fresh(freeMap) && fresh(freeMap.words) && fresh(root.file)
    {
      freeMap := new B.Packed(n);
      root := new Directory.Dir(ROOT_ENTRIES);
      headers, openInodes, open, handles := map[], [], map[], multiset{};
      new;
      freeMap.Mark(FREE_MAP_SECTOR);
      freeMap.Mark(ROOT_DIR_SECTOR);
      assert freeMap.bits == Blank(n).used;
    }

    /** `do_format` and `free_map_open`; failure is a panic. */
    method DoFormat(n: nat) returns (success: bool)
      requires Valid() && 2 <= n && Model() == Blank(n) && freeMap.bitCnt == n
      modifies this`headers, this`openInodes, this`open, freeMap`bits, freeMap.words
      ensures Valid() && Format(n) == if success then Some(Model()) else None
      ensures success ==> Inv(Model())
    {
      hide InodeCreate, Overwritten, Inv;
      var made := CreateInode(FREE_MAP_SECTOR, 4 * ((n + 31) / 32), true, true);
      if made != Some(true) || FREE_MAP_SECTOR !in headers {
        return false;
      }
      success := OpenInodeAt(FREE_MAP_SECTOR, true);
      var _ := WriteFreeMap();
      made := CreateInode(ROOT_DIR_SECTOR, ROOT_ENTRIES * ENTRY_SIZE, true, true);
      success := made.value;
      if success {
        FormatInv(n);
      }
    }

    /** Writes the data of an inode, one sector after another. */
    method WriteData(h: Header)
      modifies this`headers
      ensures headers == Overwritten(old(headers), h)
    {
      hide BytesToSectors;
      for i := 0 to BytesToSectors(h.length)
        invariant headers == map k | k in old(headers) && !(h.start <= k < h.start + i) :: old(headers)[k]
      {
        headers := headers - {h.start + i};
      }
    }

    /** Writes the free map file, if it is open. */
    method WriteFreeMap() returns (isOpen: bool)
      requires Valid()
      modifies this`headers
      ensures Model() == FlushFreeMap(old(Model())) && isOpen == (FREE_MAP_SECTOR in open)
    {
      var k := FindOpen(FREE_MAP_SECTOR);
      if k.Some? {
        WriteData(openInodes[k.value].1.data);
      }
      return k.Some?;
    }

    /** `free_map_allocate`. */
    method FreeMapAllocate(cnt: nat, written: bool) returns (sector: Option<nat>)
      requires Valid()
      modifies this`headers, freeMap`bits, freeMap.words
      ensures Valid() && (Model(), sector) == Allocate(old(Model()), cnt, written)
    {
      hide B.FirstGroup, B.AllAre, B.SetRange, Overwritten;
      sector := freeMap.ScanAndFlip(0, cnt, false);
      if sector.Some? {
        var isOpen := WriteFreeMap();
        if !written && isOpen {
          freeMap.SetMultiple(sector.value, cnt, false);
          sector := None;
        }
      }
    }

    /** `free_map_release`. */
    method FreeMapRelease(sector: nat, cnt: nat)
      requires Valid() && B.AllAre(freeMap.bits, sector, cnt, true)
      modifies this`headers, freeMap`bits, freeMap.words
      ensures Valid() && Release(old(Model()), sector, cnt, true) == Next(Model(), true)
    {
      hide B.SetRange, Overwritten;
      freeMap.SetMultiple(sector, cnt, false);
      var _ := WriteFreeMap();
    }

    /** `inode_create`; None is its assertion that the length is not negative as an `off_t`, failed. */
    method CreateInode(sector: nat, length: nat, memory: bool, written: bool) returns (success: Option<bool>)
      requires Valid()
      modifies this`headers, freeMap`bits, freeMap.words
      ensures Valid() && (success.None? <==> OFF_T_LIMIT <= length)
      ensures success.None? ==> Model() == old(Model())
      ensures success.Some? ==> (Model(), success.value) == InodeCreate(old(Model()), sector, length, memory, written)
    {
      hide Allocate, Overwritten;
      if OFF_T_LIMIT <= length {
        return None;
      }
      if !memory {
        return Some(false);
      }
      var start := FreeMapAllocate(BytesToSectors(length), written);
      if start.None? {
        return Some(false);
      }
      var h := Header(start.value, length);
      headers := headers[sector := h];
      WriteData(h);
      return Some(true);
    }

    /** The scan of the open inodes. */
    method FindOpen(sector: nat) returns (k: Option<nat>)
      requires Valid()
      ensures k.Some? <==> sector in open
      ensures k.Some? ==> k.value < |openInodes| && openInodes[k.value] == (sector, open[sector])
    {
      for i := 0 to |openInodes|
        invariant forall j {:trigger openInodes[j]} :: 0 <= j < i ==> openInodes[j].0 != sector
      {
        if openInodes[i].0 == sector {
          return Some(i);
        }
      }
      assert sector in open ==> Listed(openInodes, sector);
      return None;
    }

    /** `inode_open`, for a sector that holds an inode. */
    method OpenInodeAt(sector: nat, memory: bool) returns (success: bool)
      requires Valid() && (sector in open || sector in headers)
      modifies this`openInodes, this`open
      ensures Valid() && InodeOpen(old(Model()), sector, memory) == Next(Model(), success)
    {
      hide Lists;
      var k := FindOpen(sector);
      if k.Some? {
        var inode := openInodes[k.value].1;
        SetOpen(k.value, inode.(cnt := inode.cnt + 1));
        return true;
      }
      if !memory {
        return false;
      }
      ListsPush(openInodes, open, sector, OpenInode(1, false, headers[sector]));
      openInodes := [(sector, OpenInode(1, false, headers[sector]))] + openInodes;
      open := open[sector := OpenInode(1, false, headers[sector])];
      return true;
    }

    /** Updates an open inode. */
    method SetOpen(k: nat, inode: OpenInode)
      requires Valid() && k < |openInodes|
      modifies this`openInodes, this`open
      ensures Valid() && open == old(open)[old(openInodes)[k].0 := inode]
    {
      hide Lists;
      ListsSet(openInodes, open, k, inode);
      open := open[openInodes[k].0 := inode];
      openInodes := openInodes[k := (openInodes[k].0, inode)];
    }

    /** `inode_close`. */
    method CloseInode(sector: nat)
      requires Valid() && sector in open && InodeClose(Model(), sector, true).Next?
      modifies this`headers, this`openInodes, this`open, freeMap`bits, freeMap.words
      ensures Valid() && InodeClose(old(Model()), sector, true) == Next(Model(), true)
    {
      hide FlushFreeMap, BytesToSectors, B.SetRange, B.AllAre, Lists;
      var k := FindOpen(sector);
      var inode := openInodes[k.value].1;
      if inode.cnt > 1 {
        SetOpen(k.value, inode.(cnt := inode.cnt - 1));
      } else {
        ListsDrop(openInodes, open, k.value);
        openInodes := openInodes[..k.value] + openInodes[k.value + 1..];
        open := open - {sector};
        if inode.removed {
          FreeMapRelease(sector, 1);
          FreeMapRelease(inode.data.start, BytesToSectors(inode.data.length));
        }
      }
    }

    /** `filesys_create`: takes the model's step. None is a failed assertion, on the size of the file and
        no other. */
    method CreateFile(name: string, size: Arithmetic.U32, luck: Luck) returns (success: Option<bool>)
      requires Valid() && Inv(Model())
      modifies this`headers, root.file, freeMap`bits, freeMap.words
      ensures Valid() && (success.None? <==> Overlong(old(Model()), size, luck))
      ensures Create(old(Model()), name, size, luck) == if success.Some? then Next(Model(), success.value) else Panic
      ensures success.Some? ==>
        Inv(Model()) && success.value == (Makes(old(Model()), size, luck) && Names(old(Model()), name, luck))
    {
      hide Inv, Allocate, InodeCreate, Overwritten, FlushFreeMap, B.SetRange, B.AllAre, Makes, Names, Accepts, Lists, Directory.Added, Directory.Slot;
      ghost var st := Model();
      CreateStep(st, name, size, luck, Create(st, name, size, luck));
      if !luck.dirOpens {
        return Some(false);
      }
      var sector := FreeMapAllocate(1, luck.sectorWritten);
      if sector.None? {
        return Some(false);
      }
      success := CreateInode(sector.value, size, luck.memory, luck.dataWritten);
      if success.None? {
        return;
      }
      var added := false;
      if success.value {
        added := AddName(name, sector.value, luck);
      }
      if !added && sector.value != 0 {
        FreeMapRelease(sector.value, 1);
      }
      return Some(added);
    }

    /** `dir_add` on the root directory. */
    method AddName(name: string, sector: nat, luck: Luck) returns (success: bool)
      requires Valid() && ROOT_DIR_SECTOR in headers
      modifies this`headers, root.file
      ensures Valid() && (Model(), success) == DirAdd(old(Model()), name, sector, luck)
    {
      hide Directory.Added, Directory.CanAdd;
      success := root.Add(name, sector, luck.grant1, luck.grant2, luck.dirWritten);
      if success {
        WriteData(headers[ROOT_DIR_SECTOR]);
      }
    }

    /** `filesys_open`. */
    method OpenFile(name: string, luck: Luck) returns (success: bool)
      requires Valid() && Inv(Model())
      modifies this`headers, this`openInodes, this`open, this`handles, freeMap`bits, freeMap.words
      ensures Valid() && Open(old(Model()), name, luck) == Next(Model(), success) && Inv(Model())
    {
      hide Inv, InodeClose, Lists, Directory.Find;
      ghost var st := Model();
      OpenStep(st, name, luck, Open(st, name, luck));
      if !luck.dirOpens {
        return false;
      }
      var k := root.Lookup(name, luck.grant1);
      if k.None? {
        return false;
      }
      NamedHasInode(st, k.value);
      var sector := root.file[k.value].sector;
      success := OpenInodeAt(sector, luck.memory);
      if success {
        if luck.fileMemory {
          handles := handles + multiset{sector};
        } else {
          CloseAny(Model(), sector);
          CloseInode(sector);
          success := false;
        }
      }
    }

    /** `filesys_remove`. */
    method RemoveFile(name: string, luck: Luck) returns (success: bool)
      requires Valid() && Inv(Model())
      modifies this`headers, root.file, this`openInodes, this`open, freeMap`bits, freeMap.words
      ensures Valid() && Remove(old(Model()), name, luck) == Next(Model(), success) && Inv(Model())
    {
      hide Inv, InodeClose, Overwritten, Lists, Directory.Find;
      ghost var st := Model();
      RemoveStep(st, name, luck, Remove(st, name, luck));
      if !luck.dirOpens {
        return false;
      }
      var k := root.Lookup(name, luck.grant1);
      if k.None? {
        return false;
      }
      NamedHasInode(st, k.value);
      var sector := root.file[k.value].sector;
      success := OpenInodeAt(sector, luck.memory);
      if success {
        if luck.dirWritten {
          root.EraseAt(k.value);
          WriteData(headers[ROOT_DIR_SECTOR]);
          MarkRemoved(sector);
        } else {
          success := false;
        }
        CloseAny(Model(), sector);
        CloseInode(sector);
      }
    }

    /** `inode_remove`. */
    method MarkRemoved(sector: nat)
      requires Valid() && sector in open
      modifies this`openInodes, this`open
      ensures Valid() && open == old(open)[sector := old(open)[sector].(removed := true)]
    {
      hide Lists;
      var k := FindOpen(sector);
      SetOpen(k.value, openInodes[k.value].1.(removed := true));
    }

    /** `file_close`, by a caller that holds the file. */
    method CloseFile(sector: nat)
      requires Valid() && Inv(Model()) && sector in handles
      modifies this`headers, this`openInodes, this`open, this`handles, freeMap`bits, freeMap.words
      ensures Valid() && Step(old(Model()), DoClose(sector)) == Next(Model(), true) && Inv(Model())
    {
      hide Inv, InodeClose;
      ghost var st := Model();
      HeldIsOpen(st, sector);
      CloseStep(st, sector, true, Step(st, DoClose(sector)));
      handles := handles - multiset{sector};
      CloseInode(sector);
    }
  }

  lemma NamedHasInode(st: State, k: nat)
    requires Inv(st) && k < |st.dir| && st.dir[k].inUse
    ensures st.dir[k].sector in st.headers && ROOT_DIR_SECTOR in st.headers
  {
    hide LiveSet, OpensOk, NamesOk, DataKept, DataApart;
    NameLive(st, k);
    assert Live(st, ROOT_DIR_SECTOR);
    assert ROOT_DIR_SECTOR in LiveSet(st);
  }

  /** The outcome of a close is the same but for the success it reports. */
  lemma CloseAny(st: State, sector: nat)
    requires sector in st.open
    ensures InodeClose(st, sector, false).Next? <==> InodeClose(st, sector, true).Next?
    ensures InodeClose(st, sector, true).Next? ==>
      InodeClose(st, sector, false) == InodeClose(st, sector, true).(ok := false) && InodeClose(st, sector, true).ok
  {
  }
}
