/** The file system's bookkeeping (filesys/filesys.c, inode.c, free-map.c): which sectors are marked
    used, which hold an inode, what the root directory names and which inodes are open. */
module FileSystem {
  import Arithmetic
  import opened Common
  import B = Bitmap
  import Directory

  const FREE_MAP_SECTOR: nat := 0
  const ROOT_DIR_SECTOR: nat := 1
  const ROOT_ENTRIES: nat := 16
  const ENTRY_SIZE: nat := 20

  /** A `struct inode_disk`: where the data are and how long they are. */
  datatype Header = Header(start: nat, length: nat)

  /** A `struct inode` on the list of open inodes. */
  datatype OpenInode = OpenInode(cnt: nat, removed: bool, data: Header)

  /** `used` is the free map; `headers` the sectors last written as an inode; `dir` the root directory;
      `open` the open inodes; `handles` the references that callers hold. */
  datatype State = State(
    used: seq<bool>, headers: map<nat, Header>, dir: seq<Directory.Entry>,
    open: map<nat, OpenInode>, handles: multiset<nat>)

  /** Panic is a failed assertion; Corrupt is opening an inode in a sector that holds none. */
  datatype Outcome = Next(st: State, ok: bool) | Panic | Corrupt

  /** Sector k holds data of the inode. */
  predicate InExtent(h: Header, k: nat) { h.start <= k < h.start + BytesToSectors(h.length) }

  /** Writing data of an inode leaves no inode in the sectors written. */
  function Overwritten(headers: map<nat, Header>, h: Header): (r: map<nat, Header>)
    ensures forall k {:trigger k in r} :: k in r <==> k in headers && !InExtent(h, k)
    ensures forall k {:trigger r[k]} :: k in r ==> r[k] == headers[k]
  {
    map k | k in headers && !InExtent(h, k) :: headers[k]
  }

  // ---- Free map

  /** `bitmap_write` to the free map file, once that file is open. */
  function FlushFreeMap(st: State): State {
    if FREE_MAP_SECTOR in st.open
    then st.(headers := Overwritten(st.headers, st.open[FREE_MAP_SECTOR].data))
    else st
  }

  /** `free_map_allocate`: the first free group, unmarked again if the free map cannot be written. */
  function Allocate(st: State, cnt: nat, written: bool): (State, Option<nat>) {
    var group := B.FirstGroup(st.used, 0, cnt, false);
    if group.None? then (st, None)
    else
      var st1 := FlushFreeMap(st.(used := B.SetRange(st.used, group.value, cnt, true)));
      if written || FREE_MAP_SECTOR !in st.open then (st1, group)
      else (st1.(used := B.SetRange(st1.used, group.value, cnt, false)), None)
  }

  /** `free_map_release`, which asserts that every sector released is marked. */
  function Release(st: State, sector: nat, cnt: nat, ok: bool): Outcome {
    if B.AllAre(st.used, sector, cnt, true)
    then Next(FlushFreeMap(st.(used := B.SetRange(st.used, sector, cnt, false))), ok)
    else Panic
  }

  // ---- Inodes

  /** `inode_create`, past its assertion that the length is not negative: allocate the data, write the
      inode, then zero the data. */
  function InodeCreate(st: State, sector: nat, length: nat, memory: bool, written: bool): (State, bool) {
    if !memory then (st, false)
    else
      var (st1, start) := Allocate(st, BytesToSectors(length), written);
      if start.None? then (st1, false)
      else
        var h := Header(start.value, length);
        (st1.(headers := Overwritten(st1.headers[sector := h], h)), true)
  }

  /** `inode_open`: one in-memory inode per sector. */
  function InodeOpen(st: State, sector: nat, memory: bool): Outcome {
    if sector in st.open then
      var inode := st.open[sector];
      Next(st.(open := st.open[sector := inode.(cnt := inode.cnt + 1)]), true)
    else if !memory then Next(st, false)
    else if sector !in st.headers then Corrupt
    else Next(st.(open := st.open[sector := OpenInode(1, false, st.headers[sector])]), true)
  }

  /** `inode_close`: the last closer of a removed inode releases its sectors. */
  function InodeClose(st: State, sector: nat, ok: bool): Outcome
    requires sector in st.open
  {
    var inode := st.open[sector];
    if inode.cnt > 1 then Next(st.(open := st.open[sector := inode.(cnt := inode.cnt - 1)]), ok)
    else
      var st1 := st.(open := st.open - {sector});
      if !inode.removed then Next(st1, ok)
      else
        var o := Release(st1, sector, 1, ok);
        if o.Next? then Release(o.st, inode.data.start, BytesToSectors(inode.data.length), ok) else o
  }

  // ---- The root directory

  /** What may go wrong: no memory for the directory, the inode or the file; a write that fails; or a
      scan of the directory that is granted only so many reads. */
  datatype Luck = Luck(
    dirOpens: bool, memory: bool, fileMemory: bool, sectorWritten: bool, dataWritten: bool, dirWritten: bool,
    grant1: nat, grant2: nat)

  /** `dir_add` goes as far as writing the entry, and the write works. */
  predicate Accepts(dir: seq<Directory.Entry>, name: string, luck: Luck) {
    Directory.CanAdd(dir, name, luck.grant1, luck.grant2) && luck.dirWritten
  }

  /** `dir_add`: the entry is written into the directory's data. */
  function DirAdd(st: State, name: string, sector: nat, luck: Luck): (State, bool)
    requires ROOT_DIR_SECTOR in st.headers
  {
    if Accepts(st.dir, name, luck) then
      (st.(dir := Directory.Added(st.dir, name, sector, luck.grant2),
           headers := Overwritten(st.headers, st.headers[ROOT_DIR_SECTOR])), true)
    else (st, false)
  }

  /** The entry that `dir_lookup` finds. */
  function Found(dir: seq<Directory.Entry>, name: string, luck: Luck): Option<nat> {
    if luck.dirOpens then Directory.Find(dir, name, luck.grant1) else None
  }

  // ---- Operations

  /** `filesys_create`. A size whose top bit is set fails the assertion that `inode_create` begins with. */
  function Create(st: State, name: string, size: nat, luck: Luck): Outcome {
    if !luck.dirOpens then Next(st, false)
    else if ROOT_DIR_SECTOR !in st.headers then Corrupt
    else
      var (st1, sector) := Allocate(st, 1, luck.sectorWritten);
      if sector.None? then Next(st1, false)
      else if OFF_T_LIMIT <= size then Panic
      else
        var (st2, made) := InodeCreate(st1, sector.value, size, luck.memory, luck.dataWritten);
        if ROOT_DIR_SECTOR !in st2.headers then Corrupt
        else
          var (st3, added) := if made then DirAdd(st2, name, sector.value, luck) else (st2, false);
          if added || sector.value == 0 then Next(st3, added)
          else Release(st3, sector.value, 1, false)
  }

  /** `filesys_open`: on success the caller holds one more reference. */
  function Open(st: State, name: string, luck: Luck): Outcome {
    var k := Found(st.dir, name, luck);
    if k.None? then Next(st, false)
    else
      var sector := st.dir[k.value].sector;
      var o := InodeOpen(st, sector, luck.memory);
      if !o.Next? || !o.ok then o
      else if luck.fileMemory then Next(o.st.(handles := o.st.handles + multiset{sector}), true)
      else if sector in o.st.open then InodeClose(o.st, sector, false)
      else Corrupt
  }

  /** `filesys_remove`: the name goes at once, the sectors when the last reference does. */
  function Remove(st: State, name: string, luck: Luck): Outcome {
    var k := Found(st.dir, name, luck);
    if k.None? then Next(st, false)
    else
      var sector := st.dir[k.value].sector;
      var o := InodeOpen(st, sector, luck.memory);
      if !o.Next? || !o.ok then o
      else if sector !in o.st.open || ROOT_DIR_SECTOR !in o.st.headers then Corrupt
      else if !luck.dirWritten then InodeClose(o.st, sector, false)
      else
        var inode := o.st.open[sector];
        InodeClose(
          o.st.(dir := Directory.Erased(o.st.dir, k.value),
                headers := Overwritten(o.st.headers, o.st.headers[ROOT_DIR_SECTOR]),
                open := o.st.open[sector := inode.(removed := true)]),
          sector, true)
  }

  datatype Action =
    | DoCreate(name: string, size: Arithmetic.U32, luck: Luck)
    | DoOpen(name: string, luck: Luck)
    | DoRemove(name: string, luck: Luck)
    | DoReopen(sector: nat)
    | DoClose(sector: nat)
    | DoWrite(sector: nat)

  /** Callers reopen, close and write only what they hold. */
  predicate Enabled(st: State, a: Action) {
    (a.DoReopen? || a.DoClose? || a.DoWrite?) ==> a.sector in st.handles
  }

  function Step(st: State, a: Action): Outcome {
    match a
    case DoCreate(name, size, luck) => Create(st, name, size, luck)
    case DoOpen(name, luck) => Open(st, name, luck)
    case DoRemove(name, luck) => Remove(st, name, luck)
    case DoReopen(s) =>
      if s !in st.open then Corrupt
      else
        var inode := st.open[s];
        Next(st.(open := st.open[s := inode.(cnt := inode.cnt + 1)], handles := st.handles + multiset{s}), true)
    case DoClose(s) =>
      if s !in st.open then Corrupt
      else InodeClose(st.(handles := st.handles - multiset{s}), s, true)
    case DoWrite(s) =>
      if s !in st.open then Corrupt
      else Next(st.(headers := Overwritten(st.headers, st.open[s].data)), true)
  }

  /** `free_map_init`: only the two reserved sectors are marked. A directory's zeroed data are entries
      not in use. */
  function Blank(n: nat): State {
    State(seq(n, i => i == FREE_MAP_SECTOR || i == ROOT_DIR_SECTOR), map[],
          seq(ROOT_ENTRIES, _ => Directory.Entry(0, "", false)), map[], multiset{})
  }

  /** `do_format` and `free_map_open` on a device of n sectors; None is a panic: the
      free map's own file is too long, or there is no room. */
  function Format(n: nat): Option<State>
    requires 2 <= n
  {
    var (st1, mapMade) := InodeCreate(Blank(n), FREE_MAP_SECTOR, 4 * ((n + 31) / 32), true, true);
    if OFF_T_LIMIT <= 4 * ((n + 31) / 32) || !mapMade then None
    else
      var o := InodeOpen(st1, FREE_MAP_SECTOR, true);
      if !o.Next? then None
      else
        var (st2, rootMade) := InodeCreate(FlushFreeMap(o.st), ROOT_DIR_SECTOR, ROOT_ENTRIES * ENTRY_SIZE, true, true);
        if rootMade then Some(st2) else None
  }
}
