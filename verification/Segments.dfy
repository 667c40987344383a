/** Loading an executable lazily (userprog/process.c, vm/page.c): a PT_LOAD segment becomes page-sized
    entries, and each is read from the file only when it is first touched. */
module Segments {
  import opened Arithmetic
  import opened Common
  import H = HashTable

  /** An Elf32_Phdr of type PT_LOAD; each field is a 32-bit word. */
  datatype Phdr = Phdr(offset: nat, vaddr: nat, filesz: nat, memsz: nat)

  ghost predicate Words(p: Phdr) { p.offset < B32 && p.vaddr < B32 && p.filesz < B32 && p.memsz < B32 }

  /** A `struct vm_entry` of type VM_BIN. */
  datatype Entry = Entry(vaddr: nat, offset: nat, readBytes: nat, zeroBytes: nat)

  function RoundDown(x: nat): nat { x - x % PGSIZE }

  function RoundUp(x: nat): (r: nat)
    ensures r % PGSIZE == 0 && x <= r < x + PGSIZE
  {
    (x + PGSIZE - 1) / PGSIZE * PGSIZE
  }

  /** `validate_segment`; the end address is computed modulo 2^32. */
  predicate Validate(p: Phdr, fileLength: nat) {
    var end := (p.vaddr + p.memsz) % B32;
    && p.offset % PGSIZE == p.vaddr % PGSIZE
    && p.offset <= fileLength
    && p.filesz <= p.memsz
    && p.memsz != 0
    && p.vaddr < PHYS_BASE
    && end < PHYS_BASE
    && end >= p.vaddr
    && p.vaddr >= PGSIZE
  }

  /** Although the sum is cut to 32 bits, exactly the segments are accepted that are not empty, hold what is
      read from the file, start inside the file at the same offset in a page, and lie above page 0 and below
      the end of user memory. */
  lemma ValidateIff(p: Phdr, fileLength: nat)
    requires Words(p)
    ensures Validate(p, fileLength) <==>
      && 0 < p.memsz && p.filesz <= p.memsz && p.offset <= fileLength
      && (exists k: int {:trigger k * PGSIZE} :: p.vaddr == p.offset + k * PGSIZE)
      && PGSIZE <= p.vaddr && p.vaddr + p.memsz < PHYS_BASE
  {
    if p.offset % PGSIZE == p.vaddr % PGSIZE {
      assert p.vaddr == p.offset + (p.vaddr / PGSIZE - p.offset / PGSIZE) * PGSIZE;
    }
  }

  /** What is read from the file and what is zeroed, from the start of the first page. */
  function ReadBytes(p: Phdr): nat { if p.filesz > 0 then p.vaddr % PGSIZE + p.filesz else 0 }

  function Region(p: Phdr): nat { RoundUp(p.vaddr % PGSIZE + p.memsz) }

  /** In a validated header the region is whole user pages above page 0, and no computation wraps. */
  lemma ValidRegion(p: Phdr, fileLength: nat)
    requires Words(p) && Validate(p, fileLength)
    ensures ReadBytes(p) <= Region(p) && Region(p) % PGSIZE == 0 && 0 < Region(p)
    ensures PGSIZE <= RoundDown(p.vaddr) && RoundDown(p.vaddr) + Region(p) <= PHYS_BASE
    ensures p.vaddr + p.memsz < B32
    ensures RoundDown(p.vaddr) <= p.vaddr && p.vaddr + p.memsz <= RoundDown(p.vaddr) + Region(p)
    ensures RoundDown(p.offset) + p.vaddr % PGSIZE == p.offset
  {
    assert PHYS_BASE % PGSIZE == 0;
  }

  // ---- Entries

  /** The entries that `load_segment` makes. */
  function Entries(ofs: nat, upage: nat, read: nat, zero: nat): seq<Entry>
    requires (read + zero) % PGSIZE == 0
    decreases read + zero
  {
    if read == 0 && zero == 0 then []
    else
      var r := if read < PGSIZE then read else PGSIZE;
      [Entry(upage, ofs, r, PGSIZE - r)] + Entries(ofs + r, upage + PGSIZE, read - r, zero - (PGSIZE - r))
  }

  /** They tile the region: one entry per page, in order, each of one page. */
  lemma {:induction false} EntriesTile(ofs: nat, upage: nat, read: nat, zero: nat)
    requires (read + zero) % PGSIZE == 0
    ensures var es := Entries(ofs, upage, read, zero);
      && |es| * PGSIZE == read + zero
      && forall i {:trigger es[i]} :: 0 <= i < |es| ==>
           es[i].vaddr == upage + i * PGSIZE && es[i].readBytes + es[i].zeroBytes == PGSIZE
    decreases read + zero
  {
    if read + zero > 0 {
      var r := if read < PGSIZE then read else PGSIZE;
      EntriesTile(ofs + r, upage + PGSIZE, read - r, zero - (PGSIZE - r));
      var rest := Entries(ofs + r, upage + PGSIZE, read - r, zero - (PGSIZE - r));
      var es := Entries(ofs, upage, read, zero);
      forall i {:trigger es[i]} | 0 <= i < |es|
        ensures es[i].vaddr == upage + i * PGSIZE && es[i].readBytes + es[i].zeroBytes == PGSIZE
      {
        if i > 0 {
          assert es[i] == rest[i - 1];
        }
      }
    }
  }

  /** `load_file` succeeds: the file has all the bytes to be read. */
  predicate Loads(file: Bytes, e: Entry) { e.readBytes == 0 || e.offset + e.readBytes <= |file| }

  /** What it then puts into the frame. */
  function Image(file: Bytes, e: Entry): (r: Bytes)
    requires Loads(file, e)
    ensures |r| == e.readBytes + e.zeroBytes
  {
    (if e.readBytes == 0 then [] else file[e.offset..e.offset + e.readBytes]) + Zeros(e.zeroBytes)
  }

  /** All pages of a segment one after another, if every fault succeeds. */
  function Faulted(file: Bytes, es: seq<Entry>): Option<Bytes> {
    if es == [] then Some([])
    else if !Loads(file, es[0]) then None
    else
      match Faulted(file, es[1..])
      case None => None
      case Some(rest) => Some(Image(file, es[0]) + rest)
  }

  /** What loading the whole segment at once would give: file bytes, then zeros. */
  function Eager(file: Bytes, ofs: nat, read: nat, zero: nat): Option<Bytes> {
    if read == 0 then Some(Zeros(zero))
    else if ofs + read > |file| then None
    else Some(file[ofs..ofs + read] + Zeros(zero))
  }

  lemma ZerosJoin(a: nat, b: nat)
    ensures Zeros(a) + Zeros(b) == Zeros(a + b)
  {
  }

  /** A full page of file bytes, then the rest. */
  lemma EagerFullPage(file: Bytes, ofs: nat, read: nat, zero: nat)
    requires PGSIZE <= read && ofs + read <= |file|
    ensures Loads(file, Entry(0, ofs, PGSIZE, 0))
    ensures Eager(file, ofs + PGSIZE, read - PGSIZE, zero).Some?
    ensures Image(file, Entry(0, ofs, PGSIZE, 0)) + Eager(file, ofs + PGSIZE, read - PGSIZE, zero).value
         == file[ofs..ofs + read] + Zeros(zero)
  {
    hide Zeros;
    var page := file[ofs..ofs + PGSIZE];
    assert Zeros(0) == [];
    assert page + Zeros(0) == page;
    if read > PGSIZE {
      assert file[ofs..ofs + read] == page + file[ofs + PGSIZE..ofs + read];
    }
  }

  /** Faulting in every page gives what loading at once gives, and fails exactly when that would. */
  lemma {:induction false} LazyIsEager(file: Bytes, ofs: nat, upage: nat, read: nat, zero: nat)
    requires (read + zero) % PGSIZE == 0
    ensures Faulted(file, Entries(ofs, upage, read, zero)) == Eager(file, ofs, read, zero)
    decreases read + zero
  {
    hide Zeros, Image;
    if read + zero == 0 {
      assert Zeros(0) == [];
    } else {
      var r := if read < PGSIZE then read else PGSIZE;
      var e := Entry(upage, ofs, r, PGSIZE - r);
      var rest := Entries(ofs + r, upage + PGSIZE, read - r, zero - (PGSIZE - r));
      assert Entries(ofs, upage, read, zero) == [e] + rest;
      assert ([e] + rest)[1..] == rest;
      LazyIsEager(file, ofs + r, upage + PGSIZE, read - r, zero - (PGSIZE - r));
      if read < PGSIZE {
        PartPage(file, ofs, upage, read, zero);
      } else if ofs + read <= |file| {
        EagerFullPage(file, ofs, read, zero);
        ImageOnly(file, e, Entry(0, ofs, PGSIZE, 0));
      }
    }
  }

  lemma ImageOnly(file: Bytes, e: Entry, f: Entry)
    requires Loads(file, e) && f == e.(vaddr := f.vaddr)
    ensures Loads(file, f) && Image(file, e) == Image(file, f)
  {
  }

  lemma PartPage(file: Bytes, ofs: nat, upage: nat, read: nat, zero: nat)
    requires read < PGSIZE <= read + zero
    ensures var e := Entry(upage, ofs, read, PGSIZE - read);
      if Loads(file, e)
      then Eager(file, ofs, read, zero) == Some(Image(file, e) + Zeros(zero - (PGSIZE - read)))
      else Eager(file, ofs, read, zero) == None
  {
    hide Zeros;
    ZerosJoin(PGSIZE - read, zero - (PGSIZE - read));
    if read == 0 {
      assert [] + Zeros(PGSIZE) + Zeros(zero - PGSIZE) == Zeros(zero);
    } else if ofs + read <= |file| {
      var bytes := file[ofs..ofs + read];
      assert bytes + Zeros(PGSIZE - read) + Zeros(zero - (PGSIZE - read)) == bytes + (Zeros(PGSIZE - read) + Zeros(zero - (PGSIZE - read)));
    }
  }

  /** The whole of a PT_LOAD header: the entries tile the page-rounded region, and once every page is
      touched the process finds the file's bytes at p_vaddr and zeros after them; a touch fails
      exactly when the file is too short, which validation does not check. */
  lemma LoadedSegment(p: Phdr, file: Bytes)
    requires Words(p) && Validate(p, |file|)
    ensures var read, region := ReadBytes(p), Region(p);
      && read <= region && region % PGSIZE == 0
      && var es := Entries(RoundDown(p.offset), RoundDown(p.vaddr), read, region - read);
         && |es| * PGSIZE == region
         && (Faulted(file, es).Some? <==> p.filesz == 0 || p.offset + p.filesz <= |file|)
         && (Faulted(file, es).Some? ==> HoldsSegment(Faulted(file, es).value, p, file))
  {
    hide Entries, Faulted, Eager, RoundDown, HoldsSegment, Region, Validate;
    ValidRegion(p, |file|);
    var read, region := ReadBytes(p), Region(p);
    EntriesTile(RoundDown(p.offset), RoundDown(p.vaddr), read, region - read);
    LazyIsEager(file, RoundDown(p.offset), RoundDown(p.vaddr), read, region - read);
    if p.filesz == 0 {
      ZeroHolds(p, file);
    } else if p.offset + p.filesz <= |file| {
      EagerHolds(p, file);
    } else {
      EagerShort(file, RoundDown(p.offset), read, region - read);
    }
  }

  lemma EagerShort(file: Bytes, ofs: nat, read: nat, zero: nat)
    requires 0 < read && |file| < ofs + read
    ensures Eager(file, ofs, read, zero) == None
  {
  }

  lemma ZeroHolds(p: Phdr, file: Bytes)
    requires Words(p) && Validate(p, |file|) && p.filesz == 0
    ensures var e := Eager(file, RoundDown(p.offset), 0, Region(p)); e.Some? && HoldsSegment(e.value, p, file)
  {
    hide Zeros, RoundUp;
    ValidRegion(p, |file|);
    ZerosAt(Region(p));
  }

  /** The region's bytes, seen from p_vaddr on. */
  ghost predicate HoldsSegment(bytes: Bytes, p: Phdr, file: Bytes) {
    var at := p.vaddr % PGSIZE;
    && p.filesz <= p.memsz && at + p.memsz <= |bytes| == Region(p)
    && (p.filesz > 0 ==> p.offset + p.filesz <= |file| && bytes[at..at + p.filesz] == file[p.offset..p.offset + p.filesz])
    && forall k {:trigger bytes[k]} :: at + p.filesz <= k < |bytes| ==> bytes[k] == 0
  }

  lemma ZerosAt(n: nat)
    ensures forall k {:trigger Zeros(n)[k]} :: 0 <= k < n ==> Zeros(n)[k] == 0
  {
  }

  lemma EagerHolds(p: Phdr, file: Bytes)
    requires Words(p) && Validate(p, |file|) && p.filesz > 0 && p.offset + p.filesz <= |file|
    ensures ReadBytes(p) <= Region(p)
    ensures var e := Eager(file, RoundDown(p.offset), ReadBytes(p), Region(p) - ReadBytes(p));
      e.Some? && HoldsSegment(e.value, p, file)
  {
    hide Zeros, RoundUp;
    ValidRegion(p, |file|);
    var at, base := p.vaddr % PGSIZE, RoundDown(p.offset);
    var read := ReadBytes(p);
    var bytes := file[base..base + read] + Zeros(Region(p) - read);
    ZerosAt(Region(p) - read);
    assert bytes[at..at + p.filesz] == file[base + at..base + at + p.filesz];
  }

  // ---- The code

  /** The page table's hash and order look only at the address, as the table requires. */
  lemma VmTableSuitable(hashInt: nat -> nat)
    ensures H.Suitable((e: Entry) => hashInt(e.vaddr), (a: Entry, b: Entry) => a.vaddr < b.vaddr)
  {
    hide H.Same;
    var less := (a: Entry, b: Entry) => a.vaddr < b.vaddr;
    forall x: Entry, y: Entry ensures H.Same(less, x, y) <==> x.vaddr == y.vaddr {
      SameAddress(less, x, y);
    }
  }

  lemma SameAddress(less: (Entry, Entry) -> bool, x: Entry, y: Entry)
    requires less(x, y) == (x.vaddr < y.vaddr) && less(y, x) == (y.vaddr < x.vaddr)
    ensures H.Same(less, x, y) <==> x.vaddr == y.vaddr
  {
  }

  ghost predicate ByAddress(less: (Entry, Entry) -> bool) {
    forall x: Entry, y: Entry {:trigger less(x, y)} :: less(x, y) == (x.vaddr < y.vaddr)
  }

  /** The entries of the table, by address. */
  ghost predicate Maps(members: set<Entry>, vm: map<nat, Entry>) {
    && (forall e {:trigger e in members} :: e in members ==> e.vaddr in vm && vm[e.vaddr] == e)
    && (forall a {:trigger a in vm} :: a in vm ==> vm[a] in members && vm[a].vaddr == a)
  }

  lemma MapsAdd(members: set<Entry>, vm: map<nat, Entry>, e: Entry)
    requires Maps(members, vm) && e.vaddr !in vm
    ensures Maps(members + {e}, vm[e.vaddr := e])
  {
  }

  /** Entries added in order, each unless its page has one already. */
  function Inserted(vm: map<nat, Entry>, es: seq<Entry>): map<nat, Entry>
    decreases |es|
  {
    if es == [] then vm
    else Inserted(if es[0].vaddr in vm then vm else vm[es[0].vaddr := es[0]], es[1..])
  }

  /** The address space of a process: a hash table of its pages' entries. */
  class AddressSpace {
    const table: H.Table<Entry>
    ghost var vm: map<nat, Entry>

    ghost predicate Valid()
      reads this, table
    {
      table.Valid() && ByAddress(table.less) && Maps(table.members, vm)
    }

    /** `vm_init`. */
    constructor (hashInt: nat -> nat)
      ensures Valid() && vm == map[] && fresh(table)
    {
      VmTableSuitable(hashInt);
      table := new H.Table<Entry>((e: Entry) => hashInt(e.vaddr), (a: Entry, b: Entry) => a.vaddr < b.vaddr);
      vm := map[];
    }

    /** `insert_vme`: the table turns away an entry for a page that has one. */
    method InsertVme(e: Entry, memory: bool) returns (inserted: bool)
      requires Valid()
      modifies this, table
      ensures Valid() && (inserted <==> e.vaddr !in old(vm))
      ensures vm == if inserted then old(vm)[e.vaddr := e] else old(vm)
    {
      hide H.Same, H.Suitable, H.Holds, Maps;
      ghost var before := table.members;
      SameIffAddress(table.less, before, vm, e);
      var prior := table.Insert(e, memory);
      inserted := prior.None?;
      if inserted {
        MapsAdd(before, vm, e);
        vm := vm[e.vaddr := e];
      }
    }

    /** `find_vme`: the entry of the page that holds the address. */
    method FindVme(vaddr: nat) returns (found: Option<Entry>)
      requires Valid()
      ensures found.Some? <==> RoundDown(vaddr) in vm
      ensures found.Some? ==> found.value == vm[RoundDown(vaddr)]
    {
      hide H.Same, H.Suitable, H.Holds, Maps;
      var key := Entry(RoundDown(vaddr), 0, 0, 0);
      SameIffAddress(table.less, table.members, vm, key);
      found := table.Find(key);
    }

    /** `load_segment`, when memory allows for `mallocs` more entries. The next one fails the assertion of
        `memset` that there is something to set. */
    method LoadSegment(ofs0: nat, upage0: nat, read0: nat, zero0: nat, mallocs: nat, memory: bool) returns (panics: bool)
      requires Valid() && (read0 + zero0) % PGSIZE == 0
      modifies this, table
      ensures Valid() && (panics <==> mallocs < |Entries(ofs0, upage0, read0, zero0)|)
      ensures !panics ==> vm == Inserted(old(vm), Entries(ofs0, upage0, read0, zero0))
    {
      hide AddressSpace.Valid;
      var ofs: nat, upage: nat, read: nat, zero: nat := ofs0, upage0, read0, zero0;
      var left := mallocs;
      while read > 0 || zero > 0
        invariant Valid() && (read + zero) % PGSIZE == 0
        invariant Inserted(vm, Entries(ofs, upage, read, zero)) == Inserted(old(vm), Entries(ofs0, upage0, read0, zero0))
        invariant mallocs - left == |Entries(ofs0, upage0, read0, zero0)| - |Entries(ofs, upage, read, zero)|
        decreases read + zero
      {
        var pageRead := if read < PGSIZE then read else PGSIZE;
        var pageZero := PGSIZE - pageRead;
        var e := Entry(upage, ofs, pageRead, pageZero);
        ghost var rest := Entries(ofs + pageRead, upage + PGSIZE, read - pageRead, zero - pageZero);
        assert ([e] + rest)[1..] == rest;
        if left == 0 {
          return true;
        }
        left := left - 1;
        var _ := InsertVme(e, memory);
        read, zero := read - pageRead, zero - pageZero;
        ofs, upage := ofs + pageRead, upage + PGSIZE;
      }
      return false;
    }
  }

  /** To the table an entry is the same as a member exactly if the page has that member as its entry. */
  lemma SameIffAddress(less: (Entry, Entry) -> bool, members: set<Entry>, vm: map<nat, Entry>, e: Entry)
    requires ByAddress(less) && Maps(members, vm)
    ensures forall m {:trigger m in members} :: m in members && H.Same(less, m, e) ==> e.vaddr in vm && m == vm[e.vaddr]
    ensures e.vaddr in vm ==> vm[e.vaddr] in members && H.Same(less, vm[e.vaddr], e)
  {
    forall m | m in members && H.Same(less, m, e) ensures e.vaddr in vm && m == vm[e.vaddr] {
      SameAddress(less, m, e);
    }
    if e.vaddr in vm {
      SameAddress(less, vm[e.vaddr], e);
    }
  }

  /** `load_file`: reads into the frame, and zeroes the rest if the read was complete. */
  method LoadFile(file: Bytes, e: Entry, kaddr: array<Byte>) returns (success: bool)
    requires e.readBytes + e.zeroBytes == kaddr.Length
    modifies kaddr
    ensures success <==> Loads(file, e)
    ensures success ==> kaddr[..] == Image(file, e)
  {
    hide Zeros;
    ZerosAt(e.zeroBytes);
    var fRead := 0;
    while fRead < e.readBytes && e.offset + fRead < |file|
      invariant 0 <= fRead <= e.readBytes && (fRead == 0 || e.offset + fRead <= |file|)
      invariant forall k {:trigger kaddr[k]} :: 0 <= k < fRead ==> kaddr[k] == file[e.offset + k]
    {
      kaddr[fRead] := file[e.offset + fRead];
      fRead := fRead + 1;
    }
    if fRead != e.readBytes {
      return false;
    }
    for i := e.readBytes to kaddr.Length
      invariant forall k {:trigger kaddr[k]} :: 0 <= k < e.readBytes ==> e.offset + k < |file| && kaddr[k] == file[e.offset + k]
      invariant forall k {:trigger kaddr[k]} :: e.readBytes <= k < i ==> kaddr[k] == 0
    {
      kaddr[i] := 0;
    }
    assert kaddr[..] == Image(file, e);
    return true;
  }

  /** On pages that have no entry yet, every entry goes in. */
  lemma {:induction false} AllInserted(vm: map<nat, Entry>, es: seq<Entry>, upage: nat)
    requires forall i {:trigger es[i]} :: 0 <= i < |es| ==> es[i].vaddr == upage + i * PGSIZE && es[i].vaddr !in vm
    ensures forall i {:trigger es[i]} :: 0 <= i < |es| ==> es[i].vaddr in Inserted(vm, es) && Inserted(vm, es)[es[i].vaddr] == es[i]
    ensures forall a {:trigger a in vm} :: a in vm ==> a in Inserted(vm, es) && Inserted(vm, es)[a] == vm[a]
    decreases |es|
  {
    if es != [] {
      var vm1, rest := vm[es[0].vaddr := es[0]], es[1..];
      forall i {:trigger rest[i]} | 0 <= i < |rest|
        ensures rest[i].vaddr == upage + PGSIZE + i * PGSIZE && rest[i].vaddr !in vm1
      {
        assert rest[i] == es[i + 1];
        assert es[0].vaddr == upage;
      }
      AllInserted(vm1, rest, upage + PGSIZE);
      assert es[0].vaddr in vm1;
      assert Inserted(vm, es) == Inserted(vm1, rest);
      assert forall a {:trigger a in vm} :: a in vm ==> a in vm1 && vm1[a] == vm[a];
      forall i {:trigger es[i]} | 0 < i < |es|
        ensures es[i].vaddr in Inserted(vm, es) && Inserted(vm, es)[es[i].vaddr] == es[i]
      {
        assert es[i] == rest[i - 1];
      }
    }
  }
}
