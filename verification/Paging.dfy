/** Demand paging (vm/frame.c, vm/page.c, vm/swap.c, userprog/process.c): frames are a cache over
    file contents and swap slots.  The state is a value here; FrameTable.dfy has the same fields
    updated in place by the kernel's own loops. */
module Paging {
  import opened Common

  datatype Kind = Bin | File | Anon

  /** A `struct vm_entry`.  The rest of the page after `readBytes` is zero bytes. */
  datatype Vme = Vme(
    kind: Kind, writable: bool, loaded: bool, pinned: bool,
    file: nat, offset: nat, readBytes: nat, slot: nat)

  /** The page table entry of a virtual page. */
  datatype Pte = Pte(present: bool, dirty: bool, accessed: bool, frame: nat)

  /** Where `lru_clock` points: nowhere, at a list position, or at the list's tail header. */
  datatype Hand = NoHand | On(i: nat) | OnTail

  /** Virtual pages are numbered; `lru` lists those that have a frame. The `kaddr` of a listed page is
      the `frame` of its page table entry. */
  datatype State = State(
    vmes: seq<Vme>, ptes: seq<Pte>,
    lru: seq<nat>, hand: Hand,
    mem: seq<Bytes>, used: seq<bool>,        // user pool: contents and used_map
    slots: seq<Bytes>, swapMap: seq<bool>,   // swap device, by slot
    files: map<nat, Bytes>, denied: set<nat>)  // file contents; files with writes denied

  const BITMAP_ERROR: nat := 0xFFFF_FFFF

  predicate Wf(st: State) {
    && |st.vmes| == |st.ptes| && |st.mem| == |st.used| && |st.slots| == |st.swapMap| <= BITMAP_ERROR
  }

  predicate Backed(st: State, v: nat)
    requires v < |st.vmes|
  {
    var e := st.vmes[v];
    e.readBytes <= PGSIZE && e.file in st.files && e.offset + e.readBytes <= |st.files[e.file]|
  }

  /** What `load_file` puts into a frame: file bytes, then zeros. */
  function FileImage(st: State, v: nat): (r: Bytes)
    requires v < |st.vmes| && Backed(st, v)
    ensures |r| == PGSIZE
  {
    var e := st.vmes[v];
    st.files[e.file][e.offset..e.offset + e.readBytes] + Zeros(PGSIZE - e.readBytes)
  }

  /** The bytes of a virtual page as the process would find them, faulting it in if need be. */
  function Contents(st: State, v: nat): Option<Bytes>
    requires Wf(st) && v < |st.vmes|
  {
    var e := st.vmes[v];
    if e.loaded then
      if st.ptes[v].frame < |st.mem| then Some(st.mem[st.ptes[v].frame]) else None
    else if e.kind.Anon? then
      if e.slot < |st.slots| && st.swapMap[e.slot] then Some(st.slots[e.slot]) else None
    else if Backed(st, v) then Some(FileImage(st, v)) else None
  }

  /** What paging must preserve: the whole page, or for a mapped file the part inside the file. */
  function Visible(st: State, v: nat): Option<Bytes>
    requires Wf(st) && v < |st.vmes|
  {
    match Contents(st, v)
    case None => None
    case Some(b) =>
      if st.vmes[v].kind.File? && st.vmes[v].readBytes <= |b| then Some(b[..st.vmes[v].readBytes]) else Some(b)
  }

  // ----- steps -----

  predicate HasFree(bits: seq<bool>) { exists i :: 0 <= i < |bits| && !bits[i] }

  /** `bitmap_scan_and_flip` for one clear bit from the start: the first clear bit. */
  function FirstFree(bits: seq<bool>): (i: nat)
    ensures i <= |bits| && (forall j :: 0 <= j < i ==> bits[j])
    ensures i < |bits| ==> !bits[i]
    ensures i < |bits| <==> HasFree(bits)
  {
    if bits == [] then 0
    else if !bits[0] then 0
    else
      var k := FirstFree(bits[1..]);
      assert k < |bits[1..]| ==> !bits[k + 1];
      assert forall j :: 0 <= j < k ==> bits[1..][j] == bits[j + 1];
      assert HasFree(bits) ==> HasFree(bits[1..]) by {
        if HasFree(bits) {
          var i :| 0 <= i < |bits| && !bits[i];
          assert !bits[1..][i - 1];
        }
      }
      k + 1
  }

  function WriteFile(st: State, f: nat, ofs: nat, b: Bytes): map<nat, Bytes>
    requires f in st.files && ofs + |b| <= |st.files[f]|
  {
    if f in st.denied then st.files
    else st.files[f := Overwrite(st.files[f], ofs, b)]
  }

  predicate CanEvict(st: State, v: nat) {
    && Wf(st) && v < |st.vmes|
    && st.ptes[v].frame < |st.mem| && |st.mem[st.ptes[v].frame]| == PGSIZE
    && (st.vmes[v].kind.File? ==> Backed(st, v))
  }

  /** The page leaves through the swap device. */
  predicate NeedsSwap(st: State, v: nat)
    requires v < |st.vmes| && v < |st.ptes|
  {
    (st.ptes[v].dirty || st.vmes[v].kind.Anon?) && !st.vmes[v].kind.File?
  }

  /** Saving the contents of a victim: back to its file, to a swap slot, or not at all. */
  function Save(st: State, v: nat): State
    requires CanEvict(st, v)
  {
    var e := st.vmes[v];
    var page := st.mem[st.ptes[v].frame];
    if NeedsSwap(st, v) then
      var s := FirstFree(st.swapMap);
      if s < |st.swapMap| then
        st.(vmes := st.vmes[v := e.(kind := Anon, slot := s)],
            slots := st.slots[s := page], swapMap := st.swapMap[s := true])
      else
        st.(vmes := st.vmes[v := e.(kind := Anon, slot := BITMAP_ERROR)])
    else if st.ptes[v].dirty && e.kind.File? then
      st.(files := WriteFile(st, e.file, e.offset, page[..e.readBytes]))
    else st
  }

  /** Dropping the mapping and freeing the frame: `pagedir_clear_page` keeps the other bits. */
  function Drop(st: State, v: nat): State
    requires Wf(st) && v < |st.vmes| && st.ptes[v].frame < |st.used|
  {
    st.(vmes := st.vmes[v := st.vmes[v].(loaded := false)],
        ptes := st.ptes[v := st.ptes[v].(present := false)],
        used := st.used[st.ptes[v].frame := false])
  }

  /** `del_page_from_lru_list`: a hand on the page moves to the element after it. */
  function Unlist(st: State, i: nat): State
    requires i < |st.lru|
  {
    var lru := st.lru[..i] + st.lru[i + 1..];
    var hand :=
      if st.hand == On(i) then (if i < |lru| then On(i) else OnTail)
      else if st.hand.On? && st.hand.i > i then On(st.hand.i - 1)
      else st.hand;
    st.(lru := lru, hand := hand)
  }

  predicate CanClear(st: State, i: nat) {
    Wf(st) && i < |st.lru| && st.lru[i] < |st.vmes| && st.ptes[st.lru[i]].frame < |st.used|
  }

  /** The second half of an eviction: the page at list position i loses its mapping, frame and place. */
  function Clear(st: State, i: nat): State
    requires CanClear(st, i)
  {
    Unlist(Drop(st, st.lru[i]), i)
  }

  /** Evicting the page at list position i, with nothing in between the two halves. */
  function Evict(st: State, i: nat): State
    requires i < |st.lru| && CanEvict(st, st.lru[i])
  {
    Clear(Save(st, st.lru[i]), i)
  }

  predicate CanTake(st: State, v: nat, f: nat) {
    Wf(st) && v < |st.vmes| && !st.vmes[v].loaded && f < |st.used| && !st.used[f]
  }

  /** `alloc_page` for a fault on page v: a free frame is taken, with whatever it holds, and the page is
      listed. It is neither pinned nor loaded yet. */
  function Taken(st: State, v: nat, f: nat): State
    requires CanTake(st, v, f)
  {
    st.(used := st.used[f := true], ptes := st.ptes[v := st.ptes[v].(frame := f)], lru := st.lru + [v])
  }

  predicate CanFill(st: State, v: nat, kind: Kind) {
    && Wf(st) && v < |st.vmes| && st.ptes[v].frame < |st.mem|
    && if kind.Anon? then st.vmes[v].slot < |st.slots| && st.swapMap[st.vmes[v].slot] else Backed(st, v)
  }

  /** What `swap_in` or `load_file` brings, as the type read from the entry says. */
  function LoadBytes(st: State, v: nat, kind: Kind): Bytes
    requires CanFill(st, v, kind)
  {
    if kind.Anon? then st.slots[st.vmes[v].slot] else FileImage(st, v)
  }

  /** The rest of `handle_mm_fault` and `page_fault`: fill the frame, map it, and unpin the page. */
  function Filled(st: State, v: nat, kind: Kind): State
    requires CanFill(st, v, kind)
  {
    var f, e := st.ptes[v].frame, st.vmes[v];
    st.(mem := st.mem[f := LoadBytes(st, v, kind)],
        swapMap := if kind.Anon? then st.swapMap[e.slot := false] else st.swapMap,
        vmes := st.vmes[v := e.(loaded := true, pinned := false)],
        ptes := st.ptes[v := Pte(true, false, false, f)])
  }

  predicate CanFault(st: State, v: nat) {
    && Wf(st) && v < |st.vmes| && !st.vmes[v].loaded && HasFree(st.used)
    && Contents(st, v).Some?
  }

  /** A whole fault, with nothing in between its steps. */
  function FaultIn(st: State, v: nat): State
    requires CanFault(st, v)
  {
    Filled(Taken(st, v, FirstFree(st.used)), v, st.vmes[v].kind)
  }

  predicate Mapped(st: State, v: nat) {
    Wf(st) && v < |st.vmes| && st.vmes[v].loaded && st.ptes[v].frame < |st.mem|
  }

  /** The processor writes a byte: it sets the dirty and accessed bits. */
  function UserWrite(st: State, v: nat, ofs: nat, b: Byte): State
    requires Mapped(st, v) && ofs < |st.mem[st.ptes[v].frame]|
  {
    var f := st.ptes[v].frame;
    var page: Bytes := st.mem[f][ofs := b];
    st.(mem := st.mem[f := page],
        ptes := st.ptes[v := st.ptes[v].(dirty := true, accessed := true)])
  }

  function UserRead(st: State, v: nat): State
    requires Mapped(st, v)
  {
    st.(ptes := st.ptes[v := st.ptes[v].(accessed := true)])
  }

  function ClearAccessed(st: State, v: nat): State
    requires Wf(st) && v < |st.ptes|
  {
    st.(ptes := st.ptes[v := st.ptes[v].(accessed := false)])
  }

  function Pin(st: State, v: nat, pinned: bool): State
    requires v < |st.vmes|
  {
    st.(vmes := st.vmes[v := st.vmes[v].(pinned := pinned)])
  }
}
