/** `malloc` and `free` as steps, and what holds over every run of them. */
module HeapRuns {
  import opened Common
  import opened Arithmetic
  import B = Bitmap
  import opened HeapModel
  import opened HeapProof

  /** The smallest descriptor whose blocks hold size bytes, or DESC_CNT. */
  function DescFor(size: nat): (d: nat)
    ensures d <= DESC_CNT && (d < DESC_CNT ==> size <= BlockSize(d))
    ensures forall e {:trigger BlockSize(e)} :: 0 <= e < d ==> BlockSize(e) < size
  {
    DescFrom(size, 0)
  }

  function DescFrom(size: nat, e: nat): (d: nat)
    requires e <= DESC_CNT
    ensures e <= d <= DESC_CNT && (d < DESC_CNT ==> size <= BlockSize(d))
    ensures forall f {:trigger BlockSize(f)} :: e <= f < d ==> BlockSize(f) < size
    decreases DESC_CNT - e
  {
    if e == DESC_CNT || size <= BlockSize(e) then e else DescFrom(size, e + 1)
  }

  /** Pages for a big block and its header, in 32-bit arithmetic. */
  function BigPages(size: U32): nat { ((size + HEADER) % B32 + PGSIZE - 1) % B32 / PGSIZE }

  /** The pages asked for are none, or enough exactly if size and header together did not wrap. */
  lemma BigPagesFit(size: U32)
    requires 0 < BigPages(size)
    ensures size <= BigPages(size) * PGSIZE - HEADER <==> size < WRAPPED
    ensures size < WRAPPED ==> (BigPages(size) - 1) * PGSIZE < size + HEADER
  {
  }

  lemma FreeGroup(h: Heap, k: nat, n: nat)
    requires B.AllAre(h.used, k, n, false) && 0 < n
    ensures k + n <= |h.used| && !PageUsed(h, h.base + k)
  {
    assert !h.used[k];
  }

  lemma Tighten(h: Heap, page: nat)
    requires InvBut(h, {page}) && page in h.arenas && h.arenas[page].Small? && h.arenas[page].desc < DESC_CNT
    requires h.arenas[page].freeCnt < PerArena(h.arenas[page].desc)
    ensures Inv(h)
  {
    hide BlockAt, PerArena, ListsOk, PagesOk, LiveOk, FreeIdx;
    ListsLen(h);
    forall p | p in h.arenas && h.arenas[p].Small? ensures SmallOk(h, p, {}) {
      SmallAt(h, {page}, p);
    }
  }

  /** A request that the heap cannot meet. */
  ghost predicate Fails(h: Heap, size: U32)
    requires |h.free| == DESC_CNT
  {
    var d := DescFor(size);
    || size == 0
    || (d == DESC_CNT && (BigPages(size) == 0 || B.FirstGroup(h.used, 0, BigPages(size), false).None?))
    || (d < DESC_CNT && h.free[d] == [] && B.FirstGroup(h.used, 0, 1, false).None?)
  }

  /** `malloc`: the heap afterwards and the block, or 0. */
  ghost function AfterMalloc(h: Heap, size: U32): (r: (Heap, nat))
    requires Inv(h) && 0 < h.base
    ensures Inv(r.0) && r.0.base == h.base && |h.free| == DESC_CNT
    ensures r.1 == 0 <==> Fails(h, size)
    ensures r.1 == 0 ==> r.0 == h
    ensures r.1 != 0 ==> r.1 !in h.live && r.0.live == h.live[r.1 := size]
  {
    hide Inv, InvBut, Pop, AddArena, AddBig, B.FirstGroup, B.SetRange, PageUsed, IsBlock, BlockSize, DescFor, PerArena, Span;
    InvLen(h);
    var d := DescFor(size);
    if size == 0 then (h, 0)
    else if d == DESC_CNT then
      if BigPages(size) == 0 then (h, 0) else
      var k := B.FirstGroup(h.used, 0, BigPages(size), false);
      if k.None? then (h, 0)
      else
        FreeGroup(h, k.value, BigPages(size));
        BigPagesFit(size);
        AddBigStep(h, h.base + k.value, BigPages(size), size);
        AddBigLive2(h, h.base + k.value, BigPages(size), size);
        (AddBig(h, h.base + k.value, BigPages(size), size), BigBlock(h.base + k.value))
    else if h.free[d] != [] then
      TakeFront(h, {}, d, size);
      (Pop(h, d, size), h.free[d][0])
    else
      var k := B.FirstGroup(h.used, 0, 1, false);
      if k.None? then (h, 0)
      else
        FreeGroup(h, k.value, 1);
        var page := h.base + k.value;
        AddArenaStep(h, d, page);
        AddArenaRest(h, d, page);
        var h1 := AddArena(h, d, page);
        TakeFront(h1, {page}, d, size);
        (Pop(h1, d, size), h1.free[d][0])
  }

  lemma InvLen(h: Heap)
    requires Inv(h)
    ensures |h.free| == DESC_CNT
  {
    ListsLen(h);
  }

  lemma AddBigLive2(h: Heap, page: nat, n: nat, size: nat)
    requires h.base <= page && page - h.base + n <= |h.used|
    ensures AddBig(h, page, n, size).live == h.live[BigBlock(page) := size]
    ensures AddBig(h, page, n, size).base == h.base && BigBlock(page) != 0
  {
  }

  lemma AddArenaRest(h: Heap, d: nat, page: nat)
    requires d < DESC_CNT && |h.free| == DESC_CNT && h.base <= page < h.base + |h.used| && h.free[d] == []
    ensures var h' := AddArena(h, d, page);
      && h'.live == h.live && h'.base == h.base && |h'.free| == DESC_CNT
      && h'.free[d] != [] && PageOf(h'.free[d][0]) == page
  {
    hide BlockAt, PerArena, B.SetRange;
    SizesOk(d);
    var blocks := Blocks(page, d, PerArena(d));
    assert ([] + blocks)[0] == blocks[0];
    BlockInPage(page, d, 0);
  }

  /** Handing out the front block, as `malloc` does when the list has one. */
  lemma TakeFront(h: Heap, loose: set<nat>, d: nat, size: nat)
    requires InvBut(h, loose) && d < DESC_CNT && |h.free| == DESC_CNT && h.free[d] != [] && 0 < size <= BlockSize(d)
    requires loose <= {PageOf(h.free[d][0])}
    ensures var b := h.free[d][0];
      && PageOf(b) in h.arenas && h.arenas[PageOf(b)].Small? && 0 < h.arenas[PageOf(b)].freeCnt
      && b !in h.live && b != 0 && Inv(Pop(h, d, size))
      && Pop(h, d, size).live == h.live[b := size] && Pop(h, d, size).base == h.base
  {
    hide InvBut, IsBlock;
    PopStep(h, loose, d, size);
    var b := h.free[d][0];
    assert loose - {PageOf(b)} == {};
    var i := BlockIdx(PageOf(b), d, b);
  }

  /** `free`: the block goes back, and its arena too if that was the last block in use. */
  ghost function AfterFree(h: Heap, p: nat): (r: Heap)
    requires Inv(h) && (p == 0 || p in h.live)
    ensures Inv(r) && r.base == h.base && r.live == h.live - {p}
  {
    hide InvBut, B.SetRange, PerArena, Without, Span, LiveBlock;
    if p == 0 then
      NullNotLive(h);
      h
    else
      ArenaOf(h, p);
      var page := PageOf(p);
      if h.arenas[page].Big? then
        DropBigStep(h, page);
        DropBig(h, page, h.arenas[page].pages)
      else
        PushStep(h, p);
        var h1 := Push(h, p);
        var d := h.arenas[page].desc;
        if h1.arenas[page].freeCnt >= PerArena(d) then
          DropArenaStep(h1, page);
          DropArena(h1, d, page)
        else
          Tighten(h1, page);
          h1
  }

  lemma NullNotLive(h: Heap)
    requires Inv(h)
    ensures 0 !in h.live
  {
    hide BlockAt, PerArena, ListsOk, ArenasOk, IsBlock;
    assert PageOf(0) == 0;
    assert 0 in h.live ==> LiveBlock(h, 0);
  }

  lemma ArenaOf(h: Heap, p: nat)
    requires Inv(h) && p in h.live
    ensures PageOf(p) in h.arenas
    ensures h.arenas[PageOf(p)].Big? ==> p == BigBlock(PageOf(p))
  {
    LiveAt(h, p);
  }

  // ---- Runs

  /** Requests to the allocator, and changes that other users make to the page pool. */
  datatype Request = Malloc(size: U32) | Free(p: nat) | Others(used: seq<bool>)

  ghost predicate MayTake(h: Heap, r: Request) {
    match r
    case Malloc(_) => true
    case Free(p) => p == 0 || p in h.live
    case Others(used) =>
      && |used| == |h.used|
      && forall k: nat {:trigger PageUsed(h, k)} :: PageUsed(h, k) && used[k - h.base] == false ==>
           forall p {:trigger p in h.arenas} :: p in h.arenas ==> !(p <= k < p + Span(h.arenas[p]))
  }

  ghost function After(h: Heap, r: Request): Heap
    requires Inv(h) && 0 < h.base && MayTake(h, r)
  {
    match r
    case Malloc(size) => AfterMalloc(h, size).0
    case Free(p) => AfterFree(h, p)
    case Others(used) => h.(used := used)
  }

  lemma AfterInv(h: Heap, r: Request)
    requires Inv(h) && 0 < h.base && MayTake(h, r)
    ensures Inv(After(h, r)) && After(h, r).base == h.base
  {
    hide Inv;
    if r.Others? {
      OtherPages(h, r.used);
    }
  }

  /** h' is reached from h by some run. */
  ghost predicate Reaches(h: Heap, rs: seq<Request>, h': Heap)
    requires Inv(h) && 0 < h.base
    decreases |rs|
  {
    if rs == [] then h' == h
    else
      && MayTake(h, rs[0])
      && (AfterInv(h, rs[0]); Reaches(After(h, rs[0]), rs[1..], h'))
  }

  lemma {:induction false} ReachesInv(h: Heap, rs: seq<Request>, h': Heap)
    requires Inv(h) && 0 < h.base && Reaches(h, rs, h')
    ensures Inv(h')
    decreases |rs|
  {
    hide Inv, After, MayTake;
    if rs != [] {
      AfterInv(h, rs[0]);
      ReachesInv(After(h, rs[0]), rs[1..], h');
    }
  }

  /** The heap before the first request: no arenas, whatever pages others already use. */
  ghost function Empty(base: nat, used: seq<bool>): (h: Heap)
    ensures Inv(h) && h.live == map[]
  {
    Heap(base, used, map[], seq(DESC_CNT, _ => []), map[])
  }

  /** In every run blocks handed out are disjoint, and as big as requested exactly if the request did
      not wrap; an arena is kept exactly while one of its blocks is handed out, so that none is left
      when all are freed; and its count is the number of its blocks on the list. */
  lemma HeapRun(base: nat, used: seq<bool>, rs: seq<Request>, h: Heap)
    requires 0 < base && Reaches(Empty(base, used), rs, h)
    ensures Inv(h)
    ensures forall a {:trigger a in h.live} :: a in h.live ==> InArena(h, a) && (h.live[a] <= Usable(h, a) <==> h.live[a] < WRAPPED)
    ensures forall a, b {:trigger a in h.live, b in h.live} :: a in h.live && b in h.live && a < b ==>
      InArena(h, a) && a + Usable(h, a) <= b
    ensures forall page {:trigger page in h.arenas} :: page in h.arenas <==> exists x :: x in h.live && PageOf(x) == page
    ensures h.live == map[] ==> h.arenas == map[]
    ensures |h.free| == DESC_CNT && forall page {:trigger page in h.arenas} :: page in h.arenas ==> CountsFree(h, page)
  {
    hide Inv, Reaches, Usable, PageOf, CountsFree;
    ReachesInv(Empty(base, used), rs, h);
    InvLen(h);
    forall page | page in h.arenas ensures CountsFree(h, page) {
      FreeCounted(h, page);
    }
    forall a | a in h.live ensures InArena(h, a) && (h.live[a] <= Usable(h, a) <==> h.live[a] < WRAPPED) {
      LiveFits(h, a);
    }
    forall a, b | a in h.live && b in h.live && a < b ensures InArena(h, a) && a + Usable(h, a) <= b {
      LiveDisjoint(h, a, b);
    }
    forall page: nat ensures page in h.arenas <==> exists x :: x in h.live && PageOf(x) == page {
      ArenaHasLive(h, page);
    }
  }

  /** A request of 2^32 - 11 bytes or more that finds one free page is given that one page. */
  lemma WrappedRequest(h: Heap, size: U32)
    requires Inv(h) && 0 < h.base && WRAPPED <= size && B.FirstGroup(h.used, 0, 1, false).Some?
    ensures var (h', p) := AfterMalloc(h, size);
      p != 0 && InArena(h', p) && Usable(h', p) == PGSIZE - HEADER < size == h'.live[p]
  {
    hide Inv, AfterMalloc, B.FirstGroup, InvBut, BlockAt, PerArena;
    InvLen(h);
    assert BigPages(size) == 1;
    assert DescFor(size) == DESC_CNT by { NoDesc(size); }
    GivesOnePage(h, size);
  }

  lemma NoDesc(size: nat)
    requires 1024 < size
    ensures DescFor(size) == DESC_CNT
  {
    forall d: nat | d < DESC_CNT ensures BlockSize(d) < size {
      SizesOk(d);
    }
  }

  /** A block that `malloc` returns is big enough exactly if the request did not wrap. */
  lemma MallocBigEnough(h: Heap, size: U32)
    requires Inv(h) && 0 < h.base && |h.free| == DESC_CNT && !Fails(h, size)
    ensures var (h', p) := AfterMalloc(h, size); InArena(h', p) && (size <= Usable(h', p) <==> size < WRAPPED)
  {
    hide Inv, InvBut, Usable;
    var (h', p) := AfterMalloc(h, size);
    LiveFits(h', p);
  }

  lemma GivesOnePage(h: Heap, size: U32)
    requires Inv(h) && 0 < h.base && |h.free| == DESC_CNT && B.FirstGroup(h.used, 0, 1, false).Some?
    requires DescFor(size) == DESC_CNT && BigPages(size) == 1 && 0 < size
    ensures var (h', p) := AfterMalloc(h, size);
      p == BigBlock(h.base + B.FirstGroup(h.used, 0, 1, false).value) && p in h'.live && h'.live[p] == size
      && PageOf(p) in h'.arenas && h'.arenas[PageOf(p)] == Big(1)
  {
    hide Inv, B.FirstGroup, InvBut, DescFor, Fails, Pop, AddArena;
    BigPage(h.base + B.FirstGroup(h.used, 0, 1, false).value);
  }

  /** A small arena's count is the number of its blocks on its descriptor's list. */
  ghost predicate CountsFree(h: Heap, page: nat)
    requires page in h.arenas && |h.free| == DESC_CNT
  {
    var a := h.arenas[page];
    a.Small? ==> a.desc < DESC_CNT && a.freeCnt == |FreeIdx(h.free[a.desc], page, a.desc)|
  }

  lemma FreeCounted(h: Heap, page: nat)
    requires Inv(h) && page in h.arenas && |h.free| == DESC_CNT
    ensures CountsFree(h, page)
  {
    hide FreeIdx, BlockAt, PerArena, ListsOk, PagesOk, LiveOk;
    if h.arenas[page].Small? {
      SmallAt(h, {}, page);
    }
  }
}
