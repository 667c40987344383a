/** What `malloc` and `free` do to the pages of the pool, and which block a request gets. */
module HeapEffects {
  import opened Common
  import opened Arithmetic
  import B = Bitmap
  import opened HeapModel
  import opened HeapProof
  import opened HeapRuns

  // ---- Pages

  /** Page k belongs to an arena. */
  ghost predicate InSomeArena(h: Heap, k: nat) {
    exists p {:trigger p in h.arenas} :: p in h.arenas && p <= k < p + Span(h.arenas[p])
  }

  /** Page k of the pool is used, but not by the heap. */
  ghost predicate Foreign(h: Heap, k: nat) { PageUsed(h, k) && !InSomeArena(h, k) }

  lemma Covers(h: Heap, p: nat, k: nat)
    requires p in h.arenas && p <= k < p + Span(h.arenas[p])
    ensures InSomeArena(h, k)
  {
  }

  /** Adding an arena of n pages that were free, and marking exactly them. */
  lemma ArenaAdded(h: Heap, h': Heap, page: nat, n: nat, k: nat)
    requires h.base <= page && page - h.base + n <= |h.used| && h'.base == h.base && page !in h.arenas
    requires h'.used == B.SetRange(h.used, page - h.base, n, true) && B.AllAre(h.used, page - h.base, n, false)
    requires page in h'.arenas && Span(h'.arenas[page]) == n && SpansSame(h, h', page)
    ensures Foreign(h', k) == Foreign(h, k)
  {
    hide Span;
    if page <= k < page + n {
      Covers(h', page, k);
    } else {
      SameElsewhere(h, h', page, k);
    }
  }

  /** The other arenas are as long as they were. */
  ghost predicate SpansSame(h: Heap, h': Heap, page: nat) {
    forall p {:trigger p in h.arenas} {:trigger p in h'.arenas} :: p != page ==>
      (p in h.arenas <==> p in h'.arenas) && (p in h.arenas ==> Span(h'.arenas[p]) == Span(h.arenas[p]))
  }

  lemma SameElsewhere(h: Heap, h': Heap, page: nat, k: nat)
    requires SpansSame(h, h', page)
    requires page in h.arenas ==> !(page <= k < page + Span(h.arenas[page]))
    requires page in h'.arenas ==> !(page <= k < page + Span(h'.arenas[page]))
    ensures InSomeArena(h', k) == InSomeArena(h, k)
  {
    hide Span;
    if InSomeArena(h, k) {
      var p :| p in h.arenas && p <= k < p + Span(h.arenas[p]);
      assert p in h'.arenas;
    }
    if InSomeArena(h', k) {
      var p :| p in h'.arenas && p <= k < p + Span(h'.arenas[p]);
      assert p in h.arenas;
    }
  }

  /** Giving an arena back, and unmarking exactly its pages. */
  lemma ArenaDropped(h: Heap, h': Heap, page: nat, n: nat, k: nat)
    requires PagesOk(h) && h.base <= page && page - h.base + n <= |h.used| && h'.base == h.base
    requires h'.used == B.SetRange(h.used, page - h.base, n, false)
    requires page in h.arenas && Span(h.arenas[page]) == n && page !in h'.arenas && SpansSame(h, h', page)
    ensures Foreign(h', k) == Foreign(h, k)
  {
    hide Span;
    if page <= k < page + n {
      Covers(h, page, k);
    } else {
      SameElsewhere(h, h', page, k);
    }
  }

  /** Handing a block out or taking it back does not touch the pages. */
  lemma CountChanged(h: Heap, h': Heap, page: nat, k: nat)
    requires h'.used == h.used && h'.base == h.base && page in h.arenas && h.arenas[page].Small?
    requires page in h'.arenas && h'.arenas[page].Small? && h'.arenas == h.arenas[page := h'.arenas[page]]
    ensures Foreign(h', k) == Foreign(h, k)
  {
    forall p: nat ensures (p in h.arenas <==> p in h'.arenas) && (p in h.arenas ==> Span(h'.arenas[p]) == Span(h.arenas[p])) {
    }
    if InSomeArena(h, k) {
      var p :| p in h.arenas && p <= k < p + Span(h.arenas[p]);
      Covers(h', p, k);
    }
    if InSomeArena(h', k) {
      var p :| p in h'.arenas && p <= k < p + Span(h'.arenas[p]);
      Covers(h, p, k);
    }
  }

  // ---- Which block a request gets

  /** The arena of the block is one of the smallest blocks that hold the request, or just as many pages as
      the request and the header need. */
  ghost predicate WellChosen(a: Arena, size: nat) {
    if size <= 1024 then
      && a.Small? && a.desc < DESC_CNT && size <= BlockSize(a.desc)
      && forall e: nat {:trigger BlockSize(e)} :: e < DESC_CNT && size <= BlockSize(e) ==> BlockSize(a.desc) <= BlockSize(e)
    else
      a.Big? && (size < WRAPPED ==> (a.pages - 1) * PGSIZE < size + HEADER <= a.pages * PGSIZE)
  }

  lemma SmallestDesc(size: nat)
    ensures DescFor(size) < DESC_CNT <==> size <= 1024
    ensures DescFor(size) < DESC_CNT ==> forall e: nat {:trigger BlockSize(e)} :: e < DESC_CNT && size <= BlockSize(e) ==>
      BlockSize(DescFor(size)) <= BlockSize(e)
  {
    var d := DescFor(size);
    assert BlockSize(6) == 1024;
    if d < DESC_CNT {
      SizesOk(d);
      forall e: nat | e < DESC_CNT && size <= BlockSize(e) ensures BlockSize(d) <= BlockSize(e) {
        SizesGrow(d, e);
      }
    }
  }

  lemma SizesGrow(d: nat, e: nat)
    requires d <= e < DESC_CNT
    ensures BlockSize(d) <= BlockSize(e)
  {
  }

  lemma MallocBig(h: Heap, size: U32, k: nat)
    requires Inv(h) && 0 < h.base && |h.free| == DESC_CNT && DescFor(size) == DESC_CNT && AfterMalloc(h, size).1 != 0
    ensures var (h', p) := AfterMalloc(h, size);
      Foreign(h', k) == Foreign(h, k) && PageOf(p) in h'.arenas && WellChosen(h'.arenas[PageOf(p)], size)
  {
    hide Inv, Foreign, B.FirstGroup, B.SetRange, DescFor, Pop, AddArena, PerArena;
    var n := BigPages(size);
    var g := B.FirstGroup(h.used, 0, n, false);
    var page := h.base + g.value;
    SmallestDesc(size);
    BigPagesFit(size);
    BigPage(page);
    NewPage(h, g.value, n);
    ArenaAdded(h, AddBig(h, page, n, size), page, n, k);
  }

  /** A free page is no arena's. */
  lemma NewPage(h: Heap, a: nat, n: nat)
    requires Inv(h) && B.AllAre(h.used, a, n, false) && 0 < n
    ensures h.base + a !in h.arenas && a + n <= |h.used|
  {
    FreeGroup(h, a, n);
    UnusedPage(h, h.base + a);
  }

  lemma MallocFront(h: Heap, loose: set<nat>, d: nat, size: nat, k: nat)
    requires InvBut(h, loose) && d < DESC_CNT && |h.free| == DESC_CNT && h.free[d] != [] && 0 < size <= BlockSize(d)
    requires loose <= {PageOf(h.free[d][0])} && d == DescFor(size)
    ensures var b := h.free[d][0];
      && PageOf(b) in h.arenas && h.arenas[PageOf(b)].Small? && 0 < h.arenas[PageOf(b)].freeCnt
      && Foreign(Pop(h, d, size), k) == Foreign(h, k)
      && PageOf(b) in Pop(h, d, size).arenas && WellChosen(Pop(h, d, size).arenas[PageOf(b)], size)
  {
    hide InvBut, Foreign, DescFor, BlockSize;
    TakeFront(h, loose, d, size);
    var b := h.free[d][0];
    CountChanged(h, Pop(h, d, size), PageOf(b), k);
    SmallestDesc(size);
    OfDesc(h, loose, d);
  }

  /** The blocks of a list are of its descriptor. */
  lemma OfDesc(h: Heap, loose: set<nat>, d: nat)
    requires InvBut(h, loose) && d < DESC_CNT && |h.free| == DESC_CNT && h.free[d] != []
    ensures PageOf(h.free[d][0]) in h.arenas && h.arenas[PageOf(h.free[d][0])].Small? && h.arenas[PageOf(h.free[d][0])].desc == d
  {
    hide PagesOk, ArenasOk, LiveOk, IsBlock, NoDup;
    assert h.free[d][0] in h.free[d];
    assert FreeBlock(h, d, h.free[d][0]);
  }

  lemma MallocNew(h: Heap, d: nat, size: U32, k: nat)
    requires Inv(h) && 0 < h.base && |h.free| == DESC_CNT && d == DescFor(size) < DESC_CNT && h.free[d] == []
    requires AfterMalloc(h, size).1 != 0
    ensures var (h', p) := AfterMalloc(h, size);
      Foreign(h', k) == Foreign(h, k) && PageOf(p) in h'.arenas && WellChosen(h'.arenas[PageOf(p)], size)
  {
    hide Inv, InvBut, Foreign, B.FirstGroup, B.SetRange, DescFor, Pop, AddArena, PerArena, WellChosen, BlockSize;
    var g := B.FirstGroup(h.used, 0, 1, false);
    var page := h.base + g.value;
    NewPage(h, g.value, 1);
    FreeGroup(h, g.value, 1);
    AddArenaStep(h, d, page);
    AddArenaRest(h, d, page);
    var h1 := AddArena(h, d, page);
    AddedArena(h, d, page, k);
    MallocFront(h1, {page}, d, size, k);
  }

  lemma AddedArena(h: Heap, d: nat, page: nat, k: nat)
    requires d < DESC_CNT && |h.free| == DESC_CNT && h.base <= page < h.base + |h.used| && page !in h.arenas
    requires B.AllAre(h.used, page - h.base, 1, false)
    ensures Foreign(AddArena(h, d, page), k) == Foreign(h, k)
  {
    hide Foreign, B.SetRange, PerArena;
    ArenaAdded(h, AddArena(h, d, page), page, 1, k);
  }

  /** `malloc` leaves the pages of others alone, and gives a block from a well-chosen arena. */
  lemma MallocDoes(h: Heap, size: U32, k: nat)
    requires Inv(h) && 0 < h.base && |h.free| == DESC_CNT
    ensures var (h', p) := AfterMalloc(h, size);
      && Foreign(h', k) == Foreign(h, k)
      && (p != 0 ==> PageOf(p) in h'.arenas && WellChosen(h'.arenas[PageOf(p)], size))
  {
    hide InvBut, Foreign, B.FirstGroup, B.SetRange, DescFor, WellChosen, Pop, AddArena, AddBig, PerArena, Fails;
    var d := DescFor(size);
    SmallestDesc(size);
    var p := AfterMalloc(h, size).1;
    if p != 0 {
      if d == DESC_CNT {
        MallocBig(h, size, k);
      } else if h.free[d] != [] {
        MallocFront(h, {}, d, size, k);
      } else {
        MallocNew(h, d, size, k);
      }
    }
  }

  /** `free` leaves the pages of others alone, and gives back those of an arena of which nothing is in use. */
  lemma FreeDoes(h: Heap, p: nat, k: nat)
    requires Inv(h) && (p == 0 || p in h.live)
    ensures Foreign(AfterFree(h, p), k) == Foreign(h, k)
  {
    hide Inv, InvBut, Foreign, B.SetRange, PerArena, Without, Push, DropArena, DropBig;
    if p != 0 {
      ArenaOf(h, p);
      var page := PageOf(p);
      if h.arenas[page].Big? {
        FreeBig(h, page, k);
      } else {
        FreeSmall(h, p, k);
      }
    }
  }

  lemma FreeBig(h: Heap, page: nat, k: nat)
    requires Inv(h) && page in h.arenas && h.arenas[page].Big?
    ensures h.base <= page && page - h.base + h.arenas[page].pages <= |h.used|
    ensures Foreign(DropBig(h, page, h.arenas[page].pages), k) == Foreign(h, k)
  {
    hide ListsOk, ArenasOk, LiveOk, Foreign, B.SetRange;
    ArenaInPool(h, page);
    ArenaDropped(h, DropBig(h, page, h.arenas[page].pages), page, h.arenas[page].pages, k);
  }

  lemma FreeSmall(h: Heap, p: nat, k: nat)
    requires Inv(h) && p in h.live && PageOf(p) in h.arenas && h.arenas[PageOf(p)].Small?
    ensures Foreign(AfterFree(h, p), k) == Foreign(h, k)
  {
    hide Inv, InvBut, Foreign, B.SetRange, PerArena, Without, DropArena, PageOf;
    var page := PageOf(p);
    PushStep(h, p);
    var h1, d := Push(h, p), h.arenas[page].desc;
    CountChanged(h, h1, page, k);
    NullNotLive(h);
    if h1.arenas[page].freeCnt >= PerArena(d) {
      DropArenaStep(h1, page);
      DroppedArena(h1, d, page, k);
    }
  }

  lemma DroppedArena(h: Heap, d: nat, page: nat, k: nat)
    requires InvBut(h, {page}) && d < DESC_CNT && |h.free| == DESC_CNT && h.base <= page < h.base + |h.used|
    requires page in h.arenas && h.arenas[page].Small?
    ensures Foreign(DropArena(h, d, page), k) == Foreign(h, k)
  {
    hide ListsOk, ArenasOk, LiveOk, Foreign, B.SetRange, PerArena, Without;
    ArenaDropped(h, DropArena(h, d, page), page, 1, k);
  }

  // ---- Every run

  /** Only `malloc` and `free`. */
  predicate Ours(rs: seq<Request>) { forall r {:trigger r in rs} :: r in rs ==> !r.Others? }

  /** Over every run of malloc and free the pages that others use are the same; so when all blocks have been
      freed, exactly the pages are used that were used at the start. */
  lemma {:induction false} PagesComeBack(h: Heap, rs: seq<Request>, h': Heap, k: nat)
    requires Inv(h) && 0 < h.base && Reaches(h, rs, h') && Ours(rs)
    ensures Inv(h') && Foreign(h', k) == Foreign(h, k)
    ensures h'.live == map[] ==> (PageUsed(h', k) <==> Foreign(h, k))
    decreases |rs|
  {
    hide Inv, After, MayTake, Foreign;
    if rs == [] {
      NothingLive(h, k);
    } else {
      AfterInv(h, rs[0]);
      assert rs[0] in rs;
      StepPages(h, rs[0], k);
      assert forall r {:trigger r in rs[1..]} :: r in rs[1..] ==> r in rs;
      PagesComeBack(After(h, rs[0]), rs[1..], h', k);
    }
  }

  lemma StepPages(h: Heap, r: Request, k: nat)
    requires Inv(h) && 0 < h.base && MayTake(h, r) && !r.Others?
    ensures Foreign(After(h, r), k) == Foreign(h, k)
  {
    hide Inv, Foreign, AfterMalloc, AfterFree;
    InvLen(h);
    match r
    case Malloc(size) => MallocDoes(h, size, k);
    case Free(p) => FreeDoes(h, p, k);
  }

  /** With nothing handed out there is no arena. */
  lemma NothingLive(h: Heap, k: nat)
    requires Inv(h)
    ensures h.live == map[] ==> (PageUsed(h, k) <==> Foreign(h, k))
  {
    hide Inv, PageUsed;
    if h.live == map[] {
      forall p: nat ensures p !in h.arenas {
        ArenaHasLive(h, p);
      }
    }
  }

  /** A block that comes back is the next to be handed out to a request of its size class, unless its arena
      has been given back. */
  lemma FreedFirst(h: Heap, p: nat, size: U32)
    requires Inv(h) && 0 < h.base && p in h.live && 0 < size && |h.free| == DESC_CNT
    requires PageOf(p) in h.arenas && h.arenas[PageOf(p)].Small? && DescFor(size) == h.arenas[PageOf(p)].desc
    requires PageOf(p) in AfterFree(h, p).arenas
    ensures AfterMalloc(AfterFree(h, p), size).1 == p
  {
    hide Inv, InvBut, B.SetRange, PerArena, Without, PageOf, DescFor, Pop, AddArena, AddBig, B.FirstGroup;
    PushStep(h, p);
    NullNotLive(h);
    InvLen(AfterFree(h, p));
    var h1, d := Push(h, p), h.arenas[PageOf(p)].desc;
    assert h1.free[d] == [p] + h.free[d];
  }
}
