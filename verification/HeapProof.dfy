/** Every step of the allocator keeps the heap invariant. */
module HeapProof {
  import opened Common
  import B = Bitmap
  import opened HeapModel

  lemma {:induction false} RangeCard(s: set<nat>, n: nat)
    requires forall i {:trigger i in s} :: i in s ==> i < n
    ensures |s| <= n && (|s| == n ==> forall i: nat :: i < n ==> i in s)
  {
    if n > 0 {
      var t := s - {n - 1};
      RangeCard(t, n - 1);
      if n - 1 in s {
        assert s == t + {n - 1};
      } else {
        assert s == t;
      }
    } else {
      assert s == {};
    }
  }

  lemma FreeIdxCard(list: seq<nat>, page: nat, d: nat)
    requires d < DESC_CNT
    ensures |FreeIdx(list, page, d)| <= PerArena(d)
    ensures |FreeIdx(list, page, d)| == PerArena(d) ==> forall i: nat :: i < PerArena(d) ==> BlockAt(page, d, i) in list
  {
    hide BlockAt, PerArena;
    RangeCard(FreeIdx(list, page, d), PerArena(d));
    assert forall i: nat {:trigger BlockAt(page, d, i)} :: i in FreeIdx(list, page, d) ==> BlockAt(page, d, i) in list;
  }

  lemma SmallAt(h: Heap, loose: set<nat>, p: nat)
    requires |h.free| == DESC_CNT && ArenasOk(h, loose) && p in h.arenas && h.arenas[p].Small?
    ensures SmallOk(h, p, loose)
  {
  }

  /** A small arena none of whose blocks moved. */
  lemma SmallFrame(h: Heap, h': Heap, p: nat, loose: set<nat>, loose': set<nat>)
    requires |h.free| == DESC_CNT && |h'.free| == DESC_CNT
    requires p in h.arenas && p in h'.arenas && h.arenas[p].Small? && h'.arenas[p] == h.arenas[p]
    requires SmallOk(h, p, loose) && (p in loose ==> p in loose')
    requires var d := h.arenas[p].desc;
      forall i: nat {:trigger BlockAt(p, d, i)} :: i < PerArena(d) ==>
        (BlockAt(p, d, i) in h'.free[d] <==> BlockAt(p, d, i) in h.free[d]) &&
        (BlockAt(p, d, i) in h'.live <==> BlockAt(p, d, i) in h.live)
    ensures SmallOk(h', p, loose')
  {
    hide BlockAt, PerArena;
    var d := h.arenas[p].desc;
    assert FreeIdx(h'.free[d], p, d) == FreeIdx(h.free[d], p, d);
  }

  /** A block of one page is no block of another. */
  lemma OtherPage(b: nat, p: nat, d: nat, i: nat)
    requires d < DESC_CNT && i < PerArena(d) && PageOf(b) != p
    ensures BlockAt(p, d, i) != b
  {
    hide BlockAt, PerArena;
    BlockInPage(p, d, i);
  }

  lemma BlockIdx(page: nat, d: nat, b: nat) returns (i: nat)
    requires d < DESC_CNT && IsBlock(b, page, d)
    ensures i < PerArena(d) && b == BlockAt(page, d, i)
  {
    hide BlockAt, PerArena;
    i :| i < PerArena(d) && b == BlockAt(page, d, i);
  }

  lemma SameBlock(page: nat, d: nat, i: nat, j: nat)
    requires d < DESC_CNT && BlockAt(page, d, i) == BlockAt(page, d, j)
    ensures i == j
  {
    hide BlockAt;
    if i < j {
      BlocksApart(page, d, i, j);
    } else if j < i {
      BlocksApart(page, d, j, i);
    }
  }

  // ---- Handing out a block

  /** The front of a list is a free block of some arena, which counts at least one. */
  lemma FrontBlock(h: Heap, loose: set<nat>, d: nat) returns (i: nat)
    requires InvBut(h, loose) && d < DESC_CNT && h.free[d] != []
    ensures var b := h.free[d][0];
      && PageOf(b) in h.arenas && h.arenas[PageOf(b)].Small? && h.arenas[PageOf(b)].desc == d
      && 0 < h.arenas[PageOf(b)].freeCnt <= PerArena(d) && b !in h.live
      && i < PerArena(d) && b == BlockAt(PageOf(b), d, i)
  {
    hide BlockAt, PerArena, PagesOk, LiveOk, NoDup, IsBlock;
    var b := h.free[d][0];
    assert b in h.free[d];
    assert FreeBlock(h, d, b);
    SmallAt(h, loose, PageOf(b));
    i := BlockIdx(PageOf(b), d, b);
    var idx := FreeIdx(h.free[d], PageOf(b), d);
    assert i in idx;
    assert idx != {};
    FreeIdxCard(h.free[d], PageOf(b), d);
  }

  lemma PopLists(h: Heap, d: nat, size: nat, h': Heap)
    requires ListsOk(h) && d < DESC_CNT && h.free[d] != []
    requires var p := PageOf(h.free[d][0]);
      p in h.arenas && h.arenas[p].Small? && h.arenas[p].desc == d && 0 < h.arenas[p].freeCnt
    requires h' == Pop(h, d, size)
    ensures ListsOk(h') && h.free[d][0] !in h'.free[d]
  {
    hide IsBlock, NoDup;
    NoDupRest(h.free[d]);
    forall e, b | 0 <= e < DESC_CNT && b in h'.free[e] ensures FreeBlock(h', e, b) {
      assert b in h.free[e];
      assert FreeBlock(h, e, b);
    }
  }

  lemma PopArenas(h: Heap, loose: set<nat>, d: nat, size: nat, i: nat, h': Heap)
    requires InvBut(h, loose) && d < DESC_CNT && h.free[d] != []
    requires var b := h.free[d][0]; var p := PageOf(b);
      && p in h.arenas && h.arenas[p].Small? && h.arenas[p].desc == d && 0 < h.arenas[p].freeCnt <= PerArena(d)
      && i < PerArena(d) && b == BlockAt(p, d, i)
    requires h' == Pop(h, d, size) && h.free[d][0] !in h'.free[d]
    ensures ArenasOk(h', loose - {PageOf(h.free[d][0])})
  {
    hide BlockAt, PerArena, PagesOk, LiveOk, ListsOk, NoDup;
    assert |h.free| == DESC_CNT by { assert ListsOk(h) ==> |h.free| == DESC_CNT by { ListsLen(h); } }
    var b := h.free[d][0];
    var page := PageOf(b);
    var loose' := loose - {page};
    SmallAt(h, loose, page);
    assert h.free[d] == [b] + h'.free[d];
    forall p | p in h'.arenas ensures if h'.arenas[p].Small? then SmallOk(h', p, loose') else BigBlock(p) in h'.live {
      if p == page {
        PopOwnArena(h, loose, d, i, h', page);
      } else if h.arenas[p].Small? {
        SmallAt(h, loose, p);
        forall j: nat | j < PerArena(h.arenas[p].desc) ensures BlockAt(p, h.arenas[p].desc, j) != b {
          OtherPage(b, p, h.arenas[p].desc, j);
        }
        SmallFrame(h, h', p, loose, loose');
      }
    }
  }

  lemma ListsLen(h: Heap)
    requires ListsOk(h)
    ensures |h.free| == DESC_CNT
  {
  }

  lemma PopOwnArena(h: Heap, loose: set<nat>, d: nat, i: nat, h': Heap, page: nat)
    requires d < DESC_CNT && |h.free| == DESC_CNT && |h'.free| == DESC_CNT && i < PerArena(d)
    requires page in h.arenas && h.arenas[page].Small? && h.arenas[page].desc == d && SmallOk(h, page, loose)
    requires 0 < h.arenas[page].freeCnt <= PerArena(d)
    requires h'.arenas == h.arenas[page := h.arenas[page].(freeCnt := h.arenas[page].freeCnt - 1)]
    requires var b := BlockAt(page, d, i); h.free[d] == [b] + h'.free[d] && b !in h'.free[d]
    requires var b := BlockAt(page, d, i); b in h'.live && h'.live.Keys == h.live.Keys + {b}
    ensures SmallOk(h', page, {})
  {
    hide BlockAt, PerArena;
    var b := BlockAt(page, d, i);
    forall j: nat | j < PerArena(d) && j != i ensures BlockAt(page, d, j) != b {
      if BlockAt(page, d, j) == b {
        SameBlock(page, d, i, j);
      }
    }
    assert FreeIdx(h.free[d], page, d) == FreeIdx(h'.free[d], page, d) + {i};
    assert forall x {:trigger x in h'.live} :: x in h'.live <==> x in h'.live.Keys;
  }

  lemma PopLive(h: Heap, d: nat, size: nat, i: nat, h': Heap)
    requires LiveOk(h) && d < DESC_CNT && |h.free| == DESC_CNT && h.free[d] != [] && 0 < size <= BlockSize(d)
    requires var b := h.free[d][0]; var p := PageOf(b);
      && p in h.arenas && h.arenas[p].Small? && h.arenas[p].desc == d && 0 < h.arenas[p].freeCnt
      && i < PerArena(d) && b == BlockAt(p, d, i)
    requires h' == Pop(h, d, size)
    ensures LiveOk(h')
  {
    hide BlockAt, PerArena;
    forall x | x in h'.live ensures LiveBlock(h', x) {
      if x != h.free[d][0] {
        assert LiveBlock(h, x);
      }
    }
  }

  lemma PopPages(h: Heap, page: nat, h': Heap)
    requires PagesOk(h) && page in h.arenas && h.arenas[page].Small? && h'.used == h.used && h'.base == h.base
    requires h'.arenas.Keys == h.arenas.Keys && h'.arenas[page].Small?
    requires forall p {:trigger h'.arenas[p]} :: p in h.arenas && p != page ==> h'.arenas[p] == h.arenas[p]
    ensures PagesOk(h')
  {
    assert forall p {:trigger p in h'.arenas} :: p in h'.arenas <==> p in h.arenas.Keys;
    assert forall p {:trigger p in h'.arenas} :: p in h'.arenas ==> p in h.arenas && Span(h'.arenas[p]) == Span(h.arenas[p]);
    assert forall k {:trigger PageUsed(h', k)} :: PageUsed(h', k) <==> PageUsed(h, k);
  }

  /** Handing out the front block: it was free, and its arena is no longer wholly free. */
  lemma PopStep(h: Heap, loose: set<nat>, d: nat, size: nat)
    requires InvBut(h, loose) && d < DESC_CNT && h.free[d] != [] && 0 < size <= BlockSize(d)
    ensures var b := h.free[d][0];
      && PageOf(b) in h.arenas && h.arenas[PageOf(b)].Small? && h.arenas[PageOf(b)].desc == d
      && 0 < h.arenas[PageOf(b)].freeCnt && b !in h.live && IsBlock(b, PageOf(b), d)
      && InvBut(Pop(h, d, size), loose - {PageOf(b)})
  {
    hide BlockAt, PerArena, PagesOk, LiveOk, ListsOk, ArenasOk;
    ListsLen(h);
    var i := FrontBlock(h, loose, d);
    var h' := Pop(h, d, size);
    PopLists(h, d, size, h');
    PopArenas(h, loose, d, size, i, h');
    PopLive(h, d, size, i, h');
    PopPages(h, PageOf(h.free[d][0]), h');
  }

  // ---- Taking a block back

  lemma LiveAt(h: Heap, b: nat)
    requires LiveOk(h) && b in h.live
    ensures LiveBlock(h, b)
  {
  }

  /** A block handed out is not on its list. */
  lemma LiveNotFree(h: Heap, b: nat) returns (i: nat)
    requires Inv(h) && b in h.live && PageOf(b) in h.arenas && h.arenas[PageOf(b)].Small?
    ensures var d := h.arenas[PageOf(b)].desc;
      d < DESC_CNT && i < PerArena(d) && b == BlockAt(PageOf(b), d, i) && b !in h.free[d]
  {
    hide BlockAt, PerArena, PagesOk, IsBlock;
    LiveAt(h, b);
    var p := PageOf(b);
    SmallAt(h, {}, p);
    i := BlockIdx(p, h.arenas[p].desc, b);
  }

  lemma PushLists(h: Heap, b: nat, h': Heap)
    requires ListsOk(h) && PageOf(b) in h.arenas && h.arenas[PageOf(b)].Small?
    requires var d := h.arenas[PageOf(b)].desc; d < DESC_CNT && IsBlock(b, PageOf(b), d) && b !in h.free[d]
    requires h' == Push(h, b)
    ensures ListsOk(h')
  {
    hide IsBlock, NoDup;
    var d := h.arenas[PageOf(b)].desc;
    NoDupCons(b, h.free[d]);
    forall e, x | 0 <= e < DESC_CNT && x in h'.free[e] ensures FreeBlock(h', e, x) {
      if x in h.free[e] {
        assert FreeBlock(h, e, x);
      }
    }
  }

  lemma PushArenas(h: Heap, b: nat, i: nat, h': Heap)
    requires Inv(h) && b in h.live && PageOf(b) in h.arenas && h.arenas[PageOf(b)].Small?
    requires var d := h.arenas[PageOf(b)].desc;
      d < DESC_CNT && i < PerArena(d) && b == BlockAt(PageOf(b), d, i) && b !in h.free[d]
    requires h' == Push(h, b)
    ensures ArenasOk(h', {PageOf(b)})
    ensures h'.arenas[PageOf(b)].freeCnt <= PerArena(h'.arenas[PageOf(b)].desc)
  {
    hide BlockAt, PerArena, PagesOk, LiveOk, NoDup, FreeBlock;
    var page := PageOf(b);
    var d := h.arenas[page].desc;
    forall p | p in h'.arenas ensures if h'.arenas[p].Small? then SmallOk(h', p, {page}) else BigBlock(p) in h'.live {
      if p == page {
        SmallAt(h, {}, page);
        PushOwnArena(h, d, i, h', page);
      } else if h.arenas[p].Small? {
        SmallAt(h, {}, p);
        forall j: nat | j < PerArena(h.arenas[p].desc) ensures BlockAt(p, h.arenas[p].desc, j) != b {
          OtherPage(b, p, h.arenas[p].desc, j);
        }
        SmallFrame(h, h', p, {}, {page});
      } else {
        BigPage(p);
      }
    }
    SmallAt(h, {}, page);
  }

  lemma BigPage(p: nat)
    ensures PageOf(BigBlock(p)) == p
  {
  }

  lemma PushOwnArena(h: Heap, d: nat, i: nat, h': Heap, page: nat)
    requires d < DESC_CNT && |h.free| == DESC_CNT && |h'.free| == DESC_CNT && i < PerArena(d)
    requires page in h.arenas && h.arenas[page].Small? && h.arenas[page].desc == d && SmallOk(h, page, {})
    requires h'.arenas == h.arenas[page := h.arenas[page].(freeCnt := h.arenas[page].freeCnt + 1)]
    requires var b := BlockAt(page, d, i); h'.free[d] == [b] + h.free[d] && b !in h.free[d]
    requires h'.live == h.live - {BlockAt(page, d, i)}
    ensures SmallOk(h', page, {page})
  {
    hide BlockAt, PerArena;
    var b := BlockAt(page, d, i);
    forall j: nat | j < PerArena(d) && j != i ensures BlockAt(page, d, j) != b {
      if BlockAt(page, d, j) == b {
        SameBlock(page, d, i, j);
      }
    }
    assert FreeIdx(h'.free[d], page, d) == FreeIdx(h.free[d], page, d) + {i};
  }

  lemma FewerLive(h: Heap, h': Heap)
    requires LiveOk(h) && h'.live.Keys <= h.live.Keys
    requires forall b {:trigger b in h'.live} :: b in h'.live ==> b in h.live && h'.live[b] == h.live[b]
    requires forall b {:trigger PageOf(b)} :: b in h'.live && PageOf(b) in h.arenas ==>
      PageOf(b) in h'.arenas && SameKind(h.arenas[PageOf(b)], h'.arenas[PageOf(b)])
    ensures LiveOk(h')
  {
    hide IsBlock;
    forall b | b in h'.live ensures LiveBlock(h', b) {
      assert LiveBlock(h, b);
    }
  }

  /** Two headers that differ at most in the count of free blocks. */
  ghost predicate SameKind(a: Arena, b: Arena) {
    if a.Small? then b.Small? && b.desc == a.desc else b == a
  }

  /** Taking a block back; its arena may now be wholly free. */
  lemma PushStep(h: Heap, b: nat)
    requires Inv(h) && b in h.live && PageOf(b) in h.arenas && h.arenas[PageOf(b)].Small?
    ensures h.arenas[PageOf(b)].desc < DESC_CNT && |h.free| == DESC_CNT
    ensures InvBut(Push(h, b), {PageOf(b)})
    ensures Push(h, b).arenas[PageOf(b)].freeCnt <= PerArena(h.arenas[PageOf(b)].desc)
  {
    hide BlockAt, PerArena, PagesOk, LiveOk, ListsOk, ArenasOk;
    ListsLen(h);
    var i := LiveNotFree(h, b);
    var h' := Push(h, b);
    PushLists(h, b, h');
    PushArenas(h, b, i, h');
    FewerLive(h, h');
    PopPages(h, PageOf(b), h');
  }

  // ---- A new arena

  /** A page that is not used belongs to no arena. */
  lemma UnusedPage(h: Heap, page: nat)
    requires PagesOk(h) && !PageUsed(h, page)
    ensures forall p {:trigger p in h.arenas} :: p in h.arenas ==> !(p <= page < p + Span(h.arenas[p]))
    ensures page !in h.arenas
  {
    forall p | p in h.arenas ensures !(p <= page < p + Span(h.arenas[p])) {
      assert p <= page < p + Span(h.arenas[p]) ==> PageUsed(h, page);
    }
  }

  lemma AddPages(h: Heap, page: nat, a: Arena, h': Heap)
    requires PagesOk(h) && 0 < page && 0 < Span(a) && h.base <= page && page - h.base + Span(a) <= |h.used|
    requires forall k {:trigger PageUsed(h, k)} :: page <= k < page + Span(a) ==> !PageUsed(h, k)
    requires h'.base == h.base && h'.used == B.SetRange(h.used, page - h.base, Span(a), true)
    requires h'.arenas == h.arenas[page := a]
    ensures PagesOk(h') && page !in h.arenas
  {
    hide Span;
    forall p | p in h.arenas ensures p + Span(h.arenas[p]) <= page || page + Span(a) <= p {
      if p <= page {
        UnusedPage(h, page);
      } else if p < page + Span(a) {
        UnusedPage(h, p);
      }
    }
    UnusedPage(h, page);
    assert forall k: nat {:trigger PageUsed(h', k)} :: PageUsed(h', k) <==> PageUsed(h, k) || page <= k < page + Span(a);
  }

  /** No block of a page without an arena is on a list or handed out. */
  lemma NoStrays(h: Heap, page: nat, d: nat, i: nat)
    requires ListsOk(h) && LiveOk(h) && page !in h.arenas && d < DESC_CNT && i < PerArena(d)
    ensures BlockAt(page, d, i) !in h.free[d] && BlockAt(page, d, i) !in h.live
  {
    hide BlockAt, PerArena, IsBlock, NoDup;
    BlockInPage(page, d, i);
    var b := BlockAt(page, d, i);
    assert b in h.free[d] ==> FreeBlock(h, d, b);
    assert b in h.live ==> LiveBlock(h, b);
  }

  lemma AddLists(h: Heap, d: nat, page: nat, h': Heap)
    requires ListsOk(h) && LiveOk(h) && d < DESC_CNT && page !in h.arenas
    requires h.base <= page < h.base + |h.used| && h' == AddArena(h, d, page)
    ensures ListsOk(h')
  {
    hide BlockAt, PerArena, NoDup, IsBlock;
    var blocks := Blocks(page, d, PerArena(d));
    AddNoDup(h, d, page, blocks);
    forall e, x | 0 <= e < DESC_CNT && x in h'.free[e] ensures FreeBlock(h', e, x) {
      if x in h.free[e] {
        assert FreeBlock(h, e, x);
      } else {
        var i :| 0 <= i < |blocks| && blocks[i] == x;
        NewBlock(page, d, i);
      }
    }
  }

  lemma NewBlock(page: nat, d: nat, i: nat)
    requires d < DESC_CNT && i < PerArena(d)
    ensures PageOf(BlockAt(page, d, i)) == page && IsBlock(BlockAt(page, d, i), page, d)
  {
    BlockInPage(page, d, i);
  }

  lemma AddNoDup(h: Heap, d: nat, page: nat, blocks: seq<nat>)
    requires ListsOk(h) && LiveOk(h) && d < DESC_CNT && page !in h.arenas && blocks == Blocks(page, d, PerArena(d))
    ensures NoDup(h.free[d] + blocks)
  {
    hide BlockAt, PerArena, IsBlock, FreeBlock;
    var list := h.free[d];
    forall j | 0 <= j < |blocks| ensures blocks[j] !in list {
      NoStrays(h, page, d, j);
    }
    forall i, j | 0 <= i < j < |blocks| ensures blocks[i] != blocks[j] {
      BlocksApart(page, d, i, j);
    }
    forall i, j | 0 <= i < j < |list + blocks| ensures (list + blocks)[i] != (list + blocks)[j] {
      if i < |list| <= j {
        assert blocks[j - |list|] !in list;
      }
    }
  }

  lemma AddArenas(h: Heap, loose: set<nat>, d: nat, page: nat, h': Heap)
    requires InvBut(h, loose) && d < DESC_CNT && page !in h.arenas
    requires h.base <= page < h.base + |h.used| && h' == AddArena(h, d, page)
    ensures ArenasOk(h', loose + {page})
  {
    hide BlockAt, PerArena, PagesOk, LiveOk, NoDup, FreeBlock, Blocks;
    var loose' := loose + {page};
    assert page in loose';
    var blocks := Blocks(page, d, PerArena(d));
    forall p | p in h'.arenas ensures if h'.arenas[p].Small? then SmallOk(h', p, loose') else BigBlock(p) in h'.live {
      if p == page {
        AddOwnArena(h, d, page, h', loose');
      } else if h.arenas[p].Small? {
        SmallAt(h, loose, p);
        forall j: nat | j < PerArena(h.arenas[p].desc) ensures BlockAt(p, h.arenas[p].desc, j) !in blocks {
          NotNew(p, h.arenas[p].desc, j, page, d);
        }
        SmallFrame(h, h', p, loose, loose');
      }
    }
  }

  lemma NotNew(p: nat, e: nat, j: nat, page: nat, d: nat)
    requires e < DESC_CNT && d < DESC_CNT && j < PerArena(e) && p != page
    ensures BlockAt(p, e, j) !in Blocks(page, d, PerArena(d))
  {
    hide BlockAt, PerArena;
    var blocks := Blocks(page, d, PerArena(d));
    forall i | 0 <= i < |blocks| ensures blocks[i] != BlockAt(p, e, j) {
      BlockInPage(page, d, i);
      BlockInPage(p, e, j);
    }
  }

  lemma AddOwnArena(h: Heap, d: nat, page: nat, h': Heap, loose: set<nat>)
    requires ListsOk(h) && LiveOk(h) && d < DESC_CNT && page !in h.arenas && page in loose
    requires h.base <= page < h.base + |h.used| && h' == AddArena(h, d, page)
    ensures SmallOk(h', page, loose)
  {
    hide BlockAt, PerArena, LiveOk, NoDup, FreeBlock;
    var blocks := Blocks(page, d, PerArena(d));
    forall i: nat | i < PerArena(d) ensures BlockAt(page, d, i) in h'.free[d] && BlockAt(page, d, i) !in h'.live {
      NoStrays(h, page, d, i);
      assert blocks[i] in blocks;
    }
    var idx := FreeIdx(h'.free[d], page, d);
    FullRange(idx, PerArena(d));
  }

  lemma {:induction false} FullRange(s: set<nat>, n: nat)
    requires forall i: nat {:trigger i in s} :: i in s <==> i < n
    ensures |s| == n
  {
    if n > 0 {
      assert n - 1 in s;
      FullRange(s - {n - 1}, n - 1);
    } else {
      assert s == {};
    }
  }

  lemma MoreArenas(h: Heap, h': Heap, page: nat, a: Arena)
    requires LiveOk(h) && h'.live == h.live && page !in h.arenas && h'.arenas == h.arenas[page := a]
    ensures LiveOk(h')
  {
    hide IsBlock;
    forall b | b in h'.live ensures LiveBlock(h', b) {
      assert LiveBlock(h, b);
    }
  }

  /** A free page becomes an arena with every block on the list. */
  lemma AddArenaStep(h: Heap, d: nat, page: nat)
    requires Inv(h) && d < DESC_CNT && 0 < page && h.base <= page < h.base + |h.used| && !PageUsed(h, page)
    ensures |h.free| == DESC_CNT && InvBut(AddArena(h, d, page), {page}) && page !in h.arenas
  {
    hide BlockAt, PerArena, PagesOk, LiveOk, ListsOk, ArenasOk, PageUsed;
    ListsLen(h);
    var h' := AddArena(h, d, page);
    AddPages(h, page, Small(d, PerArena(d)), h');
    AddLists(h, d, page, h');
    AddArenas(h, {}, d, page, h');
    assert {} + {page} == {page};
    MoreArenas(h, h', page, Small(d, PerArena(d)));
  }

  // ---- An arena given back

  lemma DropPages(h: Heap, page: nat, h': Heap)
    requires PagesOk(h) && page in h.arenas && h.base <= page && page - h.base + Span(h.arenas[page]) <= |h.used|
    requires h'.base == h.base && h'.used == B.SetRange(h.used, page - h.base, Span(h.arenas[page]), false)
    requires h'.arenas == h.arenas - {page}
    ensures PagesOk(h')
  {
    hide Span;
    var n := Span(h.arenas[page]);
    assert forall k: nat {:trigger PageUsed(h', k)} :: PageUsed(h', k) <==> PageUsed(h, k) && !(page <= k < page + n);
    forall p: nat, k: nat {:trigger p in h'.arenas, PageUsed(h', k)} | p in h'.arenas && p <= k < p + Span(h'.arenas[p]) ensures PageUsed(h', k) {
      assert PageUsed(h, k);
      assert p < page ==> p + Span(h.arenas[p]) <= page;
      assert page < p ==> page + n <= p;
    }
  }

  /** The pages of an arena are pages of the pool. */
  lemma ArenaInPool(h: Heap, page: nat)
    requires PagesOk(h) && page in h.arenas
    ensures h.base <= page && page - h.base + Span(h.arenas[page]) <= |h.used|
    ensures B.AllAre(h.used, page - h.base, Span(h.arenas[page]), true)
  {
    hide Span;
    var n := Span(h.arenas[page]);
    assert PageUsed(h, page) && PageUsed(h, page + n - 1);
    forall i {:trigger h.used[i]} | page - h.base <= i < page - h.base + n ensures h.used[i] {
      assert PageUsed(h, i + h.base);
    }
  }

  /** In a wholly free arena no block is handed out. */
  lemma WhollyFree(h: Heap, loose: set<nat>, page: nat, b: nat)
    requires InvBut(h, loose) && page in h.arenas && h.arenas[page].Small? && h.arenas[page].desc < DESC_CNT
    requires h.arenas[page].freeCnt == PerArena(h.arenas[page].desc) && b in h.live
    ensures PageOf(b) != page
  {
    hide BlockAt, PerArena, PagesOk, NoDup, IsBlock, FreeBlock;
    var d := h.arenas[page].desc;
    SmallAt(h, loose, page);
    FreeIdxCard(h.free[d], page, d);
    LiveAt(h, b);
    if PageOf(b) == page {
      var i := BlockIdx(page, d, b);
      assert false;
    }
  }

  lemma DropLists(h: Heap, d: nat, page: nat, h': Heap)
    requires ListsOk(h) && d < DESC_CNT && page in h.arenas && h.arenas[page].Small? && h.arenas[page].desc == d
    requires h.base <= page < h.base + |h.used| && h' == DropArena(h, d, page)
    ensures ListsOk(h')
  {
    hide BlockAt, PerArena, NoDup, Without, B.SetRange;
    forall e, x | 0 <= e < DESC_CNT && x in h'.free[e] ensures FreeBlock(h', e, x) {
      assert x in h.free[e];
      assert FreeBlock(h, e, x);
      if PageOf(x) == page {
        InBlockSet(x, page, d);
        assert false;
      }
    }
  }

  lemma InBlockSet(b: nat, page: nat, d: nat)
    requires d < DESC_CNT
    ensures IsBlock(b, page, d) <==> b in BlockSet(page, d)
  {
    hide BlockAt, PerArena;
  }

  lemma DropArenas(h: Heap, d: nat, page: nat, h': Heap)
    requires InvBut(h, {page}) && d < DESC_CNT && page in h.arenas && h.arenas[page].Small? && h.arenas[page].desc == d
    requires h.base <= page < h.base + |h.used| && h' == DropArena(h, d, page)
    ensures ArenasOk(h', {})
  {
    hide BlockAt, PerArena, NoDup, Without, B.SetRange, FreeBlock, PagesOk, LiveOk, BlockSet;
    forall p | p in h'.arenas ensures if h'.arenas[p].Small? then SmallOk(h', p, {}) else BigBlock(p) in h'.live {
      if h.arenas[p].Small? {
        SmallAt(h, {page}, p);
        forall j: nat | j < PerArena(h.arenas[p].desc) ensures BlockAt(p, h.arenas[p].desc, j) !in BlockSet(page, d) {
          NotOfPage(p, h.arenas[p].desc, j, page, d);
        }
        SmallFrame(h, h', p, {page}, {});
      }
    }
  }

  lemma NotOfPage(p: nat, e: nat, j: nat, page: nat, d: nat)
    requires e < DESC_CNT && d < DESC_CNT && j < PerArena(e) && p != page
    ensures BlockAt(p, e, j) !in BlockSet(page, d)
  {
    hide BlockAt, PerArena, BlockSet;
    BlockInPage(p, e, j);
    InBlockSet(BlockAt(p, e, j), page, d);
    if IsBlock(BlockAt(p, e, j), page, d) {
      var i := BlockIdx(page, d, BlockAt(p, e, j));
      BlockInPage(page, d, i);
      assert false;
    }
  }

  /** A wholly free arena goes back to the pool; none of its blocks stays on a list. */
  lemma DropArenaStep(h: Heap, page: nat)
    requires InvBut(h, {page}) && page in h.arenas && h.arenas[page].Small? && h.arenas[page].desc < DESC_CNT
    requires h.arenas[page].freeCnt == PerArena(h.arenas[page].desc)
    ensures |h.free| == DESC_CNT && h.base <= page < h.base + |h.used|
    ensures B.AllAre(h.used, page - h.base, 1, true)
    ensures Inv(DropArena(h, h.arenas[page].desc, page))
    ensures forall i: nat {:trigger BlockAt(page, h.arenas[page].desc, i)} :: i < PerArena(h.arenas[page].desc) ==>
      BlockAt(page, h.arenas[page].desc, i) in h.free[h.arenas[page].desc]
  {
    hide BlockAt, PerArena, PagesOk, LiveOk, ListsOk, ArenasOk;
    ListsLen(h);
    ArenaInPool(h, page);
    var d := h.arenas[page].desc;
    SmallAt(h, {page}, page);
    FreeIdxCard(h.free[d], page, d);
    var h' := DropArena(h, d, page);
    DropPages(h, page, h');
    DropLists(h, d, page, h');
    DropArenas(h, d, page, h');
    forall b | b in h.live ensures PageOf(b) != page {
      WhollyFree(h, {page}, page, b);
    }
    FewerLive(h, h');
  }

  // ---- Big blocks

  lemma AddBigStep(h: Heap, page: nat, n: nat, size: nat)
    requires Inv(h) && 0 < page && 0 < n && h.base <= page && page - h.base + n <= |h.used|
    requires B.AllAre(h.used, page - h.base, n, false) && 0 < size && (size <= n * PGSIZE - HEADER <==> size < WRAPPED)
    ensures Inv(AddBig(h, page, n, size)) && BigBlock(page) !in h.live
  {
    hide BlockAt, PerArena, PagesOk, ListsOk, ArenasOk, LiveBlock, B.SetRange;
    var h' := AddBig(h, page, n, size);
    forall k: nat {:trigger PageUsed(h, k)} | page <= k < page + n ensures !PageUsed(h, k) {
    }
    AddPages(h, page, Big(n), h');
    BigPage(page);
    BigFresh(h, page);
    AddBigLists(h, page, n, size, h');
    AddBigArenas(h, page, n, size, h');
    AddBigLive(h, page, n, size, h');
  }

  lemma BigFresh(h: Heap, page: nat)
    requires LiveOk(h) && page !in h.arenas
    ensures BigBlock(page) !in h.live
  {
    BigPage(page);
    assert BigBlock(page) in h.live ==> LiveBlock(h, BigBlock(page));
  }

  lemma AddBigLists(h: Heap, page: nat, n: nat, size: nat, h': Heap)
    requires ListsOk(h) && page !in h.arenas && h.base <= page && page - h.base + n <= |h.used| && h' == AddBig(h, page, n, size)
    ensures ListsOk(h')
  {
    hide IsBlock, NoDup, B.SetRange;
    forall e, x | 0 <= e < DESC_CNT && x in h'.free[e] ensures FreeBlock(h', e, x) {
      assert FreeBlock(h, e, x);
    }
  }

  lemma AddBigArenas(h: Heap, page: nat, n: nat, size: nat, h': Heap)
    requires InvBut(h, {}) && page !in h.arenas && h.base <= page && page - h.base + n <= |h.used| && h' == AddBig(h, page, n, size)
    ensures ArenasOk(h', {})
  {
    hide BlockAt, PerArena, PagesOk, LiveOk, NoDup, FreeBlock, B.SetRange;
    BigPage(page);
    forall p | p in h'.arenas ensures if h'.arenas[p].Small? then SmallOk(h', p, {}) else BigBlock(p) in h'.live {
      if p != page && h.arenas[p].Small? {
        SmallAt(h, {}, p);
        forall j: nat | j < PerArena(h.arenas[p].desc) ensures BlockAt(p, h.arenas[p].desc, j) != BigBlock(page) {
          OtherPage(BigBlock(page), p, h.arenas[p].desc, j);
        }
        SmallFrame(h, h', p, {}, {});
      }
    }
  }

  lemma AddBigLive(h: Heap, page: nat, n: nat, size: nat, h': Heap)
    requires LiveOk(h) && page !in h.arenas && 0 < size && (size <= n * PGSIZE - HEADER <==> size < WRAPPED)
    requires h.base <= page && page - h.base + n <= |h.used| && h' == AddBig(h, page, n, size)
    ensures LiveOk(h')
  {
    hide IsBlock, B.SetRange, BigBlock;
    BigPage(page);
    forall b | b in h'.live ensures LiveBlock(h', b) {
      if b != BigBlock(page) {
        assert LiveBlock(h, b);
      }
    }
  }

  lemma DropBigStep(h: Heap, page: nat)
    requires Inv(h) && page in h.arenas && h.arenas[page].Big?
    ensures h.base <= page && page - h.base + h.arenas[page].pages <= |h.used|
    ensures B.AllAre(h.used, page - h.base, h.arenas[page].pages, true)
    ensures Inv(DropBig(h, page, h.arenas[page].pages))
  {
    hide BlockAt, PerArena, PagesOk, ListsOk, ArenasOk, LiveOk, B.SetRange;
    ArenaInPool(h, page);
    var n := h.arenas[page].pages;
    var h' := DropBig(h, page, n);
    DropPages(h, page, h');
    DropBigLists(h, page, n, h');
    DropBigArenas(h, page, n, h');
    forall b | b in h'.live ensures PageOf(b) != page {
      LiveAt(h, b);
    }
    FewerLive(h, h');
  }

  lemma DropBigLists(h: Heap, page: nat, n: nat, h': Heap)
    requires ListsOk(h) && page in h.arenas && h.arenas[page].Big?
    requires h.base <= page && page - h.base + n <= |h.used| && h' == DropBig(h, page, n)
    ensures ListsOk(h')
  {
    hide IsBlock, NoDup, B.SetRange;
    forall e, x | 0 <= e < DESC_CNT && x in h'.free[e] ensures FreeBlock(h', e, x) {
      assert FreeBlock(h, e, x);
    }
  }

  lemma DropBigArenas(h: Heap, page: nat, n: nat, h': Heap)
    requires Inv(h) && page in h.arenas && h.arenas[page].Big?
    requires h.base <= page && page - h.base + n <= |h.used| && h' == DropBig(h, page, n)
    ensures ArenasOk(h', {})
  {
    hide BlockAt, PerArena, PagesOk, LiveOk, NoDup, FreeBlock, B.SetRange;
    BigPage(page);
    forall p | p in h'.arenas ensures if h'.arenas[p].Small? then SmallOk(h', p, {}) else BigBlock(p) in h'.live {
      if h.arenas[p].Small? {
        SmallAt(h, {}, p);
        forall j: nat | j < PerArena(h.arenas[p].desc) ensures BlockAt(p, h.arenas[p].desc, j) != BigBlock(page) {
          OtherPage(BigBlock(page), p, h.arenas[p].desc, j);
        }
        SmallFrame(h, h', p, {}, {});
      } else {
        BigPage(p);
      }
    }
  }

  // ---- What the invariant gives

  /** The page of the block has an arena header. */
  ghost predicate InArena(h: Heap, b: nat) {
    PageOf(b) in h.arenas && (h.arenas[PageOf(b)].Small? ==> h.arenas[PageOf(b)].desc < DESC_CNT)
  }

  /** Usable bytes of a block handed out. */
  ghost function Usable(h: Heap, b: nat): int
    requires InArena(h, b)
  {
    match h.arenas[PageOf(b)]
    case Small(d, _) => BlockSize(d)
    case Big(n) => n * PGSIZE - HEADER
  }

  /** A block handed out lies inside its own pages past the header, and has at least the bytes requested
      exactly if the size requested did not wrap. */
  lemma LiveFits(h: Heap, b: nat)
    requires Inv(h) && b in h.live
    ensures InArena(h, b)
    ensures 0 < h.live[b] && (h.live[b] <= Usable(h, b) <==> h.live[b] < WRAPPED)
    ensures PageOf(b) * PGSIZE + HEADER <= b
    ensures b + Usable(h, b) <= (PageOf(b) + Span(h.arenas[PageOf(b)])) * PGSIZE
  {
    hide BlockAt, PerArena, PagesOk, ListsOk, ArenasOk, IsBlock, BlockSize;
    LiveAt(h, b);
    var p := PageOf(b);
    if h.arenas[p].Small? {
      var i := BlockIdx(p, h.arenas[p].desc, b);
      BlockInPage(p, h.arenas[p].desc, i);
    }
  }

  /** Blocks handed out do not overlap. */
  lemma LiveDisjoint(h: Heap, a: nat, b: nat)
    requires Inv(h) && a in h.live && b in h.live && a < b
    ensures InArena(h, a)
    ensures a + Usable(h, a) <= b
  {
    hide BlockAt, PerArena, ListsOk, ArenasOk, IsBlock, BlockSize;
    LiveFits(h, a);
    LiveFits(h, b);
    LiveAt(h, a);
    LiveAt(h, b);
    var p: nat, q: nat := PageOf(a), PageOf(b);
    if p == q {
      assert h.arenas[p].Small?;
      var d := h.arenas[p].desc;
      var i := BlockIdx(p, d, a);
      var j := BlockIdx(p, d, b);
      if j <= i {
        Ordered(p, d, j, i);
        assert false;
      }
      BlocksApart(p, d, i, j);
    } else {
      PageOrder(a, b);
      PagesOrder(p + Span(h.arenas[p]), q);
    }
  }

  lemma Ordered(p: nat, d: nat, j: nat, i: nat)
    requires d < DESC_CNT && j <= i
    ensures BlockAt(p, d, j) <= BlockAt(p, d, i)
  {
    if j < i {
      BlocksApart(p, d, j, i);
    }
  }

  lemma PageOrder(a: nat, b: nat)
    requires a <= b
    ensures PageOf(a) <= PageOf(b)
  {
  }

  lemma PagesOrder(p: nat, q: nat)
    requires p <= q
    ensures p * PGSIZE <= q * PGSIZE
  {
  }

  /** An arena stays allocated exactly while one of its blocks is handed out. */
  lemma ArenaHasLive(h: Heap, page: nat)
    requires Inv(h)
    ensures page in h.arenas <==> exists b :: b in h.live && PageOf(b) == page
  {
    hide BlockAt, PerArena, PagesOk, NoDup, IsBlock, FreeBlock;
    if page in h.arenas {
      if h.arenas[page].Small? {
        var d := h.arenas[page].desc;
        SmallAt(h, {}, page);
        var i := BusyBlock(h, page);
        BlockInPage(page, d, i);
      } else {
        BigPage(page);
      }
    }
    forall b | b in h.live ensures PageOf(b) in h.arenas {
      LiveAt(h, b);
    }
  }

  lemma BusyBlock(h: Heap, page: nat) returns (i: nat)
    requires |h.free| == DESC_CNT && page in h.arenas && h.arenas[page].Small? && SmallOk(h, page, {})
    ensures i < PerArena(h.arenas[page].desc) && BlockAt(page, h.arenas[page].desc, i) in h.live
  {
    hide BlockAt, PerArena;
    var d := h.arenas[page].desc;
    var idx := FreeIdx(h.free[d], page, d);
    if forall j: nat :: j < PerArena(d) ==> j in idx {
      FullRange(idx, PerArena(d));
      assert false;
    }
    i :| i < PerArena(d) && i !in idx;
  }

  /** Other users of the pool may take and give back pages that are not arenas. */
  lemma OtherPages(h: Heap, used: seq<bool>)
    requires Inv(h) && |used| == |h.used|
    requires forall k: nat {:trigger PageUsed(h, k)} :: PageUsed(h, k) && used[k - h.base] == false ==>
      forall p {:trigger p in h.arenas} :: p in h.arenas ==> !(p <= k < p + Span(h.arenas[p]))
    ensures Inv(h.(used := used))
  {
    hide BlockAt, PerArena, ListsOk, SmallOk, LiveOk;
    var h' := h.(used := used);
    forall p: nat, k: nat {:trigger p in h'.arenas, PageUsed(h', k)} | p in h'.arenas && p <= k < p + Span(h'.arenas[p]) ensures PageUsed(h', k) {
      assert PageUsed(h, k);
    }
    OtherSame(h, h');
  }

  lemma OtherSame(h: Heap, h': Heap)
    requires InvBut(h, {}) && h'.arenas == h.arenas && h'.free == h.free && h'.live == h.live
    ensures ListsOk(h') && ArenasOk(h', {}) && LiveOk(h')
  {
    hide BlockAt, PerArena, PagesOk, NoDup, IsBlock;
    forall e, x | 0 <= e < DESC_CNT && x in h'.free[e] ensures FreeBlock(h', e, x) {
      assert FreeBlock(h, e, x);
    }
    forall p | p in h'.arenas && h'.arenas[p].Small? ensures SmallOk(h', p, {}) {
      SmallAt(h, {}, p);
      SmallFrame(h, h', p, {}, {});
    }
    forall b | b in h'.live ensures LiveBlock(h', b) {
      LiveAt(h, b);
    }
  }
}
