/** `malloc` and `free` as code over a page pool, proved to take exactly the steps of the model. */
module HeapObject {
  import opened Common
  import opened Arithmetic
  import B = Bitmap
  import opened HeapModel
  import opened HeapProof
  import opened HeapRuns

  /** The first n blocks of a page, as a set. */
  function FirstBlocks(page: nat, d: nat, n: nat): set<nat>
    requires d < DESC_CNT
  {
    set i | 0 <= i < n :: BlockAt(page, d, i)
  }

  lemma FirstBlocksNext(page: nat, d: nat, n: nat)
    requires d < DESC_CNT
    ensures FirstBlocks(page, d, n + 1) == FirstBlocks(page, d, n) + {BlockAt(page, d, n)}
  {
    hide BlockAt;
  }

  lemma {:induction false} WithoutTwice(s: seq<nat>, gone: set<nat>, x: nat)
    ensures Without(Without(s, gone), {x}) == Without(s, gone + {x})
  {
    if s != [] {
      WithoutTwice(s[1..], gone, x);
      var rest := Without(s[1..], gone);
      assert ([s[0]] + rest)[1..] == rest;
    }
  }

  lemma {:induction false} WithoutNone(s: seq<nat>)
    ensures Without(s, {}) == s
  {
    if s != [] {
      WithoutNone(s[1..]);
    }
  }

  /** `malloc_init`: one descriptor for each power of two from 16 up to less than half a page. */
  method MallocInit() returns (sizes: seq<nat>)
    ensures sizes == SIZES
  {
    sizes := [];
    var blockSize := 16;
    while blockSize < PGSIZE / 2
      invariant |sizes| <= DESC_CNT && sizes == SIZES[..|sizes|]
      invariant blockSize == if |sizes| < DESC_CNT then SIZES[|sizes|] else 2048
      decreases DESC_CNT - |sizes|
    {
      sizes := sizes + [blockSize];
      blockSize := blockSize * 2;
    }
  }

  class Allocator {
    const base: nat
    const pool: B.Packed
    var arenas: map<nat, Arena>
    var free: seq<seq<nat>>
    ghost var live: map<nat, nat>

    ghost function Model(): Heap
      reads this, pool
    {
      Heap(base, pool.bits, arenas, free, live)
    }

    ghost predicate Valid()
      reads this, pool, pool.words
    {
      pool.Valid() && 0 < base && |free| == DESC_CNT
    }

    constructor (base: nat, pool: B.Packed)
      requires 0 < base && pool.Valid()
      ensures Valid() && this.pool == pool && Model() == Empty(base, pool.bits)
    {
      this.base, this.pool := base, pool;
      arenas, free, live := map[], seq(DESC_CNT, _ => []), map[];
    }

    /** `palloc_get_multiple`, as a page number. */
    method GetPages(n: nat) returns (page: Option<nat>)
      requires Valid()
      modifies pool`bits, pool.words
      ensures Valid()
      ensures n == 0 ==> page == None
      ensures n > 0 ==> page == match B.FirstGroup(old(pool.bits), 0, n, false) case None => None case Some(k) => Some(base + k)
      ensures page.None? ==> pool.bits == old(pool.bits)
      ensures page.Some? ==> page.value - base + n <= |old(pool.bits)| && pool.bits == B.SetRange(old(pool.bits), page.value - base, n, true)
    {
      hide B.FirstGroup, B.SetRange;
      if n == 0 {
        return None;
      }
      var k := pool.ScanAndFlip(0, n, false);
      page := if k.None? then None else Some(base + k.value);
    }

    /** `palloc_free_multiple`. */
    method FreePages(page: nat, n: nat)
      requires Valid() && base <= page && B.AllAre(pool.bits, page - base, n, true)
      modifies pool`bits, pool.words
      ensures Valid() && pool.bits == B.SetRange(old(pool.bits), page - base, n, false)
    {
      hide B.SetRange;
      pool.SetMultiple(page - base, n, false);
    }

    /** A new arena: every block goes to the back of the list, in order. */
    method CutArena(d: nat, page: nat)
      requires Valid() && d < DESC_CNT
      modifies this`arenas, this`free
      ensures Valid() && arenas == old(arenas)[page := Small(d, PerArena(d))]
      ensures free == old(free)[d := old(free)[d] + Blocks(page, d, PerArena(d))]
    {
      hide BlockAt, PerArena;
      arenas := arenas[page := Small(d, PerArena(d))];
      assert free[d] + Blocks(page, d, 0) == free[d];
      for i := 0 to PerArena(d)
        invariant |free| == DESC_CNT && arenas == old(arenas)[page := Small(d, PerArena(d))]
        invariant free == old(free)[d := old(free)[d] + Blocks(page, d, i)]
      {
        free := free[d := free[d] + [BlockAt(page, d, i)]];
        assert Blocks(page, d, i + 1) == Blocks(page, d, i) + [BlockAt(page, d, i)];
        assert old(free)[d] + Blocks(page, d, i + 1) == old(free)[d] + Blocks(page, d, i) + [BlockAt(page, d, i)];
      }
    }

    /** The arena's blocks leave the list one by one. */
    method DropBlocks(d: nat, page: nat)
      requires Valid() && d < DESC_CNT
      modifies this`free
      ensures Valid() && free == old(free)[d := Without(old(free)[d], BlockSet(page, d))]
    {
      hide BlockAt, PerArena, Without;
      WithoutNone(free[d]);
      assert FirstBlocks(page, d, 0) == {};
      for i := 0 to PerArena(d)
        invariant |free| == DESC_CNT
        invariant free == old(free)[d := Without(old(free)[d], FirstBlocks(page, d, i))]
      {
        free := free[d := Without(free[d], {BlockAt(page, d, i)})];
        FirstBlocksNext(page, d, i);
        WithoutTwice(old(free)[d], FirstBlocks(page, d, i), BlockAt(page, d, i));
      }
      assert FirstBlocks(page, d, PerArena(d)) == BlockSet(page, d);
    }

    /** `malloc`. */
    method Malloc(size: U32) returns (p: nat)
      requires Valid() && Inv(Model())
      modifies this`arenas, this`free, this`live, pool`bits, pool.words
      ensures Valid() && (Model(), p) == AfterMalloc(old(Model()), size) && Inv(Model())
      ensures p == 0 <==> Fails(old(Model()), size)
      ensures p != 0 ==> p !in old(live) && live == old(live)[p := size]
    {
      hide InvBut, Inv, B.FirstGroup, B.SetRange, PerArena, BlockAt, PageUsed, IsBlock, Fails;
      ghost var h := Model();
      if size == 0 {
        return 0;
      }
      var d := 0;
      while d < DESC_CNT && SIZES[d] < size
        invariant d <= DESC_CNT && DescFor(size) == DescFrom(size, d)
      {
        d := d + 1;
      }
      if d == DESC_CNT {
        var n := ((size + HEADER) % B32 + PGSIZE - 1) % B32 / PGSIZE;
        var a := GetPages(n);
        if a.None? {
          return 0;
        }
        arenas := arenas[a.value := Big(n)];
        p := BigBlock(a.value);
        live := live[p := size];
        return;
      }
      p := MallocSmall(d, size);
    }

    /** The part of `malloc` that a descriptor serves. */
    method MallocSmall(d: nat, size: U32) returns (p: nat)
      requires Valid() && Inv(Model()) && 0 < size && d == DescFor(size) && d < DESC_CNT
      modifies this`arenas, this`free, this`live, pool`bits, pool.words
      ensures Valid() && (Model(), p) == AfterMalloc(old(Model()), size)
    {
      hide InvBut, B.FirstGroup, B.SetRange, PerArena, BlockAt, PageUsed, IsBlock, Fails, DescFor, Blocks;
      ghost var h := Model();
      ghost var after := AfterMalloc(h, size);
      if free[d] == [] {
        var a := GetPages(1);
        if a.None? {
          return 0;
        }
        ArenaReady(h, d, a.value, size);
        CutArena(d, a.value);
      } else {
        TakeFront(h, {}, d, size);
      }
      p := free[d][0];
      free := free[d := free[d][1..]];
      var page := PageOf(p);
      arenas := arenas[page := arenas[page].(freeCnt := arenas[page].freeCnt - 1)];
      live := live[p := size];
    }

    /** `free`. */
    method Free(p: nat)
      requires Valid() && Inv(Model()) && (p == 0 || p in live)
      modifies this`arenas, this`free, this`live, pool`bits, pool.words
      ensures Valid() && Model() == AfterFree(old(Model()), p)
      ensures Inv(Model()) && live == old(live) - {p}
    {
      hide InvBut, Inv, B.SetRange, PerArena, Without, LiveBlock, BlockAt;
      ghost var h := Model();
      if p == 0 {
        return;
      }
      ArenaOf(h, p);
      var page := PageOf(p);
      match arenas[page] {
        case Big(n) =>
          DropBigStep(h, page);
          FreePages(page, n);
          arenas := arenas - {page};
          live := live - {p};
        case Small(d, cnt) =>
          PushStep(h, p);
          free := free[d := [p] + free[d]];
          arenas := arenas[page := Small(d, cnt + 1)];
          live := live - {p};
          if cnt + 1 >= PerArena(d) {
            DropArenaStep(Push(h, p), page);
            DropBlocks(d, page);
            FreePages(page, 1);
            arenas := arenas - {page};
          }
      }
    }
  }

  /** After a page is cut, the front block can be handed out. */
  lemma ArenaReady(h: Heap, d: nat, page: nat, size: nat)
    requires Inv(h) && 0 < h.base && |h.free| == DESC_CNT && d < DESC_CNT && h.free[d] == [] && 0 < size <= BlockSize(d)
    requires B.FirstGroup(h.used, 0, 1, false).Some? && page == h.base + B.FirstGroup(h.used, 0, 1, false).value
    ensures h.base <= page < h.base + |h.used|
    ensures var h1 := AddArena(h, d, page);
      && |h1.free| == DESC_CNT && h1.free[d] != []
      && PageOf(h1.free[d][0]) in h1.arenas && h1.arenas[PageOf(h1.free[d][0])].Small?
      && 0 < h1.arenas[PageOf(h1.free[d][0])].freeCnt
  {
    hide InvBut, Inv, B.FirstGroup, B.SetRange, PerArena, BlockAt, PageUsed, IsBlock;
    FreeGroup(h, page - h.base, 1);
    AddArenaStep(h, d, page);
    AddArenaRest(h, d, page);
    TakeFront(AddArena(h, d, page), {page}, d, size);
  }
}
