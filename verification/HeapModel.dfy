/** The block allocator (threads/malloc.c): pages cut into blocks of one size, with the free blocks of
    each size on a list, over a pool of pages (threads/palloc.c). */
module HeapModel {
  import opened Common
  import opened Arithmetic
  import B = Bitmap

  const HEADER: nat := 12
  const DESC_CNT: nat := 7

  /** From this size on, size and header together wrap around to a small positive number. */
  const WRAPPED: nat := B32 - 11

  /** Block sizes of the descriptors, smallest first. */
  const SIZES: seq<nat> := [16, 32, 64, 128, 256, 512, 1024]

  /** A page's arena header: a small arena counts free blocks, a big one its pages. */
  datatype Arena = Small(desc: nat, freeCnt: nat) | Big(pages: nat)

  /** `used` marks the pages of the pool, which start at page `base`; `free` holds one list of block
      addresses per descriptor; `live` holds the blocks handed out with the sizes requested. */
  datatype Heap = Heap(base: nat, used: seq<bool>, arenas: map<nat, Arena>, free: seq<seq<nat>>, live: map<nat, nat>)

  function BlockSize(d: nat): nat
    requires d < DESC_CNT
  {
    SIZES[d]
  }

  function PerArena(d: nat): nat
    requires d < DESC_CNT
  {
    (PGSIZE - HEADER) / SIZES[d]
  }

  /** `arena_to_block`. */
  function BlockAt(page: nat, d: nat, i: nat): nat
    requires d < DESC_CNT
  {
    page * PGSIZE + HEADER + i * BlockSize(d)
  }

  /** `pg_round_down`, as a page number. */
  function PageOf(addr: nat): nat { addr / PGSIZE }

  function BigBlock(page: nat): nat { page * PGSIZE + HEADER }

  // ---- Address arithmetic

  /** Block sizes double from 16 to 1024, and a page holds as many blocks as fit after its header. */
  lemma SizesOk(d: nat)
    requires d < DESC_CNT
    ensures 16 <= BlockSize(d) <= 1024 && 1 < PerArena(d) && PerArena(d) * BlockSize(d) <= PGSIZE - HEADER
    ensures PGSIZE - HEADER < (PerArena(d) + 1) * BlockSize(d)
    ensures BlockSize(0) == 16 && (d + 1 < DESC_CNT ==> BlockSize(d + 1) == 2 * BlockSize(d))
  {
  }

  lemma Multiples(i: nat, j: nat, s: nat)
    requires i < j
    ensures i * s + s <= j * s
    decreases j - i
  {
    assert (i + 1) * s == i * s + s;
    if i + 1 < j {
      Multiples(i + 1, j, s);
    }
  }

  /** A block lies inside its page, past the header. */
  lemma BlockInPage(page: nat, d: nat, i: nat)
    requires d < DESC_CNT && i < PerArena(d)
    ensures page * PGSIZE + HEADER <= BlockAt(page, d, i)
    ensures BlockAt(page, d, i) + BlockSize(d) <= (page + 1) * PGSIZE
    ensures PageOf(BlockAt(page, d, i)) == page
  {
    hide BlockSize, PerArena;
    SizesOk(d);
    Multiples(i, PerArena(d), BlockSize(d));
  }

  lemma BlocksApart(page: nat, d: nat, i: nat, j: nat)
    requires d < DESC_CNT && i < j
    ensures BlockAt(page, d, i) + BlockSize(d) <= BlockAt(page, d, j)
    ensures BlockAt(page, d, i) != BlockAt(page, d, j)
  {
    SizesOk(d);
    Multiples(i, j, BlockSize(d));
  }

  // ---- Heap invariant

  ghost predicate PageUsed(h: Heap, page: nat) {
    h.base <= page < h.base + |h.used| && h.used[page - h.base]
  }

  /** Some block of the page. */
  ghost predicate IsBlock(addr: nat, page: nat, d: nat)
    requires d < DESC_CNT
  {
    exists i: nat :: i < PerArena(d) && addr == BlockAt(page, d, i)
  }

  /** The blocks of a page that are on its descriptor's list. */
  ghost function FreeIdx(list: seq<nat>, page: nat, d: nat): set<nat>
    requires d < DESC_CNT
  {
    set i | 0 <= i < PerArena(d) && BlockAt(page, d, i) in list
  }

  function Span(a: Arena): nat { if a.Small? then 1 else a.pages }

  /** Arenas occupy used pages, each its own. */
  ghost predicate PagesOk(h: Heap) {
    && (forall p, k {:trigger p in h.arenas, PageUsed(h, k)} :: p in h.arenas && p <= k < p + Span(h.arenas[p]) ==> PageUsed(h, k))
    && (forall p, q {:trigger p in h.arenas, q in h.arenas} :: p in h.arenas && q in h.arenas && p < q ==> p + Span(h.arenas[p]) <= q)
    && (forall p {:trigger p in h.arenas} :: p in h.arenas ==> 0 < p && 0 < Span(h.arenas[p]))
  }

  /** A small arena counts its free blocks; each block is free or handed out, not both; and some
      block is handed out, unless the page is the one exempted. */
  ghost predicate SmallOk(h: Heap, page: nat, loose: set<nat>)
    requires page in h.arenas && h.arenas[page].Small? && |h.free| == DESC_CNT
  {
    var a := h.arenas[page];
    && a.desc < DESC_CNT
    && a.freeCnt == |FreeIdx(h.free[a.desc], page, a.desc)|
    && (a.freeCnt < PerArena(a.desc) || page in loose)
    && forall i: nat {:trigger BlockAt(page, a.desc, i)} :: i < PerArena(a.desc) ==>
         (BlockAt(page, a.desc, i) in h.free[a.desc] <==> BlockAt(page, a.desc, i) !in h.live)
  }

  ghost predicate ArenasOk(h: Heap, loose: set<nat>)
    requires |h.free| == DESC_CNT
  {
    forall p {:trigger p in h.arenas} :: p in h.arenas ==>
      if h.arenas[p].Small? then SmallOk(h, p, loose) else BigBlock(p) in h.live
  }

  /** The lists hold blocks of arenas of their descriptor, each once. */
  ghost predicate ListsOk(h: Heap) {
    && |h.free| == DESC_CNT
    && (forall d {:trigger h.free[d]} :: 0 <= d < DESC_CNT ==> NoDup(h.free[d]))
    && (forall d, b {:trigger b in h.free[d]} :: 0 <= d < DESC_CNT && b in h.free[d] ==> FreeBlock(h, d, b))
  }

  ghost predicate FreeBlock(h: Heap, d: nat, b: nat)
    requires d < DESC_CNT
  {
    && PageOf(b) in h.arenas && h.arenas[PageOf(b)].Small? && h.arenas[PageOf(b)].desc == d
    && IsBlock(b, PageOf(b), d)
  }

  /** A block handed out belongs to an arena, and is big enough unless the size requested wrapped. */
  ghost predicate LiveBlock(h: Heap, b: nat)
    requires b in h.live
  {
    && PageOf(b) in h.arenas
    && match h.arenas[PageOf(b)]
       case Small(d, _) => d < DESC_CNT && IsBlock(b, PageOf(b), d) && 0 < h.live[b] <= BlockSize(d)
       case Big(n) => b == BigBlock(PageOf(b)) && 0 < h.live[b] && (h.live[b] <= n * PGSIZE - HEADER <==> h.live[b] < WRAPPED)
  }

  ghost predicate LiveOk(h: Heap) {
    forall b {:trigger b in h.live} :: b in h.live ==> LiveBlock(h, b)
  }

  /** The invariant, with arenas in `loose` allowed to have no block handed out. */
  ghost predicate InvBut(h: Heap, loose: set<nat>) {
    ListsOk(h) && PagesOk(h) && ArenasOk(h, loose) && LiveOk(h)
  }

  ghost predicate Inv(h: Heap) { InvBut(h, {}) }

  // ---- Steps

  /** The first n blocks of a page, in order. */
  function Blocks(page: nat, d: nat, n: nat): (r: seq<nat>)
    requires d < DESC_CNT
    ensures |r| == n && forall i {:trigger r[i]} :: 0 <= i < n ==> r[i] == BlockAt(page, d, i)
  {
    seq(n, i requires 0 <= i < n => BlockAt(page, d, i))
  }

  /** A list without the elements of a set. */
  function Without(s: seq<nat>, gone: set<nat>): (r: seq<nat>)
    ensures forall x {:trigger x in r} :: x in r <==> x in s && x !in gone
    ensures NoDup(s) ==> NoDup(r)
  {
    if s == [] then []
    else
      var rest := Without(s[1..], gone);
      NoDupRest(s);
      NoDupCons(s[0], rest);
      if s[0] in gone then rest else [s[0]] + rest
  }

  lemma NoDupRest(s: seq<nat>)
    requires s != []
    ensures NoDup(s) ==> NoDup(s[1..]) && s[0] !in s[1..]
  {
  }

  lemma NoDupCons(x: nat, s: seq<nat>)
    ensures NoDup(s) && x !in s ==> NoDup([x] + s)
  {
  }

  /** A new page becomes an arena whose blocks all go to the end of the list. */
  function AddArena(h: Heap, d: nat, page: nat): Heap
    requires d < DESC_CNT && |h.free| == DESC_CNT && h.base <= page < h.base + |h.used|
  {
    h.(used := B.SetRange(h.used, page - h.base, 1, true),
       arenas := h.arenas[page := Small(d, PerArena(d))],
       free := h.free[d := h.free[d] + Blocks(page, d, PerArena(d))])
  }

  /** The block at the front of the list is handed out. */
  function Pop(h: Heap, d: nat, size: nat): Heap
    requires d < DESC_CNT && |h.free| == DESC_CNT && h.free[d] != []
    requires PageOf(h.free[d][0]) in h.arenas && h.arenas[PageOf(h.free[d][0])].Small?
    requires 0 < h.arenas[PageOf(h.free[d][0])].freeCnt
  {
    var b := h.free[d][0];
    var a := h.arenas[PageOf(b)];
    h.(free := h.free[d := h.free[d][1..]],
       arenas := h.arenas[PageOf(b) := a.(freeCnt := a.freeCnt - 1)],
       live := h.live[b := size])
  }

  /** A block comes back to the front of its list. */
  function Push(h: Heap, b: nat): Heap
    requires PageOf(b) in h.arenas && h.arenas[PageOf(b)].Small?
    requires h.arenas[PageOf(b)].desc < DESC_CNT && |h.free| == DESC_CNT
  {
    var a := h.arenas[PageOf(b)];
    h.(free := h.free[a.desc := [b] + h.free[a.desc]],
       arenas := h.arenas[PageOf(b) := a.(freeCnt := a.freeCnt + 1)],
       live := h.live - {b})
  }

  /** An arena's blocks leave the list and its page goes back to the pool. */
  function DropArena(h: Heap, d: nat, page: nat): Heap
    requires d < DESC_CNT && |h.free| == DESC_CNT && h.base <= page < h.base + |h.used|
  {
    h.(used := B.SetRange(h.used, page - h.base, 1, false),
       arenas := h.arenas - {page},
       free := h.free[d := Without(h.free[d], BlockSet(page, d))])
  }

  function BlockSet(page: nat, d: nat): set<nat>
    requires d < DESC_CNT
  {
    set i | 0 <= i < PerArena(d) :: BlockAt(page, d, i)
  }

  /** A run of pages for one big block. */
  function AddBig(h: Heap, page: nat, n: nat, size: nat): Heap
    requires h.base <= page && page - h.base + n <= |h.used|
  {
    h.(used := B.SetRange(h.used, page - h.base, n, true), arenas := h.arenas[page := Big(n)],
       live := h.live[BigBlock(page) := size])
  }

  function DropBig(h: Heap, page: nat, n: nat): Heap
    requires h.base <= page && page - h.base + n <= |h.used|
  {
    h.(used := B.SetRange(h.used, page - h.base, n, false), arenas := h.arenas - {page},
       live := h.live - {BigBlock(page)})
  }
}
