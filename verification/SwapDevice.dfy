/** The swap device of vm/swap.c by sector: a slot is eight consecutive sectors, and pages are
    copied in and out one sector at a time. */
module SwapDevice {
  import opened Common
  import opened Paging

  const BLOCK_PER_PAGE: nat := 8

  /** The contents of slot k of a device. */
  ghost function SlotBytes(sectors: seq<Bytes>, k: nat): Bytes
    requires (k + 1) * BLOCK_PER_PAGE <= |sectors|
  {
    Joined(sectors[k * BLOCK_PER_PAGE..(k + 1) * BLOCK_PER_PAGE])
  }

  ghost function SlotsOf(sectors: seq<Bytes>, n: nat): seq<Bytes>
    requires n * BLOCK_PER_PAGE <= |sectors|
  {
    seq(n, k requires 0 <= k < n => SlotBytes(sectors, k))
  }

  ghost function Joined(parts: seq<Bytes>): Bytes {
    if parts == [] then [] else Joined(parts[..|parts| - 1]) + parts[|parts| - 1]
  }

  lemma {:induction false} JoinedPieces(page: Bytes, n: nat, parts: seq<Bytes>)
    requires |parts| == n && n * SECTOR_SIZE <= |page|
    requires forall i :: 0 <= i < n ==> parts[i] == page[i * SECTOR_SIZE..(i + 1) * SECTOR_SIZE]
    ensures Joined(parts) == page[..n * SECTOR_SIZE]
  {
    if n > 0 {
      JoinedPieces(page, n - 1, parts[..n - 1]);
      assert page[..n * SECTOR_SIZE] == page[..(n - 1) * SECTOR_SIZE] + page[(n - 1) * SECTOR_SIZE..n * SECTOR_SIZE];
    }
  }

  class Device {
    const sectors: array<Bytes>
    var swapMap: seq<bool>
    /** Whether `swap_lock` is held. */
    var locked: bool

    constructor (sectors: array<Bytes>)
      ensures this.sectors == sectors && Valid() && !locked && forall k :: 0 <= k < |swapMap| ==> !swapMap[k]
    {
      this.sectors := sectors;
      swapMap := seq(sectors.Length / BLOCK_PER_PAGE, _ => false);
      locked := false;
    }

    ghost predicate Valid()
      reads this
    {
      |swapMap| == sectors.Length / BLOCK_PER_PAGE
    }

    ghost function Slot(k: nat): Bytes
      requires Valid() && k < |swapMap|
      reads this, sectors
    {
      SlotBytes(sectors[..], k)
    }

    ghost function Slots(): seq<Bytes>
      requires Valid()
      reads this, sectors
    {
      SlotsOf(sectors[..], |swapMap|)
    }

    /** `swap_out`: the first free slot gets the page, and no other slot changes.  When no slot
        is free the function returns with the lock still held. */
    method SwapOut(page: Bytes) returns (slot: Option<nat>)
      requires Valid() && !locked && |page| == PGSIZE
      modifies this, sectors
      ensures Valid()
      ensures slot.Some? <==> HasFree(old(swapMap))
      ensures locked <==> slot.None?
      ensures slot.None? ==> swapMap == old(swapMap) && sectors[..] == old(sectors[..]) && Slots() == old(Slots())
      ensures slot.Some? ==>
        && slot.value == FirstFree(old(swapMap)) && swapMap == old(swapMap)[slot.value := true]
        && Slot(slot.value) == page && Slots() == old(Slots())[slot.value := page]
    {
      locked := true;
      var k := FirstFree(swapMap);
      if k == |swapMap| {
        return None;
      }
      swapMap := swapMap[k := true];
      var base := k * BLOCK_PER_PAGE;
      for i := 0 to BLOCK_PER_PAGE
        invariant swapMap == old(swapMap)[k := true] && locked
        invariant forall j :: 0 <= j < i ==> sectors[base + j] == page[j * SECTOR_SIZE..(j + 1) * SECTOR_SIZE]
        invariant forall j :: 0 <= j < sectors.Length && !(base <= j < base + i) ==> sectors[j] == old(sectors[j])
      {
        sectors[base + i] := page[i * SECTOR_SIZE..(i + 1) * SECTOR_SIZE];
      }
      locked := false;
      ghost var s := sectors[..];
      SlotIsPage(s, k, page);
      forall m | 0 <= m < |swapMap| && m != k ensures SlotBytes(s, m) == SlotBytes(old(sectors[..]), m) {
        OtherSlot(old(sectors[..]), s, k, m);
      }
      assert Slots() == old(Slots())[k := page];
      return Some(k);
    }

    /** `swap_in`: a used slot is read back and freed.  A slot that is not marked used is left
        alone, with the lock still held. */
    method SwapIn(k: nat) returns (page: Option<Bytes>)
      requires Valid() && !locked && k < |swapMap|
      modifies this
      ensures Valid() && (page.Some? <==> old(swapMap)[k]) && (locked <==> page.None?)
      ensures |Slots()| == |swapMap| && Slots() == old(Slots())
      ensures page.Some? ==> page.value == Slots()[k] && swapMap == old(swapMap)[k := false]
      ensures page.None? ==> swapMap == old(swapMap)
    {
      locked := true;
      if !swapMap[k] {
        return None;
      }
      var base := k * BLOCK_PER_PAGE;
      var buffer: Bytes := [];
      for i := 0 to BLOCK_PER_PAGE
        invariant swapMap == old(swapMap) && locked
        invariant buffer == Joined(sectors[base..base + i])
      {
        assert sectors[base..base + i + 1][..i] == sectors[base..base + i];
        buffer := buffer + sectors[base + i];
      }
      assert sectors[..][k * BLOCK_PER_PAGE..(k + 1) * BLOCK_PER_PAGE] == sectors[base..base + BLOCK_PER_PAGE];
      swapMap := swapMap[k := !swapMap[k]];
      locked := false;
      return Some(buffer);
    }
  }

  lemma SlotIsPage(s: seq<Bytes>, k: nat, page: Bytes)
    requires (k + 1) * BLOCK_PER_PAGE <= |s| && |page| == PGSIZE
    requires forall j :: 0 <= j < BLOCK_PER_PAGE ==> s[k * BLOCK_PER_PAGE + j] == page[j * SECTOR_SIZE..(j + 1) * SECTOR_SIZE]
    ensures SlotBytes(s, k) == page
  {
    JoinedPieces(page, BLOCK_PER_PAGE, s[k * BLOCK_PER_PAGE..(k + 1) * BLOCK_PER_PAGE]);
    assert page[..PGSIZE] == page;
  }

  lemma OtherSlot(s: seq<Bytes>, t: seq<Bytes>, k: nat, m: nat)
    requires |t| == |s| && m != k && (m + 1) * BLOCK_PER_PAGE <= |s|
    requires forall j :: 0 <= j < |s| && !(k * BLOCK_PER_PAGE <= j < (k + 1) * BLOCK_PER_PAGE) ==> t[j] == s[j]
    ensures SlotBytes(t, m) == SlotBytes(s, m)
  {
    assert t[m * BLOCK_PER_PAGE..(m + 1) * BLOCK_PER_PAGE] == s[m * BLOCK_PER_PAGE..(m + 1) * BLOCK_PER_PAGE];
  }
}
