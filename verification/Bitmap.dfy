/** Bitmaps (lib/kernel/bitmap.c): a sequence of bits packed into 32-bit elements. */
module Bitmap {
  import opened Common

  const ELEM_BITS: nat := 32

  // ---- Bits as a sequence

  /** The cnt bits from start on exist and all equal value. */
  predicate AllAre(bits: seq<bool>, start: nat, cnt: nat, value: bool) {
    && start + cnt <= |bits|
    && forall i {:trigger bits[i]} :: start <= i < start + cnt ==> bits[i] == value
  }

  function SetRange(bits: seq<bool>, start: nat, cnt: nat, value: bool): (r: seq<bool>)
    requires start + cnt <= |bits|
    ensures |r| == |bits|
    ensures forall i {:trigger r[i]} :: 0 <= i < |r| ==> r[i] == if start <= i < start + cnt then value else bits[i]
  {
    seq(|bits|, i requires 0 <= i < |bits| => if start <= i < start + cnt then value else bits[i])
  }

  /** The first group of cnt bits at or after start that all equal value. */
  function FirstGroup(bits: seq<bool>, start: nat, cnt: nat, value: bool): (r: Option<nat>)
    ensures r.Some? ==>
      && start <= r.value && AllAre(bits, r.value, cnt, value)
      && forall j {:trigger AllAre(bits, j, cnt, value)} :: start <= j < r.value ==> !AllAre(bits, j, cnt, value)
    ensures r.None? ==> forall j {:trigger AllAre(bits, j, cnt, value)} :: start <= j ==> !AllAre(bits, j, cnt, value)
    decreases |bits| + 1 - start
  {
    if start > |bits| then None
    else if AllAre(bits, start, cnt, value) then Some(start)
    else FirstGroup(bits, start + 1, cnt, value)
  }

  /** How many of the cnt bits from start on equal value. */
  function Tally(bits: seq<bool>, start: nat, cnt: nat, value: bool): nat
    requires start + cnt <= |bits|
  {
    if cnt == 0 then 0
    else Tally(bits, start, cnt - 1, value) + if bits[start + cnt - 1] == value then 1 else 0
  }

  ghost function Positions(bits: seq<bool>, start: nat, cnt: nat, value: bool): set<nat>
    requires start + cnt <= |bits|
  {
    set i: nat | start <= i < start + cnt && bits[i] == value
  }

  lemma LastPosition(bits: seq<bool>, start: nat, cnt: nat, value: bool)
    requires start + cnt <= |bits| && 0 < cnt
    ensures var last := start + cnt - 1;
      var front := Positions(bits, start, cnt - 1, value);
      last !in front && Positions(bits, start, cnt, value) == front + if bits[last] == value then {last} else {}
  {
  }

  /** It is the number of their positions. */
  lemma {:induction false} TallyIs(bits: seq<bool>, start: nat, cnt: nat, value: bool)
    requires start + cnt <= |bits|
    ensures Tally(bits, start, cnt, value) == |Positions(bits, start, cnt, value)|
    decreases cnt
  {
    if cnt == 0 {
      assert Positions(bits, start, 0, value) == {};
    } else {
      hide Positions;
      TallyIs(bits, start, cnt - 1, value);
      LastPosition(bits, start, cnt, value);
    }
  }

  // ---- Bits in an element

  /** `bit_mask`, for a position inside one element. */
  function Mask(k: nat): bv32
    requires k < ELEM_BITS
  {
    1 << k
  }

  function InBoth(w: bv32, m: bv32): bv32 { w & m }

  predicate Hits(w: bv32, m: bv32) { InBoth(w, m) != 0 }

  predicate Disjoint(m: bv32, n: bv32) { m & n == 0 }

  function SetIn(w: bv32, m: bv32): bv32 { w | m }

  function ClearIn(w: bv32, m: bv32): bv32 { w & !m }

  function ToggleIn(w: bv32, m: bv32): bv32 { w ^ m }

  predicate BitOf(w: bv32, k: nat)
    requires k < ELEM_BITS
  {
    Hits(w, Mask(k))
  }

  lemma ShiftNonzero(k: bv32)
    requires k < 32
    ensures (1 as bv32) << k != 0
  {
  }

  lemma MaskNonzero(k: nat)
    requires k < ELEM_BITS
    ensures Mask(k) != 0
  {
    ShiftNonzero(k as bv32);
  }

  lemma MaskNext(k: nat)
    requires k + 1 < ELEM_BITS
    ensures Mask(k + 1) == Mask(k) << 1
  {
    assert k as bv32 < 31;
  }

  lemma ShiftLow(a: bv32)
    ensures Disjoint(1, a << 1)
  {
  }

  lemma ShiftBoth(a: bv32, b: bv32)
    requires Disjoint(a, b)
    ensures Disjoint(a << 1, b << 1)
  {
  }

  lemma DisjointSwap(a: bv32, b: bv32)
    requires Disjoint(a, b)
    ensures Disjoint(b, a)
  {
  }

  /** Different positions of an element have disjoint masks. */
  lemma {:induction false} MaskApart(j: nat, k: nat)
    requires j < k < ELEM_BITS
    ensures Disjoint(Mask(j), Mask(k)) && Disjoint(Mask(k), Mask(j))
  {
    hide Disjoint;
    MaskNext(k - 1);
    if j == 0 {
      ShiftLow(Mask(k - 1));
    } else {
      MaskNext(j - 1);
      MaskApart(j - 1, k - 1);
      ShiftBoth(Mask(j - 1), Mask(k - 1));
    }
    DisjointSwap(Mask(j), Mask(k));
  }

  lemma SetSame(w: bv32, m: bv32)
    requires m != 0
    ensures Hits(SetIn(w, m), m) && !Hits(ClearIn(w, m), m)
  {
  }

  lemma SetApart(w: bv32, m: bv32, n: bv32)
    requires Disjoint(m, n)
    ensures InBoth(SetIn(w, m), n) == InBoth(w, n)
  {
  }

  lemma ClearApart(w: bv32, m: bv32, n: bv32)
    requires Disjoint(m, n)
    ensures InBoth(ClearIn(w, m), n) == InBoth(w, n)
  {
  }

  lemma ToggleApart(w: bv32, m: bv32, n: bv32)
    requires Disjoint(m, n)
    ensures InBoth(ToggleIn(w, m), n) == InBoth(w, n)
  {
  }

  lemma ToggleSame(w: bv32, k: bv32)
    requires k < 32
    ensures Hits(ToggleIn(w, 1 << k), 1 << k) != Hits(w, 1 << k)
  {
  }

  lemma MasksApart(w: bv32, j: nat, k: nat)
    requires j < ELEM_BITS && k < ELEM_BITS && j != k
    ensures BitOf(SetIn(w, Mask(j)), k) == BitOf(w, k)
    ensures BitOf(ClearIn(w, Mask(j)), k) == BitOf(w, k)
    ensures BitOf(ToggleIn(w, Mask(j)), k) == BitOf(w, k)
  {
    hide Mask, InBoth, Disjoint, SetIn, ClearIn, ToggleIn;
    if j < k { MaskApart(j, k); } else { MaskApart(k, j); }
    SetApart(w, Mask(j), Mask(k));
    ClearApart(w, Mask(j), Mask(k));
    ToggleApart(w, Mask(j), Mask(k));
  }

  lemma MarkBit(w: bv32, j: nat, k: nat)
    requires j < ELEM_BITS && k < ELEM_BITS
    ensures BitOf(SetIn(w, Mask(j)), k) <==> j == k || BitOf(w, k)
  {
    hide Mask, Hits, SetIn;
    if j == k { MaskNonzero(k); SetSame(w, Mask(k)); } else { MasksApart(w, j, k); }
  }

  lemma ResetBit(w: bv32, j: nat, k: nat)
    requires j < ELEM_BITS && k < ELEM_BITS
    ensures BitOf(ClearIn(w, Mask(j)), k) <==> j != k && BitOf(w, k)
  {
    hide Mask, Hits, ClearIn;
    if j == k { MaskNonzero(k); SetSame(w, Mask(k)); } else { MasksApart(w, j, k); }
  }

  lemma FlipBit(w: bv32, j: nat, k: nat)
    requires j < ELEM_BITS && k < ELEM_BITS
    ensures BitOf(ToggleIn(w, Mask(j)), k) <==> (j == k) != BitOf(w, k)
  {
    hide Hits, ToggleIn;
    if j == k { ToggleSame(w, k as bv32); } else { MasksApart(w, j, k); }
  }

  // ---- The packed bitmap

  /** Bit i of the sequence is bit i % ELEM_BITS of element i / ELEM_BITS. */
  ghost predicate Packs(words: seq<bv32>, bits: seq<bool>) {
    && |words| == (|bits| + ELEM_BITS - 1) / ELEM_BITS
    && forall i: nat {:trigger bits[i]} :: i < |bits| ==> bits[i] == BitOf(words[i / ELEM_BITS], i % ELEM_BITS)
  }

  lemma ElemInRange(i: nat, n: nat)
    requires i < n
    ensures i / ELEM_BITS < (n + ELEM_BITS - 1) / ELEM_BITS
  {
  }

  lemma SamePlace(i: nat, j: nat)
    requires i / ELEM_BITS == j / ELEM_BITS && i % ELEM_BITS == j % ELEM_BITS
    ensures i == j
  {
  }

  lemma SetPacks(words: seq<bv32>, bits: seq<bool>, idx: nat, w: bv32, v: bool)
    requires Packs(words, bits) && idx < |bits|
    requires forall k: nat {:trigger BitOf(w, k)} :: k < ELEM_BITS ==>
      BitOf(w, k) == if k == idx % ELEM_BITS then v else BitOf(words[idx / ELEM_BITS], k)
    ensures Packs(words[idx / ELEM_BITS := w], bits[idx := v])
  {
    hide BitOf;
    var words', bits' := words[idx / ELEM_BITS := w], bits[idx := v];
    forall i: nat | i < |bits'| ensures bits'[i] == BitOf(words'[i / ELEM_BITS], i % ELEM_BITS) {
      ElemInRange(i, |bits|);
      assert bits[i] == BitOf(words[i / ELEM_BITS], i % ELEM_BITS);
      if i / ELEM_BITS == idx / ELEM_BITS {
        if i % ELEM_BITS == idx % ELEM_BITS {
          SamePlace(i, idx);
        }
      }
    }
  }

  class Packed {
    const words: array<bv32>
    ghost var bits: seq<bool>
    const bitCnt: nat

    ghost predicate Valid()
      reads this, words
    {
      |bits| == bitCnt && Packs(words[..], bits)
    }

    /** `bitmap_create`: storage of any content, then every bit cleared. */
    constructor (bitCnt: nat)
      ensures Valid() && this.bitCnt == bitCnt && fresh(words)
      ensures bits == seq(bitCnt, _ => false)
    {
      this.bitCnt := bitCnt;
      words := new bv32[(bitCnt + ELEM_BITS - 1) / ELEM_BITS];
      new;
      bits := Unpacked(words[..], bitCnt);
      SetMultiple(0, bitCnt, false);
    }

    /** `bitmap_mark`. */
    method Mark(idx: nat)
      requires Valid() && idx < bitCnt
      modifies this`bits, words
      ensures Valid() && bits == old(bits)[idx := true]
    {
      hide BitOf, Packs, Mask, SetIn, ClearIn, ToggleIn;
      Place(idx);
      var w := SetIn(words[idx / ELEM_BITS], Mask(idx % ELEM_BITS));
      forall k: nat | k < ELEM_BITS ensures BitOf(w, k) == if k == idx % ELEM_BITS then true else BitOf(words[..][idx / ELEM_BITS], k) {
        MarkBit(words[idx / ELEM_BITS], idx % ELEM_BITS, k);
      }
      SetPacks(words[..], bits, idx, w, true);
      words[idx / ELEM_BITS] := w;
      bits := bits[idx := true];
      assert words[..] == old(words[..])[idx / ELEM_BITS := w];
    }

    /** `bitmap_reset`. */
    method Reset(idx: nat)
      requires Valid() && idx < bitCnt
      modifies this`bits, words
      ensures Valid() && bits == old(bits)[idx := false]
    {
      hide BitOf, Packs, Mask, SetIn, ClearIn, ToggleIn;
      Place(idx);
      var w := ClearIn(words[idx / ELEM_BITS], Mask(idx % ELEM_BITS));
      forall k: nat | k < ELEM_BITS ensures BitOf(w, k) == if k == idx % ELEM_BITS then false else BitOf(words[..][idx / ELEM_BITS], k) {
        ResetBit(words[idx / ELEM_BITS], idx % ELEM_BITS, k);
      }
      SetPacks(words[..], bits, idx, w, false);
      words[idx / ELEM_BITS] := w;
      bits := bits[idx := false];
      assert words[..] == old(words[..])[idx / ELEM_BITS := w];
    }

    /** `bitmap_flip`. */
    method Flip(idx: nat)
      requires Valid() && idx < bitCnt
      modifies this`bits, words
      ensures Valid() && bits == old(bits)[idx := !old(bits)[idx]]
    {
      hide BitOf, Packs, Mask, SetIn, ClearIn, ToggleIn;
      Place(idx);
      var w := ToggleIn(words[idx / ELEM_BITS], Mask(idx % ELEM_BITS));
      ghost var v := !bits[idx];
      forall k: nat | k < ELEM_BITS ensures BitOf(w, k) == if k == idx % ELEM_BITS then v else BitOf(words[..][idx / ELEM_BITS], k) {
        FlipBit(words[idx / ELEM_BITS], idx % ELEM_BITS, k);
      }
      SetPacks(words[..], bits, idx, w, v);
      words[idx / ELEM_BITS] := w;
      bits := bits[idx := v];
      assert words[..] == old(words[..])[idx / ELEM_BITS := w];
    }

    /** Where a bit is kept. */
    lemma Place(idx: nat)
      requires Valid() && idx < bitCnt
      ensures idx / ELEM_BITS < words.Length
      ensures bits[idx] == BitOf(words[idx / ELEM_BITS], idx % ELEM_BITS)
    {
      ElemInRange(idx, bitCnt);
      assert words[..][idx / ELEM_BITS] == words[idx / ELEM_BITS];
    }

    /** `bitmap_test`. */
    method Test(idx: nat) returns (v: bool)
      requires Valid() && idx < bitCnt
      ensures v == bits[idx]
    {
      hide Packs, Mask, Hits;
      Place(idx);
      v := Hits(words[idx / ELEM_BITS], Mask(idx % ELEM_BITS));
    }

    /** `bitmap_set_multiple`. */
    method SetMultiple(start: nat, cnt: nat, value: bool)
      requires Valid() && start + cnt <= bitCnt
      modifies this`bits, words
      ensures Valid() && bits == SetRange(old(bits), start, cnt, value)
    {
      hide Packs;
      for i := 0 to cnt
        invariant Valid() && bits == SetRange(old(bits), start, i, value)
      {
        if value {
          Mark(start + i);
        } else {
          Reset(start + i);
        }
      }
    }

    /** `bitmap_count`. */
    method Count(start: nat, cnt: nat, value: bool) returns (valueCnt: nat)
      requires Valid() && start + cnt <= bitCnt
      ensures valueCnt == Tally(bits, start, cnt, value)
    {
      hide Packs;
      valueCnt := 0;
      for i := 0 to cnt
        invariant valueCnt == Tally(bits, start, i, value)
      {
        var v := Test(start + i);
        if v == value {
          valueCnt := valueCnt + 1;
        }
      }
    }

    /** `bitmap_contains`; `bitmap_all` and `bitmap_none` are its negations. */
    method Contains(start: nat, cnt: nat, value: bool) returns (found: bool)
      requires Valid() && start + cnt <= bitCnt
      ensures found <==> !AllAre(bits, start, cnt, !value)
    {
      hide Packs;
      for i := 0 to cnt
        invariant AllAre(bits, start, i, !value)
      {
        var v := Test(start + i);
        if v == value {
          return true;
        }
      }
      return false;
    }

    /** `bitmap_scan`: the first group at or after start, if any; a group of no bits is found at start. */
    method Scan(start: nat, cnt: nat, value: bool) returns (idx: Option<nat>)
      requires Valid() && start <= bitCnt
      ensures idx == FirstGroup(bits, start, cnt, value)
    {
      hide Packs, AllAre;
      if cnt <= bitCnt {
        var last := bitCnt - cnt;
        var i := start;
        while i <= last
          invariant start <= i && (start <= last ==> i <= last + 1)
          invariant FirstGroup(bits, start, cnt, value) == FirstGroup(bits, i, cnt, value)
        {
          var other := Contains(i, cnt, !value);
          if !other {
            return Some(i);
          }
          i := i + 1;
        }
        NoRoom(bits, i, cnt, value);
      } else {
        NoRoom(bits, start, cnt, value);
      }
      return None;
    }

    /** `bitmap_scan_and_flip`. */
    method ScanAndFlip(start: nat, cnt: nat, value: bool) returns (idx: Option<nat>)
      requires Valid() && start <= bitCnt
      modifies this`bits, words
      ensures Valid() && idx == FirstGroup(old(bits), start, cnt, value)
      ensures idx.None? ==> bits == old(bits)
      ensures idx.Some? ==> idx.value + cnt <= bitCnt && bits == SetRange(old(bits), idx.value, cnt, !value)
    {
      hide Packs;
      idx := Scan(start, cnt, value);
      if idx.Some? {
        SetMultiple(idx.value, cnt, !value);
      }
    }
  }

  /** The bits that given elements hold. */
  ghost function Unpacked(words: seq<bv32>, n: nat): (bits: seq<bool>)
    requires |words| == (n + ELEM_BITS - 1) / ELEM_BITS
    ensures |bits| == n && Packs(words, bits)
  {
    seq(n, i requires 0 <= i < n => BitOf(words[i / ELEM_BITS], i % ELEM_BITS))
  }

  lemma NoRoom(bits: seq<bool>, i: nat, cnt: nat, value: bool)
    requires i + cnt > |bits|
    ensures FirstGroup(bits, i, cnt, value) == None
  {
  }
}
