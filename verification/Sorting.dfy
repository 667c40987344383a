/** Heapsort and binary search (lib/stdlib.c), over elements in place and 1-based heap positions. */
module Sorting {
  import opened Common

  /** A strcmp-like comparison that is a total preorder. */
  ghost predicate TotalOrder<T(!new)>(cmp: (T, T) -> int) {
    && (forall x, y {:trigger cmp(x, y)} :: cmp(x, y) < 0 <==> cmp(y, x) > 0)
    && (forall x, y, z {:trigger cmp(x, y), cmp(y, z)} :: cmp(x, y) <= 0 && cmp(y, z) <= 0 ==> cmp(x, z) <= 0)
  }

  predicate Le<T>(cmp: (T, T) -> int, x: T, y: T) { cmp(x, y) <= 0 }

  lemma LeTrans<T(!new)>(cmp: (T, T) -> int, x: T, y: T, z: T)
    requires TotalOrder(cmp) && Le(cmp, x, y) && Le(cmp, y, z)
    ensures Le(cmp, x, z)
  {
  }

  lemma LeTotal<T(!new)>(cmp: (T, T) -> int, x: T, y: T)
    requires TotalOrder(cmp)
    ensures cmp(x, y) > 0 ==> Le(cmp, y, x)
    ensures cmp(x, y) <= 0 ==> Le(cmp, x, y)
    ensures Le(cmp, x, x)
  {
    assert cmp(x, y) < 0 <==> cmp(y, x) > 0;
    assert cmp(x, x) < 0 <==> cmp(x, x) > 0;
    assert cmp(y, x) < 0 <==> cmp(x, y) > 0;
  }

  ghost predicate Sorted<T(!new)>(cmp: (T, T) -> int, s: seq<T>) {
    forall i, j {:trigger s[i], s[j]} :: 0 <= i < j < |s| ==> Le(cmp, s[i], s[j])
  }

  function Swap<T>(s: seq<T>, i: nat, j: nat): (r: seq<T>)
    requires i < |s| && j < |s|
    ensures |r| == |s| && r[i] == s[j] && r[j] == s[i]
    ensures forall k {:trigger r[k]} :: 0 <= k < |s| && k != i && k != j ==> r[k] == s[k]
  {
    s[i := s[j]][j := s[i]]
  }

  /** Same elements, each as often. */
  ghost predicate Permutes<T>(s: seq<T>, t: seq<T>) { multiset(s) == multiset(t) }

  lemma SwapPermutes<T>(s: seq<T>, i: nat, j: nat)
    requires i < |s| && j < |s|
    ensures Permutes(Swap(s, i, j), s)
  {
  }

  // ---- Heaps in the first cnt positions, counted from 1

  /** Position c, if there is one, holds no more than position p. */
  ghost predicate Under<T>(cmp: (T, T) -> int, s: seq<T>, cnt: nat, p: nat, c: nat)
    requires 0 < p <= cnt <= |s|
  {
    0 < c <= cnt ==> Le(cmp, s[c - 1], s[p - 1])
  }

  /** Each position from lo on holds no less than its children, except perhaps `hole`, whose children
      still hold no more than its parent. With hole 0 there is no exception. */
  ghost predicate HeapBut<T>(cmp: (T, T) -> int, s: seq<T>, lo: nat, cnt: nat, hole: nat)
    requires cnt <= |s|
  {
    forall p: nat {:trigger Parent(p)} :: Parent(p) && lo <= p <= cnt ==>
      && (p != hole ==> Under(cmp, s, cnt, p, 2 * p) && Under(cmp, s, cnt, p, 2 * p + 1))
      && (2 * p == hole || 2 * p + 1 == hole ==> Under(cmp, s, cnt, p, 2 * hole) && Under(cmp, s, cnt, p, 2 * hole + 1))
  }

  /** A heap position. */
  predicate Parent(p: nat) { 0 < p }

  /** Moving the largest child of the hole up moves the hole down. */
  lemma SiftStep<T(!new)>(cmp: (T, T) -> int, s: seq<T>, lo: nat, cnt: nat, hole: nat, max: nat)
    requires TotalOrder(cmp) && cnt <= |s| && 0 < lo <= hole <= cnt && max <= cnt && (max == 2 * hole || max == 2 * hole + 1)
    requires HeapBut(cmp, s, lo, cnt, hole)
    requires Under(cmp, s, cnt, max, 2 * hole) && Under(cmp, s, cnt, max, 2 * hole + 1) && Under(cmp, s, cnt, max, hole)
    ensures HeapBut(cmp, Swap(s, hole - 1, max - 1), lo, cnt, max)
  {
    hide TotalOrder, Le;
    var t := Swap(s, hole - 1, max - 1);
    assert Parent(hole) && Parent(max);
    forall p: nat {:trigger Parent(p)} | Parent(p) && lo <= p <= cnt
      ensures p != max ==> Under(cmp, t, cnt, p, 2 * p) && Under(cmp, t, cnt, p, 2 * p + 1)
      ensures 2 * p == max || 2 * p + 1 == max ==> Under(cmp, t, cnt, p, 2 * max) && Under(cmp, t, cnt, p, 2 * max + 1)
    {
      if p == hole {
        assert Under(cmp, s, cnt, max, 2 * max) && Under(cmp, s, cnt, max, 2 * max + 1);
      } else if 2 * p == hole || 2 * p + 1 == hole {
        assert Under(cmp, s, cnt, p, max);
      }
    }
  }

  /** No child above the hole: it is a heap. */
  lemma SiftDone<T(!new)>(cmp: (T, T) -> int, s: seq<T>, lo: nat, cnt: nat, hole: nat)
    requires cnt <= |s| && 0 < hole <= cnt && HeapBut(cmp, s, lo, cnt, hole)
    requires Under(cmp, s, cnt, hole, 2 * hole) && Under(cmp, s, cnt, hole, 2 * hole + 1)
    ensures HeapBut(cmp, s, lo, cnt, 0)
  {
  }

  /** The top of a heap holds the largest element. */
  lemma {:induction false} TopIsLargest<T(!new)>(cmp: (T, T) -> int, s: seq<T>, cnt: nat, j: nat)
    requires TotalOrder(cmp) && cnt <= |s| && HeapBut(cmp, s, 1, cnt, 0) && 0 < j <= cnt
    ensures Le(cmp, s[j - 1], s[0])
    decreases j
  {
    hide TotalOrder, Le;
    if j == 1 {
      LeTotal(cmp, s[0], s[0]);
    } else {
      var p := j / 2;
      assert Parent(p);
      assert j == 2 * p || j == 2 * p + 1;
      assert Under(cmp, s, cnt, p, j);
      TopIsLargest(cmp, s, cnt, p);
      LeTrans(cmp, s[j - 1], s[p - 1], s[0]);
    }
  }

  /** `heapify`: restores a heap that is wrong at one position, inside the first cnt elements only. */
  method Heapify<T(!new)>(a: array<T>, i0: nat, cnt: nat, cmp: (T, T) -> int, ghost lo: nat)
    requires TotalOrder(cmp) && cnt <= a.Length && 0 < lo <= i0 <= cnt && HeapBut(cmp, a[..], lo, cnt, i0)
    modifies a
    ensures HeapBut(cmp, a[..], lo, cnt, 0)
    ensures Kept(a[..], old(a[..]), cnt)
  {
    hide TotalOrder, Le, HeapBut, Kept, Under;
    var i := i0;
    Unchanged(a[..], cnt);
    while true
      invariant lo <= i <= cnt && HeapBut(cmp, a[..], lo, cnt, i)
      invariant Kept(a[..], old(a[..]), cnt)
      decreases cnt - i
    {
      ghost var before := a[..];
      var max := FloatDown(a, i, cnt, cmp, lo);
      KeptThen(a[..], before, old(a[..]), cnt);
      if max == i {
        break;
      }
      i := max;
    }
  }

  /** One round of `heapify`: the larger child, if it is above the hole, changes places with it. */
  method FloatDown<T(!new)>(a: array<T>, i: nat, cnt: nat, cmp: (T, T) -> int, ghost lo: nat) returns (max: nat)
    requires TotalOrder(cmp) && cnt <= a.Length && 0 < lo <= i <= cnt && HeapBut(cmp, a[..], lo, cnt, i)
    modifies a
    ensures i <= max <= cnt && Kept(a[..], old(a[..]), cnt)
    ensures HeapBut(cmp, a[..], lo, cnt, if max == i then 0 else max)
  {
    hide TotalOrder, Le, HeapBut, Kept, Under;
    max := LargestOf(a, i, cnt, cmp);
    if max == i {
      SiftDone(cmp, a[..], lo, cnt, i);
      Unchanged(a[..], cnt);
    } else {
      SiftStep(cmp, a[..], lo, cnt, i, max);
      a[i - 1], a[max - 1] := a[max - 1], a[i - 1];
      assert a[..] == Swap(old(a[..]), i - 1, max - 1);
      SwapInside(old(a[..]), i - 1, max - 1, cnt);
    }
  }

  /** Only the first cnt elements moved, among themselves. */
  ghost predicate Kept<T>(s: seq<T>, t: seq<T>, cnt: nat) {
    cnt <= |s| == |t| && Permutes(s, t) && s[cnt..] == t[cnt..] && Permutes(s[..cnt], t[..cnt])
  }

  lemma Unchanged<T>(s: seq<T>, cnt: nat)
    requires cnt <= |s|
    ensures Kept(s, s, cnt) && Permutes(s, s)
  {
  }

  lemma KeptThen<T>(s: seq<T>, t: seq<T>, u: seq<T>, cnt: nat)
    requires Kept(s, t, cnt) && Kept(t, u, cnt)
    ensures Kept(s, u, cnt)
  {
  }

  lemma PermutesThen<T>(s: seq<T>, t: seq<T>, u: seq<T>)
    requires Permutes(s, t) && Permutes(t, u)
    ensures Permutes(s, u)
  {
  }

  lemma SwapInside<T>(s: seq<T>, i: nat, j: nat, cnt: nat)
    requires i < cnt <= |s| && j < cnt
    ensures Kept(Swap(s, i, j), s, cnt)
  {
    hide Permutes;
    var t := Swap(s, i, j);
    SwapPermutes(s, i, j);
    SwapPermutes(s[..cnt], i, j);
    assert t[..cnt] == Swap(s[..cnt], i, j);
  }

  /** The largest of a position and its children, preferring the position, then the left child. */
  method LargestOf<T(!new)>(a: array<T>, i: nat, cnt: nat, cmp: (T, T) -> int) returns (max: nat)
    requires TotalOrder(cmp) && 0 < i <= cnt <= a.Length
    ensures 0 < max <= cnt && (max == i || max == 2 * i || max == 2 * i + 1)
    ensures Under(cmp, a[..], cnt, max, i) && Under(cmp, a[..], cnt, max, 2 * i) && Under(cmp, a[..], cnt, max, 2 * i + 1)
  {
    hide TotalOrder, Le;
    var left, right := 2 * i, 2 * i + 1;
    max := i;
    LeTotal(cmp, a[i - 1], a[i - 1]);
    if left <= cnt {
      LeTotal(cmp, a[left - 1], a[i - 1]);
      LeTotal(cmp, a[left - 1], a[left - 1]);
      if cmp(a[left - 1], a[max - 1]) > 0 {
        max := left;
      }
    }
    ghost var m := max;
    if right <= cnt {
      LeTotal(cmp, a[right - 1], a[max - 1]);
      LeTotal(cmp, a[right - 1], a[right - 1]);
      if cmp(a[right - 1], a[max - 1]) > 0 {
        LeTrans(cmp, a[i - 1], a[m - 1], a[right - 1]);
        LeTrans(cmp, a[left - 1], a[m - 1], a[right - 1]);
        max := right;
      }
    }
  }

  /** Every element of the first i is at most every later one. */
  ghost predicate Split<T(!new)>(cmp: (T, T) -> int, s: seq<T>, i: nat) {
    forall x, y {:trigger s[x], s[y]} :: 0 <= x < i <= y < |s| ==> Le(cmp, s[x], s[y])
  }

  /** `sort`: a sorted permutation. */
  method Sort<T(!new)>(a: array<T>, cmp: (T, T) -> int)
    requires TotalOrder(cmp)
    modifies a
    ensures Sorted(cmp, a[..]) && Permutes(a[..], old(a[..]))
  {
    hide TotalOrder, Le, HeapBut, Permutes, Split, Sorted;
    var cnt := a.Length;
    BuildHeap(a, cmp);
    SplitNothing(cmp, a[..]);
    var i := cnt;
    while i > 1
      invariant 0 <= i <= cnt == a.Length
      invariant HeapBut(cmp, a[..], 1, i, 0) && Split(cmp, a[..], i) && Sorted(cmp, a[i..])
      invariant Permutes(a[..], old(a[..]))
    {
      ghost var before := a[..];
      a[0], a[i - 1] := a[i - 1], a[0];
      assert a[..] == Swap(before, 0, i - 1);
      TakeTop(cmp, before, i, a[..]);
      PermutesThen(a[..], before, old(a[..]));
      ghost var mid := a[..];
      Heapify(a, 1, i - 1, cmp, 1);
      Settle(cmp, mid, a[..], i - 1);
      PermutesThen(a[..], mid, old(a[..]));
      i := i - 1;
    }
    SortedAll(cmp, a[..], i);
  }

  lemma SplitNothing<T(!new)>(cmp: (T, T) -> int, s: seq<T>)
    ensures Split(cmp, s, |s|) && Sorted(cmp, s[|s|..])
  {
  }

  /** The largest element goes to the end of the heap, which is now wrong only at the top. */
  lemma TakeTop<T(!new)>(cmp: (T, T) -> int, s: seq<T>, i: nat, t: seq<T>)
    requires TotalOrder(cmp) && 1 < i <= |s| && HeapBut(cmp, s, 1, i, 0) && Split(cmp, s, i) && Sorted(cmp, s[i..])
    requires t == Swap(s, 0, i - 1)
    ensures Permutes(t, s) && HeapBut(cmp, t, 1, i - 1, 1) && Split(cmp, t, i - 1) && Sorted(cmp, t[i - 1..])
  {
    hide TotalOrder, Le, HeapBut, Permutes, Split, Sorted;
    SwapPermutes(s, 0, i - 1);
    ShrinkHeap(cmp, s, i, t);
    TopSplits(cmp, s, i, t);
    TopSorts(cmp, s, i, t);
  }

  lemma ShrinkHeap<T(!new)>(cmp: (T, T) -> int, s: seq<T>, i: nat, t: seq<T>)
    requires 1 < i <= |s| && HeapBut(cmp, s, 1, i, 0) && t == Swap(s, 0, i - 1)
    ensures HeapBut(cmp, t, 1, i - 1, 1)
  {
    hide Le;
    forall p: nat {:trigger Parent(p)} | Parent(p) && 1 < p <= i - 1
      ensures Under(cmp, t, i - 1, p, 2 * p) && Under(cmp, t, i - 1, p, 2 * p + 1)
    {
      assert Under(cmp, s, i, p, 2 * p) && Under(cmp, s, i, p, 2 * p + 1);
    }
  }

  lemma TopSplits<T(!new)>(cmp: (T, T) -> int, s: seq<T>, i: nat, t: seq<T>)
    requires TotalOrder(cmp) && 1 < i <= |s| && HeapBut(cmp, s, 1, i, 0) && Split(cmp, s, i) && t == Swap(s, 0, i - 1)
    ensures Split(cmp, t, i - 1)
  {
    hide TotalOrder, Le, HeapBut;
    forall x, y {:trigger t[x], t[y]} | 0 <= x < i - 1 <= y < |t| ensures Le(cmp, t[x], t[y]) {
      var x' := if x == 0 then i - 1 else x;
      assert t[x] == s[x'];
      if y == i - 1 {
        TopIsLargest(cmp, s, i, x' + 1);
      } else {
        assert t[y] == s[y];
        assert Le(cmp, s[x'], s[y]);
      }
    }
  }

  lemma TopSorts<T(!new)>(cmp: (T, T) -> int, s: seq<T>, i: nat, t: seq<T>)
    requires 1 < i <= |s| && Split(cmp, s, i) && Sorted(cmp, s[i..]) && t == Swap(s, 0, i - 1)
    ensures Sorted(cmp, t[i - 1..])
  {
    hide Le;
    var u := t[i - 1..];
    forall x, y {:trigger u[x], u[y]} | 0 <= x < y < |u| ensures Le(cmp, u[x], u[y]) {
      assert u[y] == s[i - 1 + y];
      if x == 0 {
        assert u[x] == s[0];
        assert Le(cmp, s[0], s[i - 1 + y]);
      } else {
        assert u[x] == s[i..][x - 1] && u[y] == s[i..][y - 1];
      }
    }
  }

  /** Rearranging the first n elements keeps them below the rest. */
  lemma Settle<T(!new)>(cmp: (T, T) -> int, s: seq<T>, t: seq<T>, n: nat)
    requires n <= |s| && Split(cmp, s, n) && Sorted(cmp, s[n..]) && Kept(t, s, n)
    ensures Split(cmp, t, n) && Sorted(cmp, t[n..])
  {
    hide Le, Sorted;
    forall x, y {:trigger t[x], t[y]} | 0 <= x < n <= y < |t| ensures Le(cmp, t[x], t[y]) {
      assert t[..n][x] in multiset(t[..n]);
      assert t[x] in s[..n];
      var z :| 0 <= z < n && s[..n][z] == t[x];
      assert s[z] == t[x];
      assert t[y] == t[n..][y - n] == s[n..][y - n] == s[y];
    }
  }

  lemma SortedAll<T(!new)>(cmp: (T, T) -> int, s: seq<T>, i: nat)
    requires i <= 1 && i <= |s| && Split(cmp, s, i) && Sorted(cmp, s[i..])
    ensures Sorted(cmp, s)
  {
    hide Le;
    forall x, y {:trigger s[x], s[y]} | 0 <= x < y < |s| ensures Le(cmp, s[x], s[y]) {
      if x >= i {
        assert s[x] == s[i..][x - i] && s[y] == s[i..][y - i];
      }
    }
  }

  /** The first loop of `sort`: positions become heaps from the last parent up. */
  method BuildHeap<T(!new)>(a: array<T>, cmp: (T, T) -> int)
    requires TotalOrder(cmp)
    modifies a
    ensures HeapBut(cmp, a[..], 1, a.Length, 0) && Permutes(a[..], old(a[..]))
  {
    hide TotalOrder, Le, HeapBut, Permutes;
    var cnt := a.Length;
    var i := cnt / 2;
    Leaves(cmp, a[..]);
    Unchanged(a[..], cnt);
    while i > 0
      invariant 0 <= i <= cnt == a.Length
      invariant HeapBut(cmp, a[..], i + 1, cnt, 0) && Permutes(a[..], old(a[..]))
    {
      OneMore(cmp, a[..], i);
      ghost var before := a[..];
      Heapify(a, i, cnt, cmp, i);
      PermutesThen(a[..], before, old(a[..]));
      i := i - 1;
    }
  }

  lemma Leaves<T>(cmp: (T, T) -> int, s: seq<T>)
    ensures HeapBut(cmp, s, |s| / 2 + 1, |s|, 0)
  {
  }

  lemma OneMore<T>(cmp: (T, T) -> int, s: seq<T>, i: nat)
    requires 0 < i <= |s| && HeapBut(cmp, s, i + 1, |s|, 0)
    ensures HeapBut(cmp, s, i, |s|, i)
  {
  }

  /** `binary_search`: finds a match in a sorted array exactly when there is one. */
  method BinarySearch<T(!new)>(key: T, a: array<T>, cmp: (T, T) -> int) returns (found: Option<nat>)
    requires TotalOrder(cmp) && Sorted(cmp, a[..])
    ensures found.Some? ==> found.value < a.Length && cmp(key, a[found.value]) == 0
    ensures found.None? ==> forall k :: 0 <= k < a.Length ==> cmp(key, a[k]) != 0
  {
    hide TotalOrder, Sorted;
    var first, last := 0, a.Length;
    while first < last
      invariant 0 <= first <= last <= a.Length
      invariant forall k {:trigger a[k]} :: 0 <= k < first ==> cmp(key, a[k]) > 0
      invariant forall k {:trigger a[k]} :: last <= k < a.Length ==> cmp(key, a[k]) < 0
    {
      var range := last - first;
      var middle := first + range / 2;
      var c := cmp(key, a[middle]);
      if c == 0 {
        return Some(middle);
      }
      Sides(key, a[..], middle, cmp);
      assert forall k {:trigger a[k]} :: 0 <= k < a.Length ==> a[..][k] == a[k];
      if c < 0 {
        last := middle;
      } else {
        first := middle + 1;
      }
    }
    return None;
  }

  /** A key below an element is below all later ones; a key above it is above all earlier ones. */
  lemma Sides<T(!new)>(key: T, s: seq<T>, middle: nat, cmp: (T, T) -> int)
    requires TotalOrder(cmp) && Sorted(cmp, s) && middle < |s|
    ensures cmp(key, s[middle]) < 0 ==> forall k {:trigger s[k]} :: middle <= k < |s| ==> cmp(key, s[k]) < 0
    ensures cmp(key, s[middle]) > 0 ==> forall k {:trigger s[k]} :: 0 <= k <= middle ==> cmp(key, s[k]) > 0
  {
    forall k {:trigger s[k]} | middle <= k < |s| ensures cmp(key, s[middle]) < 0 ==> cmp(key, s[k]) < 0 {
      Before(cmp, key, s[middle], s[k]);
      LeTotal(cmp, s[middle], s[middle]);
    }
    forall k {:trigger s[k]} | 0 <= k <= middle ensures cmp(key, s[middle]) > 0 ==> cmp(key, s[k]) > 0 {
      LeTotal(cmp, s[middle], s[middle]);
      After(cmp, s[k], s[middle], key);
    }
  }

  lemma Before<T(!new)>(cmp: (T, T) -> int, x: T, y: T, z: T)
    requires TotalOrder(cmp)
    ensures cmp(x, y) < 0 && Le(cmp, y, z) ==> cmp(x, z) < 0
  {
    assert cmp(x, z) < 0 <==> cmp(z, x) > 0;
    assert cmp(x, y) < 0 <==> cmp(y, x) > 0;
    assert Le(cmp, y, z) && cmp(z, x) <= 0 ==> cmp(y, x) <= 0;
  }

  lemma After<T(!new)>(cmp: (T, T) -> int, x: T, y: T, z: T)
    requires TotalOrder(cmp)
    ensures Le(cmp, x, y) && cmp(z, y) > 0 ==> cmp(z, x) > 0
  {
    assert cmp(x, z) < 0 <==> cmp(z, x) > 0;
    assert cmp(y, z) < 0 <==> cmp(z, y) > 0;
    assert cmp(z, x) <= 0 && Le(cmp, x, y) ==> cmp(z, y) <= 0;
  }
}
