/** What `list_sort` (lib/kernel/list.c) computes, as functions on the sequence of elements
    of a list: natural runs, the stable merge of two runs and one pass over all runs. */
module ListOrder {

  /** A `struct list_elem`; `data` stands for the structure it is embedded in, which the
      list operations never write. */
  class ListElem<T(!new)> {
    var prev: ListElem?<T>
    var next: ListElem?<T>
    const data: T

    constructor (data: T)
      ensures this.data == data
    {
      this.data := data;
    }
  }

  type Nodes<T(!new)> = seq<ListElem<T>>

  ghost predicate StrictWeakOrder<T(!new)>(less: (T, T) -> bool) {
    && (forall x :: !less(x, x))
    && (forall x, y, z :: less(x, y) && less(y, z) ==> less(x, z))
    && (forall x, y, z :: less(x, z) ==> less(x, y) || less(y, z))
  }

  ghost predicate Equivalent<T(!new)>(less: (T, T) -> bool, x: T, y: T) {
    !less(x, y) && !less(y, x)
  }

  /** No element is less than one before it. */
  ghost predicate Sorted<T(!new)>(s: Nodes<T>, less: (T, T) -> bool) {
    forall i, j :: 0 <= i < j < |s| ==> !less(s[j].data, s[i].data)
  }

  /** The elements of `s` equivalent to `x`, in order. */
  ghost function Class<T(!new)>(s: Nodes<T>, less: (T, T) -> bool, x: T): Nodes<T> {
    if s == [] then []
    else (if Equivalent(less, s[0].data, x) then [s[0]] else []) + Class(s[1..], less, x)
  }

  /** `t` holds the nodes of `s`, with equivalent ones in the same order. */
  ghost predicate StablePermutation<T(!new)>(s: Nodes<T>, t: Nodes<T>, less: (T, T) -> bool) {
    && multiset(s) == multiset(t)
    && forall x: T :: Class(s, less, x) == Class(t, less, x)
  }

  /** Length of the first nondecreasing run. */
  function RunLength<T(!new)>(s: Nodes<T>, less: (T, T) -> bool): (k: nat)
    requires s != []
    ensures 1 <= k <= |s|
  {
    if |s| == 1 || less(s[1].data, s[0].data) then 1 else 1 + RunLength(s[1..], less)
  }

  /** Number of natural runs. */
  function Runs<T(!new)>(s: Nodes<T>, less: (T, T) -> bool): nat {
    if |s| <= 1 then |s|
    else Runs(s[1..], less) + if less(s[1].data, s[0].data) then 1 else 0
  }

  /** Merging prefers the first run, so that equivalent elements keep their order. */
  function Merge<T(!new)>(a: Nodes<T>, b: Nodes<T>, less: (T, T) -> bool): Nodes<T> {
    if a == [] then b
    else if b == [] then a
    else if less(b[0].data, a[0].data) then [b[0]] + Merge(a, b[1..], less)
    else [a[0]] + Merge(a[1..], b, less)
  }

  /** One pass of `list_sort`: merge the runs pairwise. */
  function Pass<T(!new)>(s: Nodes<T>, less: (T, T) -> bool): Nodes<T>
    decreases |s|
  {
    if s == [] then []
    else
      var k := RunLength(s, less);
      if k == |s| then s
      else
        var l := RunLength(s[k..], less);
        Merge(s[..k], s[k..k + l], less) + Pass(s[k + l..], less)
  }

  // ----- runs -----

  lemma {:induction false} FirstRunSorted<T(!new)>(s: Nodes<T>, less: (T, T) -> bool)
    requires s != [] && StrictWeakOrder(less)
    ensures Sorted(s[..RunLength(s, less)], less)
  {
    if |s| == 1 || less(s[1].data, s[0].data) {
    } else {
      var k := RunLength(s[1..], less);
      FirstRunSorted(s[1..], less);
      var t := s[1..][..k];
      assert s[..k + 1] == [s[0]] + t;
      SortedCons(s[0], t, less);
    }
  }

  lemma NotLessTransitive<T(!new)>(less: (T, T) -> bool, x: T, y: T, z: T)
    requires StrictWeakOrder(less) && !less(y, x) && !less(z, y)
    ensures !less(z, x)
  {
  }

  lemma SortedCons<T(!new)>(a: ListElem<T>, t: Nodes<T>, less: (T, T) -> bool)
    requires StrictWeakOrder(less) && Sorted(t, less)
    requires t == [] || !less(t[0].data, a.data)
    ensures Sorted([a] + t, less)
  {
    var s := [a] + t;
    forall i, j | 0 <= i < j < |s| ensures !less(s[j].data, s[i].data) {
      if i == 0 {
        NotLessTransitive(less, a.data, t[0].data, t[j - 1].data);
      }
    }
  }

  lemma {:induction false} RunsAfterFirst<T(!new)>(s: Nodes<T>, less: (T, T) -> bool)
    requires s != []
    ensures Runs(s, less) == 1 + Runs(s[RunLength(s, less)..], less)
  {
    if |s| > 1 && !less(s[1].data, s[0].data) {
      RunsAfterFirst(s[1..], less);
      assert s[1..][RunLength(s[1..], less)..] == s[RunLength(s, less)..];
    }
  }

  lemma {:induction false} RunsSorted<T(!new)>(s: Nodes<T>, less: (T, T) -> bool)
    requires Sorted(s, less)
    ensures Runs(s, less) <= 1
  {
    if |s| > 1 {
      RunsSorted(s[1..], less);
    }
  }

  lemma {:induction false} RunsConcat<T(!new)>(a: Nodes<T>, b: Nodes<T>, less: (T, T) -> bool)
    ensures Runs(a + b, less) <= Runs(a, less) + Runs(b, less)
  {
    if a == [] {
      assert a + b == b;
    } else {
      assert (a + b)[1..] == a[1..] + b;
      RunsConcat(a[1..], b, less);
    }
  }

  lemma {:induction false} OneRunSorted<T(!new)>(s: Nodes<T>, less: (T, T) -> bool)
    requires Runs(s, less) <= 1 && StrictWeakOrder(less)
    ensures Sorted(s, less)
  {
    if |s| > 1 {
      RunsPositive(s[1..], less);
      OneRunSorted(s[1..], less);
      assert s == [s[0]] + s[1..];
      SortedCons(s[0], s[1..], less);
    }
  }

  lemma RunsPositive<T(!new)>(s: Nodes<T>, less: (T, T) -> bool)
    requires s != []
    ensures Runs(s, less) >= 1
  {
  }

  // ----- merging -----

  lemma {:induction false} MergeContents<T(!new)>(a: Nodes<T>, b: Nodes<T>, less: (T, T) -> bool)
    ensures multiset(Merge(a, b, less)) == multiset(a) + multiset(b)
    decreases |a| + |b|
  {
    if a == [] || b == [] {
    } else if less(b[0].data, a[0].data) {
      MergeContents(a, b[1..], less);
      ConsContents(b);
      ConsContents(Merge(a, b, less));
      assert Merge(a, b, less)[1..] == Merge(a, b[1..], less);
    } else {
      MergeContents(a[1..], b, less);
      ConsContents(a);
      ConsContents(Merge(a, b, less));
      assert Merge(a, b, less)[1..] == Merge(a[1..], b, less);
    }
  }

  lemma ConsContents<T(!new)>(s: Nodes<T>)
    requires s != []
    ensures multiset(s) == multiset{s[0]} + multiset(s[1..])
  {
    assert s == [s[0]] + s[1..];
  }

  lemma MergeLength<T(!new)>(a: Nodes<T>, b: Nodes<T>, less: (T, T) -> bool)
    ensures |Merge(a, b, less)| == |a| + |b|
  {
    MergeContents(a, b, less);
    assert |multiset(Merge(a, b, less))| == |multiset(a)| + |multiset(b)|;
  }

  /** A run with `a` in front of everything else stays sorted. */
  lemma {:induction false} MergeSorted<T(!new)>(a: Nodes<T>, b: Nodes<T>, less: (T, T) -> bool)
    requires StrictWeakOrder(less) && Sorted(a, less) && Sorted(b, less)
    ensures Sorted(Merge(a, b, less), less)
    decreases |a| + |b|
  {
    if a == [] || b == [] {
    } else if less(b[0].data, a[0].data) {
      MergeSorted(a, b[1..], less);
      SortedCons(b[0], Merge(a, b[1..], less), less);
    } else {
      MergeSorted(a[1..], b, less);
      SortedCons(a[0], Merge(a[1..], b, less), less);
    }
  }

  lemma {:induction false} MergeStable<T(!new)>(
      a: Nodes<T>, b: Nodes<T>, less: (T, T) -> bool, x: T)
    requires StrictWeakOrder(less) && Sorted(a, less)
    ensures Class(Merge(a, b, less), less, x) == Class(a, less, x) + Class(b, less, x)
    decreases |a| + |b|
  {
    hide StrictWeakOrder, Equivalent;
    if a == [] || b == [] {
    } else if less(b[0].data, a[0].data) {
      MergeStable(a, b[1..], less, x);
      ClassCons(b[0], Merge(a, b[1..], less), less, x);
      if Equivalent(less, b[0].data, x) {
        RunAbove(a, less, b[0].data, x);
        ClassEmpty(a, less, x);
      }
    } else {
      MergeStable(a[1..], b, less, x);
      ClassCons(a[0], Merge(a[1..], b, less), less, x);
    }
  }

  /** A sorted run that starts above an element is above its equivalents throughout. */
  lemma RunAbove<T(!new)>(a: Nodes<T>, less: (T, T) -> bool, y: T, x: T)
    requires StrictWeakOrder(less) && Sorted(a, less) && a != [] && less(y, a[0].data) && Equivalent(less, y, x)
    ensures forall i :: 0 <= i < |a| ==> less(x, a[i].data)
  {
    forall i | 0 <= i < |a| ensures less(x, a[i].data) {
      assert !less(a[i].data, a[0].data);
      AboveAll(less, y, a[0].data, a[i].data, x);
    }
  }

  lemma AboveAll<T(!new)>(less: (T, T) -> bool, y: T, first: T, z: T, x: T)
    requires StrictWeakOrder(less) && less(y, first) && !less(z, first) && Equivalent(less, y, x)
    ensures less(x, z)
  {
    assert less(y, z);
  }

  lemma ClassCons<T(!new)>(n: ListElem<T>, rest: Nodes<T>, less: (T, T) -> bool, x: T)
    ensures Class([n] + rest, less, x) ==
            (if Equivalent(less, n.data, x) then [n] else []) + Class(rest, less, x)
  {
    assert ([n] + rest)[1..] == rest;
  }

  /** A sorted run that starts above `x` has no element equivalent to it. */
  lemma {:induction false} ClassEmpty<T(!new)>(a: Nodes<T>, less: (T, T) -> bool, x: T)
    requires StrictWeakOrder(less)
    requires forall i :: 0 <= i < |a| ==> less(x, a[i].data)
    ensures Class(a, less, x) == []
  {
    if a != [] {
      ClassEmpty(a[1..], less, x);
    }
  }

  lemma {:induction false} ClassConcat<T(!new)>(
      a: Nodes<T>, b: Nodes<T>, less: (T, T) -> bool, x: T)
    ensures Class(a + b, less, x) == Class(a, less, x) + Class(b, less, x)
  {
    if a == [] {
      assert a + b == b;
    } else {
      ClassConcat(a[1..], b, less, x);
      var ab: Nodes<T>, rest: Nodes<T> := a + b, a[1..] + b;
      assert ab[0] == a[0] && ab[1..] == rest;
    }
  }

  // ----- a whole pass -----

  /** A pass merges the first two runs of the list and goes on after them. */
  lemma {:induction false} PassSplit<T(!new)>(s: Nodes<T>, less: (T, T) -> bool, k: nat, l: nat)
    requires s != [] && k == RunLength(s, less) < |s| && l == RunLength(s[k..], less)
    ensures k + l <= |s| && s == s[..k] + s[k..k + l] + s[k + l..]
    ensures Pass(s, less) == Merge(s[..k], s[k..k + l], less) + Pass(s[k + l..], less)
    ensures s[k..][..l] == s[k..k + l] && s[k..][l..] == s[k + l..]
  {
  }

  lemma {:induction false} PassContents<T(!new)>(s: Nodes<T>, less: (T, T) -> bool)
    ensures multiset(s) == multiset(Pass(s, less))
    decreases |s|
  {
    if s != [] && RunLength(s, less) < |s| {
      var k := RunLength(s, less);
      var l := RunLength(s[k..], less);
      PassSplit(s, less, k, l);
      PassContents(s[k + l..], less);
      MergeContents(s[..k], s[k..k + l], less);
      var a: Nodes<T>, b: Nodes<T>, c: Nodes<T> := s[..k], s[k..k + l], s[k + l..];
      assert s == a + b + c;
    }
  }

  lemma {:induction false} PassClass<T(!new)>(s: Nodes<T>, less: (T, T) -> bool, x: T)
    requires StrictWeakOrder(less)
    ensures Class(Pass(s, less), less, x) == Class(s, less, x)
    decreases |s|
  {
    if s != [] && RunLength(s, less) < |s| {
      var k := RunLength(s, less);
      var l := RunLength(s[k..], less);
      PassSplit(s, less, k, l);
      FirstRunSorted(s, less);
      PassClass(s[k + l..], less, x);
      MergeStable(s[..k], s[k..k + l], less, x);
      ClassConcat(Merge(s[..k], s[k..k + l], less), Pass(s[k + l..], less), less, x);
      ClassConcat(s[..k] + s[k..k + l], s[k + l..], less, x);
      ClassConcat(s[..k], s[k..k + l], less, x);
    }
  }

  /** Every pass keeps the nodes and the order of equivalent ones. */
  lemma PassStable<T(!new)>(s: Nodes<T>, less: (T, T) -> bool)
    requires StrictWeakOrder(less)
    ensures StablePermutation(s, Pass(s, less), less)
  {
    PassContents(s, less);
    forall x: T ensures Class(s, less, x) == Class(Pass(s, less), less, x) {
      PassClass(s, less, x);
    }
  }

  lemma StableTransitive<T(!new)>(s: Nodes<T>, t: Nodes<T>, u: Nodes<T>, less: (T, T) -> bool)
    requires StablePermutation(s, t, less) && StablePermutation(t, u, less)
    ensures StablePermutation(s, u, less)
  {
  }

  /** Every pass at least halves the number of runs, rounding up. */
  lemma {:induction false} PassHalvesRuns<T(!new)>(s: Nodes<T>, less: (T, T) -> bool)
    requires StrictWeakOrder(less)
    ensures Runs(Pass(s, less), less) <= (Runs(s, less) + 1) / 2
    decreases |s|
  {
    if s != [] {
      RunsAfterFirst(s, less);
      var k := RunLength(s, less);
      if k < |s| {
        var l := RunLength(s[k..], less);
        PassSplit(s, less, k, l);
        RunsAfterFirst(s[k..], less);
        FirstRunSorted(s, less);
        FirstRunSorted(s[k..], less);
        var m := Merge(s[..k], s[k..k + l], less);
        MergeSorted(s[..k], s[k..k + l], less);
        RunsSorted(m, less);
        PassHalvesRuns(s[k + l..], less);
        RunsConcat(m, Pass(s[k + l..], less), less);
      }
    }
  }

  /** A list of at most two runs is sorted by one pass. */
  lemma LastPassSorts<T(!new)>(s: Nodes<T>, less: (T, T) -> bool)
    requires StrictWeakOrder(less) && Runs(s, less) <= 2
    ensures Sorted(Pass(s, less), less)
  {
    PassHalvesRuns(s, less);
    OneRunSorted(Pass(s, less), less);
  }
}
