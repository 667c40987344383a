/** The doubly linked lists of lib/kernel/list.c, on the heap: every operation rewires `prev`
    and `next` in place, and is specified by what it does to the sequence of nodes. */
module KernelList {
  import opened ListOrder

  ghost predicate Distinct<T(!new)>(s: Nodes<T>) {
    forall i, j :: 0 <= i < j < |s| ==> s[i] != s[j]
  }

  /** Neighbours in `s` point at each other. */
  ghost predicate Linked<T(!new)>(s: Nodes<T>)
    reads s
  {
    && (forall i {:trigger s[i].next} :: 0 <= i < |s| - 1 ==> s[i].next == s[i + 1])
    && (forall i {:trigger s[i].prev} :: 0 < i < |s| ==> s[i].prev == s[i - 1])
  }

  ghost function Inserted<T(!new)>(s: Nodes<T>, k: nat, x: ListElem<T>): Nodes<T>
    requires k <= |s|
  {
    s[..k] + [x] + s[k..]
  }

  lemma InsertedDistinct<T(!new)>(s: Nodes<T>, k: nat, x: ListElem<T>)
    requires 0 < k < |s| && Distinct(s) && x !in s
    ensures var t := Inserted(s, k, x);
            && Distinct(t) && (forall n :: n in t <==> n == x || n in s)
            && |t| == |s| + 1 && t[0] == s[0] && t[|t| - 1] == s[|s| - 1]
  {
    var t := Inserted(s, k, x);
    assert t[k] == x;
  }

  lemma RemovedDistinct<T(!new)>(s: Nodes<T>, k: nat)
    requires 0 < k < |s| - 1 && Distinct(s)
    ensures var t := s[..k] + s[k + 1..];
            && Distinct(t) && (forall n :: n in t <==> n in s && n != s[k])
            && |t| == |s| - 1 && t[0] == s[0] && t[|t| - 1] == s[|s| - 1]
  {
    var t := s[..k] + s[k + 1..];
    assert forall a {:trigger t[a]} :: 0 <= a < |t| ==> t[a] == s[if a < k then a else a + 1];
    forall n | n in s && n != s[k] ensures n in t {
      var a :| 0 <= a < |s| && s[a] == n;
      assert t[if a < k then a else a - 1] == n;
    }
  }

  /** Linking a new node between two neighbours. */
  lemma InsertedLinked<T(!new)>(s: Nodes<T>, k: nat, x: ListElem<T>)
    requires 0 < k < |s|
    requires forall i {:trigger s[i].next} :: 0 <= i < |s| - 1 && i != k - 1 ==> s[i].next == s[i + 1]
    requires forall i {:trigger s[i].prev} :: 0 < i < |s| && i != k ==> s[i].prev == s[i - 1]
    requires s[k - 1].next == x && x.prev == s[k - 1] && x.next == s[k] && s[k].prev == x
    ensures Linked(Inserted(s, k, x))
  {
    SegmentLinked(s, 0, k);
    SegmentLinked(s, k, |s|);
    LinkedJoin(s[..k], [x]);
    LinkedJoin(s[..k] + [x], s[k..]);
  }

  /** The sequence after moving s[f..l] to just before index i. */
  ghost function Moved<T(!new)>(s: Nodes<T>, i: nat, f: nat, l: nat): Nodes<T>
    requires i <= f <= l <= |s|
  {
    s[..i] + s[f..l] + s[i..f] + s[l..]
  }

  /** The sequence after moving s[f..l] to just before index i, which may be on either side. */
  ghost function Spliced<T(!new)>(s: Nodes<T>, i: nat, f: nat, l: nat): Nodes<T>
    requires i <= |s| && f <= l <= |s|
  {
    if f == l then s
    else if i <= f then s[..i] + s[f..l] + s[i..f] + s[l..]
    else if l <= i then s[..f] + s[l..i] + s[f..l] + s[i..]
    else s
  }

  lemma SplicedIs<T(!new)>(s: Nodes<T>, i: nat, f: nat, l: nat)
    requires i <= |s| && f <= l <= |s|
    ensures i <= f < l ==> Spliced(s, i, f, l) == Moved(s, i, f, l)
    ensures f < l <= i ==> Spliced(s, i, f, l) == Moved(s, f, l, i)
  {
  }

  lemma NotTheSame<T(!new)>(s: Nodes<T>, f: nat, l: nat)
    requires f < |s| && l < |s| && s[f] != s[l]
    ensures f != l
  {
  }

  lemma SplicedNothing<T(!new)>(s: Nodes<T>, i: nat, f: nat, l: nat)
    requires i < |s| && f <= l < |s| && Distinct(s) && (s[f] == s[l] || s[i] == s[l])
    ensures Spliced(s, i, f, l) == s
  {
    assert f == l || i == l;
    assert f < l && i == l ==> s[..f] + s[l..i] + s[f..l] + s[i..] == s;
  }

  lemma MovedEnds<T(!new)>(s: Nodes<T>, i: nat, f: nat, l: nat)
    requires 0 < i <= f <= l < |s|
    ensures var t := Moved(s, i, f, l);
            |t| == |s| && t[0] == s[0] && t[|t| - 1] == s[|s| - 1]
  {
  }

  lemma MovedDistinct<T(!new)>(s: Nodes<T>, i: nat, f: nat, l: nat)
    requires i <= f <= l <= |s| && Distinct(s)
    ensures Distinct(Moved(s, i, f, l))
    ensures forall n :: n in Moved(s, i, f, l) <==> n in s
  {
    var t := Moved(s, i, f, l);
    forall a, b | 0 <= a < b < |t| ensures t[a] != t[b] {
      assert t[a] == s[Origin(i, f, l, a)] && t[b] == s[Origin(i, f, l, b)];
    }
  }

  /** Where the node at index a of the moved sequence came from. */
  ghost function Origin(i: nat, f: nat, l: nat, a: nat): nat
    requires i <= f <= l
  {
    if i <= a < i + l - f then a - i + f else if i + l - f <= a < l then a - (l - f) else a
  }

  lemma LinkedJoin<T(!new)>(a: Nodes<T>, b: Nodes<T>)
    requires Linked(a) && Linked(b)
    requires a != [] && b != [] ==> a[|a| - 1].next == b[0] && b[0].prev == a[|a| - 1]
    ensures Linked(a + b)
  {
  }

  /** The links of `s` after its segment f..l has been hooked in front of index i. */
  ghost predicate Rewired<T(!new)>(s: Nodes<T>, i: nat, f: nat, l: nat)
    requires 0 < i < f < l < |s|
    reads s
  {
    && (forall k {:trigger s[k].next} :: 0 <= k < |s| - 1 ==>
          s[k].next == s[if k == i - 1 then f else if k == l - 1 then i else if k == f - 1 then l else k + 1])
    && (forall k {:trigger s[k].prev} :: 0 < k < |s| ==>
          s[k].prev == s[if k == i then l - 1 else if k == f then i - 1 else if k == l then f - 1 else k - 1])
  }

  /** The links of `s` after the six assignments of `list_splice`, which write nothing else. */
  ghost predicate Written<T(!new)>(s: Nodes<T>, i: nat, f: nat, l: nat)
    requires 0 < i < |s| && 0 < f < l < |s| && (i < f || l <= i)
    reads s
  {
    && s[f - 1].next == s[if i == l then f else l] && s[l].prev == s[if i == l then l - 1 else f - 1]
    && s[f].prev == s[if i == l then f - 1 else i - 1] && s[l - 1].next == s[i]
    && s[i - 1].next == s[if i == l then i else f] && s[i].prev == s[l - 1]
    && (forall k {:trigger s[k].next} :: 0 <= k < |s| - 1 && k != f - 1 && k != l - 1 && k != i - 1 ==> s[k].next == s[k + 1])
    && (forall k {:trigger s[k].prev} :: 0 < k < |s| && k != f && k != l && k != i ==> s[k].prev == s[k - 1])
  }

  lemma WrittenLinks<T(!new)>(s: Nodes<T>, i: nat, f: nat, l: nat)
    requires 0 < i < |s| && 0 < f < l < |s| && (i < f || l <= i) && Written(s, i, f, l)
    ensures i < f ==> Rewired(s, i, f, l)
    ensures l < i ==> Rewired(s, f, l, i)
    ensures i == l ==> Linked(s)
  {
  }

  lemma RewiredLinked<T(!new)>(s: Nodes<T>, i: nat, f: nat, l: nat)
    requires 0 < i < f < l < |s| && Rewired(s, i, f, l)
    ensures Linked(Moved(s, i, f, l))
  {
    var pre: Nodes<T>, mov: Nodes<T>, mid: Nodes<T>, post: Nodes<T>
      := s[..i], s[f..l], s[i..f], s[l..];
    SegmentLinked(s, 0, i);
    SegmentLinked(s, f, l);
    SegmentLinked(s, i, f);
    SegmentLinked(s, l, |s|);
    assert pre[|pre| - 1] == s[i - 1] && mov[0] == s[f] && mov[|mov| - 1] == s[l - 1];
    assert mid[0] == s[i] && mid[|mid| - 1] == s[f - 1] && post[0] == s[l];
    assert s[i - 1].next == s[f] && s[f].prev == s[i - 1] && s[l - 1].next == s[i] && s[i].prev == s[l - 1];
    assert s[f - 1].next == s[l] && s[l].prev == s[f - 1];
    LinkedJoin(pre, mov);
    var a: Nodes<T> := pre + mov;
    assert a[|a| - 1] == s[l - 1];
    LinkedJoin(a, mid);
    var b: Nodes<T> := a + mid;
    assert b[|b| - 1] == s[f - 1];
    LinkedJoin(b, post);
  }

  lemma SegmentLinked<T(!new)>(s: Nodes<T>, lo: nat, hi: nat)
    requires lo <= hi <= |s|
    requires forall k {:trigger s[k].next} :: lo <= k < hi - 1 ==> s[k].next == s[k + 1]
    requires forall k {:trigger s[k].prev} :: lo < k < hi ==> s[k].prev == s[k - 1]
    ensures Linked(s[lo..hi])
  {
  }

  /** The nodes with s[i..j] and s[j..m] merged in place. */
  ghost function Merged<T(!new)>(s: Nodes<T>, i: nat, j: nat, m: nat, less: (T, T) -> bool): Nodes<T>
    requires i <= j <= m <= |s|
  {
    s[..i] + Merge(s[i..j], s[j..m], less) + s[m..]
  }

  /** Stepping over the smaller front of the first run leaves the merge to be done. */
  lemma {:induction false} MergeAdvance<T(!new)>(s: Nodes<T>, i: nat, j: nat, m: nat, less: (T, T) -> bool)
    requires i < j < m <= |s| && !less(s[j].data, s[i].data)
    ensures Merged(s, i + 1, j, m, less) == Merged(s, i, j, m, less)
  {
    var a: Nodes<T>, b: Nodes<T> := s[i..j], s[j..m];
    assert a[1..] == s[i + 1..j];
    assert Merge(a, b, less) == [s[i]] + Merge(s[i + 1..j], b, less);
    assert s[..i + 1] == s[..i] + [s[i]];
  }

  /** So does hooking the smaller front of the second run in before the first. */
  lemma {:induction false} MergeHook<T(!new)>(s: Nodes<T>, i: nat, j: nat, m: nat, less: (T, T) -> bool)
    requires i < j < m < |s| && less(s[j].data, s[i].data)
    ensures var t := Moved(s, i, j, j + 1);
            && |t| == |s| && Merged(t, i + 1, j + 1, m, less) == Merged(s, i, j, m, less)
            && t[i + 1] == s[i] && t[j + 1] == s[j + 1] && t[m..] == s[m..]
  {
    var t := Moved(s, i, j, j + 1);
    var a: Nodes<T>, b: Nodes<T> := s[i..j], s[j..m];
    assert b[1..] == s[j + 1..m];
    assert Merge(a, b, less) == [s[j]] + Merge(a, s[j + 1..m], less);
    assert t[..i + 1] == s[..i] + [s[j]];
    assert t[i + 1..j + 1] == a && t[j + 1..m] == s[j + 1..m] && t[m..] == s[m..];
  }

  /** Once one run is used up there is nothing left to do. */
  lemma {:induction false} MergeDone<T(!new)>(s: Nodes<T>, i: nat, j: nat, m: nat, less: (T, T) -> bool)
    requires i <= j <= m < |s| && Distinct(s) && (s[i] == s[j] || s[j] == s[m])
    ensures Merged(s, i, j, m, less) == s
  {
    assert i == j || j == m;
    assert s == s[..i] + s[i..m] + s[m..];
  }

  /** Scanning one element further along a run. */
  lemma {:induction false} RunStep<T(!new)>(s: Nodes<T>, i: nat, m: nat, less: (T, T) -> bool)
    requires i < m <= |s|
    ensures RunLength(s[i..m], less) ==
            if i + 1 == m || less(s[i + 1].data, s[i].data) then 1 else 1 + RunLength(s[i + 1..m], less)
  {
    if i + 1 < m {
      assert s[i..m][1..] == s[i + 1..m];
    }
  }

  /** The nodes with the elements from index i on put through one pass. */
  ghost function Passed<T(!new)>(s: Nodes<T>, i: nat, less: (T, T) -> bool): Nodes<T>
    requires 0 < i < |s|
  {
    s[..i] + Pass(s[i..|s| - 1], less) + s[|s| - 1..]
  }

  lemma SameNode<T(!new)>(s: Nodes<T>, i: nat, j: nat)
    requires Distinct(s) && i < |s| && j < |s| && s[i] == s[j]
    ensures i == j
  {
  }

  lemma SliceTail<T>(s: seq<T>, i: nat, j: nat, n: nat)
    requires i <= j <= n <= |s|
    ensures s[i..n][j - i..] == s[j..n] && s[i..n][..j - i] == s[i..j]
  {
  }

  lemma ThreeParts<T>(x: seq<T>, y: seq<T>, z: seq<T>, m: nat)
    requires m == |x| + |y|
    ensures (x + y + z)[..m] == x + y && (x + y + z)[m..] == z
  {
  }

  /** Merging the next two runs in place is one step of the pass. */
  lemma {:induction false} PassAdvance<T(!new)>(
      s: Nodes<T>, i: nat, j: nat, m: nat, n: nat, less: (T, T) -> bool)
    requires 0 < i < j < m <= n == |s| - 1
    requires j - i == RunLength(s[i..n], less) && m - j == RunLength(s[j..n], less)
    ensures var t := Merged(s, i, j, m, less);
            && |t| == |s| && Passed(t, m, less) == Passed(s, i, less)
            && t[m..] == s[m..] && t[m..n] == s[m..n]
  {
    hide RunLength, Merge, Pass;
    var rest: Nodes<T> := s[i..n];
    SliceTail(s, i, j, n);
    SliceTail(s, j, m, n);
    SliceTail(s, i, m, n);
    PassSplit(rest, less, j - i, m - j);
    var x: Nodes<T>, y: Nodes<T> := s[..i], Merge(s[i..j], s[j..m], less);
    MergeLength(s[i..j], s[j..m], less);
    ThreeParts(x, y, s[m..], m);
    var p: Nodes<T> := Pass(s[m..n], less);
    assert s[m..][..n - m] == s[m..n] && s[m..][n - m..] == s[n..];
    PassPieces(s, Merged(s, i, j, m, less), x, y, p, i, j, m, n, less);
  }

  lemma {:induction false} PassPieces<T(!new)>(
      s: Nodes<T>, t: Nodes<T>, x: Nodes<T>, y: Nodes<T>, p: Nodes<T>,
      i: nat, j: nat, m: nat, n: nat, less: (T, T) -> bool)
    requires 0 < i < j < m <= n == |s| - 1 && |t| == |s|
    requires t[..m] == x + y && t[m..] == s[m..] && s[..i] == x
    requires Pass(s[i..n], less) == y + p && Pass(s[m..n], less) == p
    ensures Passed(t, m, less) == Passed(s, i, less)
  {
    hide Pass;
    assert t[m..n] == t[m..][..n - m] == s[m..][..n - m] == s[m..n];
    assert t[n..] == t[m..][n - m..] == s[m..][n - m..] == s[n..];
    assert x + y + p == x + (y + p);
  }

  lemma {:induction false} RunsAdvance<T(!new)>(
      s: Nodes<T>, i: nat, j: nat, m: nat, n: nat, less: (T, T) -> bool)
    requires 0 < i < j < m <= n == |s| - 1
    requires j - i == RunLength(s[i..n], less) && m - j == RunLength(s[j..n], less)
    requires StrictWeakOrder(less)
    ensures Runs(s[i..n], less) == 2 + Runs(s[m..n], less)
    ensures Sorted(s[i..j], less) && Sorted(s[j..m], less)
  {
    hide Runs, RunLength, Sorted, StrictWeakOrder;
    RunsAfterFirst(s[i..n], less);
    RunsAfterFirst(s[j..n], less);
    FirstRunSorted(s[i..n], less);
    FirstRunSorted(s[j..n], less);
    SliceTail(s, i, j, n);
    SliceTail(s, j, m, n);
  }

  /** A pass ends after a last single run, or with nothing left. */
  lemma {:induction false} PassLast<T(!new)>(s: Nodes<T>, i: nat, n: nat, less: (T, T) -> bool)
    requires 0 < i <= n == |s| - 1 && (i == n || n - i == RunLength(s[i..n], less))
    ensures Passed(s, i, less) == s
    ensures Runs(s[i..n], less) == if i == n then 0 else 1
  {
    var rest: Nodes<T> := s[i..n];
    assert Pass(rest, less) == rest;
    if rest != [] {
      RunsAfterFirst(rest, less);
    }
  }

  lemma PassedElems<T(!new)>(s: Nodes<T>, less: (T, T) -> bool)
    requires |s| >= 2
    ensures var t := Passed(s, 1, less);
            |t| == |s| && t[1..|t| - 1] == Pass(s[1..|s| - 1], less)
  {
    hide Pass;
    PassContents(s[1..|s| - 1], less);
    assert |multiset(s[1..|s| - 1])| == |multiset(Pass(s[1..|s| - 1], less))|;
  }

  class List<T(0,!new)> {
    const head: ListElem<T>
    const tail: ListElem<T>
    /** The header `head`, the elements in order, the header `tail`. */
    ghost var nodes: Nodes<T>
    ghost var repr: set<ListElem<T>>

    ghost predicate Valid()
      reads this, repr
    {
      && (forall n | n in nodes :: n in repr) && (forall n | n in repr :: n in nodes)
      && |nodes| >= 2 && nodes[0] == head && nodes[|nodes| - 1] == tail
      && Distinct(nodes) && Linked(nodes)
      && head.prev == null && tail.next == null
    }

    ghost function Elems(): Nodes<T>
      reads this
    {
      if |nodes| < 2 then [] else nodes[1..|nodes| - 1]
    }

    constructor ()
      ensures Valid() && Elems() == [] && fresh(repr)
    {
      var any: T := *;
      head := new ListElem(any);
      tail := new ListElem(any);
      new;
      head.prev, head.next, tail.prev, tail.next := null, tail, head, null;
      nodes, repr := [head, tail], {head, tail};
    }

    /** `list_insert`: puts `elem` before the node at index k. */
    method Insert(before: ListElem<T>, elem: ListElem<T>, ghost k: nat)
      requires Valid() && 0 < k < |nodes| && nodes[k] == before && elem !in repr
      modifies this, repr, elem
      ensures Valid() && nodes == Inserted(old(nodes), k, elem)
      ensures repr == old(repr) + {elem}
    {
      elem.prev := before.prev;
      elem.next := before;
      before.prev.next := elem;
      before.prev := elem;
      InsertedLinked(nodes, k, elem);
      InsertedDistinct(nodes, k, elem);
      nodes, repr := Inserted(nodes, k, elem), repr + {elem};
    }

    /** `list_remove`: unlinks the element at index k and returns its successor. */
    method Remove(elem: ListElem<T>, ghost k: nat) returns (next: ListElem<T>)
      requires Valid() && 0 < k < |nodes| - 1 && nodes[k] == elem
      modifies this, repr
      ensures Valid() && nodes == old(nodes)[..k] + old(nodes)[k + 1..]
      ensures next == old(nodes)[k + 1] && repr == old(repr) - {elem}
    {
      RemovedDistinct(nodes, k);
      assert nodes[k - 1].next == elem && nodes[k + 1].prev == elem;
      elem.prev.next := elem.next;
      elem.next.prev := elem.prev;
      next := elem.next;
      SegmentLinked(nodes, 0, k);
      SegmentLinked(nodes, k + 1, |nodes|);
      LinkedJoin(nodes[..k], nodes[k + 1..]);
      nodes, repr := nodes[..k] + nodes[k + 1..], repr - {elem};
    }

    lemma Members(n: ListElem<T>)
      requires Valid()
      ensures n in repr <==> n == head || n == tail || n in Elems()
      ensures head !in Elems() && tail !in Elems()
    {
      assert forall i {:trigger nodes[i]} :: 0 < i < |nodes| - 1 ==> nodes[i] == Elems()[i - 1];
      assert nodes[0] == head && nodes[|nodes| - 1] == tail;
    }

    /** `list_empty`. */
    method IsEmpty() returns (empty: bool)
      requires Valid()
      ensures empty <==> Elems() == []
    {
      empty := head.next == tail;
      assert nodes[0].next == nodes[1];
    }

    /** `list_push_back`. */
    method PushBack(elem: ListElem<T>)
      requires Valid() && elem !in repr
      modifies this, repr, elem
      ensures Valid() && Elems() == old(Elems()) + [elem] && repr == old(repr) + {elem}
    {
      hide Linked, Distinct;
      Insert(tail, elem, |nodes| - 1);
    }

    /** `list_pop_front`. */
    method PopFront() returns (elem: ListElem<T>)
      requires Valid() && Elems() != []
      modifies this, repr
      ensures Valid() && [elem] + Elems() == old(Elems()) && repr == old(repr) - {elem}
    {
      assert nodes[0].next == nodes[1];
      elem := head.next;
      var _ := Remove(elem, 1);
    }

    /** The six pointer assignments of `list_splice`, for a nonempty range f..l and a node at index i
        outside it: what they write, and that they write nothing else. */
    method Rewire(before: ListElem<T>, first: ListElem<T>, last: ListElem<T>,
                  ghost i: nat, ghost f: nat, ghost l: nat)
      requires Valid() && 0 < i < |nodes| && 0 < f < l < |nodes| && (i < f || l <= i)
      requires nodes[i] == before && nodes[f] == first && nodes[l - 1] == last
      modifies repr
      ensures Written(nodes, i, f, l) && head.prev == null && tail.next == null
    {
      assert nodes[f - 1].next == nodes[f] && nodes[f].prev == nodes[f - 1];
      assert nodes[l - 1].next == nodes[l] && nodes[i].prev == nodes[i - 1];
      first.prev.next := last.next;
      last.next.prev := first.prev;
      first.prev := before.prev;
      last.next := before;
      before.prev.next := first;
      before.prev := last;
    }

    /** `list_splice` within one list: moves nodes f..l to just before index i, which is outside the
        range.  A nonempty range must not start at `before` itself, or the links would form a cycle. */
    method Splice(before: ListElem<T>, first: ListElem<T>, last0: ListElem<T>,
                  ghost i: nat, ghost f: nat, ghost l: nat)
      requires Valid() && 0 < i < |nodes| && 0 < f <= l < |nodes| && (i < f || l <= i || f == l)
      requires nodes[i] == before && nodes[f] == first && nodes[l] == last0
      modifies this, repr
      ensures Valid() && repr == old(repr) && nodes == Spliced(old(nodes), i, f, l)
    {
      if first == last0 {
        SplicedNothing(nodes, i, f, l);
        return;
      }
      hide Distinct, Spliced, Written;
      NotTheSame(nodes, f, l);
      Rewire(before, first, last0.prev, i, f, l);
      Finish(i, f, l);
    }

    ghost predicate NodesOk()
      reads this
    {
      && (forall n | n in nodes :: n in repr) && (forall n | n in repr :: n in nodes)
      && |nodes| >= 2 && nodes[0] == head && nodes[|nodes| - 1] == tail && Distinct(nodes)
    }

    ghost method Finish(i: nat, f: nat, l: nat)
      requires NodesOk() && 0 < i < |nodes| && 0 < f < l < |nodes| && (i < f || l <= i)
      requires Written(nodes, i, f, l) && head.prev == null && tail.next == null
      modifies this`nodes
      ensures Valid() && nodes == Spliced(old(nodes), i, f, l)
    {
      hide Moved, Rewired, Distinct, Spliced, Written, Linked;
      WrittenLinks(nodes, i, f, l);
      SplicedIs(nodes, i, f, l);
      if i == l {
        SplicedNothing(nodes, i, f, l);
      } else if i < f {
        Relink(i, f, l);
      } else {
        Relink(f, l, i);
      }
    }

    ghost method Relink(i: nat, f: nat, l: nat)
      requires NodesOk() && 0 < i < f < l < |nodes| && Rewired(nodes, i, f, l) && head.prev == null && tail.next == null
      modifies this`nodes
      ensures Valid() && nodes == Moved(old(nodes), i, f, l)
    {
      hide Moved, Rewired, Distinct, Linked;
      RewiredLinked(nodes, i, f, l);
      MovedDistinct(nodes, i, f, l);
      MovedEnds(nodes, i, f, l);
      nodes := Moved(nodes, i, f, l);
    }

    /** `find_end_of_run`: the end of the natural run that starts at index i. */
    method FindEndOfRun(a: ListElem<T>, b: ListElem<T>, less: (T, T) -> bool, ghost i: nat, ghost m: nat)
        returns (e: ListElem<T>, ghost j: nat)
      requires Valid() && 0 < i < m < |nodes| && nodes[i] == a && nodes[m] == b
      ensures j == i + RunLength(nodes[i..m], less) && i < j <= m
      ensures e == nodes[i + RunLength(nodes[i..m], less)]
    {
      hide RunLength;
      e, j := a.next, i + 1;
      RunStep(nodes, i, m, less);
      while e != b && !less(e.data, e.prev.data)
        invariant i < j <= m && nodes[j] == e
        invariant RunLength(nodes[i..m], less) == j - 1 - i + RunLength(nodes[j - 1..m], less)
        decreases m - j
      {
        RunStep(nodes, j - 1, m, less);
        e, j := e.next, j + 1;
      }
      RunStep(nodes, j - 1, m, less);
    }

    /** The splicing branch of `inplace_merge`: the front of the second run goes before a0. */
    method HookFront(a0: ListElem<T>, front: ListElem<T>, ghost i: nat, ghost j: nat)
        returns (a1b0: ListElem<T>)
      requires Valid() && 0 < i < j < |nodes| - 1 && nodes[i] == a0 && nodes[j] == front
      modifies this, repr
      ensures Valid() && repr == old(repr) && nodes == Moved(old(nodes), i, j, j + 1)
      ensures a1b0 == old(nodes)[j + 1]
    {
      hide Moved, Spliced, Distinct;
      a1b0 := front.next;
      SplicedIs(nodes, i, j, j + 1);
      Splice(a0, a1b0.prev, a1b0, i, j, j + 1);
    }

    /** `inplace_merge`: merges the sorted ranges i..j and j..m by splicing. */
    method InplaceMerge(a: ListElem<T>, a1: ListElem<T>, b1: ListElem<T>, less: (T, T) -> bool,
                        ghost i0: nat, ghost j0: nat, ghost m: nat)
      requires Valid() && 0 < i0 <= j0 <= m < |nodes|
      requires nodes[i0] == a && nodes[j0] == a1 && nodes[m] == b1
      requires Sorted(nodes[i0..j0], less) && Sorted(nodes[j0..m], less)
      modifies this, repr
      ensures Valid() && repr == old(repr) && nodes == Merged(old(nodes), i0, j0, m, less)
    {
      hide Moved, Merged, Distinct;
      var a0, a1b0 := a, a1;
      ghost var i, j := i0, j0;
      while a0 != a1b0 && a1b0 != b1
        invariant Valid() && repr == old(repr)
        invariant 0 < i <= j <= m < |nodes| == |old(nodes)|
        invariant nodes[i] == a0 && nodes[j] == a1b0 && nodes[m..][0] == b1
        invariant Merged(nodes, i, j, m, less) == Merged(old(nodes), i0, j0, m, less)
        decreases m - i
      {
        if !less(a1b0.data, a0.data) {
          MergeAdvance(nodes, i, j, m, less);
          a0, i := a0.next, i + 1;
        } else {
          MergeHook(nodes, i, j, m, less);
          a1b0 := HookFront(a0, a1b0, i, j);
          i, j := i + 1, j + 1;
        }
      }
      MergeDone(nodes, i, j, m, less);
    }

    /** The body of the outer loop of `list_sort`: one pass, returning how many runs it left. */
    method MergePass(less: (T, T) -> bool) returns (outputRunCnt: nat)
      requires Valid() && StrictWeakOrder(less)
      modifies this, repr
      ensures Valid() && repr == old(repr) && Elems() == Pass(old(Elems()), less)
      ensures outputRunCnt == (Runs(old(Elems()), less) + 1) / 2
    {
      hide Merged, Passed, Distinct, Sorted, StrictWeakOrder, Runs, RunLength;
      outputRunCnt := 0;
      var a0 := head.next;
      ghost var i, n := 1, |nodes| - 1;
      while a0 != tail
        invariant Valid() && repr == old(repr) && |nodes| == n + 1
        invariant 0 < i <= n && nodes[i] == a0
        invariant Passed(nodes, i, less) == Passed(old(nodes), 1, less)
        invariant 2 * outputRunCnt + Runs(nodes[i..n], less) == Runs(old(nodes)[1..n], less)
        decreases n - i
      {
        outputRunCnt := outputRunCnt + 1;
        var a1b0, j := FindEndOfRun(a0, tail, less, i, n);
        if a1b0 == tail {
          SameNode(nodes, j, n);
          PassLast(nodes, i, n, less);
          PassedElems(old(nodes), less);
          return;
        }
        var b1, m := FindEndOfRun(a1b0, tail, less, j, n);
        RunsAdvance(nodes, i, j, m, n, less);
        PassAdvance(nodes, i, j, m, n, less);
        InplaceMerge(a0, a1b0, b1, less, i, j, m);
        a0, i := b1, m;
      }
      SameNode(nodes, i, n);
      PassLast(nodes, i, n, less);
      PassedElems(old(nodes), less);
    }

    /** `list_sort`: repeats passes until one run is left.  The number of runs left at least
        halves with every pass, and the result is a sorted stable permutation. */
    method Sort(less: (T, T) -> bool)
      requires Valid() && StrictWeakOrder(less)
      modifies this, repr
      ensures Valid() && repr == old(repr)
      ensures Sorted(Elems(), less) && StablePermutation(old(Elems()), Elems(), less)
    {
      hide Runs, Sorted, StrictWeakOrder, StablePermutation, Linked, Distinct;
      PassStable(Elems(), less);
      PassHalvesRuns(Elems(), less);
      var outputRunCnt := MergePass(less);
      while outputRunCnt > 1
        invariant Valid() && repr == old(repr)
        invariant StablePermutation(old(Elems()), Elems(), less)
        invariant Runs(Elems(), less) <= outputRunCnt
        decreases outputRunCnt
      {
        ghost var before := Elems();
        PassStable(before, less);
        PassHalvesRuns(before, less);
        outputRunCnt := MergePass(less);
        StableTransitive(old(Elems()), before, Elems(), less);
      }
      OneRunSorted(Elems(), less);
    }
  }
}
