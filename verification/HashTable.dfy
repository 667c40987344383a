/** The resizing hash table (lib/kernel/hash.c): buckets of elements that stand for a set in which no
    two elements are equal in the table's own sense. */
module HashTable {
  import opened Common
  import opened Arithmetic
  import opened PowersOfTwo

  const MIN_BUCKETS: nat := 4
  const BEST_ELEMS_PER_BUCKET: nat := 2

  /** Neither less than the other. */
  predicate Same<E>(less: (E, E) -> bool, x: E, y: E) { !less(x, y) && !less(y, x) }

  /** What the table asks of its functions: being the same is an equivalence, and hashing respects it. */
  ghost predicate Suitable<E(!new)>(hash: E -> nat, less: (E, E) -> bool) {
    && (forall x {:trigger less(x, x)} :: !less(x, x))
    && (forall x, y, z {:trigger Same(less, x, y), Same(less, y, z)} :: Same(less, x, y) && Same(less, y, z) ==> Same(less, x, z))
    && (forall x, y {:trigger Same(less, x, y)} :: Same(less, x, y) ==> hash(x) == hash(y))
  }

  /** `find_bucket`. */
  function BucketIdx(h: nat, cnt: nat): nat
    requires 0 < cnt
  {
    And(h, cnt - 1)
  }

  /** The mask stays inside a table whose size is a power of two, where it is the remainder. */
  lemma BucketInRange(h: nat, cnt: nat)
    requires IsPow2(cnt)
    ensures BucketIdx(h, cnt) == h % cnt < cnt
  {
    hide And;
    PowerTest(cnt);
    MaskIsRemainder(h, Log2(cnt));
  }

  /** No two elements of a list are the same. */
  ghost predicate Distinct<E>(less: (E, E) -> bool, s: seq<E>) {
    forall i, j {:trigger s[i], s[j]} :: 0 <= i < j < |s| ==> !Same(less, s[i], s[j])
  }

  /** The buckets hold exactly `members`, each element in its bucket, none twice. */
  ghost predicate Holds<E(!new)>(buckets: seq<seq<E>>, members: set<E>, hash: E -> nat, less: (E, E) -> bool) {
    && IsPow2(|buckets|) && MIN_BUCKETS <= |buckets|
    && (forall i, e {:trigger e in buckets[i]} :: 0 <= i < |buckets| && e in buckets[i] ==> e in members && BucketIdx(hash(e), |buckets|) == i)
    && (forall e {:trigger e in members} :: e in members ==> InTable(buckets, e, hash))
    && (forall i {:trigger buckets[i]} :: 0 <= i < |buckets| ==> Distinct(less, buckets[i]))
  }

  ghost predicate InTable<E(!new)>(buckets: seq<seq<E>>, e: E, hash: E -> nat)
    requires 0 < |buckets|
  {
    BucketIdx(hash(e), |buckets|) < |buckets| && e in buckets[BucketIdx(hash(e), |buckets|)]
  }

  function Remove<E(==)>(s: seq<E>, e: E): (r: seq<E>) {
    if s == [] then [] else if s[0] == e then s[1..] else [s[0]] + Remove(s[1..], e)
  }

  lemma {:induction false} RemoveFacts<E(!new)>(less: (E, E) -> bool, s: seq<E>, e: E)
    requires Distinct(less, s) && Same(less, e, e)
    ensures Distinct(less, Remove(s, e))
    ensures var r := Remove(s, e); forall x {:trigger x in r} :: x in r <==> x in s && x != e
  {
    hide Same;
    if s != [] {
      var rest := s[1..];
      assert Distinct(less, rest);
      RemoveFacts(less, rest, e);
      if s[0] == e {
        assert e !in rest;
      } else {
        var r := Remove(rest, e);
        forall x | x in r ensures !Same(less, s[0], x) {
          assert x in rest;
        }
        DistinctCons(less, s[0], r);
      }
    }
  }

  lemma DistinctCons<E(!new)>(less: (E, E) -> bool, e: E, s: seq<E>)
    requires Distinct(less, s) && forall x {:trigger x in s} :: x in s ==> !Same(less, e, x)
    ensures Distinct(less, [e] + s)
  {
    hide Same;
    var t := [e] + s;
    forall i, j {:trigger t[i], t[j]} | 0 <= i < j < |t| ensures !Same(less, t[i], t[j]) {
      assert t[j] == s[j - 1] && t[j] in s;
      if i > 0 {
        assert t[i] == s[i - 1];
      }
    }
  }

  lemma DistinctAt<E>(less: (E, E) -> bool, s: seq<E>, i: nat, j: nat)
    requires Distinct(less, s) && i < |s| && j < |s|
    ensures i != j ==> !Same(less, s[i], s[j])
  {
    if j < i {
      assert !Same(less, s[j], s[i]);
    }
  }

  lemma SelfSame<E(!new)>(hash: E -> nat, less: (E, E) -> bool, e: E)
    requires Suitable(hash, less)
    ensures Same(less, e, e)
  {
  }

  /** Members that are the same are one. */
  lemma MembersDistinct<E(!new)>(buckets: seq<seq<E>>, members: set<E>, hash: E -> nat, less: (E, E) -> bool, x: E, y: E)
    requires Suitable(hash, less) && Holds(buckets, members, hash, less) && x in members && y in members && Same(less, x, y)
    ensures x == y
  {
    hide BucketIdx, IsPow2;
    var i := BucketIdx(hash(x), |buckets|);
    assert InTable(buckets, x, hash) && InTable(buckets, y, hash);
    assert hash(x) == hash(y);
    var b := buckets[i];
    var j :| 0 <= j < |b| && b[j] == x;
    var k :| 0 <= k < |b| && b[k] == y;
    assert Distinct(less, b);
    DistinctAt(less, b, j, k);
  }

  /** A new element at the front of its bucket. */
  lemma HoldsAdd<E(!new)>(buckets: seq<seq<E>>, members: set<E>, hash: E -> nat, less: (E, E) -> bool, e: E)
    requires Suitable(hash, less) && Holds(buckets, members, hash, less)
    requires forall m {:trigger m in members} :: m in members ==> !Same(less, e, m)
    ensures var i := BucketIdx(hash(e), |buckets|);
      i < |buckets| && Holds(buckets[i := [e] + buckets[i]], members + {e}, hash, less)
  {
    hide BucketIdx, IsPow2, Same;
    BucketInRange(hash(e), |buckets|);
    var i := BucketIdx(hash(e), |buckets|);
    var buckets', members' := buckets[i := [e] + buckets[i]], members + {e};
    DistinctCons(less, e, buckets[i]);
    forall x | x in members' ensures InTable(buckets', x, hash) {
      if x != e {
        assert InTable(buckets, x, hash);
      }
    }
    forall k, x {:trigger x in buckets'[k]} | 0 <= k < |buckets'| && x in buckets'[k] ensures x in members' && BucketIdx(hash(x), |buckets'|) == k {
      if x in buckets[k] {
        assert x in members;
      }
    }
  }

  lemma HoldsRemove<E(!new)>(buckets: seq<seq<E>>, members: set<E>, hash: E -> nat, less: (E, E) -> bool, e: E)
    requires Suitable(hash, less) && Holds(buckets, members, hash, less) && e in members
    ensures var i := BucketIdx(hash(e), |buckets|);
      i < |buckets| && Holds(buckets[i := Remove(buckets[i], e)], members - {e}, hash, less)
  {
    hide BucketIdx, IsPow2, Same, Remove;
    assert InTable(buckets, e, hash);
    var i := BucketIdx(hash(e), |buckets|);
    SelfSame(hash, less, e);
    RemoveFacts(less, buckets[i], e);
    var buckets', members' := buckets[i := Remove(buckets[i], e)], members - {e};
    forall x | x in members' ensures InTable(buckets', x, hash) {
      assert InTable(buckets, x, hash);
    }
    forall k, x {:trigger x in buckets'[k]} | 0 <= k < |buckets'| && x in buckets'[k] ensures x in members' && BucketIdx(hash(x), |buckets'|) == k {
      assert x in buckets[k];
    }
  }

  class Table<E(==, !new)> {
    const hash: E -> nat
    const less: (E, E) -> bool
    var elemCnt: nat
    var buckets: seq<seq<E>>
    ghost var members: set<E>

    ghost predicate Valid()
      reads this
    {
      Suitable(hash, less) && Holds(buckets, members, hash, less) && elemCnt == |members|
    }

    /** The table that `hash_init` makes. */
    constructor (hash: E -> nat, less: (E, E) -> bool)
      requires Suitable(hash, less)
      ensures Valid() && members == {} && |buckets| == MIN_BUCKETS && this.hash == hash && this.less == less
    {
      this.hash, this.less := hash, less;
      elemCnt, members := 0, {};
      buckets := seq(MIN_BUCKETS, _ => []);
      PowerIsPower(2);
      assert Pow2(2) == 4;
    }

    /** `find_elem` in the element's bucket. */
    method Find(e: E) returns (found: Option<E>)
      requires Valid()
      ensures found.Some? ==> found.value in members && Same(less, found.value, e)
      ensures found.None? ==> forall m {:trigger m in members} :: m in members ==> !Same(less, m, e)
    {
      hide BucketIdx, IsPow2;
      BucketInRange(hash(e), |buckets|);
      var bucket := buckets[BucketIdx(hash(e), |buckets|)];
      for i := 0 to |bucket|
        invariant forall j {:trigger bucket[j]} :: 0 <= j < i ==> !Same(less, bucket[j], e)
      {
        if !less(bucket[i], e) && !less(e, bucket[i]) {
          assert bucket[i] in bucket;
          return Some(bucket[i]);
        }
      }
      forall m | m in members ensures !Same(less, m, e) {
        assert InTable(buckets, m, hash);
        assert m in bucket ==> !Same(less, m, e);
        assert Same(less, m, e) ==> hash(m) == hash(e);
      }
      return None;
    }

    /** `insert_elem`. */
    method InsertElem(e: E)
      requires Valid() && forall m {:trigger m in members} :: m in members ==> !Same(less, e, m)
      modifies this`buckets, this`elemCnt, this`members
      ensures Valid() && members == old(members) + {e} && |buckets| == old(|buckets|)
    {
      hide BucketIdx, IsPow2, Holds, Suitable;
      HoldsAdd(buckets, members, hash, less, e);
      SelfSame(hash, less, e);
      var i := BucketIdx(hash(e), |buckets|);
      elemCnt := elemCnt + 1;
      buckets := buckets[i := [e] + buckets[i]];
      members := members + {e};
    }

    /** `remove_elem`. */
    method RemoveElem(e: E)
      requires Valid() && e in members
      modifies this`buckets, this`elemCnt, this`members
      ensures Valid() && members == old(members) - {e} && |buckets| == old(|buckets|)
    {
      hide BucketIdx, IsPow2, Holds, Suitable, Remove;
      HoldsRemove(buckets, members, hash, less, e);
      var i := BucketIdx(hash(e), |buckets|);
      elemCnt := elemCnt - 1;
      buckets := buckets[i := Remove(buckets[i], e)];
      members := members - {e};
    }

    /** `hash_insert`: inserts unless the same element is there, which is then returned. */
    method Insert(e: E, memory: bool) returns (prior: Option<E>)
      requires Valid()
      modifies this`buckets, this`elemCnt, this`members
      ensures Valid()
      ensures prior.Some? ==> prior.value in old(members) && Same(less, prior.value, e) && members == old(members)
      ensures prior.None? ==> (forall m :: m in old(members) ==> !Same(less, m, e)) && members == old(members) + {e}
    {
      hide Holds, Suitable;
      prior := Find(e);
      if prior.None? {
        InsertElem(e);
      }
      Rehash(memory);
    }

    /** `hash_replace`: afterwards e is the element of its kind. */
    method Replace(e: E, memory: bool) returns (prior: Option<E>)
      requires Valid()
      modifies this`buckets, this`elemCnt, this`members
      ensures Valid() && members == (if prior.Some? then old(members) - {prior.value} else old(members)) + {e}
      ensures prior.Some? ==> prior.value in old(members) && Same(less, prior.value, e)
      ensures prior.None? ==> forall m :: m in old(members) ==> !Same(less, m, e)
    {
      hide Holds, Suitable, Same;
      prior := Find(e);
      if prior.Some? {
        OnlyOne(buckets, members, hash, less, prior.value, e);
        RemoveElem(prior.value);
      } else {
        Symmetric(less, members, e);
      }
      InsertElem(e);
      Rehash(memory);
    }

    /** `hash_delete`. */
    method Delete(e: E, memory: bool) returns (found: Option<E>)
      requires Valid()
      modifies this`buckets, this`elemCnt, this`members
      ensures Valid() && members == if found.Some? then old(members) - {found.value} else old(members)
      ensures found.Some? ==> found.value in old(members) && Same(less, found.value, e)
      ensures found.None? ==> forall m :: m in old(members) ==> !Same(less, m, e)
    {
      hide Holds, Suitable, Same;
      found := Find(e);
      if found.Some? {
        RemoveElem(found.value);
        Rehash(memory);
      }
    }

    /** `rehash`: the same members in the best number of buckets, or in the old ones without memory. */
    method Rehash(memory: bool)
      requires Valid()
      modifies this`buckets
      ensures Valid()
      ensures var best := if elemCnt / BEST_ELEMS_PER_BUCKET < MIN_BUCKETS then MIN_BUCKETS else elemCnt / BEST_ELEMS_PER_BUCKET;
        if memory then |buckets| <= best < 2 * |buckets| else |buckets| == |old(buckets)|
    {
      hide BucketIdx, IsPow2, Holds, Suitable;
      var best := elemCnt / BEST_ELEMS_PER_BUCKET;
      if best < MIN_BUCKETS {
        best := MIN_BUCKETS;
      }
      var cnt := RoundDown(best);
      if cnt == |buckets| || !memory {
        return;
      }
      AtLeastFour(best, cnt);
      MoveAll(cnt);
    }

    /** The part of `rehash` that fills the new buckets. */
    method MoveAll(cnt: nat)
      requires Valid() && IsPow2(cnt) && MIN_BUCKETS <= cnt
      modifies this`buckets
      ensures Valid() && |buckets| == cnt
    {
      hide BucketIdx, IsPow2, Holds, Suitable;
      var prior := buckets;
      var fresh' := seq(cnt, _ => []);
      ghost var moved: set<E> := {};
      HoldsNothing(fresh', hash, less);
      for i := 0 to |prior|
        invariant |fresh'| == cnt && Holds(fresh', moved, hash, less)
        invariant moved == UpTo(prior, i)
      {
        var bucket := prior[i];
        for j := 0 to |bucket|
          invariant |fresh'| == cnt && Holds(fresh', moved, hash, less)
          invariant moved == UpTo(prior, i) + Elems(bucket[..j])
        {
          var e := bucket[j];
          NotMoved(prior, members, hash, less, i, j);
          HoldsAdd(fresh', moved, hash, less, e);
          var k := BucketIdx(hash(e), cnt);
          fresh' := fresh'[k := [e] + fresh'[k]];
          moved := moved + {e};
          ElemsNext(bucket, j);
        }
        assert bucket[..|bucket|] == bucket;
        UpToNext(prior, i);
      }
      AllMoved(prior, members, hash, less);
      buckets := fresh';
    }

    /** `hash_apply` visits every member once. */
    method Visit() returns (visited: seq<E>)
      requires Valid()
      ensures (forall e :: e in visited <==> e in members) && Distinct(less, visited)
    {
      hide BucketIdx, IsPow2, Holds, Suitable, Same, Distinct;
      visited := [];
      DistinctNothing(less);
      for i := 0 to |buckets|
        invariant Elems(visited) == UpTo(buckets, i) && Distinct(less, visited)
      {
        DistinctJoin(buckets, members, hash, less, i, visited);
        ElemsJoin(visited, buckets[i]);
        UpToNext(buckets, i);
        visited := visited + buckets[i];
      }
      AllMoved(buckets, members, hash, less);
      assert forall e :: e in visited <==> e in Elems(visited);
    }
  }

  /** `hash_init`: fails exactly if there is no memory for the first buckets. */
  method HashInit<E(==, !new)>(hash: E -> nat, less: (E, E) -> bool, memory: bool) returns (t: Option<Table<E>>)
    requires Suitable(hash, less)
    ensures t.Some? <==> memory
    ensures t.Some? ==> t.value.Valid() && t.value.members == {} && |t.value.buckets| == MIN_BUCKETS && fresh(t.value)
  {
    if !memory {
      return None;
    }
    var made := new Table<E>(hash, less);
    return Some(made);
  }

  lemma Symmetric<E>(less: (E, E) -> bool, members: set<E>, e: E)
    requires forall m {:trigger m in members} :: m in members ==> !Same(less, m, e)
    ensures forall m {:trigger m in members} :: m in members ==> !Same(less, e, m)
  {
  }

  /** Only one member is the same as e. */
  lemma OnlyOne<E(!new)>(buckets: seq<seq<E>>, members: set<E>, hash: E -> nat, less: (E, E) -> bool, x: E, e: E)
    requires Suitable(hash, less) && Holds(buckets, members, hash, less) && x in members && Same(less, x, e)
    ensures forall m {:trigger m in members - {x}} :: m in members - {x} ==> !Same(less, e, m)
  {
    hide Holds;
    forall m | m in members - {x} ensures !Same(less, e, m) {
      if Same(less, e, m) {
        assert Same(less, x, m);
        MembersDistinct(buckets, members, hash, less, x, m);
        assert false;
      }
    }
  }

  lemma AtLeastFour(best: nat, cnt: nat)
    requires MIN_BUCKETS <= best && IsPow2(cnt) && cnt <= best < 2 * cnt
    ensures MIN_BUCKETS <= cnt
  {
    if cnt == 3 {
      TurnOffStep(3);
      assert false;
    }
  }

  lemma HoldsNothing<E(!new)>(buckets: seq<seq<E>>, hash: E -> nat, less: (E, E) -> bool)
    requires IsPow2(|buckets|) && MIN_BUCKETS <= |buckets| && forall i :: 0 <= i < |buckets| ==> buckets[i] == []
    ensures Holds(buckets, {}, hash, less)
  {
  }

  ghost function Elems<E>(s: seq<E>): set<E> { set e | e in s }

  /** Everything in the first n buckets. */
  ghost function UpTo<E>(buckets: seq<seq<E>>, n: nat): set<E>
    requires n <= |buckets|
  {
    if n == 0 then {} else UpTo(buckets, n - 1) + Elems(buckets[n - 1])
  }

  lemma ElemsNext<E>(s: seq<E>, j: nat)
    requires j < |s|
    ensures Elems(s[..j + 1]) == Elems(s[..j]) + {s[j]}
  {
    assert s[..j + 1] == s[..j] + [s[j]];
  }

  lemma ElemsJoin<E>(s: seq<E>, t: seq<E>)
    ensures Elems(s + t) == Elems(s) + Elems(t)
  {
  }

  lemma UpToNext<E>(buckets: seq<seq<E>>, n: nat)
    requires n < |buckets|
    ensures UpTo(buckets, n + 1) == UpTo(buckets, n) + Elems(buckets[n])
  {
  }

  lemma {:induction false} InUpTo<E>(buckets: seq<seq<E>>, n: nat, e: E)
    requires n <= |buckets|
    ensures e in UpTo(buckets, n) <==> exists i :: 0 <= i < n && e in buckets[i]
  {
    if n > 0 {
      InUpTo(buckets, n - 1, e);
    }
  }

  lemma AllMoved<E(!new)>(buckets: seq<seq<E>>, members: set<E>, hash: E -> nat, less: (E, E) -> bool)
    requires Holds(buckets, members, hash, less)
    ensures UpTo(buckets, |buckets|) == members
  {
    hide BucketIdx, IsPow2, UpTo;
    forall e ensures e in UpTo(buckets, |buckets|) <==> e in members {
      InUpTo(buckets, |buckets|, e);
      if e in members {
        assert InTable(buckets, e, hash);
      }
    }
  }

  /** The next element to move is the same as none moved before. */
  lemma NotMoved<E(!new)>(buckets: seq<seq<E>>, members: set<E>, hash: E -> nat, less: (E, E) -> bool, i: nat, j: nat)
    requires Suitable(hash, less) && Holds(buckets, members, hash, less) && i < |buckets| && j < |buckets[i]|
    ensures forall m {:trigger m in UpTo(buckets, i) + Elems(buckets[i][..j])} ::
              m in UpTo(buckets, i) + Elems(buckets[i][..j]) ==> !Same(less, buckets[i][j], m)
  {
    hide BucketIdx, IsPow2, UpTo;
    var e := buckets[i][j];
    assert e in buckets[i];
    forall m | m in UpTo(buckets, i) + Elems(buckets[i][..j]) ensures !Same(less, e, m) {
      if m in UpTo(buckets, i) {
        InUpTo(buckets, i, m);
        var k :| 0 <= k < i && m in buckets[k];
        assert hash(m) != hash(e);
      } else {
        var k :| 0 <= k < j && buckets[i][k] == m;
        assert Distinct(less, buckets[i]);
        assert !Same(less, buckets[i][k], buckets[i][j]);
      }
    }
  }

  lemma DistinctNothing<E>(less: (E, E) -> bool)
    ensures Distinct<E>(less, [])
  {
  }

  lemma DistinctJoin<E(!new)>(buckets: seq<seq<E>>, members: set<E>, hash: E -> nat, less: (E, E) -> bool, i: nat, before: seq<E>)
    requires Suitable(hash, less) && Holds(buckets, members, hash, less) && i < |buckets|
    requires Elems(before) == UpTo(buckets, i) && Distinct(less, before)
    ensures Distinct(less, before + buckets[i])
  {
    hide BucketIdx, IsPow2, UpTo, Suitable, Holds;
    var b := buckets[i];
    BucketDistinct(buckets, members, hash, less, i);
    forall x, y | 0 <= x < |before| && 0 <= y < |b| ensures !Same(less, before[x], b[y]) {
      NotMoved(buckets, members, hash, less, i, y);
      assert before[x] in Elems(before);
      assert before[x] in UpTo(buckets, i) + Elems(b[..y]);
    }
    var both := before + b;
    forall x, y | 0 <= x < y < |both| ensures !Same(less, both[x], both[y]) {
      if y < |before| {
        assert both[x] == before[x] && both[y] == before[y];
      } else if x >= |before| {
        assert both[x] == b[x - |before|] && both[y] == b[y - |before|];
      } else {
        assert both[x] == before[x] && both[y] == b[y - |before|];
      }
    }
  }

  lemma BucketDistinct<E(!new)>(buckets: seq<seq<E>>, members: set<E>, hash: E -> nat, less: (E, E) -> bool, i: nat)
    requires Holds(buckets, members, hash, less) && i < |buckets|
    ensures Distinct(less, buckets[i])
  {
  }
}
