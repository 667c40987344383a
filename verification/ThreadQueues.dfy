/** The ready list and the waiters lists of all semaphores, on the heap (threads/thread.c,
    threads/synch.c). A thread has one `elem` for all of them, so it can be in one list at most. */
module ThreadQueues {
  import opened Common
  import opened ListOrder
  import opened KernelList
  import opened ThreadModel

  datatype Where = ReadyList | Waiters(s: SemaId)

  /** List l consists of the elements of the threads ts, linked in that order. */
  ghost predicate Shows(l: List<Tid>, ts: seq<Tid>, elems: Nodes<Tid>)
    reads l, l.repr
  {
    && l.Valid() && |l.Elems()| == |ts|
    && (forall i {:trigger ts[i]} :: 0 <= i < |ts| ==> ts[i] < |elems| && l.Elems()[i] == elems[ts[i]])
  }

  type Homes = map<ListElem<Tid>, Where>

  ghost predicate Within(l: List<Tid>, footprint: set<object>)
    reads l
  {
    l in footprint && forall n {:trigger n in l.repr} :: n in l.repr ==> n in footprint
  }

  /** The nodes of list l are recorded as being in list w. */
  ghost predicate Records(home: Homes, l: List<Tid>, w: Where)
    reads l
  {
    forall n {:trigger n in l.repr} :: n in l.repr ==> n in home && home[n] == w
  }

  lemma NotIn(home: Homes, l: List<Tid>, w: Where, e: ListElem<Tid>)
    requires Records(home, l, w) && (e !in home || home[e] != w)
    ensures e !in l.repr
  {
  }

  lemma OtherHome(home: Homes, l: List<Tid>, w: Where, k: List<Tid>, x: Where)
    requires Records(home, l, w) && Records(home, k, x) && w != x
    ensures l.repr !! k.repr
  {
    forall n | n in l.repr ensures n !in k.repr {
      assert home[n] == w;
    }
  }

  type Contents = map<Where, seq<Tid>>

  /** Element e of thread t is recorded as being only where t is. */
  ghost predicate ElemOk(e: ListElem<Tid>, t: Tid, content: Contents, home: Homes, footprint: set<object>) {
    e in footprint && e.data == t && (e in home ==> home[e] in content && t in content[home[e]])
  }

  /** List l holds the threads ts, and its nodes are recorded as being in list w. */
  ghost predicate Good(l: List<Tid>, w: Where, ts: seq<Tid>, elems: Nodes<Tid>, home: Homes)
    reads l, l.repr
  {
    Shows(l, ts, elems) && Records(home, l, w)
  }

  /** A list stays good with more elements, if its nodes are still recorded. */
  lemma StaysGood(l: List<Tid>, w: Where, ts: seq<Tid>, elems: Nodes<Tid>, elems': Nodes<Tid>,
                  home: Homes, home': Homes, nodes: set<ListElem<Tid>>)
    requires Good(l, w, ts, elems, home) && elems <= elems' && l.repr !! nodes
    requires forall n {:trigger n in home} :: n in home && n !in nodes ==> n in home' && home'[n] == home[n]
    ensures Good(l, w, ts, elems', home')
  {
    hide List.Valid, List.Elems;
  }

  method Append(l: List<Tid>, elems: Nodes<Tid>, t: Tid, ghost ts: seq<Tid>, ghost w: Where, ghost home: Homes,
                ghost footprint: set<object>)
    requires Within(l, footprint) && Good(l, w, ts, elems, home) && t < |elems| && elems[t] !in l.repr
    requires elems[t] in footprint
    modifies l, l.repr, elems[t]
    ensures Within(l, footprint) && Good(l, w, ts + [t], elems, home[elems[t] := w])
  {
    hide List.Valid, List.Elems;
    l.PushBack(elems[t]);
  }

  method TakeFirst(l: List<Tid>, ghost elems: Nodes<Tid>, ghost ts: seq<Tid>, ghost w: Where, ghost home: Homes,
                   ghost footprint: set<object>) returns (e: ListElem<Tid>)
    requires Within(l, footprint) && Good(l, w, ts, elems, home) && ts != []
    modifies l, l.repr
    ensures ts[0] < |elems| && e == elems[ts[0]] && e in old(l.repr)
    ensures Within(l, footprint) && Good(l, w, ts[1..], elems, home - {e})
  {
    hide List.Valid, List.Elems;
    ghost var was := l.Elems();
    assert was[0] == elems[ts[0]];
    l.Members(was[0]);
    e := l.PopFront();
    forall i | 0 <= i < |ts[1..]| ensures ts[1..][i] < |elems| && l.Elems()[i] == elems[ts[1..][i]] {
      assert was[i + 1] == elems[ts[i + 1]];
    }
  }

  method NewEmpty(ghost elems: Nodes<Tid>, w: Where) returns (l: List<Tid>, ghost home: Homes)
    ensures fresh(l) && fresh(l.repr) && home.Keys == l.repr && Good(l, w, [], elems, home)
  {
    l := new List<Tid>();
    home := map n | n in l.repr :: w;
  }

  lemma OldNodes(l: List<Tid>, footprint: set<object>, nodes: set<ListElem<Tid>>)
    requires Within(l, footprint) && forall n {:trigger n in nodes} :: n in nodes ==> n !in footprint
    ensures l.repr !! nodes
  {
  }

  lemma WithinSelf(l: List<Tid>, footprint: set<object>)
    requires l in footprint && l.repr <= footprint
    ensures Within(l, footprint)
  {
  }

  lemma WithinMore(l: List<Tid>, footprint: set<object>, footprint': set<object>)
    requires Within(l, footprint) && footprint <= footprint'
    ensures Within(l, footprint')
  {
  }

  lemma SameElem(e: ListElem<Tid>, u: Tid, w: Where, content: Contents, home: Homes, more: Homes,
                 footprint: set<object>, all: set<object>)
    requires ElemOk(e, u, content, home, footprint) && footprint <= all && w !in content
    requires forall n {:trigger n in more} :: n in more ==> n !in footprint
    ensures ElemOk(e, u, content[w := []], home + more, all)
  {
  }

  lemma Beside(l: List<Tid>, x: Where, ts: seq<Tid>, elems: Nodes<Tid>, home: Homes, more: Homes)
    requires Good(l, x, ts, elems, home) && l.repr !! more.Keys
    ensures Good(l, x, ts, elems, home + more)
  {
    hide List.Valid, List.Elems, Shows;
  }

  lemma Added(l: List<Tid>, w: Where, elems: Nodes<Tid>, home: Homes, more: Homes)
    requires Good(l, w, [], elems, more)
    ensures Good(l, w, [], elems, home + more)
  {
    hide List.Valid, List.Elems, Shows;
  }

  lemma LinkedElem(x: ListElem<Tid>, u: Tid, e: ListElem<Tid>, t: Tid, w: Where, content: Contents, home: Homes, footprint: set<object>)
    requires ElemOk(x, u, content, home, footprint) && e.data == t && w in content
    ensures ElemOk(x, u, content[w := content[w] + [t]], home[e := w], footprint)
  {
  }

  class Queues {
    /** The `elem` of each thread. */
    var elems: Nodes<Tid>
    var lists: map<Where, List<Tid>>
    /** The threads in each list, in order. */
    ghost var content: Contents
    /** The list that a node is in. */
    ghost var home: Homes
    ghost var footprint: set<object>

    ghost predicate Valid()
      reads this, footprint
    {
      && this in footprint && lists.Keys == content.Keys
      && (forall t {:trigger elems[t]} :: 0 <= t < |elems| ==> ElemOk(elems[t], t, content, home, footprint))
      && (forall w {:trigger lists[w]} :: w in lists ==> lists[w] in footprint)
      && (forall w {:trigger lists[w]} :: w in lists ==>
            Within(lists[w], footprint) && Good(lists[w], w, content[w], elems, home))
    }

    ghost predicate InNoList(t: Tid)
      reads this
    {
      forall w {:trigger content[w]} :: w in content ==> t !in content[w]
    }

    constructor ()
      ensures Valid() && fresh(footprint) && elems == [] && content == map[ReadyList := []]
    {
      hide List.Valid, List.Elems, Linked, Distinct;
      var ready := new List<Tid>();
      elems, lists, content := [], map[ReadyList := ready], map[ReadyList := []];
      home := map n | n in ready.repr :: ReadyList;
      new;
      footprint := {this, ready} + ready.repr;
    }

    /** Two lists have no node in common. */
    lemma Disjoint(w: Where, x: Where)
      requires Valid() && w in lists && x in lists && w != x
      ensures lists[w].repr !! lists[x].repr && lists[w] != lists[x]
    {
      hide List.Valid, List.Elems;
      assert Good(lists[w], w, content[w], elems, home) && Good(lists[x], x, content[x], elems, home);
      OtherHome(home, lists[w], w, lists[x], x);
      lists[w].Members(lists[w].head);
    }

    lemma Unlinked(t: Tid, w: Where)
      requires Valid() && t < |elems| && InNoList(t) && w in lists
      ensures elems[t] !in home && elems[t] !in lists[w].repr && elems[t] in footprint && elems[t].data == t
    {
      hide Shows;
      assert ElemOk(elems[t], t, content, home, footprint) && Good(lists[w], w, content[w], elems, home);
      NotIn(home, lists[w], w, elems[t]);
    }

    /** `list_push_back` of the element of thread t, which must be in no list. */
    method PushBack(w: Where, t: Tid)
      requires Valid() && w in content && t < |elems| && InNoList(t)
      modifies footprint
      ensures Valid() && footprint == old(footprint) && elems == old(elems)
      ensures content == old(content)[w := old(content)[w] + [t]]
    {
      hide Good, InNoList, ElemOk;
      var l, e := lists[w], elems[t];
      assert Within(l, footprint) && Good(l, w, content[w], elems, home);
      forall x | x in lists ensures e !in lists[x].repr && e !in home && e in footprint && e.data == t {
        Unlinked(t, x);
      }
      forall x | x in lists && x != w ensures l.repr !! lists[x].repr && l != lists[x] {
        Disjoint(w, x);
      }
      forall u | 0 <= u < |elems|
        ensures ElemOk(elems[u], u, content[w := content[w] + [t]], home[e := w], footprint)
      {
        LinkedElem(elems[u], u, e, t, w, content, home, footprint);
      }
      Append(l, elems, t, content[w], w, home, footprint);
      content := content[w := content[w] + [t]];
      home := home[e := w];
      forall x | x in lists && x != w ensures Within(lists[x], footprint) && Good(lists[x], x, content[x], elems, home) {
        assert old(Within(lists[x], footprint) && Good(lists[x], x, content[x], elems, home));
        StaysGood(lists[x], x, content[x], elems, elems, old(home), home, {e});
      }
    }

    /** `list_pop_front`. */
    method PopFront(w: Where) returns (t: Tid)
      requires Valid() && w in content && content[w] != []
      modifies footprint
      ensures Valid() && footprint == old(footprint) && elems == old(elems)
      ensures t == old(content)[w][0] && content == old(content)[w := old(content)[w][1..]]
    {
      hide Good;
      var l := lists[w];
      assert Within(l, footprint) && Good(l, w, content[w], elems, home);
      forall x | x in lists && x != w ensures l.repr !! lists[x].repr && l != lists[x] {
        Disjoint(w, x);
      }
      ghost var ts := content[w];
      var e := TakeFirst(l, elems, ts, w, home, footprint);
      assert old(ElemOk(elems[ts[0]], ts[0], content, home, footprint));
      t := e.data;
      content := content[w := ts[1..]];
      home := home - {e};
      forall u | 0 <= u < |elems| ensures ElemOk(elems[u], u, content, home, footprint) {
        assert old(ElemOk(elems[u], u, content, home, footprint));
        assert u in ts && u != ts[0] ==> u in ts[1..];
      }
      forall x | x in lists && x != w ensures Within(lists[x], footprint) && Good(lists[x], x, content[x], elems, home) {
        assert old(Within(lists[x], footprint) && Good(lists[x], x, content[x], elems, home));
        StaysGood(lists[x], x, content[x], elems, elems, old(home), home, {e});
      }
    }

    /** `list_empty`. */
    method IsEmpty(w: Where) returns (empty: bool)
      requires Valid() && w in content
      ensures empty <==> content[w] == []
    {
      hide List.Valid, List.Elems;
      var l := lists[w];
      assert Good(l, w, content[w], elems, home);
      empty := l.IsEmpty();
    }

    /** `list_init` of the waiters of a new semaphore. */
    method NewList(w: Where)
      requires Valid() && w !in content
      modifies this
      ensures Valid() && fresh(footprint - old(footprint)) && old(footprint) <= footprint && elems == old(elems)
      ensures content == old(content)[w := []]
    {
      hide Good, Within;
      var l, fromNew := NewEmpty(elems, w);
      forall x | x in lists ensures lists[x].repr !! l.repr {
        assert old(Within(lists[x], footprint));
        OldNodes(lists[x], old(footprint), l.repr);
      }
      Link(w, l, fromNew);
    }

    /** Enters list l, whose nodes are nobody else's. */
    method Link(w: Where, l: List<Tid>, ghost fromNew: Homes)
      requires Valid() && w !in content && Good(l, w, [], elems, fromNew) && fromNew.Keys == l.repr
      requires forall x {:trigger lists[x]} :: x in lists ==> lists[x].repr !! l.repr
      requires forall n {:trigger n in fromNew} :: n in fromNew ==> n !in footprint
      modifies this
      ensures Valid() && footprint == old(footprint) + {l} + l.repr && elems == old(elems)
      ensures content == old(content)[w := []]
    {
      hide Good, Within, ElemOk;
      ghost var all := footprint + {l} + l.repr;
      ghost var homes := home + fromNew;
      WithinSelf(l, all);
      Added(l, w, elems, home, fromNew);
      forall u | 0 <= u < |elems| ensures ElemOk(elems[u], u, content[w := []], homes, all) {
        SameElem(elems[u], u, w, content, home, fromNew, footprint, all);
      }
      forall x | x in lists ensures Within(lists[x], all) && Good(lists[x], x, content[x], elems, homes) {
        Beside(lists[x], x, content[x], elems, home, fromNew);
        WithinMore(lists[x], footprint, all);
      }
      lists, content, home, footprint := lists[w := l], content[w := []], homes, all;
    }

    /** The element of a new thread, in no list. */
    method NewElem() returns (t: Tid)
      requires Valid()
      modifies this
      ensures Valid() && fresh(footprint - old(footprint)) && old(footprint) <= footprint && content == old(content)
      ensures t == |old(elems)| && |elems| == t + 1
    {
      hide Good, Within;
      t := |elems|;
      var e := new ListElem<Tid>(t);
      elems := elems + [e];
      footprint := footprint + {e};
      forall u | 0 <= u < |elems| ensures ElemOk(elems[u], u, content, home, footprint) {
        assert u < t ==> old(ElemOk(elems[u], u, content, home, footprint));
        assert u == t ==> elems[u] !in home;
      }
      forall x | x in lists ensures Within(lists[x], footprint) && Good(lists[x], x, content[x], elems, home) {
        assert old(Within(lists[x], footprint) && Good(lists[x], x, content[x], elems, home));
        StaysGood(lists[x], x, content[x], old(elems), elems, home, home, {});
        WithinMore(lists[x], old(footprint), footprint);
      }
    }
  }
}
