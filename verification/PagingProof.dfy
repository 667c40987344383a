/** Paging transparency: evicting and faulting in never change what a process sees, except that a page
    evicted in the middle of its own fault gets the old bytes of its frame. */
module PagingProof {
  import opened Common
  import opened Paging

  /** The page has a frame: it is loaded, or a fault on it is under way. */
  predicate Framed(st: State, v: nat, flight: set<nat>)
    requires v < |st.vmes|
  {
    st.vmes[v].loaded || v in flight
  }

  /** One virtual page: where its contents are. */
  predicate PageOk(st: State, v: nat, flight: set<nat>)
    requires Wf(st) && v < |st.vmes|
  {
    var e, p := st.vmes[v], st.ptes[v];
    && (p.present <==> e.loaded)
    && (!e.kind.Anon? ==> Backed(st, v))
    && (e.kind.File? ==> e.file !in st.denied)
    && (v in flight ==> !e.loaded)
    && (Framed(st, v, flight) ==> p.frame < |st.mem| && st.used[p.frame])
    && (e.loaded && !p.dirty && !e.kind.Anon? ==> st.mem[p.frame] == FileImage(st, v))
    && (!e.loaded && e.kind.Anon? ==> e.slot < |st.slots| && st.swapMap[e.slot] && |st.slots[e.slot]| == PGSIZE)
  }

  /** Two virtual pages share no frame, no swap slot, and no file bytes written back. */
  predicate Apart(st: State, v: nat, w: nat, flight: set<nat>)
    requires Wf(st) && v < |st.vmes| && w < |st.vmes|
  {
    var e, d := st.vmes[v], st.vmes[w];
    && (Framed(st, v, flight) && Framed(st, w, flight) ==> st.ptes[v].frame != st.ptes[w].frame)
    && (!e.loaded && !d.loaded && e.kind.Anon? && d.kind.Anon? ==> e.slot != d.slot)
    && (e.kind.File? && e.file == d.file ==>
          e.offset + e.readBytes <= d.offset || d.offset + d.readBytes <= e.offset)
  }

  /** The list holds the pages that have a frame, each once. */
  ghost predicate LruOk(st: State, flight: set<nat>) {
    && NoDup(st.lru)
    && (forall v {:trigger v in st.lru} :: v in st.lru ==> v < |st.vmes| && Framed(st, v, flight))
    && (forall v {:trigger st.vmes[v]} :: 0 <= v < |st.vmes| && Framed(st, v, flight) ==> v in st.lru)
    && (st.hand.On? ==> st.hand.i < |st.lru|)
  }

  ghost predicate FramesOk(mem: seq<Bytes>) {
    forall f {:trigger mem[f]} :: 0 <= f < |mem| ==> |mem[f]| == PGSIZE
  }

  /** `flight` are the pages whose fault has a frame and has not been completed. */
  ghost predicate Inv(st: State, flight: set<nat>) {
    && Wf(st) && FramesOk(st.mem)
    && (forall v {:trigger st.vmes[v]} :: 0 <= v < |st.vmes| ==> PageOk(st, v, flight))
    && (forall v, w {:trigger st.vmes[v], st.vmes[w]} :: 0 <= v < |st.vmes| && 0 <= w < |st.vmes| && v != w ==> Apart(st, v, w, flight))
    && LruOk(st, flight)
  }

  /** All pages look the same. */
  ghost predicate SameView(st: State, st': State) {
    && Wf(st) && Wf(st') && |st'.vmes| == |st.vmes|
    && (forall w {:trigger st'.vmes[w]} :: 0 <= w < |st.vmes| ==> Visible(st', w) == Visible(st, w))
  }

  lemma At(st: State, flight: set<nat>, v: nat)
    requires Inv(st, flight) && v < |st.vmes|
    ensures PageOk(st, v, flight)
  {
    assert st.vmes[v] == st.vmes[v];
  }

  lemma ApartAt(st: State, flight: set<nat>, v: nat, w: nat)
    requires Inv(st, flight) && v < |st.vmes| && w < |st.vmes| && v != w
    ensures Apart(st, v, w, flight)
  {
    assert st.vmes[v] == st.vmes[v] && st.vmes[w] == st.vmes[w];
  }

  lemma FrameAt(mem: seq<Bytes>, f: nat)
    requires FramesOk(mem) && f < |mem|
    ensures |mem[f]| == PGSIZE
  {
  }

  // ----- eviction -----

  /** Writing a range of one file leaves every disjoint range alone. */
  lemma WriteElsewhere(before: Bytes, ofs: nat, b: Bytes, o: nat, n: nat)
    requires ofs + |b| <= |before| && o + n <= |before| && (ofs + |b| <= o || o + n <= ofs)
    ensures Overwrite(before, ofs, b)[o..o + n] == before[o..o + n]
  {
  }

  lemma WriteHere(before: Bytes, ofs: nat, b: Bytes)
    requires ofs + |b| <= |before|
    ensures Overwrite(before, ofs, b)[ofs..ofs + |b|] == b
  {
  }

  /** What a page that is evicted in the middle of its fault gets in place of its own bytes: what its
      frame holds, if it is written out at all. */
  function Spoil(st: State, v: nat): Option<Bytes>
    requires CanEvict(st, v)
  {
    var page := st.mem[st.ptes[v].frame];
    if NeedsSwap(st, v) then Some(page)
    else if st.ptes[v].dirty && st.vmes[v].kind.File? then Some(page[..st.vmes[v].readBytes])
    else None
  }

  /** Saving and dropping a page leaves every other page as it was. */
  lemma EvictOther(st: State, flight: set<nat>, v: nat, w: nat)
    requires Inv(st, flight) && CanEvict(st, v) && w < |st.vmes| && w != v
    requires NeedsSwap(st, v) ==> HasFree(st.swapMap)
    requires Framed(st, v, flight)
    ensures var st' := Drop(Save(st, v), v);
            && Wf(st') && |st'.vmes| == |st.vmes| && st'.vmes[w] == st.vmes[w] && st'.ptes[w] == st.ptes[w]
            && PageOk(st', w, flight - {v}) && Visible(st', w) == Visible(st, w)
  {
    At(st, flight, v);
    At(st, flight, w);
    ApartAt(st, flight, v, w);
    var st' := Drop(Save(st, v), v);
    hide Inv;
    if NeedsSwap(st, v) {
    } else if st.ptes[v].dirty && st.vmes[v].kind.File? {
      EvictFileOther(st, flight, v, w, st');
    } else {
    }
  }

  lemma EvictFileOther(st: State, flight: set<nat>, v: nat, w: nat, st': State)
    requires CanEvict(st, v) && w < |st.vmes| && w != v && PageOk(st, v, flight) && PageOk(st, w, flight)
    requires Apart(st, v, w, flight) && Framed(st, v, flight)
    requires !NeedsSwap(st, v) && st.ptes[v].dirty && st.vmes[v].kind.File? && st' == Drop(Save(st, v), v)
    ensures PageOk(st', w, flight - {v}) && Visible(st', w) == Visible(st, w)
  {
    SaveKeepsImage(st, v, w);
    assert !st.vmes[w].kind.Anon? ==> Backed(st', w) && FileImage(st', w) == FileImage(st, w);
  }

  /** Writing a mapped page back changes no bytes of the file that another page is loaded from. */
  lemma SaveKeepsImage(st: State, v: nat, w: nat)
    requires CanEvict(st, v) && w < |st.vmes| && Wf(st)
    requires st.vmes[v].kind.File? && st.vmes[v].file == st.vmes[w].file ==>
      st.vmes[v].offset + st.vmes[v].readBytes <= st.vmes[w].offset || st.vmes[w].offset + st.vmes[w].readBytes <= st.vmes[v].offset
    ensures |Save(st, v).vmes| == |st.vmes|
    ensures Backed(st, w) ==> Backed(Save(st, v), w) && FileImage(Save(st, v), w) == FileImage(st, w)
  {
    var e, d := st.vmes[v], st.vmes[w];
    if Backed(st, w) && !NeedsSwap(st, v) && st.ptes[v].dirty && e.kind.File? && d.file == e.file {
      var b := st.mem[st.ptes[v].frame][..e.readBytes];
      WriteElsewhere(st.files[e.file], e.offset, b, d.offset, d.readBytes);
    }
  }

  /** The victim's own contents survive in its file or swap slot, if it was loaded; in the middle of its
      fault they do not. */
  lemma EvictSelf(st: State, flight: set<nat>, v: nat)
    requires Inv(st, flight) && CanEvict(st, v) && Framed(st, v, flight)
    requires NeedsSwap(st, v) ==> HasFree(st.swapMap)
    ensures var st' := Drop(Save(st, v), v);
      && Wf(st') && |st'.vmes| == |st.vmes| && PageOk(st', v, flight - {v})
      && Visible(st', v) == if v in flight && Spoil(st, v).Some? then Spoil(st, v) else Visible(st, v)
  {
    At(st, flight, v);
    hide Inv;
    var st' := Drop(Save(st, v), v);
    var e := st.vmes[v];
    if NeedsSwap(st, v) {
    } else if st.ptes[v].dirty && e.kind.File? {
      EvictFileSelf(st, flight, v, st');
    } else {
    }
  }

  lemma EvictFileSelf(st: State, flight: set<nat>, v: nat, st': State)
    requires CanEvict(st, v) && PageOk(st, v, flight) && Framed(st, v, flight)
    requires !NeedsSwap(st, v) && st.ptes[v].dirty && st.vmes[v].kind.File? && st' == Drop(Save(st, v), v)
    ensures Wf(st') && PageOk(st', v, flight - {v})
    ensures Visible(st', v) == if v in flight then Spoil(st, v) else Visible(st, v)
  {
    var e := st.vmes[v];
    var b := st.mem[st.ptes[v].frame][..e.readBytes];
    WriteHere(st.files[e.file], e.offset, b);
    assert Backed(st', v);
    assert FileImage(st', v)[..e.readBytes] == b;
  }

  lemma EvictApart(st: State, flight: set<nat>, v: nat, w: nat, u: nat)
    requires Inv(st, flight) && CanEvict(st, v) && w < |st.vmes| && u < |st.vmes| && w != u
    requires NeedsSwap(st, v) ==> HasFree(st.swapMap)
    requires Framed(st, v, flight)
    ensures Wf(Drop(Save(st, v), v)) && |Drop(Save(st, v), v).vmes| == |st.vmes| && Apart(Drop(Save(st, v), v), w, u, flight - {v})
  {
    ApartAt(st, flight, w, u);
    At(st, flight, w);
    At(st, flight, u);
  }

  lemma UnlistLru(lru: seq<nat>, i: nat, t: seq<nat>)
    requires i < |lru| && NoDup(lru) && t == lru[..i] + lru[i + 1..]
    ensures NoDup(t) && forall v :: v in t <==> v in lru && v != lru[i]
  {
    assert forall a :: 0 <= a < |t| ==> t[a] == lru[if a < i then a else a + 1];
    forall v ensures v in t <==> v in lru && v != lru[i] {
      if v in lru && v != lru[i] {
        var k :| 0 <= k < |lru| && lru[k] == v;
        assert t[if k < i then k else k - 1] == v;
      }
    }
  }

  lemma EvictLru(st: State, flight: set<nat>, i: nat)
    requires Inv(st, flight) && i < |st.lru| && CanEvict(st, st.lru[i])
    ensures LruOk(Evict(st, i), flight - {st.lru[i]})
  {
    hide NoDup;
    assert LruOk(st, flight);
    var st' := Evict(st, i);
    UnlistLru(st.lru, i, st'.lru);
    var v := st.lru[i];
    assert v in st.lru;
    forall w | 0 <= w < |st'.vmes| && Framed(st', w, flight - {v}) ensures w in st'.lru {
      assert Framed(st, w, flight) && st.vmes[w] == st.vmes[w];
    }
  }

  lemma LruCanEvict(st: State, flight: set<nat>, i: nat)
    requires Inv(st, flight) && i < |st.lru|
    ensures st.lru[i] < |st.vmes| && CanEvict(st, st.lru[i]) && Framed(st, st.lru[i], flight)
  {
    assert LruOk(st, flight) && st.lru[i] in st.lru;
    At(st, flight, st.lru[i]);
    FrameAt(st.mem, st.ptes[st.lru[i]].frame);
  }

  lemma SaveShape(st: State, v: nat)
    requires CanEvict(st, v)
    ensures var st' := Save(st, v);
            && Wf(st') && |st'.vmes| == |st.vmes| && st'.ptes == st.ptes && st'.used == st.used && st'.mem == st.mem
            && st'.lru == st.lru && st'.hand == st.hand
    ensures Drop(Save(st, v), v).lru == st.lru && Wf(Drop(Save(st, v), v)) && Drop(Save(st, v), v).mem == st.mem
  {
  }

  /** Eviction changes no other page, whichever page is the victim; nor the victim, if it was loaded. */
  lemma EvictTransparent(st: State, flight: set<nat>, i: nat)
    requires Inv(st, flight) && i < |st.lru| && CanEvict(st, st.lru[i])
    requires NeedsSwap(st, st.lru[i]) ==> HasFree(st.swapMap)
    ensures Inv(Evict(st, i), flight - {st.lru[i]}) && |Evict(st, i).vmes| == |st.vmes|
    ensures forall w {:trigger Evict(st, i).vmes[w]} :: 0 <= w < |st.vmes| && w != st.lru[i] ==>
      Visible(Evict(st, i), w) == Visible(st, w)
    ensures var v := st.lru[i];
      v < |st.vmes| && Visible(Evict(st, i), v) == if v in flight && Spoil(st, v).Some? then Spoil(st, v) else Visible(st, v)
  {
    hide Visible, PageOk, Apart, LruOk, NoDup, Save, Drop, FramesOk, Spoil;
    LruCanEvict(st, flight, i);
    var v := st.lru[i];
    SaveShape(st, v);
    var st1 := Drop(Save(st, v), v);
    var st' := Evict(st, i);
    EvictSelf(st, flight, v);
    forall w | 0 <= w < |st.vmes| ensures PageOk(st1, w, flight - {v}) && (w != v ==> Visible(st1, w) == Visible(st, w)) {
      if w != v {
        EvictOther(st, flight, v, w);
      }
    }
    forall w, u | 0 <= w < |st.vmes| && 0 <= u < |st.vmes| && w != u ensures Apart(st1, w, u, flight - {v}) {
      EvictApart(st, flight, v, w, u);
    }
    EvictLru(st, flight, i);
    UnlistSame(st1, i, flight - {v});
  }

  /** The list and the clock hand play no part in what pages contain. */
  lemma UnlistSame(st: State, i: nat, flight: set<nat>)
    requires Wf(st) && i < |st.lru|
    ensures var st' := Unlist(st, i);
            && Wf(st') && st'.vmes == st.vmes && st'.mem == st.mem
            && (forall w :: 0 <= w < |st.vmes| ==>
                  (PageOk(st', w, flight) <==> PageOk(st, w, flight)) && Visible(st', w) == Visible(st, w))
            && (forall w, u :: 0 <= w < |st.vmes| && 0 <= u < |st.vmes| ==> (Apart(st', w, u, flight) <==> Apart(st, w, u, flight)))
  {
  }

  /** Without a free swap slot the victim's contents are gone: eviction of a loaded page is transparent
      exactly when a page that must be swapped out finds a slot. */
  lemma EvictTransparentIff(st: State, flight: set<nat>, i: nat)
    requires Inv(st, flight) && i < |st.lru| && CanEvict(st, st.lru[i]) && st.vmes[st.lru[i]].loaded
    ensures Wf(Evict(st, i)) && st.lru[i] < |Evict(st, i).vmes|
    ensures Visible(Evict(st, i), st.lru[i]) == Visible(st, st.lru[i])
            <==> (NeedsSwap(st, st.lru[i]) ==> HasFree(st.swapMap))
  {
    var v := st.lru[i];
    At(st, flight, v);
    if NeedsSwap(st, v) ==> HasFree(st.swapMap) {
      EvictTransparent(st, flight, i);
    } else {
      hide Inv;
      assert Visible(Evict(st, i), v) == None;
    }
  }

  // ----- faulting in: taking a frame -----

  lemma TakeLru(st: State, flight: set<nat>, v: nat, f: nat)
    requires Inv(st, flight) && CanTake(st, v, f) && v !in flight
    ensures LruOk(Taken(st, v, f), flight + {v})
  {
    hide NoDup, PageOk, Apart, FramesOk;
    assert LruOk(st, flight) && v !in st.lru;
    var st' := Taken(st, v, f);
    NoDupPush(st.lru, v);
    forall w | 0 <= w < |st'.vmes| && Framed(st', w, flight + {v}) ensures w in st'.lru {
      assert w == v || Framed(st, w, flight);
    }
  }

  lemma NoDupPush(s: seq<nat>, v: nat)
    requires NoDup(s) && v !in s
    ensures NoDup(s + [v])
  {
  }

  lemma TakePage(st: State, flight: set<nat>, v: nat, f: nat, w: nat)
    requires Inv(st, flight) && CanTake(st, v, f) && v !in flight && w < |st.vmes|
    ensures var st' := Taken(st, v, f);
      Wf(st') && PageOk(st', w, flight + {v}) && Visible(st', w) == Visible(st, w)
  {
    At(st, flight, w);
    hide Inv;
  }

  lemma TakeApart(st: State, flight: set<nat>, v: nat, f: nat, w: nat, u: nat)
    requires Inv(st, flight) && CanTake(st, v, f) && v !in flight && w < |st.vmes| && u < |st.vmes| && w != u
    ensures Wf(Taken(st, v, f)) && Apart(Taken(st, v, f), w, u, flight + {v})
  {
    ApartAt(st, flight, w, u);
    At(st, flight, w);
    At(st, flight, u);
    hide Inv;
  }

  /** Taking a frame and listing the page changes nothing that any process sees. */
  lemma TakeTransparent(st: State, flight: set<nat>, v: nat, f: nat)
    requires Inv(st, flight) && CanTake(st, v, f) && v !in flight
    ensures Inv(Taken(st, v, f), flight + {v}) && SameView(st, Taken(st, v, f))
  {
    hide Visible, PageOk, Apart, LruOk;
    var st' := Taken(st, v, f);
    forall w | 0 <= w < |st.vmes| ensures PageOk(st', w, flight + {v}) && Visible(st', w) == Visible(st, w) {
      TakePage(st, flight, v, f, w);
    }
    forall w, u | 0 <= w < |st.vmes| && 0 <= u < |st.vmes| && w != u ensures Apart(st', w, u, flight + {v}) {
      TakeApart(st, flight, v, f, w, u);
    }
    TakeLru(st, flight, v, f);
  }

  // ----- faulting in: filling the frame -----

  /** A page in flight can be filled, and gets the bytes that it has. */
  lemma CanBeFilled(st: State, flight: set<nat>, v: nat)
    requires Inv(st, flight) && v < |st.vmes| && v in flight
    ensures CanFill(st, v, st.vmes[v].kind) && |LoadBytes(st, v, st.vmes[v].kind)| == PGSIZE
    ensures Contents(st, v) == Some(LoadBytes(st, v, st.vmes[v].kind))
  {
    At(st, flight, v);
  }

  lemma FillOther(st: State, flight: set<nat>, v: nat, w: nat)
    requires Inv(st, flight) && v < |st.vmes| && v in flight && w < |st.vmes| && w != v && CanFill(st, v, st.vmes[v].kind)
    ensures var st' := Filled(st, v, st.vmes[v].kind);
      Wf(st') && PageOk(st', w, flight - {v}) && Visible(st', w) == Visible(st, w)
  {
    At(st, flight, v);
    At(st, flight, w);
    ApartAt(st, flight, v, w);
    hide Inv;
  }

  lemma FillSelf(st: State, flight: set<nat>, v: nat)
    requires Inv(st, flight) && v < |st.vmes| && v in flight && CanFill(st, v, st.vmes[v].kind)
    ensures var st' := Filled(st, v, st.vmes[v].kind);
      Wf(st') && PageOk(st', v, flight - {v}) && Visible(st', v) == Visible(st, v)
  {
    At(st, flight, v);
    hide Inv;
  }

  lemma FillApart(st: State, flight: set<nat>, v: nat, w: nat, u: nat)
    requires Inv(st, flight) && v < |st.vmes| && v in flight && w < |st.vmes| && u < |st.vmes| && w != u
    requires CanFill(st, v, st.vmes[v].kind)
    ensures Wf(Filled(st, v, st.vmes[v].kind)) && Apart(Filled(st, v, st.vmes[v].kind), w, u, flight - {v})
  {
    ApartAt(st, flight, w, u);
    At(st, flight, w);
    At(st, flight, u);
    hide Inv;
  }

  lemma FillLru(st: State, flight: set<nat>, v: nat)
    requires Inv(st, flight) && v < |st.vmes| && v in flight && CanFill(st, v, st.vmes[v].kind)
    ensures LruOk(Filled(st, v, st.vmes[v].kind), flight - {v})
  {
    hide NoDup, PageOk, Apart, FramesOk;
    assert LruOk(st, flight);
    var st' := Filled(st, v, st.vmes[v].kind);
    forall w | w in st'.lru ensures w < |st'.vmes| && Framed(st', w, flight - {v}) {
      assert w in st.lru;
    }
    forall w | 0 <= w < |st'.vmes| && Framed(st', w, flight - {v}) ensures w in st'.lru {
      assert Framed(st, w, flight) && st.vmes[w] == st.vmes[w];
    }
  }

  /** Filling the frame and mapping it: the page comes back with what it had. */
  lemma FillTransparent(st: State, flight: set<nat>, v: nat)
    requires Inv(st, flight) && v < |st.vmes| && v in flight
    ensures CanFill(st, v, st.vmes[v].kind)
    ensures var st' := Filled(st, v, st.vmes[v].kind); Inv(st', flight - {v}) && SameView(st, st')
  {
    hide Visible, PageOk, Apart, LruOk;
    CanBeFilled(st, flight, v);
    var st' := Filled(st, v, st.vmes[v].kind);
    FillSelf(st, flight, v);
    forall w | 0 <= w < |st.vmes| ensures PageOk(st', w, flight - {v}) && Visible(st', w) == Visible(st, w) {
      if w != v {
        FillOther(st, flight, v, w);
      }
    }
    forall w, u | 0 <= w < |st.vmes| && 0 <= u < |st.vmes| && w != u ensures Apart(st', w, u, flight - {v}) {
      FillApart(st, flight, v, w, u);
    }
    FillLru(st, flight, v);
  }

  lemma CanFaultIn(st: State, v: nat)
    requires Inv(st, {}) && v < |st.vmes| && !st.vmes[v].loaded && HasFree(st.used)
    ensures CanFault(st, v) && |Contents(st, v).value| == PGSIZE
  {
    At(st, {}, v);
  }

  /** Transparency of a whole fault, with nothing in between its steps. */
  lemma FaultTransparent(st: State, v: nat)
    requires Inv(st, {}) && CanFault(st, v)
    ensures Inv(FaultIn(st, v), {}) && SameView(st, FaultIn(st, v))
  {
    hide Inv, Visible;
    var f := FirstFree(st.used);
    TakeTransparent(st, {}, v, f);
    var st1 := Taken(st, v, f);
    FillTransparent(st1, {} + {v}, v);
    assert {} + {v} - {v} == {};
    ViewTrans(st, st1, FaultIn(st, v));
  }

  lemma ViewTrans(st0: State, st1: State, st2: State)
    requires SameView(st0, st1) && SameView(st1, st2)
    ensures SameView(st0, st2)
  {
    forall w | 0 <= w < |st0.vmes| ensures Visible(st2, w) == Visible(st0, w) {
      assert st1.vmes[w] == st1.vmes[w] && st2.vmes[w] == st2.vmes[w];
    }
  }

  // ----- the processor -----

  /** A write changes the one byte, of the one page. */
  lemma WriteVisible(st: State, flight: set<nat>, v: nat, ofs: nat, b: Byte)
    requires Inv(st, flight) && Mapped(st, v) && ofs < PGSIZE
    ensures |st.mem[st.ptes[v].frame]| == PGSIZE && Inv(UserWrite(st, v, ofs, b), flight)
    ensures var st' := UserWrite(st, v, ofs, b);
            && Visible(st, v).Some?
            && var x := Visible(st, v).value;
               Visible(st', v) == Some(if ofs < |x| then x[ofs := b] else x)
    ensures forall w :: 0 <= w < |st.vmes| && w != v ==> Visible(UserWrite(st, v, ofs, b), w) == Visible(st, w)
  {
    At(st, flight, v);
    FrameAt(st.mem, st.ptes[v].frame);
    WriteInv(st, flight, v, ofs, b);
    forall w | 0 <= w < |st.vmes| && w != v ensures Visible(UserWrite(st, v, ofs, b), w) == Visible(st, w) {
      ApartAt(st, flight, v, w);
      At(st, flight, w);
    }
  }

  lemma WriteInv(st: State, flight: set<nat>, v: nat, ofs: nat, b: Byte)
    requires Inv(st, flight) && Mapped(st, v) && ofs < |st.mem[st.ptes[v].frame]|
    ensures Inv(UserWrite(st, v, ofs, b), flight)
  {
    hide Visible, NoDup;
    assert LruOk(st, flight);
    var st' := UserWrite(st, v, ofs, b);
    forall w | 0 <= w < |st.vmes| ensures PageOk(st', w, flight) {
      At(st, flight, w);
      if w != v {
        ApartAt(st, flight, v, w);
      }
    }
    forall w, u | 0 <= w < |st.vmes| && 0 <= u < |st.vmes| && w != u ensures Apart(st', w, u, flight) {
      ApartAt(st, flight, w, u);
    }
    LruSame(st, st', flight);
  }

  lemma LruSame(st: State, st': State, flight: set<nat>)
    requires LruOk(st, flight) && st'.lru == st.lru && |st'.vmes| == |st.vmes| && (st'.hand.On? ==> st'.hand.i < |st'.lru|)
    requires forall w {:trigger st'.vmes[w]} :: 0 <= w < |st.vmes| ==> st'.vmes[w].loaded == st.vmes[w].loaded
    ensures LruOk(st', flight)
  {
    hide NoDup;
    forall w | w in st'.lru ensures w < |st'.vmes| && Framed(st', w, flight) {
      assert w in st.lru && st'.vmes[w] == st'.vmes[w];
    }
    forall w | 0 <= w < |st'.vmes| && Framed(st', w, flight) ensures w in st'.lru {
      assert Framed(st, w, flight) && st.vmes[w] == st.vmes[w];
    }
  }

  /** Only accessed bits and pins differ. */
  ghost predicate OnlyBits(st: State, st': State) {
    && Wf(st) && Wf(st') && |st'.vmes| == |st.vmes| && st' == st.(ptes := st'.ptes, vmes := st'.vmes, hand := st'.hand)
    && forall w {:trigger st'.ptes[w]} {:trigger st'.vmes[w]} :: 0 <= w < |st.vmes| ==>
         && st'.ptes[w].(accessed := st.ptes[w].accessed) == st.ptes[w]
         && st'.vmes[w].(pinned := st.vmes[w].pinned) == st.vmes[w]
  }

  /** Changing an accessed bit or a pin changes nothing visible. */
  lemma BitsInvisible(st: State, flight: set<nat>, st': State)
    requires Inv(st, flight) && OnlyBits(st, st') && (st'.hand.On? ==> st'.hand.i < |st'.lru|)
    ensures Inv(st', flight) && SameView(st, st')
  {
    hide NoDup;
    assert LruOk(st, flight);
    assert forall w {:trigger st'.vmes[w]} :: 0 <= w < |st.vmes| ==> st'.vmes[w].loaded == st.vmes[w].loaded;
    LruSame(st, st', flight);
    forall w | 0 <= w < |st.vmes| ensures PageOk(st', w, flight) && Visible(st', w) == Visible(st, w) {
      At(st, flight, w);
      assert st'.ptes[w] == st'.ptes[w] && st'.vmes[w] == st'.vmes[w];
    }
    forall w, u | 0 <= w < |st.vmes| && 0 <= u < |st.vmes| && w != u ensures Apart(st', w, u, flight) {
      ApartAt(st, flight, w, u);
      assert st'.ptes[w] == st'.ptes[w] && st'.vmes[u] == st'.vmes[u];
    }
  }
}
