/** What holds of every run on a formatted disk. */
module OwnershipTheorems {
  import opened Common
  import B = Bitmap
  import Directory
  import opened FileSystem
  import opened OwnershipProof
  import opened OwnershipSteps
  import opened OwnershipCreate
  import opened OwnershipRuns

  // ---- Formatting

  /** A first inode: its sector is marked and its data come from free sectors. */
  lemma FormatMap(n: nat, blank: State, length: nat, st': State, made: bool)
    requires 2 <= n && blank.used == seq(n, i => i == FREE_MAP_SECTOR || i == ROOT_DIR_SECTOR)
    requires blank.headers == map[] && blank.open == map[]
    requires (st', made) == InodeCreate(blank, FREE_MAP_SECTOR, length, true, true)
    ensures st'.open == map[] && st'.dir == blank.dir && st'.handles == blank.handles
    ensures made ==>
      && Owned(st'.used, st'.headers, {FREE_MAP_SECTOR})
      && Spare(st'.used, st'.headers, {FREE_MAP_SECTOR}, ROOT_DIR_SECTOR, 1)
  {
    hide Owned, Spare, Overwritten, BytesToSectors, B.FirstGroup, InExtent, Agree;
    var group := B.FirstGroup(blank.used, 0, BytesToSectors(length), false);
    if made {
      var h := Header(group.value, length);
      var st1 := blank.(used := B.SetRange(blank.used, group.value, BytesToSectors(length), true));
      NothingOwned(blank.used);
      NothingOwned(st1.used);
      FreeIsSpare(blank.used, map[], {}, h.start, BytesToSectors(length));
      SpareAlone(st1.used, FREE_MAP_SECTOR);
      NotExtent(blank.used, h, FREE_MAP_SECTOR);
      NotExtent(blank.used, h, ROOT_DIR_SECTOR);
      WriteInode(st1, {}, FREE_MAP_SECTOR, h, st'.headers);
      assert {} + {FREE_MAP_SECTOR} == {FREE_MAP_SECTOR};
      SpareBeside(st1.used, st'.headers, FREE_MAP_SECTOR, ROOT_DIR_SECTOR);
    }
  }

  lemma NothingOwned(used: seq<bool>)
    ensures Owned(used, map[], {})
  {
  }

  lemma SpareAlone(used: seq<bool>, s: nat)
    requires s < |used| && used[s]
    ensures Spare(used, map[], {}, s, 1)
  {
  }

  lemma NotExtent(used: seq<bool>, h: Header, s: nat)
    requires B.AllAre(used, h.start, BytesToSectors(h.length), false) && s < |used| && used[s]
    ensures !InExtent(h, s)
  {
    hide BytesToSectors;
  }

  lemma SpareBeside(used: seq<bool>, headers: map<nat, Header>, s: nat, t: nat)
    requires t < |used| && used[t] && s != t && s in headers && !InExtent(headers[s], t)
    ensures Spare(used, headers, {s}, t, 1)
  {
    hide InExtent;
  }

  /** The second inode, the root directory's. */
  lemma FormatRoot(st: State, length: nat, st': State, made: bool)
    requires FREE_MAP_SECTOR in st.open && FREE_MAP_SECTOR in st.headers
    requires st.open[FREE_MAP_SECTOR].data == st.headers[FREE_MAP_SECTOR]
    requires Owned(st.used, st.headers, {FREE_MAP_SECTOR})
    requires Spare(st.used, st.headers, {FREE_MAP_SECTOR}, ROOT_DIR_SECTOR, 1)
    requires (st', made) == InodeCreate(st, ROOT_DIR_SECTOR, length, true, true)
    ensures st'.open == st.open && st'.dir == st.dir && st'.handles == st.handles
    ensures made ==>
      && Owned(st'.used, st'.headers, {FREE_MAP_SECTOR, ROOT_DIR_SECTOR})
      && FREE_MAP_SECTOR in st'.headers && st'.headers[FREE_MAP_SECTOR] == st.headers[FREE_MAP_SECTOR]
  {
    hide Owned, Spare, Overwritten, BytesToSectors, B.FirstGroup, B.SetRange, InExtent, Agree;
    var live := {FREE_MAP_SECTOR};
    var group := B.FirstGroup(st.used, 0, BytesToSectors(length), false);
    if made {
      var h := Header(group.value, length);
      var marked := st.(used := B.SetRange(st.used, h.start, BytesToSectors(length), true));
      var st1 := FlushFreeMap(marked);
      FreeIsSpare(st.used, st.headers, live, h.start, BytesToSectors(length));
      SpareMarked(st.used, marked.used, st.headers, live, ROOT_DIR_SECTOR, 1, h.start, BytesToSectors(length));
      NotInNew(st.used, st.headers, live, ROOT_DIR_SECTOR, h);
      Monotone(st.used, h.start, BytesToSectors(length));
      OwnedMore(st.used, marked.used, st.headers, live);
      OverwriteAgrees(marked.used, st.headers, live, FREE_MAP_SECTOR);
      SpareSame(marked.used, st.headers, st1.headers, live, h.start, BytesToSectors(length));
      SpareSame(marked.used, st.headers, st1.headers, live, ROOT_DIR_SECTOR, 1);
      WriteInode(st1, live, ROOT_DIR_SECTOR, h, st'.headers);
      AgreeAt(st.headers, st1.headers, live, FREE_MAP_SECTOR);
      AgreeAt(st1.headers, st'.headers, live, FREE_MAP_SECTOR);
      assert live + {ROOT_DIR_SECTOR} == {FREE_MAP_SECTOR, ROOT_DIR_SECTOR};
    }
  }

  lemma Monotone(used: seq<bool>, a: nat, cnt: nat)
    requires a + cnt <= |used|
    ensures var used' := B.SetRange(used, a, cnt, true);
      |used'| == |used| && forall k {:trigger used'[k]} :: 0 <= k < |used| && used[k] ==> used'[k]
  {
  }

  /** A formatted disk meets the invariant, with nothing named and only the free map open. */
  lemma FormatInv(n: nat)
    requires 2 <= n && Format(n).Some?
    ensures Inv(Format(n).value) && Format(n).value.dir == Blank(n).dir && Format(n).value.handles == multiset{}
  {
    hide Owned, Spare, InodeCreate, Overwritten, BytesToSectors, LiveSet, Agree;
    var blank := Blank(n);
    var (st1, mapMade) := InodeCreate(blank, FREE_MAP_SECTOR, 4 * ((n + 31) / 32), true, true);
    FormatMap(n, blank, 4 * ((n + 31) / 32), st1, mapMade);
    var live := {FREE_MAP_SECTOR};
    OwnedAgree(st1.used, st1.headers, live);
    assert FREE_MAP_SECTOR in live;
    var mapOpen := InodeOpen(st1, FREE_MAP_SECTOR, true).st;
    var flushed := FlushFreeMap(mapOpen);
    OverwriteAgrees(st1.used, st1.headers, live, FREE_MAP_SECTOR);
    SpareSame(st1.used, st1.headers, flushed.headers, live, ROOT_DIR_SECTOR, 1);
    AgreeAt(st1.headers, flushed.headers, live, FREE_MAP_SECTOR);
    var (st2, rootMade) := InodeCreate(flushed, ROOT_DIR_SECTOR, ROOT_ENTRIES * ENTRY_SIZE, true, true);
    FormatRoot(flushed, ROOT_ENTRIES * ENTRY_SIZE, st2, rootMade);
    FreshLive(st2);
    FreshOpens(st2);
  }

  ghost predicate Unused(dir: seq<Directory.Entry>) {
    forall i {:trigger dir[i]} :: 0 <= i < |dir| ==> !dir[i].inUse
  }

  lemma FreshLive(st: State)
    requires Unused(st.dir) && st.open.Keys == {FREE_MAP_SECTOR}
    ensures LiveSet(st) == {FREE_MAP_SECTOR, ROOT_DIR_SECTOR}
  {
    hide LiveSet;
    forall s: nat ensures s in LiveSet(st) <==> s in {FREE_MAP_SECTOR, ROOT_DIR_SECTOR} {
      LiveIs(st, s);
      assert s in st.open <==> s in st.open.Keys;
    }
  }

  lemma FreshOpens(st: State)
    requires Unused(st.dir) && |st.dir| == ROOT_ENTRIES && st.handles == multiset{} && FREE_MAP_SECTOR in st.headers
    requires st.open == map[FREE_MAP_SECTOR := OpenInode(1, false, st.headers[FREE_MAP_SECTOR])]
    ensures OpensOk(st) && NamesOk(st.dir)
  {
  }

  // ---- Every step, every run

  /** The step is a create that fails the assertion on its size. */
  ghost predicate Fails(st: State, a: Action) { a.DoCreate? && Overlong(st, a.size, a.luck) }

  /** From a good state no operation opens a sector that holds no inode, and the only assertion that an
      operation ever fails is the one on the size of a new file. */
  lemma StepInv(st: State, a: Action)
    requires Inv(st) && Enabled(st, a)
    ensures Step(st, a).Panic? <==> Fails(st, a)
    ensures !Fails(st, a) ==> Step(st, a).Next? && Inv(Step(st, a).st)
  {
    hide Owned, LiveSet, NamesOk, Create, Open, Remove, InodeClose, Overwritten, Overlong;
    match a
    case DoCreate(name, size, luck) => CreateStep(st, name, size, luck, Step(st, a));
    case DoOpen(name, luck) => OpenStep(st, name, luck, Step(st, a));
    case DoRemove(name, luck) => RemoveStep(st, name, luck, Step(st, a));
    case DoReopen(s) => HeldIsOpen(st, s); ReopenStep(st, s, Step(st, a).st);
    case DoClose(s) => HeldIsOpen(st, s); CloseStep(st, s, true, Step(st, a));
    case DoWrite(s) => HeldIsOpen(st, s); WriteStep(st, s, Step(st, a).st);
  }

  lemma HeldIsOpen(st: State, s: nat)
    requires Inv(st) && s in st.handles
    ensures s in st.open && s in st.headers && st.open[s].data == st.headers[s]
  {
    hide Owned, LiveSet, NamesOk;
    assert st.handles[s] > 0;
    OpenAt(st, s);
  }

  lemma WriteStep(st: State, s: nat, st': State)
    requires Inv(st) && s in st.handles && s in st.open
    requires st' == st.(headers := Overwritten(st.headers, st.open[s].data))
    ensures Inv(st') && LiveSet(st') == LiveSet(st) && Agree(st.headers, st'.headers, LiveSet(st))
  {
    hide Owned, LiveSet, NamesOk, OpensOk, Overwritten, Agree;
    HeldIsOpen(st, s);
    LiveIs(st, s);
    OverwriteAgrees(st.used, st.headers, LiveSet(st), s);
    DiskStep(st, st');
  }

  /** Operations one after another; it stops at the first that does not return. */
  function Run(st: State, actions: seq<Action>): Outcome
    decreases |actions|
  {
    if actions == [] then Next(st, true)
    else
      var o := Step(st, actions[0]);
      if o.Next? then Run(o.st, actions[1..]) else o
  }

  ghost predicate Legal(st: State, actions: seq<Action>)
    decreases |actions|
  {
    actions == [] ||
    (Enabled(st, actions[0]) && (Step(st, actions[0]).Next? ==> Legal(Step(st, actions[0]).st, actions[1..])))
  }

  /** The run comes to a create that fails the assertion on its size. */
  ghost predicate FailsIn(st: State, actions: seq<Action>)
    decreases |actions|
  {
    actions != [] &&
    (Fails(st, actions[0]) || (Step(st, actions[0]).Next? && FailsIn(Step(st, actions[0]).st, actions[1..])))
  }

  /** Every run from a good state returns, in a good state, or fails the assertion on the size of a new
      file; a run whose creates all ask for less than 2^31 bytes returns. */
  lemma {:induction false} RunInv(st: State, actions: seq<Action>)
    requires Inv(st) && Legal(st, actions)
    ensures Run(st, actions).Panic? <==> FailsIn(st, actions)
    ensures !FailsIn(st, actions) ==> Run(st, actions).Next? && Inv(Run(st, actions).st)
    ensures FailsIn(st, actions) ==> exists a :: a in actions && a.DoCreate? && OFF_T_LIMIT <= a.size
    decreases |actions|
  {
    hide Inv, Step, Enabled;
    if actions != [] {
      StepInv(st, actions[0]);
      if Fails(st, actions[0]) {
        assert actions[0] in actions;
      } else {
        RunInv(Step(st, actions[0]).st, actions[1..]);
        assert forall a {:trigger a in actions[1..]} :: a in actions[1..] ==> a in actions;
      }
    }
  }

  /** An instance: while a sector is free, a create of 2^31 bytes or more stops the kernel, whenever the
      directory opens and the free map can be written, and only then. */
  lemma LargeCreateFails(st: State, name: string, size: nat, luck: Luck)
    requires Inv(st) && OFF_T_LIMIT <= size && false in st.used
    ensures Create(st, name, size, luck).Panic? <==> luck.dirOpens && luck.sectorWritten
  {
    hide Owned, LiveSet, NamesOk, Create, InodeCreate, Overwritten;
    CreateStep(st, name, size, luck, Create(st, name, size, luck));
    var k :| 0 <= k < |st.used| && !st.used[k];
    assert B.AllAre(st.used, k, 1, false);
  }

  /** In every run on a formatted disk no release assertion fails, and the sectors of live inodes are
      marked and belong to one inode each. */
  lemma SectorsHaveOneOwner(n: nat, actions: seq<Action>, s: nat, t: nat, k: nat)
    requires 2 <= n && Format(n).Some? && Legal(Format(n).value, actions)
    ensures Run(Format(n).value, actions).Panic? <==> FailsIn(Format(n).value, actions)
    ensures !FailsIn(Format(n).value, actions) ==> Run(Format(n).value, actions).Next?
    ensures !FailsIn(Format(n).value, actions) ==>
      var st := Run(Format(n).value, actions).st;
      Live(st, s) ==> s in st.headers && ((k == s || InExtent(st.headers[s], k)) ==>
        && k < |st.used| && st.used[k]
        && (s != t && Live(st, t) ==> t in st.headers && k != t && !InExtent(st.headers[t], k)))
  {
    hide Format, Run, Legal, FailsIn, LiveSet, OpensOk, NamesOk, InExtent, Live;
    FormatInv(n);
    RunInv(Format(n).value, actions);
    if !FailsIn(Format(n).value, actions) {
      var st := Run(Format(n).value, actions).st;
      LiveIs(st, s);
      LiveIs(st, t);
      if s in LiveSet(st) && t in LiveSet(st) && s != t {
        assert InExtent(st.headers[t], s) ==> s !in LiveSet(st);
      }
    }
  }

  // ---- A file keeps its sectors while it is held

  lemma ReleaseRest(st: State, a: nat, cnt: nat, ok: bool)
    ensures var o := Release(st, a, cnt, ok);
      o.Next? ==> o.st.handles == st.handles && o.st.open == st.open && o.st.dir == st.dir
  {
  }

  lemma CreateRest(st: State, name: string, size: nat, luck: Luck)
    ensures var o := Create(st, name, size, luck);
      o.Next? ==> o.st.handles == st.handles && o.st.open == st.open && (!o.ok ==> o.st.dir == st.dir)
  {
    hide Allocate, Release, Overwritten, BytesToSectors, Accepts, InodeCreate, Directory.Added;
    var (st1, sector) := Allocate(st, 1, luck.sectorWritten);
    AllocateRest(st, 1, luck.sectorWritten);
    if sector.Some? {
      var (st2, made) := InodeCreate(st1, sector.value, size, luck.memory, luck.dataWritten);
      InodeCreateRest(st1, sector.value, size, luck.memory, luck.dataWritten);
      if ROOT_DIR_SECTOR in st2.headers {
        var (st3, added) := if made then DirAdd(st2, name, sector.value, luck) else (st2, false);
        ReleaseRest(st3, sector.value, 1, false);
      }
    }
  }

  /** An inode open before and after a step has the same data, and does not come back once removed. */
  ghost predicate Keeps(st: State, st': State, s: nat) {
    s in st.open && s in st'.open ==>
      st'.open[s].data == st.open[s].data && (st.open[s].removed ==> st'.open[s].removed)
  }

  lemma CloseRest(st: State, s: nat, ok: bool, t: nat)
    requires s in st.open
    ensures var o := InodeClose(st, s, ok); o.Next? ==> o.st.handles == st.handles && o.st.dir == st.dir && Keeps(st, o.st, t)
  {
    hide Release;
    var inode := st.open[s];
    var st1 := st.(open := st.open - {s});
    ReleaseRest(st1, s, 1, ok);
    var o := Release(st1, s, 1, ok);
    if o.Next? {
      ReleaseRest(o.st, inode.data.start, BytesToSectors(inode.data.length), ok);
    }
  }

  lemma StepKeeps(st: State, a: Action, s: nat)
    requires Enabled(st, a) && Step(st, a).Next?
    ensures Keeps(st, Step(st, a).st, s)
  {
    hide Create, Open, Remove, InodeClose, Overwritten;
    match a
    case DoCreate(name, size, luck) => CreateRest(st, name, size, luck);
    case DoOpen(name, luck) => OpenKeeps(st, name, luck, s);
    case DoRemove(name, luck) => RemoveKeeps(st, name, luck, s);
    case DoReopen(t) =>
    case DoClose(t) =>
      CloseRest(st.(handles := st.handles - multiset{t}), t, true, s);
    case DoWrite(t) =>
  }

  lemma OpenKeeps(st: State, name: string, luck: Luck, s: nat)
    ensures var o := Open(st, name, luck); o.Next? ==> Keeps(st, o.st, s) && o.st.dir == st.dir
  {
    hide InodeClose;
    var k := Found(st.dir, name, luck);
    if k.Some? {
      var t := st.dir[k.value].sector;
      var o := InodeOpen(st, t, luck.memory);
      if o.Next? && t in o.st.open {
        CloseRest(o.st, t, false, s);
      }
    }
  }

  lemma RemoveKeeps(st: State, name: string, luck: Luck, s: nat)
    ensures var o, k := Remove(st, name, luck), Found(st.dir, name, luck);
      o.Next? ==> Keeps(st, o.st, s) && (o.st.dir == st.dir || (k.Some? && o.st.dir == Directory.Erased(st.dir, k.value)))
  {
    hide InodeClose, Overwritten, Directory.Erased;
    var k := Found(st.dir, name, luck);
    if k.Some? {
      var t := st.dir[k.value].sector;
      var o := InodeOpen(st, t, luck.memory);
      if o.Next? && t in o.st.open && ROOT_DIR_SECTOR in o.st.headers {
        CloseRest(o.st, t, false, s);
        var inode := o.st.open[t];
        CloseRest(
          o.st.(dir := Directory.Erased(o.st.dir, k.value),
                headers := Overwritten(o.st.headers, o.st.headers[ROOT_DIR_SECTOR]),
                open := o.st.open[t := inode.(removed := true)]),
          t, true, s);
      }
    }
  }

  /** Some caller holds s at the start and after every step. */
  ghost predicate AlwaysHeld(st: State, actions: seq<Action>, s: nat)
    decreases |actions|
  {
    s in st.handles &&
    (actions != [] && Step(st, actions[0]).Next? ==> AlwaysHeld(Step(st, actions[0]).st, actions[1..], s))
  }

  /** As long as some caller holds a file, removed or not, its inode and its data stay where they are
      and stay marked. */
  lemma {:induction false} HeldFilesKeepSectors(st: State, actions: seq<Action>, s: nat)
    requires Inv(st) && Legal(st, actions) && AlwaysHeld(st, actions, s)
    ensures s in st.headers && (Run(st, actions).Panic? <==> FailsIn(st, actions))
    ensures !FailsIn(st, actions) ==> Run(st, actions).Next?
    ensures !FailsIn(st, actions) ==>
      var st' := Run(st, actions).st;
      && s in st'.handles && s in st'.headers && st'.headers[s] == st.headers[s]
      && s < |st'.used| && st'.used[s]
      && forall k: nat :: InExtent(st.headers[s], k) ==> k < |st'.used| && st'.used[k]
    decreases |actions|
  {
    hide Step, Enabled, Fails, LiveSet, OpensOk, NamesOk, InExtent, DataApart;
    HeldIsOpen(st, s);
    LiveIs(st, s);
    if actions != [] {
      StepInv(st, actions[0]);
      if !Fails(st, actions[0]) {
        StepKeeps(st, actions[0], s);
        var st1 := Step(st, actions[0]).st;
        HeldIsOpen(st1, s);
        HeldFilesKeepSectors(st1, actions[1..], s);
      }
    }
  }

  // ---- Names

  /** A create enters a name that is in use beyond what its first scan read. */
  ghost predicate EntersTwice(st: State, a: Action) {
    a.DoCreate? && Makes(st, a.size, a.luck) && Names(st, a.name, a.luck)
    && Directory.Missed(st.dir, a.name, a.luck.grant1, a.luck.grant2)
  }

  /** Names stay unique exactly if no create enters one twice. */
  lemma NamesStayUnique(st: State, a: Action)
    requires Inv(st) && Enabled(st, a) && Directory.Unique(st.dir)
    ensures Step(st, a).Panic? <==> Fails(st, a)
    ensures !Fails(st, a) ==>
      Step(st, a).Next? && (Directory.Unique(Step(st, a).st.dir) <==> !EntersTwice(st, a))
  {
    hide Inv, Create, Open, Remove, InodeClose, Overwritten, Directory.Unique, Directory.Missed, Makes, Names, Overlong, Directory.Erased;
    StepInv(st, a);
    match a
    case DoCreate(name, size, luck) =>
      CreateRest(st, name, size, luck);
      CreateStep(st, name, size, luck, Step(st, a));
      if Makes(st, size, luck) && Names(st, name, luck) {
        CreateUnique(st, name, size, luck);
      }
    case DoOpen(name, luck) => OpenKeeps(st, name, luck, 0);
    case DoRemove(name, luck) =>
      RemoveKeeps(st, name, luck, 0);
      var k := Found(st.dir, name, luck);
      if k.Some? {
        EraseUnique(st.dir, k.value);
      }
    case DoReopen(s) =>
    case DoClose(s) =>
      HeldIsOpen(st, s);
      CloseRest(st.(handles := st.handles - multiset{s}), s, true, s);
    case DoWrite(s) =>
  }

  lemma CreateUnique(st: State, name: string, size: nat, luck: Luck)
    requires Inv(st) && Directory.Unique(st.dir) && Makes(st, size, luck) && Names(st, name, luck)
    ensures var o := Create(st, name, size, luck);
      o.Next? && (Directory.Unique(o.st.dir) <==> !Directory.Missed(st.dir, name, luck.grant1, luck.grant2))
  {
    hide Inv, Create, SectorFor, DataFor, LiveSet, Agree, B.SetRange, B.AllAre, Directory.Unique, Directory.Missed, Directory.Slot;
    CreateNamed(st, name, size, luck, Create(st, name, size, luck));
    Directory.AddKeepsUnique(st.dir, name, SectorFor(st, luck).value, luck.grant1, luck.grant2);
  }

  lemma EraseUnique(dir: seq<Directory.Entry>, k: nat)
    requires Directory.Unique(dir) && k < |dir|
    ensures Directory.Unique(Directory.Erased(dir, k))
  {
  }

  /** Every create of the run reads the whole directory before it enters its name. */
  ghost predicate ReadsAll(actions: seq<Action>) {
    forall a {:trigger a in actions} :: a in actions && a.DoCreate? ==> ROOT_ENTRIES <= a.luck.grant1
  }

  lemma ReadsAllUnmissed(st: State, a: Action)
    requires Inv(st) && (a.DoCreate? ==> ROOT_ENTRIES <= a.luck.grant1)
    ensures !EntersTwice(st, a)
  {
    hide Owned, LiveSet, OpensOk, Makes, Names;
  }

  /** In a run whose creates all read the whole directory, names stay unique. */
  lemma {:induction false} UniqueForever(st: State, actions: seq<Action>)
    requires Inv(st) && Legal(st, actions) && ReadsAll(actions) && Directory.Unique(st.dir)
    ensures Run(st, actions).Next? ==> Directory.Unique(Run(st, actions).st.dir)
    decreases |actions|
  {
    hide Inv, Step, Enabled, Fails, EntersTwice, Directory.Unique;
    if actions != [] {
      StepInv(st, actions[0]);
      assert actions[0] in actions;
      ReadsAllUnmissed(st, actions[0]);
      NamesStayUnique(st, actions[0]);
      if !Fails(st, actions[0]) {
        assert forall a {:trigger a in actions[1..]} :: a in actions[1..] ==> a in actions;
        UniqueForever(Step(st, actions[0]).st, actions[1..]);
      }
    }
  }

  /** So every run on a formatted disk leaves each name in use at most once, as long as every scan for a
      name is granted all the directory's entries. */
  lemma NamesUniqueForever(n: nat, actions: seq<Action>)
    requires 2 <= n && Format(n).Some? && Legal(Format(n).value, actions) && ReadsAll(actions)
    ensures Run(Format(n).value, actions).Next? ==> Directory.Unique(Run(Format(n).value, actions).st.dir)
  {
    hide Format, Run, Legal, ReadsAll, Inv;
    FormatInv(n);
    assert Unused(Blank(n).dir);
    UniqueForever(Format(n).value, actions);
  }

  // ---- Sectors lost

  /** The sectors of an inode that is closed for the last time, neither removed nor named: a create has
      overwritten its entry while it was open. */
  ghost predicate Forgotten(st: State, s: nat, k: nat) {
    && s in st.open && st.open[s].cnt == 1 && !st.open[s].removed && !Named(st.dir, s)
    && s in st.headers && (k == s || InExtent(st.headers[s], k))
  }

  lemma CloseOrphans(st: State, s: nat, ok: bool, o: Outcome, k: nat)
    requires Inv(st) && s in st.handles && s in st.open
    requires o == InodeClose(st.(handles := st.handles - multiset{s}), s, ok)
    ensures o.Next? && (Orphan(o.st, k) <==> Orphan(st, k) || Forgotten(st, s, k))
  {
    hide Owned, LiveSet, Named, NamesOk, Release, Covered, BytesToSectors, Agree;
    OpenAt(st, s);
    if st.open[s].cnt > 1 {
      CloseNotLast(st, s, o.st);
      Reflexive(st);
      OrphanSame(st, o.st, k);
    } else if st.open[s].removed {
      CloseReleases(st, s, ok, o);
      var live := LiveSet(o.st);
      assert live + {s} == LiveSet(st);
      CoveredAdded(st.headers, st.headers, live, s, k) by { AgreeSelf(st, live); }
      CoveredSame(st.headers, o.st.headers, live, k);
    } else {
      CloseDrops(st, s, o.st);
      if Named(st.dir, s) {
        Reflexive(st);
        OrphanSame(st, o.st, k);
      } else {
        CoveredDropped(st.used, st.headers, LiveSet(st), s, k) by { InvOwned(st); }
      }
    }
  }

  lemma AgreeSelf(st: State, live: set<nat>)
    requires Inv(st) && live <= LiveSet(st)
    ensures Agree(st.headers, st.headers, live)
  {
    hide LiveSet, DataKept, DataApart, OpensOk, NamesOk;
  }

  lemma OpenOrphans(st: State, name: string, luck: Luck, o: Outcome, k: nat)
    requires Inv(st) && o == Open(st, name, luck)
    ensures o.Next? && (Orphan(o.st, k) <==> Orphan(st, k))
  {
    hide Owned, LiveSet, Named, NamesOk, InodeClose, InodeOpen, OpensOk, Covered, Orphan, Agree, Directory.Find;
    Reflexive(st);
    var i := Found(st.dir, name, luck);
    if i.Some? {
      var s := st.dir[i.value].sector;
      NamedAtLeast(st.dir, i.value);
      var mid := InodeOpen(st, s, luck.memory);
      InodeOpenHandles(st, s, luck.memory);
      var held := if mid.Next? && mid.ok then mid.st.(handles := mid.st.handles + multiset{s}) else st;
      InodeOpenStep(st, s, luck.memory, mid, held);
      OrphanSame(st, held, k);
      if mid.ok && !luck.fileMemory {
        assert held.(handles := held.handles - multiset{s}) == mid.st;
        CloseOrphans(held, s, false, o, k);
      }
    }
  }

  lemma RemoveOrphans(st: State, name: string, luck: Luck, o: Outcome, k: nat)
    requires Inv(st) && o == Remove(st, name, luck)
    ensures o.Next? && (Orphan(o.st, k) <==> Orphan(st, k))
  {
    hide Owned, LiveSet, Named, NamesOk, InodeClose, InodeOpen, OpensOk, Covered, Orphan, Overwritten, Agree, Directory.Find, Directory.Erased;
    Reflexive(st);
    var i := Found(st.dir, name, luck);
    if i.Some? {
      var s := st.dir[i.value].sector;
      NamedAtLeast(st.dir, i.value);
      var mid := InodeOpen(st, s, luck.memory);
      InodeOpenHandles(st, s, luck.memory);
      var held := if mid.Next? && mid.ok then mid.st.(handles := mid.st.handles + multiset{s}) else st;
      InodeOpenStep(st, s, luck.memory, mid, held);
      OrphanSame(st, held, k);
      if mid.ok {
        Reserved(held);
        assert held.(handles := held.handles - multiset{s}) == mid.st;
        if !luck.dirWritten {
          CloseOrphans(held, s, false, o, k);
        } else {
          var gone := held.(dir := Directory.Erased(held.dir, i.value),
            headers := Overwritten(held.headers, held.headers[ROOT_DIR_SECTOR]),
            open := held.open[s := held.open[s].(removed := true)]);
          UnnameStep(held, i.value, gone);
          OrphanSame(held, gone, k);
          assert gone.handles - multiset{s} == mid.st.handles;
          CloseOrphans(gone, s, true, o, k);
        }
      }
    }
  }

  /** The sectors that a step loses. */
  ghost predicate Lost(st: State, a: Action, k: nat) {
    match a
    case DoCreate(name, size, luck) => Leaked(st, name, size, luck, k) || Ousted(st, name, size, luck, k)
    case DoClose(s) => Forgotten(st, s, k)
    case _ => false
  }

  /** Exactly when a sector is lost: it is data of a file that was made but whose name was refused, or it
      belongs to an inode whose entry is overwritten, at that step or, if it is open, when it is closed
      for the last time. */
  lemma LostSectors(st: State, a: Action, k: nat)
    requires Inv(st) && Enabled(st, a)
    ensures Step(st, a).Next? <==> !Fails(st, a)
    ensures !Fails(st, a) ==> (Orphan(Step(st, a).st, k) <==> Orphan(st, k) || Lost(st, a, k))
  {
    hide Owned, LiveSet, NamesOk, Overlong, Create, Open, Remove, InodeClose, Overwritten, Orphan, Leaked, Ousted, Forgotten, Agree;
    match a
    case DoCreate(name, size, luck) => CreateLeaks(st, name, size, luck, Step(st, a), k);
    case DoOpen(name, luck) => OpenOrphans(st, name, luck, Step(st, a), k);
    case DoRemove(name, luck) => RemoveOrphans(st, name, luck, Step(st, a), k);
    case DoReopen(s) =>
      HeldIsOpen(st, s);
      ReopenStep(st, s, Step(st, a).st);
      Reflexive(st);
      OrphanSame(st, Step(st, a).st, k);
    case DoClose(s) =>
      HeldIsOpen(st, s);
      CloseOrphans(st, s, true, Step(st, a), k);
    case DoWrite(s) =>
      HeldIsOpen(st, s);
      WriteStep(st, s, Step(st, a).st);
      OrphanSame(st, Step(st, a).st, k);
  }

  /** An instance: a file with no name but with data always loses its first data sector. */
  lemma UnnamedFileLost(st: State, size: nat, luck: Luck)
    requires Inv(st) && Makes(st, size, luck) && 0 < size
    ensures Create(st, "", size, luck).Next?
    ensures var k := DataFor(st, size, luck).value;
      !Orphan(st, k) && Orphan(Create(st, "", size, luck).st, k)
  {
    hide Inv, Create, SectorFor, DataFor, LiveSet, Covered, Agree, B.FirstGroup;
    var o := Create(st, "", size, luck);
    var k := DataFor(st, size, luck).value;
    CreateRefused(st, "", size, luck, o);
    CreateLeaks(st, "", size, luck, o, k);
    FreeNotCovered(st, k, BytesToSectors(size), k);
  }

  /** An instance: a create whose scans read nothing writes into the first entry, and loses the file
      that had it. */
  lemma OverwrittenFileLost(st: State, name: string, size: nat, luck: Luck)
    requires Inv(st) && Makes(st, size, luck) && Directory.ValidName(name) && luck.dirWritten
    requires luck.grant1 == luck.grant2 == 0 && st.dir[0].inUse && st.dir[0].sector !in st.open
    ensures Create(st, name, size, luck).Next? && Create(st, name, size, luck).ok
    ensures var s := st.dir[0].sector; !Orphan(st, s) && Orphan(Create(st, name, size, luck).st, s)
  {
    hide Owned, Create, SectorFor, DataFor, LiveSet, Agree, OpensOk;
    var s := st.dir[0].sector;
    CreateStep(st, name, size, luck, Create(st, name, size, luck));
    CreateLeaks(st, name, size, luck, Create(st, name, size, luck), s);
    NameLive(st, 0);
    LiveOnDisk(st, s);
  }

  lemma LiveOnDisk(st: State, s: nat)
    requires Inv(st) && s in LiveSet(st)
    ensures s in st.headers && Covered(st.headers, LiveSet(st), s)
  {
    hide LiveSet, OpensOk, NamesOk, InExtent, DataKept, DataApart;
  }
}
