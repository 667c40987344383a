/** A directory (filesys/directory.c): a file of fixed-size entries, scanned from the front and never
    grown. Reading an entry needs memory for a bounce buffer. A scan that does not get it stops early
    and takes that for the end of the file, so every scan has the number of reads it is granted. */
module Directory {
  import opened Common

  /** A `struct dir_entry`. */
  datatype Entry = Entry(sector: nat, name: string, inUse: bool)

  predicate ValidName(name: string) { 0 < |name| <= NAME_MAX }

  predicate IsNamed(e: Entry, name: string) { e.inUse && e.name == name }

  /** Where a scan that is granted `grant` reads ends at the latest. */
  function ScanEnd(entries: seq<Entry>, grant: nat): nat { if grant < |entries| then grant else |entries| }

  /** `lookup`: the first entry in use with the name, among those read. */
  function Find(entries: seq<Entry>, name: string, grant: nat): (r: Option<nat>)
    ensures r.Some? ==>
      && r.value < ScanEnd(entries, grant) && IsNamed(entries[r.value], name)
      && forall j {:trigger entries[j]} :: 0 <= j < r.value ==> !IsNamed(entries[j], name)
    ensures r.None? ==> forall j {:trigger entries[j]} :: 0 <= j < ScanEnd(entries, grant) ==> !IsNamed(entries[j], name)
  {
    if entries == [] || grant == 0 then None
    else if IsNamed(entries[0], name) then Some(0)
    else
      var r := Find(entries[1..], name, grant - 1);
      assert forall j {:trigger entries[j]} :: 0 < j < |entries| ==> entries[j] == entries[1..][j - 1];
      if r.None? then None else Some(r.value + 1)
  }

  /** The second scan of `dir_add`: the first entry not in use, or where reading stopped. */
  function Slot(entries: seq<Entry>, grant: nat): (k: nat)
    ensures k <= ScanEnd(entries, grant) && (k < ScanEnd(entries, grant) ==> !entries[k].inUse)
    ensures forall j {:trigger entries[j]} :: 0 <= j < k ==> entries[j].inUse
  {
    if entries == [] || grant == 0 || !entries[0].inUse then 0
    else
      assert forall j {:trigger entries[j]} :: 0 < j < |entries| ==> entries[j] == entries[1..][j - 1];
      Slot(entries[1..], grant - 1) + 1
  }

  /** `dir_add` goes as far as writing inside the file. */
  predicate CanAdd(entries: seq<Entry>, name: string, grant1: nat, grant2: nat) {
    ValidName(name) && Find(entries, name, grant1).None? && Slot(entries, grant2) < |entries|
  }

  /** What it then leaves. */
  function Added(entries: seq<Entry>, name: string, sector: nat, grant2: nat): seq<Entry>
    requires Slot(entries, grant2) < |entries|
  {
    entries[Slot(entries, grant2) := Entry(sector, name, true)]
  }

  function Erased(entries: seq<Entry>, k: nat): seq<Entry>
    requires k < |entries|
  {
    entries[k := entries[k].(inUse := false)]
  }

  // ---- What a directory should be: a finite map

  /** No name is in use twice. */
  ghost predicate Unique(entries: seq<Entry>) {
    forall i, j {:trigger entries[i], entries[j]} :: 0 <= i < j < |entries| && entries[i].inUse && entries[j].inUse ==>
      entries[i].name != entries[j].name
  }

  /** The entries in use are exactly the bindings of `m`, each once. */
  ghost predicate Represents(entries: seq<Entry>, m: map<string, nat>) {
    && (forall i {:trigger entries[i]} :: 0 <= i < |entries| && entries[i].inUse ==>
          entries[i].name in m && m[entries[i].name] == entries[i].sector)
    && (forall n {:trigger n in m} :: n in m ==> Uses(entries, n))
    && Unique(entries)
  }

  /** Some entry in use has name n. */
  ghost predicate Uses(entries: seq<Entry>, n: string) {
    exists i :: 0 <= i < |entries| && IsNamed(entries[i], n)
  }

  ghost predicate HasFreeSlot(entries: seq<Entry>) {
    exists i :: 0 <= i < |entries| && !entries[i].inUse
  }

  /** With enough reads `dir_add` refines insertion into the map: it works exactly if the name is valid
      and absent and an entry is free. */
  lemma AddRefinesMap(entries: seq<Entry>, m: map<string, nat>, name: string, sector: nat, grant1: nat, grant2: nat)
    requires Represents(entries, m) && |entries| <= grant1 && |entries| <= grant2
    ensures CanAdd(entries, name, grant1, grant2) <==> ValidName(name) && name !in m && HasFreeSlot(entries)
    ensures CanAdd(entries, name, grant1, grant2) ==> Represents(Added(entries, name, sector, grant2), m[name := sector])
  {
    assert name in m ==> Uses(entries, name);
    if CanAdd(entries, name, grant1, grant2) {
      AddRepresents(entries, m, Slot(entries, grant2), name, sector);
    }
  }

  lemma AddRepresents(entries: seq<Entry>, m: map<string, nat>, k: nat, name: string, sector: nat)
    requires Represents(entries, m) && k < |entries| && !entries[k].inUse && name !in m
    ensures Represents(entries[k := Entry(sector, name, true)], m[name := sector])
  {
    var e', m' := entries[k := Entry(sector, name, true)], m[name := sector];
    forall n | n in m' ensures Uses(e', n) {
      if n == name {
        assert e'[k].inUse;
      } else {
        var i :| 0 <= i < |entries| && IsNamed(entries[i], n);
        assert e'[i] == entries[i];
      }
    }
  }

  /** Erasing the entry of a name refines removal from the map. */
  lemma EraseRefinesMap(entries: seq<Entry>, m: map<string, nat>, k: nat)
    requires Represents(entries, m) && k < |entries| && entries[k].inUse
    ensures Represents(Erased(entries, k), m - {entries[k].name})
  {
    var e', m' := Erased(entries, k), m - {entries[k].name};
    forall n | n in m' ensures Uses(e', n) {
      assert Uses(entries, n);
      var i :| 0 <= i < |entries| && IsNamed(entries[i], n);
      assert e'[i] == entries[i];
    }
  }

  /** Names stay unique if and only if no entry that the first scan did not reach has the name, other
      than the one that is overwritten. */
  lemma AddKeepsUnique(entries: seq<Entry>, name: string, sector: nat, grant1: nat, grant2: nat)
    requires Unique(entries) && CanAdd(entries, name, grant1, grant2)
    ensures Unique(Added(entries, name, sector, grant2)) <==> !Missed(entries, name, grant1, grant2)
  {
    var k := Slot(entries, grant2);
    var e' := Added(entries, name, sector, grant2);
    if Missed(entries, name, grant1, grant2) {
      var i :| grant1 <= i < |entries| && i != k && IsNamed(entries[i], name);
      assert e'[i] == entries[i] && e'[k].name == name;
    } else {
      forall i | 0 <= i < |entries| && i != k ensures !IsNamed(entries[i], name) {
        assert i < grant1 ==> i < ScanEnd(entries, grant1);
      }
    }
  }

  /** The name is in use beyond the first scan, in an entry that stays. */
  ghost predicate Missed(entries: seq<Entry>, name: string, grant1: nat, grant2: nat) {
    exists i :: grant1 <= i < |entries| && i != Slot(entries, grant2) && IsNamed(entries[i], name)
  }

  /** An entry in use is overwritten if and only if the second scan stopped on it, all before it being
      in use; with enough reads none is. */
  lemma AddOverwrites(entries: seq<Entry>, grant2: nat)
    requires Slot(entries, grant2) < |entries|
    ensures entries[Slot(entries, grant2)].inUse <==>
      grant2 < |entries| && forall j {:trigger entries[j]} :: 0 <= j <= grant2 ==> entries[j].inUse
  {
    var k := Slot(entries, grant2);
    if entries[k].inUse {
      assert k == grant2;
    }
  }

  /** A name entered twice: the first scan reads nothing. */
  lemma EnteredTwice()
    ensures var entries := [Entry(5, "a", true), Entry(0, "", false)];
      && CanAdd(entries, "a", 0, 2) && Unique(entries)
      && Added(entries, "a", 6, 2) == [Entry(5, "a", true), Entry(6, "a", true)] && !Unique(Added(entries, "a", 6, 2))
  {
    var entries := [Entry(5, "a", true), Entry(0, "", false)];
    assert entries[1..] == [Entry(0, "", false)];
    var e' := Added(entries, "a", 6, 2);
    assert e'[0].name == e'[1].name;
  }

  /** A binding lost: both scans read nothing, and the write gets its memory. */
  lemma FirstEntryOverwritten()
    ensures var entries := [Entry(5, "a", true), Entry(0, "", false)];
      && CanAdd(entries, "b", 0, 0)
      && Added(entries, "b", 6, 0) == [Entry(6, "b", true), Entry(0, "", false)] && !Uses(Added(entries, "b", 6, 0), "a")
  {
  }

  // ---- Listing

  /** The names in use from entry `pos` on, in order. */
  function NamesFrom(entries: seq<Entry>, pos: nat): seq<string>
    decreases |entries| - pos
  {
    if pos >= |entries| then []
    else (if entries[pos].inUse then [entries[pos].name] else []) + NamesFrom(entries, pos + 1)
  }

  ghost predicate NoRepeats(names: seq<string>) {
    forall i, j :: 0 <= i < j < |names| ==> names[i] != names[j]
  }

  class Dir {
    const file: array<Entry>   // the backing inode, by entry
    var pos: nat

    /** `dir_create` and `dir_open`: zeroed entries are not in use. */
    constructor (entryCnt: nat)
      ensures Represents(file[..], map[]) && pos == 0 && file.Length == entryCnt && fresh(file)
      ensures file[..] == seq(entryCnt, _ => Entry(0, "", false))
    {
      file := new Entry[entryCnt](_ => Entry(0, "", false));
      pos := 0;
    }

    /** `lookup`. */
    method Lookup(name: string, grant: nat) returns (ofs: Option<nat>)
      ensures ofs == Find(file[..], name, grant)
    {
      var i := 0;
      while i < file.Length && i < grant
        invariant 0 <= i <= file.Length && i <= grant
        invariant forall j {:trigger file[j]} :: 0 <= j < i ==> !IsNamed(file[j], name)
      {
        if file[i].inUse && file[i].name == name {
          FindIs(file[..], name, grant, i);
          return Some(i);
        }
        i := i + 1;
      }
      return None;
    }

    /** `dir_add`: the two scans are granted grant1 and grant2 reads, and the write may fail. */
    method Add(name: string, sector: nat, grant1: nat, grant2: nat, written: bool) returns (success: bool)
      modifies file
      ensures success <==> CanAdd(old(file[..]), name, grant1, grant2) && written
      ensures file[..] == if success then Added(old(file[..]), name, sector, grant2) else old(file[..])
    {
      if !ValidName(name) {
        return false;
      }
      var found := Lookup(name, grant1);
      if found.Some? {
        return false;
      }
      var ofs := 0;
      while ofs < file.Length && ofs < grant2 && file[ofs].inUse
        invariant 0 <= ofs <= file.Length && ofs <= grant2
        invariant forall j {:trigger file[j]} :: 0 <= j < ofs ==> file[j].inUse
      {
        ofs := ofs + 1;
      }
      SlotIs(file[..], grant2, ofs);
      if ofs == file.Length || !written {
        return false;  // the write at the end of the file transfers nothing
      }
      file[ofs] := Entry(sector, name, true);
      assert file[..] == old(file[..])[ofs := Entry(sector, name, true)];
      return true;
    }

    /** `dir_remove` up to marking the inode: erases the entry found, if the inode can be opened and the
        entry written. */
    method Erase(name: string, grant: nat, opens: bool, written: bool) returns (erased: Option<nat>)
      modifies file
      ensures erased == if opens && written then Find(old(file[..]), name, grant) else None
      ensures file[..] == if erased.Some? then Erased(old(file[..]), erased.value) else old(file[..])
    {
      erased := Lookup(name, grant);
      if erased.None? || !opens || !written {
        return None;
      }
      EraseAt(erased.value);
    }

    /** Writes entry k back, not in use. */
    method EraseAt(k: nat)
      requires k < file.Length
      modifies file
      ensures file[..] == Erased(old(file[..]), k)
    {
      file[k] := file[k].(inUse := false);
      assert file[..] == Erased(old(file[..]), k);
    }

    /** `dir_readdir`: the next name in use; none at the end, or when reading fails. */
    method ReadDir(grant: nat) returns (name: Option<string>)
      modifies this`pos
      ensures name.Some? ==> NamesFrom(file[..], old(pos)) == [name.value] + NamesFrom(file[..], pos)
      ensures name.None? ==> NamesFrom(file[..], old(pos)) == NamesFrom(file[..], pos)
      ensures name.None? && file.Length < old(pos) + grant ==> NamesFrom(file[..], pos) == []
      ensures name.Some? ==> old(pos) < pos <= file.Length
    {
      var left := grant;
      while pos < file.Length && left > 0
        invariant old(pos) <= pos && (old(pos) <= file.Length ==> pos <= file.Length) && left == grant - (pos - old(pos))
        invariant NamesFrom(file[..], old(pos)) == NamesFrom(file[..], pos)
      {
        var e := file[pos];
        assert NamesFrom(file[..], pos) == (if e.inUse then [e.name] else []) + NamesFrom(file[..], pos + 1);
        pos := pos + 1;
        left := left - 1;
        if e.inUse {
          return Some(e.name);
        }
      }
      return None;
    }

    /** Reading a directory from its start to the end lists every name once. */
    method ListAll(ghost m: map<string, nat>) returns (names: seq<string>)
      requires Represents(file[..], m)
      modifies this`pos
      ensures forall n :: n in names <==> n in m
      ensures NoRepeats(names)
    {
      hide Represents, NoRepeats, NamesFrom;
      pos := 0;
      names := [];
      var r := ReadDir(file.Length + 1);
      while r.Some?
        invariant r.Some? ==> pos <= file.Length
        invariant names + (if r.Some? then [r.value] + NamesFrom(file[..], pos) else []) == NamesFrom(file[..], 0)
        decreases if r.Some? then file.Length + 1 - pos else 0
      {
        names := names + [r.value];
        r := ReadDir(file.Length + 1);
      }
      assert names == NamesFrom(file[..], 0);
      NamesListed(file[..], m, names);
    }
  }

  lemma {:induction false} FindIs(entries: seq<Entry>, name: string, grant: nat, i: nat)
    requires i < ScanEnd(entries, grant) && IsNamed(entries[i], name)
    requires forall j {:trigger entries[j]} :: 0 <= j < i ==> !IsNamed(entries[j], name)
    ensures Find(entries, name, grant) == Some(i)
  {
    var r := Find(entries, name, grant);
    assert r.Some?;
    assert r.value <= i;
  }

  lemma {:induction false} SlotIs(entries: seq<Entry>, grant: nat, k: nat)
    requires k <= ScanEnd(entries, grant) && (k < ScanEnd(entries, grant) ==> !entries[k].inUse)
    requires forall j {:trigger entries[j]} :: 0 <= j < k ==> entries[j].inUse
    ensures Slot(entries, grant) == k
  {
    if k > 0 {
      SlotIs(entries[1..], grant - 1, k - 1);
    }
  }

  /** The names a full listing yields are the keys of the map, without repetition. */
  lemma NamesListed(entries: seq<Entry>, m: map<string, nat>, names: seq<string>)
    requires Represents(entries, m) && names == NamesFrom(entries, 0)
    ensures forall n :: n in names <==> n in m
    ensures NoRepeats(names)
  {
    forall n ensures n in names <==> n in m {
      NameListed(entries, 0, n);
      assert UsedFrom(entries, 0, n) <==> Uses(entries, n);
      assert n in m ==> Uses(entries, n);
    }
    NamesDistinct(entries, m, 0);
  }

  ghost predicate UsedFrom(entries: seq<Entry>, pos: nat, n: string) {
    exists i :: pos <= i < |entries| && IsNamed(entries[i], n)
  }

  lemma UsedNext(entries: seq<Entry>, pos: nat, n: string)
    requires pos < |entries|
    ensures UsedFrom(entries, pos, n) <==> IsNamed(entries[pos], n) || UsedFrom(entries, pos + 1, n)
  {
  }

  lemma {:induction false} NameListed(entries: seq<Entry>, pos: nat, n: string)
    ensures n in NamesFrom(entries, pos) <==> UsedFrom(entries, pos, n)
    decreases |entries| - pos
  {
    hide UsedFrom;
    if pos < |entries| {
      NameListed(entries, pos + 1, n);
      UsedNext(entries, pos, n);
      var here := if entries[pos].inUse then [entries[pos].name] else [];
      assert NamesFrom(entries, pos) == here + NamesFrom(entries, pos + 1);
      assert n in here <==> IsNamed(entries[pos], n);
    } else {
      assert !UsedFrom(entries, pos, n) by { NoneUsed(entries, pos, n); }
    }
  }

  lemma NoneUsed(entries: seq<Entry>, pos: nat, n: string)
    requires |entries| <= pos
    ensures !UsedFrom(entries, pos, n)
  {
  }

  lemma {:induction false} NamesDistinct(entries: seq<Entry>, m: map<string, nat>, pos: nat)
    requires Represents(entries, m)
    ensures NoRepeats(NamesFrom(entries, pos))
    decreases |entries| - pos
  {
    if pos < |entries| {
      NamesDistinct(entries, m, pos + 1);
      var rest := NamesFrom(entries, pos + 1);
      if entries[pos].inUse {
        NameListed(entries, pos + 1, entries[pos].name);
        assert !UsedFrom(entries, pos + 1, entries[pos].name);
        assert entries[pos].name !in rest;
        assert NamesFrom(entries, pos) == [entries[pos].name] + rest;
      } else {
        assert NamesFrom(entries, pos) == rest;
      }
    }
  }
}
