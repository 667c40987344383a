/** Sector ownership over every run: live inodes own disjoint, marked sectors. */
module OwnershipProof {
  import opened Common
  import B = Bitmap
  import Directory
  import opened FileSystem

  /** Inodes that are named, open or reserved. */
  ghost predicate Live(st: State, s: nat) {
    s == FREE_MAP_SECTOR || s == ROOT_DIR_SECTOR || s in st.open || Named(st.dir, s)
  }

  /** Some entry in use has the inode in sector s. */
  ghost predicate Named(dir: seq<Directory.Entry>, s: nat) {
    exists i :: 0 <= i < |dir| && dir[i].inUse && dir[i].sector == s
  }

  ghost function NamedSet(dir: seq<Directory.Entry>): set<nat> {
    set i | 0 <= i < |dir| && dir[i].inUse :: dir[i].sector
  }

  ghost function LiveSet(st: State): (r: set<nat>)
    ensures forall s {:trigger s in r} :: s in r <==> Live(st, s)
  {
    var r := {FREE_MAP_SECTOR, ROOT_DIR_SECTOR} + st.open.Keys + NamedSet(st.dir);
    assert forall s {:trigger s in r} :: s in r <==> Live(st, s);
    r
  }

  // ---- Ownership of sectors by a set of live inodes

  /** Every live inode is on disk in a marked sector, with data inside the device. */
  ghost predicate InodesKept(used: seq<bool>, headers: map<nat, Header>, live: set<nat>) {
    forall s {:trigger s in live} :: s in live ==>
      && s in headers && s < |used| && used[s]
      && headers[s].start + BytesToSectors(headers[s].length) <= |used|
  }

  /** Their data are in marked sectors that hold no live inode. */
  ghost predicate DataKept(used: seq<bool>, headers: map<nat, Header>, live: set<nat>)
    requires InodesKept(used, headers, live)
  {
    forall s: nat, k: nat {:trigger InExtent(headers[s], k)} :: s in live && InExtent(headers[s], k) ==>
      k < |used| && used[k] && k !in live
  }

  /** No sector holds data of two. */
  ghost predicate DataApart(used: seq<bool>, headers: map<nat, Header>, live: set<nat>)
    requires InodesKept(used, headers, live)
  {
    forall s: nat, t: nat, k: nat {:trigger InExtent(headers[s], k), InExtent(headers[t], k)} ::
      s in live && t in live && s != t && InExtent(headers[s], k) ==> !InExtent(headers[t], k)
  }

  ghost predicate Owned(used: seq<bool>, headers: map<nat, Header>, live: set<nat>) {
    && InodesKept(used, headers, live)
    && DataKept(used, headers, live)
    && DataApart(used, headers, live)
  }

  /** Sector k belongs to some live inode. */
  ghost predicate Covered(headers: map<nat, Header>, live: set<nat>, k: nat) {
    exists s :: s in live && s in headers && (k == s || InExtent(headers[s], k))
  }

  /** The cnt sectors from a on are marked and belong to no live inode. */
  ghost predicate Spare(used: seq<bool>, headers: map<nat, Header>, live: set<nat>, a: nat, cnt: nat) {
    && B.AllAre(used, a, cnt, true)
    && forall k: nat {:trigger Covered(headers, live, k)} :: a <= k < a + cnt ==> !Covered(headers, live, k)
  }

  lemma CoveredBy(headers: map<nat, Header>, live: set<nat>, s: nat, k: nat)
    requires s in live && s in headers && (k == s || InExtent(headers[s], k))
    ensures Covered(headers, live, k)
  {
  }

  lemma OwnedFewer(used: seq<bool>, headers: map<nat, Header>, live: set<nat>, live': set<nat>)
    requires Owned(used, headers, live) && live' <= live
    ensures Owned(used, headers, live')
  {
    hide InExtent;
  }

  /** Writing the data of a live inode spoils no live inode. */
  lemma OwnedOverwrite(used: seq<bool>, headers: map<nat, Header>, live: set<nat>, s: nat)
    requires Owned(used, headers, live) && s in live
    ensures Owned(used, Overwritten(headers, headers[s]), live)
    ensures forall t {:trigger t in live} :: t in live ==> t in headers && Overwritten(headers, headers[s])[t] == headers[t]
  {
    hide InExtent;
    var h' := Overwritten(headers, headers[s]);
    forall t | t in live ensures t in h' && h'[t] == headers[t] {
      assert !InExtent(headers[s], t);
    }
  }

  lemma OwnedMore(used: seq<bool>, used': seq<bool>, headers: map<nat, Header>, live: set<nat>)
    requires Owned(used, headers, live)
    requires |used'| == |used| && forall k {:trigger used'[k]} :: 0 <= k < |used| && used[k] ==> used'[k]
    ensures Owned(used', headers, live)
  {
    hide InExtent;
  }

  /** Unmarking sectors that belong to no live inode. */
  lemma OwnedRelease(used: seq<bool>, headers: map<nat, Header>, live: set<nat>, a: nat, cnt: nat)
    requires Owned(used, headers, live) && Spare(used, headers, live, a, cnt)
    ensures Owned(B.SetRange(used, a, cnt, false), headers, live)
  {
    hide InExtent, Covered, B.SetRange;
    var used' := B.SetRange(used, a, cnt, false);
    forall s | s in live ensures used'[s] {
      CoveredBy(headers, live, s, s);
    }
    forall s: nat, k: nat | s in live && InExtent(headers[s], k) ensures k < |used| && used'[k] && k !in live {
      CoveredBy(headers, live, s, k);
    }
  }

  /** A new inode in a spare sector, with spare data elsewhere. */
  lemma OwnedNew(used: seq<bool>, headers: map<nat, Header>, live: set<nat>, s: nat, h: Header)
    requires Owned(used, headers, live)
    requires Spare(used, headers, live, s, 1) && Spare(used, headers, live, h.start, BytesToSectors(h.length))
    requires !InExtent(h, s)
    ensures Owned(used, headers[s := h], live + {s})
  {
    hide Covered, BytesToSectors;
    var headers', live' := headers[s := h], live + {s};
    NewApart(used, headers, live, s, h);
    forall t: nat, k: nat | t in live' && InExtent(headers'[t], k) ensures k < |used| && used[k] && k !in live' {
      if t == s && k in live {
        CoveredBy(headers, live, k, k);
      }
    }
    forall t: nat, u: nat, k: nat | t in live' && u in live' && t != u && InExtent(headers'[t], k) ensures !InExtent(headers'[u], k) {
      if t != s && u != s {
        assert InExtent(headers[t], k);
      }
    }
  }

  lemma NewApart(used: seq<bool>, headers: map<nat, Header>, live: set<nat>, s: nat, h: Header)
    requires InodesKept(used, headers, live)
    requires Spare(used, headers, live, s, 1) && Spare(used, headers, live, h.start, BytesToSectors(h.length))
    ensures s !in live
    ensures forall t: nat, k: nat {:trigger InExtent(headers[t], k)} :: t in live && InExtent(headers[t], k) ==> k != s && !InExtent(h, k)
  {
    hide Covered, BytesToSectors;
    if s in live {
      CoveredBy(headers, live, s, s);
    }
    forall t: nat, k: nat {:trigger InExtent(headers[t], k)} | t in live && InExtent(headers[t], k)
      ensures k != s && !InExtent(h, k)
    {
      CoveredBy(headers, live, t, k);
    }
  }

  /** Sectors found free belong to no live inode. */
  lemma FreeIsSpare(used: seq<bool>, headers: map<nat, Header>, live: set<nat>, a: nat, cnt: nat)
    requires Owned(used, headers, live) && B.AllAre(used, a, cnt, false)
    ensures Spare(B.SetRange(used, a, cnt, true), headers, live, a, cnt)
  {
    hide InExtent;
    forall k: nat | a <= k < a + cnt ensures !Covered(headers, live, k) {
      assert !used[k];
    }
  }

  // ---- Names, open inodes and references

  /** Each entry in use has an inode of its own, and never one of the reserved ones. */
  ghost predicate NamesOk(dir: seq<Directory.Entry>) {
    && |dir| == ROOT_ENTRIES
    && (forall i {:trigger dir[i]} :: 0 <= i < |dir| && dir[i].inUse ==> 2 <= dir[i].sector)
    && (forall i, j {:trigger dir[i], dir[j]} :: 0 <= i < j < |dir| && dir[i].inUse && dir[j].inUse ==>
          dir[i].sector != dir[j].sector)
  }

  /** An open inode agrees with its sector, counts its references, and has no name if it is removed. */
  ghost predicate OpenOk(st: State, s: nat)
    requires s in st.open
  {
    var inode := st.open[s];
    && s in st.headers && inode.data == st.headers[s]
    && 0 < inode.cnt == st.handles[s] + (if s == FREE_MAP_SECTOR then 1 else 0)
    && s != ROOT_DIR_SECTOR
    && (inode.removed ==> s != FREE_MAP_SECTOR && !Named(st.dir, s))
  }

  ghost predicate OpensOk(st: State) {
    && FREE_MAP_SECTOR in st.open
    && (forall s {:trigger s in st.open} :: s in st.open ==> OpenOk(st, s))
    && (forall s {:trigger st.handles[s]} :: s in st.handles ==> s in st.open && 2 <= s)
  }

  ghost predicate Inv(st: State) {
    && Owned(st.used, st.headers, LiveSet(st))
    && NamesOk(st.dir)
    && OpensOk(st)
  }
}
