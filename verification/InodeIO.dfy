/** Reading and writing an inode (filesys/inode.c): byte ranges split over sectors, through a
    bounce buffer where a chunk is not a whole sector. */
module InodeIO {
  import Arithmetic
  import opened Common

  ghost predicate WholeSectors(disk: seq<Bytes>) {
    forall i {:trigger disk[i]} :: 0 <= i < |disk| ==> |disk[i]| == SECTOR_SIZE
  }

  /** The byte at address a of the device. */
  function DiskByte(disk: seq<Bytes>, a: nat): Byte
    requires WholeSectors(disk) && a < |disk| * SECTOR_SIZE
  {
    disk[a / SECTOR_SIZE][a % SECTOR_SIZE]
  }

  /** The contents of an inode whose data starts at sector `start`, as one byte sequence. */
  function FileBytes(disk: seq<Bytes>, start: nat, length: nat): (b: Bytes)
    requires WholeSectors(disk) && start + BytesToSectors(length) <= |disk|
    ensures |b| == length
  {
    seq(length, p requires 0 <= p < length => DiskByte(disk, start * SECTOR_SIZE + p))
  }

  lemma FileByteAt(disk: seq<Bytes>, start: nat, length: nat, p: nat)
    requires WholeSectors(disk) && start + BytesToSectors(length) <= |disk| && p < length
    ensures FileBytes(disk, start, length)[p] == DiskByte(disk, start * SECTOR_SIZE + p)
  {
  }

  /** Where in its sector a byte of a file is. */
  function SectorOfs(p: nat): (o: nat)
    ensures o < SECTOR_SIZE
  {
    p % SECTOR_SIZE
  }

  /** Which of the sectors of its file a byte is in. */
  function SectorIndex(p: nat): nat {
    p / SECTOR_SIZE
  }

  /** How many bytes a transfer of `size` bytes at `offset` covers: the most that are requested and present. */
  function Extent(size: int, offset: nat, length: nat): (r: nat)
    ensures r == 0 || (r <= size && offset + r <= length)
    ensures forall n: nat {:trigger offset + n} :: n <= size && offset + n <= length ==> n <= r
  {
    if size <= 0 || offset >= length then 0 else if size < length - offset then size else length - offset
  }

  /** How many of n bytes are transferred without a bounce buffer: the whole sectors in front. */
  function Unbounced(n: nat, offset: nat): nat {
    if offset % SECTOR_SIZE == 0 then n / SECTOR_SIZE * SECTOR_SIZE else 0
  }

  /** The next chunk of a transfer of which `got` bytes are done. */
  lemma NextExtent(size: int, offset: nat, length: nat, got: nat, left: nat, chunk: int)
    requires got <= Extent(size, offset, length) && got < size && 0 < left
    requires var m := if length - offset - got < left then length - offset - got else left; chunk == if size - got < m then size - got else m
    ensures chunk <= 0 ==> got == Extent(size, offset, length)
    ensures 0 < chunk ==>
      && got + chunk <= Extent(size, offset, length) && offset + got + chunk <= length && chunk <= left
      && (chunk == Extent(size, offset, length) - got || chunk == left)
  {
  }

  lemma LastExtent(size: int, offset: nat, length: nat, got: nat)
    requires got <= Extent(size, offset, length) && size <= got
    ensures got == Extent(size, offset, length)
  {
  }

  /** The bytes transferred so far are whole sectors. */
  predicate OnSectors(cnt: nat, offset: nat) { cnt % SECTOR_SIZE == 0 && (cnt > 0 ==> offset % SECTOR_SIZE == 0) }

  lemma OneSector(cnt: nat, offset: nat)
    requires OnSectors(cnt, offset) && SectorOfs(offset + cnt) == 0
    ensures OnSectors(cnt + SECTOR_SIZE, offset)
  {
  }

  /** A transfer without a bounce buffer stops at the first chunk that is not a whole sector. */
  lemma StopsThere(n: nat, offset: nat, cnt: nat, chunk: nat)
    requires OnSectors(cnt, offset) && 0 < chunk <= n - cnt
    requires chunk == n - cnt || chunk == SECTOR_SIZE - SectorOfs(offset + cnt)
    requires !(SectorOfs(offset + cnt) == 0 && chunk == SECTOR_SIZE)
    requires chunk <= SECTOR_SIZE - SectorOfs(offset + cnt)
    ensures cnt == Unbounced(n, offset)
  {
    if offset % SECTOR_SIZE == 0 {
      assert chunk == n - cnt < SECTOR_SIZE;
      WholePart(n, cnt);
    }
  }

  lemma WholePart(n: nat, cnt: nat)
    requires cnt % SECTOR_SIZE == 0 && cnt <= n < cnt + SECTOR_SIZE
    ensures n / SECTOR_SIZE * SECTOR_SIZE == cnt
  {
  }

  /** Part of one sector is part of the file. */
  lemma ChunkRead(disk: seq<Bytes>, start: nat, length: nat, offset: nat, chunk: nat)
    requires WholeSectors(disk) && start + BytesToSectors(length) <= |disk|
    requires offset + chunk <= length && 0 < chunk <= SECTOR_SIZE - offset % SECTOR_SIZE
    ensures start + offset / SECTOR_SIZE < |disk|
    ensures disk[start + offset / SECTOR_SIZE][offset % SECTOR_SIZE..offset % SECTOR_SIZE + chunk]
            == FileBytes(disk, start, length)[offset..offset + chunk]
  {
    var s, o := start + offset / SECTOR_SIZE, offset % SECTOR_SIZE;
    var c := FileBytes(disk, start, length)[offset..offset + chunk];
    var d := disk[s][o..o + chunk];
    forall k | 0 <= k < chunk ensures c[k] == d[k] {
      FileByteAt(disk, start, length, offset + k);
      assert start * SECTOR_SIZE + (offset + k) == s * SECTOR_SIZE + (o + k);
    }
  }

  /** The bytes read so far, from `offset` on. */
  ghost predicate ReadSoFar(disk: seq<Bytes>, start: nat, length: nat, offset: nat, buffer: Bytes)
    requires WholeSectors(disk) && start + BytesToSectors(length) <= |disk|
  {
    offset <= length ==> offset + |buffer| <= length && buffer == FileBytes(disk, start, length)[offset..offset + |buffer|]
  }

  lemma NextRead(disk: seq<Bytes>, start: nat, length: nat, offset: nat, buffer: Bytes, chunk: nat)
    requires WholeSectors(disk) && start + BytesToSectors(length) <= |disk| && ReadSoFar(disk, start, length, offset, buffer)
    requires var p := offset + |buffer|; p + chunk <= length && 0 < chunk <= SECTOR_SIZE - SectorOfs(p)
    ensures var p := offset + |buffer|;
      && start + SectorIndex(p) < |disk|
      && ReadSoFar(disk, start, length, offset, buffer + disk[start + SectorIndex(p)][SectorOfs(p)..SectorOfs(p) + chunk])
  {
    hide FileBytes;
    var p := offset + |buffer|;
    ChunkRead(disk, start, length, p, chunk);
    SliceJoin(FileBytes(disk, start, length), offset, p, p + chunk);
  }

  lemma NothingRead(disk: seq<Bytes>, start: nat, length: nat, offset: nat)
    requires WholeSectors(disk) && start + BytesToSectors(length) <= |disk|
    ensures ReadSoFar(disk, start, length, offset, [])
  {
  }

  lemma IsRead(disk: seq<Bytes>, start: nat, length: nat, offset: nat, buffer: Bytes)
    requires WholeSectors(disk) && start + BytesToSectors(length) <= |disk| && ReadSoFar(disk, start, length, offset, buffer)
    ensures offset <= length ==> offset + |buffer| <= length && buffer == FileBytes(disk, start, length)[offset..offset + |buffer|]
  {
  }

  /** The device with bytes `b` put at address a, which lie in one sector. */
  function PutChunk(disk: seq<Bytes>, s: nat, o: nat, b: Bytes): (r: seq<Bytes>)
    requires WholeSectors(disk) && s < |disk| && o + |b| <= SECTOR_SIZE
    ensures |r| == |disk| && WholeSectors(r)
  {
    disk[s := Overwrite(disk[s], o, b)]
  }

  /** The device differs from an earlier one by `data` at address `base`, and nowhere else. */
  ghost predicate Differs(disk: seq<Bytes>, disk': seq<Bytes>, base: nat, data: Bytes) {
    && WholeSectors(disk) && WholeSectors(disk') && |disk'| == |disk|
    && forall s, o {:trigger disk'[s][o]} :: 0 <= s < |disk| && 0 <= o < SECTOR_SIZE ==>
         disk'[s][o] == if base <= s * SECTOR_SIZE + o < base + |data| then data[s * SECTOR_SIZE + o - base] else disk[s][o]
  }

  lemma ChunkWrite(disk: seq<Bytes>, disk1: seq<Bytes>, base: nat, data: Bytes, b: Bytes, s: nat, o: nat)
    requires Differs(disk, disk1, base, data) && s < |disk| && o + |b| <= SECTOR_SIZE
    requires base + |data| == s * SECTOR_SIZE + o
    ensures Differs(disk, PutChunk(disk1, s, o, b), base, data + b)
  {
    var disk2 := PutChunk(disk1, s, o, b);
    forall t, q | 0 <= t < |disk| && 0 <= q < SECTOR_SIZE
      ensures disk2[t][q] ==
              if base <= t * SECTOR_SIZE + q < base + |data + b| then (data + b)[t * SECTOR_SIZE + q - base] else disk[t][q]
    {
      assert t != s ==> disk2[t][q] == disk1[t][q];
      if t == s {
        SameSector(disk1[s], o, b, q);
      }
    }
  }

  lemma SameSector(c: Bytes, o: nat, b: Bytes, q: nat)
    requires |c| == SECTOR_SIZE && o + |b| <= SECTOR_SIZE && q < SECTOR_SIZE
    ensures Overwrite(c, o, b)[q] == if o <= q < o + |b| then b[q - o] else c[q]
  {
  }

  /** Seen through the inode, the change is an update of the byte sequence. */
  lemma FileDiffers(disk: seq<Bytes>, disk': seq<Bytes>, start: nat, length: nat, offset: nat, data: Bytes)
    requires Differs(disk, disk', start * SECTOR_SIZE + offset, data)
    requires start + BytesToSectors(length) <= |disk| && offset + |data| <= length
    ensures FileBytes(disk', start, length) == Overwrite(FileBytes(disk, start, length), offset, data)
  {
    var c', w := FileBytes(disk', start, length), Overwrite(FileBytes(disk, start, length), offset, data);
    forall p | 0 <= p < length ensures c'[p] == w[p] {
      var a := start * SECTOR_SIZE + p;
      assert a == a / SECTOR_SIZE * SECTOR_SIZE + a % SECTOR_SIZE;
      FileByteAt(disk', start, length, p);
      FileByteAt(disk, start, length, p);
    }
  }

  /** A file elsewhere on the device does not change. */
  lemma OtherFileSame(disk: seq<Bytes>, disk': seq<Bytes>, base: nat, data: Bytes, start: nat, length: nat)
    requires Differs(disk, disk', base, data) && start + BytesToSectors(length) <= |disk|
    requires base + |data| <= start * SECTOR_SIZE || start * SECTOR_SIZE + length <= base
    ensures FileBytes(disk', start, length) == FileBytes(disk, start, length)
  {
    var c', c := FileBytes(disk', start, length), FileBytes(disk, start, length);
    forall p | 0 <= p < length ensures c'[p] == c[p] {
      var a := start * SECTOR_SIZE + p;
      assert a == a / SECTOR_SIZE * SECTOR_SIZE + a % SECTOR_SIZE;
      FileByteAt(disk', start, length, p);
      FileByteAt(disk, start, length, p);
    }
  }

  class Inode {
    const sectors: array<Bytes>  // the block device
    const start: nat
    const length: nat
    var denyWriteCnt: nat

    constructor (sectors: array<Bytes>, start: nat, length: nat)
      ensures this.sectors == sectors && this.start == start && this.length == length && denyWriteCnt == 0
    {
      this.sectors, this.start, this.length, denyWriteCnt := sectors, start, length, 0;
    }

    ghost predicate Valid()
      reads sectors
    {
      WholeSectors(sectors[..]) && start + BytesToSectors(length) <= sectors.Length
    }

    /** `inode_read_at`.  Without memory for a bounce buffer it stops before the first chunk that
        needs one. */
    method ReadAt(size0: int, offset0: nat, haveMemory: bool) returns (buffer: Bytes)
      requires Valid()
      ensures var n := Extent(size0, offset0, length); |buffer| == if haveMemory then n else Unbounced(n, offset0)
      ensures offset0 <= length ==> buffer == FileBytes(sectors[..], start, length)[offset0..offset0 + |buffer|]
    {
      hide FileBytes, OnSectors, Unbounced, Extent, ReadSoFar, SectorOfs, SectorIndex, BytesToSectors;
      var size, offset := size0, offset0;
      buffer := [];
      NothingRead(sectors[..], start, length, offset0);
      NoSectors(offset0);
      while size > 0
        invariant offset == offset0 + |buffer| && size == size0 - |buffer| && (buffer != [] ==> size >= 0)
        invariant |buffer| <= Extent(size0, offset0, length)
        invariant !haveMemory ==> OnSectors(|buffer|, offset0)
        invariant ReadSoFar(sectors[..], start, length, offset0, buffer)
        decreases size
      {
        var sectorOfs := SectorOfs(offset);
        var inodeLeft := length - offset;
        var sectorLeft := SECTOR_SIZE - sectorOfs;
        var minLeft := if inodeLeft < sectorLeft then inodeLeft else sectorLeft;
        var chunkSize := if size < minLeft then size else minLeft;
        NextExtent(size0, offset0, length, |buffer|, sectorLeft, chunkSize);
        if chunkSize <= 0 {
          break;
        }
        if !(sectorOfs == 0 && chunkSize == SECTOR_SIZE) && !haveMemory {
          StopsThere(Extent(size0, offset0, length), offset0, |buffer|, chunkSize);
          IsRead(sectors[..], start, length, offset0, buffer);
          return;
        }
        NextRead(sectors[..], start, length, offset0, buffer, chunkSize);
        if !haveMemory {
          OneSector(|buffer|, offset0);
        }
        var chunk := ReadChunk(start + SectorIndex(offset), sectorOfs, chunkSize);
        buffer := buffer + chunk;
        size := size - chunkSize;
        offset := offset + chunkSize;
      }
      if size <= 0 {
        LastExtent(size0, offset0, length, |buffer|);
      }
      if !haveMemory {
        NothingLeft(|buffer|, offset0);
      }
      IsRead(sectors[..], start, length, offset0, buffer);
    }

    /** One chunk: a whole sector is read directly, a part of one through the bounce buffer. */
    method ReadChunk(s: nat, sectorOfs: nat, chunkSize: nat) returns (b: Bytes)
      requires WholeSectors(sectors[..]) && s < sectors.Length && sectorOfs + chunkSize <= SECTOR_SIZE
      ensures s < |sectors[..]| && b == sectors[..][s][sectorOfs..sectorOfs + chunkSize]
    {
      var sector := sectors[s];
      assert |sectors[..][s]| == SECTOR_SIZE;
      if sectorOfs == 0 && chunkSize == SECTOR_SIZE {
        b := sector;
      } else {
        b := sector[sectorOfs..sectorOfs + chunkSize];
      }
    }

    /** `inode_write_at`: returns the number of bytes written. */
    method WriteAt(data: Bytes, offset0: nat, haveMemory: bool) returns (written: nat)
      requires Valid()
      modifies sectors
      ensures Valid()
      ensures var n := Extent(|data|, offset0, length);
        written == if denyWriteCnt > 0 then 0 else if haveMemory then n else Unbounced(n, offset0)
      ensures Differs(old(sectors[..]), sectors[..], start * SECTOR_SIZE + offset0, data[..written])
      ensures written > 0 ==>
        FileBytes(sectors[..], start, length) == Overwrite(FileBytes(old(sectors[..]), start, length), offset0, data[..written])
    {
      hide FileBytes, Differs, Overwrite, PutChunk, OnSectors, Unbounced, SectorOfs, SectorIndex, BytesToSectors;
      NoSectors(offset0);
      ghost var disk := sectors[..];
      ghost var base := start * SECTOR_SIZE + offset0;
      written := 0;
      NothingDiffers(disk, base);
      assert data[..0] == [];
      if denyWriteCnt > 0 {
        return;
      }
      var size, offset := |data|, offset0;
      ghost var stopped := false;
      while size > 0
        invariant offset == offset0 + written && size == |data| - written
        invariant written <= Extent(|data|, offset0, length) && Valid()
        invariant !haveMemory ==> OnSectors(written, offset0)
        invariant stopped ==> !haveMemory && written == Unbounced(Extent(|data|, offset0, length), offset0)
        invariant Differs(disk, sectors[..], base, data[..written])
        decreases size
      {
        var sectorOfs := SectorOfs(offset);
        var inodeLeft := length - offset;
        var sectorLeft := SECTOR_SIZE - sectorOfs;
        var minLeft := if inodeLeft < sectorLeft then inodeLeft else sectorLeft;
        var chunkSize := if size < minLeft then size else minLeft;
        if chunkSize <= 0 {
          break;
        }
        if !(sectorOfs == 0 && chunkSize == SECTOR_SIZE) && !haveMemory {
          StopsThere(Extent(|data|, offset0, length), offset0, written, chunkSize);
          stopped := true;
          break;
        }
        SectorInFile(start, length, offset);
        if !haveMemory {
          OneSector(written, offset0);
        }
        label L:
        WriteChunk(data[written..written + chunkSize], start + SectorIndex(offset), sectorOfs, sectorLeft);
        NextChunk(disk, old@L(sectors[..]), sectors[..], base, data, written, chunkSize, start + SectorIndex(offset), sectorOfs);
        size := size - chunkSize;
        offset := offset + chunkSize;
        written := written + chunkSize;
      }
      if !haveMemory && !stopped {
        NothingLeft(written, offset0);
      }
      if written > 0 {
        FileDiffers(disk, sectors[..], start, length, offset0, data[..written]);
      }
    }

    /** One chunk: a whole sector goes to the device directly, a part of one through the bounce
        buffer, into which the sector is read first.  The branch of the C code that starts from
        zeros instead is never taken. */
    method WriteChunk(b: Bytes, s: nat, sectorOfs: nat, sectorLeft: nat)
      requires WholeSectors(sectors[..]) && s < sectors.Length
      requires 0 < |b| <= sectorLeft == SECTOR_SIZE - sectorOfs && sectorOfs < SECTOR_SIZE
      modifies sectors
      ensures sectors[..] == PutChunk(old(sectors[..]), s, sectorOfs, b)
    {
      if sectorOfs == 0 && |b| == SECTOR_SIZE {
        assert Overwrite(sectors[s], 0, b) == b;
        sectors[s] := b;
      } else {
        var bounce: Bytes;
        if sectorOfs > 0 || |b| < sectorLeft {
          bounce := sectors[s];
        } else {
          assert false;
        }
        bounce := bounce[..sectorOfs] + b + bounce[sectorOfs + |b|..];
        sectors[s] := bounce;
      }
    }
  }

  lemma NoSectors(offset: nat)
    ensures OnSectors(0, offset)
  {
  }

  lemma NothingLeft(n: nat, offset: nat)
    requires OnSectors(n, offset)
    ensures Unbounced(n, offset) == n
  {
  }

  lemma SliceJoin(c: Bytes, i: nat, j: nat, k: nat)
    requires i <= j <= k <= |c|
    ensures c[i..j] + c[j..k] == c[i..k]
  {
  }

  lemma SectorInFile(start: nat, length: nat, offset: nat)
    requires offset < length
    ensures SectorIndex(offset) < BytesToSectors(length)
    ensures start * SECTOR_SIZE + offset == (start + SectorIndex(offset)) * SECTOR_SIZE + SectorOfs(offset)
  {
  }

  lemma NothingDiffers(disk: seq<Bytes>, base: nat)
    requires WholeSectors(disk)
    ensures Differs(disk, disk, base, [])
  {
  }

  lemma NextChunk(disk: seq<Bytes>, disk1: seq<Bytes>, disk2: seq<Bytes>, base: nat, data: Bytes,
                  written: nat, chunk: nat, s: nat, o: nat)
    requires written + chunk <= |data| && Differs(disk, disk1, base, data[..written])
    requires s < |disk1| && o + chunk <= SECTOR_SIZE && base + written == s * SECTOR_SIZE + o
    requires WholeSectors(disk1) && disk2 == PutChunk(disk1, s, o, data[written..written + chunk])
    ensures Differs(disk, disk2, base, data[..written + chunk]) && WholeSectors(disk2) && |disk2| == |disk1|
  {
    ChunkWrite(disk, disk1, base, data[..written], data[written..written + chunk], s, o);
    assert data[..written + chunk] == data[..written] + data[written..written + chunk];
  }

  /** `bytes_to_sectors` is the quotient of a 32-bit sum, rounded toward zero and read as unsigned. It is
      the size rounded up for every size up to 0x7FFF_FE00, and for no larger one. */
  lemma SectorsOfSize(size: nat)
    requires size < OFF_T_LIMIT
    ensures BytesToSectors(size) ==
      Arithmetic.TruncDiv(Arithmetic.AsS32(size + SECTOR_SIZE - 1), SECTOR_SIZE) % Arithmetic.B32
    ensures BytesToSectors(size) == (size + SECTOR_SIZE - 1) / SECTOR_SIZE <==> size <= 0x7FFF_FE00
  {
    if 0x7FFF_FE00 < size {
      assert Arithmetic.AsS32(size + SECTOR_SIZE - 1) == size + SECTOR_SIZE - 1 - Arithmetic.B32;
    }
  }
}
