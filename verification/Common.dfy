/** Notions that several parts of the kernel share. */
module Common {

  datatype Option<+T> = None | Some(value: T)

  newtype Byte = x: int | 0 <= x < 256
  type Bytes = seq<Byte>

  const PGSIZE: nat := 4096
  const PHYS_BASE: nat := 0xC000_0000  // end of user virtual memory
  const SECTOR_SIZE: nat := 512
  const NAME_MAX: nat := 14            // longest file name

  const OFF_T_LIMIT: nat := 0x8000_0000  // a size from here on is negative as an `off_t`

  /** `bytes_to_sectors` (filesys/inode.c): the size rounded up, except that the sum of the largest sizes
      wraps to a negative number, whose quotient is returned as a `size_t`. */
  function BytesToSectors(size: nat): nat {
    if size == 0x7FFF_FE01 then 0xFFC0_0000
    else if 0x7FFF_FE01 < size < OFF_T_LIMIT then 0xFFC0_0001
    else (size + SECTOR_SIZE - 1) / SECTOR_SIZE
  }

  function Zeros(n: nat): (z: Bytes)
    ensures |z| == n
  {
    seq(n, _ => 0)
  }

  ghost predicate NoDup(s: seq<nat>) {
    forall i, j {:trigger s[i], s[j]} :: 0 <= i < j < |s| ==> s[i] != s[j]
  }

  lemma NoDupEmpty()
    ensures NoDup([])
  {
  }

  /** `b` written over `c` from `ofs` on. */
  function Overwrite<T>(c: seq<T>, ofs: nat, b: seq<T>): (r: seq<T>)
    requires ofs + |b| <= |c|
    ensures |r| == |c|
  {
    c[..ofs] + b + c[ofs + |b|..]
  }
}
