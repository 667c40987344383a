/** Making and parsing ustar headers (lib/ustar.c): the round trip, and which damage is noticed. */
module Ustar {
  import opened Common
  import opened Arithmetic
  import opened UstarFormat

  /** The 8 bytes of the checksum field. */
  function ChksumField(v: nat): (s: string)
    ensures |s| == 8
  {
    Octal(v, 7) + [NUL]
  }

  /** The header that `ustar_make_header` composes for a stripped name. */
  function Made(name: string, t: FileType, size: int): (h: string)
    requires |name| <= 99 && -0x8000_0000 <= size <= INT_MAX
    ensures |h| == HEADER_SIZE
    ensures h[..CHKSUM_START] == Front(name, t, size) && h[CHKSUM_END..] == Back(t)
    ensures h[CHKSUM_START..CHKSUM_END] == ChksumField(Chksum(h))
  {
    hide Front, Back, ChksumField;
    var sum := Sum(Front(name, t, size)) + 8 * ' ' as int + Sum(Back(t));
    Front(name, t, size) + ChksumField(sum) + Back(t)
  }

  /** A C string at the start of a field. */
  function CString(s: string): string { if s == "" || s[0] == NUL then "" else [s[0]] + CString(s[1..]) }

  /** `ustar_parse_header`. */
  function Parse(h: string): Parsed
    requires |h| == HEADER_SIZE
  {
    if h == Nulls(HEADER_SIZE) then EndOfArchive
    else if h[257..263] != "ustar" + [NUL] then NotUstar
    else if h[263] != '0' || h[264] != '0' then BadVersion
    else
      var chksum := ParseOctal(h[CHKSUM_START..CHKSUM_END], 0, 0);
      if chksum.None? then BadChksum
      else if chksum.value != Chksum(h) then Mismatch
      else ParseRest(h)
  }

  /** The fields of a header whose checksum is right. */
  function ParseRest(h: string): Parsed
    requires |h| == HEADER_SIZE
  {
    if h[99] != NUL || h[345] != NUL then NameTooLong
    else if h[156] == '5' then Entry(Strip(CString(h[..100])), Directory, 0)
    else if h[156] != '0' then UnknownType
    else
      var size := ParseOctal(h[124..136], 0, 0);
      if size.None? then BadSize
      else if size.value > INT_MAX then TooLarge
      else Entry(Strip(CString(h[..100])), Regular, size.value)
  }

  lemma {:induction false} CStringPadded(s: string, n: nat)
    requires IsText(s) && 0 < n
    ensures CString(s + Nulls(n)) == s
  {
    hide Nulls;
    if s == "" {
      assert s + Nulls(n) == Nulls(n);
    } else {
      CStringPadded(s[1..], n);
      assert (s + Nulls(n))[1..] == s[1..] + Nulls(n);
    }
  }

  /** Where the fields of a made header are. */
  lemma MadeFields(name: string, t: FileType, size: int, h: string)
    requires |name| <= 99 && -0x8000_0000 <= size <= INT_MAX && h == Made(name, t, size)
    ensures |h| == HEADER_SIZE
    ensures h[..100] == name + Nulls(100 - |name|) && h[99] == NUL
    ensures h[124..136] == LongField(AsUnsigned(size))
    ensures h[156] == TypeFlag(t) && h[257..263] == "ustar" + [NUL] && h[263] == '0' && h[264] == '0' && h[345] == NUL
  {
    hide Made, Front, Back, LongField, AsUnsigned, Nulls;
    var f, b := h[..CHKSUM_START], h[CHKSUM_END..];
    assert h[..100] == f[..100];
    assert h[99] == h[..100][99];
    assert h[124..136] == f[124..136];
    assert h[156] == b[0] && h[345] == b[189];
    assert h[257..263] == b[101..107];
    assert h[263] == b[107..109][0] && h[264] == b[107..109][1];
  }

  lemma Constants()
    ensures Pow8(7) == 2097152 && Pow8(11) == 8589934592
  {
    assert Pow8(2) == 64;
    assert Pow8(4) == 4096;
    assert Pow8(6) == 262144;
    assert Pow8(8) == 16777216;
    assert Pow8(10) == 1073741824;
  }

  lemma FrontBytes(name: string, t: FileType, size: int)
    requires |name| <= 99 && -0x8000_0000 <= size <= INT_MAX && IsText(name)
    ensures forall i {:trigger Front(name, t, size)[i]} :: 0 <= i < CHKSUM_START ==> IsByte(Front(name, t, size)[i])
  {
    hide Owner, LongField, Nulls, AsUnsigned;
  }

  lemma BackBytes(t: FileType)
    ensures forall i {:trigger Back(t)[i]} :: 0 <= i < HEADER_SIZE - CHKSUM_END ==> IsByte(Back(t)[i])
  {
    hide Nulls;
  }

  /** The checksum fits its field, and is not zero. */
  lemma ChksumRange(name: string, t: FileType, size: int)
    requires |name| <= 99 && -0x8000_0000 <= size <= INT_MAX && IsText(name)
    ensures 0 < Chksum(Made(name, t, size)) < Pow8(7)
  {
    hide Front, Back, IsByte, Sum, Pow8, ChksumField, Made;
    var h := Made(name, t, size);
    FrontBytes(name, t, size);
    BackBytes(t);
    var f, b := Front(name, t, size), Back(t);
    SumBound(f);
    SumBound(b);
    Constants();
  }

  lemma ChksumReads(v: nat, end: char)
    requires v < Pow8(7) && (end == ' ' || end == NUL)
    ensures ParseOctal(Octal(v, 7) + [end], 0, 0) == Some(v)
  {
    hide Octal, ParseOctal;
    Constants();
    OctalRoundTrip(v, 7, end, "");
    assert Octal(v, 7) + [end] + "" == Octal(v, 7) + [end];
  }

  lemma NotAllZeros(h: string)
    requires |h| == HEADER_SIZE && h[156] != NUL
    ensures h != Nulls(HEADER_SIZE)
  {
    hide Nulls;
    assert Nulls(HEADER_SIZE)[156] == NUL;
  }

  /** A header whose fields after the checksum are as made, and whose own checksum field agrees. */
  lemma ParseMade(name: string, t: FileType, size: int, h: string)
    requires |name| <= 99 && -0x8000_0000 <= size <= INT_MAX && IsText(name) && |h| == HEADER_SIZE
    requires h[..100] == name + Nulls(100 - |name|) && h[99] == NUL
    requires h[124..136] == LongField(AsUnsigned(size))
    requires h[156] == TypeFlag(t) && h[345] == NUL
    ensures ParseRest(h) ==
      if t.Directory? then Entry(Strip(name), t, 0)
      else if size >= 0 then Entry(Strip(name), t, size)
      else TooLarge
  {
    hide Octal, Nulls, ParseOctal, Strip, CString, Pow8;
    CStringPadded(name, 100 - |name|);
    Constants();
    OctalRoundTrip(AsUnsigned(size), 11, NUL, "");
    assert Octal(AsUnsigned(size), 11) + [NUL] + "" == Octal(AsUnsigned(size), 11) + [NUL];
  }

  /** Parsing a made header gives back the stripped name, the type and the size; a negative size is
      read as one that is too large. */
  lemma RoundTrip(name: string, t: FileType, size: int)
    requires IsText(name) && |Strip(name)| <= 99 && -0x8000_0000 <= size <= INT_MAX
    ensures Parse(Made(Strip(name), t, size)) ==
      if t.Directory? then Entry(Strip(name), t, 0)
      else if size >= 0 then Entry(Strip(name), t, size)
      else TooLarge
  {
    hide Made, ParseRest, Strip, Octal, ParseOctal, Chksum, Nulls, Pow8;
    var stripped := Strip(name);
    var h := Made(stripped, t, size);
    StripText(name);
    StripIdempotent(name);
    MadeFields(stripped, t, size, h);
    NotAllZeros(h);
    ChksumRange(stripped, t, size);
    ChksumReads(Chksum(h), NUL);
    ParseMade(stripped, t, size, h);
  }

  // ---- Damage to one byte

  /** A byte outside the checksum field changes the sum. */
  lemma OutsideChanges(h: string, i: nat, c: char)
    requires |h| == HEADER_SIZE && i < HEADER_SIZE && !(CHKSUM_START <= i < CHKSUM_END) && c != h[i]
    ensures Chksum(h[i := c]) != Chksum(h)
    ensures h[i := c][CHKSUM_START..CHKSUM_END] == h[CHKSUM_START..CHKSUM_END]
  {
    hide Sum;
    var h' := h[i := c];
    assert h'[CHKSUM_START..CHKSUM_END] == h[CHKSUM_START..CHKSUM_END];
    if i < CHKSUM_START {
      SumUpdate(h[..CHKSUM_START], i, c);
      assert h'[..CHKSUM_START] == h[..CHKSUM_START][i := c] && h'[CHKSUM_END..] == h[CHKSUM_END..];
    } else {
      SumUpdate(h[CHKSUM_END..], i - CHKSUM_END, c);
      assert h'[..CHKSUM_START] == h[..CHKSUM_START] && h'[CHKSUM_END..] == h[CHKSUM_END..][i - CHKSUM_END := c];
    }
  }

  /** A byte inside it does not. */
  lemma InsideKeeps(h: string, i: nat, c: char)
    requires |h| == HEADER_SIZE && CHKSUM_START <= i < CHKSUM_END
    ensures Chksum(h[i := c]) == Chksum(h)
    ensures h[i := c][CHKSUM_START..CHKSUM_END] == h[CHKSUM_START..CHKSUM_END][i - CHKSUM_START := c]
  {
    hide Sum;
    var h' := h[i := c];
    assert h'[..CHKSUM_START] == h[..CHKSUM_START] && h'[CHKSUM_END..] == h[CHKSUM_END..];
  }

  /** The last byte of the field only ends it: a space will do, nothing else. */
  lemma DamagedEnd(v: nat, c: char)
    requires v < Pow8(7) && c != NUL
    ensures ParseOctal(Octal(v, 7) + [c], 0, 0) == if c == ' ' then Some(v) else None
  {
    hide Octal, Pow8;
    Constants();
    ReadOctal(v, 7, [c], 0, 0);
    assert [c][1..] == "";
    assert ParseOctal("", 8, 0) == None;
  }

  /** A digit of the field replaced: the field no longer reads as the same number. */
  lemma DamagedDigit(v: nat, j: nat, c: char)
    requires 0 < v < Pow8(7) && j < 7 && c != Octal(v, 7)[j]
    ensures ParseOctal((Octal(v, 7) + [NUL])[j := c], 0, 0) != Some(v)
  {
    hide Octal, Pow8, High, Low, ParseOctal;
    var b := 6 - j;
    var high, low := High(v, b), Low(v, b);
    OctalSplit(v, j + 1, b);
    HighLow(v, b);
    HighBound(v, j + 1, b);
    var p, d := high / 8, high % 8;
    OctalLast(high, j + 1);
    var rest := Octal(low, b) + [NUL];
    assert (Octal(v, 7) + [NUL])[j := c] == Octal(p, j) + ([c] + rest);
    assert Octal(v, 7)[j] == OctalDigit(d);
    Constants();
    PrefixRange(v, j);
    ReadOctal(p, j, [c] + rest, 0, 0);
    assert 0 * Pow8(j) + p == p;
    ReplacedDigit(v, j, p, d, low, c, rest);
  }

  /** The last digit of a number. */
  lemma OctalLast(v: nat, w: nat)
    requires 0 < w
    ensures Octal(v, w) == Octal(v / 8, w - 1) + [OctalDigit(v % 8)]
  {
  }

  lemma PrefixRange(v: nat, j: nat)
    requires v < Pow8(7) && j < 7
    ensures High(v, 6 - j) / 8 < Pow8(j) && High(v, 6 - j) / 8 <= ULONG_MAX / 8
  {
    HighBound(v, j + 1, 6 - j);
    PowMonotone(j, 7);
    Constants();
  }

  lemma {:induction false} PowMonotone(a: nat, b: nat)
    requires a <= b
    ensures Pow8(a) <= Pow8(b)
    decreases b
  {
    if a < b {
      PowMonotone(a, b - 1);
    }
  }

  /** What is read from the replaced digit on, after the digits before it gave p. */
  lemma ReplacedDigit(v: nat, j: nat, p: nat, d: nat, low: nat, c: char, rest: string)
    requires j < 7 && d < 8 && 0 < v < Pow8(7) && low < Pow8(6 - j) && p < Pow8(j) && p <= ULONG_MAX / 8
    requires v == (8 * p + d) * Pow8(6 - j) + low && c != OctalDigit(d) && rest == Octal(low, 6 - j) + [NUL]
    ensures ParseOctal([c] + rest, j, p) != Some(v)
  {
    hide Octal, Pow8;
    var s := [c] + rest;
    assert s[0] == c && s[1..] == rest;
    if '0' <= c <= '7' {
      OtherDigit(v, j, p, d, low, c as int - '0' as int, rest);
    } else {
      Shorter(v, p, d, Pow8(6 - j), low);
    }
  }

  lemma OtherDigit(v: nat, j: nat, p: nat, d: nat, low: nat, e: nat, rest: string)
    requires j < 7 && d < 8 && e < 8 && e != d && low < Pow8(6 - j) && p < Pow8(j)
    requires v == (8 * p + d) * Pow8(6 - j) + low && rest == Octal(low, 6 - j) + [NUL]
    ensures ParseOctal(rest, j + 1, e + p * 8) != Some(v)
  {
    hide Octal, Pow8;
    var b, acc := 6 - j, e + p * 8;
    PowSplit(j, b);
    PowNext(j);
    AccBound(acc, j, b, low);
    ReadOctal(low, b, [NUL], j + 1, acc);
    EndOfField(j + 1 + b, acc * Pow8(b) + low);
    DifferentDigit(8 * p + d, acc, Pow8(b), low);
  }

  lemma PowNext(j: nat)
    ensures Pow8(j + 1) == 8 * Pow8(j)
  {
  }

  lemma EndOfField(ofs: nat, value: nat)
    requires 0 < ofs
    ensures ParseOctal([NUL], ofs, value) == Some(value)
  {
  }

  lemma {:induction false} PowSplit(a: nat, b: nat)
    ensures Pow8(a + 1) * Pow8(b) == Pow8(a + 1 + b)
  {
    if b > 0 {
      PowSplit(a, b - 1);
      var x, y := Pow8(a + 1), Pow8(b - 1);
      assert x * (8 * y) == 8 * (x * y);
    }
  }

  lemma AccBound(acc: nat, j: nat, b: nat, low: nat)
    requires j + b == 6 && acc < Pow8(j + 1) && low < Pow8(b) && Pow8(j + 1) * Pow8(b) == Pow8(7)
    ensures acc * Pow8(b) + low <= ULONG_MAX
  {
    hide Pow8;
    Constants();
    var x, y := Pow8(j + 1), Pow8(b);
    assert (acc + 1) * y <= x * y;
    assert (acc + 1) * y == acc * y + y;
  }

  lemma DifferentDigit(x: nat, y: nat, p: nat, low: nat)
    requires x != y && 0 < p
    ensures x * p + low != y * p + low
  {
    if x < y {
      MulMonotone(x + 1, y, p);
      assert (x + 1) * p == x * p + p;
    } else {
      MulMonotone(y + 1, x, p);
      assert (y + 1) * p == y * p + p;
    }
  }

  lemma Shorter(v: nat, p: nat, d: nat, q: nat, low: nat)
    requires 0 < v && 0 < q && v == (8 * p + d) * q + low
    ensures p != v
  {
    var x := 8 * p + d;
    MulMonotone(1, q, x);
    assert q * x == x * q;
  }

  /** Of all single-byte changes to a made header, the only one that parsing does not refuse turns the
      end of the checksum field into a space, and it changes nothing that is read. */
  lemma OneByteDamage(name: string, t: FileType, size: int, i: nat, c: char)
    requires IsText(name) && |Strip(name)| <= 99 && 0 <= size <= INT_MAX
    requires i < HEADER_SIZE && IsByte(c) && c != Made(Strip(name), t, size)[i]
    ensures var h := Made(Strip(name), t, size);
      if i == CHKSUM_END - 1 && c == ' ' then Parse(h[i := c]) == Parse(h)
      else !Parse(h[i := c]).Entry? && !Parse(h[i := c]).EndOfArchive?
  {
    hide Made, ParseRest, Strip, Octal, ParseOctal, Chksum, Nulls, Pow8, ChksumField;
    var h := Made(Strip(name), t, size);
    var h' := h[i := c];
    StripText(name);
    MadeFields(Strip(name), t, size, h);
    ChksumRange(Strip(name), t, size);
    NotBlank(h, i, c);
    NotAllZeros(h);
    ChksumReads(Chksum(h), NUL);
    FieldIs(Chksum(h));
    if CHKSUM_START <= i < CHKSUM_END {
      InsideKeeps(h, i, c);
      FieldByte(h, i);
      if i == CHKSUM_END - 1 {
        DamagedEnd(Chksum(h), c);
        SameRest(h, i, c);
      } else {
        DamagedDigit(Chksum(h), i - CHKSUM_START, c);
      }
    } else {
      OutsideChanges(h, i, c);
    }
  }

  lemma FieldIs(v: nat)
    ensures ChksumField(v) == Octal(v, 7) + [NUL] && |Octal(v, 7)| == 7
    ensures forall c :: ChksumField(v)[7 := c] == Octal(v, 7) + [c]
    ensures forall j :: 0 <= j < 7 ==> ChksumField(v)[j] == Octal(v, 7)[j]
  {
  }

  lemma FieldByte(h: string, i: nat)
    requires |h| == HEADER_SIZE && CHKSUM_START <= i < CHKSUM_END
    ensures h[CHKSUM_START..CHKSUM_END][i - CHKSUM_START] == h[i]
  {
  }

  lemma NotBlank(h: string, i: nat, c: char)
    requires |h| == HEADER_SIZE && i < HEADER_SIZE && h[257..263] == "ustar" + [NUL]
    ensures h[i := c] != Nulls(HEADER_SIZE)
  {
    hide Nulls;
    var z := Nulls(HEADER_SIZE);
    assert h[257] == h[257..263][0] == 'u' && h[258] == h[257..263][1] == 's';
    assert z[257] == NUL && z[258] == NUL;
  }

  lemma SameRest(h: string, i: nat, c: char)
    requires |h| == HEADER_SIZE && CHKSUM_START <= i < CHKSUM_END
    ensures ParseRest(h[i := c]) == ParseRest(h)
    ensures h[i := c][257..263] == h[257..263] && h[i := c][263] == h[263] && h[i := c][264] == h[264]
  {
    hide ParseOctal, Strip, CString;
    var h' := h[i := c];
    assert h'[..100] == h[..100] && h'[124..136] == h[124..136] && h'[257..263] == h[257..263];
  }
}
