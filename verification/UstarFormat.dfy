/** The ustar header format (lib/ustar.c), after the "pax" utility of SUSv3: fields of text and octal
    numbers in 512 bytes, with a checksum over all of them. Bytes are characters below 256. */
module UstarFormat {
  import opened Common

  const HEADER_SIZE: nat := 512
  const CHKSUM_START: nat := 148
  const CHKSUM_END: nat := 156
  const INT_MAX: nat := 0x7FFF_FFFF
  const ULONG_MAX: nat := 0xFFFF_FFFF
  const NUL: char := '\0'

  /** USTAR_REGULAR and USTAR_DIRECTORY. */
  datatype FileType = Regular | Directory

  function TypeFlag(t: FileType): char { if t.Regular? then '0' else '5' }

  /** What parsing a header gives. */
  datatype Parsed =
    | EndOfArchive
    | Entry(name: string, fileType: FileType, size: nat)
    | NotUstar | BadVersion | BadChksum | Mismatch | NameTooLong | UnknownType | BadSize | TooLarge

  predicate IsByte(c: char) { c as int < 256 }

  /** The characters of a C string. */
  ghost predicate IsText(s: string) {
    forall i {:trigger s[i]} :: 0 <= i < |s| ==> s[i] != NUL && IsByte(s[i])
  }

  function Nulls(n: nat): (r: string)
    ensures |r| == n && forall i {:trigger r[i]} :: 0 <= i < n ==> r[i] == NUL
  {
    seq(n, _ => NUL)
  }

  // ---- Names

  /** The name begins with a prefix that must not be kept. */
  predicate Antisocial(s: string) { "/" <= s || "./" <= s || "../" <= s }

  /** What follows the first slash. */
  function AfterSlash(s: string): (r: string)
    requires '/' in s
    ensures |r| < |s| && exists k :: 0 <= k < |s| && s[k] == '/' && r == s[k + 1..] && '/' !in s[..k]
  {
    if s[0] == '/' then s[1..]
    else
      var r := AfterSlash(s[1..]);
      assert exists k :: 0 <= k < |s| && s[k] == '/' && r == s[k + 1..] && '/' !in s[..k] by {
        var k :| 0 <= k < |s[1..]| && s[1..][k] == '/' && r == s[1..][k + 1..] && '/' !in s[1..][..k];
        assert s[k + 1] == '/' && r == s[k + 2..];
        assert s[..k + 1] == [s[0]] + s[1..][..k];
      }
      r
  }

  /** `strip_antisocial_prefixes`. */
  function Strip(s: string): (r: string)
    decreases |s|
  {
    if Antisocial(s) then
      assert s[0] == '/' || s[1] == '/' || s[2] == '/';
      Strip(AfterSlash(s))
    else if s == "" || s == ".." then "."
    else s
  }

  /** A stripped name is not empty, is not the parent and begins with no bad prefix. */
  lemma {:induction false} StripResult(s: string)
    ensures var r := Strip(s); r != "" && r != ".." && !Antisocial(r)
    decreases |s|
  {
    if Antisocial(s) {
      assert s[0] == '/' || s[1] == '/' || s[2] == '/';
      StripResult(AfterSlash(s));
    } else {
      assert "."[0] == '.' && "/"[0] == '/';
      assert !Antisocial(".");
    }
  }

  /** It is a suffix of the name, or the current directory. */
  lemma {:induction false} StripSuffix(s: string)
    ensures Strip(s) == "." || exists k :: 0 <= k <= |s| && Strip(s) == s[k..]
    decreases |s|
  {
    if Antisocial(s) {
      assert s[0] == '/' || s[1] == '/' || s[2] == '/';
      var t := AfterSlash(s);
      var j :| 0 <= j < |s| && t == s[j + 1..];
      StripSuffix(t);
      if Strip(t) != "." {
        var k :| 0 <= k <= |t| && Strip(t) == t[k..];
        assert t[k..] == s[j + 1 + k..];
      }
    } else {
      assert s == s[0..];
    }
  }

  lemma StripIdempotent(s: string)
    ensures Strip(Strip(s)) == Strip(s)
  {
    StripResult(s);
  }

  lemma StripText(s: string)
    requires IsText(s)
    ensures IsText(Strip(s))
  {
    StripSuffix(s);
    var r := Strip(s);
    if r != "." {
      var k :| 0 <= k <= |s| && r == s[k..];
    }
  }

  // ---- Octal numbers

  function Pow8(n: nat): (p: nat)
    ensures p > 0
  {
    if n == 0 then 1 else 8 * Pow8(n - 1)
  }

  function OctalDigit(d: nat): (c: char)
    requires d < 8
    ensures '0' <= c <= '7' && c as int - '0' as int == d
  {
    ('0' as int + d) as char
  }

  /** v as exactly w octal digits, the low ones if there are more. */
  function Octal(v: nat, w: nat): (s: string)
    ensures |s| == w && forall i {:trigger s[i]} :: 0 <= i < w ==> '0' <= s[i] <= '7'
  {
    if w == 0 then "" else Octal(v / 8, w - 1) + [OctalDigit(v % 8)]
  }

  /** `parse_octal_field`: digits ended by a space or a null byte; `ofs` digits were read before. */
  function ParseOctal(s: string, ofs: nat, value: nat): Option<nat> {
    if s == "" then None
    else if '0' <= s[0] <= '7' then
      if value > ULONG_MAX / 8 then None
      else ParseOctal(s[1..], ofs + 1, s[0] as int - '0' as int + value * 8)
    else if s[0] == ' ' || s[0] == NUL then (if ofs > 0 then Some(value) else None)
    else None
  }

  /** Reading w digits of v after a value acc. */
  lemma {:induction false} ReadOctal(v: nat, w: nat, rest: string, ofs: nat, acc: nat)
    requires v < Pow8(w) && acc * Pow8(w) + v <= ULONG_MAX
    ensures ParseOctal(Octal(v, w) + rest, ofs, acc) == ParseOctal(rest, ofs + w, acc * Pow8(w) + v)
    decreases w
  {
    if w == 0 {
      assert Octal(v, 0) + rest == rest;
    } else {
      var d, p := v % 8, Pow8(w - 1);
      assert acc * Pow8(w) == 8 * (acc * p);
      assert Octal(v, w) + rest == Octal(v / 8, w - 1) + ([OctalDigit(d)] + rest);
      ReadOctal(v / 8, w - 1, [OctalDigit(d)] + rest, ofs, acc);
      assert ([OctalDigit(d)] + rest)[1..] == rest;
    }
  }

  /** A number read back from its field. */
  lemma OctalRoundTrip(v: nat, w: nat, end: char, tail: string)
    requires 0 < w && v < Pow8(w) && v <= ULONG_MAX && (end == ' ' || end == NUL)
    ensures ParseOctal(Octal(v, w) + [end] + tail, 0, 0) == Some(v)
  {
    assert Octal(v, w) + [end] + tail == Octal(v, w) + ([end] + tail);
    ReadOctal(v, w, [end] + tail, 0, 0);
  }

  /** v without its last b octal digits, and those digits. */
  function High(v: nat, b: nat): nat { if b == 0 then v else High(v / 8, b - 1) }

  function Low(v: nat, b: nat): nat { if b == 0 then 0 else 8 * Low(v / 8, b - 1) + v % 8 }

  lemma {:induction false} HighLow(v: nat, b: nat)
    ensures v == High(v, b) * Pow8(b) + Low(v, b) && Low(v, b) < Pow8(b)
  {
    if b > 0 {
      HighLow(v / 8, b - 1);
      HighLowStep(v, High(v / 8, b - 1), Pow8(b - 1), Low(v / 8, b - 1));
    } else {
      assert High(v, b) * Pow8(b) == v;
    }
  }

  lemma HighLowStep(v: nat, h: nat, p: nat, l: nat)
    requires v / 8 == h * p + l && l < p
    ensures v == h * (8 * p) + (8 * l + v % 8) && 8 * l + v % 8 < 8 * p
  {
    var hp := h * p;
    assert h * (8 * p) == 8 * hp;
    assert v == 8 * (v / 8) + v % 8;
  }

  lemma {:induction false} HighBound(v: nat, a: nat, b: nat)
    requires v < Pow8(a + b)
    ensures High(v, b) < Pow8(a)
  {
    if b > 0 {
      HighBound(v / 8, a, b - 1);
    }
  }

  /** The digits of a number fall into the high and the low ones. */
  lemma {:induction false} OctalSplit(v: nat, a: nat, b: nat)
    ensures Octal(v, a + b) == Octal(High(v, b), a) + Octal(Low(v, b), b)
    decreases b
  {
    if b > 0 {
      OctalSplit(v / 8, a, b - 1);
      var l := Low(v / 8, b - 1);
      assert (8 * l + v % 8) / 8 == l && (8 * l + v % 8) % 8 == v % 8;
      assert Octal(v, a + b) == Octal(v / 8, a + b - 1) + [OctalDigit(v % 8)];
    }
  }

  // ---- Checksum

  /** Sum of the bytes. */
  function Sum(s: string): nat { if s == "" then 0 else Sum(s[..|s| - 1]) + s[|s| - 1] as int }

  /** `calculate_chksum`: as if the checksum field were spaces. */
  function Chksum(h: string): nat
    requires |h| == HEADER_SIZE
  {
    Sum(h[..CHKSUM_START]) + 8 * ' ' as int + Sum(h[CHKSUM_END..])
  }

  lemma {:induction false} SumJoin(s: string, t: string)
    ensures Sum(s + t) == Sum(s) + Sum(t)
    decreases |t|
  {
    if t == "" {
      assert s + t == s;
    } else {
      var n := |t| - 1;
      assert (s + t)[..|s + t| - 1] == s + t[..n];
      SumJoin(s, t[..n]);
    }
  }

  lemma {:induction false} SumUpdate(s: string, i: nat, c: char)
    requires i < |s|
    ensures Sum(s[i := c]) == Sum(s) - s[i] as int + c as int
    decreases |s|
  {
    var n := |s| - 1;
    if i < n {
      SumUpdate(s[..n], i, c);
      assert s[i := c][..n] == s[..n][i := c];
    } else {
      assert s[i := c][..n] == s[..n];
    }
  }

  lemma {:induction false} SumBound(s: string)
    requires forall i {:trigger s[i]} :: 0 <= i < |s| ==> IsByte(s[i])
    ensures Sum(s) <= 255 * |s|
  {
    if s != "" {
      SumBound(s[..|s| - 1]);
    }
  }

  // ---- The header

  /** The value that "%o" prints for an int. */
  function AsUnsigned(size: int): nat
    requires -0x8000_0000 <= size <= INT_MAX
  {
    if size >= 0 then size else size + 0x1_0000_0000
  }

  /** Mode, user and group. */
  function Owner(t: FileType): (s: string)
    ensures |s| == 24 && forall i {:trigger s[i]} :: 0 <= i < 24 ==> IsByte(s[i])
  {
    Octal(if t.Regular? then 420 else 493, 7) + [NUL] + Octal(0, 7) + [NUL] + Octal(0, 7) + [NUL]
  }

  /** An octal field of 12 bytes. */
  function LongField(v: nat): (s: string)
    ensures |s| == 12 && forall i {:trigger s[i]} :: 0 <= i < 12 ==> IsByte(s[i])
  {
    Octal(v, 11) + [NUL]
  }

  /** Name, mode, owner, size and time, before the checksum. */
  function Front(name: string, t: FileType, size: int): (s: string)
    requires |name| <= 99 && -0x8000_0000 <= size <= INT_MAX
    ensures |s| == CHKSUM_START
    ensures s[..100] == name + Nulls(100 - |name|) && s[124..136] == LongField(AsUnsigned(size))
  {
    (name + Nulls(100 - |name|)) + Owner(t) + LongField(AsUnsigned(size)) + LongField(1136102400)
  }

  /** Type, magic, version and names, after the checksum. */
  function Back(t: FileType): (s: string)
    ensures |s| == HEADER_SIZE - CHKSUM_END
    ensures s[0] == TypeFlag(t) && s[101..107] == "ustar" + [NUL] && s[107..109] == "00" && s[189] == NUL
  {
    [TypeFlag(t)] + Nulls(100) + ("ustar" + [NUL]) + "00"
    + ("root" + Nulls(28)) + ("root" + Nulls(28)) + Nulls(183)
  }
}
