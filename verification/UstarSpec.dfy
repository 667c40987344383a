/** What the ustar code is to do, after the "pax" utility of SUSv3: the layout of a header, the meaning of an
    octal field, which names are changed, and which headers are accepted. */
module UstarSpec {
  import opened Common
  import opened UstarFormat
  import opened Ustar
  import UstarCode

  // ---- Names

  /** A leading "/", "./" or "../" is dropped. */
  lemma StripPrefix(dots: string, s: string)
    requires dots == "" || dots == "." || dots == ".."
    ensures Strip(dots + "/" + s) == Strip(s)
  {
    var t := dots + "/" + s;
    assert t[|dots|] == '/' && t[..|dots|] == dots && t[|dots| + 1..] == s;
    assert '/' !in dots;
    assert "/" <= t || "./" <= t || "../" <= t;
    UstarCode.FirstSlash(t, |dots|);
  }

  /** Nothing else is changed, except that an empty name and the parent become the current directory. */
  lemma StripRest(s: string)
    requires !Antisocial(s)
    ensures Strip(s) == if s == "" || s == ".." then "." else s
  {
  }

  /** A C string ends at the first null byte. */
  lemma {:induction false} CStringIs(s: string)
    ensures var r := CString(s); |r| <= |s| && r == s[..|r|] && NUL !in r && (|r| < |s| ==> s[|r|] == NUL)
  {
    if s != "" && s[0] != NUL {
      CStringIs(s[1..]);
    }
  }

  // ---- Octal fields

  predicate IsDigit(c: char) { '0' <= c <= '7' }

  ghost predicate OctalText(s: string) { forall i {:trigger s[i]} :: 0 <= i < |s| ==> IsDigit(s[i]) }

  /** The number that octal digits stand for, most significant first. */
  function OctalValue(s: string): int {
    if s == "" then 0 else 8 * OctalValue(s[..|s| - 1]) + (s[|s| - 1] as int - '0' as int)
  }

  predicate IsEnd(c: char) { c == ' ' || c == NUL }

  /** The field holds v: at least one digit, then a space or a null byte, and v fits an unsigned long. */
  ghost predicate FieldHolds(s: string, v: nat) {
    exists n: nat {:trigger s[..n]} ::
      0 < n < |s| && OctalText(s[..n]) && IsEnd(s[n]) && OctalValue(s[..n]) == v && v <= ULONG_MAX
  }

  /** How many digits a field starts with. */
  function DigitCount(s: string): (n: nat)
    ensures n <= |s| && OctalText(s[..n]) && (n < |s| ==> !IsDigit(s[n]))
  {
    if s == "" || !IsDigit(s[0]) then 0
    else
      var n := DigitCount(s[1..]);
      assert forall i {:trigger s[..n + 1][i]} :: 0 < i < n + 1 ==> s[..n + 1][i] == s[1..][..n][i - 1];
      n + 1
  }

  /** Digits read after a value. */
  function From(acc: nat, s: string): nat
    requires OctalText(s)
    decreases |s|
  {
    if s == "" then acc
    else
      assert OctalText(s[1..]) by { assert forall i {:trigger s[1..][i]} :: 0 <= i < |s| - 1 ==> s[1..][i] == s[i + 1]; }
      From(8 * acc + (s[0] as int - '0' as int), s[1..])
  }

  lemma {:induction false} FromLast(acc: nat, s: string, c: char)
    requires OctalText(s) && IsDigit(c)
    ensures OctalText(s + [c]) && From(acc, s + [c]) == 8 * From(acc, s) + (c as int - '0' as int)
    decreases |s|
  {
    assert OctalText(s + [c]);
    if s == "" {
      assert s + [c] == [c];
      assert [c][1..] == "";
    } else {
      assert OctalText(s[1..]) by { assert forall i {:trigger s[1..][i]} :: 0 <= i < |s| - 1 ==> s[1..][i] == s[i + 1]; }
      FromLast(8 * acc + (s[0] as int - '0' as int), s[1..], c);
      assert (s + [c])[1..] == s[1..] + [c];
    }
  }

  lemma {:induction false} FromIsValue(s: string)
    requires OctalText(s)
    ensures From(0, s) == OctalValue(s)
    decreases |s|
  {
    if s != "" {
      var t, c := s[..|s| - 1], s[|s| - 1];
      assert OctalText(t) by { assert forall i {:trigger t[i]} :: 0 <= i < |t| ==> t[i] == s[i]; }
      FromIsValue(t);
      FromLast(0, t, c);
      assert t + [c] == s;
    }
  }

  lemma {:induction false} FromGrows(acc: nat, s: string)
    requires OctalText(s)
    ensures acc <= From(acc, s)
    decreases |s|
  {
    if s != "" {
      assert OctalText(s[1..]) by { assert forall i {:trigger s[1..][i]} :: 0 <= i < |s| - 1 ==> s[1..][i] == s[i + 1]; }
      FromGrows(8 * acc + (s[0] as int - '0' as int), s[1..]);
    }
  }

  /** What reading a field gives, in terms of its leading digits. */
  lemma {:induction false} ParseFrom(s: string, ofs: nat, acc: nat)
    requires acc <= ULONG_MAX
    ensures var n := DigitCount(s);
      var v := From(acc, s[..n]);
      ParseOctal(s, ofs, acc) == if n < |s| && IsEnd(s[n]) && 0 < ofs + n && v <= ULONG_MAX then Some(v) else None
    decreases |s|
  {
    var n := DigitCount(s);
    if n > 0 {
      var acc' := 8 * acc + (s[0] as int - '0' as int);
      assert s[..n][1..] == s[1..][..n - 1] && s[..n][0] == s[0];
      assert DigitCount(s[1..]) == n - 1;
      FromGrows(acc', s[..n][1..]);
      if acc <= ULONG_MAX / 8 {
        ParseFrom(s[1..], ofs + 1, acc');
      }
    } else {
      assert s[..0] == "";
    }
  }

  /** Reading a field works exactly if it holds a number, and gives that number. */
  lemma FieldIff(s: string, v: nat)
    ensures ParseOctal(s, 0, 0) == Some(v) <==> FieldHolds(s, v)
  {
    hide From, ParseOctal;
    var n := DigitCount(s);
    ParseFrom(s, 0, 0);
    FromIsValue(s[..n]);
    if ParseOctal(s, 0, 0) == Some(v) {
      assert 0 < n < |s| && OctalText(s[..n]) && IsEnd(s[n]) && OctalValue(s[..n]) == v;
    }
    if FieldHolds(s, v) {
      var k: nat :| 0 < k < |s| && OctalText(s[..k]) && IsEnd(s[k]) && OctalValue(s[..k]) == v && v <= ULONG_MAX;
      SameEnd(s, n, k);
    }
  }

  lemma SameEnd(s: string, n: nat, k: nat)
    requires n <= |s| && k < |s| && OctalText(s[..n]) && OctalText(s[..k]) && IsEnd(s[k]) && (n < |s| ==> !IsDigit(s[n]))
    ensures n == k
  {
    assert forall j {:trigger s[j]} :: 0 <= j < k ==> s[..k][j] == s[j];
    assert forall j {:trigger s[j]} :: 0 <= j < n ==> s[..n][j] == s[j];
  }

  // ---- The layout of a header

  lemma Printed(v: nat, w: nat)
    requires 0 < w && v < Pow8(w) && v <= ULONG_MAX
    ensures FieldHolds(Octal(v, w) + [NUL], v)
  {
    hide Octal, ParseOctal, FieldHolds;
    OctalRoundTrip(v, w, NUL, "");
    assert Octal(v, w) + [NUL] + "" == Octal(v, w) + [NUL];
    FieldIff(Octal(v, w) + [NUL], v);
  }

  /** A made header has every field of the format where it belongs: name, mode, user and group, size, time,
      checksum, type, magic, version, and the names of user and group; the rest is null. */
  lemma HeaderLayout(name: string, t: FileType, size: int, h: string)
    requires |name| <= 99 && IsText(name) && -0x8000_0000 <= size <= INT_MAX && h == Made(name, t, size)
    ensures |h| == HEADER_SIZE && h[..100] == name + Nulls(100 - |name|)
    ensures FieldHolds(h[100..108], if t.Regular? then 420 else 493)
    ensures FieldHolds(h[108..116], 0) && FieldHolds(h[116..124], 0)
    ensures FieldHolds(h[124..136], AsUnsigned(size)) && FieldHolds(h[136..148], 1136102400)
    ensures FieldHolds(h[148..156], Chksum(h))
    ensures h[156] == (if t.Regular? then '0' else '5') && h[157..257] == Nulls(100)
    ensures h[257..263] == "ustar" + [NUL] && h[263..265] == "00"
    ensures h[265..297] == "root" + Nulls(28) && h[297..329] == "root" + Nulls(28) && h[329..] == Nulls(183)
  {
    hide Octal, Nulls, Made, Chksum, AsUnsigned, FieldHolds, Pow8;
    var f, b := Front(name, t, size), Back(t);
    assert h[..CHKSUM_START] == f && h[CHKSUM_END..] == b;
    FrontLayout(name, t, size);
    BackLayout(t);
    ChksumRange(name, t, size);
    Constants();
    Printed(Chksum(h), 7);
    hide Front, Back;
    assert h[..100] == f[..100] && h[100..108] == f[100..108] && h[108..116] == f[108..116] && h[116..124] == f[116..124];
    assert h[124..136] == f[124..136] && h[136..148] == f[136..148];
    assert h[156] == b[0] && h[157..257] == b[1..101] && h[257..263] == b[101..107] && h[263..265] == b[107..109];
    assert h[265..297] == b[109..141] && h[297..329] == b[141..173] && h[329..] == b[173..];
  }

  lemma FrontLayout(name: string, t: FileType, size: int)
    requires |name| <= 99 && -0x8000_0000 <= size <= INT_MAX
    ensures var f := Front(name, t, size);
      && f[..100] == name + Nulls(100 - |name|)
      && FieldHolds(f[100..108], if t.Regular? then 420 else 493)
      && FieldHolds(f[108..116], 0) && FieldHolds(f[116..124], 0)
      && FieldHolds(f[124..136], AsUnsigned(size)) && FieldHolds(f[136..148], 1136102400)
  {
    hide Octal, Nulls, FieldHolds, Pow8;
    var f, o, mode := Front(name, t, size), Owner(t), if t.Regular? then 420 else 493;
    Constants();
    Printed(mode, 7);
    Printed(0, 7);
    Printed(AsUnsigned(size), 11);
    Printed(1136102400, 11);
    OwnerLayout(t);
    hide Owner;
    assert f[100..124] == o && f[124..136] == LongField(AsUnsigned(size)) && f[136..148] == LongField(1136102400);
    assert f[100..108] == o[..8] && f[108..116] == o[8..16] && f[116..124] == o[16..24];
  }

  lemma OwnerLayout(t: FileType)
    ensures var o := Owner(t);
      && o[..8] == Octal(if t.Regular? then 420 else 493, 7) + [NUL]
      && o[8..16] == Octal(0, 7) + [NUL] && o[16..24] == Octal(0, 7) + [NUL]
  {
    hide Octal;
  }

  lemma BackLayout(t: FileType)
    ensures var b := Back(t);
      && b[0] == (if t.Regular? then '0' else '5') && b[1..101] == Nulls(100)
      && b[101..107] == "ustar" + [NUL] && b[107..109] == "00"
      && b[109..141] == "root" + Nulls(28) && b[141..173] == "root" + Nulls(28) && b[173..] == Nulls(183)
  {
    hide Nulls;
  }

  // ---- Which headers are accepted

  /** The checksum field holds the sum of all bytes, with the field itself taken as spaces. */
  ghost predicate Summed(h: string)
    requires |h| == HEADER_SIZE
  {
    FieldHolds(h[148..156], Chksum(h))
  }

  /** A header that can be extracted: a ustar header of version 00 with the right checksum, a name that fits
      its field, no prefix, and a type that is known. */
  ghost predicate Extractable(h: string)
    requires |h| == HEADER_SIZE
  {
    && h[257..263] == "ustar" + [NUL] && h[263..265] == "00" && Summed(h)
    && h[99] == NUL && h[345] == NUL && (h[156] == '0' || h[156] == '5')
  }

  /** Exactly the headers that can be extracted are accepted, those of files with a size that fits an int;
      and the name, the type and the size are those of its fields. */
  lemma AcceptsIff(h: string, name: string, t: FileType, size: nat)
    requires |h| == HEADER_SIZE
    ensures Parse(h) == Entry(name, t, size) <==>
      && Extractable(h) && name == Strip(CString(h[..100])) && h[156] == (if t.Regular? then '0' else '5')
      && (if t.Regular? then FieldHolds(h[124..136], size) && size <= INT_MAX else size == 0)
  {
    hide ParseOctal, FieldHolds, Chksum, Strip, CString, Nulls;
    FieldIff(h[148..156], Chksum(h));
    FieldIff(h[124..136], size);
    assert h[263..265] == "00" <==> h[263] == '0' && h[264] == '0';
    if h[156] == '0' || h[156] == '5' {
      NotAllZeros(h);
    }
  }

  /** What is not accepted is the end of the archive, if it is all zeros, and otherwise an error. */
  lemma EndIff(h: string)
    requires |h| == HEADER_SIZE
    ensures Parse(h).EndOfArchive? <==> forall i {:trigger h[i]} :: 0 <= i < HEADER_SIZE ==> h[i] == NUL
  {
    hide ParseOctal, Chksum, Strip, CString;
    assert (forall i {:trigger h[i]} :: 0 <= i < HEADER_SIZE ==> h[i] == NUL) ==> h == Nulls(HEADER_SIZE);
  }
}
