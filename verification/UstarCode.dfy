/** The loops of lib/ustar.c and the integer conversion of lib/stdio.c that it prints with. */
module UstarCode {
  import opened Common
  import opened Arithmetic
  import opened UstarFormat
  import opened Ustar

  // ---- Integer conversion

  /** `struct integer_base`. */
  datatype Base = Base(base: nat, digits: string, x: char, group: nat)

  /** `struct printf_conversion`. */
  datatype Conversion = Conversion(
    minus: bool, plus: bool, space: bool, pound: bool, zero: bool, grouping: bool, width: int, precision: int)

  /** The size of the buffer that digits go into. */
  const BUFFER: nat := 64

  predicate BaseOk(b: Base) { 2 <= b.base <= |b.digits| && 0 < b.group }

  const OCTAL: Base := Base(8, "01234567", NUL, 3)

  /** Digits of a number, most significant first; none for zero. */
  function Digits(v: nat, b: Base): string
    requires BaseOk(b)
  {
    if v == 0 then ""
    else
      QuotientLess(v, b.base);
      Digits(v / b.base, b) + [b.digits[v % b.base]]
  }

  /** The digits with a comma before every group but the first; k digits are already to the right. */
  function Grouped(v: nat, b: Base, k: nat, grouping: bool): string
    requires BaseOk(b)
    decreases v
  {
    if v == 0 then ""
    else
      QuotientLess(v, b.base);
      Grouped(v / b.base, b, k + 1, grouping) + [b.digits[v % b.base]] + Comma(b, k, grouping)
  }

  function Comma(b: Base, k: nat, grouping: bool): string
    requires BaseOk(b)
  {
    if grouping && 0 < k && k % b.group == 0 then "," else ""
  }

  function WithoutCommas(s: string): string {
    if s == "" then "" else WithoutCommas(s[..|s| - 1]) + if s[|s| - 1] == ',' then "" else [s[|s| - 1]]
  }

  /** Commas are all that grouping adds, and without it there are none. */
  lemma {:induction false} GroupingAddsCommas(v: nat, b: Base, k: nat, grouping: bool)
    requires BaseOk(b) && ',' !in b.digits
    ensures WithoutCommas(Grouped(v, b, k, grouping)) == Digits(v, b)
    ensures |Grouped(v, b, k, grouping)| <= 2 * |Digits(v, b)|
    decreases v
  {
    if v > 0 {
      QuotientLess(v, b.base);
      GroupingAddsCommas(v / b.base, b, k + 1, grouping);
      var high, d := Grouped(v / b.base, b, k + 1, grouping), b.digits[v % b.base];
      assert d in b.digits;
      var s := high + [d];
      assert s[..|s| - 1] == high;
      assert WithoutCommas(s) == WithoutCommas(high) + [d];
      if Comma(b, k, grouping) == "," {
        assert (s + ",")[..|s|] == s;
      } else {
        assert s + "" == s;
      }
    }
  }

  lemma {:induction false} NoGrouping(v: nat, b: Base, k: nat)
    requires BaseOk(b)
    ensures Grouped(v, b, k, false) == Digits(v, b)
    decreases v
  {
    if v > 0 {
      QuotientLess(v, b.base);
      NoGrouping(v / b.base, b, k + 1);
      assert Digits(v, b) + "" == Digits(v, b);
    }
  }

  /** From the right every (group + 1)-th character is a comma, and no other; stated with p characters
      already to the right. */
  lemma {:induction false} CommasInPlace(v: nat, b: Base, k: nat, p: nat, i: nat)
    requires BaseOk(b) && ',' !in b.digits && (b.group == 3 || b.group == 4) && p == k + if k == 0 then 0 else (k - 1) / b.group
    requires i < |Grouped(v, b, k, true)|
    ensures var s := Grouped(v, b, k, true); s[|s| - 1 - i] == ',' <==> (p + i + 1) % (b.group + 1) == 0
    decreases v
  {
    QuotientLess(v, b.base);
    var high, d, comma := Grouped(v / b.base, b, k + 1, true), b.digits[v % b.base], Comma(b, k, true);
    assert d in b.digits;
    var s := Grouped(v, b, k, true);
    assert s == high + [d] + comma;
    Places(b.group, k, p);
    if |comma| < i {
      assert s[|s| - 1 - i] == high[|high| - 1 - (i - 1 - |comma|)];
      CommasInPlace(v / b.base, b, k + 1, p + 1 + |comma|, i - 1 - |comma|);
    }
  }

  lemma Places(group: nat, k: nat, p: nat)
    requires (group == 3 || group == 4) && p == k + if k == 0 then 0 else (k - 1) / group
    ensures var c := if 0 < k && k % group == 0 then 1 else 0;
      && p + 1 + c == k + 1 + k / group
      && ((p + 1) % (group + 1) == 0 <==> c == 1) && (c == 1 ==> (p + 2) % (group + 1) != 0)
  {
  }

  /** A 64-bit number has at most 22 digits in base 8 or above. */
  lemma {:induction false} DigitsBound(v: nat, b: Base, n: nat)
    requires BaseOk(b) && 8 <= b.base && v < Pow8(n)
    ensures |Digits(v, b)| <= n
    decreases v
  {
    if v > 0 {
      QuotientLess(v, b.base);
      QuotientBound(v, b.base, n);
      DigitsBound(v / b.base, b, n - 1);
    }
  }

  lemma QuotientBound(v: nat, d: nat, n: nat)
    requires 8 <= d && 0 < v < Pow8(n)
    ensures 0 < n && v / d < Pow8(n - 1)
  {
    assert Pow8(0) == 1;
    assert v / d <= v / 8 by { DivideByMore(v, d); }
  }

  lemma DivideByMore(v: nat, d: nat)
    requires 8 <= d
    ensures v / d <= v / 8
  {
    var q := v / d;
    DivMod(v, d);
    AtLeastEight(q, d);
    Eighth(v, q);
  }

  lemma AtLeastEight(q: nat, d: nat)
    requires 8 <= d
    ensures 8 * q <= q * d
  {
    assert q * d == 8 * q + q * (d - 8);
  }

  lemma Eighth(v: nat, q: nat)
    requires 8 * q <= v
    ensures q <= v / 8
  {
  }

  lemma SevenDigits()
    ensures Pow8(7) == 2097152
  {
    assert Pow8(4) == 4096;
  }

  lemma Widest()
    ensures B64 <= Pow8(22)
  {
    assert Pow8(4) == 4096;
    assert Pow8(8) == 4096 * 4096 by { Doubled(4, 4); }
    assert Pow8(16) == Pow8(8) * Pow8(8) by { Doubled(8, 8); }
    assert Pow8(6) == 262144;
    assert Pow8(22) == Pow8(16) * Pow8(6) by { Doubled(16, 6); }
  }

  lemma {:induction false} Doubled(m: nat, n: nat)
    ensures Pow8(m + n) == Pow8(m) * Pow8(n)
  {
    if n > 0 {
      Doubled(m, n - 1);
      var a, b := Pow8(m), Pow8(n - 1);
      assert a * (8 * b) == 8 * (a * b);
    }
  }

  function Repeat(c: char, n: int): (s: string)
    ensures |s| == (if n < 0 then 0 else n) && forall i {:trigger s[i]} :: 0 <= i < |s| ==> s[i] == c
  {
    if n <= 0 then "" else seq(n, _ => c)
  }

  function Reverse(s: string): (r: string)
    ensures |r| == |s|
  {
    if s == "" then "" else Reverse(s[1..]) + [s[0]]
  }

  /** The sign character, if any. */
  function SignOf(isSigned: bool, negative: bool, c: Conversion): string {
    if !isSigned then ""
    else if c.plus then (if negative then "-" else "+")
    else if c.space then (if negative then "-" else " ")
    else if negative then "-" else ""
  }

  function PrefixOf(v: nat, b: Base, c: Conversion): string {
    if c.pound && v != 0 && b.x != NUL then ['0', b.x] else ""
  }

  /** Digits with leading zeros up to the precision, which the buffer limits to 63. */
  function Body(v: nat, b: Base, c: Conversion): string
    requires BaseOk(b)
  {
    var precision := if c.precision < 0 then 1 else if c.precision > 63 then 63 else c.precision;
    var digits := Grouped(v, b, 0, c.grouping);
    var padded := Repeat('0', precision - |digits|) + digits;
    if c.pound && b.base == 8 && (padded == "" || padded[0] != '0') then "0" + padded else padded
  }

  /** What `format_integer` prints. */
  function Rendered(v: nat, isSigned: bool, negative: bool, b: Base, c: Conversion): string
    requires BaseOk(b)
  {
    var sign, x, body := SignOf(isSigned, negative, c), PrefixOf(v, b, c), Body(v, b, c);
    var pad := c.width - |body| - |x| - |sign|;
    var lead := (if c.minus || c.zero then "" else Repeat(' ', pad)) + sign + x;
    var whole := (if c.zero then lead + Repeat('0', pad) else lead) + body;
    if c.minus then whole + Repeat(' ', pad) else whole
  }

  lemma {:induction false} ReverseLast(s: string, c: char)
    ensures Reverse(s + [c]) == [c] + Reverse(s)
  {
    if s != "" {
      ReverseLast(s[1..], c);
      assert (s + [c])[1..] == s[1..] + [c];
    } else {
      assert s + [c] == [c];
    }
  }

  lemma {:induction false} ReverseRepeat(s: string, c: char, n: nat)
    ensures Reverse(s + Repeat(c, n)) == Repeat(c, n) + Reverse(s)
  {
    if n == 0 {
      assert s + Repeat(c, 0) == s;
      assert Repeat(c, 0) + Reverse(s) == Reverse(s);
    } else {
      ReverseRepeat(s, c, n - 1);
      ReverseLast(s + Repeat(c, n - 1), c);
      assert s + Repeat(c, n) == (s + Repeat(c, n - 1)) + [c];
      assert Repeat(c, n) + Reverse(s) == [c] + (Repeat(c, n - 1) + Reverse(s));
    }
  }

  /** `format_integer`: digits go into a buffer in reverse, then out. */
  method FormatInteger(value: nat, isSigned: bool, negative: bool, b: Base, c: Conversion) returns (out: string)
    requires value < B64 && BaseOk(b) && 8 <= b.base && ',' !in b.digits
    ensures out == Rendered(value, isSigned, negative, b, c)
  {
    hide Digits, Reverse, Repeat, Body, Grouped;
    var sign := SignOf(isSigned, negative, c);
    var x := PrefixOf(value, b, c);
    var buf := new char[BUFFER];
    var cp := FillBuffer(value, b, c, buf);
    var padCnt := c.width - cp - |x| - |sign|;
    out := "";
    if !c.minus && !c.zero {
      out := Repeat(' ', padCnt);
    }
    out := out + sign + x;
    if c.zero {
      out := out + Repeat('0', padCnt);
    }
    ghost var lead := out;
    ghost var text := buf[..cp];
    assert text[..cp] == text;
    while cp > 0
      invariant 0 <= cp <= |text| <= BUFFER && buf[..|text|] == text
      invariant out + Reverse(text[..cp]) == lead + Reverse(text)
    {
      assert text[..cp] == text[..cp - 1] + [text[cp - 1]];
      ReverseLast(text[..cp - 1], text[cp - 1]);
      assert out + ([text[cp - 1]] + Reverse(text[..cp - 1])) == out + [text[cp - 1]] + Reverse(text[..cp - 1]);
      cp := cp - 1;
      out := out + [buf[cp]];
    }
    assert text[..0] == "" && Reverse("") == "";
    assert out + "" == out;
    if c.minus {
      out := out + Repeat(' ', padCnt);
    }
  }

  /** The part of `format_integer` that fills the buffer, which is large enough for any 64-bit number. */
  method FillBuffer(value: nat, b: Base, c: Conversion, buf: array<char>) returns (cp: nat)
    requires value < B64 && BaseOk(b) && 8 <= b.base && ',' !in b.digits && buf.Length == BUFFER
    modifies buf
    ensures cp <= BUFFER && Reverse(buf[..cp]) == Body(value, b, c) && cp == |Body(value, b, c)|
  {
    hide Digits, Reverse, Repeat, Grouped;
    cp := FillDigits(value, b, c.grouping, buf);
    var precision := if c.precision < 0 then 1 else c.precision;
    ghost var limit := if precision > 63 then 63 else precision;
    ghost var digits := Grouped(value, b, 0, c.grouping);
    cp := PadZeros(cp, precision, buf);
    assert Reverse(buf[..cp]) == Repeat('0', limit - |digits|) + digits;
    if c.pound && b.base == 8 && (cp == 0 || buf[cp - 1] != '0') {
      PushZero(buf, cp);
      cp := cp + 1;
    }
  }

  /** Zeros up to the precision, as far as the buffer goes. */
  method PadZeros(cp0: nat, precision: int, buf: array<char>) returns (cp: nat)
    requires cp0 < BUFFER == buf.Length
    modifies buf
    ensures cp0 <= cp < BUFFER
    ensures var limit := if precision > 63 then 63 else precision;
      Reverse(buf[..cp]) == Repeat('0', limit - cp0) + Reverse(old(buf[..cp0])) && cp == cp0 + |Repeat('0', limit - cp0)|
    ensures cp > 0 ==> Reverse(buf[..cp])[0] == buf[cp - 1]
  {
    hide Reverse, Repeat;
    cp := cp0;
    ghost var digits := buf[..cp0];
    ghost var n := 0;
    RepeatNone('0');
    assert digits + "" == digits;
    while cp < precision && cp < BUFFER - 1
      invariant 0 <= cp <= BUFFER - 1 && buf[..cp] == digits + Repeat('0', n) && cp == cp0 + n
      invariant n > 0 ==> cp <= precision
    {
      RepeatNext('0', n);
      buf[cp] := '0';
      assert buf[..cp + 1] == (digits + Repeat('0', n)) + ['0'];
      cp := cp + 1;
      n := n + 1;
    }
    ReverseRepeat(digits, '0', n);
    RepeatShort('0', (if precision > 63 then 63 else precision) - cp0, n);
    ReverseFront(buf[..cp]);
  }

  method PushZero(buf: array<char>, cp: nat)
    requires cp < buf.Length
    modifies buf
    ensures Reverse(buf[..cp + 1]) == "0" + Reverse(old(buf[..cp]))
  {
    hide Reverse;
    ghost var before := buf[..cp];
    ReverseLast(before, '0');
    buf[cp] := '0';
    assert buf[..cp + 1] == before + ['0'];
  }

  method FillDigits(value: nat, b: Base, grouping: bool, buf: array<char>) returns (cp: nat)
    requires value < B64 && BaseOk(b) && 8 <= b.base && ',' !in b.digits && buf.Length == BUFFER
    modifies buf
    ensures cp <= 44 && Reverse(buf[..cp]) == Grouped(value, b, 0, grouping) && cp == |Grouped(value, b, 0, grouping)|
  {
    hide Digits, Reverse, Grouped, Comma, Pow8;
    Widest();
    DigitsBound(value, b, 22);
    GroupingAddsCommas(value, b, 0, grouping);
    ghost var whole := Grouped(value, b, 0, grouping);
    var v: nat, k: nat := value, 0;
    cp := 0;
    NothingLeft(b, buf[..0], whole);
    while v > 0
      invariant 0 <= cp <= |whole| && cp + |Grouped(v, b, k, grouping)| == |whole|
      invariant Grouped(v, b, k, grouping) + Reverse(buf[..cp]) == whole
    {
      GroupedStep(v, b, k, grouping);
      QuotientLess(v, b.base);
      ghost var done := buf[..cp];
      if grouping && k > 0 && k % b.group == 0 {
        buf[cp] := ',';
        cp := cp + 1;
      }
      assert buf[..cp] == done + Comma(b, k, grouping) by { CommaIs(b, k, grouping); }
      ghost var comma := buf[..cp];
      var d := b.digits[v % b.base];
      buf[cp] := d;
      cp := cp + 1;
      assert buf[..cp] == comma + [d];
      Pushed(Grouped(v / b.base, b, k + 1, grouping), d, Comma(b, k, grouping), done);
      v := v / b.base;
      k := k + 1;
    }
    GroupedNone(b, k, grouping);
    assert "" + Reverse(buf[..cp]) == Reverse(buf[..cp]);
  }

  lemma NothingLeft(b: Base, none: string, whole: string)
    requires none == ""
    ensures whole + Reverse(none) == whole
  {
  }

  lemma GroupedNone(b: Base, k: nat, grouping: bool)
    requires BaseOk(b)
    ensures Grouped(0, b, k, grouping) == ""
  {
  }

  lemma GroupedStep(v: nat, b: Base, k: nat, grouping: bool)
    requires BaseOk(b) && v > 0
    ensures Grouped(v, b, k, grouping) == Grouped(v / b.base, b, k + 1, grouping) + [b.digits[v % b.base]] + Comma(b, k, grouping)
  {
  }

  lemma CommaIs(b: Base, k: nat, grouping: bool)
    requires BaseOk(b)
    ensures Comma(b, k, grouping) == if grouping && 0 < k && k % b.group == 0 then "," else ""
  {
  }

  /** Pushing a comma or nothing and then a digit, seen from the other end. */
  lemma Pushed(high: string, d: char, comma: string, done: string)
    requires |comma| <= 1
    ensures high + [d] + comma + Reverse(done) == high + Reverse(done + comma + [d])
  {
    hide Reverse;
    ReverseLast(done + comma, d);
    if comma == "" {
      assert done + comma == done && comma + Reverse(done) == Reverse(done);
    } else {
      assert comma == [comma[0]];
      ReverseLast(done, comma[0]);
    }
    assert high + [d] + comma + Reverse(done) == high + ([d] + (comma + Reverse(done)));
  }

  lemma QuotientLess(v: nat, d: nat)
    requires 2 <= d && v > 0
    ensures 0 <= v / d < v
  {
  }

  lemma RepeatNone(c: char)
    ensures Repeat(c, 0) == ""
  {
  }

  lemma RepeatNext(c: char, n: nat)
    ensures Repeat(c, n + 1) == Repeat(c, n) + [c]
  {
  }

  lemma RepeatShort(c: char, n: int, m: nat)
    requires m == if n < 0 then 0 else n
    ensures Repeat(c, n) == Repeat(c, m)
  {
  }

  lemma ReverseFront(s: string)
    ensures s != "" ==> Reverse(s)[0] == s[|s| - 1]
  {
    hide Reverse;
    if s != "" {
      var n := |s| - 1;
      assert s == s[..n] + [s[n]];
      ReverseLast(s[..n], s[n]);
    }
  }

  /** The number that digit values stand for, most significant first. */
  function Evaluate(ds: seq<nat>, base: nat): nat {
    if ds == [] then 0 else Evaluate(ds[..|ds| - 1], base) * base + ds[|ds| - 1]
  }

  /** The digits printed are those of the number in its base, without a leading zero. */
  lemma {:induction false} DigitsMean(v: nat, b: Base) returns (ds: seq<nat>)
    requires BaseOk(b)
    ensures |ds| == |Digits(v, b)| && Evaluate(ds, b.base) == v
    ensures forall i {:trigger ds[i]} :: 0 <= i < |ds| ==> ds[i] < b.base && Digits(v, b)[i] == b.digits[ds[i]]
    ensures v > 0 ==> ds != [] && ds[0] != 0
    decreases v
  {
    if v == 0 {
      ds := [];
    } else {
      QuotientLess(v, b.base);
      var high := DigitsMean(v / b.base, b);
      ds := high + [v % b.base];
      assert ds[..|ds| - 1] == high;
      DivMod(v, b.base);
      if high == [] {
        assert v / b.base == 0;
      }
    }
  }

  /** Leading zeros and digits make the full field. */
  lemma {:induction false} OctalIsPadded(v: nat, w: nat)
    requires v < Pow8(w)
    ensures |Digits(v, OCTAL)| <= w && Octal(v, w) == Repeat('0', w - |Digits(v, OCTAL)|) + Digits(v, OCTAL)
  {
    hide Repeat;
    if w == 0 {
      RepeatNone('0');
    } else {
      OctalIsPadded(v / 8, w - 1);
      var rest := Digits(v / 8, OCTAL);
      assert OCTAL.digits[v % 8] == OctalDigit(v % 8);
      if v == 0 {
        RepeatNext('0', w - 1);
      } else {
        assert w - |Digits(v, OCTAL)| == w - 1 - |rest|;
      }
    }
  }

  /** "%0wo" of a number that fits prints exactly its w digits. */
  lemma PrintsOctal(v: nat, w: nat)
    requires 0 < w && v < Pow8(w)
    ensures Rendered(v, false, false, OCTAL, Conversion(false, false, false, false, true, false, w, -1)) == Octal(v, w)
  {
    hide Repeat, Octal, Digits;
    OctalIsPadded(v, w);
    NoGrouping(v, OCTAL, 0);
    var d := Digits(v, OCTAL);
    NoDigits(v);
    RepeatNone('0');
    if v == 0 {
      RepeatNext('0', w - 1);
      RepeatNext('0', 0);
      assert Repeat('0', 1) == "0";
      assert Repeat('0', w) == Repeat('0', w - 1) + "0";
    } else {
      RepeatShort('0', 1 - |d|, 0);
      assert "" + d == d;
      assert "" + Repeat('0', w - |d|) == Repeat('0', w - |d|);
    }
  }

  lemma NoDigits(v: nat)
    ensures v == 0 ==> Digits(v, OCTAL) == ""
    ensures v > 0 ==> |Digits(v, OCTAL)| > 0
  {
  }

  method PrintOctal(v: nat, w: nat) returns (out: string)
    requires 0 < w && v < Pow8(w) && v < B64
    ensures out == Octal(v, w)
  {
    hide Rendered, Octal;
    PrintsOctal(v, w);
    out := FormatInteger(v, false, false, OCTAL, Conversion(false, false, false, false, true, false, w, -1));
  }

  // ---- Names, checksums and octal fields

  lemma {:induction false} FirstSlash(s: string, k: nat)
    requires k < |s| && s[k] == '/' && '/' !in s[..k]
    ensures AfterSlash(s) == s[k + 1..]
  {
    if k > 0 {
      assert s[..k][0] == s[0];
      assert s[..k] == [s[0]] + s[1..][..k - 1];
      FirstSlash(s[1..], k - 1);
      assert s[1..][k..] == s[k + 1..];
    }
  }

  /** `strchr`, for a character that is there. */
  method StrChr(s: string, c: char) returns (k: nat)
    requires c in s
    ensures k < |s| && s[k] == c && c !in s[..k]
  {
    k := 0;
    while s[k] != c
      invariant k < |s| && c !in s[..k]
      decreases |s| - k
    {
      assert s[..k + 1] == s[..k] + [s[k]];
      assert s == s[..k + 1] + s[k + 1..];
      k := k + 1;
    }
  }

  /** `strip_antisocial_prefixes`. */
  method StripPrefixes(name: string) returns (r: string)
    ensures r == Strip(name)
  {
    r := name;
    while Antisocial(r)
      invariant Strip(r) == Strip(name)
      decreases |r|
    {
      assert r[0] == '/' || r[1] == '/' || r[2] == '/';
      var k := StrChr(r, '/');
      FirstSlash(r, k);
      r := r[k + 1..];
    }
    r := if r == "" || r == ".." then "." else r;
  }

  /** `calculate_chksum`. */
  method CalculateChksum(header: array<char>) returns (chksum: nat)
    requires header.Length == HEADER_SIZE
    ensures chksum == Chksum(header[..])
  {
    hide Sum;
    chksum := 0;
    SumNone();
    for i := 0 to HEADER_SIZE
      invariant chksum == SumTo(header[..], i)
    {
      var inField := CHKSUM_START <= i < CHKSUM_END;
      SumToNext(header[..], i);
      chksum := chksum + if inField then ' ' as int else header[i] as int;
    }
    SumToAll(header[..]);
  }

  lemma SumNone()
    ensures Sum("") == 0
  {
  }

  /** The checksum over the first i bytes. */
  ghost function SumTo(h: string, i: nat): nat
    requires |h| == HEADER_SIZE && i <= HEADER_SIZE
  {
    if i <= CHKSUM_START then Sum(h[..i])
    else if i <= CHKSUM_END then Sum(h[..CHKSUM_START]) + (i - CHKSUM_START) * ' ' as int
    else Sum(h[..CHKSUM_START]) + 8 * ' ' as int + Sum(h[CHKSUM_END..i])
  }

  lemma SumToNext(h: string, i: nat)
    requires |h| == HEADER_SIZE && i < HEADER_SIZE
    ensures SumTo(h, i + 1) == SumTo(h, i) + if CHKSUM_START <= i < CHKSUM_END then ' ' as int else h[i] as int
    ensures SumTo(h, 0) == 0
  {
    hide Sum;
    SumNone();
    assert h[..0] == "";
    if i < CHKSUM_START {
      SumSnoc(h[..i], h[i]);
      assert h[..i + 1] == h[..i] + [h[i]];
    } else if i >= CHKSUM_END {
      SumSnoc(h[CHKSUM_END..i], h[i]);
      assert h[CHKSUM_END..i + 1] == h[CHKSUM_END..i] + [h[i]];
      assert h[CHKSUM_END..CHKSUM_END] == "";
    }
  }

  lemma SumSnoc(s: string, c: char)
    ensures Sum(s + [c]) == Sum(s) + c as int
  {
    assert (s + [c])[..|s|] == s;
  }

  lemma SumToAll(h: string)
    requires |h| == HEADER_SIZE
    ensures SumTo(h, HEADER_SIZE) == Chksum(h)
  {
    hide Sum;
    assert h[CHKSUM_END..HEADER_SIZE] == h[CHKSUM_END..];
  }

  /** `parse_octal_field`. */
  method ParseOctalField(s: string) returns (value: Option<nat>)
    ensures value == ParseOctal(s, 0, 0)
  {
    var v: nat := 0;
    assert s[0..] == s;
    for ofs := 0 to |s|
      invariant ParseOctal(s, 0, 0) == ParseOctal(s[ofs..], ofs, v)
    {
      var c := s[ofs];
      assert s[ofs..][1..] == s[ofs + 1..];
      if '0' <= c <= '7' {
        if v > ULONG_MAX / 8 {
          return None;
        }
        v := c as int - '0' as int + v * 8;
      } else if c == ' ' || c == NUL {
        return if ofs > 0 then Some(v) else None;
      } else {
        return None;
      }
    }
    return None;
  }

  // ---- Filling a header

  /** Copies text, and what follows it, into the header. */
  method Put(header: array<char>, ofs: nat, text: string)
    requires ofs + |text| <= header.Length
    modifies header
    ensures header[..] == Overwrite(old(header[..]), ofs, text)
  {
    for i := 0 to |text|
      invariant forall k {:trigger header[k]} :: 0 <= k < header.Length ==>
        header[k] == if ofs <= k < ofs + i then text[k - ofs] else old(header[k])
    {
      header[ofs + i] := text[i];
    }
    assert header[..] == Overwrite(old(header[..]), ofs, text);
  }

  /** Writing into a run of null bytes between p and q. */
  lemma FillGap(p: string, gap: nat, q: string, t: string)
    requires |t| <= gap
    ensures Overwrite(p + Nulls(gap) + q, |p|, t) == p + (t + Nulls(gap - |t|)) + q
  {
    hide Nulls;
    var s := p + Nulls(gap) + q;
    var r := Overwrite(s, |p|, t);
    assert s[..|p|] == p;
    assert s[|p| + |t|..] == Nulls(gap)[|t|..] + q;
    assert Nulls(gap)[|t|..] == Nulls(gap - |t|);
  }

  lemma NullsJoin(a: nat, b: nat)
    ensures Nulls(a + b) == Nulls(a) + Nulls(b)
  {
  }

  /** Text and its terminator in a field that was null. */
  lemma Terminated(t: string, n: nat)
    requires |t| < n
    ensures (t + [NUL]) + Nulls(n - |t| - 1) == t + Nulls(n - |t|)
  {
  }

  /** The fields before the checksum. */
  method FillFront(header: array<char>, name: string, t: FileType, size: int)
    requires header.Length == HEADER_SIZE && header[..] == Nulls(HEADER_SIZE)
    requires |name| <= 99 && -0x8000_0000 <= size <= INT_MAX
    modifies header
    ensures header[..] == Front(name, t, size) + Nulls(364)
  {
    hide Nulls, Octal, Overwrite, Owner, LongField, Pow8;
    Constants();
    NullsJoin(100, 412);
    assert "" + Nulls(100) + Nulls(412) == Nulls(HEADER_SIZE);
    FillGap("", 100, Nulls(412), name + [NUL]);
    Put(header, 0, name + [NUL]);
    Terminated(name, 100);
    ghost var nameField := name + Nulls(100 - |name|);
    assert header[..] == nameField + Nulls(412);
    PutOwner(header, nameField, t);
    ghost var withOwner := nameField + Owner(t);
    var sizeText := PrintOctal(AsUnsigned(size), 11);
    PutField(header, withOwner, sizeText, 12, 388);
    LongIs(AsUnsigned(size));
    ghost var withSize := withOwner + LongField(AsUnsigned(size));
    var timeText := PrintOctal(1136102400, 11);
    PutField(header, withSize, timeText, 12, 376);
    LongIs(1136102400);
  }

  lemma LongIs(v: nat)
    ensures Octal(v, 11) + Nulls(1) == LongField(v)
  {
  }

  /** Mode, user and group, 8 bytes each. */
  method PutOwner(header: array<char>, ghost p: string, t: FileType)
    requires header.Length == HEADER_SIZE && |p| == 100 && header[..] == p + Nulls(412)
    modifies header
    ensures header[..] == p + Owner(t) + Nulls(388)
  {
    hide Nulls, Octal, Overwrite, Pow8;
    Constants();
    var mode := PrintOctal(if t.Regular? then 420 else 493, 7);
    PutField(header, p, mode, 8, 412);
    ghost var p1 := p + (mode + Nulls(1));
    OwnerZeros();
    PutField(header, p1, "0000000", 8, 404);
    ghost var p2 := p1 + ("0000000" + Nulls(1));
    PutField(header, p2, "0000000", 8, 396);
    assert Nulls(1) == [NUL];
    assert p2 + ("0000000" + [NUL]) == p + Owner(t);
  }

  lemma OwnerZeros()
    ensures Octal(0, 7) == "0000000"
  {
    assert Octal(0, 2) == "00";
    assert Octal(0, 4) == "0000";
    assert Octal(0, 6) == "000000";
  }

  /** Text at the start of what is still null, in a field of `gap` bytes. */
  method PutField(header: array<char>, ghost p: string, text: string, gap: nat, left: nat)
    requires |text| <= gap <= left && header.Length == HEADER_SIZE == |p| + left && header[..] == p + Nulls(left)
    modifies header
    ensures header[..] == p + (text + Nulls(gap - |text|)) + Nulls(left - gap)
  {
    hide Nulls, Overwrite;
    NullsJoin(gap, left - gap);
    assert p + Nulls(gap) + Nulls(left - gap) == p + Nulls(left);
    FillGap(p, gap, Nulls(left - gap), text);
    Put(header, HEADER_SIZE - left, text);
  }

  /** The fields after the checksum, which is left null. */
  method FillBack(header: array<char>, ghost front: string, t: FileType)
    requires header.Length == HEADER_SIZE && |front| == CHKSUM_START && header[..] == front + Nulls(364)
    modifies header
    ensures header[..] == front + Nulls(8) + Back(t)
  {
    hide Nulls, Back;
    NullsJoin(8, 356);
    ghost var p := front + Nulls(8);
    assert header[..] == p + Nulls(356);
    PutField(header, p, [TypeFlag(t)], 101, 356);
    ghost var p1 := p + ([TypeFlag(t)] + Nulls(100));
    PutField(header, p1, "ustar" + [NUL], 6, 255);
    ghost var p2 := p1 + ("ustar" + [NUL] + Nulls(0));
    PutField(header, p2, "00", 2, 249);
    ghost var p3 := p2 + ("00" + Nulls(0));
    PutNames(header, p3);
    BackIs(p, t);
  }

  lemma BackIs(p: string, t: FileType)
    ensures p + ([TypeFlag(t)] + Nulls(100)) + ("ustar" + [NUL] + Nulls(0)) + ("00" + Nulls(0))
      + ("root" + Nulls(28)) + ("root" + Nulls(28)) + Nulls(183) == p + Back(t)
  {
    assert "ustar" + [NUL] + Nulls(0) == "ustar" + [NUL];
    assert "00" + Nulls(0) == "00";
  }

  method PutNames(header: array<char>, ghost p: string)
    requires header.Length == HEADER_SIZE && |p| == 265 && header[..] == p + Nulls(247)
    modifies header
    ensures header[..] == p + ("root" + Nulls(28)) + ("root" + Nulls(28)) + Nulls(183)
  {
    hide Nulls, Overwrite;
    NullsJoin(32, 215);
    NullsJoin(32, 183);
    Terminated("root", 32);
    ghost var g := p + Nulls(32);
    assert header[..] == g + Nulls(32) + Nulls(183);
    FillGap(g, 32, Nulls(183), "root" + [NUL]);
    Put(header, 297, "root" + [NUL]);
    ghost var rest := ("root" + Nulls(28)) + Nulls(183);
    assert header[..] == p + Nulls(32) + rest;
    FillGap(p, 32, rest, "root" + [NUL]);
    Put(header, 265, "root" + [NUL]);
  }

  /** `ustar_make_header`: fails exactly for a name that is too long once stripped. */
  method MakeHeader(fileName: string, t: FileType, size: int, header: array<char>) returns (success: bool)
    requires IsText(fileName) && -0x8000_0000 <= size <= INT_MAX && header.Length == HEADER_SIZE
    modifies header
    ensures success <==> |Strip(fileName)| <= 99
    ensures success ==> header[..] == Made(Strip(fileName), t, size)
    ensures !success ==> header[..] == old(header[..])
  {
    hide Nulls, Strip, Front, Back, Overwrite, Made, ChksumField, Octal, Pow8, Chksum;
    var name := StripPrefixes(fileName);
    if |name| > 99 {
      return false;
    }
    StripText(fileName);
    for i := 0 to HEADER_SIZE
      invariant forall k {:trigger header[k]} :: 0 <= k < i ==> header[k] == NUL
    {
      header[i] := NUL;
    }
    assert header[..] == Nulls(HEADER_SIZE);
    FillFront(header, name, t, size);
    FillBack(header, Front(name, t, size), t);
    ghost var blank := header[..];
    ghost var made := Made(name, t, size);
    SameChksum(name, t, size, blank);
    var sum := CalculateChksum(header);
    ChksumRange(name, t, size);
    SevenDigits();
    var text := PrintOctal(sum, 7);
    FillGap(Front(name, t, size), 8, Back(t), text + [NUL]);
    Put(header, CHKSUM_START, text + [NUL]);
    ChksumIn(name, t, size, text);
    return true;
  }

  lemma SameChksum(name: string, t: FileType, size: int, blank: string)
    requires |name| <= 99 && -0x8000_0000 <= size <= INT_MAX && blank == Front(name, t, size) + Nulls(8) + Back(t)
    ensures |blank| == HEADER_SIZE && Chksum(blank) == Chksum(Made(name, t, size))
  {
    hide Nulls, Front, Back, Made, Sum;
    assert blank[..CHKSUM_START] == Front(name, t, size) && blank[CHKSUM_END..] == Back(t);
  }

  lemma ChksumIn(name: string, t: FileType, size: int, text: string)
    requires |name| <= 99 && -0x8000_0000 <= size <= INT_MAX && text == Octal(Chksum(Made(name, t, size)), 7)
    ensures Front(name, t, size) + ((text + [NUL]) + Nulls(8 - |text + [NUL]|)) + Back(t) == Made(name, t, size)
  {
    hide Front, Back, Made, Octal, Chksum;
    var h := Made(name, t, size);
    assert (text + [NUL]) + Nulls(0) == ChksumField(Chksum(h));
    assert h == h[..CHKSUM_START] + h[CHKSUM_START..CHKSUM_END] + h[CHKSUM_END..];
  }

  /** `ustar_parse_header`. */
  method ParseHeader(header: array<char>) returns (r: Parsed)
    requires header.Length == HEADER_SIZE
    ensures r == Parse(header[..])
  {
    hide Nulls, Strip, ParseOctal, Chksum, CString;
    var blank := IsAllZeros(header);
    if blank {
      return EndOfArchive;
    }
    var h := header[..];
    if h[257..263] != "ustar" + [NUL] {
      return NotUstar;
    }
    if header[263] != '0' || header[264] != '0' {
      return BadVersion;
    }
    var chksum := ParseOctalField(h[CHKSUM_START..CHKSUM_END]);
    if chksum.None? {
      return BadChksum;
    }
    var sum := CalculateChksum(header);
    if chksum.value != sum {
      return Mismatch;
    }
    if header[99] != NUL || header[345] != NUL {
      return NameTooLong;
    }
    if header[156] != '0' && header[156] != '5' {
      return UnknownType;
    }
    var size := 0;
    if header[156] == '0' {
      var parsed := ParseOctalField(h[124..136]);
      if parsed.None? {
        return BadSize;
      }
      if parsed.value > INT_MAX {
        return TooLarge;
      }
      size := parsed.value;
    }
    var name := StripPrefixes(CString(h[..100]));
    return Entry(name, if header[156] == '0' then Regular else Directory, size);
  }

  /** `is_all_zeros`. */
  method IsAllZeros(header: array<char>) returns (blank: bool)
    requires header.Length == HEADER_SIZE
    ensures blank <==> header[..] == Nulls(HEADER_SIZE)
  {
    hide Nulls;
    ghost var z := Nulls(HEADER_SIZE);
    for i := 0 to HEADER_SIZE
      invariant forall k {:trigger header[k]} :: 0 <= k < i ==> header[k] == NUL
    {
      if header[i] != NUL {
        assert header[..][i] != z[i];
        return false;
      }
    }
    assert header[..] == z;
    return true;
  }
}
