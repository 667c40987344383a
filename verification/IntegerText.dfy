/** The text that an integer conversion of lib/stdio.c prints: it reads back as the number, and is laid out
    as the flags ask. */
module IntegerText {
  import Arithmetic
  import opened Common
  import opened UstarFormat
  import opened UstarCode

  /** A base whose digits can be told apart from each other and from signs, commas and blanks. */
  predicate Legible(b: Base) {
    && BaseOk(b) && b.digits[0] == '0'
    && (forall i, j {:trigger b.digits[i], b.digits[j]} :: 0 <= i < j < |b.digits| ==> b.digits[i] != b.digits[j])
    && ',' !in b.digits && ' ' !in b.digits && '+' !in b.digits && '-' !in b.digits
    && (b.x != NUL ==> b.x !in b.digits && b.x != ',' && b.x != ' ' && b.x != '+' && b.x != '-')
  }

  const DECIMAL: Base := Base(10, "0123456789", NUL, 3)
  const HEX: Base := Base(16, "0123456789abcdef", 'x', 4)
  const UPPER_HEX: Base := Base(16, "0123456789ABCDEF", 'X', 4)

  lemma DecimalLegible()
    ensures Legible(DECIMAL)
  {
    var d := DECIMAL.digits;
    assert forall i {:trigger d[i]} :: 0 <= i < |d| ==> d[i] as int == 48 + i;
  }

  lemma HexLegible()
    ensures Legible(HEX)
  {
    var d := HEX.digits;
    assert forall i {:trigger d[i]} :: 0 <= i < |d| ==> d[i] as int == if i < 10 then 48 + i else 87 + i;
  }

  lemma UpperHexLegible()
    ensures Legible(UPPER_HEX)
  {
    var d := UPPER_HEX.digits;
    assert forall i {:trigger d[i]} :: 0 <= i < |d| ==> d[i] as int == if i < 10 then 48 + i else 55 + i;
  }

  lemma OctalLegible()
    ensures Legible(OCTAL)
  {
    var d := OCTAL.digits;
    assert forall i {:trigger d[i]} :: 0 <= i < |d| ==> d[i] as int == 48 + i;
  }

  // ---- Reading a number

  /** Where a character is among the digits. */
  function IndexOf(s: string, c: char): (i: nat)
    requires c in s
    ensures i < |s| && s[i] == c
  {
    if s[0] == c then 0 else IndexOf(s[1..], c) + 1
  }

  /** Digits up to the first character that is neither a digit nor a comma. */
  function ReadDigits(s: string, b: Base, acc: nat): nat {
    if s == "" then acc
    else if s[0] == ',' then ReadDigits(s[1..], b, acc)
    else if s[0] in b.digits then ReadDigits(s[1..], b, acc * b.base + IndexOf(b.digits, s[0]))
    else acc
  }

  function SkipBlanks(s: string): string { if s != "" && s[0] == ' ' then SkipBlanks(s[1..]) else s }

  function SkipPrefix(s: string, b: Base): string {
    if b.x != NUL && 2 <= |s| && s[0] == '0' && s[1] == b.x then s[2..] else s
  }

  function Negated(x: int): int { -x }

  /** Blanks, a sign, the prefix of the base, and digits. */
  function ReadNumber(s: string, b: Base): int {
    var t := SkipBlanks(s);
    if t != "" && t[0] == '-' then Negated(ReadDigits(SkipPrefix(t[1..], b), b, 0))
    else if t != "" && t[0] == '+' then ReadDigits(SkipPrefix(t[1..], b), b, 0)
    else ReadDigits(SkipPrefix(t, b), b, 0)
  }

  // ---- Reading digits

  /** Nothing but digits and commas. */
  ghost predicate Numeric(s: string, b: Base) {
    forall i {:trigger s[i]} :: 0 <= i < |s| ==> s[i] == ',' || s[i] in b.digits
  }

  lemma DigitIndex(b: Base, i: nat)
    requires Legible(b) && i < |b.digits|
    ensures IndexOf(b.digits, b.digits[i]) == i
  {
    var j := IndexOf(b.digits, b.digits[i]);
  }

  /** The digits of the front give the start value for the rest. */
  lemma {:induction false} ReadFront(s: string, t: string, b: Base, acc: nat)
    requires Numeric(s, b)
    ensures ReadDigits(s + t, b, acc) == ReadDigits(t, b, ReadDigits(s, b, acc))
    decreases |s|
  {
    if s == "" {
      assert s + t == t;
    } else {
      assert (s + t)[1..] == s[1..] + t && (s + t)[0] == s[0];
      forall i | 0 <= i < |s[1..]| ensures s[1..][i] == ',' || s[1..][i] in b.digits {
        assert s[1..][i] == s[i + 1];
      }
      var acc' := if s[0] == ',' then acc else acc * b.base + IndexOf(b.digits, s[0]);
      ReadFront(s[1..], t, b, acc');
    }
  }

  lemma {:induction false} ReadZeros(n: nat, b: Base)
    requires Legible(b)
    ensures Numeric(Repeat('0', n), b) && ReadDigits(Repeat('0', n), b, 0) == 0
  {
    assert b.digits[0] in b.digits;
    if n > 0 {
      ReadZeros(n - 1, b);
      DigitIndex(b, 0);
      assert Repeat('0', n)[1..] == Repeat('0', n - 1);
    }
  }

  /** The printed digits read as the number, with or without commas. */
  lemma {:induction false} ReadGrouped(v: nat, b: Base, k: nat, grouping: bool)
    requires Legible(b)
    ensures Numeric(Grouped(v, b, k, grouping), b) && ReadDigits(Grouped(v, b, k, grouping), b, 0) == v
    decreases v
  {
    hide Legible, Numeric, ReadDigits, Comma;
    if v == 0 {
      ReadNothing(b);
    } else {
      assert BaseOk(b) by { LegibleOk(b); }
      QuotientLess(v, b.base);
      ReadGrouped(v / b.base, b, k + 1, grouping);
      var high, d, comma := Grouped(v / b.base, b, k + 1, grouping), b.digits[v % b.base], Comma(b, k, grouping);
      CommaIs(b, k, grouping);
      assert Grouped(v, b, k, grouping) == high + ([d] + comma);
      ReadFront(high, [d] + comma, b, 0);
      ReadOne(v % b.base, comma, b, v / b.base);
      NumericJoins(high, [d] + comma, b);
      Arithmetic.DivMod(v, b.base);
    }
  }

  lemma LegibleOk(b: Base)
    requires Legible(b)
    ensures BaseOk(b)
  {
  }

  lemma ReadNothing(b: Base)
    ensures Numeric("", b) && ReadDigits("", b, 0) == 0
  {
  }

  lemma NumericJoins(s: string, t: string, b: Base)
    requires Numeric(s, b) && Numeric(t, b)
    ensures Numeric(s + t, b)
  {
  }

  lemma ReadOne(i: nat, comma: string, b: Base, acc: nat)
    requires Legible(b) && i < |b.digits| && (comma == "" || comma == ",")
    ensures Numeric([b.digits[i]] + comma, b) && ReadDigits([b.digits[i]] + comma, b, acc) == acc * b.base + i
  {
    var d := b.digits[i];
    assert d in b.digits;
    DigitIndex(b, i);
    assert ([d] + comma)[1..] == comma;
    if comma == "," {
      assert comma[1..] == "";
      assert ReadDigits(comma, b, acc * b.base + i) == ReadDigits("", b, acc * b.base + i);
    }
  }

  /** A blank ends a number. */
  lemma ReadStops(n: int, b: Base, acc: nat)
    requires Legible(b)
    ensures ReadDigits(Repeat(' ', n), b, acc) == acc
  {
  }

  // ---- The whole text

  ghost predicate Blank(s: string) { forall i {:trigger s[i]} :: 0 <= i < |s| ==> s[i] == ' ' }

  lemma {:induction false} SkipsBlanks(s: string, t: string)
    requires Blank(s)
    ensures SkipBlanks(s + t) == SkipBlanks(t)
    decreases |s|
  {
    if s == "" {
      assert s + t == t;
    } else {
      assert (s + t)[1..] == s[1..] + t;
      SkipsBlanks(s[1..], t);
    }
  }

  /** Zeros, digits and what follows them. */
  lemma ReadField(zeros: nat, body: string, after: int, b: Base, v: nat)
    requires Legible(b) && Numeric(body, b) && ReadDigits(body, b, 0) == v
    ensures ReadDigits(Repeat('0', zeros) + (body + Repeat(' ', after)), b, 0) == v
  {
    hide Legible, Numeric, Repeat;
    ReadZeros(zeros, b);
    ReadFront(Repeat('0', zeros), body + Repeat(' ', after), b, 0);
    ReadFront(body, Repeat(' ', after), b, 0);
    ReadStops(after, b, v);
  }

  /** The digits with the zeros of the precision. */
  lemma ReadBody(v: nat, b: Base, c: Conversion)
    requires Legible(b)
    ensures Numeric(Body(v, b, c), b) && ReadDigits(Body(v, b, c), b, 0) == v
  {
    hide Legible, Numeric, Repeat, Grouped, ReadDigits;
    LegibleOk(b);
    var precision := if c.precision < 0 then 1 else if c.precision > 63 then 63 else c.precision;
    var digits := Grouped(v, b, 0, c.grouping);
    ReadGrouped(v, b, 0, c.grouping);
    var n := if precision > |digits| then precision - |digits| else 0;
    var padded := Repeat('0', precision - |digits|) + digits;
    assert padded == Repeat('0', n) + digits by { RepeatIs(precision - |digits|, n); }
    ReadZeros(n, b);
    ReadFront(Repeat('0', n), digits, b, 0);
    NumericJoins(Repeat('0', n), digits, b);
    assert Repeat('0', 1) == "0" by { OneZero(); }
    ReadZeros(1, b);
    ReadFront("0", padded, b, 0);
    NumericJoins("0", padded, b);
  }

  lemma RepeatIs(k: int, n: nat)
    requires n == if k > 0 then k else 0
    ensures Repeat('0', k) == Repeat('0', n)
  {
  }

  lemma OneZero()
    ensures Repeat('0', 1) == "0"
  {
  }

  /** How many characters the sign and the prefix take. */
  function SignWidth(isSigned: bool, negative: bool, c: Conversion): nat {
    if isSigned && (negative || c.plus || c.space) then 1 else 0
  }

  function PrefixWidth(v: nat, b: Base, c: Conversion): nat {
    if c.pound && v != 0 && b.x != NUL then 2 else 0
  }

  /** The text without padding: what is printed in a field of no width. */
  function Bare(v: nat, isSigned: bool, negative: bool, b: Base, c: Conversion): string
    requires BaseOk(b)
  {
    Rendered(v, isSigned, negative, b, c.(width := 0))
  }

  lemma BareIs(v: nat, isSigned: bool, negative: bool, b: Base, c: Conversion)
    requires BaseOk(b)
    ensures Bare(v, isSigned, negative, b, c) == SignOf(isSigned, negative, c) + PrefixOf(v, b, c) + Body(v, b, c)
    ensures Body(v, b, c.(width := 0)) == Body(v, b, c)
  {
    hide Body, Repeat, SignOf, PrefixOf;
    BodyAlone(v, b, c);
    HeadAlone(v, isSigned, negative, b, c);
    var body, sign, x := Body(v, b, c), SignOf(isSigned, negative, c), PrefixOf(v, b, c);
    NoPad(0 - |body| - |x| - |sign|);
    assert "" + sign + x == sign + x;
    assert sign + x + "" == sign + x;
    assert sign + x + body + "" == sign + x + body;
  }

  lemma HeadAlone(v: nat, isSigned: bool, negative: bool, b: Base, c: Conversion)
    ensures SignOf(isSigned, negative, c.(width := 0)) == SignOf(isSigned, negative, c)
    ensures PrefixOf(v, b, c.(width := 0)) == PrefixOf(v, b, c)
  {
  }

  /** The width does not matter to the digits. */
  lemma BodyAlone(v: nat, b: Base, c: Conversion)
    requires BaseOk(b)
    ensures Body(v, b, c.(width := 0)) == Body(v, b, c)
  {
  }

  /** The layout: a field of the width asked for, or wider if the text needs it. The padding is blanks on
      the left, blanks on the right with MINUS, or zeros after the sign and the prefix with ZERO; with both
      flags it is done twice. */
  lemma Layout(v: nat, isSigned: bool, negative: bool, b: Base, c: Conversion)
    requires BaseOk(b)
    ensures var out, bare := Rendered(v, isSigned, negative, b, c), Bare(v, isSigned, negative, b, c);
      var pad := if c.width > |bare| then c.width - |bare| else 0;
      var i := SignWidth(isSigned, negative, c) + PrefixWidth(v, b, c);
      && i <= |bare|
      && (!c.minus && !c.zero ==> out == Repeat(' ', pad) + bare)
      && (c.minus && !c.zero ==> out == bare + Repeat(' ', pad))
      && (!c.minus && c.zero ==> out == bare[..i] + Repeat('0', pad) + bare[i..])
      && (c.minus && c.zero ==> out == bare[..i] + Repeat('0', pad) + bare[i..] + Repeat(' ', pad))
      && |out| == |bare| + pad + if c.minus && c.zero then pad else 0
  {
    hide Body, Rendered, SignOf, PrefixOf, Repeat, Bare;
    BareIs(v, isSigned, negative, b, c);
    Parts(v, isSigned, negative, b, c);
    HeadWidth(v, isSigned, negative, b, c);
    var body, sign, x := Body(v, b, c), SignOf(isSigned, negative, c), PrefixOf(v, b, c);
    var pad := c.width - |body| - |x| - |sign|;
    Slices(sign, x, body);
    NoPad(pad);
    LengthOf(pad);
    Padded(sign, x, body, if pad > 0 then pad else 0, c.minus, c.zero);
  }

  /** The four ways to pad a text. */
  lemma Padded(sign: string, x: string, body: string, pad: nat, minus: bool, zero: bool)
    ensures var bare := sign + x + body;
      var i := |sign| + |x|;
      var out := Repeat(' ', if minus || zero then 0 else pad)
        + (sign + (x + (Repeat('0', if zero then pad else 0) + (body + Repeat(' ', if minus then pad else 0)))));
      && bare[..i] == sign + x && bare[i..] == body
      && (!minus && !zero ==> out == Repeat(' ', pad) + bare)
      && (minus && !zero ==> out == bare + Repeat(' ', pad))
      && (!minus && zero ==> out == bare[..i] + Repeat('0', pad) + bare[i..])
      && (minus && zero ==> out == bare[..i] + Repeat('0', pad) + bare[i..] + Repeat(' ', pad))
  {
    hide Repeat;
    NoPad(0);
    var bare, blanks, zeros := sign + x + body, Repeat(' ', pad), Repeat('0', pad);
    assert bare[..|sign| + |x|] == sign + x && bare[|sign| + |x|..] == body;
    if minus && zero {
      assert "" + (sign + (x + (zeros + (body + blanks)))) == sign + x + zeros + body + blanks;
    } else if minus {
      assert "" + (sign + (x + ("" + (body + blanks)))) == bare + blanks;
    } else if zero {
      assert "" + (sign + (x + (zeros + (body + "")))) == sign + x + zeros + body;
    } else {
      assert blanks + (sign + (x + ("" + (body + "")))) == blanks + bare;
    }
  }

  lemma NoPad(pad: int)
    ensures Repeat(' ', 0) == "" && Repeat('0', 0) == ""
    ensures pad <= 0 ==> Repeat(' ', pad) == "" && Repeat('0', pad) == ""
  {
  }

  lemma LengthOf(pad: int)
    ensures |Repeat(' ', pad)| == |Repeat('0', pad)| == if pad > 0 then pad else 0
  {
  }

  lemma HeadWidth(v: nat, isSigned: bool, negative: bool, b: Base, c: Conversion)
    ensures |SignOf(isSigned, negative, c)| == SignWidth(isSigned, negative, c) && |PrefixOf(v, b, c)| == PrefixWidth(v, b, c)
  {
  }

  /** After the sign comes the prefix, exactly for a nonzero number with POUND in a base that has one. Then
      come as many digits as the precision asks for, at most 63, or as the number has, if that is more; with
      POUND in base 8 the first of them is a zero, added if need be. */
  lemma Precision(v: nat, isSigned: bool, negative: bool, b: Base, c: Conversion)
    requires Legible(b)
    ensures var bare := Bare(v, isSigned, negative, b, c);
      var s, i := SignWidth(isSigned, negative, c), SignWidth(isSigned, negative, c) + PrefixWidth(v, b, c);
      var least := if c.precision < 0 then 1 else if c.precision > 63 then 63 else c.precision;
      var cnt := |Grouped(v, b, 0, c.grouping)|;
      && i <= |bare| && (s < i ==> bare[s..i] == ['0', b.x])
      && Numeric(bare[i..], b)
      && (c.pound && b.base == 8 ==> i < |bare| && bare[i] == '0')
      && |bare| - i - (if cnt > least then cnt else least) ==
           if c.pound && b.base == 8 && least <= cnt then 1 else 0
  {
    hide Repeat, Grouped, Numeric, ReadDigits, Body, SignOf, Legible, Bare;
    LegibleOk(b);
    BareIs(v, isSigned, negative, b, c);
    HeadWidth(v, isSigned, negative, b, c);
    ReadBody(v, b, c);
    BodyWidth(v, b, c);
    var bare, body := Bare(v, isSigned, negative, b, c), Body(v, b, c);
    var sign, x := SignOf(isSigned, negative, c), PrefixOf(v, b, c);
    Slices(sign, x, body);
  }

  lemma Slices(sign: string, x: string, body: string)
    ensures var bare := sign + x + body; bare[|sign|..|sign| + |x|] == x && bare[|sign| + |x|..] == body
  {
  }

  lemma BodyWidth(v: nat, b: Base, c: Conversion)
    requires Legible(b)
    ensures var body := Body(v, b, c);
      var least := if c.precision < 0 then 1 else if c.precision > 63 then 63 else c.precision;
      var cnt := |Grouped(v, b, 0, c.grouping)|;
      && (c.pound && b.base == 8 ==> body != "" && body[0] == '0')
      && |body| == (if cnt > least then cnt else least) + if c.pound && b.base == 8 && least <= cnt then 1 else 0
  {
    hide Repeat, Grouped;
    NoLeadingZero(v, b, c.grouping);
    hide Legible;
    var least := if c.precision < 0 then 1 else if c.precision > 63 then 63 else c.precision;
    var digits := Grouped(v, b, 0, c.grouping);
    ZerosFirst(least - |digits|, digits);
  }

  /** Added zeros come first. */
  lemma ZerosFirst(n: int, digits: string)
    ensures |Repeat('0', n) + digits| == |digits| + if n > 0 then n else 0
    ensures n > 0 ==> (Repeat('0', n) + digits)[0] == '0'
    ensures n <= 0 ==> Repeat('0', n) + digits == digits
  {
  }

  /** The digits of a number do not start with a zero. */
  lemma {:induction false} NoLeadingZero(v: nat, b: Base, grouping: bool)
    requires Legible(b)
    ensures Grouped(v, b, 0, grouping) != "" ==> Grouped(v, b, 0, grouping)[0] != '0'
  {
    LeadingDigit(v, b, 0, grouping);
  }

  lemma {:induction false} LeadingDigit(v: nat, b: Base, k: nat, grouping: bool)
    requires Legible(b)
    ensures v > 0 <==> Grouped(v, b, k, grouping) != ""
    ensures v > 0 ==> Grouped(v, b, k, grouping)[0] != '0'
    decreases v
  {
    if v > 0 {
      QuotientLess(v, b.base);
      LeadingDigit(v / b.base, b, k + 1, grouping);
      if v / b.base == 0 {
        Arithmetic.DivMod(v, b.base);
        assert v % b.base == v;
        assert b.digits[0] != b.digits[v];
      }
    }
  }

  /** Only a negative number in a signed conversion has a minus sign, and a plus sign or a blank is there
      exactly if its flag asks for it. */
  lemma Signs(v: nat, isSigned: bool, negative: bool, b: Base, c: Conversion)
    requires Legible(b)
    ensures var out, bare := Rendered(v, isSigned, negative, b, c), Bare(v, isSigned, negative, b, c);
      && ('-' in out <==> isSigned && negative)
      && ('+' in out <==> isSigned && !negative && c.plus)
      && (isSigned && negative ==> bare != "" && bare[0] == '-')
      && (isSigned && !negative && c.plus ==> bare != "" && bare[0] == '+')
      && (' ' in bare <==> isSigned && !negative && !c.plus && c.space)
      && (isSigned && !negative && !c.plus && c.space ==> bare != "" && bare[0] == ' ')
  {
    hide Body, Numeric, Rendered, Repeat, Bare;
    var body, sign, x := Body(v, b, c), SignOf(isSigned, negative, c), PrefixOf(v, b, c);
    BareIs(v, isSigned, negative, b, c);
    Parts(v, isSigned, negative, b, c);
    ReadBody(v, b, c);
    Plain(body, b);
    NoSign(x, b);
    var pad := c.width - |body| - |x| - |sign|;
    Pads(pad);
    Pads(0);
    hide Legible, PrefixOf;
    assert forall ch {:trigger ch in sign + x + body} :: ch in sign + x + body <==> ch in sign || ch in x || ch in body;
  }

  lemma NoSign(x: string, b: Base)
    requires Legible(b) && (x == "" || (b.x != NUL && x == ['0', b.x]))
    ensures '-' !in x && '+' !in x && ' ' !in x
  {
  }

  lemma Pads(n: int)
    ensures '-' !in Repeat(' ', n) && '-' !in Repeat('0', n) && '+' !in Repeat(' ', n) && '+' !in Repeat('0', n)
  {
  }

  lemma Plain(body: string, b: Base)
    requires Legible(b) && Numeric(body, b)
    ensures '-' !in body && '+' !in body && ' ' !in body
  {
  }

  /** What is printed reads back as the number: in every base, with any flags, width and precision, with
      and without commas. */
  lemma ReadsBack(v: nat, isSigned: bool, negative: bool, b: Base, c: Conversion)
    requires Legible(b)
    ensures ReadNumber(Rendered(v, isSigned, negative, b, c), b) == if isSigned && negative then Negated(v) else v
  {
    hide Body, Numeric, ReadDigits, Repeat, SkipBlanks;
    LegibleOk(b);
    var body, sign, x := Body(v, b, c), SignOf(isSigned, negative, c), PrefixOf(v, b, c);
    ReadBody(v, b, c);
    var pad := c.width - |body| - |x| - |sign|;
    var before := if c.minus || c.zero then 0 else pad;
    var zeros := if c.zero && pad > 0 then pad else 0;
    var after := if c.minus then pad else 0;
    var field := Repeat('0', zeros) + (body + Repeat(' ', after));
    assert Rendered(v, isSigned, negative, b, c) == Repeat(' ', before) + (sign + (x + field)) by { Parts(v, isSigned, negative, b, c); }
    ReadField(zeros, body, after, b, v);
    AllBlank(before);
    SkipsBlanks(Repeat(' ', before), sign + (x + field));
    FieldStart(zeros, body, after, b);
    AfterSign(sign, x, field, b);
  }

  lemma Parts(v: nat, isSigned: bool, negative: bool, b: Base, c: Conversion)
    requires BaseOk(b)
    ensures var body, sign, x := Body(v, b, c), SignOf(isSigned, negative, c), PrefixOf(v, b, c);
      var pad := c.width - |body| - |x| - |sign|;
      var before := if c.minus || c.zero then 0 else pad;
      var zeros := if c.zero && pad > 0 then pad else 0;
      var after := if c.minus then pad else 0;
      Rendered(v, isSigned, negative, b, c) == Repeat(' ', before) + (sign + (x + (Repeat('0', zeros) + (body + Repeat(' ', after)))))
  {
    hide Body, SignOf, PrefixOf, Repeat;
    var body, sign, x := Body(v, b, c), SignOf(isSigned, negative, c), PrefixOf(v, b, c);
    var pad := c.width - |body| - |x| - |sign|;
    var p := Repeat(' ', if c.minus || c.zero then 0 else pad);
    var z := Repeat('0', if c.zero && pad > 0 then pad else 0);
    var q := Repeat(' ', if c.minus then pad else 0);
    NoPad(0);
    if pad < 0 {
      NoPad(pad);
    }
    Regroup(p, sign, x, z, body, q);
    assert "" + sign + x == sign + x;
    assert p + sign + x + "" == p + sign + x;
    assert p + sign + x + z + body + "" == p + sign + x + z + body;
  }

  lemma Regroup(p: string, sign: string, x: string, z: string, body: string, q: string)
    ensures p + sign + x + z + body + q == p + (sign + (x + (z + (body + q))))
  {
  }

  lemma AllBlank(n: int)
    ensures Blank(Repeat(' ', n))
  {
  }

  /** A field starts with a digit, or has none and is blank; its second character is no prefix. */
  ghost predicate FieldOk(field: string, b: Base) {
    && (field != "" ==> field[0] in b.digits || field[0] == ',' || Blank(field))
    && (2 <= |field| && b.x != NUL ==> field[1] != b.x)
  }

  lemma FieldStart(zeros: nat, body: string, after: int, b: Base)
    requires Legible(b) && Numeric(body, b)
    ensures FieldOk(Repeat('0', zeros) + (body + Repeat(' ', after)), b)
  {
    assert b.digits[0] in b.digits;
    var field := Repeat('0', zeros) + (body + Repeat(' ', after));
    assert forall i {:trigger field[i]} :: 0 <= i < |field| ==> field[i] == '0' || field[i] == ' ' || field[i] == ',' || field[i] in b.digits;
  }

  /** The field after its prefix, if there is one. */
  lemma AfterPrefix(x: string, field: string, b: Base)
    requires Legible(b) && FieldOk(field, b) && (x == "" || (b.x != NUL && x == ['0', b.x]))
    ensures SkipPrefix(x + field, b) == field
  {
    if x == "" {
      assert x + field == field;
    } else {
      assert (x + field)[2..] == field;
    }
  }

  /** Blanks before the field do not count. */
  lemma AfterBlanks(x: string, field: string, b: Base)
    requires Legible(b) && FieldOk(field, b) && (x == "" || (b.x != NUL && x == ['0', b.x]))
    ensures var t := SkipBlanks(x + field);
      && (t == "" || (t[0] != '-' && t[0] != '+')) && ReadDigits(SkipPrefix(t, b), b, 0) == ReadDigits(field, b, 0)
  {
    hide Legible;
    AfterPrefix(x, field, b);
    Starts(x, field, b);
    if x == "" && field != "" && field[0] == ' ' {
      SkipsBlanks(field, "");
      assert field + "" == field == x + field;
      BlankReads(field, b);
    }
  }

  lemma Starts(x: string, field: string, b: Base)
    requires Legible(b) && FieldOk(field, b) && (x == "" || x == ['0', b.x])
    ensures x + field != "" ==> (x + field)[0] != '-' && (x + field)[0] != '+'
    ensures x + field != "" && (x + field)[0] == ' ' ==> x == "" && Blank(field)
    ensures x + field == "" || (x + field)[0] != ' ' ==> SkipBlanks(x + field) == x + field
  {
    assert x == "" ==> x + field == field;
  }

  lemma BlankReads(field: string, b: Base)
    requires Legible(b) && Blank(field)
    ensures ReadDigits(field, b, 0) == 0 && ReadDigits(SkipPrefix("", b), b, 0) == 0
  {
  }

  lemma AfterSign(sign: string, x: string, field: string, b: Base)
    requires Legible(b) && FieldOk(field, b) && (x == "" || (b.x != NUL && x == ['0', b.x]))
    requires sign == "" || sign == " " || sign == "+" || sign == "-"
    ensures ReadNumber(sign + (x + field), b) == if sign == "-" then Negated(ReadDigits(field, b, 0)) else ReadDigits(field, b, 0)
  {
    hide Legible, FieldOk, ReadDigits, SkipPrefix;
    var s := sign + (x + field);
    AfterPrefix(x, field, b);
    AfterBlanks(x, field, b);
    if sign == "" {
      assert s == x + field;
    } else {
      assert s[1..] == x + field && s[0] == sign[0];
    }
  }
}
