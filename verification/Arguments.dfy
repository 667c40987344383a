/** Passing a command line to a new process: `strtok_r` (lib/string.c) cuts it in place, and
    `argument_stack` (userprog/process.c) lays the call frame of `_start` out on the stack page. */
module Arguments {
  import opened Common

  const SPACE: Byte := 32
  const PARSE_SLOTS: nat := 100   // elements of the array that holds the words

  /** No byte is a delimiter. */
  ghost predicate Plain(s: Bytes, delims: set<Byte>) {
    forall i {:trigger s[i]} :: 0 <= i < |s| ==> s[i] !in delims
  }

  // ---- Tokens

  /** The bytes up to the first null byte. */
  function CString(s: Bytes): (r: Bytes)
    ensures |r| <= |s| && r == s[..|r|] && 0 !in r && (0 in s ==> |r| < |s| && s[|r|] == 0)
  {
    if s == [] || s[0] == 0 then [] else [s[0]] + CString(s[1..])
  }

  /** A word: what comes before the first delimiter. */
  function Word(s: Bytes, delims: set<Byte>): (r: Bytes)
    ensures |r| <= |s| && r == s[..|r|] && Plain(r, delims) && (|r| < |s| ==> s[|r|] in delims)
  {
    if s == [] || s[0] in delims then [] else [s[0]] + Word(s[1..], delims)
  }

  /** The words of a line. */
  function Tokens(s: Bytes, delims: set<Byte>): (r: seq<Bytes>)
    decreases |s|
  {
    if s == [] then []
    else if s[0] in delims then Tokens(s[1..], delims)
    else [Word(s, delims)] + Tokens(s[|Word(s, delims)|..], delims)
  }

  /** What is left of the line at a position of the buffer. */
  function Line(buf: Bytes, pos: nat): Bytes
    requires pos <= |buf|
  {
    CString(buf[pos..])
  }

  lemma LineStep(buf: Bytes, pos: nat)
    requires pos < |buf|
    ensures Line(buf, pos) == if buf[pos] == 0 then [] else [buf[pos]] + Line(buf, pos + 1)
  {
    assert buf[pos..][0] == buf[pos] && buf[pos..][1..] == buf[pos + 1..];
  }

  lemma {:induction false} CStringOf(s: Bytes, n: nat)
    requires n < |s| && s[n] == 0 && 0 !in s[..n]
    ensures CString(s) == s[..n]
  {
    if n > 0 {
      assert s[0] == s[..n][0];
      assert s[..n] == [s[0]] + s[1..][..n - 1];
      CStringOf(s[1..], n - 1);
    }
  }

  lemma WordStep(s: Bytes, t: Bytes, delims: set<Byte>)
    requires t <= s && Plain(t, delims) && (|t| < |s| ==> s[|t|] in delims)
    ensures Word(s, delims) == t
    decreases |t|
  {
    if t != [] {
      assert s[0] == t[0];
      assert t[1..] <= s[1..];
      WordStep(s[1..], t[1..], delims);
      assert t == [t[0]] + t[1..];
    }
  }

  /** Whether the null byte that ends the buffer is still ahead. */
  predicate Terminated(buf: Bytes, pos: nat) { pos <= |buf| && 0 in buf[pos..] }

  lemma TerminatedStep(buf: Bytes, pos: nat)
    requires Terminated(buf, pos)
    ensures pos < |buf| && (buf[pos] != 0 ==> Terminated(buf, pos + 1))
  {
    assert buf[pos..] == [buf[pos]] + buf[pos + 1..];
  }

  /** The first loop of `strtok_r`. */
  method SkipSpaces(buf: array<Byte>, start: nat, delims: set<Byte>) returns (s: nat)
    requires Terminated(buf[..], start) && 0 !in delims
    ensures start <= s < buf.Length && Terminated(buf[..], s) && buf[s] !in delims
    ensures start < buf.Length && (buf[start] !in delims ==> s == start)
    ensures Tokens(Line(buf[..], s), delims) == Tokens(Line(buf[..], start), delims)
  {
    s := start;
    TerminatedStep(buf[..], s);
    while buf[s] in delims
      invariant start <= s < buf.Length && Terminated(buf[..], s)
      invariant buf[start] !in delims ==> s == start
      invariant Tokens(Line(buf[..], s), delims) == Tokens(Line(buf[..], start), delims)
      decreases buf.Length - s
    {
      LineStep(buf[..], s);
      assert Line(buf[..], s)[1..] == Line(buf[..], s + 1);
      s := s + 1;
      TerminatedStep(buf[..], s);
    }
  }

  /** The second loop: to the end of the word. */
  method SkipWord(buf: array<Byte>, start: nat, delims: set<Byte>) returns (s: nat)
    requires Terminated(buf[..], start) && 0 !in delims
    ensures start <= s < buf.Length && (buf[s] in delims || buf[s] == 0) && Terminated(buf[..], s)
    ensures forall k {:trigger buf[k]} :: start <= k < s ==> buf[k] !in delims && buf[k] != 0
  {
    s := start;
    TerminatedStep(buf[..], s);
    while buf[s] !in delims && buf[s] != 0
      invariant start <= s < buf.Length && Terminated(buf[..], s)
      invariant forall k {:trigger buf[k]} :: start <= k < s ==> buf[k] !in delims && buf[k] != 0
      decreases buf.Length - s
    {
      s := s + 1;
      TerminatedStep(buf[..], s);
    }
  }

  /** A word at t that ends at e: it is the first token of the line, and the rest follows. */
  lemma {:induction false} FirstToken(buf: Bytes, t: nat, e: nat, delims: set<Byte>)
    requires t < e < |buf| && (buf[e] in delims || buf[e] == 0) && Terminated(buf, e)
    requires forall k {:trigger buf[k]} :: t <= k < e ==> buf[k] !in delims && buf[k] != 0
    ensures Line(buf, t) == buf[t..e] + Line(buf, e)
    ensures Tokens(Line(buf, t), delims) == [buf[t..e]] + Tokens(Line(buf, e), delims)
  {
    LineSplits(buf, t, e);
    var line, word := Line(buf, t), buf[t..e];
    LineStep(buf, e);
    assert line[..|word|] == word;
    WordStep(line, word, delims);
    assert line[0] == word[0];
    assert line[|word|..] == Line(buf, e);
  }

  lemma {:induction false} LineSplits(buf: Bytes, t: nat, e: nat)
    requires t <= e <= |buf| && forall k {:trigger buf[k]} :: t <= k < e ==> buf[k] != 0
    ensures Line(buf, t) == buf[t..e] + Line(buf, e)
    decreases e - t
  {
    hide Line, CString;
    if t < e {
      LineStep(buf, t);
      LineSplits(buf, t + 1, e);
      assert buf[t..e] == [buf[t]] + buf[t + 1..e];
    }
  }

  /** The rest of the line after a delimiter is cut off. */
  lemma AfterSpace(buf: Bytes, e: nat, delims: set<Byte>)
    requires e < |buf| && buf[e] in delims && buf[e] != 0 && Terminated(buf, e)
    ensures Tokens(Line(buf, e), delims) == Tokens(Line(buf[e := 0], e + 1), delims) && Terminated(buf[e := 0], e + 1)
  {
    TerminatedStep(buf, e);
    LineStep(buf, e);
    assert Line(buf, e)[1..] == Line(buf, e + 1);
    assert buf[e := 0][e + 1..] == buf[e + 1..];
  }

  lemma TextAt(buf: Bytes, t: nat, e: nat)
    requires t <= e < |buf| && buf[e] == 0 && forall k {:trigger buf[k]} :: t <= k < e ==> buf[k] != 0
    ensures Line(buf, t) == buf[t..e]
  {
    LineSplits(buf, t, e);
    LineStep(buf, e);
  }

  /** `strtok_r`: the next token as a position, or none. Only bytes from `start` on can
      change; the token ends before the saved position, or at the end of the line, which is there. */
  method StrtokR(buf: array<Byte>, start: nat, delims: set<Byte>) returns (token: Option<nat>, save: nat)
    requires Terminated(buf[..], start) && 0 !in delims
    modifies buf
    ensures start <= save < buf.Length && Terminated(buf[..], save)
    ensures buf[..start] == old(buf[..start])
    ensures token.None? ==> Tokens(Line(old(buf[..]), start), delims) == [] && buf[..] == old(buf[..])
    ensures old(buf[start]) == 0 ==> token.None?
    ensures token.Some? ==> start <= token.value < save && EndsBy(buf[..], token.value, save)
    ensures token.Some? ==>
      Tokens(Line(old(buf[..]), start), delims) == [Line(buf[..], token.value)] + Tokens(Line(buf[..], save), delims)
  {
    hide Tokens, Line, Terminated, EndsBy;
    var t := SkipSpaces(buf, start, delims);
    if buf[t] == 0 {
      LineStep(buf[..], t);
      NoTokens(delims);
      return None, t;
    }
    var e := SkipWord(buf, t, delims);
    token := Some(t);
    if buf[e] != 0 {
      buf[e] := 0;
      save := e + 1;
      assert buf[..] == old(buf[..])[e := 0];
    } else {
      save := e;
    }
    CutWord(old(buf[..]), t, e, buf[..], save, delims);
  }

  /** A word cut off at the byte that ends it. */
  lemma CutWord(buf: Bytes, t: nat, e: nat, buf': Bytes, save: nat, delims: set<Byte>)
    requires t < e < |buf| && Terminated(buf, e)
    requires forall k {:trigger buf[k]} :: t <= k < e ==> buf[k] !in delims && buf[k] != 0
    requires if buf[e] == 0 then buf' == buf && save == e else buf[e] in delims && buf' == buf[e := 0] && save == e + 1
    ensures save < |buf| && Terminated(buf', save) && EndsBy(buf', t, save)
    ensures Tokens(Line(buf, t), delims) == [Line(buf', t)] + Tokens(Line(buf', save), delims)
  {
    hide Tokens, Line, Terminated, EndsBy;
    FirstToken(buf, t, e, delims);
    assert buf'[t..e] == buf[t..e];
    TextAt(buf', t, e);
    if buf[e] != 0 {
      AfterSpace(buf, e, delims);
      TerminatedStep(buf', save);
    }
    WordEnds(buf', t, e, save);
  }

  lemma NoTokens(delims: set<Byte>)
    ensures Tokens([], delims) == []
  {
  }

  /** The text at t has its null byte before `save`, or at it. */
  ghost predicate EndsBy(buf: Bytes, t: nat, save: nat) {
    t < save < |buf| && (0 in buf[t..save] || buf[save] == 0)
  }

  lemma WordEnds(buf: Bytes, t: nat, e: nat, save: nat)
    requires t < e < |buf| && buf[e] == 0 && e <= save <= e + 1 && save < |buf|
    ensures EndsBy(buf, t, save)
  {
    if save == e + 1 {
      assert buf[t..save][e - t] == 0;
    }
  }

  /** Texts that ended before `save` stay when only later bytes change. */
  lemma TextKept(buf: Bytes, buf': Bytes, t: nat, save: nat)
    requires EndsBy(buf, t, save) && |buf'| == |buf| && buf'[..save] == buf[..save] && buf[save] != 0
    ensures Line(buf', t) == Line(buf, t) && 0 in buf'[t..save]
  {
    var n :| 0 <= n < save - t && buf[t..save][n] == 0;
    assert buf[t..save] == buf'[t..save] by { assert buf[..save][t..] == buf[t..save] && buf'[..save][t..] == buf'[t..save]; }
    LineOfPrefix(buf, t, save);
    LineOfPrefix(buf', t, save);
  }

  lemma {:induction false} LineOfPrefix(buf: Bytes, t: nat, save: nat)
    requires t <= save <= |buf| && 0 in buf[t..save]
    ensures Line(buf, t) == CString(buf[t..save])
    decreases save - t
  {
    var s := buf[t..save];
    LineStep(buf, t);
    if buf[t] != 0 {
      assert s == [buf[t]] + buf[t + 1..save];
      LineOfPrefix(buf, t + 1, save);
      assert s[1..] == buf[t + 1..save];
    }
  }

  /** The texts at given positions. */
  ghost function Texts(buf: Bytes, parse: seq<nat>): (r: seq<Bytes>)
    requires Placed(parse, |buf|)
    ensures |r| == |parse| && forall i {:trigger r[i]} :: 0 <= i < |parse| ==> r[i] == Line(buf, parse[i])
  {
    seq(|parse|, i requires 0 <= i < |parse| => Line(buf, parse[i]))
  }

  /** All texts end by `save`. */
  ghost predicate AllEnd(buf: Bytes, parse: seq<nat>, save: nat) {
    forall i {:trigger parse[i]} :: 0 <= i < |parse| ==> EndsBy(buf, parse[i], save)
  }

  lemma TextsKept(buf: Bytes, buf': Bytes, parse: seq<nat>, save: nat, save': nat, t: nat)
    requires AllEnd(buf, parse, save) && |buf'| == |buf| && save < |buf| && buf'[..save] == buf[..save] && buf[save] != 0
    requires save <= t && EndsBy(buf', t, save')
    ensures AllEnd(buf', parse + [t], save') && forall i {:trigger parse[i]} :: 0 <= i < |parse| ==> Line(buf', parse[i]) == Line(buf, parse[i])
  {
    hide Line;
    forall i {:trigger parse[i]} | 0 <= i < |parse| ensures Line(buf', parse[i]) == Line(buf, parse[i]) && EndsBy(buf', parse[i], save') {
      TextKept(buf, buf', parse[i], save);
      assert buf'[parse[i]..save'] == buf'[parse[i]..save] + buf'[save..save'];
    }
  }

  /** The loop of `start_process`, over its array of 100 elements: it stores past the end exactly for a
      line of 100 words or more. Otherwise the array holds, in order, where the words are, then a null
      pointer; and the texts found there are the words, though the buffer was cut under them. */
  method Tokenize(buf: array<Byte>, parse: array<Option<nat>>) returns (count: Option<nat>)
    requires Terminated(buf[..], 0) && parse.Length == PARSE_SLOTS
    modifies buf, parse
    ensures var words := Tokens(Line(old(buf[..]), 0), {SPACE});
      && (count.None? <==> |words| >= PARSE_SLOTS)
      && (count.Some? ==> count.value == |words| && HoldsWords(parse[..], buf[..], words))
  {
    hide Tokens, Line, Terminated, EndsBy, AllEnd, Texts, HoldsWords;
    ghost var words := Tokens(Line(old(buf[..]), 0), {SPACE});
    var token, save := StrtokR(buf, 0, {SPACE});
    ghost var found: seq<nat> := [];
    var n := 0;
    parse[n] := token;
    if token.Some? {
      OneText(buf[..], token.value, save);
    }
    NoTexts(buf[..]);
    while token.Some?
      invariant n == |found| < parse.Length && parse[n] == token && Recorded(parse[..], found)
      invariant token.Some? ==> save < buf.Length && Terminated(buf[..], save) && AllEnd(buf[..], found + [token.value], save)
      invariant Placed(found, buf.Length) && (token.Some? ==> Placed(found + [token.value], buf.Length))
      invariant words == if token.Some? then Texts(buf[..], found + [token.value]) + Tokens(Line(buf[..], save), {SPACE}) else Texts(buf[..], found)
      decreases if token.Some? then buf.Length + 1 - save else 0
    {
      found := found + [token.value];
      n := n + 1;
      ghost var before, from := buf[..], save;
      token, save := StrtokR(buf, save, {SPACE});
      if token.Some? {
        NextToken(before, buf[..], found, from, token.value, save);
      } else {
        assert Texts(before, found) + [] == Texts(before, found);
      }
      if n == parse.Length {
        return None;
      }
      parse[n] := token;
    }
    Held(parse[..], buf[..], found, words);
    return Some(n);
  }

  /** The positions found so far are at the front of the array. */
  ghost predicate Recorded(parse: seq<Option<nat>>, found: seq<nat>) {
    |found| <= |parse| && forall i {:trigger found[i]} :: 0 <= i < |found| ==> parse[i] == Some(found[i])
  }

  /** An element of the array points to a word. */
  ghost predicate PointsTo(p: Option<nat>, buf: Bytes, word: Bytes) {
    p.Some? && p.value <= |buf| && Line(buf, p.value) == word
  }

  /** The array holds where the words are, then a null pointer. */
  ghost predicate HoldsWords(parse: seq<Option<nat>>, buf: Bytes, words: seq<Bytes>) {
    && |words| < |parse| && parse[|words|] == None
    && forall i {:trigger parse[i]} :: 0 <= i < |words| ==> PointsTo(parse[i], buf, words[i])
  }

  lemma Held(parse: seq<Option<nat>>, buf: Bytes, found: seq<nat>, words: seq<Bytes>)
    requires Recorded(parse, found) && |found| < |parse| && parse[|found|] == None && Placed(found, |buf|)
    requires words == Texts(buf, found)
    ensures HoldsWords(parse, buf, words)
  {
    hide CString, Texts;
    forall i {:trigger parse[i]} | 0 <= i < |words| ensures PointsTo(parse[i], buf, words[i]) {
      assert parse[i] == Some(found[i]);
    }
  }

  lemma NoTexts(buf: Bytes)
    ensures Texts(buf, []) == []
  {
  }

  ghost predicate Placed(parse: seq<nat>, n: nat) {
    forall i {:trigger parse[i]} :: 0 <= i < |parse| ==> parse[i] <= n
  }

  lemma OneText(buf: Bytes, t: nat, save: nat)
    requires EndsBy(buf, t, save)
    ensures AllEnd(buf, [] + [t], save) && Placed([] + [t], |buf|) && Texts(buf, [] + [t]) == [Line(buf, t)]
  {
    hide Line;
  }

  lemma NextToken(buf: Bytes, buf': Bytes, parse: seq<nat>, save: nat, t: nat, save': nat)
    requires AllEnd(buf, parse, save) && Placed(parse, |buf|) && |buf'| == |buf| && save < |buf|
    requires buf'[..save] == buf[..save] && buf[save] != 0 && save <= t && EndsBy(buf', t, save')
    ensures AllEnd(buf', parse + [t], save') && Placed(parse + [t], |buf|)
    ensures Texts(buf', parse + [t]) == Texts(buf, parse) + [Line(buf', t)]
  {
    hide Line;
    TextsKept(buf, buf', parse, save, save', t);
  }
}
