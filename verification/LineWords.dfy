/** What the words of a line are: the runs without delimiters, in order. Any line is its words with
    delimiters between them, in one way only. */
module LineWords {
  import opened Common
  import opened Arguments

  /** Nothing but delimiters. */
  ghost predicate Gap(s: Bytes, delims: set<Byte>) { forall i {:trigger s[i]} :: 0 <= i < |s| ==> s[i] in delims }

  /** A gap before each word, and one after the last. */
  function Joined(words: seq<Bytes>, gaps: seq<Bytes>): Bytes
    requires |gaps| == |words| + 1
  {
    if words == [] then gaps[0] else gaps[0] + (words[0] + Joined(words[1..], gaps[1..]))
  }

  /** Words are not empty and have no delimiters; gaps are delimiters, at least one between two words. */
  ghost predicate Parts(words: seq<Bytes>, gaps: seq<Bytes>, delims: set<Byte>) {
    && |gaps| == |words| + 1
    && (forall i {:trigger words[i]} :: 0 <= i < |words| ==> words[i] != [] && Plain(words[i], delims))
    && (forall i {:trigger gaps[i]} :: 0 <= i < |gaps| ==> Gap(gaps[i], delims) && (0 < i < |words| ==> gaps[i] != []))
  }

  lemma {:induction false} SkipGap(gap: Bytes, s: Bytes, delims: set<Byte>)
    requires Gap(gap, delims)
    ensures Tokens(gap + s, delims) == Tokens(s, delims)
    decreases |gap|
  {
    if gap == [] {
      assert gap + s == s;
    } else {
      assert (gap + s)[0] == gap[0] && (gap + s)[1..] == gap[1..] + s;
      SkipGap(gap[1..], s, delims);
    }
  }

  lemma OneWord(w: Bytes, rest: Bytes, delims: set<Byte>)
    requires w != [] && Plain(w, delims) && (rest != [] ==> rest[0] in delims)
    ensures Tokens(w + rest, delims) == [w] + Tokens(rest, delims)
  {
    var s := w + rest;
    assert s[0] == w[0] && s[..|w|] == w && s[|w|..] == rest;
    WordStep(s, w, delims);
  }

  /** The rest of a line after a word starts with a delimiter. */
  lemma RestStarts(words: seq<Bytes>, gaps: seq<Bytes>, delims: set<Byte>)
    requires Parts(words, gaps, delims) && (words != [] ==> gaps[0] != [])
    ensures Joined(words, gaps) != [] ==> Joined(words, gaps)[0] in delims
  {
    assert Gap(gaps[0], delims);
  }

  lemma PartsRest(words: seq<Bytes>, gaps: seq<Bytes>, delims: set<Byte>)
    requires Parts(words, gaps, delims) && words != []
    ensures Parts(words[1..], gaps[1..], delims) && (words[1..] != [] ==> gaps[1..][0] != [])
  {
    assert forall i {:trigger words[1..][i]} :: 0 <= i < |words| - 1 ==> words[1..][i] == words[i + 1];
    assert forall i {:trigger gaps[1..][i]} :: 0 <= i < |gaps| - 1 ==> gaps[1..][i] == gaps[i + 1];
  }

  /** Words put together with gaps are found again, whatever the gaps. */
  lemma {:induction false} WordsOfJoined(words: seq<Bytes>, gaps: seq<Bytes>, delims: set<Byte>)
    requires Parts(words, gaps, delims)
    ensures Tokens(Joined(words, gaps), delims) == words
    decreases |words|
  {
    hide Tokens;
    assert Gap(gaps[0], delims);
    if words == [] {
      assert gaps[0] + [] == gaps[0];
      SkipGap(gaps[0], [], delims);
      NoTokens(delims);
    } else {
      PartsRest(words, gaps, delims);
      WordsOfJoined(words[1..], gaps[1..], delims);
      RestStarts(words[1..], gaps[1..], delims);
      var rest := Joined(words[1..], gaps[1..]);
      assert words[0] != [] && Plain(words[0], delims);
      OneWord(words[0], rest, delims);
      SkipGap(gaps[0], words[0] + rest, delims);
      assert words == [words[0]] + words[1..];
    }
  }

  /** And every line is made like that. */
  lemma {:induction false} LineIsJoined(s: Bytes, delims: set<Byte>) returns (gaps: seq<Bytes>)
    ensures Parts(Tokens(s, delims), gaps, delims) && Joined(Tokens(s, delims), gaps) == s
    ensures s != [] && s[0] in delims ==> gaps[0] != []
    decreases |s|
  {
    if s == [] {
      gaps := [[]];
    } else if s[0] in delims {
      var g := LineIsJoined(s[1..], delims);
      gaps := [[s[0]] + g[0]] + g[1..];
      Widened(Tokens(s[1..], delims), g, s[0], gaps, delims);
      assert s == [s[0]] + s[1..];
    } else {
      var w := Word(s, delims);
      var rest := s[|w|..];
      var g := LineIsJoined(rest, delims);
      gaps := [[]] + g;
      var words := Tokens(rest, delims);
      assert gaps[1..] == g && Tokens(s, delims) == [w] + words && ([w] + words)[1..] == words;
      Longer(w, words, g, gaps, delims);
      assert s == w + rest && [] + (w + rest) == w + rest;
    }
  }

  lemma Widened(words: seq<Bytes>, g: seq<Bytes>, c: Byte, gaps: seq<Bytes>, delims: set<Byte>)
    requires Parts(words, g, delims) && c in delims && gaps == [[c] + g[0]] + g[1..]
    ensures Parts(words, gaps, delims) && Joined(words, gaps) == [c] + Joined(words, g)
  {
    hide Joined;
    assert Gap(g[0], delims) && Gap(gaps[0], delims);
    assert forall i {:trigger gaps[i]} :: 0 < i < |gaps| ==> gaps[i] == g[i];
    hide Gap;
    WidenedText(words, g, c, gaps);
  }

  lemma WidenedText(words: seq<Bytes>, g: seq<Bytes>, c: Byte, gaps: seq<Bytes>)
    requires |g| == |words| + 1 && gaps == [[c] + g[0]] + g[1..]
    ensures Joined(words, gaps) == [c] + Joined(words, g)
  {
    assert gaps[1..] == g[1..];
  }

  lemma Longer(w: Bytes, words: seq<Bytes>, g: seq<Bytes>, gaps: seq<Bytes>, delims: set<Byte>)
    requires Parts(words, g, delims) && w != [] && Plain(w, delims) && gaps == [[]] + g && (words != [] ==> g[0] != [])
    ensures Parts([w] + words, gaps, delims)
  {
    var all := [w] + words;
    assert forall i {:trigger all[i]} :: 0 < i < |all| ==> all[i] == words[i - 1];
    assert forall i {:trigger gaps[i]} :: 0 < i < |gaps| ==> gaps[i] == g[i - 1];
  }
}
