/** `argument_stack` (userprog/process.c): the stack page as `_start` finds it. */
module ArgumentStack {
  import opened Common
  import opened Arguments

  /** A 32-bit word, least significant byte first. */
  function WordBytes(w: nat): (r: Bytes)
    ensures |r| == 4
  {
    [(w % 256) as Byte, (w / 256 % 256) as Byte, (w / 256 / 256 % 256) as Byte, (w / 256 / 256 / 256 % 256) as Byte]
  }

  /** The word stored at the start of s. */
  function WordAt(s: Bytes): nat
    requires 4 <= |s|
  {
    s[0] as int + s[1] as int * 256 + s[2] as int * 65536 + s[3] as int * 16777216
  }

  lemma WordRoundTrip(w: nat, tail: Bytes)
    requires w < 0x1_0000_0000
    ensures WordAt(WordBytes(w) + tail) == w
  {
    var q1 := w / 256;
    var q2 := q1 / 256;
    var q3 := q2 / 256;
    assert w == 256 * q1 + w % 256 && q1 == 256 * q2 + q1 % 256 && q2 == 256 * q3 + q2 % 256 && q3 % 256 == q3;
  }

  /** The strings from the i-th on, each with its null byte. */
  function Strings(parse: seq<Bytes>, i: nat): Bytes
    requires i <= |parse|
    decreases |parse| - i
  {
    if i == |parse| then [] else parse[i] + [0] + Strings(parse, i + 1)
  }

  function Padding(n: nat): (r: Bytes)
    ensures |r| < 4 && (n + |r|) % 4 == 0
  {
    if n % 4 == 0 then [] else seq(4 - n % 4, _ => 0)
  }

  /** Where the i-th string is. */
  function AddressOf(parse: seq<Bytes>, i: nat): int
    requires i <= |parse|
  {
    PHYS_BASE - |Strings(parse, i)|
  }

  /** Pointers to the strings from the i-th on. */
  function Pointers(parse: seq<Bytes>, i: nat): (r: Bytes)
    requires i <= |parse| && |Strings(parse, 0)| <= PGSIZE
    ensures |r| == 4 * (|parse| - i)
    decreases |parse| - i
  {
    if i == |parse| then []
    else
      StringsShrink(parse, i);
      WordBytes(AddressOf(parse, i)) + Pointers(parse, i + 1)
  }

  lemma {:induction false} StringsShrink(parse: seq<Bytes>, i: nat)
    requires i <= |parse|
    ensures |Strings(parse, i)| <= |Strings(parse, 0)|
    decreases i
  {
    if i > 0 {
      StringsShrink(parse, i - 1);
    }
  }

  /** Strings, padding and the null pointer that ends argv. */
  function Bottom(parse: seq<Bytes>): (r: Bytes)
    ensures |r| % 4 == 0
  {
    var strings := Strings(parse, 0);
    WordBytes(0) + (Padding(|strings|) + strings)
  }

  /** argv and what is above it. */
  function Argv(parse: seq<Bytes>): (r: Bytes)
    requires |Strings(parse, 0)| <= PGSIZE
    ensures |r| == 4 * |parse| + |Bottom(parse)|
  {
    Pointers(parse, 0) + Bottom(parse)
  }

  /** The whole frame: return address, argc, argv, and the vector itself. */
  function Frame(parse: seq<Bytes>): (r: Bytes)
    requires |Strings(parse, 0)| <= PGSIZE && |Argv(parse)| <= PGSIZE
    ensures |r| == 12 + |Argv(parse)|
  {
    WordBytes(0) + (WordBytes(|parse|) + (WordBytes(PHYS_BASE - |Argv(parse)|) + Argv(parse)))
  }

  /** The frame fits the page that `setup_stack` maps. */
  predicate Fits(parse: seq<Bytes>) {
    |Strings(parse, 0)| <= PGSIZE && 12 + |Argv(parse)| <= PGSIZE
  }

  class Stack {
    const page: array<Byte>
    var sp: nat   // offset of the stack pointer in the page

    ghost predicate Valid()
      reads this
    {
      page.Length == PGSIZE && sp <= PGSIZE
    }

    ghost function Content(): Bytes
      requires Valid()
      reads this, page
    {
      page[sp..]
    }

    /** `setup_stack`: the stack pointer is at the top. */
    constructor ()
      ensures Valid() && Content() == [] && fresh(page)
    {
      page := new Byte[PGSIZE](_ => 0);
      sp := PGSIZE;
    }

    method PushByte(b: Byte)
      requires Valid() && 0 < sp
      modifies this`sp, page
      ensures Valid() && Content() == [b] + old(Content()) && sp == old(sp) - 1
    {
      sp := sp - 1;
      page[sp] := b;
      assert page[sp..] == [b] + page[sp + 1..];
      assert page[sp + 1..] == old(page[sp..]);
    }

    method PushWord(w: nat)
      requires Valid() && 4 <= sp
      modifies this`sp, page
      ensures Valid() && Content() == WordBytes(w) + old(Content()) && sp == old(sp) - 4
    {
      PushByte((w / 256 / 256 / 256 % 256) as Byte);
      PushByte((w / 256 / 256 % 256) as Byte);
      PushByte((w / 256 % 256) as Byte);
      PushByte((w % 256) as Byte);
    }

    /** A string and its null byte, from the end. */
    method PushString(s: Bytes)
      requires Valid() && |s| < sp
      modifies this`sp, page
      ensures Valid() && Content() == s + [0] + old(Content()) && sp == old(sp) - |s| - 1
    {
      PushByte(0);
      var j := |s|;
      assert s[|s|..] + [0] + old(Content()) == Content();
      while j > 0
        invariant Valid() && 0 <= j <= |s| && sp == old(sp) - 1 - (|s| - j)
        invariant Content() == s[j..] + [0] + old(Content())
      {
        j := j - 1;
        ghost var was := Content();
        PushByte(s[j]);
        assert s[j..] == [s[j]] + s[j + 1..];
      }
      assert s[0..] == s;
    }

    /** `argument_stack`. */
    method PushArguments(parse: seq<Bytes>)
      requires Valid() && Content() == [] && Fits(parse)
      modifies this`sp, page
      ensures Valid() && Content() == Frame(parse)
    {
      hide WordBytes, Strings, Pointers, Padding;
      var addresses := PushStrings(parse);
      ghost var strings := Strings(parse, 0);
      PushPadding(strings);
      PushWord(0);
      assert Content() == Bottom(parse);
      PushPointers(parse, addresses);
      PushWord(PHYS_BASE - (PGSIZE - sp));
      PushWord(|parse|);
      PushWord(0);
    }

    /** The first loop: strings from the last to the first, noting where each lands. */
    method PushStrings(parse: seq<Bytes>) returns (addresses: seq<nat>)
      requires Valid() && Content() == [] && |Strings(parse, 0)| <= PGSIZE
      modifies this`sp, page
      ensures Valid() && Content() == Strings(parse, 0)
      ensures |addresses| == |parse| && forall i {:trigger addresses[i]} :: 0 <= i < |parse| ==> addresses[i] == AddressOf(parse, i)
    {
      hide Strings;
      var i := |parse|;
      addresses := [];
      StringsEnd(parse);
      while i > 0
        invariant Valid() && 0 <= i <= |parse| && Content() == Strings(parse, i)
        invariant |addresses| == |parse| - i
        invariant forall k {:trigger addresses[k]} :: 0 <= k < |addresses| ==> addresses[k] == AddressOf(parse, i + k)
      {
        i := i - 1;
        StringsShrink(parse, i);
        StringsNext(parse, i);
        PushString(parse[i]);
        addresses := [PHYS_BASE - (PGSIZE - sp)] + addresses;
      }
    }

    method PushPadding(ghost strings: Bytes)
      requires Valid() && Content() == strings && |strings| + 3 <= PGSIZE
      modifies this`sp, page
      ensures Valid() && Content() == Padding(|strings|) + strings
    {
      var total := PGSIZE - sp;
      if total % 4 != 0 {
        for k := 0 to 4 - total % 4
          invariant Valid() && sp == old(sp) - k && Content() == seq(k, _ => 0) + strings
        {
          PushByte(0);
          assert [0] + (seq(k, _ => 0) + strings) == seq(k + 1, _ => 0) + strings;
        }
      }
    }

    /** The second loop: the pointers, from the last to the first. */
    method PushPointers(parse: seq<Bytes>, addresses: seq<nat>)
      requires Valid() && |Strings(parse, 0)| <= PGSIZE && Content() == Bottom(parse) && 4 * |parse| <= sp
      requires |addresses| == |parse| && forall i {:trigger addresses[i]} :: 0 <= i < |parse| ==> addresses[i] == AddressOf(parse, i)
      modifies this`sp, page
      ensures Valid() && Content() == Argv(parse)
    {
      hide WordBytes, Strings, Pointers, Bottom, AddressOf;
      var i := |parse|;
      PointersEnd(parse);
      while i > 0
        invariant Valid() && 0 <= i <= |parse| && sp == old(sp) - 4 * (|parse| - i)
        invariant Content() == Pointers(parse, i) + Bottom(parse)
      {
        i := i - 1;
        PointersNext(parse, i);
        PushWord(addresses[i]);
      }
    }
  }

  lemma StringsEnd(parse: seq<Bytes>)
    ensures Strings(parse, |parse|) == []
  {
  }

  lemma StringsNext(parse: seq<Bytes>, i: nat)
    requires i < |parse|
    ensures Strings(parse, i) == parse[i] + [0] + Strings(parse, i + 1)
  {
  }

  lemma PointersEnd(parse: seq<Bytes>)
    requires |Strings(parse, 0)| <= PGSIZE
    ensures Pointers(parse, |parse|) + Bottom(parse) == Bottom(parse)
  {
  }

  lemma PointersNext(parse: seq<Bytes>, i: nat)
    requires i < |parse| && |Strings(parse, 0)| <= PGSIZE
    ensures 0 <= AddressOf(parse, i)
    ensures Pointers(parse, i) == WordBytes(AddressOf(parse, i)) + Pointers(parse, i + 1)
  {
    StringsShrink(parse, i);
  }

  // ---- What the new process reads

  /** The word, and the string, at an address of a stack that ends at PHYS_BASE. */
  function Load(content: Bytes, addr: int): nat
    requires PHYS_BASE - |content| <= addr <= PHYS_BASE - 4
  {
    WordAt(content[addr - (PHYS_BASE - |content|)..])
  }

  function StringAt(content: Bytes, addr: int): Bytes
    requires PHYS_BASE - |content| <= addr <= PHYS_BASE
  {
    CString(content[addr - (PHYS_BASE - |content|)..])
  }

  lemma LoadWord(content: Bytes, front: Bytes, w: nat, tail: Bytes)
    requires content == front + (WordBytes(w) + tail) && w < 0x1_0000_0000
    ensures Load(content, PHYS_BASE - |content| + |front|) == w
  {
    hide WordBytes, WordAt;
    WordRoundTrip(w, tail);
    assert content[|front|..] == WordBytes(w) + tail;
  }

  /** The strings from the i-th on are at the very end. */
  lemma {:induction false} StringsAtEnd(parse: seq<Bytes>, i: nat) returns (front: Bytes)
    requires i <= |parse|
    ensures Strings(parse, 0) == front + Strings(parse, i)
    decreases i
  {
    if i == 0 {
      front := [];
      assert [] + Strings(parse, 0) == Strings(parse, 0);
    } else {
      var f := StringsAtEnd(parse, i - 1);
      front := f + (parse[i - 1] + [0]);
      assert Strings(parse, 0) == f + (parse[i - 1] + [0] + Strings(parse, i));
    }
  }

  /** The pointers from the i-th on end the vector. */
  lemma {:induction false} PointersAtEnd(parse: seq<Bytes>, i: nat) returns (front: Bytes)
    requires i <= |parse| && |Strings(parse, 0)| <= PGSIZE
    ensures Pointers(parse, 0) == front + Pointers(parse, i) && |front| == 4 * i
    decreases i
  {
    hide WordBytes, Strings, Pointers, AddressOf;
    if i == 0 {
      front := [];
      assert [] + Pointers(parse, 0) == Pointers(parse, 0);
    } else {
      var f := PointersAtEnd(parse, i - 1);
      PointersNext(parse, i - 1);
      front := f + WordBytes(AddressOf(parse, i - 1));
      assert Pointers(parse, 0) == f + (WordBytes(AddressOf(parse, i - 1)) + Pointers(parse, i));
    }
  }

  /** The call frame that `_start` expects, at the start of f: a return address, the number of words,
      and a pointer to a vector of pointers to the words that a null pointer ends. */
  ghost predicate CallFrame(f: Bytes, words: seq<Bytes>) {
    var esp := PHYS_BASE - |f|;
    && 16 + 4 * |words| <= |f| && esp % 4 == 0
    && Load(f, esp) == 0 && Load(f, esp + 4) == |words| && Load(f, esp + 8) == esp + 12
    && Load(f, esp + 12 + 4 * |words|) == 0
    && forall i {:trigger words[i]} :: 0 <= i < |words| ==> Points(f, esp + 12 + 4 * i, words[i])
  }

  /** The word at an address points to a string. */
  ghost predicate Points(f: Bytes, addr: int, text: Bytes)
    requires PHYS_BASE - |f| <= addr <= PHYS_BASE - 4
  {
    PHYS_BASE - |f| <= Load(f, addr) <= PHYS_BASE && StringAt(f, Load(f, addr)) == text
  }

  lemma FrameSize(parse: seq<Bytes>)
    requires Fits(parse)
    ensures |Frame(parse)| == 12 + |Argv(parse)| && 16 + 4 * |parse| <= |Frame(parse)| <= PGSIZE
    ensures (PHYS_BASE - |Frame(parse)|) % 4 == 0
  {
    hide Strings, Pointers, WordBytes, Padding;
    assert PHYS_BASE % 4 == 0;
  }

  /** argc, argv and the return address. */
  lemma FrameHead(parse: seq<Bytes>, f: Bytes)
    requires Fits(parse) && f == Frame(parse)
    ensures 12 <= |f| && Load(f, PHYS_BASE - |f|) == 0 && Load(f, PHYS_BASE - |f| + 4) == |parse|
  {
    hide WordBytes, Load, Argv, Strings;
    FrameSize(parse);
    var argv := Argv(parse);
    var t3 := WordBytes(PHYS_BASE - |argv|) + argv;
    var t2 := WordBytes(|parse|) + t3;
    assert f == [] + (WordBytes(0) + t2);
    LoadWord(f, [], 0, t2);
    LoadWord(f, WordBytes(0), |parse|, t3);
  }

  lemma FrameArgv(parse: seq<Bytes>, f: Bytes)
    requires Fits(parse) && f == Frame(parse)
    ensures 12 <= |f| && Load(f, PHYS_BASE - |f| + 8) == PHYS_BASE - |f| + 12
  {
    hide WordBytes, Load, Argv, Strings;
    FrameSize(parse);
    var argv := Argv(parse);
    var head := WordBytes(0) + WordBytes(|parse|);
    assert f == head + (WordBytes(PHYS_BASE - |argv|) + argv);
    LoadWord(f, head, PHYS_BASE - |argv|, argv);
  }

  /** The i-th pointer leads to the i-th string. */
  lemma ArgvEntry(parse: seq<Bytes>, i: nat, f: Bytes)
    requires Fits(parse) && i < |parse| && 0 !in parse[i] && f == Frame(parse)
    ensures 16 + 4 * i <= |f| && Points(f, PHYS_BASE - |f| + 12 + 4 * i, parse[i])
  {
    hide WordBytes, Strings, Pointers, Load, Padding, StringAt;
    FrameSize(parse);
    var head := WordBytes(0) + WordBytes(|parse|) + WordBytes(PHYS_BASE - |Argv(parse)|);
    var p := PointersAtEnd(parse, i);
    PointersNext(parse, i);
    StringsShrink(parse, i);
    var a := AddressOf(parse, i);
    var tail := Pointers(parse, i + 1) + Bottom(parse);
    assert f == (head + p) + (WordBytes(a) + tail);
    LoadWord(f, head + p, a, tail);
    StringInFrame(parse, i);
  }

  lemma StringInFrame(parse: seq<Bytes>, i: nat)
    requires Fits(parse) && i < |parse| && 0 !in parse[i]
    ensures PHYS_BASE - |Frame(parse)| <= AddressOf(parse, i) <= PHYS_BASE
    ensures StringAt(Frame(parse), AddressOf(parse, i)) == parse[i]
  {
    hide WordBytes, Strings, Pointers, Padding;
    var f := Frame(parse);
    var front := StringsAtEnd(parse, i);
    StringsNext(parse, i);
    StringsShrink(parse, i);
    var s := Strings(parse, i);
    assert f[|f| - |s|..] == s;
    assert s[..|parse[i]|] == parse[i] && s[|parse[i]|] == 0;
    CStringOf(s, |parse[i]|);
  }

  /** argv ends with a null pointer. */
  lemma ArgvEnd(parse: seq<Bytes>, f: Bytes)
    requires Fits(parse) && f == Frame(parse)
    ensures 16 + 4 * |parse| <= |f| && Load(f, PHYS_BASE - |f| + 12 + 4 * |parse|) == 0
  {
    hide WordBytes, Strings, Pointers, Load, Padding;
    FrameSize(parse);
    var head := WordBytes(0) + WordBytes(|parse|) + WordBytes(PHYS_BASE - |Argv(parse)|);
    var strings := Strings(parse, 0);
    var tail := Padding(|strings|) + strings;
    assert f == (head + Pointers(parse, 0)) + (WordBytes(0) + tail);
    LoadWord(f, head + Pointers(parse, 0), 0, tail);
  }

  lemma {:induction false} TokensAreText(s: Bytes, delims: set<Byte>, i: nat)
    requires 0 !in s && i < |Tokens(s, delims)|
    ensures 0 !in Tokens(s, delims)[i] && Tokens(s, delims)[i] != [] && Plain(Tokens(s, delims)[i], delims)
    decreases |s|
  {
    if s[0] in delims {
      TokensAreText(s[1..], delims, i);
    } else if i > 0 {
      var rest := s[|Word(s, delims)|..];
      TokensAreText(rest, delims, i - 1);
      assert Tokens(s, delims)[i] == Tokens(rest, delims)[i - 1];
    }
  }

  /** The words of a command line. */
  function Words(line: Bytes): seq<Bytes> { Tokens(line, {SPACE}) }

  /** What `load` depends on besides the name: whether there is a page directory, whether the root
      directory opens, and whether a file of that name is found and can be loaded. */
  datatype Loading = Loading(pagedir: bool, rootOpens: bool, loads: bool)

  /** How a new process starts: Overrun is a word stored past the end of the array; Panic the failed
      assertion of `dir_lookup` that a name is given; Exits a program that could not be loaded; Spilled a
      frame that runs below the stack page. */
  datatype Start = Overrun | Panic | Exits | Spilled | Ready(stack: Stack)

  /** `start_process`, from the command line to the finished stack. */
  method StartProcess(buf: array<Byte>, loading: Loading) returns (r: Start)
    requires Terminated(buf[..], 0)
    modifies buf
    ensures r.Overrun? <==> |Words(Line(old(buf[..]), 0))| >= PARSE_SLOTS
    ensures r.Panic? <==> Words(Line(old(buf[..]), 0)) == [] && loading.pagedir && loading.rootOpens
    ensures r.Spilled? || r.Ready? <==>
      && 1 <= |Words(Line(old(buf[..]), 0))| < PARSE_SLOTS
      && loading.pagedir && loading.rootOpens && loading.loads
    ensures r.Spilled? ==> !Fits(Words(Line(old(buf[..]), 0)))
    ensures r.Ready? ==>
      && fresh(r.stack) && r.stack.Valid() && Fits(Words(Line(old(buf[..]), 0)))
      && r.stack.Content() == Frame(Words(Line(old(buf[..]), 0)))
  {
    hide Tokens, Line, Frame, Fits, Terminated, CString, Texts, HoldsWords;
    var parse := new Option<nat>[PARSE_SLOTS](_ => None);
    var count := Tokenize(buf, parse);
    if count.None? {
      return Overrun;
    }
    if !loading.pagedir {
      return Exits;
    }
    if count.value == 0 && loading.rootOpens {
      return Panic;
    }
    if !loading.rootOpens || !loading.loads {
      return Exits;
    }
    ghost var expected := Words(Line(old(buf[..]), 0));
    ghost var cut := buf[..];
    var words: seq<Bytes> := [];
    for i := 0 to count.value
      invariant buf[..] == cut && HoldsWords(parse[..], cut, expected) && words == expected[..i]
    {
      WordOf(parse[..], cut, expected, i);
      words := words + [CString(buf[..][parse[i].value..])];
    }
    assert words == expected;
    if !Fits(words) {
      return Spilled;
    }
    var stack := new Stack();
    stack.PushArguments(words);
    return Ready(stack);
  }

  lemma WordOf(parse: seq<Option<nat>>, buf: Bytes, words: seq<Bytes>, i: nat)
    requires HoldsWords(parse, buf, words) && i < |words|
    ensures i < |parse| && parse[i].Some? && parse[i].value <= |buf| && CString(buf[parse[i].value..]) == words[i]
  {
    hide CString;
    assert PointsTo(parse[i], buf, words[i]);
  }

  /** The frame of any words that fit is a call frame. */
  lemma FrameCalls(words: seq<Bytes>)
    requires Fits(words) && forall i {:trigger words[i]} :: 0 <= i < |words| ==> 0 !in words[i]
    ensures CallFrame(Frame(words), words)
  {
    hide Frame, Load, Points, Strings, Argv;
    var f := Frame(words);
    FrameSize(words);
    FrameHead(words, f);
    FrameArgv(words, f);
    ArgvEnd(words, f);
    forall i {:trigger words[i]} | 0 <= i < |words| ensures Points(f, PHYS_BASE - |f| + 12 + 4 * i, words[i]) {
      ArgvEntry(words, i, f);
    }
  }

  /** What `_start` finds for any command line of 1 to 99 words whose frame fits the page. */
  lemma ArgumentsArrive(line: Bytes)
    requires 0 !in line && Fits(Words(line)) && 0 < |Words(line)| < PARSE_SLOTS
    ensures CallFrame(Frame(Words(line)), Words(line))
  {
    hide Frame, Tokens, Fits, CallFrame;
    var words := Words(line);
    forall i {:trigger words[i]} | 0 <= i < |words| ensures 0 !in words[i] {
      TokensAreText(line, {SPACE}, i);
    }
    FrameCalls(words);
  }

  // ---- A line of no words

  /** A line has no words exactly if it is nothing but spaces. */
  lemma {:induction false} NoWords(line: Bytes)
    ensures Words(line) == [] <==> forall i {:trigger line[i]} :: 0 <= i < |line| ==> line[i] == SPACE
    decreases |line|
  {
    if line != [] && line[0] == SPACE {
      NoWords(line[1..]);
      assert line == [SPACE] + line[1..];
    }
  }

  /** An instance: a line of one space names no program. */
  lemma OneSpace()
    ensures 0 !in [SPACE] && Words([SPACE]) == []
  {
    NoWords([SPACE]);
  }

  // ---- A line of too many words

  /** n words of one letter. */
  function Letters(n: nat): Bytes {
    if n == 0 then [] else if n == 1 then [97] else [97, SPACE] + Letters(n - 1)
  }

  lemma {:induction false} LettersTokens(n: nat)
    ensures 0 !in Letters(n) && |Letters(n)| == if n == 0 then 0 else 2 * n - 1
    ensures Words(Letters(n)) == seq(n, _ => [97])
  {
    hide Tokens;
    if n == 0 {
      NoTokens({SPACE});
    } else {
      LettersTokens(n - 1);
      var rest := if n == 1 then [] else [SPACE] + Letters(n - 1);
      assert Letters(n) == [97] + rest;
      LettersRest(n, rest);
      FirstLetter(rest);
      assert seq(n, _ => [97]) == [[97]] + seq(n - 1, _ => [97]);
    }
  }

  lemma FirstLetter(rest: Bytes)
    requires rest != [] ==> rest[0] == SPACE
    ensures Words([97] + rest) == [[97]] + Words(rest)
  {
    var s := [97] + rest;
    assert s[1..] == rest && s[..1] == [97];
    WordStep(s, [97], {SPACE});
  }

  lemma LettersRest(n: nat, rest: Bytes)
    requires 0 < n && rest == if n == 1 then [] else [SPACE] + Letters(n - 1)
    ensures Words(rest) == Words(Letters(n - 1))
  {
    if n > 1 {
      assert rest[1..] == Letters(n - 1);
    }
  }

  lemma {:induction false} LettersFrame(words: seq<Bytes>, i: nat)
    requires i <= |words| && forall k {:trigger words[k]} :: 0 <= k < |words| ==> words[k] == [97]
    ensures |Strings(words, i)| == 2 * (|words| - i)
    decreases |words| - i
  {
    if i < |words| {
      LettersFrame(words, i + 1);
    }
  }

  /** A line of 100 one-letter words fits the stack page, but not the array. */
  lemma HundredWords()
    ensures |Letters(100)| == 199 && 0 !in Letters(100)
    ensures Fits(Words(Letters(100))) && |Frame(Words(Letters(100)))| == 616 && |Words(Letters(100))| >= PARSE_SLOTS
  {
    hide Tokens, Letters, Strings, Pointers;
    LettersTokens(100);
    LettersFrame(Words(Letters(100)), 0);
  }
}
