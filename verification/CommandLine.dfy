/** `process_execute` (userprog/process.c) up to the new thread: the command line is copied into a page
    of its own, and its first word into an array for the thread's name. */
module CommandLine {
  import opened Common
  import opened Arguments
  import opened ArgumentStack

  const NAME_SLOTS: nat := 128   // elements of the array that holds the first word

  /** What comes before the first space, if any. */
  function FirstWord(src: Bytes): Bytes { Word(CString(src), {SPACE}) }

  /** As much of a text as a page holds, with a null byte. */
  function Truncated(text: Bytes): Bytes { if |text| < PGSIZE then text else text[..PGSIZE - 1] }

  /** `strlen`. */
  method Strlen(src: Bytes) returns (len: nat)
    requires 0 in src
    ensures len == |CString(src)|
  {
    len := 0;
    assert src[0..] == src;
    while src[len] != 0
      invariant len < |src| && 0 in src[len..] && 0 !in src[..len]
      decreases |src| - len
    {
      assert src[len..] == [src[len]] + src[len + 1..];
      len := len + 1;
    }
    CStringOf(src, len);
  }

  /** `strlcpy`: as much of the text as fits, always with a null byte, and nothing changed after it. */
  method Strlcpy(dst: array<Byte>, src: Bytes, size: nat) returns (len: nat)
    requires 0 in src && size <= dst.Length
    modifies dst
    ensures len == |CString(src)|
    ensures size == 0 ==> dst[..] == old(dst[..])
    ensures 0 < size ==>
      var n := if len < size then len else size - 1;
      CString(dst[..]) == CString(src)[..n] && dst[n] == 0 && dst[n + 1..] == old(dst[n + 1..])
  {
    len := Strlen(src);
    if 0 < size {
      var n := size - 1;
      if len < n {
        n := len;
      }
      for i := 0 to n
        invariant dst[..i] == src[..i] && dst[i..] == old(dst[i..])
      {
        dst[i] := src[i];
      }
      dst[n] := 0;
      assert CString(src)[..n] == src[..n] == dst[..n];
      CStringOf(dst[..], n);
    }
  }

  /** The loop over the first word; false if a byte is stored past the end of the array, which happens
      exactly if the word has as many bytes as the array or more. */
  method CopyName(dst: array<Byte>, src: Bytes) returns (inRange: bool)
    requires 0 in src
    modifies dst
    ensures inRange <==> |FirstWord(src)| < dst.Length
    ensures inRange ==> CString(dst[..]) == FirstWord(src)
  {
    hide Word, CString, Line;
    var index := 0;
    assert src[0..] == src;
    while src[index] != SPACE && src[index] != 0
      invariant index < |src| && index <= dst.Length && 0 in src[index..]
      invariant forall k {:trigger src[k]} :: 0 <= k < index ==> src[k] != SPACE && src[k] != 0
      invariant dst[..index] == src[..index]
      decreases |src| - index
    {
      if index == dst.Length {
        WordAtLeast(src, index);
        return false;
      }
      assert src[index..] == [src[index]] + src[index + 1..];
      dst[index] := src[index];
      index := index + 1;
    }
    WordEnds(src, index);
    if index == dst.Length {
      return false;
    }
    dst[index] := 0;
    assert dst[..index] == src[..index];
    CStringOf(dst[..], index);
    return true;
  }

  /** A word goes on as long as there is neither a space nor a null byte. */
  lemma WordAtLeast(src: Bytes, n: nat)
    requires n < |src| && 0 in src[n..] && src[n] != SPACE && src[n] != 0
    requires forall k {:trigger src[k]} :: 0 <= k < n ==> src[k] != SPACE && src[k] != 0
    ensures n < |FirstWord(src)|
  {
    hide CString, Word;
    LineSplits(src, 0, n + 1);
    assert src[0..] == src;
  }

  lemma WordEnds(src: Bytes, n: nat)
    requires n < |src| && (src[n] == SPACE || src[n] == 0)
    requires forall k {:trigger src[k]} :: 0 <= k < n ==> src[k] != SPACE && src[k] != 0
    ensures FirstWord(src) == src[..n]
  {
    hide CString, Word;
    LineSplits(src, 0, n);
    LineStep(src, n);
    assert src[0..] == src && src[0..n] == src[..n];
    WordStep(CString(src), src[..n], {SPACE});
  }

  /** What `process_execute` hands to the new thread: NoPage is its return for want of a page, NameOverrun a
      byte of the name stored past the end of the array. */
  datatype Handed = NoPage | NameOverrun | Handed(line: array<Byte>, name: Bytes)

  /** `process_execute` up to `thread_create`. */
  method ProcessExecute(fileName: Bytes, page: array?<Byte>) returns (r: Handed)
    requires 0 in fileName && (page != null ==> page.Length == PGSIZE)
    modifies page
    ensures r.NoPage? <==> page == null
    ensures r.NameOverrun? <==> page != null && |FirstWord(fileName)| >= NAME_SLOTS
    ensures r.Handed? ==>
      && r.line == page && r.name == FirstWord(fileName)
      && Terminated(page[..], 0) && Line(page[..], 0) == Truncated(CString(fileName))
  {
    if page == null {
      return NoPage;
    }
    var len := Strlcpy(page, fileName, PGSIZE);
    assert page[..][0..] == page[..];
    ghost var n := if len < PGSIZE then len else PGSIZE - 1;
    assert page[..][n] == 0;
    var name := new Byte[NAME_SLOTS](_ => 0);
    var inRange := CopyName(name, fileName);
    if !inRange {
      return NameOverrun;
    }
    return Handed(page, CString(name[..]));
  }

  /** An instance: a line that is one word of 128 letters overruns the array for the name, while all of
      it fits the page, the array of words and the stack. */
  lemma LongName(src: Bytes)
    requires src == seq(128, _ => 97) + [0]
    ensures |FirstWord(src)| >= NAME_SLOTS
    ensures Words(CString(src)) == [src[..128]] && Fits([src[..128]])
  {
    WordEnds(src, 128);
    CStringOf(src, 128);
    var text := src[..128];
    WordStep(text, text, {SPACE});
    assert text[|text|..] == [];
    assert Word(text, {SPACE}) == text && text[0] == 97;
    assert Tokens(text, {SPACE}) == [text] + Tokens([], {SPACE});
    assert |Strings([text], 1)| == 0;
  }
}
