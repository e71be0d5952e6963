/**
 skip_trailing_space of metadata/include/mysql/m_string.h: a backward scan that reads a word
 at a time where it can.  Pointers are addresses; the buffer's first byte is at `ptr`.
 */
module SkipSpace {

  type Byte = b: int | 0 <= b < 256

  const SPACE: Byte := 0x20

  /** The word sizes for which the header defines SPACE_INT; any other stops the compilation. */
  predicate IsWordSize(size: nat) {
    size == 4 || size == 8
  }

  /** A multiple of the word size. */
  predicate Aligned(address: nat, size: nat)
    requires IsWordSize(size)
  {
    if address < size then address == 0 else Aligned(address - size, size)
  }

  lemma {:induction false} AlignedIsMultiple(address: nat, size: nat)
    requires IsWordSize(size)
    ensures Aligned(address, size) <==> address % size == 0
  {
    if address >= size {
      AlignedIsMultiple(address - size, size);
      if size == 4 {
        assert address % 4 == (address - 4) % 4;
      } else {
        assert address % 8 == (address - 8) % 8;
      }
    }
  }

  /** SPACE_INT. */
  function SpaceWord(size: nat): nat
    requires IsWordSize(size)
  {
    if size == 4 then 0x20202020 else 0x2020202020202020
  }

  /** The unsigned value of consecutive bytes, lowest address first. */
  function WordOf(bytes: seq<Byte>): nat {
    if bytes == [] then 0 else bytes[0] + 256 * WordOf(bytes[1..])
  }

  predicate AllSpaces(bytes: seq<Byte>) {
    forall i | 0 <= i < |bytes| :: bytes[i] == SPACE
  }

  // ---------------------------------------------------------- the plain scan

  /** How much is left when trailing spaces are dropped one by one. */
  function Trimmed(text: seq<Byte>): (n: nat)
    ensures n <= |text|
  {
    if text != [] && text[|text| - 1] == SPACE then Trimmed(text[..|text| - 1]) else |text|
  }

  /** Everything from n on is a space. */
  predicate SpacesFrom(text: seq<Byte>, n: int) {
    0 <= n <= |text| && forall i | n <= i < |text| :: text[i] == SPACE
  }

  /** Only spaces are dropped, and all of them. */
  lemma {:induction false} TrimmedIsLongest(text: seq<Byte>, n: nat)
    requires n <= |text|
    ensures n == Trimmed(text) <==> SpacesFrom(text, n) && (n > 0 ==> text[n - 1] != SPACE)
  {
    if text != [] && text[|text| - 1] == SPACE {
      var shorter := text[..|text| - 1];
      if n < |text| {
        TrimmedIsLongest(shorter, n);
        assert SpacesFrom(shorter, n) <==> SpacesFrom(text, n) by {
          assert forall i | 0 <= i < |shorter| :: shorter[i] == text[i];
        }
      }
    }
  }

  // ---------------------------------------------------------- words of spaces

  /** Two byte strings of one length with the same value are the same. */
  lemma {:induction false} WordDetermines(a: seq<Byte>, b: seq<Byte>)
    requires |a| == |b| && WordOf(a) == WordOf(b)
    ensures a == b
  {
    if a != [] {
      assert a[0] == b[0] && WordOf(a[1..]) == WordOf(b[1..]);
      WordDetermines(a[1..], b[1..]);
      assert a == [a[0]] + a[1..] && b == [b[0]] + b[1..];
    }
  }

  lemma Prepend(word: seq<Byte>)
    ensures WordOf([SPACE] + word) == 0x20 + 256 * WordOf(word)
  {
    assert ([SPACE] + word)[1..] == word;
  }

  function Spaces(n: nat): (s: seq<Byte>)
    ensures |s| == n && AllSpaces(s)
  {
    if n == 0 then [] else [SPACE] + Spaces(n - 1)
  }

  lemma SpaceWords()
    ensures WordOf(Spaces(4)) == 0x20202020 && WordOf(Spaces(8)) == 0x2020202020202020
  {
    Prepend(Spaces(0));
    Prepend(Spaces(1));
    Prepend(Spaces(2));
    Prepend(Spaces(3));
    Prepend(Spaces(4));
    Prepend(Spaces(5));
    Prepend(Spaces(6));
    Prepend(Spaces(7));
  }

  /** A word compares equal to SPACE_INT exactly when all its bytes are spaces. */
  lemma SpaceWordIffSpaces(word: seq<Byte>)
    requires IsWordSize(|word|)
    ensures WordOf(word) == SpaceWord(|word|) <==> AllSpaces(word)
  {
    SpaceWords();
    assert AllSpaces(word) <==> word == Spaces(|word|);
    if WordOf(word) == SpaceWord(|word|) {
      WordDetermines(word, Spaces(|word|));
    }
  }

  // ---------------------------------------------------------- the three loops

  function RoundDown(address: nat, size: nat): nat
    requires IsWordSize(size)
  {
    if size == 4 then address / 4 * 4 else address / 8 * 8
  }

  function RoundUp(address: nat, size: nat): nat
    requires IsWordSize(size)
  {
    RoundDown(address + size - 1, size)
  }

  /** Rounded addresses are aligned, and close. */
  lemma RoundingDown(address: nat, size: nat)
    requires IsWordSize(size)
    ensures Aligned(RoundDown(address, size), size)
    ensures RoundDown(address, size) <= address < RoundDown(address, size) + size
  {
    AlignedIsMultiple(RoundDown(address, size), size);
    if size == 4 {
      assert address / 4 * 4 % 4 == 0;
    } else {
      assert address / 8 * 8 % 8 == 0;
    }
  }

  lemma RoundingUp(address: nat, size: nat)
    requires IsWordSize(size)
    ensures Aligned(RoundUp(address, size), size) && address <= RoundUp(address, size) < address + size
  {
    RoundingDown(address + size - 1, size);
  }

  lemma StepByte(text: seq<Byte>, n: nat)
    requires 0 < n && SpacesFrom(text, n) && text[n - 1] == SPACE
    ensures SpacesFrom(text, n - 1)
  {
  }

  /** What may be read: the bytes of the buffer, and those of its words that are aligned. */
  predicate MayReadByte(text: seq<Byte>, ptr: nat, address: int) {
    ptr <= address < ptr + |text|
  }

  predicate MayReadWord(text: seq<Byte>, ptr: nat, size: nat, address: int)
    requires IsWordSize(size)
  {
    ptr <= address && Aligned(address, size) && address + size <= ptr + |text|
  }

  /** Behind an aligned address and up to a later one there is room for a whole word. */
  lemma {:induction false} RoomForWord(size: nat, start: nat, end: nat)
    requires IsWordSize(size) && Aligned(start, size) && Aligned(end, size) && start < end
    ensures start <= end - size && Aligned(end - size, size)
  {
    if size <= start {
      RoomForWord(size, start - size, end - size);
    }
  }

  function ByteAt(text: seq<Byte>, ptr: nat, address: int): Byte
    requires MayReadByte(text, ptr, address)
  {
    text[address - ptr]
  }

  function WordAt(text: seq<Byte>, ptr: nat, size: nat, address: int): nat
    requires IsWordSize(size) && MayReadWord(text, ptr, size, address)
  {
    WordOf(text[address - ptr..address - ptr + size])
  }

  /** Reads one aligned word and compares it with SPACE_INT: are all its bytes spaces? */
  method IsSpaceWord(text: seq<Byte>, ptr: nat, size: nat, address: nat) returns (yes: bool)
    requires IsWordSize(size) && MayReadWord(text, ptr, size, address)
    ensures yes <==> forall i | address - ptr <= i < address - ptr + size :: text[i] == SPACE
  {
    yes := WordAt(text, ptr, size, address) == SpaceWord(size);
    WordAtIffSpaces(text, ptr, size, address);
  }

  lemma WordAtIffSpaces(text: seq<Byte>, ptr: nat, size: nat, address: nat)
    requires IsWordSize(size) && MayReadWord(text, ptr, size, address)
    ensures WordAt(text, ptr, size, address) == SpaceWord(size) <==>
            forall i | address - ptr <= i < address - ptr + size :: text[i] == SPACE
  {
    var n := address - ptr;
    var word := text[n..n + size];
    SpaceWordIffSpaces(word);
    assert AllSpaces(word) <==> forall i | n <= i < n + size :: text[i] == SPACE by {
      assert forall i | 0 <= i < size :: word[i] == text[n + i];
      assert forall i | n <= i < n + size :: text[i] == word[i - n];
    }
  }

  /** From here the loop over words may go on: at the start of the zone, or a whole word before it. */
  predicate WordsLeft(text: seq<Byte>, ptr: nat, size: nat, startWords: nat, end: nat)
    requires IsWordSize(size)
  {
    && startWords <= end && Aligned(end, size) && ptr <= end && SpacesFrom(text, end - ptr)
    && (end > startWords ==> startWords <= end - size && MayReadWord(text, ptr, size, end - size))
  }

  lemma WordsBegin(text: seq<Byte>, ptr: nat, size: nat, startWords: nat, end: nat)
    requires IsWordSize(size) && Aligned(startWords, size) && Aligned(end, size)
    requires ptr <= startWords <= end && SpacesFrom(text, end - ptr)
    ensures WordsLeft(text, ptr, size, startWords, end)
  {
    if end > startWords {
      RoomForWord(size, startWords, end);
    }
  }

  lemma WordsGoOn(text: seq<Byte>, ptr: nat, size: nat, startWords: nat, end: nat)
    requires IsWordSize(size) && Aligned(startWords, size) && ptr <= startWords < end
    requires WordsLeft(text, ptr, size, startWords, end)
    requires forall i | end - size - ptr <= i < end - ptr :: text[i] == SPACE
    ensures WordsLeft(text, ptr, size, startWords, end - size)
  {
    WordsBegin(text, ptr, size, startWords, end - size);
  }

  /** The loop over words, from an aligned end down to an aligned start. */
  method SkipWords(text: seq<Byte>, ptr: nat, size: nat, startWords: nat, endWords: nat) returns (end: nat)
    requires IsWordSize(size) && Aligned(startWords, size) && Aligned(endWords, size)
    requires ptr <= startWords < endWords && SpacesFrom(text, endWords - ptr)
    ensures startWords <= end && SpacesFrom(text, end - ptr)
  {
    end := endWords;
    WordsBegin(text, ptr, size, startWords, end);
    while end > startWords
      invariant WordsLeft(text, ptr, size, startWords, end)
    {
      var spaces := IsSpaceWord(text, ptr, size, end - size);
      if !spaces {
        break;
      }
      WordsGoOn(text, ptr, size, startWords, end);
      end := end - size;
    }
  }

  /** The first two loops; they drop spaces and nothing else. */
  method SkipFromEnd(text: seq<Byte>, ptr: nat, size: nat, startWords: nat, endWords: nat) returns (end: nat)
    requires IsWordSize(size) && Aligned(startWords, size) && Aligned(endWords, size)
    requires ptr <= startWords && ptr < endWords <= ptr + |text|
    ensures ptr <= end && SpacesFrom(text, end - ptr)
  {
    end := ptr + |text|;
    while end > endWords && ByteAt(text, ptr, end - 1) == SPACE
      invariant endWords <= end && SpacesFrom(text, end - ptr)
    {
      StepByte(text, end - ptr);
      end := end - 1;
    }
    if ByteAt(text, ptr, end - 1) == SPACE && startWords < endWords {
      end := SkipWords(text, ptr, size, startWords, end);
    }
  }

  /** The part for buffers of more than 20 bytes: the bounds of the aligned zone, and the first two loops. */
  method SkipByWords(text: seq<Byte>, ptr: nat, size: nat) returns (end: nat)
    requires IsWordSize(size)
    ensures ptr <= end && SpacesFrom(text, end - ptr)
  {
    end := ptr + |text|;
    var endWords, startWords := RoundDown(end, size), RoundUp(ptr, size);
    RoundingDown(end, size);
    RoundingUp(ptr, size);
    if endWords > ptr {
      end := SkipFromEnd(text, ptr, size, startWords, endWords);
    }
  }

  /** Where nothing but spaces follows, and no space precedes, the plain scan stops too. */
  lemma ScanEnds(text: seq<Byte>, n: nat)
    requires SpacesFrom(text, n) && (n > 0 ==> text[n - 1] != SPACE)
    ensures n == Trimmed(text)
  {
    TrimmedIsLongest(text, n);
  }

  /**
   For every buffer, length, word size and start address the result is that of the plain scan.
   Every byte read lies in the buffer and every word read is aligned and lies in it: these are
   the preconditions of ByteAt and WordAt.
   */
  method SkipTrailingSpace(text: seq<Byte>, ptr: nat, size: nat) returns (end: nat)
    requires IsWordSize(size)
    ensures end == ptr + Trimmed(text)
  {
    end := ptr + |text|;
    if |text| > 20 {
      end := SkipByWords(text, ptr, size);
    }
    while end > ptr && ByteAt(text, ptr, end - 1) == SPACE
      invariant ptr <= end && SpacesFrom(text, end - ptr)
    {
      StepByte(text, end - ptr);
      end := end - 1;
    }
    ScanEnds(text, end - ptr);
  }
}
