// The word-aligned signature scan that the mp4 and mov probes and the legacy
// duration scanner each perform: read 4 bytes at a time and stop at the first
// word equal to a tag.

module Scan {

  import opened Bytes
  import opened Results

  /** The `j`-th 4-byte word counted from `p` (short or empty past the end). */
  function WordAt(c: seq<byte>, p: nat, j: nat): seq<byte> {
    Window(c, p + 4 * j, 4)
  }

  /** The index of the first of `words` consecutive words from `p` that equals `tag`. */
  function FindAlignedWord(c: seq<byte>, p: nat, words: nat, tag: seq<byte>): Option<nat>
    decreases words
  {
    if words == 0 then None
    else if Window(c, p, 4) == tag then Some(0)
    else
      match FindAlignedWord(c, p + 4, words - 1, tag)
      case None => None
      case Some(k) => Some(k + 1)
  }

  /** A word the scan reports lies within its budget, equals the tag, and no
      earlier word does. */
  lemma {:induction false} FindAlignedWordFound(c: seq<byte>, p: nat, words: nat, tag: seq<byte>, k: nat)
    requires FindAlignedWord(c, p, words, tag) == Some(k)
    ensures k < words && WordAt(c, p, k) == tag
    ensures forall j :: 0 <= j < k ==> WordAt(c, p, j) != tag
    decreases words
  {
    if k > 0 {
      assert Window(c, p, 4) != tag;
      FindAlignedWordFound(c, p + 4, words - 1, tag, k - 1);
      WordAtShift(c, p, k);
      forall j | 0 <= j < k
        ensures WordAt(c, p, j) != tag
      {
        if j == 0 {
          assert WordAt(c, p, 0) == Window(c, p, 4);
        } else {
          WordAtShift(c, p, j);
        }
      }
    } else {
      assert Window(c, p, 4) == tag;
      assert WordAt(c, p, 0) == Window(c, p, 4);
    }
  }

  /** The scan finds nothing only when none of the budgeted words equals the tag. */
  lemma {:induction false} FindAlignedWordNone(c: seq<byte>, p: nat, words: nat, tag: seq<byte>)
    requires FindAlignedWord(c, p, words, tag) == None
    ensures forall j :: 0 <= j < words ==> WordAt(c, p, j) != tag
    decreases words
  {
    if words > 0 {
      FindAlignedWordNone(c, p + 4, words - 1, tag);
      forall j | 0 <= j < words
        ensures WordAt(c, p, j) != tag
      {
        if j == 0 {
          assert WordAt(c, p, 0) == Window(c, p, 4);
        } else {
          WordAtShift(c, p, j);
        }
      }
    }
  }

  /** Conversely, the first of the budgeted words that equals the tag is the
      one the scan reports. */
  lemma {:induction false} FindAlignedWordFirst(c: seq<byte>, p: nat, words: nat, tag: seq<byte>, k: nat)
    requires k < words && WordAt(c, p, k) == tag
    requires forall j :: 0 <= j < k ==> WordAt(c, p, j) != tag
    ensures FindAlignedWord(c, p, words, tag) == Some(k)
  {
    match FindAlignedWord(c, p, words, tag)
    case None =>
      FindAlignedWordNone(c, p, words, tag);
    case Some(found) =>
      FindAlignedWordFound(c, p, words, tag, found);
  }

  /** Conversely, when none of the budgeted words equals the tag the scan
      finds nothing. */
  lemma {:induction false} FindAlignedWordAbsent(c: seq<byte>, p: nat, words: nat, tag: seq<byte>)
    requires forall j :: 0 <= j < words ==> WordAt(c, p, j) != tag
    ensures FindAlignedWord(c, p, words, tag) == None
  {
    if FindAlignedWord(c, p, words, tag).Some? {
      FindAlignedWordFound(c, p, words, tag, FindAlignedWord(c, p, words, tag).value);
    }
  }

  /** A read from a cursor clamped to the end of the content sees the word the
      unclamped position names. */
  lemma {:induction false} WordAtCursor(c: seq<byte>, p: nat, j: nat)
    ensures Window(c, Min(p + 4 * j, |c|), 4) == WordAt(c, p, j)
    ensures Min(Min(p + 4 * j, |c|) + 4, |c|) == Min(p + 4 * (j + 1), |c|)
  {
  }

  lemma {:induction false} WordAtShift(c: seq<byte>, p: nat, j: nat)
    requires j >= 1
    ensures WordAt(c, p, j) == WordAt(c, p + 4, j - 1)
  {
    assert p + 4 * j == (p + 4) + 4 * (j - 1);
  }
}
