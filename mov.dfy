// The QuickTime probe of src/parsers/mov.py: the same aligned "ftyp" scan as
// the mp4 probe, accepting only the brand "qt  ".

module Mov {

  import opened Bytes
  import opened Results
  import opened Input
  import opened Scan
  import opened Mp4Format

  const QT: seq<byte> := [0x71, 0x74, 0x20, 0x20]  // "qt  "

  /** What the mov `type_checking_passed` answers when it starts at `p`. */
  function MovProbe(c: seq<byte>, p: nat, maxBytes: nat): bool {
    match FindAlignedWord(c, p, maxBytes / 4, FTYP)
    case None => false
    case Some(k) => WordAt(c, p, k + 1) == QT
  }

  /** The mov probe passes exactly when the first aligned "ftyp" word within
      the budget is followed by "qt  ". */
  lemma {:induction false} MovProbeMeaning(c: seq<byte>, p: nat, maxBytes: nat)
    ensures MovProbe(c, p, maxBytes) <==> FirstFtypThen(c, p, maxBytes / 4, w => w == QT)
  {
    FirstFtypUnique(c, p, maxBytes / 4, w => w == QT);
  }

  /** The probe's answer once the first "ftyp" word is known to be word `k`:
      whatever brand follows it, no later word is looked at. */
  lemma {:induction false} MovProbeAt(c: seq<byte>, p: nat, maxBytes: nat, k: nat)
    requires k < maxBytes / 4 && WordAt(c, p, k) == FTYP
    requires forall j :: 0 <= j < k ==> WordAt(c, p, j) != FTYP
    ensures MovProbe(c, p, maxBytes) == (WordAt(c, p, k + 1) == QT)
  {
    FindAlignedWordFirst(c, p, maxBytes / 4, FTYP, k);
  }

  /** The probe fails when no word within the budget is "ftyp". */
  lemma {:induction false} MovProbeAbsent(c: seq<byte>, p: nat, maxBytes: nat)
    requires forall j :: 0 <= j < maxBytes / 4 ==> WordAt(c, p, j) != FTYP
    ensures !MovProbe(c, p, maxBytes)
  {
    FindAlignedWordAbsent(c, p, maxBytes / 4, FTYP);
  }

  /** The mov and mp4 probes never both pass: they look at the same word, and
      "qt  " is not an mp4 brand. */
  lemma {:induction false} MovExcludesMp4(c: seq<byte>, p: nat, maxBytes: nat)
    ensures !(MovProbe(c, p, maxBytes) && Mp4Probe(c, p, maxBytes))
  {
    assert QT !in FTYP_CONSEQUENCE_TYPES;
  }

  /** `type_checking_passed`: scan `maxBytes / 4` words for "ftyp" and accept
      when the word after the first one is "qt  ". It reads at most one word
      past the budget. */
  method TypeCheckingPassed(r: VideoReader, maxBytes: nat) returns (passed: bool)
    requires r.Valid()
    modifies r, r.stream
    ensures r.Valid() && r.stream == old(r.stream) && r.opens == old(r.opens)
    ensures passed == MovProbe(r.content, old(r.Cursor()), maxBytes)
    ensures r.Cursor() <= old(r.Cursor()) + 4 * (maxBytes / 4) + 4
  {
    ghost var start := r.Cursor();
    for i := 0 to maxBytes / 4
      invariant r.Valid() && r.stream == old(r.stream) && r.opens == old(r.opens)
      invariant r.Cursor() == Min(start + 4 * i, |r.content|)
      invariant forall j :: 0 <= j < i ==> WordAt(r.content, start, j) != FTYP
    {
      var word := r.ReadChunk(4);
      WordAtCursor(r.content, start, i);
      if word == FTYP {
        passed := CheckBrand(r, maxBytes, start, i);
        return;
      }
    }
    MovProbeAbsent(r.content, start, maxBytes);
    return false;
  }

  /** The word after the first "ftyp": the probe passes when it is "qt  ". */
  method CheckBrand(r: VideoReader, maxBytes: nat, ghost start: nat, i: nat) returns (passed: bool)
    requires r.Valid()
    requires i < maxBytes / 4 && WordAt(r.content, start, i) == FTYP
    requires forall j :: 0 <= j < i ==> WordAt(r.content, start, j) != FTYP
    requires r.Cursor() == Min(start + 4 * (i + 1), |r.content|)
    modifies r, r.stream
    ensures r.Valid() && r.stream == old(r.stream) && r.opens == old(r.opens)
    ensures passed == MovProbe(r.content, start, maxBytes)
    ensures r.Cursor() <= start + 4 * (i + 2)
  {
    var brand := r.ReadChunk(4);
    WordAtCursor(r.content, start, i + 1);
    MovProbeAt(r.content, start, maxBytes, i);
    return brand == QT;
  }
}
