// The AVI probe of src/parsers/avi.py: a RIFF file whose form type is "AVI ".

module Avi {

  import opened Bytes
  import opened Input
  import opened Scan

  const RIFF: seq<byte> := [0x52, 0x49, 0x46, 0x46]  // "RIFF"
  const AVI: seq<byte> := [0x41, 0x56, 0x49, 0x20]   // "AVI "

  /** What `parse` returns: a fixed placeholder. */
  const PARSE_PLACEHOLDER: string := "In avi parser.parse"

  /** What the avi `type_checking_passed` answers when it starts at `p`: the
      first word is "RIFF" and the third is "AVI ". */
  function AviProbe(c: seq<byte>, p: nat): bool {
    WordAt(c, p, 0) == RIFF && WordAt(c, p, 2) == AVI
  }

  /** The probe passes exactly when the 12 bytes from `p` exist and hold
      "RIFF", any four bytes, then "AVI ". */
  lemma {:induction false} AviProbeMeaning(c: seq<byte>, p: nat)
    ensures AviProbe(c, p) <==> p + 12 <= |c| && c[p..p + 4] == RIFF && c[p + 8..p + 12] == AVI
  {
    assert WordAt(c, p, 2) == Window(c, p + 8, 4);
  }

  /** Bytes 4 to 7, the RIFF size field, play no part in the answer. */
  lemma {:induction false} AviProbeIgnoresSize(c: seq<byte>, d: seq<byte>, p: nat)
    requires |c| == |d| && p + 12 <= |c|
    requires c[p..p + 4] == d[p..p + 4] && c[p + 8..p + 12] == d[p + 8..p + 12]
    ensures AviProbe(c, p) == AviProbe(d, p)
  {
    AviProbeMeaning(c, p);
    AviProbeMeaning(d, p);
  }

  /** A resource with fewer than 12 bytes left is never an avi file. */
  lemma {:induction false} AviProbeShort(c: seq<byte>, p: nat)
    requires |c| < p + 12
    ensures !AviProbe(c, p)
  {
    AviProbeMeaning(c, p);
  }

  /** `type_checking_passed`: three 4-byte reads, the middle one ignored. */
  method TypeCheckingPassed(r: VideoReader) returns (passed: bool)
    requires r.Valid()
    modifies r, r.stream
    ensures r.Valid() && r.stream == old(r.stream) && r.opens == old(r.opens)
    ensures passed == AviProbe(r.content, old(r.Cursor()))
    ensures r.Cursor() == Min(old(r.Cursor()) + 12, |r.content|)
  {
    ghost var start := r.Cursor();
    var first := r.ReadChunk(4);
    WordAtCursor(r.content, start, 0);
    var ignored := r.ReadChunk(4);
    WordAtCursor(r.content, start, 1);
    var third := r.ReadChunk(4);
    WordAtCursor(r.content, start, 2);
    return first == RIFF && third == AVI;
  }

  /** `parse`: the placeholder, with the reader left as it was. */
  method Parse(r: VideoReader) returns (s: string)
    ensures s == PARSE_PLACEHOLDER
  {
    return PARSE_PLACEHOLDER;
  }
}
