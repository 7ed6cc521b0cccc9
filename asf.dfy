// The ASF probe of src/parsers/asf.py: the file starts with the GUID of the
// ASF Header Object (section 3.1 of the Advanced Systems Format specification).

module Asf {

  import opened Bytes
  import opened Input

  /** 75B22630-668E-11CF-A6D9-00AA0062CE6C in its little-endian byte layout. */
  const HEADER_OBJECT_GUID: seq<byte> :=
    [0x30, 0x26, 0xB2, 0x75, 0x8E, 0x66, 0xCF, 0x11, 0xA6, 0xD9, 0x00, 0xAA, 0x00, 0x62, 0xCE, 0x6C]

  /** What `parse` returns: a fixed placeholder. */
  const PARSE_PLACEHOLDER: string := "In asf parser.parse"

  /** What the asf `type_checking_passed` answers when it starts at `p`. */
  function AsfProbe(c: seq<byte>, p: nat): bool {
    Window(c, p, 16) == HEADER_OBJECT_GUID
  }

  /** The probe passes exactly when the 16 bytes from `p` exist and are the GUID;
      with fewer than 16 bytes left it fails. */
  lemma {:induction false} AsfProbeMeaning(c: seq<byte>, p: nat)
    ensures AsfProbe(c, p) <==> p + 16 <= |c| && c[p..p + 16] == HEADER_OBJECT_GUID
    ensures |c| < p + 16 ==> !AsfProbe(c, p)
  {
    assert |HEADER_OBJECT_GUID| == 16;
  }

  /** `type_checking_passed`: one 16-byte read. */
  method TypeCheckingPassed(r: VideoReader) returns (passed: bool)
    requires r.Valid()
    modifies r, r.stream
    ensures r.Valid() && r.stream == old(r.stream) && r.opens == old(r.opens)
    ensures passed == AsfProbe(r.content, old(r.Cursor()))
    ensures r.Cursor() == Min(old(r.Cursor()) + 16, |r.content|)
  {
    var head := r.ReadChunk(16);
    return head == HEADER_OBJECT_GUID;
  }

  /** `parse`: the placeholder, with the reader left as it was. */
  method Parse(r: VideoReader) returns (s: string)
    ensures s == PARSE_PLACEHOLDER
  {
    return PARSE_PLACEHOLDER;
  }
}
