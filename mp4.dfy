// The decoders of src/parsers/mp4.py as they run: methods that consume the
// shared reader, each proved to agree with the matching decoder of Mp4Format
// over the reader's content from where its cursor stood.

module Mp4 {

  import opened Bytes
  import opened Results
  import opened Input
  import opened Scan
  import opened Mp4Format

  /** `type_checking_passed`: scan `maxBytes / 4` words for "ftyp" and accept
      when the word after the first one is an mp4 brand. */
  method TypeCheckingPassed(r: VideoReader, maxBytes: nat) returns (passed: bool)
    requires r.Valid()
    modifies r, r.stream
    ensures r.Valid() && r.stream == old(r.stream) && r.opens == old(r.opens)
    ensures passed == Mp4Probe(r.content, old(r.Cursor()), maxBytes)
  {
    ghost var start := r.Cursor();
    for i := 0 to maxBytes / 4
      invariant r.Valid() && r.stream == old(r.stream) && r.opens == old(r.opens)
      invariant r.Cursor() == Min(start + 4 * i, |r.content|)
      invariant forall j :: 0 <= j < i ==> WordAt(r.content, start, j) != FTYP
    {
      var word := r.ReadChunk(4);
      WordAtCursor(r.content, start, i);
      if word == FTYP {
        passed := CheckBrand(r, maxBytes, start, i);
        return;
      }
    }
    Mp4ProbeAbsent(r.content, start, maxBytes);
    return false;
  }

  /** The word after the first "ftyp": the probe passes when it is one of the
      mp4 brands. */
  method CheckBrand(r: VideoReader, maxBytes: nat, ghost start: nat, i: nat) returns (passed: bool)
    requires r.Valid()
    requires i < maxBytes / 4 && WordAt(r.content, start, i) == FTYP
    requires forall j :: 0 <= j < i ==> WordAt(r.content, start, j) != FTYP
    requires r.Cursor() == Min(start + 4 * (i + 1), |r.content|)
    modifies r, r.stream
    ensures r.Valid() && r.stream == old(r.stream) && r.opens == old(r.opens)
    ensures passed == Mp4Probe(r.content, start, maxBytes)
  {
    var brand := r.ReadChunk(4);
    WordAtCursor(r.content, start, i + 1);
    Mp4ProbeAt(r.content, start, maxBytes, i);
    return brand in FTYP_CONSEQUENCE_TYPES;
  }

  /** `read_box_size_and_type`: a 4-byte size and a 4-byte type, then an
      8-byte large size when the size field is 1. */
  method ReadBoxSizeAndType(r: VideoReader) returns (res: Result<BoxHeader>)
    requires r.Valid()
    modifies r, r.stream
    ensures r.Valid() && r.stream == old(r.stream) && r.opens == old(r.opens)
    ensures Agrees(res, BoxHeaderAt(r.content, old(r.Cursor())), r.Cursor())
    ensures res.Success? && !r.IsBufferFull() ==>
      !old(r.IsBufferFull()) && r.pointer == old(r.pointer) + res.value.offset
  {
    var size := r.ReadInt(4);
    if size.Failure? {
      return Failure(size.error);
    }
    var boxType := r.ReadStr(4);
    if boxType.Failure? {
      return Failure(boxType.error);
    }
    if size.value != 1 {
      return Success(BoxHeader(size.value, boxType.value, 8));
    }
    var largeSize := r.ReadInt(8);
    if largeSize.Failure? {
      return Failure(largeSize.error);
    }
    return Success(BoxHeader(largeSize.value, boxType.value, 16));
  }

  /** `Box.__init__`: take the header given as `box_meta`, or read one. */
  method ReadHeader(r: VideoReader, meta: Option<BoxHeader>) returns (res: Result<BoxHeader>)
    requires r.Valid()
    modifies r, r.stream
    ensures r.Valid() && r.stream == old(r.stream) && r.opens == old(r.opens)
    ensures Agrees(res, HeaderOrRead(r.content, old(r.Cursor()), meta), r.Cursor())
  {
    match meta
    case Some(h) =>
      return Success(h);
    case None =>
      res := ReadBoxSizeAndType(r);
  }

  /** `[reader.read_str(4) for _ in range(count)]`. */
  method ReadBrands(r: VideoReader, count: nat) returns (res: Result<seq<seq<byte>>>)
    requires r.Valid()
    modifies r, r.stream
    ensures r.Valid() && r.stream == old(r.stream) && r.opens == old(r.opens)
    ensures Agrees(res, TagsAt(r.content, old(r.Cursor()), count), r.Cursor())
  {
    ghost var start := r.Cursor();
    var brands := [];
    for i := 0 to count
      invariant r.Valid() && r.stream == old(r.stream) && r.opens == old(r.opens)
      invariant r.Cursor() == start + 4 * i
      invariant |brands| == i
      invariant forall j :: 0 <= j < i ==> brands[j] == r.content[start + 4 * j..start + 4 * j + 4]
    {
      var brand := r.ReadStr(4);
      if brand.Failure? {
        return Failure(brand.error);
      }
      brands := brands + [brand.value];
    }
    ghost var spec := TagsAt(r.content, start, count);
    assert spec.Success? && |spec.value.value| == count;
    assert spec.value.value == brands;
    return Success(brands);
  }

  /** `FTYPBox(reader, box_meta)`: the header, the major brand, the minor
      version and as many whole compatible brands as the box size leaves room for. */
  method ReadFtypBox(r: VideoReader, meta: Option<BoxHeader>) returns (res: Result<FtypBox>)
    requires r.Valid()
    modifies r, r.stream
    ensures r.Valid() && r.stream == old(r.stream) && r.opens == old(r.opens)
    ensures Agrees(res, FtypAt(r.content, old(r.Cursor()), meta), r.Cursor())
  {
    var header := ReadHeader(r, meta);
    if header.Failure? {
      return Failure(header.error);
    }
    var h := header.value;
    if h.boxType != FTYP {
      return Failure(UnexpectedBoxType(FTYP, h.boxType));
    }
    var major := r.ReadStr(4);
    if major.Failure? {
      return Failure(major.error);
    }
    var minor := r.ReadInt(4);
    if minor.Failure? {
      return Failure(minor.error);
    }
    var brands := ReadBrands(r, BrandCount(h));
    if brands.Failure? {
      return Failure(brands.error);
    }
    return Success(FtypBox(h, major.value, minor.value, brands.value));
  }

  /** `MVHDBox(reader, box_meta)`: the header, then a version that must be 0,
      the flags and the two timestamps; `ReadMvhdTiming` reads the rest. */
  method ReadMvhdBox(r: VideoReader, meta: Option<BoxHeader>) returns (res: Result<MvhdBox>)
    requires r.Valid()
    modifies r, r.stream
    ensures r.Valid() && r.stream == old(r.stream) && r.opens == old(r.opens)
    ensures Agrees(res, MvhdAt(r.content, old(r.Cursor()), meta), r.Cursor())
  {
    var header := ReadHeader(r, meta);
    if header.Failure? {
      return Failure(header.error);
    }
    var h := header.value;
    if h.boxType != MVHD {
      return Failure(UnexpectedBoxType(MVHD, h.boxType));
    }
    var version := r.ReadInt(1);
    if version.Failure? {
      return Failure(version.error);
    }
    if version.value != 0 {
      return Failure(UnsupportedVersion(version.value));
    }
    var flags := r.ReadInt(3);
    if flags.Failure? {
      return Failure(flags.error);
    }
    var creation := r.ReadInt(4);
    if creation.Failure? {
      return Failure(creation.error);
    }
    var modification := r.ReadInt(4);
    if modification.Failure? {
      return Failure(modification.error);
    }
    res := ReadMvhdTiming(r, h, flags.value, creation.value, modification.value);
  }

  /** The time scale and duration, the division by the time scale (which comes
      before the rate and volume are read), and the 74 reserved, matrix,
      pre-defined and next-track-id bytes that are skipped. */
  method ReadMvhdTiming(r: VideoReader, h: BoxHeader, flags: nat, creation: nat, modification: nat)
    returns (res: Result<MvhdBox>)
    requires r.Valid()
    modifies r, r.stream
    ensures r.Valid() && r.stream == old(r.stream) && r.opens == old(r.opens)
    ensures Agrees(res, MvhdTimingAt(r.content, old(r.Cursor()), h, flags, creation, modification), r.Cursor())
  {
    var timeScale := r.ReadInt(4);
    if timeScale.Failure? {
      return Failure(timeScale.error);
    }
    var duration := r.ReadInt(4);
    if duration.Failure? {
      return Failure(duration.error);
    }
    if timeScale.value == 0 {
      return Failure(ZeroTimeScale);
    }
    var rate := r.ReadFloat(2, 2);
    if rate.Failure? {
      return Failure(rate.error);
    }
    var volume := r.ReadFloat(1, 1);
    if volume.Failure? {
      return Failure(volume.error);
    }
    SkipReserved(r);
    return Success(MvhdBox(h, 0, flags, creation, modification, timeScale.value, duration.value,
                           rate.value, volume.value));
  }

  /** The reserved (10), matrix (36), pre-defined (24) and next-track-id (4)
      bytes, read and ignored. */
  method SkipReserved(r: VideoReader)
    requires r.Valid()
    modifies r, r.stream
    ensures r.Valid() && r.stream == old(r.stream) && r.opens == old(r.opens)
    ensures r.Cursor() == Min(old(r.Cursor()) + MVHD_SKIPPED_BYTES, |r.content|)
  {
    var ignored := r.ReadChunk(10);
    ignored := r.ReadChunk(36);
    ignored := r.ReadChunk(24);
    ignored := r.ReadChunk(4);
  }

  /** `MOOVBox(reader, box_meta)`: the header, then the movie header box that
      must come first inside it. */
  method ReadMoovBox(r: VideoReader, meta: Option<BoxHeader>) returns (res: Result<MoovBox>)
    requires r.Valid()
    modifies r, r.stream
    ensures r.Valid() && r.stream == old(r.stream) && r.opens == old(r.opens)
    ensures Agrees(res, MoovAt(r.content, old(r.Cursor()), meta), r.Cursor())
  {
    var header := ReadHeader(r, meta);
    if header.Failure? {
      return Failure(header.error);
    }
    if header.value.boxType != MOOV {
      return Failure(UnexpectedBoxType(MOOV, header.value.boxType));
    }
    var mvhd := ReadMvhdBox(r, None);
    if mvhd.Failure? {
      return Failure(mvhd.error);
    }
    return Success(MoovBox(header.value, mvhd.value));
  }

  /** `find_moov_box`: read headers until one of type "moov", skipping the
      rest of every other box. */
  method FindMoovBox(r: VideoReader) returns (res: Result<BoxHeader>)
    requires r.Valid()
    modifies r, r.stream
    ensures r.Valid() && r.stream == old(r.stream) && r.opens == old(r.opens)
    ensures Agrees(res, FindMoovAt(r.content, old(r.Cursor())), r.Cursor())
  {
    ghost var spec := FindMoovAt(r.content, r.Cursor());
    while true
      invariant r.Valid() && r.stream == old(r.stream) && r.opens == old(r.opens)
      invariant FindMoovAt(r.content, r.Cursor()) == spec
      decreases |r.content| - r.Cursor()
    {
      ghost var here := r.Cursor();
      var header := ReadBoxSizeAndType(r);
      if header.Failure? {
        return Failure(header.error);
      }
      var h := header.value;
      if h.boxType == MOOV {
        return Success(h);
      }
      if h.size < h.offset {
        return Failure(NegativeSkip(h.size, h.offset));
      }
      ghost var fields := r.Cursor();
      var skipped := r.ReadChunk(h.size - h.offset);
      assert FindMoovAt(r.content, here) == FindMoovAt(r.content, Min(fields + (h.size - h.offset), |r.content|));
    }
  }

  /** What one round of `find_moov_box`'s loop did with the header it read. */
  datatype SearchStep = Found(header: BoxHeader) | Skipped(header: BoxHeader)

  /** One round of `find_moov_box`'s loop as written: read a header, return it
      if it is "moov", otherwise `reader.read(box_size - offset)`, whose count
      is negative for a box that declares itself smaller than its header. Such
      a box sends the cursor back to `size` bytes past the header's start, so a
      size-0 box is read again in the next round; only an overflowing buffer,
      which sends the cursor to the end, breaks the cycle. `FindMoovBox` stops
      on such a box instead. */
  method SearchStepAsWritten(r: VideoReader) returns (res: Result<SearchStep>)
    requires r.Valid()
    modifies r, r.stream
    ensures r.Valid() && r.stream == old(r.stream) && r.opens == old(r.opens)
    ensures BoxHeaderAt(r.content, old(r.Cursor())).Failure? ==>
      res == Failure(BoxHeaderAt(r.content, old(r.Cursor())).error)
    ensures BoxHeaderAt(r.content, old(r.Cursor())).Success? ==>
      var h := BoxHeaderAt(r.content, old(r.Cursor())).value.value;
      && res == Success(if h.boxType == MOOV then Found(h) else Skipped(h))
      && (h.boxType == MOOV ==> r.Cursor() == old(r.Cursor()) + h.offset)
      && (h.boxType != MOOV && h.offset <= h.size ==> r.Cursor() == Min(old(r.Cursor()) + h.size, |r.content|))
      && (h.boxType != MOOV && h.size < h.offset && !r.IsBufferFull() ==> r.Cursor() == old(r.Cursor()) + h.size)
      && (h.boxType != MOOV && h.size < h.offset && r.IsBufferFull() ==> r.Cursor() == |r.content|)
  {
    var header := ReadBoxSizeAndType(r);
    if header.Failure? {
      return Failure(header.error);
    }
    var h := header.value;
    if h.boxType == MOOV {
      return Success(Found(h));
    }
    if h.size < h.offset {
      var _ := r.ReadNegative(h.offset - h.size);
    } else {
      var _ := r.ReadChunk(h.size - h.offset);
    }
    return Success(Skipped(h));
  }

  /** The type of a "free" box. */
  const FREE: seq<byte> := [0x66, 0x72, 0x65, 0x65]

  /** A "free" box header declaring size 0: the box runs to the end of the file. */
  const SIZE_ZERO_FREE := BoxHeader(0, FREE, 8)

  /** A file-type box followed by a size-0 "free" box, in a file that fits the
      default buffer: after the file-type box, every round of the search as
      written reads the same header and leaves the cursor where it started, so
      the loop never ends. */
  method SizeZeroScenario(rest: seq<byte>) returns (first: Result<SearchStep>, second: Result<SearchStep>,
                                                    ghost cursors: seq<nat>)
    requires 28 + |rest| <= MAX_BUFFER_LENGTH
    ensures first == Success(Skipped(SIZE_ZERO_FREE)) && second == first
    ensures cursors == [20, 20, 20]
  {
    SizeZeroFileLayout(rest);
    var file := EncodeFtyp(SAMPLE_FTYP) + EncodeBoxHeader(SIZE_ZERO_FREE) + rest;
    var r := new VideoReader(file, MAX_BUFFER_LENGTH);
    var ftyp := ReadFtypBox(r, None);
    ghost var start := r.Cursor();
    first := SearchStepAsWritten(r);
    ghost var afterFirst := r.Cursor();
    second := SearchStepAsWritten(r);
    cursors := [start, afterFirst, r.Cursor()];
    r.Close();
  }

  /** The scenario file holds the sample file-type box at 0 and the size-0
      "free" header at 20. */
  lemma {:induction false} SizeZeroFileLayout(rest: seq<byte>)
    ensures FtypEncodable(SAMPLE_FTYP) && Encodable(SIZE_ZERO_FREE)
    ensures var c := EncodeFtyp(SAMPLE_FTYP) + EncodeBoxHeader(SIZE_ZERO_FREE) + rest;
      Decodes(FtypAt(c, 0, None), SAMPLE_FTYP, 20) && Decodes(BoxHeaderAt(c, 20), SIZE_ZERO_FREE, 28)
  {
    SampleEncodable(0, 0);
    var ftyp, free := EncodeFtyp(SAMPLE_FTYP), EncodeBoxHeader(SIZE_ZERO_FREE);
    var c := ftyp + free + rest;
    assert At(c, 0, c);
    Peel(c, 0, ftyp + free, rest);
    Peel(c, 0, ftyp, free);
    FtypRoundTrip(c, 0, SAMPLE_FTYP);
    BoxHeaderRoundTrip(c, 20, SIZE_ZERO_FREE);
  }

  /** `parse`: the leading file-type box, the search for the movie box, and
      the movie box read with the header the search found. */
  method Parse(r: VideoReader) returns (res: Result<Mp4File>)
    requires r.Valid()
    modifies r, r.stream
    ensures r.Valid() && r.stream == old(r.stream) && r.opens == old(r.opens)
    ensures Agrees(res, ParseAt(r.content, old(r.Cursor())), r.Cursor())
  {
    var ftyp := ReadFtypBox(r, None);
    if ftyp.Failure? {
      return Failure(ftyp.error);
    }
    var moovHeader := FindMoovBox(r);
    if moovHeader.Failure? {
      return Failure(moovHeader.error);
    }
    var moov := ReadMoovBox(r, Some(moovHeader.value));
    if moov.Failure? {
      return Failure(moov.error);
    }
    return Success(Mp4File(ftyp.value, moov.value));
  }
}
