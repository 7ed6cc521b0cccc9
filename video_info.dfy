// The legacy duration scanner of src/video_info.py: look for the word "mvhd"
// among the first 1000 aligned words of a file, then take the movie time scale
// and duration from the fourth and fifth words after it.

module VideoInfo {

  import opened Bytes
  import opened Results
  import opened Input
  import opened Scan
  import opened Mp4Format

  /** How many 4-byte words the scan for "mvhd" reads at most. */
  const SCAN_WORDS: nat := 1000

  /** The names of the five words read after "mvhd" (`CONTENTS`). */
  datatype Field = VerAndExpand | CTime | MTime | TimeScale | Duration

  const CONTENTS: seq<Field> := [VerAndExpand, CTime, MTime, TimeScale, Duration]

  /** What `get_video_duration` reports: the movie duration over its time
      scale (kept as the two integers), or -1. */
  datatype MovieDuration = Seconds(duration: nat, timeScale: nat) | Failed

  /** Where the file position stands once the scan stops: just past the first
      aligned "mvhd" word, or after all 1000 words, or at the end of the file. */
  function ScanEnd(c: seq<byte>): nat {
    match FindAlignedWord(c, 0, SCAN_WORDS, MVHD)
    case Some(k) => Min(4 * (k + 1), |c|)
    case None => Min(4 * SCAN_WORDS, |c|)
  }

  /** The scanner's answer from the time scale and duration words it read;
      a zero time scale is the division by zero that makes it give up. */
  function FromWords(timeScale: seq<byte>, duration: seq<byte>): MovieDuration {
    if BigEndian(timeScale) == 0 then Failed else Seconds(BigEndian(duration), BigEndian(timeScale))
  }

  /** `get_video_duration` on a file that holds `file`, or that cannot be
      opened when `file` is None. */
  function DurationOf(file: Option<seq<byte>>): MovieDuration {
    match file
    case None => Failed
    case Some(c) => DurationIn(c)
  }

  /** `get_video_duration` on a file that opens and holds `c`. */
  function DurationIn(c: seq<byte>): MovieDuration {
    var q := ScanEnd(c);
    FromWords(Window(c, q + 12, 4), Window(c, q + 16, 4))
  }

  /** `get_video_duration`: open the file, scan, read the five words, close. */
  method GetVideoDuration(file: Option<seq<byte>>) returns (d: MovieDuration)
    ensures d == DurationOf(file)
  {
    if file.None? {
      return Failed;  // `open` raises
    }
    var c := file.value;
    var f := new ByteStream.Open(c);
    ScanForMovieHeader(f);
    var timeScale, duration := ReadContents(f);
    f.Close();
    if timeScale == 0 {
      return Failed;  // `duration / time_scale` raises
    }
    return Seconds(duration, timeScale);
  }

  /** The first loop: read words until "mvhd" or until 1000 have been read. */
  method ScanForMovieHeader(f: ByteStream)
    requires !f.closed && f.pos == 0
    modifies f
    ensures !f.closed && f.pos == ScanEnd(f.content)
  {
    var c := f.content;
    var i := 0;
    while i < SCAN_WORDS
      invariant 0 <= i <= SCAN_WORDS
      invariant !f.closed && f.pos == Min(4 * i, |c|)
      invariant forall j :: 0 <= j < i ==> WordAt(c, 0, j) != MVHD
    {
      var data := f.Read(4);
      WordAtCursor(c, 0, i);
      if data == MVHD {
        FindAlignedWordFirst(c, 0, SCAN_WORDS, MVHD, i);
        return;
      }
      i := i + 1;
    }
    FindAlignedWordAbsent(c, 0, SCAN_WORDS, MVHD);
  }

  /** The second loop: read the five `CONTENTS` words, keeping the time scale
      and the duration as big-endian integers. */
  method ReadContents(f: ByteStream) returns (timeScale: nat, duration: nat)
    requires !f.closed && f.pos <= |f.content|
    modifies f
    ensures !f.closed
    ensures timeScale == BigEndian(Window(f.content, old(f.pos) + 12, 4))
    ensures duration == BigEndian(Window(f.content, old(f.pos) + 16, 4))
  {
    var c, q := f.content, f.pos;
    timeScale, duration := 0, 0;
    for k := 0 to |CONTENTS|
      invariant !f.closed && f.pos == Min(q + 4 * k, |c|)
      invariant k > 3 ==> timeScale == BigEndian(Window(c, q + 12, 4))
      invariant k > 4 ==> duration == BigEndian(Window(c, q + 16, 4))
    {
      var data := f.Read(4);
      WordAtCursor(c, q, k);
      if CONTENTS[k] == TimeScale {
        timeScale := BigEndian(data);
      } else if CONTENTS[k] == Duration {
        duration := BigEndian(data);
      }
    }
  }

  /** A file that cannot be opened gives -1. */
  lemma {:induction false} MissingFileFails()
    ensures DurationOf(None) == Failed
  {
  }

  /** A file of at most 16 bytes gives -1: the time-scale read comes back
      empty and decodes as 0. */
  lemma {:induction false} ShortFileFails(c: seq<byte>)
    requires |c| <= 16
    ensures DurationOf(Some(c)) == Failed
  {
    assert Window(c, ScanEnd(c) + 12, 4) == [];
  }

  /** Without an aligned "mvhd" among the first 1000 words the scanner does not
      fail: it reads on from byte 4000, or from the end of a shorter file. */
  lemma {:induction false} NotFoundReadsOn(c: seq<byte>)
    requires forall j :: 0 <= j < SCAN_WORDS ==> WordAt(c, 0, j) != MVHD
    ensures DurationOf(Some(c)) == FromWords(Window(c, 4012, 4), Window(c, 4016, 4))
    ensures |c| <= 4012 ==> DurationOf(Some(c)) == Failed
  {
    FindAlignedWordAbsent(c, 0, SCAN_WORDS, MVHD);
    if |c| < 4000 {
      assert Window(c, |c| + 12, 4) == [] == Window(c, 4012, 4);
      assert Window(c, |c| + 16, 4) == [] == Window(c, 4016, 4);
    }
  }

  /** On a file whose first aligned "mvhd" word is the type of a version-0
      movie header box, the scanner reads the box's own time scale and
      duration, as the box decoder does. */
  lemma {:induction false} ScannerReadsMovieHeader(c: seq<byte>, p: nat, m: MvhdBox, skipped: seq<byte>)
    requires MvhdEncodable(m) && m.header.offset == 8 && |skipped| == MVHD_SKIPPED_BYTES
    requires At(c, p, EncodeMvhd(m, skipped))
    requires p % 4 == 0 && p / 4 + 1 < SCAN_WORDS
    requires forall j :: 0 <= j <= p / 4 ==> WordAt(c, 0, j) != MVHD
    ensures DurationOf(Some(c)) == Seconds(m.duration, m.timeScale)
    ensures Decodes(MvhdAt(c, p, None), m, p + m.header.size)
  {
    var h := m.header;
    MvhdRoundTrip(c, p, m, skipped);
    Peel(c, p, EncodeBoxHeader(h) + EncodeMvhdFields(m), skipped);
    Peel(c, p, EncodeBoxHeader(h), EncodeMvhdFields(m));
    ScanStopsAtHeader(c, p, h);
    ScannedFields(c, p + 8, m);
  }

  /** The scan stops just past the type word of a header at an aligned `p`. */
  lemma {:induction false} ScanStopsAtHeader(c: seq<byte>, p: nat, h: BoxHeader)
    requires Encodable(h) && h.offset == 8 && h.boxType == MVHD && At(c, p, EncodeBoxHeader(h))
    requires p % 4 == 0 && p / 4 + 1 < SCAN_WORDS
    requires forall j :: 0 <= j <= p / 4 ==> WordAt(c, 0, j) != MVHD
    ensures ScanEnd(c) == p + 8
  {
    Peel(c, p, ToBigEndian(h.size, 4), h.boxType);
    var k := p / 4 + 1;
    assert WordAt(c, 0, k) == c[p + 4..p + 8];
    FindAlignedWordFirst(c, 0, SCAN_WORDS, MVHD, k);
  }

  /** The fourth and fifth words of encoded movie-header fields are its time
      scale and duration. */
  lemma {:induction false} ScannedFields(c: seq<byte>, q: nat, m: MvhdBox)
    requires MvhdEncodable(m) && At(c, q, EncodeMvhdFields(m))
    ensures FromWords(Window(c, q + 12, 4), Window(c, q + 16, 4)) == Seconds(m.duration, m.timeScale)
  {
    MvhdFieldsEncoded(c, q, m);
    BigEndianAtSlice(c, q + 12, 4);
    BigEndianAtSlice(c, q + 16, 4);
  }
}
