// The buffered, rewindable video reader of src/input.py and the integer, tag
// and fixed-point reads the decoders call on it.

module Input {

  import opened Bytes
  import opened Results

  /** The default capacity of a reader's replay buffer: 1 MiB. */
  const MAX_BUFFER_LENGTH: nat := 1024 * 1024

  /** A raw byte channel on a resource: a local file handle or a remote response
      body. The resource's bytes are `content`; `pos` is how many of them this
      channel has handed out since it was opened. */
  class ByteStream {
    const content: seq<byte>
    var pos: nat
    var closed: bool

    constructor Open(content: seq<byte>)
      ensures this.content == content && pos == 0 && !closed
    {
      this.content := content;
      pos := 0;
      closed := false;
    }

    /** Up to `n` further bytes; fewer only at the end of the content. */
    method Read(n: nat) returns (data: seq<byte>)
      requires !closed && pos <= |content|
      modifies this
      ensures !closed && pos <= |content|
      ensures data == Window(content, old(pos), n)
      ensures pos == old(pos) + |data|
    {
      data := Window(content, pos, n);
      pos := pos + |data|;
    }

    /** `read` with a negative count: everything left. */
    method ReadRest() returns (data: seq<byte>)
      requires !closed && pos <= |content|
      modifies this
      ensures !closed && pos == |content|
      ensures data == content[old(pos)..]
    {
      data := content[pos..];
      pos := |content|;
    }

    method Close()
      modifies this
      ensures closed && pos == old(pos)
    {
      closed := true;
    }
  }

  /** `VideoReader`: records every byte it hands out in `buffer` so that
      `Refresh` can rewind to byte 0 without reopening the resource, until the
      buffer grows past `maxBufferLength`. `pointer` is the index in `buffer` of
      the last byte handed out since the last rewind, -1 at the start. */
  class VideoReader {
    const content: seq<byte>
    const maxBufferLength: nat
    var stream: ByteStream
    var buffer: seq<byte>
    var pointer: int
    var closed: bool
    /** How many times the resource has been opened. */
    ghost var opens: nat

    /** The reader's fields satisfy `Consistent` over the resource it reads. */
    ghost predicate Valid()
      reads this, stream
    {
      && !closed
      && stream.content == content && !stream.closed
      && Consistent(content, maxBufferLength, stream.pos, buffer, pointer)
    }

    /** `_is_buffer_full`: overflow is strict. */
    predicate IsBufferFull()
      reads this
    {
      |buffer| > maxBufferLength
    }

    /** Where in the resource the next byte handed out comes from. */
    ghost function Cursor(): (p: nat)
      reads this, stream
      requires Valid()
      ensures p <= |content|
    {
      CursorOf(content, maxBufferLength, stream.pos, buffer, pointer)
    }

    constructor (content: seq<byte>, maxBufferLength: nat)
      ensures Valid() && fresh(stream)
      ensures this.content == content && this.maxBufferLength == maxBufferLength
      ensures buffer == [] && pointer == -1 && Cursor() == 0 && opens == 1
    {
      this.content := content;
      this.maxBufferLength := maxBufferLength;
      stream := new ByteStream.Open(content);
      buffer := [];
      pointer := -1;
      closed := false;
      opens := 1;
    }

    /** `read(num_of_byte)`: the next `n` bytes of the resource, served from the
        buffer, from the stream, or from both, or straight from the stream once
        the buffer has overflowed. */
    method Read(n: nat) returns (data: seq<byte>)
      requires Valid()
      modifies this, stream
      ensures Valid() && stream == old(stream) && opens == old(opens)
      ensures data == Window(content, old(Cursor()), n)
      ensures Cursor() == Min(old(Cursor()) + n, |content|)
      ensures old(IsBufferFull()) ==> buffer == old(buffer) && pointer == old(pointer)
      ensures !old(IsBufferFull()) ==>
        && pointer == old(pointer) + n
        && buffer == content[..Max(|old(buffer)|, Min(old(pointer) + 1 + n, |content|))]
      ensures !old(IsBufferFull()) && |old(buffer)| - (old(pointer) + 1) >= n ==>
        buffer == old(buffer) && stream.pos == old(stream.pos)
    {
      if IsBufferFull() {
        FullRead(content, maxBufferLength, stream.pos, buffer, pointer, n);
        data := stream.Read(n);
        return;
      }
      var bufferLen := |buffer|;
      if bufferLen == pointer + 1 {
        data := ReadFresh(n);
      } else if bufferLen - (pointer + 1) >= n {
        data := ReadBuffered(n);
      } else {
        data := ReadMixed(n);
      }
    }

    /** `read(num_of_byte)` as the decoders see it: the bytes handed out and
        the cursor's advance, leaving the buffer bookkeeping to `Read`. */
    method ReadChunk(n: nat) returns (data: seq<byte>)
      requires Valid()
      modifies this, stream
      ensures Valid() && stream == old(stream) && opens == old(opens)
      ensures data == Window(content, old(Cursor()), n)
      ensures Cursor() == Min(old(Cursor()) + n, |content|)
      ensures !IsBufferFull() ==> !old(IsBufferFull()) && pointer == old(pointer) + n
    {
      data := Read(n);
    }

    /** `read(num_of_byte)` with the negative count `-d`, as `find_moov_box`
        issues it for a box that declares itself smaller than its own header.
        After overflow the stream reads to its end. Otherwise the pointer moves
        back `d` bytes, and when it stood at the end of the buffer the stream's
        remaining bytes are read and buffered first. */
    method ReadNegative(d: nat) returns (data: seq<byte>)
      requires Valid() && 0 < d
      requires IsBufferFull() || d <= pointer + 1
      modifies this, stream
      ensures Valid() && stream == old(stream) && opens == old(opens)
      ensures data == if old(IsBufferFull()) || |old(buffer)| == old(pointer) + 1 then content[old(stream.pos)..] else []
      ensures old(IsBufferFull()) ==> buffer == old(buffer) && pointer == old(pointer)
      ensures !old(IsBufferFull()) ==> pointer == old(pointer) - d
      ensures !old(IsBufferFull()) && |old(buffer)| == old(pointer) + 1 ==> buffer == content
      ensures !old(IsBufferFull()) && |old(buffer)| != old(pointer) + 1 ==>
        buffer == old(buffer) && stream.pos == old(stream.pos)
      ensures IsBufferFull() ==> Cursor() == |content|
      ensures !IsBufferFull() ==> !old(IsBufferFull()) && Cursor() == Min(old(pointer) + 1 - d, |content|)
    {
      if IsBufferFull() {
        data := stream.ReadRest();
        return;
      }
      var bufferLen := |buffer|;
      if bufferLen == pointer + 1 {
        data := stream.ReadRest();
        buffer := buffer + data;
      } else if bufferLen - (pointer + 1) >= -(d as int) {
        data := [];  // the slice of the buffer runs backwards
      } else {
        // the pointer is past the end of a fully buffered resource: the
        // buffered part is empty and so is the read at the stream's end
        data := stream.Read(pointer + 1 - bufferLen - d);
        buffer := buffer + data;
      }
      pointer := pointer - d;
    }

    /** The branch of `read` where every byte is a fresh read. */
    method ReadFresh(n: nat) returns (data: seq<byte>)
      requires Valid() && !IsBufferFull() && |buffer| == pointer + 1
      modifies this, stream
      ensures Valid() && stream == old(stream) && opens == old(opens)
      ensures data == Window(content, old(Cursor()), n)
      ensures Cursor() == Min(old(Cursor()) + n, |content|)
      ensures pointer == old(pointer) + n
      ensures buffer == content[..Max(|old(buffer)|, Min(old(pointer) + 1 + n, |content|))]
    {
      FreshRead(content, maxBufferLength, stream.pos, buffer, pointer, n);
      data := stream.Read(n);
      buffer := buffer + data;
      pointer := pointer + n;
    }

    /** The branch of `read` where every byte comes from the buffer. */
    method ReadBuffered(n: nat) returns (data: seq<byte>)
      requires Valid() && !IsBufferFull() && |buffer| - (pointer + 1) >= n
      modifies this
      ensures Valid() && stream == old(stream) && opens == old(opens)
      ensures data == Window(content, old(Cursor()), n)
      ensures Cursor() == Min(old(Cursor()) + n, |content|)
      ensures pointer == old(pointer) + n && buffer == old(buffer)
      ensures buffer == content[..Max(|old(buffer)|, Min(old(pointer) + 1 + n, |content|))]
    {
      BufferedRead(content, maxBufferLength, stream.pos, buffer, pointer, n);
      pointer := pointer + n;
      data := buffer[pointer - n + 1..pointer + 1];
    }

    /** The branch of `read` where the buffered remainder comes first and a
        fresh read supplies the shortfall. */
    method ReadMixed(n: nat) returns (data: seq<byte>)
      requires Valid() && !IsBufferFull()
      requires |buffer| != pointer + 1 && |buffer| - (pointer + 1) < n
      modifies this, stream
      ensures Valid() && stream == old(stream) && opens == old(opens)
      ensures data == Window(content, old(Cursor()), n)
      ensures Cursor() == Min(old(Cursor()) + n, |content|)
      ensures pointer == old(pointer) + n
      ensures buffer == content[..Max(|old(buffer)|, Min(old(pointer) + 1 + n, |content|))]
    {
      MixedRead(content, maxBufferLength, stream.pos, buffer, pointer, n);
      var bufferLen := |buffer|;
      var bufferPart := if pointer + 1 <= bufferLen then buffer[pointer + 1..] else [];
      var shortfall := n - (bufferLen - (pointer + 1));
      var readPart := stream.Read(shortfall);
      buffer := buffer + readPart;
      pointer := pointer + n;
      data := bufferPart + readPart;
    }

    /** `refresh`: rewind to byte 0, reopening the resource and dropping the
        buffer only when the buffer has overflowed. */
    method Refresh()
      requires Valid()
      modifies this, stream
      ensures Valid() && pointer == -1 && Cursor() == 0
      ensures old(IsBufferFull()) ==>
        buffer == [] && fresh(stream) && old(stream).closed && opens == old(opens) + 1
      ensures !old(IsBufferFull()) ==>
        buffer == old(buffer) && stream == old(stream) && stream.pos == old(stream.pos) && opens == old(opens)
    {
      if IsBufferFull() {
        stream.Close();
        stream := new ByteStream.Open(content);  // `_open_stream`
        opens := opens + 1;
        buffer := [];
      }
      pointer := -1;
    }

    /** `close`: the reader is unusable afterwards. */
    method Close()
      requires Valid()
      modifies this, stream
      ensures closed && stream.closed && buffer == []
    {
      stream.Close();
      buffer := [];
      closed := true;
    }

    /** `read_int(k)`: a `k`-byte big-endian unsigned integer. */
    method ReadInt(k: nat) returns (res: Result<nat>)
      requires Valid()
      modifies this, stream
      ensures Valid() && stream == old(stream) && opens == old(opens)
      ensures Cursor() == Min(old(Cursor()) + k, |content|)
      ensures !IsBufferFull() ==> !old(IsBufferFull()) && pointer == old(pointer) + k
      ensures Agrees(res, IntAt(content, old(Cursor()), k), Cursor())
    {
      var data := ReadChunk(k);
      if |data| < k {
        return Failure(ShortRead);
      }
      BigEndianAtSlice(content, old(Cursor()), k);
      return Success(BigEndian(data));
    }

    /** `read_str(k)`: a `k`-byte tag, kept as its bytes. */
    method ReadStr(k: nat) returns (res: Result<seq<byte>>)
      requires Valid()
      modifies this, stream
      ensures Valid() && stream == old(stream) && opens == old(opens)
      ensures Cursor() == Min(old(Cursor()) + k, |content|)
      ensures !IsBufferFull() ==> !old(IsBufferFull()) && pointer == old(pointer) + k
      ensures Agrees(res, TagAt(content, old(Cursor()), k), Cursor())
    {
      var data := ReadChunk(k);
      if |data| < k {
        return Failure(ShortRead);
      }
      return Success(data);
    }

    /** `read_float(a, b)`: an `a`-byte integer part followed by a `b`-byte
        fractional part, kept as the two raw integers. */
    method ReadFloat(a: nat, b: nat) returns (res: Result<FixedPoint>)
      requires Valid()
      modifies this, stream
      ensures Valid() && stream == old(stream) && opens == old(opens)
      ensures Cursor() == Min(old(Cursor()) + a + b, |content|)
      ensures Agrees(res, FixedAt(content, old(Cursor()), a, b), Cursor())
    {
      var data := ReadChunk(a + b);
      if |data| < a + b {
        return Failure(ShortRead);
      }
      FixedWindow(content, old(Cursor()), a, b);
      return Success(FixedPoint(BigEndian(data[..a]), BigEndian(data[a..])));
    }
  }

  /** The reader's state: the buffer is the start of the resource, and the
      stream has handed out at least the buffered bytes. While the buffer has
      not overflowed the stream has handed out exactly the buffered bytes, and
      the pointer runs past the buffer only once the whole resource is buffered
      (a read advances the pointer by the count asked for, even when it came
      back short). */
  ghost predicate Consistent(content: seq<byte>, maxLen: nat, pos: nat, buffer: seq<byte>, pointer: int) {
    && pos <= |content|
    && -1 <= pointer
    && |buffer| <= pos
    && buffer == content[..|buffer|]
    && (|buffer| <= maxLen ==> pos == |buffer|)
    && (|buffer| <= maxLen && pointer + 1 > |buffer| ==> |buffer| == |content|)
  }

  /** Where the next byte handed out comes from: the stream position once the
      buffer has overflowed, the byte after the pointer before. */
  ghost function CursorOf(content: seq<byte>, maxLen: nat, pos: nat, buffer: seq<byte>, pointer: int): (p: nat)
    requires Consistent(content, maxLen, pos, buffer, pointer)
    ensures p <= |content|
  {
    if |buffer| > maxLen then pos else Min(pointer + 1, |content|)
  }

  /** After overflow a read goes straight to the stream. */
  lemma {:induction false} FullRead(content: seq<byte>, maxLen: nat, pos: nat, buffer: seq<byte>, pointer: int, n: nat)
    requires Consistent(content, maxLen, pos, buffer, pointer) && |buffer| > maxLen
    ensures var data := Window(content, pos, n);
      && Consistent(content, maxLen, pos + |data|, buffer, pointer)
      && CursorOf(content, maxLen, pos + |data|, buffer, pointer) == Min(pos + n, |content|)
  {
  }

  /** With the pointer at the end of the buffer, a read is a fresh read that
      the buffer records. */
  lemma {:induction false} FreshRead(content: seq<byte>, maxLen: nat, pos: nat, buffer: seq<byte>, pointer: int, n: nat)
    requires Consistent(content, maxLen, pos, buffer, pointer)
    requires |buffer| <= maxLen && |buffer| == pointer + 1
    ensures var data := Window(content, pos, n);
      && pos == CursorOf(content, maxLen, pos, buffer, pointer)
      && buffer + data == content[..Max(|buffer|, Min(pointer + 1 + n, |content|))]
      && Consistent(content, maxLen, pos + |data|, buffer + data, pointer + n)
      && CursorOf(content, maxLen, pos + |data|, buffer + data, pointer + n) == Min(pos + n, |content|)
  {
    var data := Window(content, pos, n);
    PrefixExtend(content, |buffer|, pos + |data|);
  }

  /** With at least `n` bytes buffered beyond the pointer, a read replays them. */
  lemma {:induction false} BufferedRead(content: seq<byte>, maxLen: nat, pos: nat, buffer: seq<byte>, pointer: int, n: nat)
    requires Consistent(content, maxLen, pos, buffer, pointer)
    requires |buffer| <= maxLen && |buffer| - (pointer + 1) >= n
    ensures var start := CursorOf(content, maxLen, pos, buffer, pointer);
      && start == pointer + 1
      && buffer[pointer + 1..pointer + 1 + n] == Window(content, start, n)
      && buffer == content[..Max(|buffer|, Min(pointer + 1 + n, |content|))]
      && Consistent(content, maxLen, pos, buffer, pointer + n)
      && CursorOf(content, maxLen, pos, buffer, pointer + n) == Min(start + n, |content|)
  {
    assert buffer[pointer + 1..pointer + 1 + n] == content[pointer + 1..pointer + 1 + n];
  }

  /** With fewer than `n` bytes buffered beyond the pointer, a read replays
      them and reads the shortfall fresh, and the buffer records it. */
  lemma {:induction false} MixedRead(content: seq<byte>, maxLen: nat, pos: nat, buffer: seq<byte>, pointer: int, n: nat)
    requires Consistent(content, maxLen, pos, buffer, pointer)
    requires |buffer| <= maxLen && |buffer| != pointer + 1 && |buffer| - (pointer + 1) < n
    ensures var start := CursorOf(content, maxLen, pos, buffer, pointer);
      var bufferPart := if pointer + 1 <= |buffer| then buffer[pointer + 1..] else [];
      var readPart := Window(content, pos, n - (|buffer| - (pointer + 1)));
      && bufferPart + readPart == Window(content, start, n)
      && buffer + readPart == content[..Max(|buffer|, Min(pointer + 1 + n, |content|))]
      && Consistent(content, maxLen, pos + |readPart|, buffer + readPart, pointer + n)
      && CursorOf(content, maxLen, pos + |readPart|, buffer + readPart, pointer + n) == Min(start + n, |content|)
  {
    var readPart := Window(content, pos, n - (|buffer| - (pointer + 1)));
    PrefixExtend(content, |buffer|, pos + |readPart|);
    if pointer + 1 <= |buffer| {
      assert buffer[pointer + 1..] == content[pointer + 1..pos];
    }
  }

  /** The two parts of a full read of `a + b` bytes decode to the integers
      stored in place. */
  lemma {:induction false} FixedWindow(c: seq<byte>, p: nat, a: nat, b: nat)
    requires p + a + b <= |c|
    ensures var data := Window(c, p, a + b);
      BigEndian(data[..a]) == BigEndianAt(c, p, a) && BigEndian(data[a..]) == BigEndianAt(c, p + a, b)
  {
    var data := Window(c, p, a + b);
    assert data == c[p..p + a + b];
    assert data[..a] == c[p..p + a];
    assert data[a..] == c[p + a..p + a + b];
    BigEndianAtSlice(c, p, a);
    BigEndianAtSlice(c, p + a, b);
  }

  lemma {:induction false} PrefixExtend(c: seq<byte>, k: nat, m: nat)
    requires k <= m <= |c|
    ensures c[..k] + c[k..m] == c[..m]
  {
  }

  /** The first eight bytes of the mp4 file the reader tests open. */
  const TEST_VIDEO_HEAD: seq<byte> := [0x00, 0x00, 0x00, 0x20, 0x66, 0x74, 0x79, 0x70]

  lemma {:induction false} HeadWindow(rest: seq<byte>, p: nat, n: nat)
    requires p + n <= |TEST_VIDEO_HEAD|
    ensures Window(TEST_VIDEO_HEAD + rest, p, n) == TEST_VIDEO_HEAD[p..p + n]
  {
    assert (TEST_VIDEO_HEAD + rest)[p..p + n] == TEST_VIDEO_HEAD[p..p + n];
  }

  /** The windows of the test file's head that the reader scenarios read. */
  lemma {:induction false} HeadBytes(rest: seq<byte>)
    ensures var c := TEST_VIDEO_HEAD + rest;
      && Window(c, 0, 1) == [0x00] && Window(c, 1, 1) == [0x00]
      && Window(c, 0, 2) == [0x00, 0x00] && Window(c, 2, 2) == [0x00, 0x20]
      && Window(c, 0, 3) == [0x00, 0x00, 0x00] && Window(c, 2, 3) == [0x00, 0x20, 0x66]
      && Window(c, 3, 3) == [0x20, 0x66, 0x74] && Window(c, 4, 3) == [0x66, 0x74, 0x79]
      && Window(c, 5, 3) == [0x74, 0x79, 0x70] && Window(c, 0, 5) == [0x00, 0x00, 0x00, 0x20, 0x66]
  {
    HeadWindow(rest, 0, 1);
    HeadWindow(rest, 1, 1);
    HeadWindow(rest, 0, 2);
    HeadWindow(rest, 2, 2);
    HeadWindow(rest, 0, 3);
    HeadWindow(rest, 2, 3);
    HeadWindow(rest, 3, 3);
    HeadWindow(rest, 4, 3);
    HeadWindow(rest, 5, 3);
    HeadWindow(rest, 0, 5);
  }

  /** Successive reads of 1, 1, 2 and 3 bytes hand out consecutive bytes. */
  method ReadScenario(rest: seq<byte>) returns (outputs: seq<seq<byte>>)
    ensures outputs == [[0x00], [0x00], [0x00, 0x20], [0x66, 0x74, 0x79]]
  {
    var r := new VideoReader(TEST_VIDEO_HEAD + rest, MAX_BUFFER_LENGTH);
    HeadBytes(rest);
    var a := r.Read(1);
    var b := r.Read(1);
    var c := r.Read(2);
    var d := r.Read(3);
    r.Close();
    outputs := [a, b, c, d];
  }

  /** After each refresh the reads start again from byte 0, replayed from the
      buffer and continued from the stream where they run past it. */
  method RefreshScenario(rest: seq<byte>) returns (outputs: seq<seq<byte>>, ghost openCount: nat)
    ensures outputs == [[0x00, 0x00, 0x00], [0x00, 0x00], [0x00, 0x20, 0x66],
                        [0x00, 0x00, 0x00, 0x20, 0x66], [0x74, 0x79, 0x70]]
    ensures openCount == 1
  {
    var r := new VideoReader(TEST_VIDEO_HEAD + rest, MAX_BUFFER_LENGTH);
    HeadBytes(rest);
    var a := r.Read(3);
    assert a == [0x00, 0x00, 0x00];
    r.Refresh();
    var b := r.Read(2);
    assert b == [0x00, 0x00];
    var c := r.Read(3);
    assert c == [0x00, 0x20, 0x66];
    r.Refresh();
    var d := r.Read(5);
    assert d == [0x00, 0x00, 0x00, 0x20, 0x66];
    var e := r.Read(3);
    assert e == [0x74, 0x79, 0x70];
    openCount := r.opens;
    r.Close();
    outputs := [a, b, c, d, e];
  }

  /** With a 5-byte capacity the buffer overflows during the second pass (6
      bytes buffered); the refresh after it reopens the resource, and reading
      still starts from byte 0. */
  method OverflowScenario(rest: seq<byte>) returns (outputs: seq<seq<byte>>, ghost openCount: nat)
    ensures outputs == [[0x00, 0x00, 0x00], [0x00, 0x00], [0x00, 0x20, 0x66],
                        [0x00, 0x00, 0x00], [0x20, 0x66, 0x74], [0x00, 0x00, 0x00], [0x00, 0x00]]
    ensures openCount == 2
  {
    var r := new VideoReader(TEST_VIDEO_HEAD + rest, 5);
    var a, b, c := FillToCapacity(r, rest);
    var d, e := Overflow(r, rest);
    r.Refresh();
    assert r.opens == 2;
    HeadBytes(rest);
    var f := r.Read(3);
    assert f == [0x00, 0x00, 0x00];
    r.Refresh();
    var g := r.Read(2);
    assert g == [0x00, 0x00];
    r.Refresh();
    openCount := r.opens;
    r.Close();
    outputs := [a, b, c, d, e, f, g];
  }

  /** The first pass of the overflow scenario: reads of 3, then 2 and 3 after a
      refresh, fill a 5-byte buffer exactly. */
  method FillToCapacity(r: VideoReader, rest: seq<byte>) returns (a: seq<byte>, b: seq<byte>, c: seq<byte>)
    requires r.Valid() && r.content == TEST_VIDEO_HEAD + rest && r.maxBufferLength == 5
    requires r.buffer == [] && r.pointer == -1
    modifies r, r.stream
    ensures r.Valid() && r.stream == old(r.stream) && r.opens == old(r.opens)
    ensures r.content == TEST_VIDEO_HEAD + rest && r.maxBufferLength == 5
    ensures |r.buffer| == 5 && r.pointer == 4
    ensures a == [0x00, 0x00, 0x00] && b == [0x00, 0x00] && c == [0x00, 0x20, 0x66]
  {
    HeadBytes(rest);
    a := r.Read(3);
    r.Refresh();
    b := r.Read(2);
    c := r.Read(3);
  }

  /** The second pass of the overflow scenario: after a refresh, reads of 3
      and 3 replay the buffer and push it one byte past its capacity. */
  method Overflow(r: VideoReader, rest: seq<byte>) returns (d: seq<byte>, e: seq<byte>)
    requires r.Valid() && r.content == TEST_VIDEO_HEAD + rest && r.maxBufferLength == 5
    requires |r.buffer| == 5 && r.pointer == 4
    modifies r, r.stream
    ensures r.Valid() && r.stream == old(r.stream) && r.opens == old(r.opens)
    ensures r.content == TEST_VIDEO_HEAD + rest && r.maxBufferLength == 5
    ensures r.IsBufferFull()
    ensures d == [0x00, 0x00, 0x00] && e == [0x20, 0x66, 0x74]
  {
    HeadBytes(rest);
    r.Refresh();
    d := r.Read(3);
    e := r.Read(3);
  }

  /** A decoded value and the cursor just after it. */
  datatype Parsed<+T> = Parsed(value: T, next: nat)

  /** A decoder succeeds with value `v` and leaves the cursor at `next`. */
  predicate Decodes<T(==)>(r: Result<Parsed<T>>, v: T, next: nat) {
    r.Success? && r.value.value == v && r.value.next == next
  }

  datatype FixedPoint = FixedPoint(whole: nat, fraction: nat)

  /** A reader method's result agrees with a decoder over the content: the same
      value, with the reader's cursor where the decoder stopped, or the same error. */
  predicate Agrees<T(==)>(res: Result<T>, spec: Result<Parsed<T>>, cursor: nat) {
    match spec
    case Success(parsed) => res == Success(parsed.value) && cursor == parsed.next
    case Failure(e) => res == Failure(e)
  }

  /** What `read_int(k)` decodes at `p`. */
  function IntAt(c: seq<byte>, p: nat, k: nat): Result<Parsed<nat>> {
    if p + k <= |c| then Success(Parsed(BigEndianAt(c, p, k), p + k)) else Failure(ShortRead)
  }

  /** What `read_str(k)` decodes at `p`. */
  function TagAt(c: seq<byte>, p: nat, k: nat): Result<Parsed<seq<byte>>> {
    if p + k <= |c| then Success(Parsed(c[p..p + k], p + k)) else Failure(ShortRead)
  }

  /** What `read_float(a, b)` decodes at `p`. */
  function FixedAt(c: seq<byte>, p: nat, a: nat, b: nat): Result<Parsed<FixedPoint>> {
    if p + a + b <= |c| then
      Success(Parsed(FixedPoint(BigEndianAt(c, p, a), BigEndianAt(c, p + a, b)), p + a + b))
    else Failure(ShortRead)
  }
}
