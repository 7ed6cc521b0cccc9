# python-video-info, modelled in Dafny

python-video-info finds out what kind of video a file holds and reads a few facts out of its headers. This project models the core of that work as Dafny and proves properties of the model. The core has four parts:

- **The rewindable reader** (`Input`, after `src/input.py`). `VideoReader` hands out successive chunks of a byte source. It records what it reads in an append-only buffer, so that `refresh` can rewind to byte 0 without reopening the source. Once the buffer holds more than `max_buffer_length` bytes, reads bypass it, and `refresh` closes the source, reopens it and drops the buffer.
  - The source is a `ByteStream`: a class over a fixed `seq<byte>`, with a position and a closed flag.
  - The reader is a class whose `buffer`, `pointer` and `stream` fields its methods update.
  - The central invariant (`Consistent`) has two parts. The buffer is always a prefix of the content. Every chunk handed out is the window of the content at the reader's cursor (`Window`, which is short or empty past the end).
- **ISO base media box decoding** (`Mp4Format` and `Mp4`, after `src/parsers/mp4.py`).
  - `Mp4Format` holds the byte-level specification of each decoder as a function over the content and a position:
    - the box header, with a 64-bit large size when the size field is 1;
    - the file-type box and its compatible brands;
    - the version-0 movie header;
    - the movie box;
    - the search for the first `moov` box;
    - `parse`.
    It also holds the encoders that are their partners, with round-trip lemmas.
  - `Mp4` holds the decoders as methods over the reader. Each is proved to agree with its specification function: same value, same error, and the reader's cursor left where the function says.
- **Probe dispatch** (`TypeChecker`, after `src/type_checker.py`).
  - `VideoTypeEnum` and its string values.
  - `get_type`.
  - The probing order of `video_parser_iter`, with an optional preferred tag first.
  - `check_video_type`: probe in that order, call `refresh` after every probe, return the first type whose probe passes, and fail when none does.
  - The probes themselves (`Mov`, `Avi`, `Asf`, and the mp4 probe in `Mp4`). Each is a method over the reader, proved equal to a predicate over the content.
- **The legacy duration scanner** (`VideoInfo`, after `src/video_info.py`).
  - It scans up to 1000 aligned words for `mvhd`, then reads five words, of which the fourth is the time scale and the fifth the duration.
  - It is modelled as two loops over a `ByteStream`, proved against a function of the file's bytes.
  - A lemma shows that on a file whose movie header is found by the scan, the scanner reads the same time scale and duration as the box decoder.

Modules:
- `Bytes`: windows and big-endian integers.
- `Results`: `Option`, `Result` and the error kinds.
- `Scan`: the aligned-word search shared by the mp4 and mov probes and by the scanner.
- `Input`, `Mp4Format`, `Mp4`, `Mov`, `Avi`, `Asf`, `TypeChecker` and `VideoInfo`.

`TYPE_CHECK_MAX_BYTES` comes from a `consts` module that is not part of this model. Every probe that uses it takes it as the parameter `maxBytes`.

`read_int`, `read_str` and `read_float` are called by `src/parsers/mp4.py` but are not defined in `src/input.py`. They are modelled on top of `read` as `ReadInt`, `ReadStr` and `ReadFloat`:
- `ReadInt` returns a `k`-byte big-endian unsigned integer.
- `ReadStr` returns a `k`-byte tag.
- `ReadFloat` returns the integer and fraction parts of an `(a+b)`-byte fixed-point number.
- Each fails with `ShortRead` when fewer bytes come back than it asked for. The comment at `src/parsers/mp4.py:97` expects exactly that failure at the end of the file.

## Model

| member | source | states |
|---|---|---|
| Bytes.Window | src/input.py:54 | a read of `n` bytes at `p` returns at most `n` bytes, exactly `n` iff they exist, each equal to the content byte at its place |
| Bytes.WindowSplit | src/input.py:65-71 | a read of `a + b` bytes is a read of `a` bytes followed by a read of `b` bytes from where the first stopped |
| Bytes.BigEndian | src/video_info.py:30 | `int.from_bytes(.., 'big')` stays below 256 to the power of the length (0 for the empty read) |
| Bytes.Pow256Add | src/video_info.py:30 | the range of an `(a+b)`-byte big-endian integer is the product of the ranges of its `a`-byte and `b`-byte parts |
| Bytes.ToBigEndian | src/video_info.py:30 | the `k`-byte big-endian encoding of `v` has length `k` and decodes back to `v` |
| Bytes.BigEndianAtSlice | src/parsers/mp4.py:44 | decoding an integer in place agrees with decoding the slice that a read returns |
| Input.ByteStream.Read | src/input.py:108-109 | the file stream's read returns the window at its position and advances the position by the bytes it returned |
| Input.ByteStream.ReadRest | src/input.py:58 | the file stream's read with a negative count returns everything left and moves the position to the end |
| Input.ByteStream.Close | src/input.py:82 | closing the stream leaves its position alone and marks it closed |
| Input.VideoReader.constructor | src/input.py:34-42 | a fresh reader opens its source once, with an empty buffer and pointer -1, so its cursor is byte 0 |
| Input.VideoReader.Read | src/input.py:51-71 | every read returns the content window at the cursor and moves the cursor by `n` (clamped at the end); on overflow the buffer and pointer are unchanged; otherwise the pointer moves by `n` and the buffer is the content prefix up to the furthest byte read; a read covered by the buffer leaves buffer and stream untouched |
| Input.VideoReader.ReadChunk | src/input.py:51-71 | the bytes and cursor advance of `read`, as the decoders rely on them |
| Input.VideoReader.ReadNegative | src/input.py:51-71 | `read(-d)`: after overflow it reads the stream to its end (cursor at the end); otherwise the pointer moves back `d`; at the buffer end the rest of the resource is read and buffered first, otherwise buffer and stream are untouched; without overflow the cursor lands `d` before the pointer's old end |
| Input.VideoReader.ReadFresh | src/input.py:57-61 | with the pointer at the buffer end, a read returns the stream's next bytes, appends exactly them to the buffer and advances the pointer by `n` |
| Input.VideoReader.ReadBuffered | src/input.py:62-64 | when the buffered remainder covers `n`, the read replays the buffer at the cursor, leaving the buffer unchanged |
| Input.VideoReader.ReadMixed | src/input.py:65-71 | a straddling read returns the buffered remainder followed by a fresh read of the shortfall, appends only the fresh part and advances the pointer by `n` |
| Input.VideoReader.Refresh | src/input.py:73-79 | refresh puts the cursor back at byte 0; without overflow the buffer, stream and stream position are kept; after overflow the old stream is closed, a fresh one opened and the buffer emptied |
| Input.VideoReader.Close | src/input.py:81-83 | close closes the stream and drops the buffer |
| Input.VideoReader.ReadInt | src/parsers/mp4.py:44 | `read_int(k)` agrees with `IntAt`: the big-endian integer at the cursor and the cursor `k` bytes on, or a short-read failure |
| Input.VideoReader.ReadStr | src/parsers/mp4.py:45 | `read_str(k)` agrees with `TagAt`: the `k` bytes at the cursor, or a short-read failure |
| Input.VideoReader.ReadFloat | src/parsers/mp4.py:123-124 | `read_float(a, b)` agrees with `FixedAt`: the `a`-byte and `b`-byte integer parts, `a + b` bytes consumed, or a short-read failure |
| Input.FullRead | src/input.py:53-54 | after overflow a read from the stream keeps the reader consistent and moves the cursor by the bytes read |
| Input.FreshRead | src/input.py:57-61 | a fresh read at the buffer end extends the buffer to a longer content prefix and keeps the reader consistent |
| Input.BufferedRead | src/input.py:62-64 | the buffer slice after the pointer is the content window at the cursor |
| Input.MixedRead | src/input.py:65-71 | buffered remainder plus fresh shortfall is the content window at the cursor, and the extended buffer is again a content prefix |
| Input.ReadScenario | tests/test_input.py:17-22 | reads of 1, 1, 2 and 3 bytes of the test file give 00, 00, 00 20, 66 74 79 |
| Input.RefreshScenario | tests/test_input.py:24-32 | after each refresh, reads restart at byte 0 with the same bytes as the first pass, from a source opened once |
| Input.OverflowScenario | tests/test_input.py:34-47 | with capacity 5 the buffer overflows, the next refresh reopens the source, and reads still restart at byte 0 |
| Input.FillToCapacity | tests/test_input.py:36-39 | the first pass fills a 5-byte buffer exactly, with the expected bytes |
| Input.Overflow | tests/test_input.py:40-42 | the second pass replays the buffer and pushes it past its capacity, with the expected bytes |
| Scan.FindAlignedWordFound | src/parsers/mp4.py:28-30 | a word the scan reports lies within the budget, equals the tag, and no earlier word does |
| Scan.FindAlignedWordNone | src/parsers/mp4.py:28-35 | the scan finds nothing only when no budgeted word equals the tag |
| Scan.FindAlignedWordFirst | src/parsers/mp4.py:28-30 | conversely, the first budgeted word equal to the tag is the one reported |
| Scan.FindAlignedWordAbsent | src/parsers/mp4.py:28-35 | conversely, with no budgeted word equal to the tag the scan reports nothing |
| Scan.WordAtCursor | src/parsers/mp4.py:28-29 | the `j`-th successive 4-byte read from `p` returns the `j`-th aligned word |
| Mp4Format.Mp4ProbeMeaning | src/parsers/mp4.py:17-35 | the mp4 probe passes iff the first aligned `ftyp` word within `maxBytes / 4` words is followed by a brand in `FTYP_CONSEQUENCE_TYPES` |
| Mp4Format.Mp4ProbeAt | src/parsers/mp4.py:28-34 | once the first `ftyp` is word `k`, the probe's answer is decided by word `k + 1` alone: the scan stops there |
| Mp4Format.Mp4ProbeAbsent | src/parsers/mp4.py:28-35 | without `ftyp` within the budget the probe fails |
| Mp4Format.FirstFtypUnique | src/parsers/mp4.py:28-34 | "the first `ftyp` word is followed by an accepted brand" is exactly what the scan result says |
| Mp4Format.BoxHeaderAt | src/parsers/mp4.py:38-50 | a decoded header has a 4-byte type, header length 8 or 16 (16 exactly when the size field is 1), and ends within the content where the cursor stops |
| Mp4Format.BoxHeaderRoundTrip | src/parsers/mp4.py:38-50 | decoding an encoded header gives it back and consumes exactly its 8 or 16 bytes |
| Mp4Format.IntAtEncoded | src/parsers/mp4.py:44 | `read_int(k)` of an encoded integer gives it back |
| Mp4Format.TagAtEncoded | src/parsers/mp4.py:45 | `read_str(k)` of a tag gives it back |
| Mp4Format.FixedAtEncoded | src/parsers/mp4.py:123-124 | `read_float(a, b)` of an encoded fixed-point value gives both parts back |
| Mp4Format.BrandCount | src/parsers/mp4.py:91-92 | the brand count is the number of whole 4-byte words after the 8 fixed bytes, 0 when the box is smaller |
| Mp4Format.TagsAt | src/parsers/mp4.py:92 | `count` tag reads succeed iff `4 * count` bytes remain; they give `count` 4-byte tags, in place, with the cursor `4 * count` on; otherwise a short read |
| Mp4Format.TagsRoundTrip | src/parsers/mp4.py:92 | reading back concatenated tags gives the tags |
| Mp4Format.FtypAt | src/parsers/mp4.py:81-92 | a decoded file-type box has type `ftyp`, as many brands as `BrandCount` says, and ends `8 + 4 * count` bytes after its header |
| Mp4Format.FtypRoundTrip | src/parsers/mp4.py:81-92 | decoding an encoded file-type box gives it back and consumes exactly the box |
| Mp4Format.MvhdAt | src/parsers/mp4.py:106-132 | a decoded movie header has type `mvhd`, version 0 and a non-zero time scale, and ends 100 bytes after its header (or at the end of the content, since the skipped reads may come back short) |
| Mp4Format.MvhdTimingAt | src/parsers/mp4.py:120-132 | the timing part keeps the header and the fields read before it, rejects a zero time scale, and ends 88 bytes on (clamped) |
| Mp4Format.MvhdFieldsEncoded | src/parsers/mp4.py:114-124 | each field of an encoded movie header decodes back from its own offset |
| Mp4Format.MvhdRoundTrip | src/parsers/mp4.py:106-132 | decoding an encoded version-0 movie header gives its fields back and consumes exactly the 108-byte box |
| Mp4Format.MvhdVersionRejected | src/parsers/mp4.py:114-115 | a version byte other than 0 fails right after it is read |
| Mp4Format.MoovAt | src/parsers/mp4.py:135-143 | a decoded movie box has type `moov` |
| Mp4Format.FindMoovAt | src/parsers/mp4.py:95-103 | the search returns a `moov` header that ends after the start and within the content; a box smaller than its header stops it (the corrected search of the finding below) |
| Mp4Format.EncodedBoxAt | src/parsers/mp4.py:38-50 | an encoded box reads back its header, and the whole box lies within the content |
| Mp4Format.FindMoovAtEnd | src/parsers/mp4.py:96-99 | with fewer than 8 bytes left the search fails with a short read |
| Mp4Format.FindMoovSkipsOne | src/parsers/mp4.py:99-103 | a box other than `moov` sends the search to the box after it, `size - offset` bytes past its header |
| Mp4Format.FindMoovSkips | src/parsers/mp4.py:95-103 | a run of boxes other than `moov` is skipped whole |
| Mp4Format.FindMoovFindsFirst | src/parsers/mp4.py:95-103 | the search returns the header of the first `moov` box, with the cursor just after it |
| Mp4Format.FindMoovRunsOut | src/parsers/mp4.py:96-99 | with no `moov` box before the end the search fails with a short read, never returning normally |
| Mp4Format.FindMoovNegativeSkip | src/parsers/mp4.py:103 | in the corrected search, a box whose size is smaller than its own header (size 0 included) stops the search with an error instead of sending it back |
| Mp4Format.ParseRoundTrip | src/parsers/mp4.py:146-152 | a file-type box, skippable boxes, then a `moov` box starting with a movie header parse to exactly those boxes |
| Mp4Format.ParseOfParts | src/parsers/mp4.py:146-151 | `parse` is the file-type box, then the search, then the movie box over the header found |
| Mp4Format.SampleEncodable | src/parsers/mp4.py:81-143 | the sample file-type, movie and movie-header boxes fit the layouts their decoders read |
| Mp4Format.SampleFileParses | src/parsers/mp4.py:146-152 | a concrete file with a five-second movie header parses to its boxes, with time scale 1000 and duration 5000 |
| Mp4Format.FtypOnlyFileFails | src/parsers/mp4.py:146-150 | a file that ends after its file-type box fails with a short read while looking for `moov` |
| Mp4.TypeCheckingPassed | src/parsers/mp4.py:25-35 | the mp4 probe over the reader answers `Mp4Probe` of the content at the cursor it started from |
| Mp4.CheckBrand | src/parsers/mp4.py:30-34 | the read after the first `ftyp` decides the probe |
| Mp4.ReadBoxSizeAndType | src/parsers/mp4.py:38-50 | the header read agrees with `BoxHeaderAt` |
| Mp4.ReadHeader | src/parsers/mp4.py:63-67 | a box takes the header it is given, or reads one, and agrees with `HeaderOrRead` |
| Mp4.ReadBrands | src/parsers/mp4.py:92 | the brand reads agree with `TagsAt` |
| Mp4.ReadFtypBox | src/parsers/mp4.py:81-92 | `FTYPBox` agrees with `FtypAt` |
| Mp4.ReadMvhdBox | src/parsers/mp4.py:106-132 | `MVHDBox` agrees with `MvhdAt` |
| Mp4.ReadMvhdTiming | src/parsers/mp4.py:120-132 | the time scale, duration, rate, volume and skipped reads agree with `MvhdTimingAt` |
| Mp4.SkipReserved | src/parsers/mp4.py:125-132 | the four ignored reads move the cursor 74 bytes (clamped) |
| Mp4.ReadMoovBox | src/parsers/mp4.py:135-143 | `MOOVBox` agrees with `MoovAt` |
| Mp4.FindMoovBox | src/parsers/mp4.py:95-103 | the skip loop agrees with `FindMoovAt`, the corrected search |
| Mp4.SearchStepAsWritten | src/parsers/mp4.py:99-103 | one round of the loop as written: a failed header read fails, a `moov` header is returned, a box that fits is skipped to its end, and a box smaller than its header sends the cursor back to `size` bytes past the header's start unless the buffer has overflowed, when it goes to the end |
| Mp4.SizeZeroFileLayout | src/parsers/mp4.py:146-150 | the example file decodes a file-type box ending at 20 and a size-0 `free` header at 20 |
| Mp4.SizeZeroScenario | src/parsers/mp4.py:95-103 | on a file under 1 MiB with a size-0 `free` box after the file-type box, two rounds of the loop as written skip the same header and leave the cursor at byte 20 each time, so the loop never ends |
| Mp4.Parse | src/parsers/mp4.py:146-152 | `parse` agrees with `ParseAt` |
| Mov.MovProbeMeaning | src/parsers/mov.py:6-15 | the mov probe passes iff the first aligned `ftyp` within the budget is followed by exactly `qt  ` |
| Mov.MovProbeAt | src/parsers/mov.py:10-14 | the scan stops at the first `ftyp`, whatever follows it |
| Mov.MovProbeAbsent | src/parsers/mov.py:8-15 | without `ftyp` within the budget the probe fails |
| Mov.MovExcludesMp4 | src/parsers/mov.py:11 | the mov and mp4 probes never both pass on the same bytes, since `qt  ` is not an mp4 brand |
| Mov.TypeCheckingPassed | src/parsers/mov.py:6-15 | the probe over the reader answers `MovProbe` at its starting cursor and reads at most `4 * (maxBytes / 4) + 4` bytes |
| Mov.CheckBrand | src/parsers/mov.py:10-14 | the read after the first `ftyp` decides the probe and reads one more word |
| Avi.AviProbeMeaning | src/parsers/avi.py:4-11 | the avi probe passes iff 12 bytes remain, bytes 0-3 are `RIFF` and bytes 8-11 are `AVI ` |
| Avi.AviProbeIgnoresSize | src/parsers/avi.py:8 | bytes 4-7, the RIFF size, play no part |
| Avi.AviProbeShort | src/parsers/avi.py:7-11 | fewer than 12 bytes never pass |
| Avi.TypeCheckingPassed | src/parsers/avi.py:4-11 | three 4-byte reads answer `AviProbe` and move the cursor 12 bytes (clamped) |
| Avi.Parse | src/parsers/avi.py:14-15 | `parse` returns its placeholder and reads nothing |
| Asf.AsfProbeMeaning | src/parsers/asf.py:4-7 | the asf probe passes iff the 16 bytes at the cursor are the Header Object GUID, so fewer than 16 never pass |
| Asf.TypeCheckingPassed | src/parsers/asf.py:4-7 | one 16-byte read answers `AsfProbe` and moves the cursor 16 bytes (clamped) |
| Asf.Parse | src/parsers/asf.py:10-11 | `parse` returns its placeholder and reads nothing |
| TypeChecker.Upper | src/type_checker.py:32 | `upper()` keeps the length and upper-cases each character |
| TypeChecker.Lower | src/type_checker.py:65 | `lower()` keeps the length and lower-cases each character |
| TypeChecker.LastSegment | src/type_checker.py:65 | `split('.')[-1]` is a dot-free suffix, preceded by a dot when it is not the whole string |
| TypeChecker.LastSegmentAfterDot | src/type_checker.py:65 | the text after the last dot is what `split('.')[-1]` returns |
| TypeChecker.HintOfValue | src/type_checker.py:62-65 | the hint taken from a type's value is its member name in lower case |
| TypeChecker.Without | src/type_checker.py:55-58 | the rest of the order leaves out the preferred tag and keeps every other tag as often as before |
| TypeChecker.WithoutDistinct | src/type_checker.py:55-58 | leaving out a tag that occurs once cuts out just its position |
| TypeChecker.WithoutAbsent | src/type_checker.py:50-58 | leaving out a tag that does not occur changes nothing |
| TypeChecker.ParserOrderPreferred | src/type_checker.py:46-58 | a preferred tag in `_all` runs first and the others follow in `_all` order |
| TypeChecker.DistinctToFront | src/type_checker.py:50-58 | moving one tag to the front keeps the tags distinct and is a permutation |
| TypeChecker.ParserOrderPermutation | src/type_checker.py:46-58 | every tag is probed exactly once, whatever the hint; a hint outside `_all` leaves the order exactly `_all` |
| TypeChecker.AllDistinct | src/type_checker.py:27 | `_all` has no repeated tag |
| TypeChecker.LowerUpper | src/type_checker.py:32 | lower-casing undoes upper-casing on lower-case letters and digits |
| TypeChecker.TagRoundTrip | src/type_checker.py:16-32 | a tag whose upper-case form names a member maps to that member, and that member's hint is the tag |
| TypeChecker.UpperOfTag | src/type_checker.py:16-32 | a member's name in lower case upper-cases back to that name |
| TypeChecker.HintRoundTrip | src/type_checker.py:31-65 | for each tag of `_all` other than `rm` and `rmvb`, the hint of `get_type(t)` prefers `t` again |
| TypeChecker.RmSharesType | src/type_checker.py:24-32 | `rm` and `rmvb` map to the same type |
| TypeChecker.AllShort | src/type_checker.py:27 | every tag of `_all` has at most 4 characters |
| TypeChecker.RmHint | src/type_checker.py:24-65 | the hint of the shared rm/rmvb value is `rm_or_rmvb`, which is no tag, so no preference applies |
| TypeChecker.UnknownHint | src/type_checker.py:61-63 | the UNKNOWN hint prefers nothing |
| TypeChecker.DetectFirstMatch | src/type_checker.py:67-71 | the first probe in order that passes decides the type |
| TypeChecker.DetectWitness | src/type_checker.py:67-71 | conversely, a detected type comes from a probe that passed, with every earlier probe failing |
| TypeChecker.DetectFails | src/type_checker.py:67-73 | detection fails exactly when every probe fails, and then with "unrecognized video type" |
| TypeChecker.RunProbe | src/type_checker.py:68 | the probe for a tag answers `Probe` at the cursor it started from |
| TypeChecker.ProbeAndRewind | src/type_checker.py:68-69 | a probe followed by `refresh` leaves the reader at byte 0 with pointer -1 |
| TypeChecker.ProbeInOrder | src/type_checker.py:67-73 | the loop returns `Detect` over the order, rewinds after every probe (the last included), returns the type of the last tag it ran on success, and runs every probe on failure |
| TypeChecker.CheckVideoType | src/type_checker.py:61-73 | `check_video_type` returns `CheckVideoTypeSpec` of the content and hint, leaves the reader rewound, and on failure has run all 8 probes |
| VideoInfo.GetVideoDuration | src/video_info.py:8-36 | `get_video_duration` returns `DurationOf` the file |
| VideoInfo.ScanForMovieHeader | src/video_info.py:20-23 | the scan stops just past the first aligned `mvhd` word, or after 1000 words, or at the end of the file |
| VideoInfo.ReadContents | src/video_info.py:25-32 | of the five words read, the fourth is the time scale and the fifth the duration, big-endian |
| VideoInfo.MissingFileFails | src/video_info.py:17-36 | a file that cannot be opened gives -1 |
| VideoInfo.ShortFileFails | src/video_info.py:27-36 | a file of at most 16 bytes gives -1: the time-scale read comes back empty and decodes as 0 |
| VideoInfo.NotFoundReadsOn | src/video_info.py:20-32 | without `mvhd` in the first 1000 words the scanner reads on from byte 4000, and a file of at most 4012 bytes then gives -1 |
| VideoInfo.ScannerReadsMovieHeader | src/video_info.py:17-33 | when the first aligned `mvhd` is a version-0 movie header, the scanner and the box decoder read the same time scale and duration |
| VideoInfo.ScanStopsAtHeader | src/video_info.py:20-23 | the scan stops just past the type word of a movie header at an aligned position |
| VideoInfo.ScannedFields | src/video_info.py:27-32 | the fourth and fifth words of encoded movie-header fields are its time scale and duration |

## Left out

- The byte source. Opening files, the `os.path` checks of `FileVideoReader`, and `RemoteFileReader` with its HTTP adapter (`src/input.py:101-147`) are replaced by a `ByteStream` over a fixed byte sequence. Reopening it starts again at byte 0 of the same content. The remote adapter raises at the end of the data instead of returning a short read, and this is not modelled.
- `__enter__` and `__exit__`: `Close` is modelled. The context-manager protocol is not.
- `TYPE_CHECK_MAX_BYTES`: it comes from a `consts` module that is not part of this model, so the probes take it as a parameter.
- Floats and dates. The model keeps raw integers:
  - `scaled_duration` is not modelled; its division is kept only as the `ZeroTimeScale` failure.
  - The 1904-epoch datetimes are kept as raw seconds.
  - `read_float` values are kept as their two integer parts.
  - `round(duration / time_scale, 3)` is kept as `Seconds(duration, timeScale)`.
- Logging (`logging.debug`) and `Box.json`: they produce text only.
- `Mp4.Parse` returns the decoded boxes. The source's `parse` builds and logs them and returns nothing.
- Tag comparison. `read_str` is modelled as returning the raw 4 bytes, so box types are compared with byte tags such as `ftyp` and `moov`.
- `type_to_parser` loads modules with `import_module`. It is replaced by a fixed map from tag to probe.
- The flv, mkv, rm and rmvb probe modules are not part of this model. Their verdicts form the `passing` set, and they read nothing. So if their reads would overflow the buffer, the reopen that follows is not captured.
- TypeChecker.Upper, TypeChecker.Lower: ASCII case mapping only. Python's Unicode case mapping is not modelled.
- Mp4Format.FindMoovAt, Mp4.FindMoovBox: a box other than `moov` whose size is smaller than its own header stops the search with `NegativeSkip`. The code as written does something else: `reader.read(box_size - offset)` gets a negative count, and the reader moves its pointer back by `offset - size` bytes. For size 0 the next round reads the same header again, so below the buffer limit the loop never ends; for any other size below the header length (2 to 7, or a 64-bit size below 16) the next header is read from inside the previous one. `Mp4.SearchStepAsWritten` and `Mp4.SizeZeroScenario` model that behaviour (see "## Findings"). The rest of the model uses the search that stops.
- Input.VideoReader.ReadNegative: a negative count that would move the pointer before byte 0 is not modelled (the source would go on with negative slice indices). The one caller, the search step, never does this, since it moves back at most the header it has just read.
- The `moov` search when no `moov` box exists: `find_moov_box` loops until the header read at the end of the file fails, as its comment at `src/parsers/mp4.py:97` expects. The model does the same, in `FindMoovRunsOut` and `FtypOnlyFileFails`.
- Box contents beyond the movie header (`trak`, `mdia`, `tkhd`, `hdlr`) and the rest of `moov`: the source does not decode them.
- The command-line entry point (`src/main.py`) and formatting helpers (`src/utils.py`): these are I/O and text output.
- VideoInfo.GetVideoDuration: any exception gives -1. The only ones that can arise here are the failed open and the division by a zero time scale, and both are modelled. The debug log is not.

## Findings

| source | as written | input that shows it | evidently intended | confidence | as-written member | corrected member |
|---|---|---|---|---|---|---|
| src/parsers/mp4.py:95-103 | a box other than `moov` that declares size 0 makes `reader.read(box_size - offset)` read a count of -8; the reader moves its pointer back 8 bytes, and the next round reads the same header again, forever while the file fits the buffer | a 20-byte `ftyp` box followed by `00 00 00 00 66 72 65 65` (a size-0 `free` box) in a file under 1 MiB | the search stops on a box it cannot skip; the comment at line 97 expects it to end with an error at worst | not executed | Mp4.SizeZeroScenario | Mp4Format.FindMoovNegativeSkip |
