// The probe dispatcher of src/type_checker.py: the video type names, the
// probing order with an optional preferred tag first, and the loop that runs
// each probe on the shared reader and rewinds it afterwards.

module TypeChecker {

  import opened Bytes
  import opened Results
  import opened Input
  import Mp4Format
  import Mp4
  import Mov
  import Avi
  import Asf

  /** The members of `VideoTypeEnum`; `RM` and `RMVB` share the value
      `RmOrRmvb`. */
  datatype VideoType = Unknown | Asf | Avi | Flv | Mkv | Mov | Mp4 | RmOrRmvb

  /** The member part of a type's string value. */
  function Member(v: VideoType): string {
    match v
    case Unknown => "UNKNOWN"
    case Asf => "ASF"
    case Avi => "AVI"
    case Flv => "FLV"
    case Mkv => "MKV"
    case Mov => "MOV"
    case Mp4 => "MP4"
    case RmOrRmvb => "RM_OR_RMVB"
  }

  const ENUM_NAME: string := "VideoTypeEnum"

  /** The string other code sees, such as "VideoTypeEnum.MP4". */
  function Value(v: VideoType): string {
    ENUM_NAME + "." + Member(v)
  }

  /** `getattr(VideoTypeEnum, name, None)` for the upper-case attribute names. */
  function Attribute(name: string): Option<VideoType> {
    if name == "UNKNOWN" then Some(Unknown)
    else if name == "ASF" then Some(Asf)
    else if name == "AVI" then Some(Avi)
    else if name == "FLV" then Some(Flv)
    else if name == "MKV" then Some(Mkv)
    else if name == "MOV" then Some(Mov)
    else if name == "MP4" then Some(Mp4)
    else if name == "RM" || name == "RMVB" then Some(RmOrRmvb)
    else None
  }

  /** `get_all()`: every tag with a parser, in probing order. */
  const ALL: seq<string> := ["asf", "avi", "flv", "mkv", "mov", "mp4", "rm", "rmvb"]

  function UpperChar(ch: char): char {
    if 'a' <= ch <= 'z' then ch - 'a' + 'A' else ch
  }

  function LowerChar(ch: char): char {
    if 'A' <= ch <= 'Z' then ch - 'A' + 'a' else ch
  }

  /** `str.upper()` on ASCII text. */
  function Upper(s: string): (u: string)
    ensures |u| == |s|
    ensures forall i :: 0 <= i < |s| ==> u[i] == UpperChar(s[i])
  {
    if s == [] then []
    else
      var u := [UpperChar(s[0])] + Upper(s[1..]);
      assert forall i :: 1 <= i < |s| ==> u[i] == Upper(s[1..])[i - 1];
      u
  }

  /** `str.lower()` on ASCII text. */
  function Lower(s: string): (l: string)
    ensures |l| == |s|
    ensures forall i :: 0 <= i < |s| ==> l[i] == LowerChar(s[i])
  {
    if s == [] then []
    else
      var l := [LowerChar(s[0])] + Lower(s[1..]);
      assert forall i :: 1 <= i < |s| ==> l[i] == Lower(s[1..])[i - 1];
      l
  }

  /** `get_type(t)`: the member named by the upper-cased tag, or `Unknown`. */
  function GetType(t: string): VideoType {
    match Attribute(Upper(t))
    case None => Unknown
    case Some(v) => v
  }

  /** The text after the last '.' of `s` (all of `s` when it has none), as
      `s.split('.')[-1]` gives it. */
  function LastSegment(s: string): (seg: string)
    ensures |seg| <= |s| && s[|s| - |seg|..] == seg
    ensures '.' !in seg
    ensures |seg| < |s| ==> s[|s| - |seg| - 1] == '.'
  {
    if s == [] then []
    else if s[|s| - 1] == '.' then []
    else
      var seg := LastSegment(s[..|s| - 1]) + [s[|s| - 1]];
      assert s[..|s| - 1][|s| - |seg|..] + [s[|s| - 1]] == s[|s| - |seg|..];
      seg
  }

  /** The preferred tag `check_video_type` derives from its `potential` hint:
      none for UNKNOWN, else the lower-cased text after the last '.'. */
  function Hint(potential: string): Option<string> {
    if potential == Value(Unknown) then None else Some(Lower(LastSegment(potential)))
  }

  /** A dot-free tail after the last '.' is what `split('.')[-1]` returns. */
  lemma {:induction false} LastSegmentAfterDot(prefix: string, s: string)
    requires '.' !in s
    ensures LastSegment(prefix + ['.'] + s) == s
  {
    var whole := prefix + ['.'] + s;
    assert whole[|prefix|] == '.';
  }

  /** The hint taken from a type's own value is its member name in lower case. */
  lemma {:induction false} HintOfValue(v: VideoType)
    requires v != Unknown
    ensures Hint(Value(v)) == Some(Lower(Member(v)))
  {
    assert '.' !in Member(v);
    assert Value(v) == ENUM_NAME + ['.'] + Member(v);
    LastSegmentAfterDot(ENUM_NAME, Member(v));
    assert Value(v) != Value(Unknown) by {
      assert Value(v)[|ENUM_NAME| + 1..] == Member(v);
      assert Value(Unknown)[|ENUM_NAME| + 1..] == Member(Unknown);
    }
  }

  /** `xs` with every occurrence of `x` dropped, the rest in order. */
  function Without(xs: seq<string>, x: string): (r: seq<string>)
    ensures x !in r
    ensures forall y :: y != x ==> multiset(r)[y] == multiset(xs)[y]
  {
    if xs == [] then []
    else
      assert xs == [xs[0]] + xs[1..];
      if xs[0] == x then Without(xs[1..], x) else [xs[0]] + Without(xs[1..], x)
  }

  predicate Distinct(xs: seq<string>) {
    forall i, j :: 0 <= i < j < |xs| ==> xs[i] != xs[j]
  }

  /** `video_parser_iter(first)` over the tags `all`: the order in which the
      probes run. */
  function ParserOrder(all: seq<string>, first: Option<string>): seq<string> {
    if first.Some? && first.value in all then [first.value] + Without(all, first.value) else all
  }

  /** Removing an element that occurs once, at `k`, cuts out just that position. */
  lemma {:induction false} WithoutDistinct(xs: seq<string>, k: nat)
    requires Distinct(xs) && k < |xs|
    ensures Without(xs, xs[k]) == xs[..k] + xs[k + 1..]
  {
    if k == 0 {
      WithoutAbsent(xs[1..], xs[0]);
    } else {
      WithoutDistinct(xs[1..], k - 1);
      assert xs[1..][k - 1] == xs[k];
      assert xs[1..][..k - 1] == xs[1..k] && xs[1..][k..] == xs[k + 1..];
      assert xs[..k] == [xs[0]] + xs[1..k];
    }
  }

  /** Removing an element that does not occur changes nothing. */
  lemma {:induction false} WithoutAbsent(xs: seq<string>, x: string)
    requires x !in xs
    ensures Without(xs, x) == xs
  {
    if xs != [] {
      WithoutAbsent(xs[1..], x);
    }
  }

  /** A preferred tag at position `k` of `all` runs first and the others
      follow in `all`'s order. */
  lemma {:induction false} ParserOrderPreferred(all: seq<string>, k: nat)
    requires Distinct(all) && k < |all|
    ensures ParserOrder(all, Some(all[k])) == [all[k]] + all[..k] + all[k + 1..]
  {
    WithoutDistinct(all, k);
  }

  /** Moving the element at `k` to the front keeps a sequence free of duplicates. */
  lemma {:induction false} DistinctToFront(all: seq<string>, k: nat)
    requires Distinct(all) && k < |all|
    ensures Distinct([all[k]] + all[..k] + all[k + 1..])
    ensures multiset([all[k]] + all[..k] + all[k + 1..]) == multiset(all)
  {
    assert all == all[..k] + [all[k]] + all[k + 1..];
    var order := [all[k]] + all[..k] + all[k + 1..];
    forall i, j | 0 <= i < j < |order|
      ensures order[i] != order[j]
    {
      var jj := if j <= k then j - 1 else j;
      assert order[j] == all[jj];
      if i == 0 {
        assert order[i] == all[k] && jj != k;
      } else if i <= k {
        assert order[i] == all[i - 1] && i - 1 < jj;
      } else {
        assert order[i] == all[i] && i < jj;
      }
    }
  }

  /** Whatever the hint, every tag of `all` is probed exactly once; a hint that
      is no tag leaves `all`'s order as it is. */
  lemma {:induction false} ParserOrderPermutation(all: seq<string>, first: Option<string>)
    requires Distinct(all)
    ensures multiset(ParserOrder(all, first)) == multiset(all)
    ensures Distinct(ParserOrder(all, first))
    ensures !(first.Some? && first.value in all) ==> ParserOrder(all, first) == all
  {
    if first.Some? && first.value in all {
      var k :| 0 <= k < |all| && all[k] == first.value;
      ParserOrderPreferred(all, k);
      DistinctToFront(all, k);
    }
  }

  lemma {:induction false} AllDistinct()
    ensures Distinct(ALL)
  {
  }

  predicate Plain(t: string) {
    forall i :: 0 <= i < |t| ==> 'a' <= t[i] <= 'z' || '0' <= t[i] <= '9'
  }

  /** Lower-casing undoes upper-casing on lower-case letters and digits. */
  lemma {:induction false} LowerUpper(t: string)
    requires Plain(t)
    ensures Lower(Upper(t)) == t
  {
    forall i | 0 <= i < |t|
      ensures Lower(Upper(t))[i] == t[i]
    {
      assert Upper(t)[i] == UpperChar(t[i]);
    }
  }

  /** A tag whose upper-case form names a member maps to that member, and the
      hint taken from the member's value names the tag again. */
  lemma {:induction false} TagRoundTrip(t: string, v: VideoType)
    requires Plain(t) && Upper(t) == Member(v) && v != Unknown && v != RmOrRmvb
    ensures GetType(t) == v
    ensures Hint(Value(v)) == Some(t)
  {
    assert Attribute(Member(v)) == Some(v);
    HintOfValue(v);
    LowerUpper(t);
  }

  /** A tag spelled as a member's name in lower case upper-cases back to that name. */
  lemma {:induction false} UpperOfTag(t: string, v: VideoType)
    requires v != Unknown && v != RmOrRmvb && t == Lower(Member(v))
    ensures Plain(t) && Upper(t) == Member(v)
  {
    forall i | 0 <= i < |t|
      ensures Upper(t)[i] == Member(v)[i]
    {
      assert t[i] == LowerChar(Member(v)[i]);
    }
  }

  /** `get_type` followed by the hint of the type's value gives every tag back
      except "rm" and "rmvb". */
  lemma {:induction false} HintRoundTrip(t: string)
    requires t in ALL && t != "rm" && t != "rmvb"
    ensures Hint(Value(GetType(t))) == Some(t)
  {
    var v := if t == "asf" then Asf else if t == "avi" then Avi else if t == "flv" then Flv
      else if t == "mkv" then Mkv else if t == "mov" then Mov else Mp4;
    assert t == Lower(Member(v));
    UpperOfTag(t, v);
    TagRoundTrip(t, v);
  }

  /** "rm" and "rmvb" name the same type. */
  lemma {:induction false} RmSharesType()
    ensures GetType("rm") == RmOrRmvb && GetType("rmvb") == RmOrRmvb
  {
    assert Upper("rm") == "RM";
    assert Upper("rmvb") == "RMVB";
  }

  lemma {:induction false} AllShort()
    ensures forall t :: t in ALL ==> |t| <= 4
  {
  }

  /** The hint of the shared rm/rmvb value is "rm_or_rmvb", which is no tag,
      so no probe is preferred for it. */
  lemma {:induction false} RmHint(v: VideoType)
    requires v == RmOrRmvb
    ensures Hint(Value(v)) == Some(Lower(Member(v))) && |Member(v)| == 10
    ensures Hint(Value(v)).value !in ALL
    ensures ParserOrder(ALL, Hint(Value(v))) == ALL
  {
    HintOfValue(v);
    AllShort();
  }

  /** The hint UNKNOWN prefers nothing. */
  lemma {:induction false} UnknownHint()
    ensures Hint(Value(Unknown)) == None && ParserOrder(ALL, Hint(Value(Unknown))) == ALL
  {
  }

  /** The verdict of the probe for `t` when it starts at `p`. The flv, mkv,
      rm and rmvb parsers are not part of this model: their verdicts are the
      tags in `passing`. */
  function Probe(c: seq<byte>, p: nat, maxBytes: nat, passing: set<string>, t: string): bool {
    if t == "mp4" then Mp4Format.Mp4Probe(c, p, maxBytes)
    else if t == "mov" then Mov.MovProbe(c, p, maxBytes)
    else if t == "avi" then Avi.AviProbe(c, p)
    else if t == "asf" then Asf.AsfProbe(c, p)
    else t in passing
  }

  /** Where the `i`-th probe starts: the first where the reader stood, every
      later one at byte 0, after the rewind. */
  function StartOf(p: nat, i: nat): nat {
    if i == 0 then p else 0
  }

  /** The type of the first tag in `order` whose probe passes. */
  function Detect(c: seq<byte>, p: nat, maxBytes: nat, passing: set<string>, order: seq<string>): Result<VideoType>
    decreases |order|
  {
    if order == [] then Failure(UnrecognizedVideoType)
    else if Probe(c, p, maxBytes, passing, order[0]) then Success(GetType(order[0]))
    else Detect(c, 0, maxBytes, passing, order[1..])
  }

  /** `check_video_type(reader, potential)` on a reader whose cursor stands at `p`. */
  function CheckVideoTypeSpec(c: seq<byte>, p: nat, maxBytes: nat, passing: set<string>, potential: string): Result<VideoType> {
    Detect(c, p, maxBytes, passing, ParserOrder(ALL, Hint(potential)))
  }

  /** The first probe that passes decides the type. */
  lemma {:induction false} DetectFirstMatch(c: seq<byte>, p: nat, maxBytes: nat, passing: set<string>, order: seq<string>, i: nat)
    requires i < |order| && Probe(c, StartOf(p, i), maxBytes, passing, order[i])
    requires forall j :: 0 <= j < i ==> !Probe(c, StartOf(p, j), maxBytes, passing, order[j])
    ensures Detect(c, p, maxBytes, passing, order) == Success(GetType(order[i]))
    decreases i
  {
    if i > 0 {
      assert !Probe(c, StartOf(p, 0), maxBytes, passing, order[0]);
      forall j | 0 <= j < i - 1
        ensures !Probe(c, StartOf(0, j), maxBytes, passing, order[1..][j])
      {
        assert !Probe(c, StartOf(p, j + 1), maxBytes, passing, order[j + 1]);
      }
      DetectFirstMatch(c, 0, maxBytes, passing, order[1..], i - 1);
    }
  }

  /** Conversely, a detected type comes from a probe that passed, with every
      earlier probe failing. */
  lemma {:induction false} DetectWitness(c: seq<byte>, p: nat, maxBytes: nat, passing: set<string>, order: seq<string>) returns (i: nat)
    requires Detect(c, p, maxBytes, passing, order).Success?
    ensures i < |order| && Probe(c, StartOf(p, i), maxBytes, passing, order[i])
    ensures forall j :: 0 <= j < i ==> !Probe(c, StartOf(p, j), maxBytes, passing, order[j])
    ensures Detect(c, p, maxBytes, passing, order) == Success(GetType(order[i]))
    decreases |order|
  {
    if Probe(c, p, maxBytes, passing, order[0]) {
      i := 0;
    } else {
      var rest := DetectWitness(c, 0, maxBytes, passing, order[1..]);
      i := rest + 1;
      forall j | 0 <= j < i
        ensures !Probe(c, StartOf(p, j), maxBytes, passing, order[j])
      {
        if j > 0 {
          assert order[j] == order[1..][j - 1];
        }
      }
    }
  }

  /** The dispatcher fails exactly when every probe fails. */
  lemma {:induction false} DetectFails(c: seq<byte>, p: nat, maxBytes: nat, passing: set<string>, order: seq<string>)
    ensures Detect(c, p, maxBytes, passing, order).Failure? <==>
      forall j :: 0 <= j < |order| ==> !Probe(c, StartOf(p, j), maxBytes, passing, order[j])
    ensures Detect(c, p, maxBytes, passing, order).Failure? ==>
      Detect(c, p, maxBytes, passing, order) == Failure(UnrecognizedVideoType)
    decreases |order|
  {
    if order != [] {
      DetectFails(c, 0, maxBytes, passing, order[1..]);
      if !Probe(c, p, maxBytes, passing, order[0]) {
        assert forall j :: 0 <= j < |order[1..]| ==> order[1..][j] == order[j + 1];
      }
    }
  }

  /** `type_to_parser(t).type_checking_passed(reader)`. */
  method RunProbe(r: VideoReader, maxBytes: nat, passing: set<string>, t: string) returns (passed: bool)
    requires r.Valid()
    modifies r, r.stream
    ensures r.Valid() && r.stream == old(r.stream)
    ensures passed == Probe(r.content, old(r.Cursor()), maxBytes, passing, t)
  {
    if t == "mp4" {
      passed := Mp4.TypeCheckingPassed(r, maxBytes);
    } else if t == "mov" {
      passed := Mov.TypeCheckingPassed(r, maxBytes);
    } else if t == "avi" {
      passed := Avi.TypeCheckingPassed(r);
    } else if t == "asf" {
      passed := Asf.TypeCheckingPassed(r);
    } else {
      passed := t in passing;
    }
  }

  /** One round of `check_video_type`'s loop: probe, then rewind. */
  method ProbeAndRewind(r: VideoReader, maxBytes: nat, passing: set<string>, t: string) returns (passed: bool)
    requires r.Valid()
    modifies r, r.stream
    ensures r.Valid() && r.pointer == -1 && r.Cursor() == 0
    ensures r.stream == old(r.stream) || fresh(r.stream)
    ensures passed == Probe(r.content, old(r.Cursor()), maxBytes, passing, t)
  {
    passed := RunProbe(r, maxBytes, passing, t);
    r.Refresh();
  }

  /** The loop of `check_video_type` over an arbitrary probing order. `ran`
      counts the probes that ran. */
  method ProbeInOrder(r: VideoReader, maxBytes: nat, passing: set<string>, order: seq<string>)
    returns (res: Result<VideoType>, ghost ran: nat)
    requires r.Valid() && order != []
    modifies r, r.stream
    ensures r.Valid() && r.pointer == -1 && r.Cursor() == 0
    ensures res == Detect(r.content, old(r.Cursor()), maxBytes, passing, order)
    ensures 0 < ran <= |order|
    ensures res.Success? ==> res == Success(GetType(order[ran - 1]))
    ensures res.Failure? ==> ran == |order|
  {
    ghost var c, start := r.content, r.Cursor();
    ghost var spec := Detect(c, start, maxBytes, passing, order);
    var i := 0;
    while i < |order|
      invariant 0 <= i <= |order|
      invariant r.Valid() && r.content == c
      invariant i == 0 ==> r.Cursor() == start
      invariant i > 0 ==> r.pointer == -1 && r.Cursor() == 0
      invariant r.stream == old(r.stream) || fresh(r.stream)
      invariant spec == Detect(c, StartOf(start, i), maxBytes, passing, order[i..])
    {
      var passed := ProbeAndRewind(r, maxBytes, passing, order[i]);
      if passed {
        return Success(GetType(order[i])), i + 1;
      }
      assert order[i..][1..] == order[i + 1..];
      i := i + 1;
    }
    return Failure(UnrecognizedVideoType), i;
  }

  /** `check_video_type`: run the probes in `video_parser_iter` order,
      rewinding the reader after each one, including the one that passes;
      `ran` counts the probes that ran. */
  method CheckVideoType(r: VideoReader, maxBytes: nat, passing: set<string>, potential: string)
    returns (res: Result<VideoType>, ghost ran: nat)
    requires r.Valid()
    modifies r, r.stream
    ensures r.Valid() && r.pointer == -1 && r.Cursor() == 0
    ensures res == CheckVideoTypeSpec(r.content, old(r.Cursor()), maxBytes, passing, potential)
    ensures 0 < ran <= |ParserOrder(ALL, Hint(potential))| == |ALL|
    ensures res.Success? ==> res == Success(GetType(ParserOrder(ALL, Hint(potential))[ran - 1]))
    ensures res.Failure? ==> ran == |ALL|
  {
    var order := ParserOrder(ALL, Hint(potential));
    AllDistinct();
    ParserOrderPermutation(ALL, Hint(potential));
    assert |order| == |multiset(ALL)| == |ALL|;
    res, ran := ProbeInOrder(r, maxBytes, passing, order);
  }
}
