/** storage/log_manager.{h,cc}: segment file naming, the parse of a segment
  * file name back into its base offset, term and format version, and how a
  * managed log is assembled from the files of its directory. */
module LogManager {
  import opened Common
  import opened ModelTypes

  // ------------------------------------------------------------ record versions

  /** record_version_type. version.h is not part of this model: the only
    * version named is v1, spelled "v1"; any other spelling is kept as text. */
  datatype RecordVersion = V1 | OtherVersion(name: string)

  function VersionToString(v: RecordVersion): string
  {
    match v
    case V1 => "v1"
    case OtherVersion(n) => n
  }

  function VersionFromString(s: string): (v: RecordVersion)
    ensures v == V1 <==> s == "v1"
  {
    if s == "v1" then V1 else OtherVersion(s)
  }

  /** A version whose spelling can stand in a segment file name and be parsed
    * back: non-empty ASCII without NUL or '/', and not a second spelling of v1. */
  predicate WellNamed(v: RecordVersion)
  {
    var n := VersionToString(v);
    && |n| > 0 && AllAscii(n) && NoChar(n, '\0') && NoChar(n, '/')
    && (v.OtherVersion? ==> n != "v1")
  }

  lemma VersionRoundTrip(v: RecordVersion)
    requires WellNamed(v)
    ensures VersionFromString(VersionToString(v)) == v
  {
  }

  // ------------------------------------------------------------ string helpers

  predicate AllAscii(s: string) { forall i :: 0 <= i < |s| ==> s[i] as int < 128 }

  /** ECMAScript's `.` matches any character but a line terminator. */
  predicate IsLineEnd(c: char) { c == '\n' || c == '\r' }

  /** The index of the first `c` in `s`, or |s| when there is none. */
  function IndexOf(s: string, c: char): (k: nat)
    ensures k <= |s|
  {
    if s == [] then 0
    else if s[0] == c then 0
    else 1 + IndexOf(s[1..], c)
  }

  /** Unless IndexOf runs off the end, a `c` stands where it points. */
  lemma {:induction false} IndexOfFinds(s: string, c: char)
    ensures IndexOf(s, c) < |s| ==> s[IndexOf(s, c)] == c
    decreases |s|
  {
    if s != [] && s[0] != c {
      IndexOfFinds(s[1..], c);
    }
  }

  /** No `c` stands before where IndexOf points. */
  lemma {:induction false} IndexOfFirst(s: string, c: char)
    ensures NoChar(s[..IndexOf(s, c)], c)
    decreases |s|
  {
    if s != [] && s[0] != c {
      var k := IndexOf(s, c);
      IndexOfFirst(s[1..], c);
      assert s[..k] == [s[0]] + s[1..][..k - 1];
    }
  }

  lemma {:induction false} IndexOfAfter(a: string, c: char, b: string)
    requires NoChar(a, c)
    ensures IndexOf(a + ([c] + b), c) == |a|
    decreases |a|
  {
    if a != [] {
      assert (a + ([c] + b))[1..] == a[1..] + ([c] + b);
      IndexOfAfter(a[1..], c, b);
    }
  }

  /** The part of a path after its last '/'. */
  function LastComponent(s: string): (r: string)
    ensures NoChar(r, '/') && |r| <= |s| && r == s[|s| - |r|..]
  {
    if s == [] || s[|s| - 1] == '/' then []
    else LastComponent(s[..|s| - 1]) + [s[|s| - 1]]
  }

  lemma {:induction false} LastComponentAfterSlash(a: string, b: string)
    requires NoChar(b, '/')
    ensures LastComponent(a + "/" + b) == b
    decreases |b|
  {
    if b != [] {
      var s := a + "/" + b;
      assert s[..|s| - 1] == a + "/" + b[..|b| - 1];
      LastComponentAfterSlash(a, b[..|b| - 1]);
    }
  }

  // ------------------------------------------------------------ make_filename

  /** The file name of a segment: `<base offset>-<raft term>-<version>.log`. */
  function SegmentName(offset: int, term: int, version: RecordVersion): string
  {
    IntToString(offset) + "-" + IntToString(term) + "-" + VersionToString(version) + ".log"
  }

  /** make_filename: a segment lives at `<base>/<ntp path>/<segment name>`. */
  function MakeFilename(base: string, ntp: Ntp, offset: int, term: int, version: RecordVersion): string
  {
    base + "/" + NtpPath(ntp) + "/" + SegmentName(offset, term, version)
  }

  /** The path is the base, namespace, topic and partition directories, then
    * the segment name. */
  lemma MakeFilenameLayout(base: string, ntp: Ntp, offset: int, term: int, version: RecordVersion)
    ensures MakeFilename(base, ntp, offset, term, version) ==
      base + "/" + ntp.ns + "/" + ntp.topic + "/" + IntToString(ntp.partition) + "/" + SegmentName(offset, term, version)
  {
  }

  // ------------------------------------------------ extract_segment_metadata

  /** The groups of `^(\d+)-(\d+)-([\x00-\x7F]+).log$` and the character the
    * unescaped `.` matched. */
  datatype Parts = Parts(offset: string, term: string, version: string, dot: char)

  /** The match runs over the bytes of the UTF-8 name, so the unescaped `.`
    * consumes one byte: only an ASCII character (one byte) other than a line
    * end can stand there; digits, the version group and "log" are ASCII too,
    * so a character of the model is a byte of the name throughout. */
  predicate PartsOk(p: Parts)
  {
    && |p.offset| > 0 && AllDigits(p.offset)
    && |p.term| > 0 && AllDigits(p.term)
    && |p.version| > 0 && AllAscii(p.version)
    && p.dot as int < 128 && !IsLineEnd(p.dot)
  }

  function Compose(p: Parts): string
  {
    p.offset + ("-" + (p.term + ("-" + (p.version + ([p.dot] + "log")))))
  }

  /** The strings the regex matches in full, by definition. */
  ghost predicate MatchesPattern(s: string)
  {
    exists p: Parts {:trigger Compose(p)} :: PartsOk(p) && s == Compose(p)
  }

  /** Where the regex's groups fall: both `\d+` groups end at a '-', which a
    * digit cannot be, and `.log$` fixes the last four characters, so the
    * greedy version group is everything in between. */
  function Cut(s: string): Option<Parts>
  {
    var i := IndexOf(s, '-');
    if i == |s| then None
    else
      var rest := s[i + 1..];
      var j := IndexOf(rest, '-');
      if j == |rest| then None
      else
        var tail := rest[j + 1..];
        if |tail| < 4 || tail[|tail| - 3] != 'l' || tail[|tail| - 2] != 'o' || tail[|tail| - 1] != 'g' then None
        else Some(Parts(s[..i], rest[..j], tail[..|tail| - 4], tail[|tail| - 4]))
  }

  /** The regex match: the groups where they fall, when each is of its class. */
  function MatchParts(s: string): Option<Parts>
  {
    match Cut(s)
    case None => None
    case Some(p) => if PartsOk(p) then Some(p) else None
  }

  /** Whatever the matcher accepts is of the pattern, with those groups. */
  lemma MatchPartsSound(s: string)
    ensures var r := MatchParts(s); r.Some? ==> PartsOk(r.value) && s == Compose(r.value)
  {
    CutSound(s);
  }

  /** The groups Cut finds compose back to the string. */
  lemma CutSound(s: string)
    ensures Cut(s).Some? ==> s == Compose(Cut(s).value)
  {
    if Cut(s).Some? {
      var p := Cut(s).value;
      var i := IndexOf(s, '-');
      var rest := s[i + 1..];
      var j := IndexOf(rest, '-');
      var tail := rest[j + 1..];
      assert p == Parts(s[..i], rest[..j], tail[..|tail| - 4], tail[|tail| - 4]);
      IndexOfFinds(s, '-');
      IndexOfFinds(rest, '-');
      Rejoin(s, i);
      Rejoin(rest, j);
      LogTail(tail);
      Recompose(s, s[..i], rest, rest[..j], tail, tail[..|tail| - 4], tail[|tail| - 4]);
    }
  }

  /** A string with a '-' at `i` is what precedes it, the '-', and the rest. */
  lemma Rejoin(s: string, i: nat)
    requires i < |s| && s[i] == '-'
    ensures s == s[..i] + ("-" + s[i + 1..])
  {
    SplitAt(s, i);
  }

  /** Substituting the three cuts gives the composed form. */
  lemma Recompose(s: string, a: string, rest: string, b: string, tail: string, v: string, d: char)
    requires s == a + ("-" + rest) && rest == b + ("-" + tail) && tail == v + ([d] + "log")
    ensures s == Compose(Parts(a, b, v, d))
  {
  }

  /** A string ending in `log` is what comes before its last four
    * characters, the character before `log`, and `log`. */
  lemma LogTail(tail: string)
    requires |tail| >= 4 && tail[|tail| - 3] == 'l' && tail[|tail| - 2] == 'o' && tail[|tail| - 1] == 'g'
    ensures tail == tail[..|tail| - 4] + ([tail[|tail| - 4]] + "log")
  {
    assert tail[|tail| - 3..] == "log";
    SplitAt(tail[..|tail| - 3], |tail| - 4);
    assert tail == tail[..|tail| - 3] + tail[|tail| - 3..];
  }

  /** The pieces of `a + [c] + b`, by position. */
  lemma Around(a: string, c: char, b: string)
    ensures var s := a + ([c] + b);
      && |s| == |a| + 1 + |b| && s[..|a|] == a && s[|a|] == c && s[|a| + 1..] == b
      && s[|s| - |b|..] == b && s[..|s| - |b| - 1] == a
  {
    var s := a + ([c] + b);
    assert s[..|a|] == a;
    assert s[|a| + 1..] == b;
  }

  /** A string is its part before index `i`, the character there, and the
    * rest. */
  lemma SplitAt(s: string, i: nat)
    requires i < |s|
    ensures s == s[..i] + ([s[i]] + s[i + 1..])
  {
    assert s == s[..i] + s[i..];
    assert s[i..] == [s[i]] + s[i + 1..];
  }

  /** Every string of the pattern is matched, with its own groups. */
  lemma MatchPartsComplete(p: Parts)
    requires PartsOk(p)
    ensures MatchParts(Compose(p)) == Some(p)
  {
    CutComposed(p.offset, p.term, p.version, p.dot);
  }

  /** Cut finds the groups of a composed string whose first two groups hold
    * no '-'. */
  lemma CutComposed(a: string, b: string, v: string, d: char)
    requires NoChar(a, '-') && NoChar(b, '-')
    ensures Cut(a + ("-" + (b + ("-" + (v + ([d] + "log")))))) == Some(Parts(a, b, v, d))
  {
    var tail := v + ([d] + "log");
    var rest := b + ("-" + tail);
    var s := a + ("-" + rest);
    assert IndexOf(s, '-') == |a| && s[|a| + 1..] == rest && s[..|a|] == a by {
      IndexOfAfter(a, '-', rest);
      Around(a, '-', rest);
    }
    assert IndexOf(rest, '-') == |b| && rest[|b| + 1..] == tail && rest[..|b|] == b by {
      IndexOfAfter(b, '-', tail);
      Around(b, '-', tail);
    }
    assert tail[..|tail| - 4] == v && tail[|tail| - 4] == d by {
      Around(v, d, "log");
    }
    assert tail[|tail| - 3] == 'l' && tail[|tail| - 2] == 'o' && tail[|tail| - 1] == 'g' by {
      Around(v, d, "log");
      assert tail[|tail| - 3..] == "log";
    }
  }

  /** The matcher accepts exactly the strings of the pattern. */
  lemma MatchPartsMeetsPattern(s: string)
    ensures MatchParts(s).Some? <==> MatchesPattern(s)
  {
    MatchPartsSound(s);
    if MatchesPattern(s) {
      var p: Parts :| PartsOk(p) && s == Compose(p);
      MatchPartsComplete(p);
    }
  }

  datatype Extracted =
    | NotSegmentName                  // the name is not a segment name
    | CastFailure              // boost::bad_lexical_cast on a group
    | Parsed(offset: int, term: int, version: RecordVersion)

  /** model::offset is an int64 built from the parsed uint64. */
  function Int64OfUint64(v: nat): (r: int)
    requires v < 0x1_0000_0000_0000_0000
    ensures -0x8000_0000_0000_0000 <= r < 0x8000_0000_0000_0000
    ensures v < 0x8000_0000_0000_0000 ==> r == v
  {
    if v < 0x8000_0000_0000_0000 then v else v - 0x1_0000_0000_0000_0000
  }

  /** extract_segment_metadata(seg). The regex sees the name as a C string, up
    * to its first NUL. The offset is read as a uint64 and the term as an int64;
    * a value out of range is a cast failure. */
  function ExtractSegmentMetadata(seg: string): (r: Extracted)
  {
    var s := seg[..IndexOf(seg, '\0')];
    match MatchParts(s)
    case None => NotSegmentName
    case Some(p) =>
      var offset := DigitsValue(p.offset);
      var term := DigitsValue(p.term);
      if offset >= 0x1_0000_0000_0000_0000 || term >= 0x8000_0000_0000_0000 then CastFailure
      else Parsed(Int64OfUint64(offset), term, VersionFromString(p.version))
  }

  /** Exactly the names whose part before any NUL is of the pattern are
    * segment names. */
  lemma ExtractMeetsPattern(seg: string)
    ensures !MatchesPattern(seg[..IndexOf(seg, '\0')]) <==> ExtractSegmentMetadata(seg) == NotSegmentName
  {
    MatchPartsMeetsPattern(seg[..IndexOf(seg, '\0')]);
  }

  /** A composed name parses to its groups' values. */
  lemma ExtractComposed(p: Parts)
    requires PartsOk(p) && NoChar(p.version, '\0') && p.dot != '\0'
    ensures var offset := DigitsValue(p.offset);
      var term := DigitsValue(p.term);
      ExtractSegmentMetadata(Compose(p)) ==
        if offset >= 0x1_0000_0000_0000_0000 || term >= 0x8000_0000_0000_0000 then CastFailure
        else Parsed(Int64OfUint64(offset), term, VersionFromString(p.version))
  {
    var s := Compose(p);
    assert NoChar(s, '\0');
    IndexOfFinds(s, '\0');
    assert s[..IndexOf(s, '\0')] == s;
    MatchPartsComplete(p);
  }

  lemma SegmentNameParts(a: string, b: string, v: string)
    ensures a + "-" + b + "-" + v + ".log" == Compose(Parts(a, b, v, '.'))
  {
    assert ".log" == ['.'] + "log";
  }

  /** The name make_filename gives a segment parses back to its offset, term
    * and version, for offsets and terms an int64 holds without a sign. */
  lemma ExtractSegmentName(offset: int, term: int, version: RecordVersion)
    requires 0 <= offset < 0x8000_0000_0000_0000 && 0 <= term < 0x8000_0000_0000_0000
    requires WellNamed(version)
    ensures ExtractSegmentMetadata(SegmentName(offset, term, version)) == Parsed(offset, term, version)
  {
    var a, b, v := NatToString(offset), NatToString(term), VersionToString(version);
    NatToStringDigits(offset);
    NatToStringDigits(term);
    SegmentNameParts(a, b, v);
    ExtractComposed(Parts(a, b, v, '.'));
    VersionRoundTrip(version);
  }

  /** ... and it is the last component of the full path. */
  lemma MakeFilenameLastComponent(base: string, ntp: Ntp, offset: int, term: int, version: RecordVersion)
    requires 0 <= offset && 0 <= term && WellNamed(version)
    ensures LastComponent(MakeFilename(base, ntp, offset, term, version)) == SegmentName(offset, term, version)
  {
    var name := SegmentName(offset, term, version);
    assert NoChar(name, '/') by {
      NatToStringDigits(offset);
      NatToStringDigits(term);
    }
    LastComponentAfterSlash(base + "/" + NtpPath(ntp), name);
  }

  /** The `.` before `log` is unescaped: any ASCII character but a line end
    * (or the NUL that ends the C string) stands there and the name parses as
    * if it were a dot. */
  lemma AnyCharBeforeLog(p: Parts)
    requires PartsOk(p) && NoChar(p.version, '\0') && p.dot != '\0'
    ensures ExtractSegmentMetadata(Compose(p)) == ExtractSegmentMetadata(Compose(p.(dot := '.')))
  {
    ExtractComposed(p);
    ExtractComposed(p.(dot := '.'));
  }

  /** A non-ASCII character before `log` takes two or more bytes in UTF-8,
    * which one `.` cannot match: `0-1-vélog` is not a segment name, nor is
    * any name of the pattern with such a character before `log`. */
  lemma NonAsciiBeforeLogRejected(p: Parts)
    requires PartsOk(p.(dot := '.')) && NoChar(p.version, '\0') && p.dot as int >= 128
    ensures MatchParts(Compose(p)) == None
    ensures ExtractSegmentMetadata(Compose(p)) == NotSegmentName
  {
    var s := Compose(p);
    assert MatchParts(s) == None by {
      CutComposed(p.offset, p.term, p.version, p.dot);
    }
    assert s[..IndexOf(s, '\0')] == s by {
      assert NoChar(s, '\0') by {
        assert NoChar(p.offset, '\0') && NoChar(p.term, '\0');
      }
      IndexOfFinds(s, '\0');
    }
  }

  /** The version group is greedy: in `<o>-<t>-<v>.log.log` it takes
    * `<v>.log`, which is not v1. */
  lemma GreedyVersion(a: string, b: string, v: string)
    requires a != [] && AllDigits(a) && b != [] && AllDigits(b)
    requires DigitsValue(a) < 0x1_0000_0000_0000_0000 && DigitsValue(b) < 0x8000_0000_0000_0000
    requires v != [] && AllAscii(v) && NoChar(v, '\0')
    ensures ExtractSegmentMetadata(a + "-" + b + "-" + (v + ".log") + ".log") ==
      Parsed(Int64OfUint64(DigitsValue(a)), DigitsValue(b), OtherVersion(v + ".log"))
  {
    var p := Parts(a, b, v + ".log", '.');
    SegmentNameParts(a, b, v + ".log");
    assert NoChar(v + ".log", '\0');
    ExtractComposed(p);
  }

  /** A segment reader: its file, the term and base offset parsed from the
    * name, the file's size, and the exclusive last offset recovery gives it. */
  class SegmentReader {
    const filename: string
    const term: int
    const baseOffset: int
    const size: nat
    /** set_last_written_offset; unset until the log manager sets it. */
    var lastWrittenOffset: Option<int>
    var closed: bool

    constructor(filename: string, term: int, baseOffset: int, size: nat)
      ensures this.filename == filename && this.term == term && this.baseOffset == baseOffset
      ensures this.size == size && lastWrittenOffset == None && !closed
    {
      this.filename := filename;
      this.term := term;
      this.baseOffset := baseOffset;
      this.size := size;
      lastWrittenOffset := None;
      closed := false;
    }
  }

  /** What a manage step records about a segment file it accepted. */
  datatype SegmentInfo = SegmentInfo(filename: string, term: int, baseOffset: int, size: nat)

  function Describe(r: SegmentReader): SegmentInfo
  {
    SegmentInfo(r.filename, r.term, r.baseOffset, r.size)
  }

  function DescribeAll(rs: seq<SegmentReader>): (d: seq<SegmentInfo>)
    ensures |d| == |rs| && forall i :: 0 <= i < |rs| ==> d[i] == Describe(rs[i])
  {
    if rs == [] then [] else DescribeAll(rs[..|rs| - 1]) + [Describe(rs[|rs| - 1])]
  }

  predicate Distinct(rs: seq<SegmentReader>)
  {
    forall i, j :: 0 <= i < j < |rs| ==> rs[i] != rs[j]
  }

  /** log_set: the ordered segments of one log. */
  class LogSet {
    var segments: seq<SegmentReader>

    constructor(segments: seq<SegmentReader>)
      ensures this.segments == segments
    {
      this.segments := segments;
    }
  }

  /** set_max_offsets: every segment but the last ends where the next one
    * begins. */
  method SetMaxOffsets(segSet: LogSet)
    requires Distinct(segSet.segments)
    modifies segSet.segments
    ensures forall i :: 0 <= i < |segSet.segments| - 1 ==>
      segSet.segments[i].lastWrittenOffset == Some(segSet.segments[i + 1].baseOffset)
    ensures |segSet.segments| > 0 ==>
      segSet.segments[|segSet.segments| - 1].lastWrittenOffset == old(segSet.segments[|segSet.segments| - 1].lastWrittenOffset)
    ensures forall r :: r in segSet.segments ==> r.closed == old(r.closed)
  {
    var segs := segSet.segments;
    var i := 0;
    while i < |segs|
      invariant 0 <= i <= |segs|
      invariant forall k :: 0 <= k < i && k < |segs| - 1 ==> segs[k].lastWrittenOffset == Some(segs[k + 1].baseOffset)
      invariant forall k :: i <= k < |segs| ==> segs[k].lastWrittenOffset == old(segs[k].lastWrittenOffset)
      invariant |segs| > 0 ==> segs[|segs| - 1].lastWrittenOffset == old(segs[|segs| - 1].lastWrittenOffset)
      invariant forall r :: r in segs ==> r.closed == old(r.closed)
    {
      if i + 1 < |segs| {
        segs[i].lastWrittenOffset := Some(segs[i + 1].baseOffset);
      }
      i := i + 1;
    }
  }

  /** What recovery did to the last segment's file. */
  datatype FileAction = NoAction | Removed(path: string) | Renamed(from: string, to: string)

  /** do_recover: the last segment is replayed (`recovered` is the last valid
    * offset the replay found, if it succeeded). A replayed segment ends one
    * past that offset. A segment that cannot be replayed leaves the set; its
    * file is removed when empty and renamed aside otherwise. */
  method DoRecover(segSet: LogSet, recovered: Option<int>) returns (action: FileAction)
    modifies segSet, if segSet.segments != [] then {segSet.segments[|segSet.segments| - 1]} else {}
    ensures old(segSet.segments) == [] ==> segSet.segments == [] && action == NoAction
    ensures forall i :: 0 <= i < |old(segSet.segments)| - 1 && old(segSet.segments)[i] != old(segSet.segments)[|old(segSet.segments)| - 1] ==>
      unchanged(old(segSet.segments)[i])
    ensures old(segSet.segments) != [] ==>
      var last := old(segSet.segments)[|old(segSet.segments)| - 1];
      && (recovered.Some? ==>
            && segSet.segments == old(segSet.segments) && action == NoAction
            && last.lastWrittenOffset == Some(recovered.value + 1) && last.closed == old(last.closed))
      && (recovered.None? ==>
            && segSet.segments == old(segSet.segments)[..|old(segSet.segments)| - 1]
            && last.lastWrittenOffset == old(last.lastWrittenOffset)
            && (last.size == 0 ==> last.closed && action == Removed(last.filename))
            && (last.size != 0 ==> last.closed == old(last.closed)
                                   && action == Renamed(last.filename, last.filename + ".cannotrecover")))
  {
    if segSet.segments == [] {
      return NoAction;
    }
    var last := segSet.segments[|segSet.segments| - 1];
    if recovered.Some? {
      last.lastWrittenOffset := Some(recovered.value + 1);
      return NoAction;
    }
    segSet.segments := segSet.segments[..|segSet.segments| - 1];
    if last.size == 0 {
      last.closed := true;
      action := Removed(last.filename);
    } else {
      action := Renamed(last.filename, last.filename + ".cannotrecover");
    }
  }

  /** The state manage leaves a log's segments in, given the segments the
    * walk accepted: without a recovered offset the last accepted segment is
    * dropped; every remaining segment but the last ends where its successor
    * begins; the last ends after the recovered offset, or where the dropped
    * segment began. */
  ghost predicate RecoveredLog(segs: seq<SegmentReader>, walked: seq<SegmentInfo>, recovered: Option<int>)
    reads segs
  {
    && DescribeAll(segs) == (if recovered.None? && walked != [] then walked[..|walked| - 1] else walked)
    && (forall i :: 0 <= i < |segs| - 1 ==> segs[i].lastWrittenOffset == Some(segs[i + 1].baseOffset))
    && (recovered.Some? && segs != [] ==> segs[|segs| - 1].lastWrittenOffset == Some(recovered.value + 1))
    && (recovered.None? && segs != [] ==>
          segs[|segs| - 1].lastWrittenOffset == Some(walked[|walked| - 1].baseOffset))
  }

  /** The middle of manage: the walked readers become a log_set, every one
    * but the last ends where its successor begins, and the last is
    * recovered. */
  method RecoverSegments(segSet: LogSet, ghost walked: seq<SegmentInfo>, recovered: Option<int>)
    returns (action: FileAction)
    requires Distinct(segSet.segments) && DescribeAll(segSet.segments) == walked
    modifies segSet, segSet.segments
    ensures RecoveredLog(segSet.segments, walked, recovered)
    ensures var readers := old(segSet.segments);
      && segSet.segments == (if recovered.None? && readers != [] then readers[..|readers| - 1] else readers)
      && (recovered.Some? && readers != [] ==> action == NoAction)
      && (recovered.None? && readers != [] ==>
            var last := readers[|readers| - 1];
            && (last.size == 0 ==> last.closed && action == Removed(last.filename))
            && (last.size != 0 ==> action == Renamed(last.filename, last.filename + ".cannotrecover")))
      && (readers == [] ==> action == NoAction)
  {
    ghost var readers := segSet.segments;
    SetMaxOffsets(segSet);
    action := DoRecover(segSet, recovered);
    if recovered.None? && readers != [] {
      var segs := segSet.segments;
      assert DescribeAll(segs) == walked[..|walked| - 1];
      if segs != [] {
        assert segs[|segs| - 1] == readers[|readers| - 2];
        assert Describe(readers[|readers| - 1]) == walked[|walked| - 1];
      }
    }
  }

  // ------------------------------------------------------------------- manage

  datatype EntryKind = Regular | Directory | Link | OtherKind

  /** A directory entry as the walker reports it, with whether opening the
    * file and stat-ing it succeed (`openOk`) and the size the stat gives. */
  datatype DirEntry = DirEntry(name: string, kind: Option<EntryKind>, size: nat, openOk: bool)

  datatype ManageError =
    | BadLexicalCast(name: string) // a segment name whose numbers do not fit
    | TouchFailed(path: string)    // recursive_touch_directory failed
    | OpenFailed(filename: string) // open_file_dma or stat of a segment failed

  /** What the walk does with one entry of directory `path`. */
  datatype Verdict = Skip | Take(info: SegmentInfo) | Fail(error: ManageError)

  /** Only a regular file whose name parses with version v1 is taken; a name
    * whose numbers do not fit fails the walk, and so does a segment file that
    * cannot be opened or stat-ed. */
  function Admit(path: string, e: DirEntry): Verdict
  {
    if e.kind != Some(Regular) then Skip
    else
      match ExtractSegmentMetadata(e.name)
      case NotSegmentName => Skip
      case CastFailure => Fail(BadLexicalCast(e.name))
      case Parsed(offset, term, version) =>
        if version != V1 then Skip
        else if !e.openOk then Fail(OpenFailed(path + "/" + e.name))
        else Take(SegmentInfo(path + "/" + e.name, term, offset, e.size))
  }

  lemma AdmitTake(path: string, e: DirEntry)
    requires Admit(path, e).Take?
    ensures var s := Admit(path, e).info;
      && e.kind == Some(Regular) && e.openOk && s.filename == path + "/" + e.name && s.size == e.size
      && ExtractSegmentMetadata(e.name) == Parsed(s.baseOffset, s.term, V1)
  {
  }

  /** A v1 segment file that cannot be opened or stat-ed fails the walk with
    * its path. */
  lemma ScanOpenFails(path: string, entries: seq<DirEntry>, e: DirEntry, offset: int, term: int)
    requires ScanSegments(path, entries).Ok?
    requires e.kind == Some(Regular) && ExtractSegmentMetadata(e.name) == Parsed(offset, term, V1) && !e.openOk
    ensures ScanSegments(path, entries + [e]) == Err(OpenFailed(path + "/" + e.name))
  {
    assert (entries + [e])[..|entries + [e]| - 1] == entries;
  }

  /** The segments `manage` takes from the entries of directory `path`, in
    * walk order. */
  function ScanSegments(path: string, entries: seq<DirEntry>): (r: Result<seq<SegmentInfo>, ManageError>)
    ensures r.Ok? ==> |r.value| <= |entries|
  {
    if entries == [] then Ok([])
    else
      match ScanSegments(path, entries[..|entries| - 1])
      case Err(e) => Err(e)
      case Ok(segs) =>
        match Admit(path, entries[|entries| - 1])
        case Skip => Ok(segs)
        case Take(info) => Ok(segs + [info])
        case Fail(e) => Err(e)
  }

  /** Every accepted segment comes from a regular entry whose name parses
    * with version v1 and whose numbers it carries. */
  lemma {:induction false} ScanSegmentsSound(path: string, entries: seq<DirEntry>, i: nat)
    requires ScanSegments(path, entries).Ok? && i < |ScanSegments(path, entries).value|
    ensures var s := ScanSegments(path, entries).value[i];
      exists k :: 0 <= k < |entries| && entries[k].kind == Some(Regular) && entries[k].openOk
        && s.filename == path + "/" + entries[k].name && s.size == entries[k].size
        && ExtractSegmentMetadata(entries[k].name) == Parsed(s.baseOffset, s.term, V1)
    decreases |entries|
  {
    var init := entries[..|entries| - 1];
    var segs := ScanSegments(path, init).value;
    var s := ScanSegments(path, entries).value[i];
    if i < |segs| {
      ScanSegmentsSound(path, init, i);
      var k :| 0 <= k < |init| && init[k].kind == Some(Regular) && init[k].openOk
        && s.filename == path + "/" + init[k].name && s.size == init[k].size
        && ExtractSegmentMetadata(init[k].name) == Parsed(s.baseOffset, s.term, V1);
      assert entries[k] == init[k];
    } else {
      var k := |entries| - 1;
      AdmitTake(path, entries[k]);
      assert s == Admit(path, entries[k]).info;
    }
  }

  /** A regular entry named by make_filename with version v1 is accepted. */
  lemma ScanAcceptsSegmentName(path: string, entries: seq<DirEntry>, offset: int, term: int, size: nat)
    requires 0 <= offset < 0x8000_0000_0000_0000 && 0 <= term < 0x8000_0000_0000_0000
    requires ScanSegments(path, entries).Ok?
    ensures var e := DirEntry(SegmentName(offset, term, V1), Some(Regular), size, true);
      ScanSegments(path, entries + [e]) ==
        Ok(ScanSegments(path, entries).value + [SegmentInfo(path + "/" + e.name, term, offset, size)])
  {
    ExtractSegmentName(offset, term, V1);
    ScanAcceptsParsed(path, entries, DirEntry(SegmentName(offset, term, V1), Some(Regular), size, true), offset, term);
  }

  /** A regular entry whose name parses with version v1 is taken. */
  lemma ScanAcceptsParsed(path: string, entries: seq<DirEntry>, e: DirEntry, offset: int, term: int)
    requires ScanSegments(path, entries).Ok?
    requires e.kind == Some(Regular) && ExtractSegmentMetadata(e.name) == Parsed(offset, term, V1) && e.openOk
    ensures ScanSegments(path, entries + [e]) ==
      Ok(ScanSegments(path, entries).value + [SegmentInfo(path + "/" + e.name, term, offset, e.size)])
  {
    assert Admit(path, e) == Take(SegmentInfo(path + "/" + e.name, term, offset, e.size));
    assert (entries + [e])[..|entries + [e]| - 1] == entries;
  }

  /** A managed log: its ntp and its segments. */
  class Log {
    const ntp: Ntp
    const segments: LogSet

    constructor(ntp: Ntp, segments: LogSet)
      ensures this.ntp == ntp && this.segments == segments
    {
      this.ntp := ntp;
      this.segments := segments;
    }
  }

  class LogManagerNode {
    const baseDir: string
    /** _logs: the managed logs by ntp. */
    var logs: map<Ntp, Log>

    constructor(baseDir: string)
      ensures this.baseDir == baseDir && logs == map[]
    {
      this.baseDir := baseDir;
      logs := map[];
    }

    /** size(): the number of managed logs. */
    function Size(): (n: nat)
      reads this
      ensures n == |logs.Keys|
    {
      |logs|
    }

    /** get(ntp): the managed log of `ntp`, if any. */
    function Get(ntp: Ntp): (r: Option<Log>)
      reads this
      ensures r.Some? <==> ntp in logs
      ensures r.Some? ==> r.value == logs[ntp]
    {
      if ntp in logs then Some(logs[ntp]) else None
    }

    /** The rest of manage once the walk succeeded: the readers become the
      * log's log_set, the log is registered unless its ntp already was, and
      * the segments are recovered. */
    method Install(ntp: Ntp, readers: seq<SegmentReader>, ghost walked: seq<SegmentInfo>, recovered: Option<int>)
      returns (log: Log, action: FileAction)
      requires Distinct(readers) && DescribeAll(readers) == walked
      modifies this, readers
      ensures fresh(log) && fresh(log.segments) && log.ntp == ntp
      ensures ntp in old(logs) ==> logs == old(logs)
      ensures ntp !in old(logs) ==> logs == old(logs)[ntp := log] && Size() == old(Size()) + 1
      ensures RecoveredLog(log.segments.segments, walked, recovered)
    {
      var segSet := new LogSet(readers);
      log := new Log(ntp, segSet);
      Emplace(ntp, log);
      action := RecoverSegments(segSet, walked, recovered);
    }

    /** _logs.emplace(ntp, log): inserts only when the ntp is not yet managed. */
    method Emplace(ntp: Ntp, log: Log)
      modifies this
      ensures ntp in old(logs) ==> logs == old(logs)
      ensures ntp !in old(logs) ==> logs == old(logs)[ntp := log] && Size() == old(Size()) + 1
    {
      if ntp !in logs {
        logs := logs[ntp := log];
      }
    }

    /** The directory walk of manage: one reader per accepted entry. */
    method OpenSegments(path: string, entries: seq<DirEntry>) returns (r: Result<seq<SegmentReader>, ManageError>)
      ensures ScanSegments(path, entries).Err? <==> r.Err?
      ensures r.Err? ==> r == Err(ScanSegments(path, entries).error)
      ensures r.Ok? ==> DescribeAll(r.value) == ScanSegments(path, entries).value
      ensures r.Ok? ==> Distinct(r.value) && forall s :: s in r.value ==> fresh(s) && s.lastWrittenOffset == None && !s.closed
    {
      var segs: seq<SegmentReader> := [];
      var i := 0;
      while i < |entries|
        invariant 0 <= i <= |entries|
        invariant ScanSegments(path, entries[..i]).Ok?
        invariant DescribeAll(segs) == ScanSegments(path, entries[..i]).value
        invariant Distinct(segs)
        invariant forall s :: s in segs ==> fresh(s)
        invariant forall s :: s in segs ==> s.lastWrittenOffset == None && !s.closed
      {
        var failed;
        segs, failed := WalkStep(path, entries, i, segs);
        if failed.Some? {
          return Err(failed.value);
        }
        i := i + 1;
      }
      assert entries[..i] == entries;
      r := Ok(segs);
    }

    /** One entry of the walk: skipped, taken as a new reader, or failing. */
    method WalkStep(path: string, entries: seq<DirEntry>, i: nat, segs: seq<SegmentReader>)
      returns (r: seq<SegmentReader>, failed: Option<ManageError>)
      requires i < |entries| && ScanSegments(path, entries[..i]).Ok?
      requires DescribeAll(segs) == ScanSegments(path, entries[..i]).value && Distinct(segs)
      ensures failed.Some? ==> ScanSegments(path, entries) == Err(failed.value)
      ensures failed.None? ==> ScanSegments(path, entries[..i + 1]).Ok?
      ensures failed.None? ==> DescribeAll(r) == ScanSegments(path, entries[..i + 1]).value && Distinct(r)
      ensures failed.None? ==> |segs| <= |r| && r[..|segs|] == segs
      ensures failed.None? ==> forall s :: s in r && s !in segs ==> fresh(s) && s.lastWrittenOffset == None && !s.closed
    {
      ScanStep(path, entries, i);
      r, failed := segs, None;
      match Admit(path, entries[i]) {
        case Skip =>
        case Fail(error) =>
          ScanErrorPersists(path, entries, i + 1);
          failed := Some(error);
        case Take(info) =>
          r := OpenReader(segs, info);
      }
    }

    /** One reader more, for an accepted entry. */
    method OpenReader(segs: seq<SegmentReader>, info: SegmentInfo) returns (r: seq<SegmentReader>)
      requires Distinct(segs)
      ensures Distinct(r) && DescribeAll(r) == DescribeAll(segs) + [info]
      ensures |r| == |segs| + 1 && r[..|segs|] == segs
      ensures fresh(r[|segs|]) && r[|segs|].lastWrittenOffset == None && !r[|segs|].closed
    {
      var reader := new SegmentReader(info.filename, info.term, info.baseOffset, info.size);
      assert Describe(reader) == info;
      DescribeAllSnoc(segs, reader);
      r := segs + [reader];
      assert r[..|segs|] == segs;
    }

    /** manage(ntp): the ntp's directory is created (`touchOk` is the outcome
      * of recursive_touch_directory, whose failure fails manage); the regular
      * v1 segment files of the directory, in walk order, end where their
      * successors begin; the last one is recovered; the log is registered
      * unless its ntp already was. */
    method Manage(ntp: Ntp, touchOk: bool, entries: seq<DirEntry>, recovered: Option<int>)
      returns (r: Result<Log, ManageError>, action: FileAction)
      modifies this
      ensures !touchOk ==> r == Err(TouchFailed(baseDir + "/" + NtpPath(ntp))) && logs == old(logs) && action == NoAction
      ensures touchOk ==> var scan := ScanSegments(baseDir + "/" + NtpPath(ntp), entries);
        && (scan.Err? ==> r == Err(scan.error) && logs == old(logs))
        && (scan.Ok? ==>
              && r.Ok? && fresh(r.value) && fresh(r.value.segments) && r.value.ntp == ntp
              && (ntp in old(logs) ==> logs == old(logs))
              && (ntp !in old(logs) ==> logs == old(logs)[ntp := r.value] && Size() == old(Size()) + 1)
              && RecoveredLog(r.value.segments.segments, scan.value, recovered))
    {
      var path := baseDir + "/" + NtpPath(ntp);
      if !touchOk {
        return Err(TouchFailed(path)), NoAction;
      }
      var walked := OpenSegments(path, entries);
      if walked.Err? {
        return Err(walked.error), NoAction;
      }
      var log;
      assert fresh(set s | s in walked.value);
      log, action := Install(ntp, walked.value, ScanSegments(path, entries).value, recovered);
      r := Ok(log);
    }
  }

  lemma DescribeAllSnoc(rs: seq<SegmentReader>, r: SegmentReader)
    ensures DescribeAll(rs + [r]) == DescribeAll(rs) + [Describe(r)]
  {
    assert (rs + [r])[..|rs|] == rs;
  }

  /** One more entry of the walk. */
  lemma ScanStep(path: string, entries: seq<DirEntry>, i: nat)
    requires i < |entries|
    ensures var prefix := ScanSegments(path, entries[..i]);
      ScanSegments(path, entries[..i + 1]) ==
        match prefix
        case Err(e) => Err(e)
        case Ok(segs) =>
          match Admit(path, entries[i])
          case Skip => Ok(segs)
          case Take(info) => Ok(segs + [info])
          case Fail(e) => Err(e)
  {
    assert entries[..i + 1][..i] == entries[..i];
  }

  /** A failed walk stays failed whatever follows. */
  lemma {:induction false} ScanErrorPersists(path: string, entries: seq<DirEntry>, n: nat)
    requires n <= |entries| && ScanSegments(path, entries[..n]).Err?
    ensures ScanSegments(path, entries) == ScanSegments(path, entries[..n])
    decreases |entries| - n
  {
    if n < |entries| {
      assert entries[..n + 1][..n] == entries[..n];
      ScanErrorPersists(path, entries, n + 1);
    } else {
      assert entries[..n] == entries;
    }
  }
}
