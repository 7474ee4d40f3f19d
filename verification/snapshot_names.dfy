/**
 * Snapshot file names: the printer, the parser, and exactly which snapshots they agree on.
 * Strings are sequences of Unicode code points; `lower` is Unicode lower-casing of one code point.
 */
module SnapshotNames {
  import opened Strings
  import opened Timestamps
  import opened Wrappers

  const SEPARATOR := "--"
  const EXT_ZSTD := ".sql.zst"
  const EXT_GZIP := ".sql.gz"

  datatype SnapshotInfo = SnapshotInfo(
    slug: string, reason: string, createdAt: Instant, engine: string, version: string, compression: string)

  // Character classes

  predicate VersionChar(c: char) {
    Alnum(c) || IsUpper(c) || c == '.' || c == '_' || c == '-'
  }

  /** Lower-casing leaves lower-case ASCII letters and digits alone. */
  ghost predicate KeepsLowerAscii(lower: char -> char) {
    forall c: char :: Alnum(c) ==> lower(c) == c
  }

  /** The pattern every label is checked against before a name is built. */
  predicate LabelMatches(reason: string) {
    && 1 <= |reason| <= 32
    && Alnum(reason[0])
    && forall i | 0 <= i < |reason| :: Alnum(reason[i]) || reason[i] == '_'
  }

  predicate AllLowerAlpha(s: string) {
    s != "" && All(s, IsLower)
  }

  // The printer

  function SanitiseEngine(engine: string, lower: char -> char): string {
    var e := Map(Keep(Map(engine, lower), Alnum), lower);
    if e == "" then "mysql" else e
  }

  function SanitiseVersion(version: string): (v: string)
    ensures v != "" && All(v, VersionChar)
  {
    var v := Keep(version, VersionChar);
    if v == "" then "unknown" else v
  }

  function Extension(codec: string): string {
    if codec == "gzip" then EXT_GZIP else EXT_ZSTD
  }

  function Stem(slug: string, reason: string, stamp: string, ev: string): string {
    slug + SEPARATOR + (reason + SEPARATOR + (stamp + SEPARATOR + ev))
  }

  function Build(slug: string, reason: string, engine: string, version: string, ts: Instant, codec: string,
                 lower: char -> char): string
    requires ts.Valid()
  {
    Stem(slug, reason, SnapshotText(ts), SanitiseEngine(engine, lower) + "-" + SanitiseVersion(version))
      + Extension(codec)
  }

  // The parser

  predicate HasSuffix(s: string, suffix: string) {
    |suffix| <= |s| && s[|s| - |suffix|..] == suffix
  }

  predicate StartsWithSeparator(s: string) {
    |s| >= 2 && s[0] == '-' && s[1] == '-'
  }

  /** Go's strings.Split on the separator: cuts at leftmost, non-overlapping matches. */
  function Split(s: string): (pieces: seq<string>)
    ensures |pieces| > 0
  {
    if s == "" then [""]
    else if StartsWithSeparator(s) then [""] + Split(s[2..])
    else
      var rest := Split(s[1..]);
      [[s[0]] + rest[0]] + rest[1..]
  }

  function IndexOf(s: string, c: char): (i: int)
    ensures -1 <= i < |s|
    ensures i < 0 <==> c !in s
    ensures 0 <= i ==> s[i] == c && c !in s[..i]
  {
    if s == "" then -1
    else if s[0] == c then 0
    else
      var i := IndexOf(s[1..], c);
      assert s == [s[0]] + s[1..];
      assert 0 <= i ==> s[..i + 1] == [s[0]] + s[1..][..i];
      if i < 0 then -1 else i + 1
  }

  function SplitEngineVersion(s: string): (string, string) {
    var i := IndexOf(s, '-');
    if i <= 0 then
      if AllLowerAlpha(s) then (s, "") else ("", "")
    else if AllLowerAlpha(s[..i]) then (s[..i], s[i + 1..])
    else ("", "")
  }

  function ParseStem(stem: string, codec: string): Option<SnapshotInfo> {
    var parts := Split(stem);
    if |parts| != 4 || parts[0] == "" || parts[1] == "" then None
    else
      match ParseSnapshotText(parts[2])
      case None => None
      case Some(ts) =>
        var (engine, version) := SplitEngineVersion(parts[3]);
        if engine == "" then None
        else Some(SnapshotInfo(parts[0], parts[1], ts, engine, version, codec))
  }

  function Parse(name: string): Option<SnapshotInfo> {
    if HasSuffix(name, EXT_ZSTD) then ParseStem(name[..|name| - |EXT_ZSTD|], "zstd")
    else if HasSuffix(name, EXT_GZIP) then ParseStem(name[..|name| - |EXT_GZIP|], "gzip")
    else None
  }

  // Splitting

  predicate EndsInDash(s: string) {
    s != "" && s[|s| - 1] == '-'
  }

  /** A piece that may stand in front of a separator and be read back whole. */
  ghost predicate Closed(s: string) {
    NoDoubleDash(s) && !EndsInDash(s)
  }

  lemma SplitHead(s: string)
    requires s != ""
    ensures Split(s)[0] == "" <==> StartsWithSeparator(s)
    ensures !StartsWithSeparator(s) ==> Split(s)[0][0] == s[0]
  {
  }

  /** Text without a separator is one piece. */
  lemma {:induction false} SplitNone(s: string)
    requires NoDoubleDash(s)
    ensures Split(s) == [s]
  {
    if s != "" {
      assert NoDoubleDash(s[1..]);
      SplitNone(s[1..]);
      assert [s[0]] + s[1..] == s;
    }
  }

  /** A closed piece, a separator and anything else split into that piece and the split of the rest. */
  lemma {:induction false} SplitFirst(a: string, rest: string)
    requires Closed(a)
    ensures Split(a + SEPARATOR + rest) == [a] + Split(rest)
  {
    var s := a + SEPARATOR + rest;
    if a == "" {
      assert s[2..] == rest;
    } else {
      assert s[1..] == a[1..] + SEPARATOR + rest;
      assert |a| > 1 ==> s[1] == a[1];
      assert a[|a| - 1] != '-';
      assert !StartsWithSeparator(s);
      assert Closed(a[1..]);
      SplitFirst(a[1..], rest);
      assert [a[0]] + a[1..] == a;
    }
  }

  /** Pieces never hold a separator, and none but the last ends in a dash. */
  lemma {:induction false} PieceIsClosed(s: string, i: nat)
    requires i < |Split(s)|
    ensures NoDoubleDash(Split(s)[i])
    ensures i < |Split(s)| - 1 ==> Closed(Split(s)[i])
  {
    if s == "" {
    } else if StartsWithSeparator(s) {
      if 0 < i {
        PieceIsClosed(s[2..], i - 1);
      }
    } else {
      PieceIsClosed(s[1..], i);
      if i == 0 && s[1..] != "" {
        SplitHead(s[1..]);
      }
    }
  }

  function Join(pieces: seq<string>): string {
    if pieces == [] then "" else if |pieces| == 1 then pieces[0]
    else pieces[0] + SEPARATOR + Join(pieces[1..])
  }

  lemma JoinCons(first: string, p: seq<string>)
    requires p != []
    ensures Join([first] + p) == first + SEPARATOR + Join(p)
  {
    assert ([first] + p)[1..] == p;
  }

  lemma JoinExtend(c: char, a: string, rest: seq<string>)
    ensures Join([[c] + a] + rest) == [c] + Join([a] + rest)
  {
    if rest == [] {
      assert [[c] + a] + rest == [[c] + a] && [a] + rest == [a];
    } else {
      JoinCons([c] + a, rest);
      JoinCons(a, rest);
      assert [c] + a + SEPARATOR + Join(rest) == [c] + (a + SEPARATOR + Join(rest));
    }
  }

  lemma {:induction false} JoinSplit(s: string)
    ensures Join(Split(s)) == s
  {
    if s == "" {
    } else if StartsWithSeparator(s) {
      JoinSplit(s[2..]);
      JoinCons("", Split(s[2..]));
      assert s == "" + SEPARATOR + s[2..];
    } else {
      JoinSplit(s[1..]);
      var rest := Split(s[1..]);
      JoinExtend(s[0], rest[0], rest[1..]);
      assert [rest[0]] + rest[1..] == rest;
      assert s == [s[0]] + s[1..];
    }
  }

  lemma JoinFour(p: seq<string>)
    requires |p| == 4
    ensures Join(p) == Stem(p[0], p[1], p[2], p[3])
  {
    assert p[1..][1..] == p[2..] && p[2..][1..] == p[3..];
    assert Join(p[3..]) == p[3];
    assert Join(p[2..]) == p[2] + SEPARATOR + p[3];
    assert Join(p[1..]) == p[1] + SEPARATOR + (p[2] + SEPARATOR + p[3]);
  }

  lemma SplitStem(slug: string, reason: string, stamp: string, ev: string)
    requires Closed(slug) && Closed(reason) && Closed(stamp) && NoDoubleDash(ev)
    ensures Split(Stem(slug, reason, stamp, ev)) == [slug, reason, stamp, ev]
  {
    SplitFirst(slug, reason + SEPARATOR + (stamp + SEPARATOR + ev));
    SplitFirst(reason, stamp + SEPARATOR + ev);
    SplitFirst(stamp, ev);
    SplitNone(ev);
  }

  // Engine and version

  /** `v` can follow `engine-` and be read back. */
  ghost predicate CleanVersion(v: string) {
    NoDoubleDash(v) && (v == "" || v[0] != '-')
  }

  lemma EngineVersionRoundTrip(e: string, v: string)
    requires AllLowerAlpha(e)
    ensures SplitEngineVersion(e + "-" + v) == (e, v)
    ensures NoDoubleDash(e + "-" + v) <==> CleanVersion(v)
  {
    var s := e + "-" + v;
    var i := IndexOf(s, '-');
    assert s[|e|] == '-' && '-' in s;
    assert forall k | 0 <= k < |e| :: s[k] == e[k] && IsLower(e[k]);
    assert i >= |e|;
    assert forall k | 0 <= k < i :: s[..i][k] == s[k];
    assert i == |e|;
    assert s[..|e|] == e && s[|e| + 1..] == v;
    assert forall k | 0 <= k < |v| :: s[|e| + 1 + k] == v[k];
    if CleanVersion(v) {
      forall k, j | 0 <= k && j == k + 1 && j < |s|
        ensures !(s[k] == '-' && s[j] == '-')
      {
        if |e| < k {
          assert s[k] == v[k - |e| - 1] && s[j] == v[j - |e| - 1];
        } else if k == |e| {
          assert s[j] == v[0];
        }
      }
    }
    if NoDoubleDash(s) {
      forall k, j | 0 <= k && j == k + 1 && j < |v|
        ensures !(v[k] == '-' && v[j] == '-')
      {
        assert v[k] == s[|e| + 1 + k] && v[j] == s[|e| + 1 + j];
      }
      if v != "" {
        assert s[|e| + 1] == v[0];
      }
    }
  }

  /** `s` is `e` and `v` with a dash between them, or `e` alone if `v` is empty. */
  predicate Dashed(s: string, e: string, v: string) {
    if s == e then v == ""
    else |s| == |e| + 1 + |v| && s[..|e|] == e && s[|e|] == '-' && s[|e| + 1..] == v
  }

  lemma DashedText(s: string, e: string, v: string)
    requires Dashed(s, e, v)
    ensures s == e + "-" + v || (s == e && v == "")
  {
    if s != e {
      assert s == s[..|e|] + [s[|e|]] + s[|e| + 1..];
    }
  }

  lemma SplitEngineVersionMeaning(s: string)
    ensures var (e, v) := SplitEngineVersion(s); e != "" ==> AllLowerAlpha(e) && Dashed(s, e, v)
  {
    var i := IndexOf(s, '-');
    if 0 < i {
      assert s[..i] != s;
    }
  }

  // Round trips

  /** The same moment with its fraction of a second dropped, which is all a name records. */
  function WholeSecond(t: Instant): Instant {
    t.(nanos := 0)
  }

  lemma StampRoundTrip(ts: Instant)
    requires ts.Valid() && ts.year <= 9999
    ensures ParseSnapshotText(SnapshotText(ts)) == Some(WholeSecond(ts))
    ensures Closed(SnapshotText(ts))
  {
    var t := WholeSecond(ts);
    SnapshotTimeRoundTrip(t);
    assert SnapshotText(ts) == SnapshotText(t);
    var s := SnapshotText(t);
    assert forall i | 0 <= i < |s| :: s[i] in s;
  }

  lemma SuffixEnd(s: string, suffix: string)
    ensures suffix != "" && HasSuffix(s, suffix) ==> s[|s| - 1] == suffix[|suffix| - 1]
  {
    if suffix != "" && HasSuffix(s, suffix) {
      assert s[|s| - |suffix|..][|suffix| - 1] == s[|s| - 1];
    }
  }

  /** Taking the extension off again and choosing the codec by it. */
  lemma ExtensionRoundTrip(stem: string, codec: string)
    ensures Parse(stem + Extension(codec)) == ParseStem(stem, if codec == "gzip" then "gzip" else "zstd")
  {
    var name := stem + Extension(codec);
    assert name[..|stem|] == stem;
    assert name[|stem|..] == Extension(codec);
    assert name[|name| - 1] == Extension(codec)[|Extension(codec)| - 1];
    SuffixEnd(name, EXT_ZSTD);
  }

  /** What a name is meant to carry. */
  function Carried(slug: string, reason: string, engine: string, version: string, ts: Instant, codec: string,
                   lower: char -> char): SnapshotInfo
  {
    SnapshotInfo(slug, reason, WholeSecond(ts), SanitiseEngine(engine, lower), SanitiseVersion(version),
                 if codec == "gzip" then "gzip" else "zstd")
  }

  /** The inputs whose names can be read back. */
  ghost predicate Readable(slug: string, engine: string, version: string, ts: Instant, lower: char -> char) {
    && slug != "" && Closed(slug)
    && AllLowerAlpha(SanitiseEngine(engine, lower))
    && CleanVersion(SanitiseVersion(version))
    && ts.year <= 9999
  }

  lemma LabelIsClosed(reason: string)
    requires LabelMatches(reason)
    ensures Closed(reason)
  {
  }

  lemma ReadsBack(slug: string, reason: string, engine: string, version: string, ts: Instant, codec: string,
                  lower: char -> char)
    requires LabelMatches(reason) && ts.Valid()
    requires Readable(slug, engine, version, ts, lower)
    ensures Parse(Build(slug, reason, engine, version, ts, codec, lower))
         == Some(Carried(slug, reason, engine, version, ts, codec, lower))
  {
    var e, v := SanitiseEngine(engine, lower), SanitiseVersion(version);
    LabelIsClosed(reason);
    StampRoundTrip(ts);
    EngineVersionRoundTrip(e, v);
    SplitStem(slug, reason, SnapshotText(ts), e + "-" + v);
    ExtensionRoundTrip(Stem(slug, reason, SnapshotText(ts), e + "-" + v), codec);
  }

  /** What was read off a stem, piece by piece. */
  predicate ReadFrom(i: SnapshotInfo, p: seq<string>) {
    && |p| == 4 && i.slug == p[0] && i.reason == p[1]
    && ParseSnapshotText(p[2]) == Some(i.createdAt)
    && Dashed(p[3], i.engine, i.version)
  }

  lemma ParsedPieces(stem: string, codec: string)
    requires ParseStem(stem, codec).Some?
    ensures var i := ParseStem(stem, codec).value;
            ReadFrom(i, Split(stem)) && i.slug != "" && AllLowerAlpha(i.engine) && i.compression == codec
  {
    SplitEngineVersionMeaning(Split(stem)[3]);
  }

  /** Only readable fields are ever read. */
  lemma ReadFieldsAreClean(i: SnapshotInfo, stem: string)
    requires ReadFrom(i, Split(stem)) && AllLowerAlpha(i.engine)
    ensures Closed(i.slug) && CleanVersion(i.version) && i.createdAt.year <= 9999
  {
    PieceIsClosed(stem, 0);
    PieceIsClosed(stem, 3);
    ParsedYear(Split(stem)[2]);
    EngineVersionRoundTrip(i.engine, i.version);
    DashedText(Split(stem)[3], i.engine, i.version);
  }

  /**
   * A snapshot's name reads back as the snapshot's own fields exactly when its slug is non-empty without a
   * double or a trailing dash, its engine is all letters, its version starts with no dash and has no double
   * dash, and its year has four digits.
   */
  lemma NameRoundTrip(slug: string, reason: string, engine: string, version: string, ts: Instant, codec: string,
                      lower: char -> char)
    requires LabelMatches(reason) && ts.Valid()
    ensures Parse(Build(slug, reason, engine, version, ts, codec, lower))
            == Some(Carried(slug, reason, engine, version, ts, codec, lower))
      <==> Readable(slug, engine, version, ts, lower)
  {
    var name := Build(slug, reason, engine, version, ts, codec, lower);
    var carried := Carried(slug, reason, engine, version, ts, codec, lower);
    if Readable(slug, engine, version, ts, lower) {
      ReadsBack(slug, reason, engine, version, ts, codec, lower);
    }
    if Parse(name) == Some(carried) {
      var stem := Stem(slug, reason, SnapshotText(ts), carried.engine + "-" + carried.version);
      ExtensionRoundTrip(stem, codec);
      ParsedPieces(stem, carried.compression);
      ReadFieldsAreClean(carried, stem);
    }
  }

  /** A snapshot whose fields need no cleaning. */
  ghost predicate Plain(i: SnapshotInfo) {
    && i.slug != "" && Closed(i.slug) && LabelMatches(i.reason)
    && AllLowerAlpha(i.engine)
    && i.version != "" && All(i.version, VersionChar) && CleanVersion(i.version)
    && i.createdAt.Valid() && i.createdAt.year <= 9999 && i.createdAt.nanos == 0
    && i.compression in {"gzip", "zstd"}
  }

  /** Its name says who, why and, in its suffix, how it is compressed, and reads back as it is, unchanged. */
  lemma PlainNameRoundTrip(i: SnapshotInfo, lower: char -> char)
    requires Plain(i) && KeepsLowerAscii(lower)
    ensures var name := Build(i.slug, i.reason, i.engine, i.version, i.createdAt, i.compression, lower);
            && Parse(name) == Some(i)
            && i.slug + "--" + i.reason + "--" <= name
            && HasSuffix(name, if i.compression == "gzip" then ".sql.gz" else ".sql.zst")
  {
    LettersStay(i.engine, lower);
    ReadsBack(i.slug, i.reason, i.engine, i.version, i.createdAt, i.compression, lower);
    var rest := SnapshotText(i.createdAt) + SEPARATOR + (i.engine + "-" + i.version);
    NameParts(i.slug, i.reason, rest, Extension(i.compression));
  }

  lemma NameParts(slug: string, reason: string, rest: string, extension: string)
    ensures var name := slug + "--" + (reason + "--" + rest) + extension;
            slug + "--" + reason + "--" <= name && name[|name| - |extension|..] == extension
  {
    var name := slug + "--" + (reason + "--" + rest) + extension;
    assert name == slug + "--" + reason + "--" + (rest + extension);
  }

  /** Two readable snapshots share a name only if they agree on every field a name carries. */
  lemma NamesAreInjective(a: SnapshotInfo, b: SnapshotInfo, lower: char -> char)
    requires LabelMatches(a.reason) && LabelMatches(b.reason) && a.createdAt.Valid() && b.createdAt.Valid()
    requires Readable(a.slug, a.engine, a.version, a.createdAt, lower)
    requires Readable(b.slug, b.engine, b.version, b.createdAt, lower)
    requires Build(a.slug, a.reason, a.engine, a.version, a.createdAt, a.compression, lower)
          == Build(b.slug, b.reason, b.engine, b.version, b.createdAt, b.compression, lower)
    ensures Carried(a.slug, a.reason, a.engine, a.version, a.createdAt, a.compression, lower)
         == Carried(b.slug, b.reason, b.engine, b.version, b.createdAt, b.compression, lower)
  {
    ReadsBack(a.slug, a.reason, a.engine, a.version, a.createdAt, a.compression, lower);
    ReadsBack(b.slug, b.reason, b.engine, b.version, b.createdAt, b.compression, lower);
  }

  lemma LettersStay(e: string, lower: char -> char)
    requires AllLowerAlpha(e) && KeepsLowerAscii(lower)
    ensures SanitiseEngine(e, lower) == e
  {
    assert Map(e, lower) == e;
    assert All(e, Alnum);
  }

  /** The stem of a name with either extension. */
  function StemOf(name: string): string {
    if HasSuffix(name, EXT_ZSTD) then name[..|name| - |EXT_ZSTD|]
    else if HasSuffix(name, EXT_GZIP) then name[..|name| - |EXT_GZIP|]
    else ""
  }

  /** The timestamp a name was read with. */
  function StampOf(name: string): string {
    var parts := Split(StemOf(name));
    if |parts| == 4 then parts[2] else ""
  }

  /**
   * The other way round: any name the parser accepts, built or not, is rebuilt from what was read exactly when
   * its version part is there and holds only characters a version may hold, and its timestamp has no fraction.
   */
  lemma RebuildsParsedName(name: string, lower: char -> char)
    requires KeepsLowerAscii(lower)
    requires Parse(name).Some?
    ensures var i := Parse(name).value;
            i.createdAt.Valid()
            && (Build(i.slug, i.reason, i.engine, i.version, i.createdAt, i.compression, lower) == name
                <==> i.version != "" && All(i.version, VersionChar) && !HasFraction(StampOf(name)))
  {
    var i, stem := Parse(name).value, StemOf(name);
    var codec := NameInParts(name);
    ParsedPieces(stem, codec);
    RebuildsStem(i, stem, lower);
  }

  /** A name that parses is its stem and the extension of a codec. */
  lemma NameInParts(name: string) returns (codec: string)
    requires Parse(name).Some?
    ensures codec in {"gzip", "zstd"}
    ensures name == StemOf(name) + Extension(codec)
    ensures Parse(name) == ParseStem(StemOf(name), codec)
  {
    if HasSuffix(name, EXT_ZSTD) {
      codec := "zstd";
      assert codec[0] != "gzip"[0];
      CutSuffix(name, EXT_ZSTD);
    } else {
      codec := "gzip";
      CutSuffix(name, EXT_GZIP);
    }
  }

  lemma CutSuffix(s: string, suffix: string)
    requires HasSuffix(s, suffix)
    ensures s[..|s| - |suffix|] + suffix == s
  {
  }

  /** A stem is rebuilt from what was read off it. */
  lemma RebuildsStem(i: SnapshotInfo, stem: string, lower: char -> char)
    requires KeepsLowerAscii(lower)
    requires ReadFrom(i, Split(stem)) && AllLowerAlpha(i.engine)
    ensures i.createdAt.Valid()
    ensures Build(i.slug, i.reason, i.engine, i.version, i.createdAt, i.compression, lower)
              == stem + Extension(i.compression)
       <==> i.version != "" && All(i.version, VersionChar) && !HasFraction(Split(stem)[2])
  {
    var p, ext := Split(stem), Extension(i.compression);
    JoinSplit(stem);
    JoinFour(p);
    ParsedStampReprints(p[2]);
    LettersStay(i.engine, lower);
    ReadFieldsAreClean(i, stem);
    StampRoundTrip(i.createdAt);
    PieceIsClosed(stem, 2);
    var stamp, ev := SnapshotText(i.createdAt), i.engine + "-" + SanitiseVersion(i.version);
    DashedText(p[3], i.engine, i.version);
    SameStem(p[0], p[1], stamp, p[2], ev, p[3], ext);
    SameVersion(i.engine, i.version, SanitiseVersion(i.version), p[3]);
  }

  /** The engine and version part is rebuilt exactly when the version is there and is its own clean form. */
  lemma SameVersion(engine: string, version: string, v: string, part: string)
    requires AllLowerAlpha(engine) && v == SanitiseVersion(version)
    requires part == engine + "-" + version || (part == engine && version == "")
    ensures engine + "-" + v == part <==> version != "" && All(version, VersionChar)
  {
    assert (engine + "-" + v)[|engine| + 1..] == v;
    assert (engine + "-" + version)[|engine| + 1..] == version;
    assert |engine + "-" + v| > |engine|;
  }

  /** Stems that agree in front are equal exactly when their closed third parts and their last parts are. */
  lemma SameStem(slug: string, reason: string, stamp: string, stamp2: string, ev: string, ev2: string, ext: string)
    requires Closed(stamp) && Closed(stamp2)
    ensures Stem(slug, reason, stamp, ev) + ext == Stem(slug, reason, stamp2, ev2) + ext
       <==> stamp == stamp2 && ev == ev2
  {
    var front := slug + SEPARATOR + reason + SEPARATOR;
    var a, b := Stem(slug, reason, stamp, ev) + ext, Stem(slug, reason, stamp2, ev2) + ext;
    var s, t := stamp + SEPARATOR + ev, stamp2 + SEPARATOR + ev2;
    assert a == front + s + ext && b == front + t + ext;
    assert a[|front|..|a| - |ext|] == s;
    assert b[|front|..|b| - |ext|] == t;
    if s == t {
      SplitFirst(stamp, ev);
      SplitFirst(stamp2, ev2);
      assert Split(s)[0] == stamp && Split(t)[0] == stamp2;
      assert s[|stamp| + 2..] == ev && t[|stamp2| + 2..] == ev2;
    }
  }
}
