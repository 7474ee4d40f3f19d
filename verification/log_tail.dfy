/**
 The log tail of internal/applog/tail.go: reads a file backwards in chunks until it has seen enough lines.
 File contents are strings with one `char` per byte.
 */
module LogTail {
  import opened Wrappers

  const CHUNK := 64 * 1024
  /** bufio.Scanner gives up on a line that fills its buffer. */
  const MAX_TOKEN := 1024 * 1024

  // ---- Lines ----

  /** The lines of a text as they stand in it. A final newline does not open another line. */
  function RawLines(b: string): (lines: seq<string>)
    ensures lines == [] <==> b == ""
  {
    if b == "" then []
    else if b[0] == '\n' then [""] + RawLines(b[1..])
    else if |b| == 1 then [b]
    else
      var lines := RawLines(b[1..]);
      [[b[0]] + lines[0]] + lines[1..]
  }

  /** A scanned line loses one carriage return at its end. */
  function DropCR(line: string): string {
    if line != "" && line[|line| - 1] == '\r' then line[..|line| - 1] else line
  }

  function Texts(lines: seq<string>): (texts: seq<string>)
    ensures |texts| == |lines|
  {
    if lines == [] then [] else [DropCR(lines[0])] + Texts(lines[1..])
  }

  /** What the scanner delivers: every line up to the first that does not fit its buffer. */
  function Scanned(lines: seq<string>): seq<string> {
    if lines == [] || MAX_TOKEN <= |lines[0]| then [] else [DropCR(lines[0])] + Scanned(lines[1..])
  }

  function Last(lines: seq<string>, n: nat): seq<string> {
    if |lines| <= n then lines else lines[|lines| - n..]
  }

  predicate AllShort(lines: seq<string>) {
    forall i | 0 <= i < |lines| :: |lines[i]| < MAX_TOKEN
  }

  method IndexNewline(b: string) returns (i: nat)
    ensures i <= |b| && '\n' !in b[..i] && (i < |b| ==> b[i] == '\n')
  {
    i := 0;
    while i < |b| && b[i] != '\n'
      invariant i <= |b| && '\n' !in b[..i]
    {
      i := i + 1;
    }
  }

  method SplitLines(buf: string) returns (out: seq<string>)
    ensures out == Scanned(RawLines(buf))
  {
    out := [];
    var rest := buf;
    while rest != ""
      invariant out + Scanned(RawLines(rest)) == Scanned(RawLines(buf))
      decreases |rest|
    {
      var i := IndexNewline(rest);
      FirstLine(rest, i);
      if MAX_TOKEN <= i {
        return;
      }
      ScannedStep(out, rest[..i], RawLines(if i < |rest| then rest[i + 1..] else ""));
      out := out + [DropCR(rest[..i])];
      rest := if i < |rest| then rest[i + 1..] else "";
    }
  }

  /** The first line ends at the first newline, or at the end of the text. */
  lemma {:induction false} FirstLine(b: string, i: nat)
    requires b != "" && i <= |b| && '\n' !in b[..i] && (i < |b| ==> b[i] == '\n')
    ensures RawLines(b) == [b[..i]] + RawLines(if i < |b| then b[i + 1..] else "")
  {
    if i == 0 {
      assert b[..0] == "";
    } else if |b| == 1 {
      assert b[..i] == b;
    } else {
      var c := b[1..];
      assert b[..i] == [b[0]] + c[..i - 1];
      FirstLine(c, i - 1);
      assert i < |b| ==> c[i..] == b[i + 1..];
    }
  }

  lemma ScannedStep(out: seq<string>, line: string, lines: seq<string>)
    requires |line| < MAX_TOKEN
    ensures out + Scanned([line] + lines) == out + [DropCR(line)] + Scanned(lines)
  {
    assert ([line] + lines)[1..] == lines;
  }

  // ---- The tail ----

  datatype Outcome = Lines(lines: seq<string>) | IoError

  /** The tail of the simple reading: split everything, keep the end. */
  function Expected(content: string, n: nat): seq<string> {
    Last(Texts(RawLines(content)), n)
  }

  /** The lines the caller asks for all fit the scanner's buffer. */
  predicate LastLinesShort(content: string, n: nat) {
    AllShort(Last(RawLines(content), n))
  }

  /**
   The tail is the expected one whenever the lines asked for fit the scanner, and (a carriage return dropped from the
   end of a line could hide the difference) only then.
   */
  ghost predicate Exact(content: string, n: nat, lines: seq<string>) {
    && (LastLinesShort(content, n) ==> lines == Expected(content, n))
    && ('\r' !in content && lines == Expected(content, n) ==> LastLinesShort(content, n))
  }

  /** One more chunk in front of what has been read, split again from scratch. */
  method ReadChunk(content: string, before: nat, buf: string, ghost n: nat)
    returns (off: nat, longer: string, lines: seq<string>)
    requires 0 < before <= |content| && buf == content[before..]
    requires SeenShort(content, before, n) && |Scanned(RawLines(buf))| <= n
    ensures off < before && longer == content[off..]
    ensures lines == Scanned(RawLines(longer))
    ensures SeenShort(content, off, n)
  {
    var read := if before < CHUNK then before else CHUNK;
    off := before - read;
    var tmp := content[off..before];
    assert content[off..] == tmp + buf;
    SeenStaysShort(content, off, before, n);
    longer := tmp + buf;
    lines := SplitLines(longer);
  }

  /** `file` is the content, or None if it cannot be read. */
  method TailLines(file: Option<string>, n: int) returns (r: Outcome)
    ensures n <= 0 ==> r == Lines([])
    ensures 0 < n && file == None ==> r == IoError
    ensures 0 < n && file.Some? ==> r.Lines? && Exact(file.value, n, r.lines)
  {
    if n <= 0 {
      return Lines([]);
    }
    if file == None {
      return IoError;
    }
    var content := file.value;
    if content == "" {
      EmptyTail(n);
      return Lines([]);
    }
    var buf, lines, off := "", [], |content|;
    while 0 < off && |lines| <= n
      invariant 0 <= off <= |content|
      invariant buf == content[off..]
      invariant lines == Scanned(RawLines(buf))
      invariant SeenShort(content, off, n)
    {
      off, buf, lines := ReadChunk(content, off, buf, n);
      if off == 0 {
        break;
      }
    }
    TailIsExact(content, off, n);
    assert Exact(content, n, Last(lines, n));
    if |lines| > n {
      return Lines(lines[|lines| - n..]);
    }
    return Lines(lines);
  }

  lemma EmptyTail(n: nat)
    ensures Exact("", n, [])
  {
  }

  /** What has been read so far, if the file is read down to `off`, splits without loss when the asked-for lines do. */
  ghost predicate SeenShort(content: string, off: nat, n: nat)
    requires off <= |content|
  {
    LastLinesShort(content, n) ==> AllShort(RawLines(content[off..]))
  }

  lemma SeenStaysShort(content: string, off: nat, before: nat, n: nat)
    requires off < before <= |content| && before - off <= CHUNK
    requires SeenShort(content, before, n) && |Scanned(RawLines(content[before..]))| <= n
    ensures SeenShort(content, off, n)
  {
    if LastLinesShort(content, n) {
      var pre, tmp, buf := content[..off], content[off..before], content[before..];
      assert content[off..] == tmp + buf && content == pre + (tmp + buf);
      AllShortScanned(RawLines(buf));
      ChunkStaysShort(pre, tmp, buf, n);
    }
  }

  /** What the loop leaves is the expected tail exactly when the expected lines fit the scanner. */
  lemma TailIsExact(content: string, off: nat, n: nat)
    requires off <= |content| && SeenShort(content, off, n)
    requires off == 0 || n < |Scanned(RawLines(content[off..]))|
    ensures Exact(content, n, Last(Scanned(RawLines(content[off..])), n))
  {
    var buf := content[off..];
    if LastLinesShort(content, n) {
      AllShortScanned(RawLines(buf));
      LastOfSuffix(content[..off], buf, n);
      assert content[..off] + buf == content;
    }
    ScannedShort(RawLines(buf));
    if '\r' !in content && Last(Scanned(RawLines(buf)), n) == Expected(content, n) {
      ExpectedWithoutCR(content, n);
    }
  }

  // ---- Putting text in front ----

  lemma {:induction false} AllShortScanned(lines: seq<string>)
    requires AllShort(lines)
    ensures Scanned(lines) == Texts(lines)
  {
    if lines != [] {
      AllShortScanned(lines[1..]);
    }
  }

  /** Everything the scanner delivers is short. */
  lemma {:induction false} ScannedShort(lines: seq<string>)
    ensures AllShort(Scanned(lines))
  {
    if lines != [] && |lines[0]| < MAX_TOKEN {
      ScannedShort(lines[1..]);
    }
  }

  lemma {:induction false} LinesFit(b: string)
    ensures forall i | 0 <= i < |RawLines(b)| :: |RawLines(b)[i]| <= |b|
  {
    if b != "" {
      LinesFit(b[1..]);
    }
  }

  /** A character put in front of a text: a newline opens a line, anything else goes to the first line. */
  function Put(c: char, lines: seq<string>): seq<string>
    requires lines != []
  {
    if c == '\n' then [""] + lines else [[c] + lines[0]] + lines[1..]
  }

  lemma FirstCharacter(b: string)
    requires |b| > 1
    ensures RawLines(b[1..]) != []
    ensures RawLines(b) == Put(b[0], RawLines(b[1..]))
  {
  }

  lemma PutConcat(c: char, la: seq<string>, lb: seq<string>)
    requires la != []
    ensures Put(c, la + lb) == Put(c, la) + lb
  {
  }

  lemma {:induction false} GlueAfterNewline(a: string, b: string)
    requires a != "" && a[|a| - 1] == '\n'
    ensures RawLines(a + b) == RawLines(a) + RawLines(b)
  {
    assert (a + b)[1..] == a[1..] + b;
    if |a| == 1 {
      assert a[1..] + b == b;
    } else {
      GlueAfterNewline(a[1..], b);
      FirstCharacter(a);
      FirstCharacter(a + b);
      PutConcat(a[0], RawLines(a[1..]), RawLines(b));
    }
  }

  /** Two lists of lines with the last of the one and the first of the other made one. */
  function Join(la: seq<string>, lb: seq<string>): (lines: seq<string>)
    requires la != [] && lb != []
    ensures |lines| == |la| + |lb| - 1
  {
    if |la| == 1 then [la[0] + lb[0]] + lb[1..] else [la[0]] + Join(la[1..], lb)
  }

  lemma {:induction false} JoinKeeps(la: seq<string>, lb: seq<string>)
    requires la != [] && lb != []
    ensures forall i | 0 <= i < |la| - 1 :: Join(la, lb)[i] == la[i]
    ensures EndsWith(Join(la, lb), lb)
  {
    if 1 < |la| {
      JoinKeeps(la[1..], lb);
    }
  }

  lemma JoinUnderLetter(c: char, la: seq<string>, lb: seq<string>)
    requires la != [] && lb != []
    ensures Join([[c] + la[0]] + la[1..], lb) == [[c] + Join(la, lb)[0]] + Join(la, lb)[1..]
  {
    assert ([[c] + la[0]] + la[1..])[1..] == la[1..];
    assert [c] + (la[0] + lb[0]) == ([c] + la[0]) + lb[0];
  }

  /** The lines of two texts put together when the first ends inside a line. */
  lemma {:induction false} GlueInLine(a: string, b: string)
    requires a != "" && a[|a| - 1] != '\n' && b != ""
    ensures RawLines(a + b) == Join(RawLines(a), RawLines(b))
  {
    assert (a + b)[1..] == a[1..] + b;
    if |a| == 1 {
      assert a[1..] + b == b;
      assert RawLines(a) == [a] && a + RawLines(b)[0] == [a[0]] + RawLines(b)[0];
    } else {
      GlueInLine(a[1..], b);
      JoinUnderLetter(a[0], RawLines(a[1..]), RawLines(b));
    }
  }

  /** The lines of a suffix are the last ones of the whole, except that its first may be cut. */
  ghost predicate EndsWith(lw: seq<string>, lb: seq<string>) {
    && |lb| <= |lw|
    && (forall i | 0 < i < |lb| :: lb[i] == lw[|lw| - |lb| + i])
    && (forall i | 0 <= i < |lb| :: |lb[i]| <= |lw[|lw| - |lb| + i]|)
  }

  lemma SuffixLines(a: string, b: string)
    ensures EndsWith(RawLines(a + b), RawLines(b))
  {
    if a == "" {
      assert a + b == b;
    } else if b == "" {
    } else if a[|a| - 1] == '\n' {
      GlueAfterNewline(a, b);
    } else {
      GlueInLine(a, b);
      JoinKeeps(RawLines(a), RawLines(b));
    }
  }

  lemma {:induction false} TextAt(lines: seq<string>, k: nat)
    requires k < |lines|
    ensures Texts(lines)[k] == DropCR(lines[k])
  {
    if 0 < k {
      TextAt(lines[1..], k - 1);
    }
  }

  lemma SameEnd(t: seq<string>, u: seq<string>, n: nat)
    requires n < |t| <= |u|
    requires forall k | 0 < k < |t| :: t[k] == u[|u| - |t| + k]
    ensures Last(t, n) == Last(u, n)
  {
  }

  lemma TextsKeepEnd(lw: seq<string>, lb: seq<string>, k: nat)
    requires EndsWith(lw, lb) && 0 < k < |lb|
    ensures Texts(lb)[k] == Texts(lw)[|lw| - |lb| + k]
  {
    TextAt(lb, k);
    TextAt(lw, |lw| - |lb| + k);
  }

  lemma LastAgree(lw: seq<string>, lb: seq<string>, n: nat)
    requires EndsWith(lw, lb) && n < |lb|
    ensures Last(Texts(lb), n) == Last(Texts(lw), n)
  {
    var t, u := Texts(lb), Texts(lw);
    forall k | 0 < k < |t|
      ensures t[k] == u[|u| - |t| + k]
    {
      TextsKeepEnd(lw, lb, k);
    }
    SameEnd(t, u, n);
  }

  lemma LastOfSuffix(a: string, b: string, n: nat)
    requires a == "" || n < |RawLines(b)|
    ensures Last(Texts(RawLines(b)), n) == Last(Texts(RawLines(a + b)), n)
  {
    if a == "" {
      assert a + b == b;
    } else {
      SuffixLines(a, b);
      LastAgree(RawLines(a + b), RawLines(b), n);
    }
  }

  /** Reading one more chunk: a line not among the last `n` of the whole lies inside the chunk. */
  lemma ChunkLines(tmp: string, buf: string, i: nat)
    requires tmp != "" && i < |RawLines(tmp + buf)| - |RawLines(buf)|
    ensures |RawLines(tmp + buf)[i]| <= |tmp|
  {
    LinesFit(tmp);
    if buf == "" {
      assert tmp + buf == tmp;
    } else if tmp[|tmp| - 1] == '\n' {
      GlueAfterNewline(tmp, buf);
    } else {
      GlueInLine(tmp, buf);
      JoinKeeps(RawLines(tmp), RawLines(buf));
    }
  }

  lemma LastAt(lines: seq<string>, n: nat, k: nat)
    requires k < |lines| && |lines| - n <= k && AllShort(Last(lines, n))
    ensures |lines[k]| < MAX_TOKEN
  {
    assert Last(lines, n)[if |lines| <= n then k else k - (|lines| - n)] == lines[k];
  }

  /** Reading one more chunk brings no long line into view. */
  lemma ChunkStaysShort(pre: string, tmp: string, buf: string, n: nat)
    requires tmp != "" && |tmp| <= CHUNK && |RawLines(buf)| <= n
    requires LastLinesShort(pre + (tmp + buf), n)
    ensures AllShort(RawLines(tmp + buf))
  {
    var lw, lt := RawLines(pre + (tmp + buf)), RawLines(tmp + buf);
    SuffixLines(pre, tmp + buf);
    forall i | 0 <= i < |lt|
      ensures |lt[i]| < MAX_TOKEN
    {
      if |lt| - n <= i {
        LastAt(lw, n, |lw| - |lt| + i);
      } else {
        ChunkLines(tmp, buf, i);
      }
    }
  }

  /** Without carriage returns the expected texts are the lines themselves, so their lengths tell. */
  lemma ExpectedWithoutCR(content: string, n: nat)
    requires '\r' !in content && AllShort(Expected(content, n))
    ensures LastLinesShort(content, n)
  {
    NoCRLines(content);
    var lines := RawLines(content);
    forall i | 0 <= i < |Last(lines, n)|
      ensures |Last(lines, n)[i]| < MAX_TOKEN
    {
      var k := if |lines| <= n then i else |lines| - n + i;
      TextAt(lines, k);
      assert Expected(content, n)[i] == DropCR(lines[k]) == lines[k];
    }
  }

  lemma {:induction false} NoCRLines(b: string)
    requires '\r' !in b
    ensures forall i | 0 <= i < |RawLines(b)| :: '\r' !in RawLines(b)[i]
  {
    if b != "" {
      assert b[0] in b;
      NoCRLines(b[1..]);
    }
  }

  // ---- What the lines are ----

  /** Lines with a newline between each two of them. */
  function Unsplit(lines: seq<string>): string {
    if lines == [] then "" else if |lines| == 1 then lines[0] else lines[0] + "\n" + Unsplit(lines[1..])
  }

  predicate EndsIn(s: string, c: char) {
    s != "" && s[|s| - 1] == c
  }

  lemma UnsplitEmptyLine(lines: seq<string>)
    requires lines != []
    ensures Unsplit([""] + lines) == "\n" + Unsplit(lines)
  {
    assert ([""] + lines)[1..] == lines;
  }

  lemma UnsplitLetter(c: char, lines: seq<string>)
    requires lines != []
    ensures Unsplit([[c] + lines[0]] + lines[1..]) == [c] + Unsplit(lines)
  {
    assert ([[c] + lines[0]] + lines[1..])[1..] == lines[1..];
  }

  /** The lines hold no newline. */
  lemma {:induction false} LinesHoldNoNewline(b: string)
    ensures forall i | 0 <= i < |RawLines(b)| :: '\n' !in RawLines(b)[i]
  {
    if |b| > 1 {
      LinesHoldNoNewline(b[1..]);
    }
  }

  /** Put together again they are the text but for a newline at its end. */
  lemma {:induction false} LinesAreTheText(b: string)
    ensures b == Unsplit(RawLines(b)) + if EndsIn(b, '\n') then "\n" else ""
  {
    if |b| > 1 {
      var c, rest := b[0], b[1..];
      LinesAreTheText(rest);
      OneMoreInFront(c, rest);
      assert b == [c] + rest;
    } else if b == "\n" {
      assert RawLines(b[1..]) == [] && [""] + [] == [""];
    }
  }

  lemma OneMoreInFront(c: char, rest: string)
    requires rest != "" && rest == Unsplit(RawLines(rest)) + if EndsIn(rest, '\n') then "\n" else ""
    ensures var b := [c] + rest; b == Unsplit(RawLines(b)) + if EndsIn(b, '\n') then "\n" else ""
  {
    var b, lines := [c] + rest, RawLines(rest);
    var end := if EndsIn(rest, '\n') then "\n" else "";
    assert b[1..] == rest && EndsIn(b, '\n') == EndsIn(rest, '\n');
    if c == '\n' {
      UnsplitEmptyLine(lines);
      assert "\n" + Unsplit(lines) + end == [c] + (Unsplit(lines) + end);
    } else {
      UnsplitLetter(c, lines);
      assert [c] + Unsplit(lines) + end == [c] + (Unsplit(lines) + end);
    }
  }

  lemma LastIndex(lines: seq<string>, n: nat, i: nat)
    requires i < |Last(lines, n)|
    ensures |Last(lines, n)| == if |lines| <= n then |lines| else n
    ensures Last(lines, n)[i] == lines[|lines| - |Last(lines, n)| + i]
  {
  }

  lemma DroppedCR(line: string)
    ensures line == DropCR(line) + if EndsIn(line, '\r') then "\r" else ""
  {
  }

  /** The tail of a file's lines: the last of them in their order, each without one carriage return that ended it. */
  lemma TailLinesExactly(raw: seq<string>, n: nat, i: nat)
    requires i < |Last(Texts(raw), n)|
    ensures var tail := Last(Texts(raw), n);
            && |tail| == (if |raw| <= n then |raw| else n)
            && raw[|raw| - |tail| + i] == tail[i] + if EndsIn(raw[|raw| - |tail| + i], '\r') then "\r" else ""
  {
    var k := |raw| - |Last(Texts(raw), n)| + i;
    LastIndex(Texts(raw), n, i);
    TextAt(raw, k);
    DroppedCR(raw[k]);
  }
}
