/** Go strings, one `char` per byte or code point as each user says, and the operations the models share. */
module Strings {

  predicate IsLower(c: char) { 'a' <= c <= 'z' }

  predicate IsDigit(c: char) { '0' <= c <= '9' }

  predicate IsUpper(c: char) { 'A' <= c <= 'Z' }

  /** A lower-case ASCII letter or a digit. */
  predicate Alnum(c: char) { IsLower(c) || IsDigit(c) }

  predicate All(s: string, ok: char -> bool) {
    forall i | 0 <= i < |s| :: ok(s[i])
  }

  function Map(s: string, f: char -> char): (r: string)
    ensures |r| == |s| && forall i | 0 <= i < |s| :: r[i] == f(s[i])
  {
    if s == "" then "" else Map(s[..|s| - 1], f) + [f(s[|s| - 1])]
  }

  /** The characters that are `ok`, in order. */
  function Keep(s: string, ok: char -> bool): (r: string)
    ensures All(r, ok)
    ensures All(s, ok) ==> r == s
  {
    if s == "" then ""
    else
      assert s == s[..|s| - 1] + [s[|s| - 1]];
      Keep(s[..|s| - 1], ok) + if ok(s[|s| - 1]) then [s[|s| - 1]] else ""
  }

  ghost predicate NoDoubleDash(s: string) {
    forall i, j | 0 <= i < j < |s| && j == i + 1 :: !(s[i] == '-' && s[j] == '-')
  }

  /** Go's strings.TrimRight. */
  function TrimRight(s: string, cut: set<char>): (r: string)
    ensures r <= s
    ensures r == "" || r[|r| - 1] !in cut
    ensures forall i | |r| <= i < |s| :: s[i] in cut
  {
    if s != "" && s[|s| - 1] in cut then TrimRight(s[..|s| - 1], cut) else s
  }

  /** `v` occurs in `s` starting at byte `i`. */
  predicate OccursAt(s: string, v: string, i: int) {
    0 <= i && i + |v| <= |s| && s[i..i + |v|] == v
  }

  predicate Contains(s: string, v: string) {
    exists i | 0 <= i <= |s| :: OccursAt(s, v, i)
  }

  /** Go's strings.ReplaceAll for a non-empty pattern: leftmost matches first, never overlapping. */
  function ReplaceAll(s: string, pattern: string, with: string): string
    requires pattern != ""
  {
    if |s| < |pattern| then s
    else if s[..|pattern|] == pattern then with + ReplaceAll(s[|pattern|..], pattern, with)
    else [s[0]] + ReplaceAll(s[1..], pattern, with)
  }

  /** An occurrence survives text put before the string it is found in. */
  lemma OccursBehind(p: string, s: string, v: string, i: int)
    requires OccursAt(s, v, i)
    ensures OccursAt(p + s, v, |p| + i)
    ensures Contains(p + s, v)
  {
    assert (p + s)[|p| + i..|p| + i + |v|] == s[i..i + |v|];
    assert OccursAt(p + s, v, |p| + i);
  }

  /** An occurrence survives text put after the string it is found in. */
  lemma OccursBefore(s: string, q: string, v: string, i: int)
    requires OccursAt(s, v, i)
    ensures OccursAt(s + q, v, i)
    ensures Contains(s + q, v)
  {
    assert (s + q)[i..i + |v|] == s[i..i + |v|];
    assert OccursAt(s + q, v, i);
  }

  lemma {:induction false} ReplaceAllAbsent(s: string, pattern: string, with: string)
    requires pattern != ""
    requires !Contains(s, pattern)
    ensures ReplaceAll(s, pattern, with) == s
  {
    if |pattern| <= |s| {
      assert !OccursAt(s, pattern, 0);
      assert s[..1] + s[1..] == s;
      if Contains(s[1..], pattern) {
        var i :| 0 <= i <= |s[1..]| && OccursAt(s[1..], pattern, i);
        OccursBehind(s[..1], s[1..], pattern, i);
      }
      ReplaceAllAbsent(s[1..], pattern, with);
    }
  }

  // ---- What ReplaceAll does ----

  /** The pieces with a separator between each two of them. */
  function JoinWith(pieces: seq<string>, separator: string): string
    requires pieces != []
  {
    if |pieces| == 1 then pieces[0] else pieces[0] + separator + JoinWith(pieces[1..], separator)
  }

  /** No occurrence of `v` in `p + s` starts inside `p`. */
  ghost predicate NoneFrom(p: string, s: string, v: string) {
    forall i | 0 <= i < |p| :: !OccursAt(p + s, v, i)
  }

  /** Joined by `v`, the pieces have each `v` at its leftmost occurrence from the end of the one before. */
  ghost predicate CutAtLeftmost(pieces: seq<string>, v: string) {
    && pieces != []
    && (forall k | 0 <= k < |pieces| - 1 :: NoneFrom(pieces[k], v, v))
    && !Contains(pieces[|pieces| - 1], v)
  }

  lemma CutInFront(pieces: seq<string>, v: string)
    requires v != "" && CutAtLeftmost(pieces, v)
    ensures CutAtLeftmost([""] + pieces, v)
    ensures forall w :: JoinWith([""] + pieces, w) == w + JoinWith(pieces, w)
  {
    assert ([""] + pieces)[1..] == pieces;
  }

  lemma OneLongerPiece(c: char, pieces: seq<string>, w: string)
    requires pieces != []
    ensures JoinWith([[c] + pieces[0]] + pieces[1..], w) == [c] + JoinWith(pieces, w)
  {
    var longer := [[c] + pieces[0]] + pieces[1..];
    assert longer[1..] == pieces[1..];
  }

  /** A character that does not start an occurrence goes to the first piece. */
  lemma CutOneLater(c: char, pieces: seq<string>, v: string)
    requires v != "" && CutAtLeftmost(pieces, v) && !OccursAt([c] + JoinWith(pieces, v), v, 0)
    ensures CutAtLeftmost([[c] + pieces[0]] + pieces[1..], v)
  {
    var p := [c] + pieces[0];
    if |pieces| == 1 {
      forall i | 0 <= i <= |p|
        ensures !OccursAt(p, v, i)
      {
        LaterInTail(c, pieces[0], v, i);
      }
    } else {
      var rest := JoinWith(pieces[1..], v);
      assert [c] + JoinWith(pieces, v) == p + v + rest;
      forall i | 0 <= i < |p|
        ensures !OccursAt(p + v, v, i)
      {
        assert p + v == [c] + (pieces[0] + v);
        LaterInTail(c, pieces[0] + v, v, i);
        if OccursAt(p + v, v, 0) {
          OccursBefore(p + v, rest, v, 0);
        }
      }
    }
  }

  lemma LaterInTail(c: char, t: string, v: string, i: nat)
    ensures 0 < i && OccursAt([c] + t, v, i) ==> OccursAt(t, v, i - 1)
  {
    if 0 < i && i + |v| <= |t| + 1 {
      assert ([c] + t)[i..i + |v|] == t[i - 1..i - 1 + |v|];
    }
  }

  /**
   * Replacing keeps everything but the occurrences: the text is pieces with the pattern between them, each time
   * at its leftmost occurrence, and the result is the same pieces with the replacement between them.
   */
  lemma {:induction false} ReplaceAllPieces(s: string, v: string, with: string) returns (pieces: seq<string>)
    requires v != ""
    ensures CutAtLeftmost(pieces, v)
    ensures s == JoinWith(pieces, v) && ReplaceAll(s, v, with) == JoinWith(pieces, with)
  {
    if |s| < |v| {
      pieces := [s];
    } else if s[..|v|] == v {
      var rest := ReplaceAllPieces(s[|v|..], v, with);
      CutInFront(rest, v);
      pieces := [""] + rest;
      assert s == v + s[|v|..];
    } else {
      var rest := ReplaceAllPieces(s[1..], v, with);
      assert s == [s[0]] + s[1..];
      CutOneLater(s[0], rest, v);
      OneLongerPiece(s[0], rest, v);
      OneLongerPiece(s[0], rest, with);
      pieces := [[s[0]] + rest[0]] + rest[1..];
    }
  }

  /** The first of two such pieces ends where the first occurrence is. */
  lemma FirstCutIsNoLater(p: string, q: string, v: string, x: string, y: string)
    requires NoneFrom(q, v, v) && p + v + x == q + v + y
    ensures |q| <= |p|
  {
    if |p| < |q| {
      var s := q + v + y;
      assert (p + v + x)[|p|..|p| + |v|] == v;
      assert (q + v)[|p|..|p| + |v|] == s[|p|..|p| + |v|];
      assert OccursAt(q + v, v, |p|);
    }
  }

  /** There is one way to cut a text so. */
  lemma {:induction false} CutIsUnique(a: seq<string>, b: seq<string>, v: string)
    requires v != "" && CutAtLeftmost(a, v) && CutAtLeftmost(b, v) && JoinWith(a, v) == JoinWith(b, v)
    ensures a == b
  {
    if |a| == 1 || |b| == 1 {
      SeparatorInJoin(a, v);
      SeparatorInJoin(b, v);
    } else {
      var x, y := JoinWith(a[1..], v), JoinWith(b[1..], v);
      FirstCutIsNoLater(a[0], b[0], v, x, y);
      FirstCutIsNoLater(b[0], a[0], v, y, x);
      var s := a[0] + v + x;
      assert a[0] == s[..|a[0]|] == b[0] && x == s[|a[0] + v|..] == y;
      CutIsUnique(a[1..], b[1..], v);
      assert a == [a[0]] + a[1..] && b == [b[0]] + b[1..];
    }
  }

  lemma SeparatorInJoin(pieces: seq<string>, v: string)
    requires pieces != []
    ensures |pieces| == 1 ==> JoinWith(pieces, v) == pieces[0]
    ensures |pieces| > 1 ==> Contains(JoinWith(pieces, v), v)
  {
    if |pieces| > 1 {
      var rest := JoinWith(pieces[1..], v);
      assert (pieces[0] + v)[|pieces[0]|..] == v;
      OccursBefore(pieces[0] + v, rest, v, |pieces[0]|);
    }
  }

  // ---- Byte order ----

  /** Go's `<` on strings. */
  predicate Less(a: string, b: string) {
    b != "" && (a == "" || a[0] < b[0] || (a[0] == b[0] && Less(a[1..], b[1..])))
  }

  lemma {:induction false} LessOfConcat(a: string, b: string, c: string, d: string)
    requires |a| == |b|
    ensures Less(a + c, b + d) <==> Less(a, b) || (a == b && Less(c, d))
  {
    if a == "" {
      assert a + c == c && b + d == d;
    } else {
      assert (a + c)[1..] == a[1..] + c && (b + d)[1..] == b[1..] + d;
      LessOfConcat(a[1..], b[1..], c, d);
      assert a == b <==> a[0] == b[0] && a[1..] == b[1..];
    }
  }

  lemma {:induction false} LessIsStrictOrder(a: string, b: string, c: string)
    ensures Less(a, b) || a == b || Less(b, a)
    ensures Less(a, b) ==> a != b && !Less(b, a)
    ensures Less(a, b) && Less(b, c) ==> Less(a, c)
  {
    if a != "" && b != "" {
      LessIsStrictOrder(a[1..], b[1..], if c == "" then "" else c[1..]);
      assert a == [a[0]] + a[1..] && b == [b[0]] + b[1..];
    }
  }
}
