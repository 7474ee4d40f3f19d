/**
 The secret registry of internal/secrets/registry.go: a set of registered values
 and a redaction pass that substitutes a marker for each of them, longest first.
 */
module Redaction {
  import opened Strings

  const MARKER := "[REDACTED]"
  const MIN_SECRET_LEN := 8

  /** `order` lists every value once, longest first; values of equal length come in any order. */
  ghost predicate LongestFirst(order: seq<string>, values: set<string>) {
    && (forall v :: v in order <==> v in values)
    && (forall i, j | 0 <= i < j < |order| :: order[i] != order[j] && |order[i]| >= |order[j]|)
  }

  /** What one pass over the values does to a message. */
  function RedactInOrder(order: seq<string>, s: string): string
    requires "" !in order
  {
    if order == [] then s else RedactInOrder(order[1..], ReplaceAll(s, order[0], MARKER))
  }

  class Registry {
    var values: set<string>

    /** Only Add puts values in, so short ones never get there. */
    ghost predicate Valid()
      reads this
    {
      forall v | v in values :: MIN_SECRET_LEN <= |v|
    }

    constructor ()
      ensures Valid() && values == {}
    {
      values := {};
    }

    method Add(s: string)
      requires Valid()
      modifies this
      ensures Valid()
      ensures values == if |s| < MIN_SECRET_LEN then old(values) else old(values) + {s}
    {
      if |s| < MIN_SECRET_LEN {
        return;
      }
      values := values + {s};
    }

    method Remove(s: string)
      requires Valid()
      modifies this
      ensures Valid() && values == old(values) - {s}
    {
      if s == "" {
        return;
      }
      values := values - {s};
    }

    method Reset()
      modifies this
      ensures Valid() && values == {}
    {
      values := {};
    }

    /** The values in some longest-first order: map iteration and the sort fix no more than that. */
    method SortedValues() returns (order: seq<string>)
      ensures LongestFirst(order, values)
    {
      order := [];
      var rest := values;
      while rest != {}
        invariant rest <= values
        invariant LongestFirst(order, values - rest)
        invariant forall v, u | v in order && u in rest :: |v| >= |u|
        decreases |rest|
      {
        LongestExists(rest);
        var v :| v in rest && forall u | u in rest :: |u| <= |v|;
        order := order + [v];
        rest := rest - {v};
      }
      assert values - rest == values;
    }

    method RedactString(s: string) returns (r: string)
      requires Valid()
      ensures exists order :: LongestFirst(order, values) && "" !in order && r == RedactInOrder(order, s)
      ensures (forall v | v in values :: Separated(MARKER, v)) ==>
        Clean(r, values) && exists kept, gaps :: Masks(kept, gaps, values, s, r)
    {
      if s == "" || values == {} {
        var order := SortedValues();
        assert "" !in order;
        RedactEmptyMessage(order);
        assert values == {} ==> forall i | 0 <= i < |order| :: order[i] in values;
        if forall v | v in values :: Separated(MARKER, v) {
          RedactionIsComplete(order, values, s);
          RedactionMasks(order, values, s);
        }
        return s;
      }
      var order := SortedValues();
      assert "" !in order;
      r := s;
      for i := 0 to |order|
        invariant "" !in order[i..]
        invariant RedactInOrder(order, s) == RedactInOrder(order[i..], r)
      {
        assert order[i..][1..] == order[i + 1..];
        if Contains(r, order[i]) {
          r := ReplaceAll(r, order[i], MARKER);
        } else {
          ReplaceAllAbsent(r, order[i], MARKER);
        }
      }
      if forall v | v in values :: Separated(MARKER, v) {
        RedactionIsComplete(order, values, s);
        RedactionMasks(order, values, s);
      }
    }
  }

  lemma LongestExists(vs: set<string>)
    requires vs != {}
    ensures exists v :: v in vs && forall u | u in vs :: |u| <= |v|
  {
    var v :| v in vs;
    if vs != {v} {
      LongestExists(vs - {v});
      var w :| w in vs - {v} && forall u | u in vs - {v} :: |u| <= |w|;
      if |v| <= |w| {
        assert forall u | u in vs :: |u| <= |w|;
      } else {
        assert forall u | u in vs :: |u| <= |v|;
      }
    }
  }

  lemma {:induction false} RedactEmptyMessage(order: seq<string>)
    requires "" !in order
    ensures RedactInOrder(order, "") == ""
  {
    if order != [] {
      RedactEmptyMessage(order[1..]);
    }
  }

  // ---- When a secret can be confused with the marker ----

  /** Laid over `m` with its first byte at offset `d`, `w` agrees with it wherever the two overlap. */
  predicate Aligned(m: string, w: string, d: int) {
    forall k | 0 <= k < |m| && d <= k < d + |w| :: m[k] == w[k - d]
  }

  /** No occurrence of `w` can touch a copy of `m`. */
  ghost predicate Separated(m: string, w: string) {
    w != "" && forall d | -|w| < d < |m| :: !Aligned(m, w, d)
  }

  predicate BracketFree(w: string) {
    '[' !in w && ']' !in w
  }

  /** Among bracket-free secrets of registrable length only the marker's own word touches it. */
  lemma BracketFreeSeparated(w: string)
    requires BracketFree(w) && MIN_SECRET_LEN <= |w|
    ensures Separated(MARKER, w) <==> w != "REDACTED"
  {
    if w == "REDACTED" {
      assert Aligned(MARKER, w, 1);
    } else {
      forall d | -|w| < d < |MARKER|
        ensures !Aligned(MARKER, w, d)
      {
        if d <= 0 {
          assert MARKER[0] != w[0 - d];
        } else if |MARKER| <= d + |w| {
          assert MARKER[9] != w[9 - d];
        } else if Aligned(MARKER, w, d) {
          MarkerMiddle(w, d);
          assert false;
        }
      }
    }
  }

  /** A registrable secret lying strictly inside the marker is the marker's word. */
  lemma MarkerMiddle(w: string, d: int)
    requires MIN_SECRET_LEN <= |w| && 1 <= d && d + |w| < |MARKER|
    requires Aligned(MARKER, w, d)
    ensures w == "REDACTED"
  {
    assert d == 1 && |w| == 8;
    assert forall j | 0 <= j < 8 :: w[j] == MARKER[j + 1];
  }

  /** An occurrence around a copy of the marker lies wholly to its left, wholly to its right, or laid over it. */
  lemma OccurrenceAroundMarker(p: string, m: string, q: string, w: string, i: int)
    requires OccursAt(p + m + q, w, i)
    ensures OccursAt(p, w, i) || OccursAt(q, w, i - |p| - |m|) || (-|w| < i - |p| < |m| && Aligned(m, w, i - |p|))
  {
    var t := p + m + q;
    var d := i - |p|;
    assert forall k | 0 <= k < |w| :: t[i + k] == w[k];
    if -|w| < d < |m| {
      forall k | 0 <= k < |m| && d <= k < d + |w|
        ensures m[k] == w[k - d]
      {
        assert t[|p| + k] == m[k];
        assert t[i + (k - d)] == w[k - d];
      }
    } else if d <= -|w| {
      assert p[i..i + |w|] == t[i..i + |w|];
    } else {
      var j := i - |p| - |m|;
      assert q[j..j + |w|] == t[i..i + |w|];
    }
  }

  lemma OccurrenceAvoidsMarker(p: string, m: string, q: string, w: string, i: int)
    requires Separated(m, w)
    requires OccursAt(p + m + q, w, i)
    ensures OccursAt(p, w, i) || OccursAt(q, w, i - |p| - |m|)
  {
    OccurrenceAroundMarker(p, m, q, w, i);
  }

  /**
   A marker and the text beside it can spell `w`: laid over the marker at offset `d` it agrees with it, and where it
   begins before the marker, those first bytes do not already complete a copy of `w` with the one that is replaced.
   */
  ghost predicate ReassemblesAt(w: string, d: int) {
    && -|w| < d < |MARKER| && Aligned(MARKER, w, d)
    && (d < 0 ==> NoneFrom(w[..-d], w, w))
  }

  ghost predicate Reassembles(w: string) {
    exists d :: ReassemblesAt(w, d)
  }

  // ---- Completeness ----

  ghost predicate Clean(s: string, values: set<string>) {
    forall v | v in values :: !Contains(s, v)
  }

  /** An occurrence around a marker lies before it or behind it. */
  lemma BesideMarker(p: string, done: string, w: string)
    requires w != "" && Separated(MARKER, w) && Contains(p + MARKER + done, w)
    ensures Contains(p, w) || Contains(done, w)
  {
    var i :| 0 <= i && OccursAt(p + MARKER + done, w, i);
    OccurrenceAvoidsMarker(p, MARKER, done, w, i);
    if OccursAt(p, w, i) {
      assert Contains(p, w);
    } else {
      OccursBehind("", done, w, i - |p| - |MARKER|);
      assert "" + done == done;
    }
  }

  lemma ContainsBehind(p: string, s: string, w: string)
    requires Contains(s, w)
    ensures Contains(p + s, w)
  {
    var i :| 0 <= i && OccursAt(s, w, i);
    OccursBehind(p, s, w, i);
  }

  lemma ContainsBefore(p: string, s: string, w: string)
    requires Contains(p, w)
    ensures Contains(p + s, w)
  {
    var i :| 0 <= i && OccursAt(p, w, i);
    OccursBefore(p, s, w, i);
  }

  lemma Regroup(a: string, b: string, c: string)
    ensures a + (b + c) == a + b + c
  {
  }

  lemma MarkerStep(p: string, v: string, rest: string, done: string, w: string)
    requires Separated(MARKER, w) && Contains(p + MARKER + done, w)
    requires Contains(done, w) ==> Contains(rest, w)
    ensures Contains(p + v + rest, w)
  {
    BesideMarker(p, done, w);
    if Contains(p, w) {
      ContainsBefore(p, v + rest, w);
      assert p + (v + rest) == p + v + rest;
    } else {
      ContainsBehind(p + v, rest, w);
    }
  }

  /** Replacing `v` brings no new occurrence of `w`; `p` is the text already copied. */
  lemma {:induction false} ReplacingAddsNothing(p: string, s: string, v: string, w: string)
    requires v != "" && Separated(MARKER, w)
    requires Contains(p + ReplaceAll(s, v, MARKER), w)
    ensures Contains(p + s, w)
    decreases |s|
  {
    if |s| < |v| {
    } else if s[..|v|] == v {
      var rest := s[|v|..];
      var done := ReplaceAll(rest, v, MARKER);
      if Contains(done, w) {
        assert "" + done == done && "" + rest == rest;
        ReplacingAddsNothing("", rest, v, w);
      }
      Regroup(p, MARKER, done);
      MarkerStep(p, v, rest, done, w);
      Regroup(p, v, rest);
      assert v + rest == s;
    } else {
      var first, rest := [s[0]], s[1..];
      Regroup(p, first, ReplaceAll(rest, v, MARKER));
      ReplacingAddsNothing(p + first, rest, v, w);
      Regroup(p, first, rest);
      assert first + rest == s;
    }
  }

  lemma NoneInShort(p: string, s: string, v: string)
    requires NoneFrom(p, s, v) && |s| < |v|
    ensures !Contains(p + s, v)
  {
  }

  /** Text that ends in the first `n` bytes of `v`, with `v` behind it, holds what those bytes and `v` hold. */
  lemma OverlapInText(p: string, v: string, rest: string, n: nat)
    requires n <= |v| && n <= |p| && p[|p| - n..] == v[..n]
    requires NoneFrom(p, v + rest, v)
    ensures NoneFrom(v[..n], v, v)
  {
    var head := v[..n];
    forall j | 0 <= j < |head|
      ensures !OccursAt(head + v, v, j)
    {
      if OccursAt(head + v, v, j) {
        assert p[..|p| - n] + (head + v) == p + v;
        OccursBehind(p[..|p| - n], head + v, v, j);
        OccursBefore(p + v, rest, v, |p| - n + j);
        Regroup(p, v, rest);
      }
    }
  }

  lemma PrefixBefore(p: string, m: string, q: string, v: string, i: nat)
    requires OccursAt(p + m + q, v, i) && i < |p| < i + |v|
    ensures p[i..] == v[..|p| - i]
  {
    var t := p + m + q;
    assert p[i..] == t[i..|p|] == t[i..i + |v|][..|p| - i];
  }

  lemma NoneAroundMarker(p: string, v: string, rest: string, done: string)
    requires v != "" && !Reassembles(v) && NoneFrom(p, v + rest, v) && !Contains(done, v)
    ensures !Contains(p + MARKER + done, v)
  {
    if Contains(p + MARKER + done, v) {
      var i :| 0 <= i && OccursAt(p + MARKER + done, v, i);
      OccurrenceAroundMarker(p, MARKER, done, v, i);
      assert !ReassemblesAt(v, i - |p|);
      if OccursAt(p, v, i) {
        OccursBefore(p, v + rest, v, i);
      } else if i < |p| < i + |v| {
        PrefixBefore(p, MARKER, done, v, i);
        OverlapInText(p, v, rest, |p| - i);
      }
    }
  }

  lemma NoneFromLonger(p: string, s: string, v: string)
    requires NoneFrom(p, s, v) && s != "" && |v| <= |s| && s[..|v|] != v
    ensures NoneFrom(p + [s[0]], s[1..], v)
  {
    assert p + [s[0]] + s[1..] == p + s;
    assert (p + s)[|p|..|p| + |v|] == s[..|v|];
    assert !OccursAt(p + s, v, |p|);
  }

  /** Replacing `v` leaves none of it, when `p + s` has no occurrence starting inside `p`. */
  lemma {:induction false} ReplacingIsExhaustive(p: string, s: string, v: string)
    requires v != "" && !Reassembles(v)
    requires NoneFrom(p, s, v)
    ensures !Contains(p + ReplaceAll(s, v, MARKER), v)
    decreases |s|
  {
    if |s| < |v| {
      NoneInShort(p, s, v);
    } else if s[..|v|] == v {
      var rest := s[|v|..];
      var done := ReplaceAll(rest, v, MARKER);
      ReplacingIsExhaustive("", rest, v);
      assert "" + done == done;
      assert s == v + rest;
      NoneAroundMarker(p, v, rest, done);
      Regroup(p, MARKER, done);
    } else {
      NoneFromLonger(p, s, v);
      ReplacingIsExhaustive(p + [s[0]], s[1..], v);
      Regroup(p, [s[0]], ReplaceAll(s[1..], v, MARKER));
    }
  }

  /** One replacement keeps every clean value clean and cleans its own. */
  lemma ReplaceStep(s: string, v: string, w: string)
    requires Separated(MARKER, v) && Separated(MARKER, w)
    requires w == v || !Contains(s, w)
    ensures !Contains(ReplaceAll(s, v, MARKER), w)
  {
    var r := ReplaceAll(s, v, MARKER);
    assert "" + r == r && "" + s == s;
    if w == v {
      assert forall d :: !ReassemblesAt(v, d);
      ReplacingIsExhaustive("", s, v);
    } else if Contains(r, w) {
      ReplacingAddsNothing("", s, v, w);
    }
  }

  lemma {:induction false} RedactionKeepsClean(order: seq<string>, s: string, w: string)
    requires forall v | v in order :: Separated(MARKER, v)
    requires Separated(MARKER, w) && (w in order || !Contains(s, w))
    ensures "" !in order
    ensures !Contains(RedactInOrder(order, s), w)
  {
    if order != [] {
      assert order[0] in order;
      if w == order[0] || !Contains(s, w) {
        ReplaceStep(s, order[0], w);
      }
      RedactionKeepsClean(order[1..], ReplaceAll(s, order[0], MARKER), w);
    }
  }

  /** No registered secret is left in a redacted message, whatever the message and the order. */
  lemma RedactionIsComplete(order: seq<string>, values: set<string>, s: string)
    requires LongestFirst(order, values)
    requires forall v | v in values :: Separated(MARKER, v)
    ensures "" !in order
    ensures Clean(RedactInOrder(order, s), values)
  {
    forall v | v in values
      ensures !Contains(RedactInOrder(order, s), v)
    {
      RedactionKeepsClean(order, s, v);
    }
    assert forall v | v in order :: v != "";
  }

  lemma {:induction false} CleanIsFixed(order: seq<string>, s: string)
    requires "" !in order
    requires forall v | v in order :: !Contains(s, v)
    ensures RedactInOrder(order, s) == s
  {
    if order != [] {
      assert order[0] in order;
      ReplaceAllAbsent(s, order[0], MARKER);
      CleanIsFixed(order[1..], s);
    }
  }

  /** Redacting twice is redacting once, even when the second pass meets the values in another order. */
  lemma RedactionIsIdempotent(first: seq<string>, second: seq<string>, values: set<string>, s: string)
    requires LongestFirst(first, values) && LongestFirst(second, values)
    requires forall v | v in values :: Separated(MARKER, v)
    ensures "" !in first && "" !in second
    ensures RedactInOrder(second, RedactInOrder(first, s)) == RedactInOrder(first, s)
  {
    RedactionIsComplete(first, values, s);
    RedactionIsComplete(second, values, s);
    CleanIsFixed(second, RedactInOrder(first, s));
  }

  /** Every message comes out clean, in every order. */
  ghost predicate RedactsEverything(values: set<string>) {
    forall order, s :: LongestFirst(order, values) && "" !in order ==> Clean(RedactInOrder(order, s), values)
  }

  /** For bracket-free registries the guarantee holds exactly when the marker's word is not registered. */
  lemma RedactsEverythingExactly(values: set<string>)
    requires forall v | v in values :: MIN_SECRET_LEN <= |v| && BracketFree(v)
    ensures RedactsEverything(values) <==> "REDACTED" !in values
  {
    forall v | v in values
      ensures Separated(MARKER, v) <==> v != "REDACTED"
    {
      BracketFreeSeparated(v);
    }
    if "REDACTED" !in values {
      forall o, s | LongestFirst(o, values) && "" !in o
        ensures Clean(RedactInOrder(o, s), values)
      {
        RedactionIsComplete(o, values, s);
      }
    } else {
      var order := SomeOrder(values);
      assert "" !in order;
      MarkerSurvives(order);
      MarkerHoldsItsWord();
      assert !Clean(RedactInOrder(order, MARKER), values);
    }
  }

  lemma {:induction false} SomeOrder(values: set<string>) returns (order: seq<string>)
    ensures LongestFirst(order, values)
  {
    order := [];
    if values != {} {
      LongestExists(values);
      var v :| v in values && forall u | u in values :: |u| <= |v|;
      order := SomeOrder(values - {v});
      LongestInFront(values, v, order);
      order := [v] + order;
    }
  }

  lemma LongestInFront(values: set<string>, v: string, rest: seq<string>)
    requires v in values && forall u | u in values :: |u| <= |v|
    requires LongestFirst(rest, values - {v})
    ensures LongestFirst([v] + rest, values)
  {
    assert forall u | u in rest :: u in values - {v};
  }

  lemma MarkerHoldsItsWord()
    ensures Contains(MARKER, "REDACTED")
  {
    assert OccursAt(MARKER, "REDACTED", 1);
  }

  /** A registrable secret other than the marker's own word is not found in or around a marker. */
  lemma NotInMarker(a: string, u: string, b: string)
    requires MIN_SECRET_LEN <= |u| && BracketFree(u) && u != "REDACTED" && |a| <= 1 && |b| <= 1
    ensures !Contains(a + MARKER + b, u)
  {
    BracketFreeSeparated(u);
    if Contains(a + MARKER + b, u) {
      var i :| 0 <= i && OccursAt(a + MARKER + b, u, i);
      OccurrenceAvoidsMarker(a, MARKER, b, u, i);
    }
  }

  /** Replacing the marker's own word wraps a marker in brackets. */
  lemma WordInMarkerReplaced()
    ensures ReplaceAll(MARKER, "REDACTED", MARKER) == "[" + MARKER + "]"
    ensures Contains("[" + MARKER + "]", "REDACTED")
  {
    var v := "REDACTED";
    assert "[" + v + "]" == MARKER;
    forall i | OccursAt("[" + v + "]", v, i)
      ensures i == 1
    {
      assert MARKER[0] != v[0] && MARKER[2] != v[0];
    }
    ReplaceOnly("[", v, "]");
    MarkerHoldsItsWord();
    OccursBehind("[", MARKER, v, 1);
    OccursBefore("[" + MARKER, "]", v, 2);
  }

  /** Whatever bracket-free secrets there are, redacting the marker leaves its word in place. */
  lemma {:induction false} MarkerSurvives(order: seq<string>)
    requires forall v | v in order :: MIN_SECRET_LEN <= |v| && BracketFree(v)
    requires forall i, j | 0 <= i < j < |order| :: order[i] != order[j]
    ensures "" !in order
    ensures Contains(RedactInOrder(order, MARKER), "REDACTED")
  {
    if order == [] {
      MarkerHoldsItsWord();
    } else {
      var v := order[0];
      assert v in order;
      if v == "REDACTED" {
        var inner := "[" + MARKER + "]";
        WordInMarkerReplaced();
        forall u | u in order[1..]
          ensures !Contains(inner, u)
        {
          assert u != v;
          NotInMarker("[", u, "]");
        }
        CleanIsFixed(order[1..], inner);
      } else {
        NotInMarker("", v, "");
        assert "" + MARKER + "" == MARKER;
        ReplaceAllAbsent(MARKER, v, MARKER);
        MarkerSurvives(order[1..]);
      }
    }
  }

  /** For a registry of one secret, brackets or not, the guarantee holds exactly when the secret cannot reassemble. */
  lemma OneSecretExactly(w: string)
    requires MIN_SECRET_LEN <= |w|
    ensures RedactsEverything({w}) <==> !Reassembles(w)
  {
    if Reassembles(w) {
      var d :| ReassemblesAt(w, d);
      var s := MeetingLeaks(w, d);
      assert LongestFirst([w], {w}) && w in {w};
    } else {
      forall order, s | LongestFirst(order, {w}) && "" !in order
        ensures Clean(RedactInOrder(order, s), {w})
      {
        OrderOfOne(order, w);
        assert RedactInOrder([w], s) == RedactInOrder([], ReplaceAll(s, w, MARKER));
        assert "" + ReplaceAll(s, w, MARKER) == ReplaceAll(s, w, MARKER);
        ReplacingIsExhaustive("", s, w);
      }
    }
  }

  lemma OrderOfOne(order: seq<string>, w: string)
    requires LongestFirst(order, {w})
    ensures order == [w]
  {
    assert w in order;
    var last := |order| - 1;
    assert order[0] in order && order[last] in order;
    assert last == 0;
  }

  /** The message: what the secret has before the marker, the secret, and what it has behind the marker. */
  lemma MeetingLeaks(w: string, d: int) returns (s: string)
    requires w != "" && ReassemblesAt(w, d)
    ensures Contains(RedactInOrder([w], s), w)
  {
    var x := if d < 0 then w[..-d] else "";
    var y := if |MARKER| < d + |w| then w[|MARKER| - d..] else "";
    s := x + w + y;
    ReplaceFirst(x, w, y);
    assert RedactInOrder([w], s) == RedactInOrder([], x + MARKER + y);
    SpelledAround(x, y, w, d);
  }

  lemma SpelledAround(x: string, y: string, w: string, d: int)
    requires -|w| < d < |MARKER| && Aligned(MARKER, w, d)
    requires x == if d < 0 then w[..-d] else ""
    requires y == if |MARKER| < d + |w| then w[|MARKER| - d..] else ""
    ensures Contains(x + MARKER + y, w)
  {
    var r, i := x + MARKER + y, |x| + d;
    forall k | 0 <= k < |w|
      ensures r[i + k] == w[k]
    {
      if 0 <= d + k < |MARKER| {
        assert MARKER[d + k] == w[k];
      }
    }
    assert r[i..i + |w|] == w;
    assert OccursAt(r, w, i);
  }

  /** In particular a secret that lies inside the marker, begins with a tail of it, or contains it always leaks. */
  lemma InsideTailOrAroundLeaks(w: string)
    requires MIN_SECRET_LEN <= |w|
    requires (exists d | 0 <= d < |MARKER| :: Aligned(MARKER, w, d)) || Contains(w, MARKER)
    ensures !RedactsEverything({w})
  {
    if d :| 0 <= d < |MARKER| && Aligned(MARKER, w, d) {
      assert ReassemblesAt(w, d);
    } else {
      var i := FirstMarker(w, |w|);
      FirstMarkerReassembles(w, i);
    }
    OneSecretExactly(w);
  }

  lemma {:induction false} FirstMarker(w: string, n: nat) returns (i: nat)
    requires exists j | 0 <= j <= n :: OccursAt(w, MARKER, j)
    ensures OccursAt(w, MARKER, i) && forall j | 0 <= j < i :: !OccursAt(w, MARKER, j)
  {
    if j :| 0 <= j < n && OccursAt(w, MARKER, j) {
      i := FirstMarker(w, n - 1);
    } else {
      i := n;
    }
  }

  lemma EarlierMarker(w: string, i: int, j: int)
    requires OccursAt(w, MARKER, i) && 0 <= j < i && OccursAt(w[..i] + w, w, j)
    ensures OccursAt(w, MARKER, j)
  {
    var t := w[..i] + w;
    forall k | 0 <= k < |MARKER|
      ensures w[j + k] == MARKER[k]
    {
      assert t[j..j + |w|][i + k] == t[j + i + k] == w[j + k];
      assert w[i..i + |MARKER|][k] == w[i + k];
    }
    assert w[j..j + |MARKER|] == MARKER;
  }

  /** An earlier copy of `w` would hold an earlier marker. */
  lemma FirstMarkerReassembles(w: string, i: int)
    requires OccursAt(w, MARKER, i) && forall j | 0 <= j < i :: !OccursAt(w, MARKER, j)
    ensures ReassemblesAt(w, -i)
  {
    assert Aligned(MARKER, w, -i) by {
      forall k | 0 <= k < |MARKER|
        ensures MARKER[k] == w[k + i]
      {
        assert w[i..i + |MARKER|][k] == w[i + k];
      }
    }
    var t := w[..i] + w;
    forall j | 0 <= j < i
      ensures !OccursAt(t, w, j)
    {
      if OccursAt(t, w, j) {
        EarlierMarker(w, i, j);
      }
    }
  }

  /** A bracket can let a secret reassemble from the marker's tail and the text behind it. */
  lemma BracketedSecretReassembles()
    ensures LongestFirst(["ED]12345"], {"ED]12345"})
    ensures Contains(RedactInOrder(["ED]12345"], "ED]1234512345"), "ED]12345")
  {
    var w := "ED]12345";
    var s := "ED]1234512345";
    assert s[..8] == w && s[8..] == "12345";
    assert ReplaceAll(s, w, MARKER) == MARKER + "12345";
    assert RedactInOrder([w], s) == RedactInOrder([], MARKER + "12345");
    assert OccursAt(MARKER + "12345", w, 7);
  }

  /**
   So can every secret that begins as the marker ends, brackets or not: in a message holding it twice, the second
   time without that beginning, the marker supplies the beginning again.
   */
  lemma TailOverlapReassembles(x: string, m: string, y: string)
    requires MARKER == x + m && m != ""
    ensures LongestFirst([m + y], {m + y})
    ensures Contains(RedactInOrder([m + y], m + y + y), m + y)
  {
    var v := m + y;
    var s := v + y;
    assert s[..|v|] == v && s[|v|..] == y;
    assert ReplaceAll(y, v, MARKER) == y;
    assert RedactInOrder([v], s) == RedactInOrder([], MARKER + y);
    assert MARKER + y == x + v;
    assert OccursAt(x + v, v, |x|);
  }

  // ---- What redaction leaves in place ----

  /** The kept texts with a gap's text between each two of them. */
  function Interleave(kept: seq<string>, gaps: seq<string>): string
    requires |kept| == |gaps| + 1
  {
    if gaps == [] then kept[0] else kept[0] + gaps[0] + Interleave(kept[1..], gaps[1..])
  }

  /** `r` is `s` with some registered values, none overlapping another, replaced by markers, and all else in place. */
  ghost predicate Masks(kept: seq<string>, gaps: seq<string>, values: set<string>, s: string, r: string) {
    && |kept| == |gaps| + 1
    && (forall g | g in gaps :: g in values)
    && s == Interleave(kept, gaps) && r == JoinWith(kept, MARKER)
  }

  lemma {:induction false} Splice(a: seq<string>, g: seq<string>, gap: string, b: seq<string>, h: seq<string>)
    requires |a| == |g| + 1 && |b| == |h| + 1
    ensures Interleave(a + b, g + [gap] + h) == Interleave(a, g) + gap + Interleave(b, h)
    ensures JoinWith(a + b, gap) == JoinWith(a, gap) + gap + JoinWith(b, gap)
  {
    if g == [] {
      assert (a + b)[1..] == b && (g + [gap] + h)[1..] == h;
    } else {
      assert (a + b)[1..] == a[1..] + b && (g + [gap] + h)[1..] == g[1..] + [gap] + h;
      Splice(a[1..], g[1..], gap, b, h);
    }
  }

  function Copies(v: string, n: nat): (r: seq<string>)
    ensures |r| == n && forall g | g in r :: g == v
  {
    if n == 0 then [] else [v] + Copies(v, n - 1)
  }

  lemma {:induction false} JoinIsInterleave(pieces: seq<string>, v: string)
    requires pieces != []
    ensures JoinWith(pieces, v) == Interleave(pieces, Copies(v, |pieces| - 1))
  {
    if |pieces| > 1 {
      JoinIsInterleave(pieces[1..], v);
      assert Copies(v, |pieces| - 1)[1..] == Copies(v, |pieces| - 2);
    }
  }

  /** A separated secret is not found from within a marker on. */
  lemma {:induction false} ReplaceBehindMarker(k: nat, rest: string, v: string)
    requires Separated(MARKER, v) && k <= |MARKER|
    ensures ReplaceAll(MARKER[k..] + rest, v, MARKER) == MARKER[k..] + ReplaceAll(rest, v, MARKER)
    decreases |MARKER| - k
  {
    if k == |MARKER| {
      assert MARKER[k..] == "";
      assert "" + rest == rest && "" + ReplaceAll(rest, v, MARKER) == ReplaceAll(rest, v, MARKER);
    } else {
      var c, next := MARKER[k], MARKER[k + 1..];
      ReplaceBehindMarker(k + 1, rest, v);
      NotFromMarker(k, rest, v);
      MarkerTail(k, rest);
      ReplaceSkips(c, next + rest, v);
      Regroup([c], next, ReplaceAll(rest, v, MARKER));
    }
  }

  lemma MarkerTail(k: nat, rest: string)
    requires k < |MARKER|
    ensures MARKER[k..] == [MARKER[k]] + MARKER[k + 1..]
    ensures MARKER[k..] + rest == [MARKER[k]] + (MARKER[k + 1..] + rest)
  {
  }

  lemma NotFromMarker(k: nat, rest: string, v: string)
    requires Separated(MARKER, v) && k < |MARKER|
    ensures !OccursAt(MARKER[k..] + rest, v, 0)
  {
    if OccursAt(MARKER[k..] + rest, v, 0) {
      assert MARKER[..k] + (MARKER[k..] + rest) == "" + MARKER + rest;
      OccursBehind(MARKER[..k], MARKER[k..] + rest, v, 0);
      OccurrenceAvoidsMarker("", MARKER, rest, v, k);
    }
  }

  lemma MatchBesideMarker(p: string, rest: string, v: string)
    requires v != "" && OccursAt(p, v, 0)
    ensures ReplaceAll(p, v, MARKER) == MARKER + ReplaceAll(p[|v|..], v, MARKER)
    ensures ReplaceAll(p + MARKER + rest, v, MARKER) == MARKER + ReplaceAll(p[|v|..] + MARKER + rest, v, MARKER)
  {
    var s := p + MARKER + rest;
    assert s[..|v|] == v && s[|v|..] == p[|v|..] + MARKER + rest;
  }

  lemma NoMatchBesideMarker(p: string, rest: string, v: string)
    requires p != "" && !OccursAt(p, v, 0) && Separated(MARKER, v)
    ensures ReplaceAll(p, v, MARKER) == [p[0]] + ReplaceAll(p[1..], v, MARKER)
    ensures ReplaceAll(p + MARKER + rest, v, MARKER) == [p[0]] + ReplaceAll(p[1..] + MARKER + rest, v, MARKER)
  {
    if OccursAt(p + MARKER + rest, v, 0) {
      OccurrenceAvoidsMarker(p, MARKER, rest, v, 0);
    }
    assert p == [p[0]] + p[1..] && p + MARKER + rest == [p[0]] + (p[1..] + MARKER + rest);
    ReplaceSkips(p[0], p[1..] + MARKER + rest, v);
    ReplaceSkips(p[0], p[1..], v);
  }

  lemma RegroupFour(a: string, b: string, c: string, d: string)
    ensures a + (b + c + d) == a + b + c + d
  {
  }

  /** A separated secret is replaced on the two sides of a marker independently. */
  lemma {:induction false} ReplaceBesideMarker(p: string, rest: string, v: string)
    requires Separated(MARKER, v)
    ensures ReplaceAll(p + MARKER + rest, v, MARKER)
         == ReplaceAll(p, v, MARKER) + MARKER + ReplaceAll(rest, v, MARKER)
    decreases |p|
  {
    if p == "" {
      MarkerFirst(rest, v);
    } else if OccursAt(p, v, 0) {
      ReplaceBesideMarker(p[|v|..], rest, v);
      MatchBesideMarker(p, rest, v);
      RegroupFour(MARKER, ReplaceAll(p[|v|..], v, MARKER), MARKER, ReplaceAll(rest, v, MARKER));
    } else {
      ReplaceBesideMarker(p[1..], rest, v);
      NoMatchBesideMarker(p, rest, v);
      RegroupFour([p[0]], ReplaceAll(p[1..], v, MARKER), MARKER, ReplaceAll(rest, v, MARKER));
    }
  }

  lemma MarkerFirst(rest: string, v: string)
    requires Separated(MARKER, v)
    ensures ReplaceAll("" + MARKER + rest, v, MARKER)
         == ReplaceAll("", v, MARKER) + MARKER + ReplaceAll(rest, v, MARKER)
  {
    ReplaceBehindMarker(0, rest, v);
    assert MARKER[0..] == MARKER && "" + MARKER + rest == MARKER + rest;
    assert "" + MARKER + ReplaceAll(rest, v, MARKER) == MARKER + ReplaceAll(rest, v, MARKER);
  }

  /** One more secret is masked within the texts kept so far. */
  lemma {:induction false} MaskOneMore(kept: seq<string>, gaps: seq<string>, v: string)
    returns (kept': seq<string>, gaps': seq<string>)
    requires |kept| == |gaps| + 1 && Separated(MARKER, v)
    ensures |kept'| == |gaps'| + 1 && (forall g | g in gaps' :: g in gaps || g == v)
    ensures Interleave(kept', gaps') == Interleave(kept, gaps)
    ensures JoinWith(kept', MARKER) == ReplaceAll(JoinWith(kept, MARKER), v, MARKER)
  {
    var pieces := ReplaceAllPieces(kept[0], v, MARKER);
    var between := Copies(v, |pieces| - 1);
    JoinIsInterleave(pieces, v);
    if gaps == [] {
      kept', gaps' := pieces, between;
    } else {
      var k, g := MaskOneMore(kept[1..], gaps[1..], v);
      kept', gaps' := pieces + k, between + [gaps[0]] + g;
      Splice(pieces, between, gaps[0], k, g);
      Splice(pieces, between, MARKER, k, g);
      ReplaceBesideMarker(kept[0], JoinWith(kept[1..], MARKER), v);
    }
  }

  lemma {:induction false} MaskInOrder(order: seq<string>, kept: seq<string>, gaps: seq<string>, values: set<string>,
                                       s: string, t: string)
    returns (kept': seq<string>, gaps': seq<string>)
    requires forall v | v in order :: Separated(MARKER, v) && v in values
    requires Masks(kept, gaps, values, s, t)
    ensures "" !in order && Masks(kept', gaps', values, s, RedactInOrder(order, t))
  {
    if order == [] {
      kept', gaps' := kept, gaps;
    } else {
      assert order[0] in order;
      kept', gaps' := MaskOneMore(kept, gaps, order[0]);
      kept', gaps' := MaskInOrder(order[1..], kept', gaps', values, s, ReplaceAll(t, order[0], MARKER));
    }
  }

  /** Redaction replaces whole registered values, each by one marker, and leaves every other byte in its place. */
  lemma RedactionMasks(order: seq<string>, values: set<string>, s: string)
    requires LongestFirst(order, values) && forall v | v in values :: Separated(MARKER, v)
    ensures "" !in order
    ensures exists kept, gaps :: Masks(kept, gaps, values, s, RedactInOrder(order, s))
  {
    assert Masks([s], [], values, s, s);
    var kept, gaps := MaskInOrder(order, [s], [], values, s, s);
  }

  // ---- What "longest first" buys ----

  /** What occurs only inside the replaced stretch is gone with it. */
  lemma NothingBeside(p: string, w: string, q: string, u: string)
    requires Separated(MARKER, u)
    requires forall i | OccursAt(p + w + q, u, i) :: |p| <= i && i + |u| <= |p| + |w|
    ensures !Contains(p + MARKER + q, u)
  {
    if Contains(p + MARKER + q, u) {
      var i :| 0 <= i && OccursAt(p + MARKER + q, u, i);
      OccurrenceAvoidsMarker(p, MARKER, q, u, i);
      Regroup(p, w, q);
      if OccursAt(p, u, i) {
        OccursBefore(p, w + q, u, i);
      } else {
        OccursBehind(p + w, q, u, i - |p| - |MARKER|);
      }
    }
  }

  lemma MarkedIsFixed(rest: seq<string>, p: string, w: string, q: string)
    requires "" !in rest && forall v | v in rest :: Separated(MARKER, v)
    requires forall v, i | v in rest && OccursAt(p + w + q, v, i) :: |p| <= i && i + |v| <= |p| + |w|
    ensures RedactInOrder(rest, p + MARKER + q) == p + MARKER + q
  {
    forall u | u in rest
      ensures !Contains(p + MARKER + q, u)
    {
      NothingBeside(p, w, q, u);
    }
    CleanIsFixed(rest, p + MARKER + q);
  }

  /** What is found only inside the stretch `w`, is no shorter than it and is not `w`, is not found at all. */
  lemma LongerIsAbsent(p: string, w: string, q: string, v: string)
    requires v != w && |w| <= |v|
    requires forall i | OccursAt(p + w + q, v, i) :: |p| <= i && i + |v| <= |p| + |w|
    ensures !Contains(p + w + q, v)
  {
    assert (p + w + q)[|p|..|p| + |w|] == w;
  }

  /**
   A secret met on its own is replaced as a whole: if every registered value found in the message lies
   inside this one occurrence of `w`, exactly that stretch becomes the marker and nothing of it is left over.
   */
  lemma {:induction false} WholeSecretReplaced(order: seq<string>, p: string, w: string, q: string)
    requires forall v | v in order :: Separated(MARKER, v)
    requires forall i, j | 0 <= i < j < |order| :: order[i] != order[j] && |order[i]| >= |order[j]|
    requires w in order
    requires forall v, i | v in order && OccursAt(p + w + q, v, i) :: |p| <= i && i + |v| <= |p| + |w|
    ensures "" !in order
    ensures RedactInOrder(order, p + w + q) == p + MARKER + q
  {
    var v := order[0];
    var s := p + w + q;
    assert v in order;
    if v == w {
      ReplaceOnly(p, w, q);
      assert forall u | u in order[1..] :: u in order;
      MarkedIsFixed(order[1..], p, w, q);
    } else {
      LongerIsAbsent(p, w, q, v);
      ReplaceAllAbsent(s, v, MARKER);
      WholeSecretReplaced(order[1..], p, w, q);
    }
  }

  lemma ReplaceSkips(c: char, t: string, w: string)
    requires w != "" && !OccursAt([c] + t, w, 0)
    ensures ReplaceAll([c] + t, w, MARKER) == [c] + ReplaceAll(t, w, MARKER)
  {
    assert ([c] + t)[1..] == t;
  }

  lemma NoneFromNext(c: char, p: string, w: string, q: string)
    requires w != "" && NoneFrom([c] + p, w, w)
    ensures NoneFrom(p, w, w)
    ensures !OccursAt([c] + (p + w + q), w, 0)
  {
    assert [c] + p + w == [c] + (p + w);
    forall i | 0 <= i < |p|
      ensures !OccursAt(p + w, w, i)
    {
      if OccursAt(p + w, w, i) {
        OccursBehind([c], p + w, w, i);
      }
    }
    assert ([c] + (p + w + q))[..|w|] == ([c] + p + w)[..|w|];
    assert !OccursAt([c] + p + w, w, 0);
  }

  /** The first occurrence is replaced, and there is no other behind it. */
  lemma {:induction false} ReplaceFirst(p: string, w: string, q: string)
    requires w != "" && NoneFrom(p, w, w) && !Contains(q, w)
    ensures ReplaceAll(p + w + q, w, MARKER) == p + MARKER + q
  {
    if p == "" {
      var s := p + w + q;
      assert s[..|w|] == w && s[|w|..] == q;
      ReplaceAllAbsent(q, w, MARKER);
    } else {
      var c, rest := p[0], p[1..];
      assert p == [c] + rest && p + w + q == [c] + (rest + w + q);
      NoneFromNext(c, rest, w, q);
      ReplaceSkips(c, rest + w + q, w);
      ReplaceFirst(rest, w, q);
      assert [c] + (rest + MARKER + q) == p + MARKER + q;
    }
  }

  lemma ReplaceOnly(p: string, w: string, q: string)
    requires w != ""
    requires forall i | OccursAt(p + w + q, w, i) :: i == |p|
    ensures ReplaceAll(p + w + q, w, MARKER) == p + MARKER + q
  {
    forall i | 0 <= i < |p|
      ensures !OccursAt(p + w, w, i)
    {
      if OccursAt(p + w, w, i) {
        OccursBefore(p + w, q, w, i);
      }
    }
    if Contains(q, w) {
      var i :| 0 <= i && OccursAt(q, w, i);
      OccursBehind(p + w, q, w, i);
    }
    ReplaceFirst(p, w, q);
  }
}
