/**
 * Container-safe user names, pass by pass. The input is a sequence of code points; what the Unicode tables say
 * about them is a parameter, `Tables`.
 */
module Usernames {
  import opened Strings

  const MAX_LEN := 32

  datatype Tables = Tables(
    nfkc: string -> string, nfd: string -> string, nonspacing: char -> bool, space: char -> bool, lower: char -> char)

  predicate NameChar(c: char) {
    Alnum(c) || c == '.' || c == '-' || c == '_'
  }

  const EDGES := {'-', '.'}

  predicate NameText(s: string) {
    forall i | 0 <= i < |s| :: NameChar(s[i])
  }

  /** The tables do nothing to text made of name characters. */
  ghost predicate LeavesNamesAlone(t: Tables) {
    && (forall s :: NameText(s) ==> t.nfkc(s) == s && t.nfd(s) == s)
    && (forall c :: NameChar(c) ==> !t.nonspacing(c) && !t.space(c) && t.lower(c) == c)
  }

  // ---- The passes ----

  function SeparatorToDash(t: Tables): char -> char {
    c => if c == '\\' || c == '/' || t.space(c) then '-' else c
  }

  function StripCombining(s: string, t: Tables): string {
    Keep(t.nfd(s), c => !t.nonspacing(c))
  }

  /** Runs of dashes shrunk to one. */
  function Collapse(s: string): string {
    if s == "" then ""
    else
      var r, c := Collapse(s[..|s| - 1]), s[|s| - 1];
      if c == '-' && r != "" && r[|r| - 1] == '-' then r else r + [c]
  }

  function TrimLeft(s: string, cut: set<char>): (r: string)
    ensures |r| <= |s| && r == s[|s| - |r|..]
    ensures r == "" || r[0] !in cut
    ensures forall i | 0 <= i < |s| - |r| :: s[i] in cut
  {
    if s != "" && s[0] in cut then TrimLeft(s[1..], cut) else s
  }

  function Truncate(s: string): (r: string)
    ensures r <= s && |r| <= MAX_LEN
  {
    if |s| > MAX_LEN then TrimRight(s[..MAX_LEN], EDGES) else s
  }

  function Prefix(s: string): string {
    if s == "" || !IsLower(s[0]) then Truncate("u-" + s) else s
  }

  /** Passes one to five: what is left of the input, character by character. */
  function Cleaned(name: string, t: Tables): string {
    Keep(Map(Map(StripCombining(t.nfkc(name), t), SeparatorToDash(t)), t.lower), NameChar)
  }

  /** The text between cleaning and the length limit. */
  function Body(cleaned: string): string {
    TrimRight(TrimLeft(Collapse(cleaned), EDGES), EDGES)
  }

  /** Passes six to eight: from there to a name. */
  function Shaped(s: string): string {
    var r := Prefix(Truncate(Body(s)));
    if r == "" || r == "u-" then "locorum" else r
  }

  function Sanitised(name: string, t: Tables): string {
    Shaped(Cleaned(name, t))
  }

  // ---- The program ----

  method CollapseDashes(s: string) returns (r: string)
    ensures r == Collapse(s)
  {
    if !Contains(s, "--") {
      NoDashesNoDouble(s);
      AlreadyCollapsed(s);
      return s;
    }
    r := "";
    var prevDash := false;
    for i := 0 to |s|
      invariant r == Collapse(s[..i])
      invariant prevDash == (r != "" && r[|r| - 1] == '-')
    {
      var c := s[i];
      assert s[..i + 1][..i] == s[..i];
      if c == '-' {
        if prevDash {
          continue;
        }
        prevDash := true;
        r := r + "-";
        continue;
      }
      prevDash := false;
      r := r + [c];
    }
    assert s[..|s|] == s;
  }

  method DropCombining(s: string, t: Tables) returns (bld: string)
    ensures bld == StripCombining(s, t)
  {
    var dec := t.nfd(s);
    var ok := c => !t.nonspacing(c);
    bld := "";
    for i := 0 to |dec|
      invariant bld == Keep(dec[..i], ok)
    {
      assert dec[..i + 1][..i] == dec[..i];
      if t.nonspacing(dec[i]) {
        continue;
      }
      bld := bld + [dec[i]];
    }
    assert dec[..|dec|] == dec;
  }

  method DashSeparators(s: string, t: Tables) returns (bld: string)
    ensures bld == Map(s, SeparatorToDash(t))
  {
    bld := "";
    for i := 0 to |s|
      invariant bld == Map(s[..i], SeparatorToDash(t))
    {
      assert s[..i + 1][..i] == s[..i];
      if s[i] == '\\' || s[i] == '/' {
        bld := bld + "-";
      } else if t.space(s[i]) {
        bld := bld + "-";
      } else {
        bld := bld + [s[i]];
      }
    }
    assert s[..|s|] == s;
  }

  method DropOutside(s: string) returns (bld: string)
    ensures bld == Keep(s, NameChar)
  {
    bld := "";
    for i := 0 to |s|
      invariant bld == Keep(s[..i], NameChar)
    {
      assert s[..i + 1][..i] == s[..i];
      if IsLower(s[i]) {
        bld := bld + [s[i]];
      } else if IsDigit(s[i]) {
        bld := bld + [s[i]];
      } else if s[i] == '.' || s[i] == '-' || s[i] == '_' {
        bld := bld + [s[i]];
      }
    }
    assert s[..|s|] == s;
  }

  method SanitiseUsername(name: string, t: Tables) returns (s: string)
    ensures s == Sanitised(name, t)
  {
    s := t.nfkc(name);
    s := DropCombining(s, t);
    s := DashSeparators(s, t);
    s := Map(s, t.lower);
    s := DropOutside(s);
    ghost var cleaned := s;
    assert cleaned == Cleaned(name, t);
    s := CollapseDashes(s);
    s := TrimRight(TrimLeft(s, EDGES), EDGES);
    s := FitToShape(s);
  }

  /** Passes seven and eight. */
  method FitToShape(body: string) returns (s: string)
    ensures s == var r := Prefix(Truncate(body)); if r == "" || r == "u-" then "locorum" else r
  {
    s := body;
    if |s| > MAX_LEN {
      s := TrimRight(s[..MAX_LEN], EDGES);
    }
    if s == "" || !IsLower(s[0]) {
      s := "u-" + s;
      if |s| > MAX_LEN {
        s := TrimRight(s[..MAX_LEN], EDGES);
      }
    }
    if s == "" || s == "u-" {
      return "locorum";
    }
  }

  // ---- What comes out ----

  /** The promised shape. */
  ghost predicate ValidName(s: string) {
    && 1 <= |s| <= MAX_LEN
    && IsLower(s[0]) && NameText(s)
    && NoDoubleDash(s) && s[|s| - 1] !in EDGES
  }

  lemma {:induction false} CollapseShape(s: string)
    ensures NoDoubleDash(Collapse(s))
    ensures NameText(s) ==> NameText(Collapse(s))
  {
    if s != "" {
      var front, c := s[..|s| - 1], s[|s| - 1];
      CollapseShape(front);
      assert s == front + [c];
      CollapseExtendShape(Collapse(front), c);
    }
  }

  lemma CollapseExtendShape(r: string, c: char)
    requires NoDoubleDash(r)
    ensures c != '-' || r == "" || r[|r| - 1] != '-' ==> NoDoubleDash(r + [c])
  {
  }

  lemma NoDashesNoDouble(s: string)
    requires !Contains(s, "--")
    ensures NoDoubleDash(s)
  {
    forall i, j | 0 <= i < j < |s| && j == i + 1
      ensures !(s[i] == '-' && s[j] == '-')
    {
      if s[i] == '-' && s[j] == '-' {
        assert s[i..i + 2] == "--";
        assert OccursAt(s, "--", i);
      }
    }
  }

  lemma NoDoubleFront(s: string, c: char)
    requires NoDoubleDash(s + [c])
    ensures NoDoubleDash(s)
    ensures c == '-' ==> s == "" || s[|s| - 1] != '-'
  {
    var t := s + [c];
    assert forall i | 0 <= i < |s| :: t[i] == s[i];
    assert s != "" ==> !(t[|s| - 1] == '-' && t[|s|] == '-');
  }

  lemma {:induction false} AlreadyCollapsed(s: string)
    requires NoDoubleDash(s)
    ensures Collapse(s) == s
  {
    if s != "" {
      var front, c := s[..|s| - 1], s[|s| - 1];
      assert s == front + [c];
      NoDoubleFront(front, c);
      AlreadyCollapsed(front);
    }
  }

  /** Clean, and not starting or ending in an edge character. */
  ghost predicate Trimmed(s: string) {
    && NameText(s) && NoDoubleDash(s)
    && (s == "" || (s[0] !in EDGES && s[|s| - 1] !in EDGES))
  }

  lemma SliceIsClean(s: string, i: nat, j: nat)
    requires NameText(s) && NoDoubleDash(s) && i <= j <= |s|
    ensures NameText(s[i..j]) && NoDoubleDash(s[i..j])
  {
  }

  lemma TrimmedByTrimming(s: string)
    requires NameText(s) && NoDoubleDash(s)
    ensures Trimmed(TrimRight(TrimLeft(s, EDGES), EDGES))
  {
    var l := TrimLeft(s, EDGES);
    SliceIsClean(s, |s| - |l|, |s|);
    TrimRightOfTrimmed(l);
  }

  lemma TrimRightOfTrimmed(l: string)
    requires NameText(l) && NoDoubleDash(l) && (l == "" || l[0] !in EDGES)
    ensures Trimmed(TrimRight(l, EDGES))
  {
    var b := TrimRight(l, EDGES);
    assert b == l[0..|b|];
    SliceIsClean(l, 0, |b|);
  }

  /** Cutting a trimmed text short keeps it so. */
  lemma TruncateKeepsShape(s: string)
    requires Trimmed(s)
    ensures Trimmed(Truncate(s)) && |Truncate(s)| <= MAX_LEN
    ensures s != "" ==> Truncate(s) != "" && Truncate(s)[0] == s[0]
  {
    var r := Truncate(s);
    assert forall i | 0 <= i < |r| :: r[i] == s[i];
    if |s| > MAX_LEN {
      assert s[..MAX_LEN][0] !in EDGES;
    }
  }

  lemma PrefixedIsTrimmed(r: string)
    requires Trimmed(r) && r != ""
    ensures Trimmed("u-" + r)
  {
    var u := "u-" + r;
    assert forall i | 2 <= i < |u| :: u[i] == r[i - 2];
    assert u[2] == r[0] && u[|u| - 1] == r[|r| - 1];
  }

  lemma PrefixMakesValid(r: string)
    requires Trimmed(r) && |r| <= MAX_LEN
    ensures r == "" ==> Prefix(r) == "u-"
    ensures r != "" ==> ValidName(Prefix(r))
  {
    if r == "" {
      assert "u-" + r == "u-";
    } else if !IsLower(r[0]) {
      PrefixedIsTrimmed(r);
      TruncateKeepsShape("u-" + r);
      assert ("u-" + r)[0] == 'u';
    }
  }

  lemma FallbackIsValid()
    ensures ValidName("locorum") && !ValidName("u-")
  {
  }

  lemma ShapedIsValid(s: string)
    requires NameText(s)
    ensures ValidName(Shaped(s))
  {
    CollapseShape(s);
    TrimmedByTrimming(Collapse(s));
    TruncateKeepsShape(Body(s));
    PrefixMakesValid(Truncate(Body(s)));
    FallbackIsValid();
  }

  lemma ValidNameIsShaped(s: string)
    requires ValidName(s)
    ensures Shaped(s) == s
  {
    AlreadyCollapsed(s);
    assert s[0] !in EDGES;
  }

  /** Whatever the input and whatever the tables say, the output has the promised shape. */
  lemma SanitisedIsValid(name: string, t: Tables)
    ensures ValidName(Sanitised(name, t))
  {
    ShapedIsValid(Cleaned(name, t));
  }

  /** The names left unchanged are exactly those of the promised shape; so sanitising twice is sanitising once. */
  lemma FixedPointsAreTheValidNames(s: string, t: Tables)
    requires LeavesNamesAlone(t)
    ensures Sanitised(s, t) == s <==> ValidName(s)
    ensures Sanitised(Sanitised(s, t), t) == Sanitised(s, t)
  {
    SanitisedIsValid(s, t);
    ValidNameIsFixed(Sanitised(s, t), t);
    if ValidName(s) {
      ValidNameIsFixed(s, t);
    }
  }

  lemma NamesAreClean(s: string, t: Tables)
    requires LeavesNamesAlone(t) && NameText(s)
    ensures Cleaned(s, t) == s
  {
    assert t.nfkc(s) == s && t.nfd(s) == s;
    assert StripCombining(s, t) == s;
    assert Map(s, SeparatorToDash(t)) == s;
    assert Map(s, t.lower) == s;
  }

  lemma ValidNameIsFixed(s: string, t: Tables)
    requires LeavesNamesAlone(t) && ValidName(s)
    ensures Sanitised(s, t) == s
  {
    NamesAreClean(s, t);
    ValidNameIsShaped(s);
  }

  // ---- What is kept ----

  /** The per-character verdict: a separator becomes a dash, a name character stays in lower case, the rest goes. */
  function Verdict(c: char, t: Tables): string {
    if c == '\\' || c == '/' || t.space(c) then "-"
    else if NameChar(t.lower(c)) then [t.lower(c)]
    else ""
  }

  function Verdicts(s: string, t: Tables): string {
    if s == "" then "" else Verdicts(s[..|s| - 1], t) + Verdict(s[|s| - 1], t)
  }

  /** Three passes over the text come to one verdict per character. */
  lemma {:induction false} ThreePassesAreOne(s: string, t: Tables)
    requires t.lower('-') == '-'
    ensures Keep(Map(Map(s, SeparatorToDash(t)), t.lower), NameChar) == Verdicts(s, t)
  {
    if s != "" {
      var front := s[..|s| - 1];
      var dashed := Map(s, SeparatorToDash(t));
      assert dashed[..|dashed| - 1] == Map(front, SeparatorToDash(t));
      var lowered := Map(dashed, t.lower);
      assert lowered[..|lowered| - 1] == Map(dashed[..|dashed| - 1], t.lower);
      ThreePassesAreOne(front, t);
    }
  }

  lemma {:induction false} KeepConcat(a: string, b: string, ok: char -> bool)
    ensures Keep(a + b, ok) == Keep(a, ok) + Keep(b, ok)
  {
    if b == "" {
      assert a + b == a;
    } else {
      var front := b[..|b| - 1];
      assert (a + b)[..|a + b| - 1] == a + front;
      KeepConcat(a, front, ok);
    }
  }

  lemma {:induction false} NothingKept(s: string, ok: char -> bool)
    requires forall i | 0 <= i < |s| :: !ok(s[i])
    ensures Keep(s, ok) == ""
  {
    if s != "" {
      NothingKept(s[..|s| - 1], ok);
    }
  }

  lemma KeepSnoc(s: string, c: char, ok: char -> bool)
    ensures Keep(s + [c], ok) == Keep(s, ok) + if ok(c) then [c] else ""
  {
    assert (s + [c])[..|s|] == s;
  }

  lemma CollapseSnoc(s: string, c: char)
    requires Keep(Collapse(s), Alnum) == Keep(s, Alnum)
    ensures Keep(Collapse(s + [c]), Alnum) == Keep(s + [c], Alnum)
  {
    assert (s + [c])[..|s|] == s;
    KeepSnoc(Collapse(s), c, Alnum);
    KeepSnoc(s, c, Alnum);
  }

  lemma {:induction false} CollapseKeepsLetters(s: string)
    ensures Keep(Collapse(s), Alnum) == Keep(s, Alnum)
  {
    if s != "" {
      CollapseKeepsLetters(s[..|s| - 1]);
      CollapseSnoc(s[..|s| - 1], s[|s| - 1]);
      assert s[..|s| - 1] + [s[|s| - 1]] == s;
    }
  }

  lemma TrimRightKeepsLetters(s: string)
    ensures Keep(TrimRight(s, EDGES), Alnum) == Keep(s, Alnum)
  {
    var r := TrimRight(s, EDGES);
    var cut := s[|r|..];
    assert s == r + cut;
    NothingKept(cut, Alnum);
    KeepConcat(r, cut, Alnum);
  }

  lemma FirstEdge(c: char, rest: string)
    requires c in EDGES
    ensures Keep([c] + rest, Alnum) == Keep(rest, Alnum)
  {
    KeepConcat([c], rest, Alnum);
    NothingKept([c], Alnum);
  }

  lemma {:induction false} TrimLeftKeepsLetters(s: string)
    ensures Keep(TrimLeft(s, EDGES), Alnum) == Keep(s, Alnum)
  {
    if s != "" && s[0] in EDGES {
      assert s == [s[0]] + s[1..];
      FirstEdge(s[0], s[1..]);
      TrimLeftKeepsLetters(s[1..]);
    }
  }

  lemma BodyKeepsLetters(cleaned: string)
    ensures Keep(Body(cleaned), Alnum) == Keep(cleaned, Alnum)
  {
    CollapseKeepsLetters(cleaned);
    TrimLeftKeepsLetters(Collapse(cleaned));
    TrimRightKeepsLetters(TrimLeft(Collapse(cleaned), EDGES));
  }

  lemma ShapedBody(cleaned: string)
    requires var body := Body(cleaned); body != "" && IsLower(body[0]) && |body| <= MAX_LEN
    ensures Shaped(cleaned) == Body(cleaned)
  {
    var body := Body(cleaned);
    assert Truncate(body) == body && Prefix(body) == body;
    assert body != "u-" by {
      assert body[|body| - 1] !in EDGES;
      assert "u-"[1] in EDGES;
    }
  }

  /**
   * No letter or digit is lost, added or moved before the length limit bites: if the cleaned text fits and starts
   * with a letter, the letters and digits of the name are those of the normalised input, in lower case, in order.
   */
  lemma LettersSurvive(name: string, t: Tables)
    requires t.lower('-') == '-'
    ensures var verdicts := Verdicts(StripCombining(t.nfkc(name), t), t);
            var body := Body(verdicts);
            body != "" && IsLower(body[0]) && |body| <= MAX_LEN ==>
              Sanitised(name, t) == body && Keep(body, Alnum) == Keep(verdicts, Alnum)
  {
    var s := StripCombining(t.nfkc(name), t);
    ThreePassesAreOne(s, t);
    var verdicts := Verdicts(s, t);
    assert Cleaned(name, t) == verdicts;
    BodyKeepsLetters(verdicts);
    var body := Body(verdicts);
    if body != "" && IsLower(body[0]) && |body| <= MAX_LEN {
      ShapedBody(verdicts);
    }
  }

  // ---- The name, exactly ----

  /** What becomes of a character of the decomposed input: combining marks go, the rest gets its verdict. */
  function Letter(c: char, t: Tables): string {
    if t.nonspacing(c) then "" else Verdict(c, t)
  }

  function Letters(s: string, t: Tables): string {
    if s == "" then "" else Letters(s[..|s| - 1], t) + Letter(s[|s| - 1], t)
  }

  lemma VerdictsSnoc(s: string, c: char, t: Tables)
    ensures Verdicts(s + [c], t) == Verdicts(s, t) + Verdict(c, t)
  {
    assert (s + [c])[..|s|] == s;
  }

  lemma {:induction false} MarksHaveNoVerdict(s: string, t: Tables)
    ensures Verdicts(Keep(s, c => !t.nonspacing(c)), t) == Letters(s, t)
  {
    var ok := c => !t.nonspacing(c);
    if s != "" {
      var front, c := s[..|s| - 1], s[|s| - 1];
      MarksHaveNoVerdict(front, t);
      assert s == front + [c];
      KeepSnoc(front, c, ok);
      if ok(c) {
        VerdictsSnoc(Keep(front, ok), c, t);
      } else {
        assert Keep(front, ok) + "" == Keep(front, ok);
      }
    }
  }

  /** All the passes up to the length limit read one character of the decomposed input after the other. */
  lemma CleanedIsLetters(name: string, t: Tables)
    requires t.lower('-') == '-'
    ensures Cleaned(name, t) == Letters(t.nfd(t.nfkc(name)), t)
  {
    var s := t.nfkc(name);
    ThreePassesAreOne(StripCombining(s, t), t);
    MarksHaveNoVerdict(t.nfd(s), t);
  }

  lemma CollapseStep(s: string, c: char)
    ensures var r := Collapse(s);
            Collapse(s + [c]) == if c == '-' && r != "" && r[|r| - 1] == '-' then r else r + [c]
  {
    assert (s + [c])[..|s|] == s;
  }

  lemma Regroup(a: string, b: string, c: string)
    ensures a + (b + c) == a + b + c
  {
  }

  /** A second dash in a row changes nothing. */
  lemma {:induction false} CollapseShrinks(a: string, b: string)
    ensures Collapse(a + "--" + b) == Collapse(a + "-" + b)
  {
    if b == "" {
      CollapseStep(a, '-');
      CollapseStep(a + "-", '-');
      assert a + "--" + b == a + "-" + "-" && a + "-" + b == a + "-";
    } else {
      var front, c := b[..|b| - 1], b[|b| - 1];
      CollapseShrinks(a, front);
      assert b == front + [c];
      Regroup(a + "--", front, [c]);
      Regroup(a + "-", front, [c]);
      CollapseStep(a + "--" + front, c);
      CollapseStep(a + "-" + front, c);
    }
  }

  /** Without a second dash in a row nothing changes, and only then. */
  lemma CollapsedExactly(s: string)
    ensures Collapse(s) == s <==> NoDoubleDash(s)
  {
    CollapseShape(s);
    if NoDoubleDash(s) {
      AlreadyCollapsed(s);
    }
  }

  /** The most of `s` that fits a name and ends in no edge character. */
  ghost predicate IsCut(r: string, s: string) {
    && r <= s && |r| <= 32 && (r == "" || r[|r| - 1] !in EDGES)
    && forall i | |r| <= i < |s| && i < 32 :: s[i] in EDGES
  }

  /** `b` is `s` without the edge characters on its two sides. */
  ghost predicate IsTrimOf(b: string, s: string) {
    exists i :: TrimAt(b, s, i)
  }

  ghost predicate TrimAt(b: string, s: string, i: int) {
    && 0 <= i && i + |b| <= |s| && s[i..i + |b|] == b
    && OnlyEdges(s[..i]) && OnlyEdges(s[i + |b|..])
    && (b == "" || (b[0] !in EDGES && b[|b| - 1] !in EDGES))
  }

  predicate OnlyEdges(s: string) {
    forall i | 0 <= i < |s| :: s[i] in EDGES
  }

  lemma Slices(s: string, i: nat, n: nat)
    requires i + n <= |s|
    ensures s[i..][..n] == s[i..i + n] && s[i..][n..] == s[i + n..]
  {
  }

  lemma TrimmedSides(s: string, l: string, b: string)
    requires |l| <= |s| && l == s[|s| - |l|..] && b <= l
    requires OnlyEdges(s[..|s| - |l|]) && OnlyEdges(l[|b|..])
    requires b == "" || (b[0] !in EDGES && b[|b| - 1] !in EDGES)
    ensures IsTrimOf(b, s)
  {
    Slices(s, |s| - |l|, |b|);
    assert TrimAt(b, s, |s| - |l|);
  }

  lemma LeftSide(s: string)
    ensures var l := TrimLeft(s, EDGES); |l| <= |s| && OnlyEdges(s[..|s| - |l|])
  {
  }

  lemma RightSide(l: string)
    ensures var b := TrimRight(l, EDGES); b <= l && OnlyEdges(l[|b|..])
  {
    var b := TrimRight(l, EDGES);
    assert forall i | 0 <= i < |l[|b|..]| :: l[|b|..][i] == l[|b| + i];
  }

  lemma TrimHasNoEdges(s: string)
    ensures var b := TrimRight(TrimLeft(s, EDGES), EDGES); b != "" ==> b[0] !in EDGES && b[|b| - 1] !in EDGES
  {
    var l := TrimLeft(s, EDGES);
    var b := TrimRight(l, EDGES);
    assert b != "" ==> b[0] == l[0];
  }

  lemma TrimIsTrim(s: string)
    ensures IsTrimOf(TrimRight(TrimLeft(s, EDGES), EDGES), s)
  {
    var l := TrimLeft(s, EDGES);
    LeftSide(s);
    RightSide(l);
    TrimHasNoEdges(s);
    TrimmedSides(s, l, TrimRight(l, EDGES));
  }

  lemma BodyIsTrim(cleaned: string)
    ensures IsTrimOf(Body(cleaned), Collapse(cleaned))
  {
    TrimIsTrim(Collapse(cleaned));
  }

  lemma TruncateIsCut(s: string)
    requires s != "" ==> s[|s| - 1] !in EDGES
    ensures IsCut(Truncate(s), s)
  {
    if |s| > MAX_LEN {
      var cut := s[..MAX_LEN];
      var r := Truncate(s);
      assert forall i | |r| <= i < |cut| :: s[i] == cut[i];
    }
  }

  /** There is one such name. */
  lemma OneCut(r: string, q: string, s: string)
    requires IsCut(r, s) && IsCut(q, s)
    ensures r == q
  {
    assert q != "" ==> q[|q| - 1] == s[|q| - 1];
    assert r != "" ==> r[|r| - 1] == s[|r| - 1];
  }

  ghost predicate IsNameFor(name: string, b: string) {
    if b == "" then name == "locorum" else IsCut(name, if IsLower(b[0]) then b else "u-" + b)
  }

  /** Cutting before the prefix is put on and again after it is cutting once. */
  lemma CutBehindPrefix(b: string, r: string, q: string)
    requires b != "" && b[|b| - 1] !in EDGES
    requires IsCut(r, b) && IsCut(q, "u-" + r) && r != ""
    ensures IsCut(q, "u-" + b)
  {
    var s, u := "u-" + b, "u-" + r;
    assert forall i | 0 <= i < |u| :: u[i] == s[i];
    assert q <= s;
    forall i | |q| <= i < |s| && i < 32
      ensures s[i] in EDGES
    {
      if i < |u| {
        assert u[i] in EDGES;
      } else {
        assert s[i] == b[i - 2];
      }
    }
  }

  /**
   * The name is what the letters, trimmed and with single dashes, leave of themselves within the length limit, with a
   * prefix if they do not start with a letter, or a fallback if nothing is left.
   */
  lemma SanitisedExactly(name: string, t: Tables)
    requires t.lower('-') == '-'
    ensures exists b ::
      IsTrimOf(b, Collapse(Letters(t.nfd(t.nfkc(name)), t))) && IsNameFor(Sanitised(name, t), b)
  {
    CleanedIsLetters(name, t);
    var cleaned := Cleaned(name, t);
    var b := Body(cleaned);
    BodyIsTrim(cleaned);
    ShapedExactly(cleaned);
  }

  lemma LetterFirst(b: string)
    requires b != "" && b[0] !in EDGES && b[|b| - 1] !in EDGES && IsLower(b[0])
    ensures IsNameFor(Prefix(Truncate(b)), b) && Prefix(Truncate(b)) !in {"", "u-"}
  {
    TruncateIsCut(b);
    var r := Truncate(b);
    assert r != "" && r[0] == b[0];
    assert Prefix(r) == r;
  }

  lemma OtherFirst(b: string)
    requires b != "" && b[0] !in EDGES && b[|b| - 1] !in EDGES && !IsLower(b[0])
    ensures IsNameFor(Prefix(Truncate(b)), b) && Prefix(Truncate(b)) !in {"", "u-"}
  {
    TruncateIsCut(b);
    var r := Truncate(b);
    var u := "u-" + r;
    assert r != "" && r[0] == b[0];
    assert u[|u| - 1] == r[|r| - 1] && u[2] == r[0];
    TruncateIsCut(u);
    CutBehindPrefix(b, r, Truncate(u));
    assert Truncate(u) !in {"", "u-"};
  }

  lemma ShapeOf(b: string)
    requires b != "" ==> b[0] !in EDGES && b[|b| - 1] !in EDGES
    ensures var r := Prefix(Truncate(b)); IsNameFor(if r == "" || r == "u-" then "locorum" else r, b)
  {
    if b == "" {
      assert Truncate("") == "" && "u-" + "" == "u-";
    } else if IsLower(b[0]) {
      LetterFirst(b);
    } else {
      OtherFirst(b);
    }
  }

  lemma ShapedExactly(cleaned: string)
    ensures IsNameFor(Shaped(cleaned), Body(cleaned))
  {
    TrimHasNoEdges(Collapse(cleaned));
    ShapeOf(Body(cleaned));
  }
}
