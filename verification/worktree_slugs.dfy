/**
 * Slugs for worktree sites: a branch sanitised to a DNS-label fragment, glued between its parent's slug and the
 * first six characters of a hash. A branch is a sequence of code points; `digest` is SHA-256 in hex.
 */
module WorktreeSlugs {
  import opened Strings

  const BRANCH_MAX := 18
  const HASH_LEN := 6
  const DNS_LABEL_MAX := 63

  // ---- What a sanitised branch means ----

  predicate Usable(c: char) {
    Alnum(c) || IsUpper(c)
  }

  function Lower(c: char): char {
    if IsUpper(c) then (c as int - 'A' as int + 'a' as int) as char else c
  }

  predicate EndsInWord(s: string) {
    s != "" && Usable(s[|s| - 1])
  }

  /** Words in the order they were read; the last one is the one still growing. */
  datatype WordList = NoWords | Then(front: WordList, last: string)

  /** The maximal runs of ASCII letters and digits, in lower case. */
  function Words(s: string): WordList
    ensures EndsInWord(s) ==> Words(s).Then?
  {
    if s == "" then NoWords
    else
      var front, c := s[..|s| - 1], s[|s| - 1];
      var words := Words(front);
      if !Usable(c) then words
      else if EndsInWord(front) then Then(words.front, words.last + [Lower(c)])
      else Then(words, [Lower(c)])
  }

  function Join(words: WordList): string {
    match words
    case NoWords => ""
    case Then(NoWords, w) => w
    case Then(front, w) => Join(front) + "-" + w
  }

  /** Non-empty runs of lower-case letters and digits. */
  predicate AreWords(words: WordList) {
    words.Then? ==> words.last != "" && All(words.last, Alnum) && AreWords(words.front)
  }

  /** Lower-case letters and digits in words with single dashes between them; possibly no word at all. */
  ghost predicate Dashed(s: string) {
    && (forall i | 0 <= i < |s| :: Alnum(s[i]) || s[i] == '-')
    && NoDoubleDash(s)
    && (s == "" || (s[0] != '-' && s[|s| - 1] != '-'))
  }

  /** A slug proper: RFC 1035, section 2.3.1, save that a label may start with a digit. */
  ghost predicate Slug(s: string) {
    s != "" && Dashed(s)
  }

  // ---- The programs ----

  method SanitiseBranch(branch: string) returns (r: string)
    ensures r == Join(Words(branch))
  {
    var b := "";
    var prevDash := true;
    for i := 0 to |branch|
      invariant prevDash == !EndsInWord(branch[..i])
      invariant b == Join(Words(branch[..i])) + Pending(branch[..i])
    {
      var r, done := branch[i], branch[..i];
      assert branch[..i + 1] == done + [r];
      NextCharacter(done, r);
      if IsLower(r) {
        b := b + [r];
        prevDash := false;
      } else if IsDigit(r) {
        b := b + [r];
        prevDash := false;
      } else if IsUpper(r) {
        b := b + [Lower(r)];
        prevDash := false;
      } else if !prevDash {
        b := b + "-";
        prevDash := true;
      }
    }
    assert branch[..|branch|] == branch;
    WordsAreWords(branch);
    JoinIsDashed(Words(branch));
    TrimOne(Join(Words(branch)), Pending(branch));
    return TrimRight(b, {'-'});
  }

  function SlugOf(parent: string, branch: string, hash6: string): string {
    var cut := BranchPart(branch);
    var room := DNS_LABEL_MAX - |cut| - HASH_LEN - 2;
    var pruned := if |parent| > room >= 0 then TrimRight(parent[..room], {'-'}) else parent;
    pruned + "-" + cut + "-" + hash6
  }

  /** The digest the tag is cut from covers all three inputs, NUL-separated. */
  function Tag(parent: string, branch: string, path: string, digest: string -> string): string
    requires forall s :: |digest(s)| >= HASH_LEN
  {
    digest(parent + "\0" + branch + "\0" + path)[..HASH_LEN]
  }

  method SafeBranch(branch: string) returns (r: string)
    ensures r == BranchPart(branch)
  {
    BranchPartIsSlug(branch);
    r := SanitiseBranch(branch);
    if r == "" {
      r := "branch";
    }
    if |r| > BRANCH_MAX {
      r := r[..BRANCH_MAX];
      r := TrimRight(r, {'-'});
      if r == "" {
        assert false;
      }
    }
  }

  method WorktreeSlug(parent: string, branch: string, path: string, digest: string -> string) returns (r: string)
    requires Slug(parent)
    requires forall s :: |digest(s)| >= HASH_LEN && All(digest(s), Alnum)
    ensures r == SlugOf(parent, branch, Tag(parent, branch, path, digest))
    ensures Slug(r) && |r| <= DNS_LABEL_MAX
  {
    var hashHex := digest(parent + "\0" + branch + "\0" + path)[..HASH_LEN];
    SlugIsValid(parent, branch, hashHex);
    BranchPartIsSlug(branch);
    var safeBranch := SafeBranch(branch);
    var maxParent := DNS_LABEL_MAX - |safeBranch| - HASH_LEN - 2;
    if maxParent < 1 {
      assert false;
    }
    var pruned := parent;
    if |pruned| > maxParent {
      pruned := TrimRight(pruned[..maxParent], {'-'});
      if pruned == "" {
        assert false;
      }
    }
    return pruned + "-" + safeBranch + "-" + hashHex;
  }

  // ---- The loop ----

  /** The dash written after a finished word, in case another follows. */
  function Pending(s: string): string {
    if Words(s).Then? && !EndsInWord(s) then "-" else ""
  }

  lemma NextWords(s: string, c: char)
    ensures EndsInWord(s + [c]) == Usable(c)
    ensures Words(s + [c]) == if !Usable(c) then Words(s)
                              else if EndsInWord(s) then Then(Words(s).front, Words(s).last + [Lower(c)])
                              else Then(Words(s), [Lower(c)])
  {
    assert (s + [c])[..|s|] == s;
  }

  lemma JoinGrown(front: WordList, last: string, c: char)
    ensures Join(Then(front, last + [c])) == Join(Then(front, last)) + [c]
  {
    if front.Then? {
      assert Join(front) + "-" + (last + [c]) == Join(front) + "-" + last + [c];
    }
  }

  lemma NextCharacter(s: string, c: char)
    ensures var t := s + [c];
            && EndsInWord(t) == Usable(c)
            && Join(Words(t)) + Pending(t)
               == if Usable(c) then Join(Words(s)) + Pending(s) + [Lower(c)]
                  else if EndsInWord(s) then Join(Words(s)) + Pending(s) + "-"
                  else Join(Words(s)) + Pending(s)
  {
    NextWords(s, c);
    if EndsInWord(s) {
      JoinGrown(Words(s).front, Words(s).last, Lower(c));
    }
  }

  lemma {:induction false} WordsAreWords(s: string)
    ensures AreWords(Words(s))
  {
    if s != "" {
      WordsAreWords(s[..|s| - 1]);
    }
  }

  /** A word behind a dash behind dashed text is dashed text. */
  lemma GlueDashed(a: string, b: string)
    requires Slug(a) && Slug(b)
    ensures Slug(a + "-" + b)
  {
    var s := a + "-" + b;
    assert s[|s| - 1] == b[|b| - 1];
    forall i, j | 0 <= i < j < |s| && j == i + 1
      ensures !(s[i] == '-' && s[j] == '-')
    {
      if i < |a| - 1 {
        assert s[i] == a[i] && s[j] == a[j];
      } else if i == |a| - 1 {
        assert s[i] == a[|a| - 1];
      } else if i == |a| {
        assert s[j] == b[0];
      } else {
        assert s[i] == b[i - |a| - 1] && s[j] == b[j - |a| - 1];
      }
    }
  }

  lemma WordIsSlug(w: string)
    requires w != "" && All(w, Alnum)
    ensures Slug(w)
  {
  }

  lemma {:induction false} JoinIsDashed(words: WordList)
    requires AreWords(words)
    ensures words.Then? ==> Slug(Join(words))
    ensures Dashed(Join(words))
  {
    if words.Then? {
      WordIsSlug(words.last);
      if words.front.Then? {
        JoinIsDashed(words.front);
        GlueDashed(Join(words.front), words.last);
      }
    }
  }

  lemma TrimOne(s: string, pending: string)
    requires Dashed(s) && (pending == "" || pending == "-")
    ensures TrimRight(s + pending, {'-'}) == s
  {
    var t := s + pending;
    assert TrimRight(s, {'-'}) == s;
    if pending == "-" {
      assert t[..|t| - 1] == s;
    } else {
      assert t == s;
    }
  }

  // ---- Sanitising is idempotent ----

  lemma {:induction false} WordsOfWord(w: string)
    requires w != "" && All(w, Alnum)
    ensures Words(w) == Then(NoWords, w)
  {
    var front := w[..|w| - 1];
    assert w == front + [w[|w| - 1]];
    if front != "" {
      assert Alnum(w[|w| - 2]);
      WordsOfWord(front);
    }
  }

  /** A word behind a dash is a word of its own. */
  lemma {:induction false} WordsSplitAtDash(a: string, w: string)
    requires w != "" && All(w, Alnum)
    ensures Words(a + "-" + w) == Then(Words(a), w)
  {
    var s := a + "-" + w;
    var front := w[..|w| - 1];
    assert s[..|s| - 1] == a + "-" + front;
    assert w == front + [w[|w| - 1]];
    if front == "" {
      assert (a + "-")[..|a|] == a;
      assert a + "-" + front == a + "-";
    } else {
      assert Alnum(front[|front| - 1]);
      WordsSplitAtDash(a, front);
    }
  }

  /** Words joined with dashes are read back as the same words. */
  lemma {:induction false} WordsOfJoin(words: WordList)
    requires AreWords(words)
    ensures Words(Join(words)) == words
  {
    if words.Then? {
      if words.front.NoWords? {
        WordsOfWord(words.last);
      } else {
        WordsOfJoin(words.front);
        WordsSplitAtDash(Join(words.front), words.last);
      }
    }
  }

  /** Dashed text, a dash perhaps still pending at its end. */
  ghost predicate DashedSoFar(s: string) {
    && (forall i | 0 <= i < |s| :: Alnum(s[i]) || s[i] == '-')
    && NoDoubleDash(s)
    && (s == "" || s[0] != '-')
  }

  lemma DashedSoFarFront(s: string)
    requires DashedSoFar(s) && s != ""
    ensures DashedSoFar(s[..|s| - 1])
    ensures s[|s| - 1] == '-' ==> EndsInWord(s[..|s| - 1])
  {
    var front := s[..|s| - 1];
    assert s[|s| - 1] == '-' ==> |s| > 1 && s[|s| - 2] != '-';
    assert front != "" ==> front[|front| - 1] == s[|s| - 2];
  }

  /** Dashed text is words joined with dashes. */
  lemma {:induction false} JoinOfWords(s: string)
    requires DashedSoFar(s)
    ensures Join(Words(s)) + Pending(s) == s
  {
    if s != "" {
      var front, c := s[..|s| - 1], s[|s| - 1];
      DashedSoFarFront(s);
      JoinOfWords(front);
      assert s == front + [c];
      NextCharacter(front, c);
    }
  }

  /** What sanitising leaves alone is exactly the dashed texts, and its output is one. */
  lemma SanitisedBranchesAreFixed(branch: string)
    ensures Dashed(Join(Words(branch)))
    ensures Words(Join(Words(branch))) == Words(branch)
    ensures Join(Words(branch)) == branch <==> Dashed(branch)
  {
    WordsAreWords(branch);
    JoinIsDashed(Words(branch));
    WordsOfJoin(Words(branch));
    if Dashed(branch) {
      JoinOfWords(branch);
    }
  }

  // ---- What the words are ----

  function Append(a: WordList, b: WordList): WordList {
    match b
    case NoWords => a
    case Then(front, last) => Then(Append(a, front), last)
  }

  /** Any character that is no letter or digit separates words, whatever stands beside it. */
  lemma {:induction false} WordsAtSeparator(a: string, c: char, b: string)
    requires !Usable(c)
    ensures Words(a + [c] + b) == Append(Words(a), Words(b))
  {
    var s := a + [c] + b;
    if b == "" {
      assert s[..|s| - 1] == a;
    } else {
      var front := b[..|b| - 1];
      assert s[..|s| - 1] == a + [c] + front;
      WordsAtSeparator(a, c, front);
      assert EndsInWord(a + [c] + front) == EndsInWord(front);
    }
  }

  /** Letters and digits with nothing else between them are one word, in lower case. */
  lemma {:induction false} WordsOfRun(w: string)
    requires w != "" && All(w, Usable)
    ensures Words(w) == Then(NoWords, Map(w, Lower))
  {
    var front := w[..|w| - 1];
    if front != "" {
      assert Usable(w[|w| - 2]);
      WordsOfRun(front);
    } else {
      assert Map(front, Lower) == "";
    }
  }

  // ---- The slug ----

  /** Cutting a slug short and trimming the cut leaves a slug: neither fallback for an empty piece is reachable. */
  lemma PruneSlug(s: string, n: nat)
    requires Slug(s) && 1 <= n <= |s|
    ensures Slug(TrimRight(s[..n], {'-'}))
  {
    var r := TrimRight(s[..n], {'-'});
    assert s[..n][0] == s[0];
    assert r != "";
    assert forall i | 0 <= i < |r| :: r[i] == s[i];
  }

  /** The branch's part of a slug. */
  function BranchPart(branch: string): string {
    var words := Join(Words(branch));
    var safe := if words == "" then "branch" else words;
    if |safe| > BRANCH_MAX then TrimRight(safe[..BRANCH_MAX], {'-'}) else safe
  }

  lemma FallbackIsSlug()
    ensures Slug("branch")
  {
  }

  lemma BranchPartIsSlug(branch: string)
    ensures Slug(BranchPart(branch)) && |BranchPart(branch)| <= BRANCH_MAX
  {
    SanitisedBranchesAreFixed(branch);
    var words := Join(Words(branch));
    var safe := if words == "" then "branch" else words;
    FallbackIsSlug();
    if |safe| > BRANCH_MAX {
      PruneSlug(safe, BRANCH_MAX);
    }
  }

  lemma SlugIsValid(parent: string, branch: string, hash6: string)
    requires Slug(parent)
    requires |hash6| == HASH_LEN && All(hash6, Alnum)
    ensures Slug(SlugOf(parent, branch, hash6))
    ensures |SlugOf(parent, branch, hash6)| <= DNS_LABEL_MAX
  {
    BranchPartIsSlug(branch);
    var cut := BranchPart(branch);
    var room := DNS_LABEL_MAX - |cut| - HASH_LEN - 2;
    if |parent| > room {
      PruneSlug(parent, room);
    }
    var pruned := if |parent| > room then TrimRight(parent[..room], {'-'}) else parent;
    GlueDashed(pruned, cut);
    WordIsSlug(hash6);
    GlueDashed(pruned + "-" + cut, hash6);
  }

  /** There is at most one dash to take off. */
  lemma TrimOneDash(s: string)
    requires NoDoubleDash(s)
    ensures TrimRight(s, {'-'}) == if s != "" && s[|s| - 1] == '-' then s[..|s| - 1] else s
  {
    var r := TrimRight(s, {'-'});
    assert 2 <= |s| ==> !(s[|s| - 2] == '-' && s[|s| - 1] == '-');
  }

  lemma CutDash(s: string, n: nat)
    requires NoDoubleDash(s) && 1 <= n <= |s|
    ensures TrimRight(s[..n], {'-'}) == if s[n - 1] == '-' then s[..n - 1] else s[..n]
  {
    TrimOneDash(s[..n]);
    assert s[..n][..n - 1] == s[..n - 1];
  }

  /** "branch" if the branch has no words; else all of them if they fit, or what fits, without a dash at the end. */
  lemma BranchPartExactly(branch: string)
    ensures var words, r := Join(Words(branch)), BranchPart(branch);
            if words == "" then r == "branch"
            else if |words| <= 18 then r == words
            else r == if words[17] == '-' then words[..17] else words[..18]
  {
    SanitisedBranchesAreFixed(branch);
    var words := Join(Words(branch));
    if |words| > 18 {
      CutDash(words, 18);
    }
  }

  lemma InThree(a: string, b: string, c: string)
    ensures a + "-" + b + "-" + c == a + ("-" + b + "-" + c)
  {
  }

  /** A slug is as much of the parent's slug as there is room for, the branch's part and the tag. */
  lemma SlugKeepsTheParent(parent: string, branch: string, tag: string)
    requires Slug(parent) && |tag| == HASH_LEN
    ensures var r, end := SlugOf(parent, branch, tag), "-" + BranchPart(branch) + "-" + tag;
            if |parent| + |end| <= 63 then r == parent + end
            else exists n: nat :: n <= |parent| && r == parent[..n] + end && 62 <= |r| <= 63
  {
    BranchPartIsSlug(branch);
    var end := "-" + BranchPart(branch) + "-" + tag;
    if |parent| + |end| <= 63 {
      InThree(parent, BranchPart(branch), tag);
    } else {
      var room := 63 - |end|;
      var n := if parent[room - 1] == '-' then room - 1 else room;
      CutDash(parent, room);
      InThree(parent[..n], BranchPart(branch), tag);
    }
  }

  lemma FirstNul(a: string, b: string, s: string, t: string)
    requires '\0' !in a && '\0' !in b && a + "\0" + s == b + "\0" + t
    ensures a == b && s == t
  {
    var x, y := a + "\0" + s, b + "\0" + t;
    assert x[|a|] == '\0' && y[|b|] == '\0';
    assert forall i | 0 <= i < |a| :: x[i] == a[i];
    assert forall i | 0 <= i < |b| :: y[i] == b[i];
    assert |a| == |b|;
    assert a == x[..|a|] == y[..|b|] == b;
    assert s == x[|a| + 1..] == y[|b| + 1..] == t;
  }

  /** The tag depends on all three inputs: whichever of them differs, a digest can tell. */
  lemma TagsCanDifferExactly(p: string, b: string, path: string, p2: string, b2: string, path2: string)
    requires '\0' !in p && '\0' !in b && '\0' !in p2 && '\0' !in b2
    ensures (p == p2 && b == b2 && path == path2) <==>
      forall digest: string -> string :: (forall s :: |digest(s)| >= HASH_LEN) ==>
        Tag(p, b, path, digest) == Tag(p2, b2, path2, digest)
  {
    var s, t := p + "\0" + b + "\0" + path, p2 + "\0" + b2 + "\0" + path2;
    assert s == p + "\0" + (b + "\0" + path) && t == p2 + "\0" + (b2 + "\0" + path2);
    if s == t {
      FirstNul(p, p2, b + "\0" + path, b2 + "\0" + path2);
      FirstNul(b, b2, path, path2);
    } else {
      var digest: string -> string := x => if x == s then "aaaaaa" else "bbbbbb";
      assert Tag(p, b, path, digest)[0] == 'a' && Tag(p2, b2, path2, digest)[0] == 'b';
    }
  }

  /** Slugs end in their tag, so worktrees whose tags differ never share a slug. */
  lemma TagsTellSlugsApart(p: string, b: string, tag: string, p2: string, b2: string, tag2: string)
    requires |tag| == |tag2| == HASH_LEN && tag != tag2
    requires Slug(p) && Slug(p2) && All(tag, Alnum) && All(tag2, Alnum)
    ensures SlugOf(p, b, tag) != SlugOf(p2, b2, tag2)
  {
    var s, t := SlugOf(p, b, tag), SlugOf(p2, b2, tag2);
    assert s[|s| - HASH_LEN..] == tag;
    assert t[|t| - HASH_LEN..] == tag2;
  }
}
