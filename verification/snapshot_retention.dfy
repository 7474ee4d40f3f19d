/**
 * The retention sweep over the snapshots directory. A directory is the set of its plain files' names; `now` and
 * ages are in nanoseconds on the calendar of Timestamps.
 */
module SnapshotRetention {
  import opened Sorting
  import opened SnapshotNames
  import opened Timestamps
  import opened Wrappers

  /** Zero means no limit. */
  datatype Policy = Policy(maxPerSite: nat, maxAge: nat)

  /** A listed snapshot: its file, and what the file's name tells of it. */
  datatype Snap = Snap(name: string, slug: string, taken: int)

  predicate IsSnapshot(name: string) {
    Parse(name).Some?
  }

  function Read(name: string): (s: Snap)
    requires IsSnapshot(name)
    ensures s.name == name
  {
    var info := Parse(name).value;
    Snap(name, info.slug, if info.createdAt.Valid() then Elapsed(info.createdAt) else 0)
  }

  predicate NewerFirst(a: Snap, b: Snap) {
    a.taken >= b.taken
  }

  lemma NewerFirstIsPreorder()
    ensures Preorder(NewerFirst)
  {
  }

  predicate IsFile(s: Snap, files: set<string>) {
    s.name in files && IsSnapshot(s.name) && s == Read(s.name)
  }

  ghost predicate DistinctNames(all: seq<Snap>) {
    forall i, j | 0 <= i < j < |all| :: all[i].name != all[j].name
  }

  /** The snapshots of a directory, newest first; those of one second come in no particular order. */
  ghost predicate IsListing(all: seq<Snap>, files: set<string>) {
    && DistinctNames(all)
    && (forall s :: s in all <==> IsFile(s, files))
    && Sorted(all, NewerFirst)
  }

  /** One site's part of a listing. */
  function Group(all: seq<Snap>, slug: string): seq<Snap> {
    if all == [] then []
    else
      Group(all[..|all| - 1], slug) + if all[|all| - 1].slug == slug then [all[|all| - 1]] else []
  }

  predicate DropAt(group: seq<Snap>, i: nat, p: Policy, now: int)
    requires i < |group|
  {
    (p.maxPerSite > 0 && i >= p.maxPerSite) || (p.maxAge > 0 && now - group[i].taken > p.maxAge)
  }

  function DroppedIn(group: seq<Snap>, p: Policy, now: int): set<string> {
    set i | 0 <= i < |group| && DropAt(group, i, p, now) :: group[i].name
  }

  /** Everything a sweep of this listing wants gone. */
  function Dropped(all: seq<Snap>, p: Policy, now: int): set<string> {
    set s | s in all && s.name in DroppedIn(Group(all, s.slug), p, now) :: s.name
  }

  // ---- The programs ----

  class Store {
    var files: set<string>

    constructor (files: set<string>)
      ensures this.files == files
    {
      this.files := files;
    }

    /** An empty slug lists every site. */
    method ListSnapshots(slug: string) returns (out: seq<Snap>)
      ensures slug == "" ==> IsListing(out, files)
      ensures DistinctNames(out) && Sorted(out, NewerFirst)
      ensures forall s :: s in out <==> IsFile(s, files) && (slug == "" || s.slug == slug)
    {
      out := [];
      var entries := files;
      while entries != {}
        invariant entries <= files
        invariant DistinctNames(out)
        invariant forall s :: s in out <==> IsFile(s, files - entries) && (slug == "" || s.slug == slug)
        decreases |entries|
      {
        var name :| name in entries;
        ghost var seen := files - entries;
        entries := entries - {name};
        assert files - entries == seen + {name};
        if !IsSnapshot(name) {
          continue;
        }
        var info := Read(name);
        if slug != "" && info.slug != slug {
          continue;
        }
        out := out + [info];
      }
      assert files - {} == files;
      NewerFirstIsPreorder();
      SortSorts(out, NewerFirst);
      SortKeepsNames(out);
      out := Sort(out, NewerFirst);
    }

    /** One site's part of the sweep; deleting a file in `stuck` fails and the sweep goes on. */
    method SweepSite(group: seq<Snap>, p: Policy, now: int, stuck: set<string>) returns (removed: nat)
      requires DistinctNames(group)
      modifies this
      ensures files == old(files) - Gone(group, |group|, p, now, stuck)
      ensures removed == |Gone(group, |group|, p, now, stuck)|
    {
      removed := 0;
      ghost var gone: set<string> := {};
      for i := 0 to |group|
        invariant gone == Gone(group, i, p, now, stuck)
        invariant files == old(files) - gone && removed == |gone|
      {
        OneMoreGone(group, i, p, now, stuck);
        var drop := false;
        if p.maxPerSite > 0 && i >= p.maxPerSite {
          drop := true;
        }
        if !drop && p.maxAge > 0 && now - group[i].taken > p.maxAge {
          drop := true;
        }
        if !drop {
          continue;
        }
        if group[i].name in stuck {
          continue;
        }
        files := files - {group[i].name};
        gone := gone + {group[i].name};
        removed := removed + 1;
      }
    }

    method SweepSites(bySite: map<string, seq<Snap>>, p: Policy, now: int, stuck: set<string>, ghost all: seq<Snap>)
      returns (removed: nat)
      requires Grouped(bySite, all) && DistinctNames(all)
      modifies this
      ensures files == old(files) - (Dropped(all, p, now) - stuck)
      ensures removed == |Dropped(all, p, now) - stuck|
    {
      removed := 0;
      var todo := bySite.Keys;
      NothingSwept(all, p, now, stuck, files);
      while todo != {}
        invariant todo <= bySite.Keys
        invariant SweptBut(all, todo, p, now, stuck, old(files), files, removed)
        decreases |todo|
      {
        var slug :| slug in todo;
        ghost var before := files;
        var n := SweepSite(bySite[slug], p, now, stuck);
        SweptOneMore(all, todo, slug, p, now, stuck, old(files), before, removed, files, n);
        todo := todo - {slug};
        removed := removed + n;
      }
      EverySite(all, p, now, stuck);
    }

    /** A snapshot whose delete does not fail is still there exactly if it is within the limits. */
    method SweepSnapshots(p: Policy, now: int, stuck: set<string>) returns (removed: nat, ghost all: seq<Snap>)
      modifies this
      ensures IsListing(all, old(files))
      ensures files == old(files) - (Dropped(all, p, now) - stuck)
      ensures files <= old(files) && removed == |old(files) - files|
      ensures forall name | name in old(files) && (name in stuck || !IsSnapshot(name)) :: name in files
      ensures forall k | 0 <= k < |all| && all[k].name !in stuck ::
                all[k].name in files <==> WithinLimits(all, k, p, now)
    {
      var listing := ListSnapshots("");
      all := listing;
      if p.maxPerSite == 0 && p.maxAge == 0 {
        assert Dropped(all, p, now) == {};
        removed := 0;
      } else {
        var bySite := BySite(listing);
        GroupsAreDistinct(bySite, listing);
        removed := SweepSites(bySite, p, now, stuck, all);
      }
      DroppedAreFiles(all, old(files), p, now);
      assert old(files) - files == Dropped(all, p, now) - stuck;
      KeptExactlyWithinLimits(all, p, now);
    }
  }

  lemma DroppedAreFiles(all: seq<Snap>, files: set<string>, p: Policy, now: int)
    requires IsListing(all, files)
    ensures forall name | name in Dropped(all, p, now) :: name in files && IsSnapshot(name)
    ensures forall k | 0 <= k < |all| :: all[k].name in files
  {
    forall k | 0 <= k < |all|
      ensures all[k].name in files
    {
      assert all[k] in all;
    }
  }

  /** The grouped listing the sweep works on. */
  ghost predicate Grouped(bySite: map<string, seq<Snap>>, all: seq<Snap>) {
    && bySite.Keys == Sites(all)
    && forall slug | slug in bySite :: bySite[slug] == Group(all, slug) && DistinctNames(bySite[slug])
  }

  lemma GroupsAreDistinct(bySite: map<string, seq<Snap>>, all: seq<Snap>)
    requires DistinctNames(all) && Sorted(all, NewerFirst)
    requires bySite.Keys == Sites(all) && forall slug | slug in bySite :: bySite[slug] == Group(all, slug)
    ensures Grouped(bySite, all)
  {
    forall slug | slug in bySite
      ensures DistinctNames(bySite[slug])
    {
      GroupIsOrdered(all, slug);
    }
  }

  method BySite(listing: seq<Snap>) returns (bySite: map<string, seq<Snap>>)
    ensures bySite.Keys == Sites(listing)
    ensures forall slug | slug in bySite :: bySite[slug] == Group(listing, slug)
  {
    bySite := map[];
    for i := 0 to |listing|
      invariant bySite.Keys == Sites(listing[..i])
      invariant forall slug | slug in bySite :: bySite[slug] == Group(listing[..i], slug)
    {
      var slug := listing[i].slug;
      assert listing[..i + 1] == listing[..i] + [listing[i]];
      OneMoreSnap(listing[..i], listing[i]);
      bySite := bySite[slug := (if slug in bySite then bySite[slug] else []) + [listing[i]]];
    }
    assert listing[..|listing|] == listing;
  }

  /** What has gone after the first `n` snapshots of a group have been looked at. */
  function Gone(group: seq<Snap>, n: nat, p: Policy, now: int, stuck: set<string>): set<string>
    requires n <= |group|
  {
    if n == 0 then {}
    else
      Gone(group, n - 1, p, now, stuck)
        + if DropAt(group, n - 1, p, now) && group[n - 1].name !in stuck then {group[n - 1].name} else {}
  }

  lemma {:induction false} GoneMeaning(group: seq<Snap>, n: nat, p: Policy, now: int, stuck: set<string>, x: string)
    requires n <= |group|
    ensures x in Gone(group, n, p, now, stuck)
       <==> x !in stuck && exists i :: 0 <= i < n && group[i].name == x && DropAt(group, i, p, now)
  {
    if n > 0 {
      GoneMeaning(group, n - 1, p, now, stuck, x);
    }
  }

  lemma OneMoreGone(group: seq<Snap>, n: nat, p: Policy, now: int, stuck: set<string>)
    requires n < |group| && DistinctNames(group)
    ensures var before, after := Gone(group, n, p, now, stuck), Gone(group, n + 1, p, now, stuck);
            if DropAt(group, n, p, now) && group[n].name !in stuck
            then after == before + {group[n].name} && |after| == |before| + 1
            else after == before
  {
    GoneMeaning(group, n, p, now, stuck, group[n].name);
  }

  lemma GoneIsDropped(group: seq<Snap>, p: Policy, now: int, stuck: set<string>)
    ensures Gone(group, |group|, p, now, stuck) == DroppedIn(group, p, now) - stuck
  {
    forall x
      ensures x in Gone(group, |group|, p, now, stuck) <==> x in DroppedIn(group, p, now) - stuck
    {
      GoneMeaning(group, |group|, p, now, stuck, x);
    }
  }

  function Sites(all: seq<Snap>): set<string> {
    set i | 0 <= i < |all| :: all[i].slug
  }

  lemma OneMoreSnap(all: seq<Snap>, s: Snap)
    ensures Sites(all + [s]) == Sites(all) + {s.slug}
    ensures forall slug :: Group(all + [s], slug) == Group(all, slug) + if s.slug == slug then [s] else []
    ensures s.slug !in Sites(all) ==> Group(all, s.slug) == []
  {
    var longer := all + [s];
    assert longer[..|longer| - 1] == all;
    assert longer[|all|] == s && forall i | 0 <= i < |all| :: longer[i] == all[i];
    GroupMembers(all, s.slug);
    var g := Group(all, s.slug);
    assert g != [] ==> g[0] in g;
  }

  /** What has gone at the sites already swept. */
  function GoneOutside(all: seq<Snap>, todo: set<string>, p: Policy, now: int, stuck: set<string>): set<string> {
    set s | s in all && s.slug !in todo && s.name in Dropped(all, p, now) && s.name !in stuck :: s.name
  }

  /** The sweep has gone through all sites but these. */
  ghost predicate SweptBut(all: seq<Snap>, todo: set<string>, p: Policy, now: int, stuck: set<string>,
                           before: set<string>, files: set<string>, removed: nat)
  {
    var gone := GoneOutside(all, todo, p, now, stuck);
    files == before - gone && removed == |gone|
  }

  lemma NothingSwept(all: seq<Snap>, p: Policy, now: int, stuck: set<string>, files: set<string>)
    ensures SweptBut(all, Sites(all), p, now, stuck, files, files, 0)
  {
    assert GoneOutside(all, Sites(all), p, now, stuck) == {};
  }

  lemma SweptOneMore(all: seq<Snap>, todo: set<string>, slug: string, p: Policy, now: int, stuck: set<string>,
                     start: set<string>, before: set<string>, removed: nat, after: set<string>, n: nat)
    requires slug in todo && DistinctNames(all)
    requires SweptBut(all, todo, p, now, stuck, start, before, removed)
    requires var here := Gone(Group(all, slug), |Group(all, slug)|, p, now, stuck);
             after == before - here && n == |here|
    ensures SweptBut(all, todo - {slug}, p, now, stuck, start, after, removed + n)
  {
    OneMoreSite(all, todo, slug, p, now, stuck);
  }

  lemma EverySite(all: seq<Snap>, p: Policy, now: int, stuck: set<string>)
    ensures GoneOutside(all, {}, p, now, stuck) == Dropped(all, p, now) - stuck
  {
  }

  lemma SameName(all: seq<Snap>, s: Snap, t: Snap)
    requires DistinctNames(all) && s in all && t in all && s.name == t.name
    ensures s == t
  {
  }

  /** A snapshot is dropped if it is dropped at its own site, and at no other. */
  lemma DroppedAtSite(all: seq<Snap>, slug: string, p: Policy, now: int, s: Snap)
    requires DistinctNames(all) && s in all
    ensures s.name in DroppedIn(Group(all, slug), p, now) <==> s.name in Dropped(all, p, now) && s.slug == slug
  {
    var g := Group(all, slug);
    GroupMembers(all, slug);
    if s.name in DroppedIn(g, p, now) {
      var i :| 0 <= i < |g| && DropAt(g, i, p, now) && g[i].name == s.name;
      assert g[i] in g;
      SameName(all, g[i], s);
    }
    if s.name in Dropped(all, p, now) {
      var t :| t in all && t.name in DroppedIn(Group(all, t.slug), p, now) && t.name == s.name;
      SameName(all, s, t);
    }
  }

  lemma DisjointSizes(a: set<string>, b: set<string>)
    requires a !! b
    ensures |a + b| == |a| + |b|
  {
  }

  /** Whoever is gone at a site is one of the listing's snapshots of that site. */
  lemma GoneAtSite(all: seq<Snap>, slug: string, p: Policy, now: int, stuck: set<string>, x: string)
    requires DistinctNames(all)
    ensures x in Gone(Group(all, slug), |Group(all, slug)|, p, now, stuck) <==>
      exists s :: s in all && s.name == x && s.slug == slug && x in Dropped(all, p, now) && x !in stuck
  {
    var g := Group(all, slug);
    GoneIsDropped(g, p, now, stuck);
    GroupMembers(all, slug);
    if x in DroppedIn(g, p, now) {
      var i :| 0 <= i < |g| && DropAt(g, i, p, now) && g[i].name == x;
      assert g[i] in g;
      DroppedAtSite(all, slug, p, now, g[i]);
    }
    if s :| s in all && s.name == x && s.slug == slug && x in Dropped(all, p, now) {
      DroppedAtSite(all, slug, p, now, s);
    }
  }

  lemma NamesTellApart(all: seq<Snap>)
    requires DistinctNames(all)
    ensures forall s, t | s in all && t in all && s.name == t.name :: s == t
  {
    forall s, t | s in all && t in all && s.name == t.name
      ensures s == t
    {
      SameName(all, s, t);
    }
  }

  /** What goes at one more site is new, and is all that goes. */
  lemma GoneHereOrBefore(all: seq<Snap>, todo: set<string>, slug: string, p: Policy, now: int, stuck: set<string>,
                         x: string)
    requires slug in todo && DistinctNames(all)
    ensures var before := GoneOutside(all, todo, p, now, stuck);
            var here := Gone(Group(all, slug), |Group(all, slug)|, p, now, stuck);
            && (x in GoneOutside(all, todo - {slug}, p, now, stuck) <==> x in before || x in here)
            && !(x in before && x in here)
  {
    GoneAtSite(all, slug, p, now, stuck, x);
    NamesTellApart(all);
  }

  lemma OneMoreSite(all: seq<Snap>, todo: set<string>, slug: string, p: Policy, now: int, stuck: set<string>)
    requires slug in todo && DistinctNames(all)
    ensures var before := GoneOutside(all, todo, p, now, stuck);
            var here := Gone(Group(all, slug), |Group(all, slug)|, p, now, stuck);
            && GoneOutside(all, todo - {slug}, p, now, stuck) == before + here
            && |before + here| == |before| + |here|
  {
    var before := GoneOutside(all, todo, p, now, stuck);
    var here := Gone(Group(all, slug), |Group(all, slug)|, p, now, stuck);
    var after := GoneOutside(all, todo - {slug}, p, now, stuck);
    forall x
      ensures x in after <==> x in before || x in here
      ensures !(x in before && x in here)
    {
      GoneHereOrBefore(all, todo, slug, p, now, stuck, x);
    }
    DisjointSizes(before, here);
  }

  // ---- Groups ----

  lemma {:induction false} GroupMembers(all: seq<Snap>, slug: string)
    ensures forall s :: s in Group(all, slug) <==> s in all && s.slug == slug
  {
    if all != [] {
      var front := all[..|all| - 1];
      assert all == front + [all[|all| - 1]];
      GroupMembers(front, slug);
    }
  }

  /** A site's part of a listing has no name twice and is newest first. */
  lemma {:induction false} GroupIsOrdered(all: seq<Snap>, slug: string)
    requires DistinctNames(all) && Sorted(all, NewerFirst)
    ensures DistinctNames(Group(all, slug)) && Sorted(Group(all, slug), NewerFirst)
  {
    if all != [] {
      var front, last := all[..|all| - 1], all[|all| - 1];
      var g := Group(front, slug);
      GroupIsOrdered(front, slug);
      GroupMembers(front, slug);
      forall i | 0 <= i < |g|
        ensures g[i].name != last.name && NewerFirst(g[i], last)
      {
        assert g[i] in front;
        var j :| 0 <= j < |front| && front[j] == g[i];
        assert all[j] == g[i];
      }
    }
  }

  lemma SortKeepsNames(snaps: seq<Snap>)
    requires DistinctNames(snaps)
    ensures DistinctNames(Sort(snaps, NewerFirst))
    ensures forall s :: s in Sort(snaps, NewerFirst) <==> s in snaps
  {
    var sorted := Sort(snaps, NewerFirst);
    forall s
      ensures s in sorted <==> s in snaps
    {
      assert s in multiset(sorted) <==> s in multiset(snaps);
    }
    forall i, j | 0 <= i < j < |sorted|
      ensures sorted[i].name != sorted[j].name
    {
      assert sorted[i] in snaps && sorted[j] in snaps;
      DistinctCount(snaps, sorted[i]);
      if sorted[i].name == sorted[j].name {
        SameName(snaps, sorted[i], sorted[j]);
        TwoCopies(sorted, i, j);
      }
    }
  }

  lemma {:induction false} DistinctCount(snaps: seq<Snap>, x: Snap)
    requires DistinctNames(snaps)
    ensures multiset(snaps)[x] <= 1
  {
    if snaps != [] {
      assert snaps == [snaps[0]] + snaps[1..];
      assert snaps[0] !in snaps[1..];
      DistinctCount(snaps[1..], x);
      assert snaps[0] !in multiset(snaps[1..]);
    }
  }

  lemma TwoCopies(s: seq<Snap>, i: nat, j: nat)
    requires i < j < |s| && s[i] == s[j]
    ensures multiset(s)[s[i]] >= 2
  {
    assert s == s[..j] + s[j..];
    assert s[..j][i] in multiset(s[..j]) && s[j..][0] in multiset(s[j..]);
  }

  // ---- What a sweep keeps ----

  /** The first snapshot from `i` on that is dropped. */
  function FirstDropped(group: seq<Snap>, i: nat, p: Policy, now: int): (n: nat)
    requires i <= |group|
    ensures i <= n <= |group|
    ensures forall j | i <= j < n :: !DropAt(group, j, p, now)
    ensures n < |group| ==> DropAt(group, n, p, now)
    decreases |group| - i
  {
    if i == |group| || DropAt(group, i, p, now) then i else FirstDropped(group, i + 1, p, now)
  }

  /** How much of a newest-first group is kept: it stops at the limit or at the first snapshot that is too old. */
  function KeptCount(group: seq<Snap>, p: Policy, now: int): nat {
    FirstDropped(group, 0, p, now)
  }

  /** A sweep keeps a prefix of each site's newest-first list and drops the rest. */
  lemma KeptIsPrefix(group: seq<Snap>, p: Policy, now: int)
    requires Sorted(group, NewerFirst)
    ensures KeptCount(group, p, now) <= |group|
    ensures forall i | 0 <= i < |group| :: DropAt(group, i, p, now) <==> i >= KeptCount(group, p, now)
    ensures p.maxPerSite > 0 ==> KeptCount(group, p, now) <= p.maxPerSite
  {
    var n := KeptCount(group, p, now);
    forall i | n < i < |group|
      ensures DropAt(group, i, p, now)
    {
      assert NewerFirst(group[n], group[i]);
    }
    assert p.maxPerSite < n ==> DropAt(group, p.maxPerSite, p, now) || p.maxPerSite == 0;
  }

  /** The snapshots of one site among the first `k` of a listing. */
  function EarlierOf(all: seq<Snap>, k: nat, slug: string): set<nat>
    requires k <= |all|
  {
    set i: nat | i < k && all[i].slug == slug
  }

  /** Neither too old nor behind as many snapshots of its site as may be kept. */
  predicate WithinLimits(all: seq<Snap>, k: nat, p: Policy, now: int)
    requires k < |all|
  {
    && (p.maxAge == 0 || now - all[k].taken <= p.maxAge)
    && (p.maxPerSite == 0 || |EarlierOf(all, k, all[k].slug)| < p.maxPerSite)
  }

  lemma {:induction false} GroupCount(all: seq<Snap>, k: nat, slug: string)
    requires k <= |all|
    ensures |Group(all[..k], slug)| == |EarlierOf(all, k, slug)|
  {
    var here := EarlierOf(all, k, slug);
    if k == 0 {
      assert here == {};
    } else {
      var before := EarlierOf(all, k - 1, slug);
      GroupCount(all, k - 1, slug);
      assert all[..k][..k - 1] == all[..k - 1];
      assert here == if all[k - 1].slug == slug then before + {k - 1} else before;
    }
  }

  lemma {:induction false} GroupAt(all: seq<Snap>, k: nat)
    requires k < |all|
    ensures var slug := all[k].slug;
            var n := |Group(all[..k], slug)|;
            n < |Group(all, slug)| && Group(all, slug)[n] == all[k]
  {
    var front := all[..|all| - 1];
    if k < |front| {
      assert front[..k] == all[..k];
      GroupAt(front, k);
    } else {
      assert front == all[..k];
    }
  }

  lemma IndexInGroup(group: seq<Snap>, i: nat, p: Policy, now: int)
    requires DistinctNames(group) && i < |group|
    ensures group[i].name in DroppedIn(group, p, now) <==> DropAt(group, i, p, now)
  {
  }

  /** What is kept of a listing, by ages and counts alone. */
  lemma KeptExactlyWithinLimits(all: seq<Snap>, p: Policy, now: int)
    requires DistinctNames(all) && Sorted(all, NewerFirst)
    ensures forall k | 0 <= k < |all| :: all[k].name !in Dropped(all, p, now) <==> WithinLimits(all, k, p, now)
  {
    forall k | 0 <= k < |all|
      ensures all[k].name !in Dropped(all, p, now) <==> WithinLimits(all, k, p, now)
    {
      var slug := all[k].slug;
      GroupCount(all, k, slug);
      GroupAt(all, k);
      GroupIsOrdered(all, slug);
      IndexInGroup(Group(all, slug), |Group(all[..k], slug)|, p, now);
      DroppedAtSite(all, slug, p, now, all[k]);
    }
  }

  /** A built name tells whose snapshot it is and when it was taken. */
  lemma BuiltNameTells(slug: string, reason: string, engine: string, version: string, ts: Instant, codec: string,
                       lower: char -> char)
    requires LabelMatches(reason) && ts.Valid() && Readable(slug, engine, version, ts, lower)
    ensures var name := Build(slug, reason, engine, version, ts, codec, lower);
            IsSnapshot(name) && Read(name) == Snap(name, slug, Elapsed(WholeSecond(ts)))
  {
    NameRoundTrip(slug, reason, engine, version, ts, codec, lower);
  }

  /**
   * After a sweep in which every delete succeeds, each site has at most the allowed number of snapshots and none
   * too old; every dropped snapshot of a site is no newer than every kept one; and files that are no snapshots,
   * and all files when both limits are off, are still there.
   */
  lemma SweepKeepsTheNewest(all: seq<Snap>, files: set<string>, p: Policy, now: int, slug: string)
    requires IsListing(all, files)
    ensures var left, g := files - Dropped(all, p, now), Group(all, slug);
            var kept := g[..KeptCount(g, p, now)];
            && (p.maxPerSite > 0 ==> |kept| <= p.maxPerSite)
            && (forall s :: s in kept <==> IsFile(s, left) && s.slug == slug)
            && (p.maxAge > 0 ==> forall s | s in kept :: now - s.taken <= p.maxAge)
            && (forall a, b | a in kept && b in g && b !in kept :: NewerFirst(a, b))
            && (forall name | name in files && !IsSnapshot(name) :: name in left)
  {
    var left, g := files - Dropped(all, p, now), Group(all, slug);
    var n := KeptCount(g, p, now);
    GroupMembers(all, slug);
    GroupIsOrdered(all, slug);
    KeptIsPrefix(g, p, now);
    DroppedAreFiles(all, files, p, now);
    forall s
      ensures s in g[..n] <==> IsFile(s, left) && s.slug == slug
    {
      KeptIsLeft(all, files, p, now, slug, s);
    }
    forall s | s in g[..n]
      ensures p.maxAge > 0 ==> now - s.taken <= p.maxAge
    {
      var i :| 0 <= i < n && g[i] == s;
      assert !DropAt(g, i, p, now);
    }
    forall a, b | a in g[..n] && b in g && b !in g[..n]
      ensures NewerFirst(a, b)
    {
      var i :| 0 <= i < n && g[i] == a;
      var j :| 0 <= j < |g| && g[j] == b;
      KeptAt(g, j, p, now);
    }
  }

  lemma KeptAt(g: seq<Snap>, i: nat, p: Policy, now: int)
    requires DistinctNames(g) && Sorted(g, NewerFirst) && i < |g|
    ensures KeptCount(g, p, now) <= |g|
    ensures g[i].name in DroppedIn(g, p, now) <==> i >= KeptCount(g, p, now)
    ensures g[i] in g[..KeptCount(g, p, now)] <==> i < KeptCount(g, p, now)
  {
    KeptIsPrefix(g, p, now);
    IndexInGroup(g, i, p, now);
    var n := KeptCount(g, p, now);
    if i < n {
      assert g[..n][i] == g[i];
    }
  }

  /** The kept part of a site is what is left of it. */
  lemma KeptIsLeft(all: seq<Snap>, files: set<string>, p: Policy, now: int, slug: string, s: Snap)
    requires IsListing(all, files)
    ensures var g := Group(all, slug);
            KeptCount(g, p, now) <= |g|
            && (s in g[..KeptCount(g, p, now)] <==> IsFile(s, files - Dropped(all, p, now)) && s.slug == slug)
  {
    var g := Group(all, slug);
    GroupMembers(all, slug);
    GroupIsOrdered(all, slug);
    KeptIsPrefix(g, p, now);
    if s in g {
      var i :| 0 <= i < |g| && g[i] == s;
      KeptAt(g, i, p, now);
      DroppedAtSite(all, slug, p, now, s);
    }
  }

  lemma {:induction false} SameMembersNoLonger(a: seq<Snap>, b: seq<Snap>)
    requires DistinctNames(a) && forall s | s in a :: s in b
    ensures |a| <= |b|
  {
    if a != [] {
      var x := a[0];
      assert x in b;
      var k :| 0 <= k < |b| && b[k] == x;
      var rest := b[..k] + b[k + 1..];
      assert b == b[..k] + [b[k]] + b[k + 1..];
      forall s | s in a[1..]
        ensures s in rest
      {
        assert s in a && s != x && s in b;
      }
      SameMembersNoLonger(a[1..], rest);
    }
  }

  /** Sweeping again at the same instant, whatever order ties are listed in, finds nothing to drop. */
  lemma SweepingAgainDropsNothing(all: seq<Snap>, files: set<string>, again: seq<Snap>, p: Policy, now: int)
    requires IsListing(all, files)
    requires IsListing(again, files - Dropped(all, p, now))
    ensures Dropped(again, p, now) == {}
  {
    forall s | s in again
      ensures s.name !in DroppedIn(Group(again, s.slug), p, now)
    {
      NothingToDrop(all, files, again, p, now, s.slug);
    }
  }

  lemma NothingToDrop(all: seq<Snap>, files: set<string>, again: seq<Snap>, p: Policy, now: int, slug: string)
    requires IsListing(all, files)
    requires IsListing(again, files - Dropped(all, p, now))
    ensures DroppedIn(Group(again, slug), p, now) == {}
  {
    var g, h := Group(all, slug), Group(again, slug);
    var kept := g[..KeptCount(g, p, now)];
    SweepKeepsTheNewest(all, files, p, now, slug);
    GroupMembers(again, slug);
    GroupIsOrdered(again, slug);
    SameMembersNoLonger(h, kept);
    forall i | 0 <= i < |h|
      ensures !DropAt(h, i, p, now)
    {
      assert h[i] in h;
      assert h[i] in kept;
    }
  }
}
