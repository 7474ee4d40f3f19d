/**
 The bounded activity table of internal/storage/activity.go. Every insert trims its site to the newest rows;
 the point is that nobody reading within the bound can tell the table from one that was never trimmed.
 */
module ActivityLog {
  import opened Strings
  import opened Timestamps
  import opened Wrappers

  const RETENTION := 200

  datatype Kind =
    | Start | Stop | DeleteSite | Clone | Versions | Multisite | Export | ImportDB | Snapshot | Restore | Other
    | Unknown(text: string)

  datatype Status = Succeeded | Failed | RolledBack | Invalid(text: string)

  /** An event as the caller hands it over; the zero time means "now". */
  datatype Event = Event(id: nat, site: string, time: Time, plan: string, kind: Kind, status: Status,
                         durationMs: int, message: string, details: string)

  /** A stored row. The time column is text. */
  datatype Row = Row(id: nat, site: string, time: string, plan: string, kind: Kind, status: Status,
                     durationMs: int, message: string, details: string)

  datatype Error = NilEvent | EmptySite | UnknownKind | UnknownStatus | BadDetails

  datatype Result<+T> = Ok(value: T) | Err(error: Error)

  // ---- Newest first ----

  /** ORDER BY time DESC, id DESC: `a` comes before `b`. */
  predicate Newer(a: Row, b: Row) {
    Less(b.time, a.time) || (a.time == b.time && b.id < a.id)
  }

  ghost predicate DistinctIds(rows: set<Row>) {
    forall a, b | a in rows && b in rows && a.id == b.id :: a == b
  }

  lemma NewerIsStrictOrder(a: Row, b: Row, c: Row)
    ensures a.id != b.id ==> Newer(a, b) || Newer(b, a)
    ensures Newer(a, b) ==> !Newer(b, a)
    ensures Newer(a, b) && Newer(b, c) ==> Newer(a, c)
  {
    LessIsStrictOrder(a.time, b.time, c.time);
    LessIsStrictOrder(b.time, a.time, c.time);
    LessIsStrictOrder(c.time, b.time, a.time);
    LessIsStrictOrder(c.time, a.time, b.time);
  }

  /** `m` is the newest of `rows`. */
  ghost predicate IsTop(m: Row, rows: set<Row>) {
    m in rows && forall r | r in rows && r != m :: Newer(m, r)
  }

  lemma {:induction false} TopExists(rows: set<Row>)
    requires rows != {} && DistinctIds(rows)
    ensures exists m :: IsTop(m, rows)
  {
    var x :| x in rows;
    if rows == {x} {
      assert IsTop(x, rows);
    } else {
      TopExists(rows - {x});
      var m :| IsTop(m, rows - {x});
      NewerIsStrictOrder(x, m, x);
      var best := if Newer(x, m) then x else m;
      forall r | r in rows && r != best
        ensures Newer(best, r)
      {
        NewerIsStrictOrder(x, m, r);
      }
      assert IsTop(best, rows);
    }
  }

  lemma TopIsUnique(m: Row, n: Row, rows: set<Row>)
    requires IsTop(m, rows) && IsTop(n, rows)
    ensures m == n
  {
    NewerIsStrictOrder(m, n, m);
  }

  ghost function Top(rows: set<Row>): (m: Row)
    requires rows != {} && DistinctIds(rows)
    ensures IsTop(m, rows)
  {
    TopExists(rows);
    var m :| IsTop(m, rows);
    m
  }

  /** The newest `n` rows, newest first. */
  ghost function Newest(rows: set<Row>, n: nat): (q: seq<Row>)
    requires DistinctIds(rows)
    ensures |q| <= n
    ensures forall r | r in q :: r in rows
    decreases n
  {
    if n == 0 || rows == {} then [] else [Top(rows)] + Newest(rows - {Top(rows)}, n - 1)
  }

  ghost function Elements(q: seq<Row>): set<Row> {
    set r | r in q
  }

  /** What Newest means: strictly descending, as many as there are up to `n`, and nothing newer is left out. */
  lemma {:induction false} NewestMeaning(rows: set<Row>, n: nat)
    requires DistinctIds(rows)
    ensures var q := Newest(rows, n);
            && |q| == (if |rows| <= n then |rows| else n)
            && (forall i, j | 0 <= i < j < |q| :: Newer(q[i], q[j]))
            && (forall i, r | 0 <= i < |q| && r in rows && r !in q :: Newer(q[i], r))
    decreases n
  {
    if n != 0 && rows != {} {
      var m := Top(rows);
      NewestMeaning(rows - {m}, n - 1);
      TopInFront(rows, m, Newest(rows - {m}, n - 1));
    }
  }

  /** The newest row in front of the newest of the others. */
  lemma TopInFront(rows: set<Row>, m: Row, rest: seq<Row>)
    requires IsTop(m, rows)
    requires forall r | r in rest :: r in rows - {m}
    requires forall i, j | 0 <= i < j < |rest| :: Newer(rest[i], rest[j])
    requires forall i, r | 0 <= i < |rest| && r in rows - {m} && r !in rest :: Newer(rest[i], r)
    ensures var q := [m] + rest;
            && (forall i, j | 0 <= i < j < |q| :: Newer(q[i], q[j]))
            && (forall i, r | 0 <= i < |q| && r in rows && r !in q :: Newer(q[i], r))
  {
    var q := [m] + rest;
    assert forall i | 0 < i < |q| :: q[i] == rest[i - 1] && rest[i - 1] in rest;
  }

  /** A part of the rows that still has the newest `n` answers for all of them up to `n`. */
  lemma {:induction false} NewestFromPart(part: set<Row>, rows: set<Row>, n: nat, k: nat)
    requires DistinctIds(rows) && part <= rows && k <= n
    requires forall r | r in Newest(rows, n) :: r in part
    ensures Newest(part, k) == Newest(rows, k)
    decreases n
  {
    if k != 0 && rows != {} {
      var m := Top(rows);
      assert Newest(rows, n) == [m] + Newest(rows - {m}, n - 1);
      assert m in Newest(rows, n);
      assert IsTop(m, part);
      TopIsUnique(m, Top(part), part);
      forall r | r in Newest(rows - {m}, n - 1)
        ensures r in part - {m}
      {
        assert r in Newest(rows, n);
      }
      NewestFromPart(part - {m}, rows - {m}, n - 1, k - 1);
    }
  }

  lemma {:induction false} NewestGrows(rows: set<Row>, k: nat, n: nat)
    requires DistinctIds(rows) && k <= n
    ensures Newest(rows, k) <= Newest(rows, n)
    decreases k
  {
    if k != 0 && rows != {} {
      NewestGrows(rows - {Top(rows)}, k - 1, n - 1);
    }
  }

  /** One more row can only push out old ones. */
  lemma {:induction false} NewestAfterInsert(rows: set<Row>, x: Row, n: nat)
    requires DistinctIds(rows + {x}) && x !in rows
    ensures forall r | r in Newest(rows + {x}, n) :: r == x || r in Newest(rows, n)
    decreases n
  {
    if n != 0 {
      var all := rows + {x};
      var m := Top(all);
      if m == x {
        assert all - {m} == rows;
        NewestGrows(rows, n - 1, n);
      } else {
        assert IsTop(m, rows);
        TopIsUnique(m, Top(rows), rows);
        assert all - {m} == (rows - {m}) + {x};
        NewestAfterInsert(rows - {m}, x, n - 1);
      }
    }
  }

  // ---- The table ----

  predicate Keepable(limit: int) {
    limit <= 0 || RETENTION <= limit
  }

  function Limit(limit: int): nat {
    if limit <= 0 then RETENTION else limit
  }

  function SiteRows(rows: set<Row>, site: string): set<Row> {
    set r | r in rows && r.site == site
  }

  /** Why an event is refused, checked in this order; `validJson` is encoding/json's opinion of the details. */
  function Rejection(ev: Option<Event>, validJson: string -> bool): Option<Error> {
    match ev
    case None => Some(NilEvent)
    case Some(e) =>
      if e.site == "" then Some(EmptySite)
      else if e.kind.Unknown? then Some(UnknownKind)
      else if e.status.Invalid? then Some(UnknownStatus)
      else if e.details != "" && !validJson(e.details) then Some(BadDetails)
      else None
  }

  /** The event as recorded under `id`, with the time of the insert if it came without one. */
  function Recorded(e: Event, id: nat, now: Time): Event {
    e.(id := id, time := if e.time == ZERO_TIME then now else e.time,
       durationMs := if e.durationMs < 0 then 0 else e.durationMs)
  }

  function Stored(e: Event): Row {
    Row(e.id, e.site, ActivityText(e.time), e.plan, e.kind, e.status, e.durationMs, e.message,
        if e.details == "" then "null" else e.details)
  }

  /** Everything an event must have to be recorded. */
  predicate Acceptable(ev: Option<Event>, validJson: string -> bool) {
    && ev.Some? && ev.value.site != ""
    && !ev.value.kind.Unknown? && !ev.value.status.Invalid?
    && (ev.value.details == "" || validJson(ev.value.details))
  }

  /** What the caller said of an event; a negative duration counts as none. */
  predicate SameEvent(e: Event, given: Event) {
    && e.site == given.site && e.plan == given.plan && e.kind == given.kind && e.status == given.status
    && e.message == given.message && e.details == given.details
    && e.durationMs == if given.durationMs < 0 then 0 else given.durationMs
  }

  /** A row keeps all of an event: two events with times the text can tell apart differ in their rows. */
  lemma RowsKeepEvents(e: Event, f: Event)
    requires e.time.Valid() && f.time.Valid() && e.time.year <= 9999 && f.time.year <= 9999
    ensures Stored(e) == Stored(f) <==> e.(details := f.details) == f && DetailsStored(e) == DetailsStored(f)
    ensures var row := Stored(e);
            && row.id == e.id && row.site == e.site && row.plan == e.plan && row.kind == e.kind
            && row.status == e.status && row.message == e.message && row.durationMs == e.durationMs
            && row.details == DetailsStored(e)
  {
    ActivityTextOrder(e.time, f.time);
  }

  /** Empty details are a JSON null in the table. */
  function DetailsStored(e: Event): string {
    if e.details == "" then "null" else e.details
  }

  class ActivityTable {
    var rows: set<Row>
    /** AUTOINCREMENT: ids only grow, even past rows that are gone. */
    var nextId: nat
    /** Every row ever inserted for a site that still exists. */
    ghost var history: set<Row>

    ghost predicate Valid()
      reads this
    {
      && DistinctIds(history)
      && (forall r | r in history :: r.id < nextId)
      && rows <= history
      && forall site :: SiteRows(rows, site) == Elements(Newest(SiteRows(history, site), RETENTION))
    }

    constructor ()
      ensures Valid() && rows == {} && history == {}
    {
      rows, nextId, history := {}, 1, {};
    }

    /** SELECT ... WHERE site_id = ? ORDER BY time DESC, id DESC LIMIT ?. */
    method SelectNewest(site: string, limit: nat) returns (q: seq<Row>)
      requires DistinctIds(rows)
      ensures q == Newest(SiteRows(rows, site), limit)
    {
      q := [];
      var rest := SiteRows(rows, site);
      while |q| < limit && rest != {}
        invariant rest <= rows && |q| <= limit
        invariant q + Newest(rest, limit - |q|) == Newest(SiteRows(rows, site), limit)
        decreases limit - |q|
      {
        TopExists(rest);
        var m :| m in rest && forall r | r in rest && r != m :: Newer(m, r);
        TopIsUnique(m, Top(rest), rest);
        q := q + [m];
        rest := rest - {m};
      }
    }

    /** DELETE ... WHERE site_id = ? AND id NOT IN (the newest `limit`). */
    method Trim(site: string, limit: nat)
      requires DistinctIds(rows)
      modifies this`rows
      ensures rows <= old(rows)
      ensures SiteRows(rows, site) == Elements(Newest(SiteRows(old(rows), site), limit))
      ensures forall s | s != site :: SiteRows(rows, s) == SiteRows(old(rows), s)
    {
      var kept := SelectNewest(site, limit);
      rows := set r | r in rows && (r.site != site || r in kept);
    }

    /** The transaction: the insert and the trim of its site. */
    method InsertAndTrim(row: Row)
      requires Valid() && row.id == nextId
      modifies this
      ensures Valid() && nextId == old(nextId) + 1 && history == old(history) + {row}
      ensures forall s | s != row.site :: SiteRows(rows, s) == SiteRows(old(rows), s)
    {
      ghost var before, past := rows, history;
      rows, nextId, history := rows + {row}, nextId + 1, history + {row};
      ghost var inserted := rows;
      OtherSitesSame(before, row);
      Trim(row.site, RETENTION);
      InsertKeepsNewest(before, past, row, inserted, rows);
    }

    method AppendActivity(ev: Option<Event>, now: Time, validJson: string -> bool) returns (r: Result<Event>)
      requires Valid()
      modifies this
      ensures Valid()
      ensures forall e :: r == Err(e) <==> Rejection(ev, validJson) == Some(e)
      ensures r.Ok? <==> Acceptable(ev, validJson)
      ensures ev == None ==> r == Err(NilEvent)
      ensures ev.Some? && ev.value.site == "" ==> r == Err(EmptySite)
      ensures ev.Some? && ev.value.site != "" && ev.value.kind.Unknown? ==> r == Err(UnknownKind)
      ensures ev.Some? && ev.value.site != "" && !ev.value.kind.Unknown? && ev.value.status.Invalid? ==>
                r == Err(UnknownStatus)
      ensures r.Err? ==> rows == old(rows) && history == old(history) && nextId == old(nextId)
      ensures r.Ok? ==>
                && r.value == Recorded(ev.value, old(nextId), now)
                && SameEvent(r.value, ev.value) && r.value.id == old(nextId)
                && r.value.time == (if ev.value.time == ZERO_TIME then now else ev.value.time)
                && history == old(history) + {Stored(r.value)} && nextId == old(nextId) + 1
                && forall s | s != ev.value.site :: SiteRows(rows, s) == SiteRows(old(rows), s)
    {
      if ev == None {
        return Err(NilEvent);
      }
      var e := ev.value;
      if e.site == "" {
        return Err(EmptySite);
      }
      if e.kind.Unknown? {
        return Err(UnknownKind);
      }
      if e.status.Invalid? {
        return Err(UnknownStatus);
      }
      if e.durationMs < 0 {
        e := e.(durationMs := 0);
      }
      if e.time == ZERO_TIME {
        e := e.(time := now);
      }
      if e.details != "" && !validJson(e.details) {
        return Err(BadDetails);
      }
      e := e.(id := nextId);
      InsertAndTrim(Stored(e));
      return Ok(e);
    }

    method GetActivity(site: string, limit: int) returns (r: Result<seq<Row>>)
      requires Valid()
      ensures site == "" ==> r == Err(EmptySite)
      ensures site != "" ==>
                r == Ok(Newest(SiteRows(history, site), if Keepable(limit) then RETENTION else limit))
    {
      if site == "" {
        return Err(EmptySite);
      }
      var effective := if limit <= 0 then RETENTION else limit;
      var q := SelectNewest(site, effective);
      TableAnswers(rows, history, site, effective);
      return Ok(q);
    }

    /** A sweep at the default limit (or above) changes nothing; a smaller limit cuts this site only. */
    method TrimActivity(site: string, limit: int) returns (r: Result<()>)
      requires Valid()
      modifies this`rows
      ensures site == "" ==> r == Err(EmptySite) && rows == old(rows)
      ensures site != "" ==> r == Ok(())
      ensures site != "" ==> SiteRows(rows, site) == Elements(Newest(SiteRows(old(rows), site), Limit(limit)))
      ensures forall s | s != site :: SiteRows(rows, s) == SiteRows(old(rows), s)
      ensures Keepable(limit) ==> Valid() && rows == old(rows)
    {
      if site == "" {
        return Err(EmptySite);
      }
      var effective := if limit <= 0 then RETENTION else limit;
      Trim(site, effective);
      if Keepable(limit) {
        SweepKeepsAll(old(rows), history, rows, site, effective);
      }
      return Ok(());
    }

    /** The startup sweep over every site. */
    method SweepActivity(sites: seq<string>)
      requires Valid() && "" !in sites
      modifies this`rows
      ensures Valid() && rows == old(rows)
    {
      for i := 0 to |sites|
        invariant Valid() && rows == old(rows)
      {
        var _ := TrimActivity(sites[i], RETENTION);
      }
    }

    /** Deleting a site cascades to its rows. */
    method DeleteSiteRows(site: string)
      requires Valid()
      modifies this
      ensures Valid() && nextId == old(nextId)
      ensures SiteRows(rows, site) == {} && SiteRows(history, site) == {}
      ensures forall s | s != site ::
                SiteRows(rows, s) == SiteRows(old(rows), s) && SiteRows(history, s) == SiteRows(old(history), s)
    {
      rows := set r | r in rows && r.site != site;
      history := set r | r in history && r.site != site;
      forall s
        ensures SiteRows(rows, s) == Elements(Newest(SiteRows(history, s), RETENTION))
      {
        if s == site {
          assert SiteRows(rows, s) == {} && SiteRows(history, s) == {};
        } else {
          assert SiteRows(rows, s) == SiteRows(old(rows), s) && SiteRows(history, s) == SiteRows(old(history), s);
        }
      }
    }
  }

  lemma OtherSitesSame(rows: set<Row>, row: Row)
    ensures forall s | s != row.site :: SiteRows(rows + {row}, s) == SiteRows(rows, s)
  {
  }

  ghost predicate KeepsNewest(rows: set<Row>, history: set<Row>)
    requires DistinctIds(history)
  {
    rows <= history && forall site :: SiteRows(rows, site) == Elements(Newest(SiteRows(history, site), RETENTION))
  }

  /** The key step: trimming the kept rows and the new one leaves what trimming the whole history would. */
  lemma InsertKeepsNewest(before: set<Row>, past: set<Row>, row: Row, inserted: set<Row>, after: set<Row>)
    requires DistinctIds(past + {row}) && row !in past && DistinctIds(past) && KeepsNewest(before, past)
    requires inserted == before + {row} && after <= inserted
    requires SiteRows(after, row.site) == Elements(Newest(SiteRows(inserted, row.site), RETENTION))
    requires forall s | s != row.site :: SiteRows(after, s) == SiteRows(inserted, s)
    ensures KeepsNewest(after, past + {row})
  {
    forall s
      ensures SiteRows(after, s) == Elements(Newest(SiteRows(past + {row}, s), RETENTION))
    {
      if s == row.site {
        var part, all := SiteRows(inserted, s), SiteRows(past + {row}, s);
        assert all == SiteRows(past, s) + {row} && part == SiteRows(before, s) + {row};
        OneSiteInsert(SiteRows(before, s), SiteRows(past, s), row);
      } else {
        assert SiteRows(past + {row}, s) == SiteRows(past, s) && SiteRows(inserted, s) == SiteRows(before, s);
      }
    }
  }

  /** At one site: the kept rows and a new one have the newest of the whole past and the new one. */
  lemma OneSiteInsert(part: set<Row>, past: set<Row>, row: Row)
    requires DistinctIds(past + {row}) && row !in past && part <= past
    requires part == Elements(Newest(past, RETENTION))
    ensures Newest(part + {row}, RETENTION) == Newest(past + {row}, RETENTION)
  {
    NewestAfterInsert(past, row, RETENTION);
    NewestFromPart(part + {row}, past + {row}, RETENTION, RETENTION);
  }

  /** Within the bound the table and the full history answer alike. */
  lemma TableAnswers(rows: set<Row>, history: set<Row>, site: string, limit: nat)
    requires DistinctIds(history) && KeepsNewest(rows, history)
    ensures Newest(SiteRows(rows, site), limit)
         == Newest(SiteRows(history, site), if RETENTION <= limit then RETENTION else limit)
  {
    var part, all := SiteRows(rows, site), SiteRows(history, site);
    if limit <= RETENTION {
      NewestFromPart(part, all, RETENTION, limit);
    } else {
      NewestFromPart(part, all, RETENTION, RETENTION);
      AtMostRetained(rows, history, site);
      NewestGrows(part, RETENTION, limit);
      NewestMeaning(part, limit);
      NewestMeaning(part, RETENTION);
    }
  }

  /** No site ever has more than the retained number of rows. */
  lemma AtMostRetained(rows: set<Row>, history: set<Row>, site: string)
    requires DistinctIds(history) && KeepsNewest(rows, history)
    ensures |SiteRows(rows, site)| <= RETENTION
  {
    var q := Newest(SiteRows(history, site), RETENTION);
    ElementsCount(q);
  }

  lemma {:induction false} ElementsCount(q: seq<Row>)
    ensures |Elements(q)| <= |q|
  {
    if q != [] {
      ElementsCount(q[1..]);
      assert Elements(q) == {q[0]} + Elements(q[1..]);
    }
  }

  lemma SweepKeepsAll(before: set<Row>, history: set<Row>, after: set<Row>, site: string, limit: nat)
    requires DistinctIds(history) && KeepsNewest(before, history) && RETENTION <= limit
    requires after <= before
    requires SiteRows(after, site) == Elements(Newest(SiteRows(before, site), limit))
    requires forall s | s != site :: SiteRows(after, s) == SiteRows(before, s)
    ensures after == before
  {
    TableAnswers(before, history, site, limit);
    forall r | r in before
      ensures r in after
    {
      assert r in SiteRows(before, r.site);
      assert SiteRows(after, r.site) == SiteRows(before, r.site);
      assert r in SiteRows(after, r.site);
    }
  }

  /** For years up to 9999 "newer" in the table is later in time, then higher in id. */
  lemma NewerIsLater(a: Event, b: Event)
    requires a.time.year <= 9999 && b.time.year <= 9999
    ensures Newer(Stored(a), Stored(b)) <==> Before(b.time, a.time) || (a.time == b.time && b.id < a.id)
  {
    ActivityTextOrder(b.time, a.time);
  }
}
