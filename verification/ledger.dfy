/** The persistent state of the timer ledger: the `works` and `time_entries`
    tables as the migrations create them, including the `works.closed_at`,
    `works.closed_reason` and `time_entries.deleted_at` columns that later
    migrations add, and the consistency the database keeps for them. The ORM
    classes of `app/db/models` map fewer attributes than these tables hold;
    `WorkMapped` and `TimeEntryMapped` record which. */
module Ledger {
  import opened Wrappers
  import opened TimeUtil

  /** Primary keys and user ids (UUID strings in the source). */
  type Id = string

  /** One billable engagement. Dates are the `YYYY-MM-DD` strings the API stores verbatim. */
  datatype Work = Work(
    id: Id,
    userId: Id,
    title: string,
    sprintName: string,
    startDate: string,
    endDate: string,
    hourlyRateCents: int,
    currency: string,
    closedAt: Option<Instant>,
    closedReason: Option<string>)

  /** One timer session; `endedAt == None` while it runs. */
  datatype TimeEntry = TimeEntry(
    id: Id,
    workId: Id,
    startedAt: Instant,
    endedAt: Option<Instant>,
    deletedAt: Option<Instant>)

  /** Both tables, rows in insertion order. */
  datatype Db = Db(works: seq<Work>, entries: seq<TimeEntry>)

  /** The fields of the `POST /works` body, which a 422 can name. */
  datatype RequestField = Title | SprintName | StartDate | EndDate | HourlyRateCents | Currency

  /** The HTTP errors the core raises: 404 and 400 with a detail message,
      422 naming the request fields that failed validation, and the 500 an
      uncaught exception becomes. */
  datatype HttpError =
    | NotFound(detail: string)
    | BadRequest(detail: string)
    | Unprocessable(fields: seq<RequestField>)
    | ServerError

  /** The attributes `app/db/models/work.py` maps on `Work`: neither
      `closed_at` nor `closed_reason` is among them. */
  const WorkMapped: set<string> :=
    {"id", "user_id", "title", "sprint_name", "start_date", "end_date", "hourly_rate_cents", "currency", "entries"}

  /** The attributes `app/db/models/time_entry.py` maps on `TimeEntry`:
      `deleted_at` is not among them. */
  const TimeEntryMapped: set<string> := {"id", "work_id", "started_at", "ended_at", "note", "work"}

  /** The `time_entries` columns once every migration has run. */
  const TimeEntryColumns: set<string> := {"id", "work_id", "started_at", "ended_at", "note", "deleted_at"}

  /** `w` is the row the query `Work.id == workId, Work.user_id == userId` selects. */
  predicate Matches(w: Work, workId: Id, userId: Id) {
    w.id == workId && w.userId == userId
  }

  /** The user owns a work with this id. */
  predicate Owns(works: seq<Work>, workId: Id, userId: Id) {
    exists i | 0 <= i < |works| :: Matches(works[i], workId, userId)
  }

  /** `e` is a running session of the given work. */
  predicate IsOpenFor(e: TimeEntry, workId: Id) {
    e.workId == workId && e.endedAt.None?
  }

  predicate HasOpenEntry(entries: seq<TimeEntry>, workId: Id) {
    exists i | 0 <= i < |entries| :: IsOpenFor(entries[i], workId)
  }

  /** The partial unique index `ux_time_entries_open_per_work`: no two rows
      with `ended_at IS NULL` share a `work_id`. */
  predicate AtMostOneOpenPerWork(entries: seq<TimeEntry>) {
    forall i, j | 0 <= i < |entries| && 0 <= j < |entries| ::
      entries[i].endedAt.None? && entries[j].endedAt.None? && entries[i].workId == entries[j].workId
      ==> i == j
  }

  /** How many running sessions the work has. */
  function OpenCount(entries: seq<TimeEntry>, workId: Id): nat {
    if |entries| == 0 then 0
    else (if IsOpenFor(entries[0], workId) then 1 else 0) + OpenCount(entries[1..], workId)
  }

  lemma {:induction false} OpenCountZero(entries: seq<TimeEntry>, workId: Id)
    ensures OpenCount(entries, workId) == 0 <==> !HasOpenEntry(entries, workId)
  {
    if |entries| > 0 {
      OpenCountZero(entries[1..], workId);
      if HasOpenEntry(entries[1..], workId) {
        var i :| 0 <= i < |entries[1..]| && IsOpenFor(entries[1..][i], workId);
        assert entries[i + 1] == entries[1..][i];
      }
      if HasOpenEntry(entries, workId) && !IsOpenFor(entries[0], workId) {
        var i :| 0 <= i < |entries| && IsOpenFor(entries[i], workId);
        assert entries[1..][i - 1] == entries[i];
      }
    }
  }

  lemma AtMostOneOpenCons(e: TimeEntry, t: seq<TimeEntry>)
    ensures AtMostOneOpenPerWork([e] + t) <==>
              AtMostOneOpenPerWork(t) && (e.endedAt.None? ==> !HasOpenEntry(t, e.workId))
  {
    var r := [e] + t;
    assert r[0] == e;
    if AtMostOneOpenPerWork(r) {
      forall i, j | 0 <= i < |t| && 0 <= j < |t| && t[i].endedAt.None? && t[j].endedAt.None? && t[i].workId == t[j].workId
        ensures i == j
      {
        assert r[i + 1] == t[i] && r[j + 1] == t[j];
      }
      if e.endedAt.None? {
        forall i | 0 <= i < |t| ensures !IsOpenFor(t[i], e.workId) {
          assert r[i + 1] == t[i];
        }
      }
    }
    if AtMostOneOpenPerWork(t) && (e.endedAt.None? ==> !HasOpenEntry(t, e.workId)) {
      forall i, j | 0 < i < |r| && 0 < j < |r| && r[i].endedAt.None? && r[j].endedAt.None? && r[i].workId == r[j].workId
        ensures i == j
      {
        assert t[i - 1] == r[i] && t[j - 1] == r[j];
      }
      if e.endedAt.None? {
        forall i | 0 < i < |r| ensures !IsOpenFor(r[i], e.workId) {
          assert r[i] == t[i - 1];
        }
      }
    }
  }

  /** No work has two or more running sessions. */
  ghost predicate NoWorkTwiceOpen(entries: seq<TimeEntry>) {
    forall w :: OpenCount(entries, w) <= 1
  }

  /** The index holds exactly when no work has two or more running sessions. */
  lemma {:induction false} AtMostOneOpenIffCounts(entries: seq<TimeEntry>)
    ensures AtMostOneOpenPerWork(entries) <==> NoWorkTwiceOpen(entries)
  {
    if |entries| > 0 {
      var e, t := entries[0], entries[1..];
      assert entries == [e] + t;
      AtMostOneOpenIffCounts(t);
      AtMostOneOpenCons(e, t);
      OpenCountZero(t, e.workId);
      assert forall w :: OpenCount(entries, w) == (if IsOpenFor(e, w) then 1 else 0) + OpenCount(t, w);
      if NoWorkTwiceOpen(entries) {
        assert forall w :: OpenCount(t, w) <= 1;
        assert e.endedAt.None? ==> OpenCount(t, e.workId) == 0;
      }
      if AtMostOneOpenPerWork(entries) {
        forall w ensures OpenCount(entries, w) <= 1 {
          assert OpenCount(t, w) <= 1;
          if IsOpenFor(e, w) {
            assert OpenCount(t, w) == 0;
          }
        }
      }
    } else {
      assert forall w :: OpenCount(entries, w) == 0;
    }
  }

  /** `works.id` is the primary key. */
  predicate UniqueWorkIds(works: seq<Work>) {
    forall i, j | 0 <= i < |works| && 0 <= j < |works| :: works[i].id == works[j].id ==> i == j
  }

  /** `time_entries.id` is the primary key. */
  predicate UniqueEntryIds(entries: seq<TimeEntry>) {
    forall i, j | 0 <= i < |entries| && 0 <= j < |entries| :: entries[i].id == entries[j].id ==> i == j
  }

  predicate IsWorkId(works: seq<Work>, id: Id) {
    exists j | 0 <= j < |works| :: works[j].id == id
  }

  predicate IsEntryId(entries: seq<TimeEntry>, id: Id) {
    exists j | 0 <= j < |entries| :: entries[j].id == id
  }

  /** The foreign key `fk_time_entries_work_id_works`. */
  predicate EntriesReferenceWorks(db: Db) {
    forall i | 0 <= i < |db.entries| :: IsWorkId(db.works, db.entries[i].workId)
  }

  /** Everything the database schema guarantees about the two tables. */
  predicate Valid(db: Db) {
    && UniqueWorkIds(db.works)
    && UniqueEntryIds(db.entries)
    && EntriesReferenceWorks(db)
    && AtMostOneOpenPerWork(db.entries)
  }
}
