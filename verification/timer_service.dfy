/** Starting and stopping the timer of a work (`app/services/timer_service.py`)
    as transitions of the ledger. The clock value `now` and the id the database
    would generate for a new row are parameters. */
module TimerService {
  import opened Wrappers
  import opened TimeUtil
  import opened Ledger

  /** The first work the user owns with this id (`.first()` of the query). */
  function FindWork(works: seq<Work>, workId: Id, userId: Id): (r: Option<nat>)
    ensures r.Some? ==> r.value < |works| && Matches(works[r.value], workId, userId)
    ensures r.Some? ==> forall k | 0 <= k < r.value :: !Matches(works[k], workId, userId)
    ensures r.None? <==> !Owns(works, workId, userId)
  {
    if |works| == 0 then None
    else if Matches(works[0], workId, userId) then Some(0)
    else
      match FindWork(works[1..], workId, userId)
      case None =>
        assert forall k | 1 <= k < |works| :: works[k] == works[1..][k - 1];
        None
      case Some(k) => Some(k + 1)
  }

  /** `get_work_or_404`: the position of the user's work, or 404 "Work not found"
      when the id is unknown or belongs to someone else. */
  function GetWorkOr404(db: Db, workId: Id, userId: Id): (r: Result<nat, HttpError>)
    ensures r.Failure? <==> !Owns(db.works, workId, userId)
    ensures r.Failure? ==> r.error == NotFound("Work not found")
    ensures r.Success? ==> r.value < |db.works| && Matches(db.works[r.value], workId, userId)
  {
    match FindWork(db.works, workId, userId)
    case None => Failure(NotFound("Work not found"))
    case Some(i) => Success(i)
  }

  /** `get_open_entry`: the position of the first running session of the work, if any. */
  function GetOpenEntry(entries: seq<TimeEntry>, workId: Id): (r: Option<nat>)
    ensures r.Some? ==> r.value < |entries| && IsOpenFor(entries[r.value], workId)
    ensures r.Some? ==> forall k | 0 <= k < r.value :: !IsOpenFor(entries[k], workId)
    ensures r.None? <==> !HasOpenEntry(entries, workId)
  {
    if |entries| == 0 then None
    else if IsOpenFor(entries[0], workId) then Some(0)
    else
      match GetOpenEntry(entries[1..], workId)
      case None =>
        assert forall k | 1 <= k < |entries| :: entries[k] == entries[1..][k - 1];
        None
      case Some(k) => Some(k + 1)
  }

  /** Under the open-session index a running session is the only one of its work. */
  lemma OpenEntryIsUnique(entries: seq<TimeEntry>, workId: Id, i: nat)
    requires AtMostOneOpenPerWork(entries)
    requires i < |entries| && IsOpenFor(entries[i], workId)
    ensures GetOpenEntry(entries, workId) == Some(i)
  {
  }

  /** Sets `ended_at = now` on the work's running session, if it has one; the
      stopped entry is returned. Shared by `stop_timer` and `close_work`. */
  function EndOpenEntry(entries: seq<TimeEntry>, workId: Id, now: Instant): (r: (seq<TimeEntry>, Option<TimeEntry>))
    ensures |r.0| == |entries|
    ensures r.1.None? <==> !HasOpenEntry(entries, workId)
    ensures r.1.None? ==> r.0 == entries
    ensures r.1.Some? ==>
              exists i | 0 <= i < |entries| ::
                && IsOpenFor(entries[i], workId)
                && r.1.value == entries[i].(endedAt := Some(now))
                && r.0 == entries[i := r.1.value]
    ensures forall k | 0 <= k < |entries| :: r.0[k].id == entries[k].id && r.0[k].workId == entries[k].workId
    ensures forall k | 0 <= k < |entries| :: r.0[k].startedAt == entries[k].startedAt && r.0[k].deletedAt == entries[k].deletedAt
    ensures forall k | 0 <= k < |entries| && entries[k].workId != workId :: r.0[k] == entries[k]
    ensures forall k | 0 <= k < |entries| && entries[k].endedAt.Some? :: r.0[k] == entries[k]
    ensures AtMostOneOpenPerWork(entries) ==> AtMostOneOpenPerWork(r.0) && !HasOpenEntry(r.0, workId)
  {
    match GetOpenEntry(entries, workId)
    case None => (entries, None)
    case Some(i) =>
      var stopped := entries[i].(endedAt := Some(now));
      (entries[i := stopped], Some(stopped))
  }

  /** What `start_timer` returns besides the new state: the running entry and
      whether it was created by this call. */
  datatype Started = Started(db: Db, entry: TimeEntry, created: bool)

  /** `start_timer`. Unknown or foreign work: 404 and nothing changes. A running
      session: returned as is, `created` false, nothing appended. Otherwise one
      entry started at `now` is appended. Neither the work's end date nor its
      `closed_at` is consulted. */
  function StartTimer(db: Db, workId: Id, userId: Id, now: Instant, freshId: Id): (r: Result<Started, HttpError>)
    ensures r.Failure? <==> !Owns(db.works, workId, userId)
    ensures r.Failure? ==> r.error == NotFound("Work not found")
    ensures r.Success? && HasOpenEntry(db.entries, workId) ==>
              && r.value.db == db
              && !r.value.created
              && r.value.entry in db.entries
              && IsOpenFor(r.value.entry, workId)
    ensures r.Success? && !HasOpenEntry(db.entries, workId) ==>
              && r.value.created
              && r.value.entry == TimeEntry(freshId, workId, now, None, None)
              && r.value.db == db.(entries := db.entries + [r.value.entry])
  {
    match GetWorkOr404(db, workId, userId)
    case Failure(e) => Failure(e)
    case Success(_) =>
      match GetOpenEntry(db.entries, workId)
      case Some(i) => Success(Started(db, db.entries[i], false))
      case None =>
        var e := TimeEntry(freshId, workId, now, None, None);
        Success(Started(db.(entries := db.entries + [e]), e, true))
  }

  /** What `stop_timer` returns besides the new state: the stopped entry, or
      None when nothing was running. */
  datatype Stopped = Stopped(db: Db, entry: Option<TimeEntry>)

  /** `stop_timer`. Unknown or foreign work: 404. Nothing running: None and no
      change. Otherwise the running session, and only it, gets `ended_at = now`. */
  function StopTimer(db: Db, workId: Id, userId: Id, now: Instant): (r: Result<Stopped, HttpError>)
    ensures r.Failure? <==> !Owns(db.works, workId, userId)
    ensures r.Failure? ==> r.error == NotFound("Work not found")
    ensures r.Success? ==> r.value.db.works == db.works
    ensures r.Success? && !HasOpenEntry(db.entries, workId) ==> r.value == Stopped(db, None)
    ensures r.Success? && HasOpenEntry(db.entries, workId) ==>
              && r.value.entry.Some?
              && r.value.entry.value.endedAt == Some(now)
              && exists i | 0 <= i < |db.entries| ::
                   && IsOpenFor(db.entries[i], workId)
                   && r.value.entry.value == db.entries[i].(endedAt := Some(now))
                   && r.value.db.entries == db.entries[i := r.value.entry.value]
    ensures r.Success? && AtMostOneOpenPerWork(db.entries) ==> !HasOpenEntry(r.value.db.entries, workId)
  {
    match GetWorkOr404(db, workId, userId)
    case Failure(e) => Failure(e)
    case Success(_) =>
      var (entries, stopped) := EndOpenEntry(db.entries, workId, now);
      Success(Stopped(db.(entries := entries), stopped))
  }

  /** Starting keeps every schema guarantee, given a fresh entry id. */
  lemma StartPreservesValid(db: Db, workId: Id, userId: Id, now: Instant, freshId: Id)
    requires Valid(db) && !IsEntryId(db.entries, freshId)
    ensures StartTimer(db, workId, userId, now, freshId).Success? ==>
              Valid(StartTimer(db, workId, userId, now, freshId).value.db)
  {
    var r := StartTimer(db, workId, userId, now, freshId);
    if r.Success? && r.value.created {
      var es := r.value.db.entries;
      var n := |db.entries|;
      assert forall k | 0 <= k < n :: es[k] == db.entries[k];
      assert es[n] == TimeEntry(freshId, workId, now, None, None);
      assert IsWorkId(db.works, workId) by {
        assert Matches(db.works[GetWorkOr404(db, workId, userId).value], workId, userId);
      }
      assert !HasOpenEntry(db.entries, workId);
    }
  }

  /** Stopping keeps every schema guarantee. */
  lemma StopPreservesValid(db: Db, workId: Id, userId: Id, now: Instant)
    requires Valid(db)
    ensures StopTimer(db, workId, userId, now).Success? ==>
              Valid(StopTimer(db, workId, userId, now).value.db)
  {
    var r := StopTimer(db, workId, userId, now);
    if r.Success? {
      var es := r.value.db.entries;
      assert forall i | 0 <= i < |es| :: es[i].id == db.entries[i].id && es[i].workId == db.entries[i].workId;
    }
  }

  /** Under the index, a second start returns the very session the first one
      opened, unchanged, and changes nothing. */
  lemma StartTwice(db: Db, workId: Id, userId: Id, t1: Instant, t2: Instant, id1: Id, id2: Id)
    requires Valid(db) && !IsEntryId(db.entries, id1)
    requires StartTimer(db, workId, userId, t1, id1).Success?
    ensures var first := StartTimer(db, workId, userId, t1, id1).value;
            var second := StartTimer(first.db, workId, userId, t2, id2);
            && second.Success?
            && second.value == Started(first.db, first.entry, false)
  {
    var first := StartTimer(db, workId, userId, t1, id1).value;
    StartPreservesValid(db, workId, userId, t1, id1);
    var es := first.db.entries;
    var i :| 0 <= i < |es| && es[i] == first.entry;
    assert IsOpenFor(es[i], workId);
    OpenEntryIsUnique(es, workId, i);
  }

  /** Starting a work that was closed succeeds like starting any other work. */
  lemma StartIgnoresClosedAt(db: Db, i: nat, now: Instant, freshId: Id)
    requires i < |db.works| && db.works[i].closedAt.Some?
    ensures StartTimer(db, db.works[i].id, db.works[i].userId, now, freshId).Success?
  {
    assert Matches(db.works[i], db.works[i].id, db.works[i].userId);
  }

  /** Start then stop, on a work with nothing running: the ledger gains exactly
      one entry, closed, spanning `[t1, t2]`. */
  lemma StartThenStop(db: Db, workId: Id, userId: Id, t1: Instant, t2: Instant, freshId: Id)
    requires Valid(db) && !IsEntryId(db.entries, freshId)
    requires Owns(db.works, workId, userId) && !HasOpenEntry(db.entries, workId)
    ensures var s1 := StartTimer(db, workId, userId, t1, freshId).value.db;
            var s2 := StopTimer(s1, workId, userId, t2);
            && s2.Success?
            && s2.value.entry == Some(TimeEntry(freshId, workId, t1, Some(t2), None))
            && s2.value.db == db.(entries := db.entries + [TimeEntry(freshId, workId, t1, Some(t2), None)])
  {
    var s1 := StartTimer(db, workId, userId, t1, freshId).value.db;
    var n := |db.entries|;
    assert IsOpenFor(s1.entries[n], workId);
    OpenEntryIsUnique(s1.entries, workId, n);
    assert s1.entries[n := s1.entries[n].(endedAt := Some(t2))]
        == db.entries + [TimeEntry(freshId, workId, t1, Some(t2), None)];
  }
}
