/** The timer endpoints (`app/api/routes/timer.py`): the service result mapped
    to the response statuses `started` / `already_running` / `stopped` /
    `not_running`. */
module TimerRoutes {
  import opened Wrappers
  import opened TimeUtil
  import opened Ledger
  import opened TimerService

  datatype TimerStartResponse = TimerStartResponse(status: string, entryId: Option<Id>, startedAt: Option<Instant>)

  datatype TimerStopResponse = TimerStopResponse(status: string, entryId: Option<Id>, endedAt: Option<Instant>)

  /** `POST /works/{id}/timer/start`: "started" for a new session,
      "already_running" for an existing one, carrying that session's id and start. */
  function TimerStart(db: Db, workId: Id, userId: Id, now: Instant, freshId: Id): (r: Result<(Db, TimerStartResponse), HttpError>)
    ensures r.Failure? <==> !Owns(db.works, workId, userId)
    ensures r.Failure? ==> r.error == NotFound("Work not found")
    ensures r.Success? && !HasOpenEntry(db.entries, workId) ==>
              r.value.1 == TimerStartResponse("started", Some(freshId), Some(now))
    ensures r.Success? && HasOpenEntry(db.entries, workId) ==>
              && r.value.0 == db
              && r.value.1.status == "already_running"
              && exists i | 0 <= i < |db.entries| ::
                   && IsOpenFor(db.entries[i], workId)
                   && r.value.1.entryId == Some(db.entries[i].id)
                   && r.value.1.startedAt == Some(db.entries[i].startedAt)
  {
    match StartTimer(db, workId, userId, now, freshId)
    case Failure(e) => Failure(e)
    case Success(s) =>
      var status := if s.created then "started" else "already_running";
      Success((s.db, TimerStartResponse(status, Some(s.entry.id), Some(s.entry.startedAt))))
  }

  /** `POST /works/{id}/timer/stop`: "not_running" with no id or end when
      nothing ran, else "stopped" with the session's id and its new end `now`. */
  function TimerStop(db: Db, workId: Id, userId: Id, now: Instant): (r: Result<(Db, TimerStopResponse), HttpError>)
    ensures r.Failure? <==> !Owns(db.works, workId, userId)
    ensures r.Failure? ==> r.error == NotFound("Work not found")
    ensures r.Success? && !HasOpenEntry(db.entries, workId) ==>
              r.value == (db, TimerStopResponse("not_running", None, None))
    ensures r.Success? && HasOpenEntry(db.entries, workId) ==>
              && r.value.1.status == "stopped"
              && r.value.1.endedAt == Some(now)
              && exists i | 0 <= i < |db.entries| ::
                   IsOpenFor(db.entries[i], workId) && r.value.1.entryId == Some(db.entries[i].id)
  {
    match StopTimer(db, workId, userId, now)
    case Failure(e) => Failure(e)
    case Success(s) =>
      match s.entry
      case None => Success((s.db, TimerStopResponse("not_running", None, None)))
      case Some(e) => Success((s.db, TimerStopResponse("stopped", Some(e.id), e.endedAt)))
  }

  /** A double start echoes the first start: the same session,
      same id, same original `started_at`, whatever the second clock reading. */
  lemma DoubleStartEchoesOriginal(db: Db, workId: Id, userId: Id, t1: Instant, t2: Instant, id1: Id, id2: Id)
    requires Valid(db) && !IsEntryId(db.entries, id1)
    requires Owns(db.works, workId, userId)
    ensures var first := TimerStart(db, workId, userId, t1, id1).value;
            var second := TimerStart(first.0, workId, userId, t2, id2);
            && second.Success?
            && second.value.0 == first.0
            && second.value.1 == first.1.(status := "already_running")
  {
    StartTwice(db, workId, userId, t1, t2, id1, id2);
  }

  /** Stopping twice: the second stop reports "not_running" and changes nothing. */
  lemma DoubleStopIsNotRunning(db: Db, workId: Id, userId: Id, t1: Instant, t2: Instant)
    requires Valid(db) && Owns(db.works, workId, userId)
    ensures var first := TimerStop(db, workId, userId, t1).value;
            TimerStop(first.0, workId, userId, t2) == Success((first.0, TimerStopResponse("not_running", None, None)))
  {
  }
}
