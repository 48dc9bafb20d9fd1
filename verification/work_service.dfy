/** Closing a work (`app/services/work_service.py`). */
module WorkService {
  import opened Wrappers
  import opened TimeUtil
  import opened Ledger
  import opened TimerService

  /** `close_work`. Unknown or foreign work: 404 and nothing changes. Otherwise a
      running session is stopped first, then the work gets `closed_at` and
      `closed_reason` whatever they held before. The source reads the clock
      twice: `stopNow` for the session's end, `closeNow` for `closed_at`. */
  function CloseWork(db: Db, workId: Id, userId: Id, reason: Option<string>, stopNow: Instant, closeNow: Instant)
    : (r: Result<(Db, Work), HttpError>)
    ensures r.Failure? <==> !Owns(db.works, workId, userId)
    ensures r.Failure? ==> r.error == NotFound("Work not found")
    ensures r.Success? ==>
              exists i | 0 <= i < |db.works| ::
                && Matches(db.works[i], workId, userId)
                && r.value.1 == db.works[i].(closedAt := Some(closeNow), closedReason := reason)
                && r.value.0.works == db.works[i := r.value.1]
    ensures r.Success? && !HasOpenEntry(db.entries, workId) ==> r.value.0.entries == db.entries
    ensures r.Success? && HasOpenEntry(db.entries, workId) ==>
              exists i | 0 <= i < |db.entries| ::
                && IsOpenFor(db.entries[i], workId)
                && r.value.0.entries == db.entries[i := db.entries[i].(endedAt := Some(stopNow))]
    ensures r.Success? ==>
              forall k | 0 <= k < |db.entries| && db.entries[k].workId != workId ::
                r.value.0.entries[k] == db.entries[k]
    ensures r.Success? && AtMostOneOpenPerWork(db.entries) ==> !HasOpenEntry(r.value.0.entries, workId)
  {
    match GetWorkOr404(db, workId, userId)
    case Failure(e) => Failure(e)
    case Success(i) =>
      var (entries, _) := EndOpenEntry(db.entries, workId, stopNow);
      var w := db.works[i].(closedAt := Some(closeNow), closedReason := reason);
      Success((Db(db.works[i := w], entries), w))
  }

  /** Closing keeps every schema guarantee. */
  lemma CloseWorkPreservesValid(db: Db, workId: Id, userId: Id, reason: Option<string>, stopNow: Instant, closeNow: Instant)
    requires Valid(db)
    ensures CloseWork(db, workId, userId, reason, stopNow, closeNow).Success? ==>
              Valid(CloseWork(db, workId, userId, reason, stopNow, closeNow).value.0)
  {
    var r := CloseWork(db, workId, userId, reason, stopNow, closeNow);
    if r.Success? {
      var db' := r.value.0;
      assert forall k | 0 <= k < |db.works| :: db'.works[k].id == db.works[k].id;
      assert forall k | 0 <= k < |db.entries| :: db'.entries[k].id == db.entries[k].id && db'.entries[k].workId == db.entries[k].workId;
      forall k | 0 <= k < |db'.entries| ensures IsWorkId(db'.works, db'.entries[k].workId) {
        var j :| 0 <= j < |db.works| && db.works[j].id == db.entries[k].workId;
        assert db'.works[j].id == db.entries[k].workId;
      }
    }
  }

  /** Closing twice succeeds, and the second close's reason and time are what remain. */
  lemma CloseTwiceOverwrites(db: Db, workId: Id, userId: Id, r1: Option<string>, r2: Option<string>,
                             s1: Instant, c1: Instant, s2: Instant, c2: Instant)
    requires Valid(db) && Owns(db.works, workId, userId)
    ensures var first := CloseWork(db, workId, userId, r1, s1, c1);
            && first.Success?
            && var second := CloseWork(first.value.0, workId, userId, r2, s2, c2);
            && second.Success?
            && second.value.1.closedAt == Some(c2)
            && second.value.1.closedReason == r2
            && second.value.1 == first.value.1.(closedAt := Some(c2), closedReason := r2)
  {
    var first := CloseWork(db, workId, userId, r1, s1, c1);
    var i :| 0 <= i < |db.works| && Matches(db.works[i], workId, userId)
             && first.value.1 == db.works[i].(closedAt := Some(c1), closedReason := r1)
             && first.value.0.works == db.works[i := first.value.1];
    var db1 := first.value.0;
    assert Matches(db1.works[i], workId, userId);
    var second := CloseWork(db1, workId, userId, r2, s2, c2);
    var j :| 0 <= j < |db1.works| && Matches(db1.works[j], workId, userId)
             && second.value.1 == db1.works[j].(closedAt := Some(c2), closedReason := r2);
    assert db1.works[j].id == db.works[j].id;
  }

  /** A closed work can still be started: closing blocks nothing in the source. */
  lemma StartAfterClose(db: Db, workId: Id, userId: Id, reason: Option<string>, stopNow: Instant, closeNow: Instant,
                        now: Instant, freshId: Id)
    requires Valid(db) && Owns(db.works, workId, userId)
    ensures var closed := CloseWork(db, workId, userId, reason, stopNow, closeNow).value.0;
            var started := StartTimer(closed, workId, userId, now, freshId);
            && started.Success?
            && started.value.created
            && started.value.entry == TimeEntry(freshId, workId, now, None, None)
  {
    var closed := CloseWork(db, workId, userId, reason, stopNow, closeNow).value;
    var i :| 0 <= i < |db.works| && Matches(db.works[i], workId, userId)
             && closed.0.works == db.works[i := closed.1];
    assert Matches(closed.0.works[i], workId, userId);
  }

  /** `close_work` when the `Work` class maps the attributes in `mapped`. Setting
      an attribute the class does not map changes only the object in memory:
      the returned work carries both values, but the commit stores only mapped
      ones. The session stop is stored either way. */
  function CloseWorkWithMapping(mapped: set<string>, db: Db, workId: Id, userId: Id, reason: Option<string>,
                                stopNow: Instant, closeNow: Instant)
    : (r: Result<(Db, Work), HttpError>)
    ensures r.Failure? <==> !Owns(db.works, workId, userId)
    ensures r.Failure? ==> r == CloseWork(db, workId, userId, reason, stopNow, closeNow)
    ensures r.Success? ==>
              && r.value.1 == CloseWork(db, workId, userId, reason, stopNow, closeNow).value.1
              && r.value.0.entries == CloseWork(db, workId, userId, reason, stopNow, closeNow).value.0.entries
    ensures "closed_at" in mapped && "closed_reason" in mapped ==>
              r == CloseWork(db, workId, userId, reason, stopNow, closeNow)
    ensures r.Success? && "closed_at" !in mapped && "closed_reason" !in mapped ==> r.value.0.works == db.works
  {
    match GetWorkOr404(db, workId, userId)
    case Failure(e) => Failure(e)
    case Success(i) =>
      var (closed, w) := CloseWork(db, workId, userId, reason, stopNow, closeNow).value;
      var stored := db.works[i].(
        closedAt := if "closed_at" in mapped then w.closedAt else db.works[i].closedAt,
        closedReason := if "closed_reason" in mapped then w.closedReason else db.works[i].closedReason);
      assert "closed_at" !in mapped && "closed_reason" !in mapped ==> stored == db.works[i];
      Success((Db(db.works[i := stored], closed.entries), w))
  }

  lemma WorkMapsNoCloseFields()
    ensures "closed_at" !in WorkMapped && "closed_reason" !in WorkMapped
  {
  }

  /** As the classes are written, closing returns the closed work but stores
      no close field: a later read of the row sees the old `closed_at`, where
      the intended close stores `closeNow`. */
  lemma CloseAsWrittenIsNotStored(db: Db, workId: Id, userId: Id, reason: Option<string>,
                                  stopNow: Instant, closeNow: Instant)
    requires Owns(db.works, workId, userId)
    ensures var r := CloseWorkWithMapping(WorkMapped, db, workId, userId, reason, stopNow, closeNow);
            && r.Success?
            && r.value.1.closedAt == Some(closeNow)
            && r.value.0.works == db.works
    ensures exists i | 0 <= i < |db.works| ::
              && Matches(db.works[i], workId, userId)
              && CloseWorkWithMapping(WorkMapped, db, workId, userId, reason, stopNow, closeNow).value.0.works[i].closedAt
                 == db.works[i].closedAt
              && CloseWork(db, workId, userId, reason, stopNow, closeNow).value.0.works[i].closedAt == Some(closeNow)
  {
    WorkMapsNoCloseFields();
    var i :| 0 <= i < |db.works| && Matches(db.works[i], workId, userId)
             && CloseWork(db, workId, userId, reason, stopNow, closeNow).value.0.works
                == db.works[i := CloseWork(db, workId, userId, reason, stopNow, closeNow).value.1];
    assert CloseWork(db, workId, userId, reason, stopNow, closeNow).value.0.works[i].closedAt == Some(closeNow);
  }

  /** Mapping the two columns the migration adds makes the close persist as intended. */
  lemma CloseWithMigratedColumns(db: Db, workId: Id, userId: Id, reason: Option<string>,
                                 stopNow: Instant, closeNow: Instant)
    ensures CloseWorkWithMapping(WorkMapped + {"closed_at", "closed_reason"}, db, workId, userId, reason, stopNow, closeNow)
            == CloseWork(db, workId, userId, reason, stopNow, closeNow)
  {
  }
}
