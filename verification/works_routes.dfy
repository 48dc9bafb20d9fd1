/** The works endpoints (`app/api/routes/works.py`): creating a work and
    listing the caller's works. */
module WorksRoutes {
  import opened Wrappers
  import opened Text
  import opened Ledger
  import opened WorkSchema
  import opened Sorting

  datatype WorkListItem = WorkListItem(id: Id, title: string, sprintName: string, hourlyRateCents: int, currency: string)

  const StartAfterEndDetail: string := "start_date cannot be after end_date"

  /** `create_work`: 400 when `start_date > end_date` as strings, nothing stored;
      otherwise one work owned by the caller is appended with the request's
      fields verbatim, not closed, and its id returned. */
  function CreateWork(db: Db, userId: Id, payload: WorkCreateRequest, freshId: Id): (r: Result<(Db, Id), HttpError>)
    ensures r.Failure? <==> StrLt(payload.endDate, payload.startDate)
    ensures r.Failure? ==> r.error == BadRequest(StartAfterEndDetail)
    ensures r.Success? ==>
              && r.value.1 == freshId
              && r.value.0.entries == db.entries
              && r.value.0.works == db.works + [Work(freshId, userId, payload.title, payload.sprintName,
                                                     payload.startDate, payload.endDate,
                                                     payload.hourlyRateCents, payload.currency, None, None)]
  {
    if StrLt(payload.endDate, payload.startDate) then
      Failure(BadRequest(StartAfterEndDetail))
    else
      var w := Work(freshId, userId, payload.title, payload.sprintName, payload.startDate, payload.endDate,
                    payload.hourlyRateCents, payload.currency, None, None);
      Success((db.(works := db.works + [w]), freshId))
  }

  /** A work may start and end on the same day. */
  lemma CreateWorkAcceptsEqualDates(db: Db, userId: Id, payload: WorkCreateRequest, freshId: Id)
    requires payload.startDate == payload.endDate
    ensures CreateWork(db, userId, payload, freshId).Success?
  {
    StrLtIrreflexive(payload.startDate);
  }

  /** Creating keeps every schema guarantee, given a fresh work id. */
  lemma CreateWorkPreservesValid(db: Db, userId: Id, payload: WorkCreateRequest, freshId: Id)
    requires Valid(db) && !IsWorkId(db.works, freshId)
    ensures CreateWork(db, userId, payload, freshId).Success? ==>
              Valid(CreateWork(db, userId, payload, freshId).value.0)
  {
    var r := CreateWork(db, userId, payload, freshId);
    if r.Success? {
      var ws := r.value.0.works;
      assert forall k | 0 <= k < |db.works| :: ws[k] == db.works[k];
      forall i | 0 <= i < |db.entries| ensures IsWorkId(ws, db.entries[i].workId) {
        var j :| 0 <= j < |db.works| && db.works[j].id == db.entries[i].workId;
        assert ws[j] == db.works[j];
      }
    }
  }

  /** `a` lists no later than `b` under `ORDER BY start_date DESC`. */
  function StartsNoEarlier(a: Work, b: Work): bool {
    !StrLt(a.startDate, b.startDate)
  }

  lemma StartsNoEarlierIsTotalPreorder()
    ensures TotalPreorder(StartsNoEarlier)
  {
    forall a: Work, b: Work ensures StartsNoEarlier(a, b) || StartsNoEarlier(b, a) {
      StrLtTrichotomy(a.startDate, b.startDate);
    }
    forall a: Work, b: Work, c: Work | StartsNoEarlier(a, b) && StartsNoEarlier(b, c)
      ensures StartsNoEarlier(a, c)
    {
      StrLtTrichotomy(a.startDate, b.startDate);
      StrLtTrichotomy(b.startDate, c.startDate);
      StrLtTrichotomy(a.startDate, c.startDate);
      if StrLt(a.startDate, c.startDate) {
        if StrLt(c.startDate, b.startDate) {
          StrLtTransitive(a.startDate, c.startDate, b.startDate);
        } else if StrLt(b.startDate, a.startDate) {
          StrLtTransitive(b.startDate, a.startDate, c.startDate);
        }
      }
    }
  }

  /** The caller's works, in table order. */
  function UserWorks(works: seq<Work>, userId: Id): (r: seq<Work>)
    ensures forall w :: w in r <==> w in works && w.userId == userId
  {
    if |works| == 0 then []
    else
      assert works == [works[0]] + works[1..];
      (if works[0].userId == userId then [works[0]] else []) + UserWorks(works[1..], userId)
  }

  /** The query of `list_works`: exactly the caller's works, newest `start_date`
      first (code-point order of the stored strings), equal dates in table order. */
  function ListWorksQuery(db: Db, userId: Id): (r: seq<Work>)
    ensures forall w :: w in r <==> w in db.works && w.userId == userId
    ensures multiset(r) == multiset(UserWorks(db.works, userId))
    ensures forall i, j | 0 <= i < j < |r| :: !StrLt(r[i].startDate, r[j].startDate)
  {
    var mine := UserWorks(db.works, userId);
    var r := SortBy(mine, StartsNoEarlier);
    StartsNoEarlierIsTotalPreorder();
    SortIsSorted(mine, StartsNoEarlier);
    assert forall w :: w in r <==> w in multiset(r);
    assert forall w :: w in mine <==> w in multiset(mine);
    r
  }

  /** One `WorkListItem` of the response: the work's identity, title, sprint and
      pricing, without its owner, dates or close state. */
  function ToListItem(w: Work): (r: WorkListItem)
    ensures r.id == w.id && r.title == w.title && r.sprintName == w.sprintName
    ensures r.hourlyRateCents == w.hourlyRateCents && r.currency == w.currency
  {
    WorkListItem(w.id, w.title, w.sprintName, w.hourlyRateCents, w.currency)
  }

  /** `list_works`: one item per row of the query, copying id, title, sprint name,
      rate and currency. */
  function ListWorks(db: Db, userId: Id): (items: seq<WorkListItem>)
    ensures var q := ListWorksQuery(db, userId);
            |items| == |q| && forall k | 0 <= k < |q| :: items[k] == ToListItem(q[k])
  {
    var q := ListWorksQuery(db, userId);
    seq(|q|, k requires 0 <= k < |q| => ToListItem(q[k]))
  }

  /** Create then list: the new work is listed with the id returned and the
      request's title, sprint name, rate and currency. */
  lemma CreateThenList(db: Db, userId: Id, payload: WorkCreateRequest, freshId: Id)
    requires CreateWork(db, userId, payload, freshId).Success?
    ensures var db' := CreateWork(db, userId, payload, freshId).value.0;
            WorkListItem(freshId, payload.title, payload.sprintName, payload.hourlyRateCents, payload.currency)
              in ListWorks(db', userId)
  {
    var db' := CreateWork(db, userId, payload, freshId).value.0;
    var w := db'.works[|db.works|];
    assert w in db'.works && w.userId == userId;
    var q := ListWorksQuery(db', userId);
    var k :| 0 <= k < |q| && q[k] == w;
    assert ListWorks(db', userId)[k] == ToListItem(w);
  }

  /** Listing shows nobody else's works. */
  lemma ListWorksOnlyOwn(db: Db, userId: Id, item: WorkListItem)
    requires item in ListWorks(db, userId)
    ensures exists w | w in db.works :: w.userId == userId && ToListItem(w) == item
  {
    var q := ListWorksQuery(db, userId);
    var k :| 0 <= k < |q| && ListWorks(db, userId)[k] == item;
    assert q[k] in q;
  }
}
