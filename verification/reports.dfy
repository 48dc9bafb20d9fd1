/** The period summary (`app/services/reports_service.py`): closed,
    non-deleted sessions of the caller's works that started inside an
    inclusive UTC day window, totalled per work, priced once per work, and
    listed by earnings, highest first. */
module Reports {
  import opened Wrappers
  import opened TimeUtil
  import opened Money
  import opened Ledger
  import opened TimerService
  import opened Sorting

  const SecondsPerDay: int := 86400

  /** Midnight UTC at the start of `day`, counted in days since 1970-01-01. */
  function DayStart(day: int): (r: Instant)
    ensures r % (SecondsPerDay * MicrosPerSecond) == 0
    ensures r / (SecondsPerDay * MicrosPerSecond) == day
  {
    day * (SecondsPerDay * MicrosPerSecond)
  }

  /** 23:59:59 UTC on `day`, the inclusive upper bound of the query: the last
      whole second before the next midnight. */
  function WindowEnd(day: int): (r: Instant)
    ensures r / (SecondsPerDay * MicrosPerSecond) == day
    ensures DayStart(day) < r && r + MicrosPerSecond == DayStart(day + 1)
  {
    DayStart(day) + (SecondsPerDay - 1) * MicrosPerSecond
  }

  /** The filter of the entries query: the entry's work belongs to the caller,
      it is not deleted, it has ended, and it started within the window. */
  predicate Included(db: Db, userId: Id, dayFrom: int, dayTo: int, e: TimeEntry) {
    && Owns(db.works, e.workId, userId)
    && e.deletedAt.None?
    && e.endedAt.Some?
    && DayStart(dayFrom) <= e.startedAt <= WindowEnd(dayTo)
  }

  /** The rows the entries query returns, in table order. */
  function IncludedEntries(db: Db, userId: Id, dayFrom: int, dayTo: int): (r: seq<TimeEntry>)
    ensures forall e :: e in r <==> e in db.entries && Included(db, userId, dayFrom, dayTo, e)
  {
    FilterEntries(db, userId, dayFrom, dayTo, db.entries)
  }

  function FilterEntries(db: Db, userId: Id, dayFrom: int, dayTo: int, es: seq<TimeEntry>): (r: seq<TimeEntry>)
    ensures forall e :: e in r <==> e in es && Included(db, userId, dayFrom, dayTo, e)
  {
    if |es| == 0 then []
    else
      assert es == [es[0]] + es[1..];
      (if Included(db, userId, dayFrom, dayTo, es[0]) then [es[0]] else [])
      + FilterEntries(db, userId, dayFrom, dayTo, es[1..])
  }

  /** `seconds_between(started_at, ended_at)` of a closed entry. */
  function Duration(e: TimeEntry): (r: nat)
    ensures e.endedAt.None? ==> r == 0
    ensures e.endedAt.Some? && e.endedAt.value <= e.startedAt ==> r == 0
    ensures e.endedAt.Some? && e.endedAt.value >= e.startedAt ==>
              r * MicrosPerSecond <= e.endedAt.value - e.startedAt < (r + 1) * MicrosPerSecond
  {
    match e.endedAt
    case Some(t) => SecondsBetween(e.startedAt, t)
    case None => 0
  }

  /** Reference total: the durations of the work's entries in `es`, summed. */
  function SecondsOf(es: seq<TimeEntry>, workId: Id): nat {
    if |es| == 0 then 0
    else SecondsOf(es[..|es| - 1], workId) + (if es[|es| - 1].workId == workId then Duration(es[|es| - 1]) else 0)
  }

  /** A Python dict from work id to seconds, as pairs in insertion order. */
  type Totals = seq<(Id, int)>

  predicate KeysDistinct(t: Totals) {
    forall i, j | 0 <= i < |t| && 0 <= j < |t| :: t[i].0 == t[j].0 ==> i == j
  }

  predicate HasKey(t: Totals, id: Id) {
    exists k | 0 <= k < |t| :: t[k].0 == id
  }

  /** `t.get(id, 0)`. */
  function Lookup(t: Totals, id: Id): int {
    if |t| == 0 then 0
    else if t[0].0 == id then t[0].1
    else Lookup(t[1..], id)
  }

  lemma HasKeyCons(p: (Id, int), t: Totals, id: Id)
    ensures HasKey([p] + t, id) <==> p.0 == id || HasKey(t, id)
  {
    var r := [p] + t;
    assert r[0].0 == p.0;
    if HasKey(r, id) && p.0 != id {
      var k :| 0 <= k < |r| && r[k].0 == id;
      assert t[k - 1] == r[k];
    }
    if HasKey(t, id) {
      var k :| 0 <= k < |t| && t[k].0 == id;
      assert r[k + 1] == t[k];
    }
  }

  lemma KeysDistinctCons(p: (Id, int), t: Totals)
    ensures KeysDistinct([p] + t) <==> KeysDistinct(t) && !HasKey(t, p.0)
  {
    var r := [p] + t;
    assert r[0] == p;
    if KeysDistinct(r) {
      forall i, j | 0 <= i < |t| && 0 <= j < |t| && t[i].0 == t[j].0 ensures i == j {
        assert r[i + 1].0 == r[j + 1].0;
      }
      forall k | 0 <= k < |t| ensures t[k].0 != p.0 {
        assert r[k + 1] == t[k];
      }
    }
    if KeysDistinct(t) && !HasKey(t, p.0) {
      forall i, j | 0 <= i < |r| && 0 <= j < |r| && r[i].0 == r[j].0 ensures i == j {
        if i > 0 && j > 0 {
          assert t[i - 1].0 == t[j - 1].0;
        }
      }
    }
  }

  lemma {:induction false} LookupAt(t: Totals, k: nat)
    requires KeysDistinct(t) && k < |t|
    ensures Lookup(t, t[k].0) == t[k].1
  {
    if k > 0 {
      assert t == [t[0]] + t[1..];
      KeysDistinctCons(t[0], t[1..]);
      assert t[1..][k - 1] == t[k];
      LookupAt(t[1..], k - 1);
    }
  }

  /** `per_work_seconds[id] = per_work_seconds.get(id, 0) + sec`. */
  function AddSeconds(t: Totals, id: Id, sec: int): (r: Totals)
    ensures forall key :: HasKey(r, key) <==> HasKey(t, key) || key == id
    ensures KeysDistinct(t) ==> KeysDistinct(r)
    ensures KeysDistinct(t) ==> forall key :: Lookup(r, key) == Lookup(t, key) + (if key == id then sec else 0)
  {
    if |t| == 0 then
      assert forall key :: HasKey([(id, sec)], key) <==> key == id by {
        forall key ensures HasKey([(id, sec)], key) <==> key == id {
          HasKeyCons((id, sec), [], key);
        }
      }
      [(id, sec)]
    else
      assert t == [t[0]] + t[1..];
      KeysDistinctCons(t[0], t[1..]);
      if t[0].0 == id then
        var r := [(id, t[0].1 + sec)] + t[1..];
        KeysDistinctCons(r[0], t[1..]);
        assert forall key :: HasKey(r, key) <==> HasKey(t, key) by {
          forall key ensures HasKey(r, key) <==> HasKey(t, key) {
            HasKeyCons(r[0], t[1..], key);
            HasKeyCons(t[0], t[1..], key);
          }
        }
        r
      else
        var rest := AddSeconds(t[1..], id, sec);
        var r := [t[0]] + rest;
        assert r[1..] == rest;
        KeysDistinctCons(t[0], rest);
        assert forall key :: HasKey(r, key) <==> HasKey(t, key) || key == id by {
          forall key ensures HasKey(r, key) <==> HasKey(t, key) || key == id {
            HasKeyCons(t[0], rest, key);
            HasKeyCons(t[0], t[1..], key);
          }
        }
        r
  }

  /** Some entry of `es` belongs to the work. */
  predicate HasEntryFor(es: seq<TimeEntry>, workId: Id) {
    exists i | 0 <= i < |es| :: es[i].workId == workId
  }

  lemma HasEntryForSnoc(es: seq<TimeEntry>, workId: Id)
    requires |es| > 0
    ensures HasEntryFor(es, workId) <==> HasEntryFor(es[..|es| - 1], workId) || es[|es| - 1].workId == workId
  {
    var init := es[..|es| - 1];
    if HasEntryFor(init, workId) {
      var i :| 0 <= i < |init| && init[i].workId == workId;
      assert es[i] == init[i];
    }
    if HasEntryFor(es, workId) {
      var i :| 0 <= i < |es| && es[i].workId == workId;
      if i < |init| {
        assert init[i] == es[i];
      }
    }
  }

  /** The loop building `per_work_seconds`, one entry at a time: one pair per
      work that has entries, holding the reference total of that work. */
  function PerWorkSeconds(es: seq<TimeEntry>): (t: Totals)
    ensures KeysDistinct(t)
    ensures forall id :: HasKey(t, id) <==> HasEntryFor(es, id)
    ensures forall id :: Lookup(t, id) == SecondsOf(es, id)
  {
    if |es| == 0 then []
    else
      var last := es[|es| - 1];
      var t := AddSeconds(PerWorkSeconds(es[..|es| - 1]), last.workId, Duration(last));
      assert forall id :: HasEntryFor(es, id) <==> HasEntryFor(es[..|es| - 1], id) || id == last.workId by {
        forall id ensures HasEntryFor(es, id) <==> HasEntryFor(es[..|es| - 1], id) || id == last.workId {
          HasEntryForSnoc(es, id);
        }
      }
      t
  }

  /** The keys of a dict, in insertion order. */
  function KeysOf(t: Totals): (ks: seq<Id>)
    ensures |ks| == |t|
    ensures forall k | 0 <= k < |t| :: ks[k] == t[k].0
  {
    if |t| == 0 then [] else [t[0].0] + KeysOf(t[1..])
  }

  lemma KeysOfHas(t: Totals, id: Id)
    ensures HasKey(t, id) <==> id in KeysOf(t)
  {
    var ks := KeysOf(t);
    if id in ks {
      var k :| 0 <= k < |ks| && ks[k] == id;
      assert t[k].0 == id;
    }
  }

  /** Adding to a present key keeps the key order; a new key goes last. */
  lemma {:induction false} AddSecondsKeyOrder(t: Totals, id: Id, sec: int)
    ensures HasKey(t, id) ==> KeysOf(AddSeconds(t, id, sec)) == KeysOf(t)
    ensures !HasKey(t, id) ==> AddSeconds(t, id, sec) == t + [(id, sec)]
  {
    if |t| > 0 {
      assert t == [t[0]] + t[1..];
      HasKeyCons(t[0], t[1..], id);
      if t[0].0 != id {
        AddSecondsKeyOrder(t[1..], id, sec);
        var r := AddSeconds(t, id, sec);
        assert r == [t[0]] + AddSeconds(t[1..], id, sec);
        assert KeysOf(r) == [t[0].0] + KeysOf(AddSeconds(t[1..], id, sec));
      }
    }
  }

  /** The works of `es`, each once, in the order of its first entry. */
  function FirstSeen(es: seq<TimeEntry>): (ws: seq<Id>)
    ensures forall id :: id in ws <==> HasEntryFor(es, id)
  {
    if |es| == 0 then []
    else
      var init := FirstSeen(es[..|es| - 1]);
      var id := es[|es| - 1].workId;
      assert forall w :: HasEntryFor(es, w) <==> HasEntryFor(es[..|es| - 1], w) || w == id by {
        forall w ensures HasEntryFor(es, w) <==> HasEntryFor(es[..|es| - 1], w) || w == id {
          HasEntryForSnoc(es, w);
        }
      }
      if id in init then init else init + [id]
  }

  /** `per_work_seconds` holds its keys in the order each work first appears
      among the entries. */
  lemma {:induction false} PerWorkSecondsKeyOrder(es: seq<TimeEntry>)
    ensures KeysOf(PerWorkSeconds(es)) == FirstSeen(es)
  {
    if |es| > 0 {
      var init := es[..|es| - 1];
      var last := es[|es| - 1];
      var t := PerWorkSeconds(init);
      PerWorkSecondsKeyOrder(init);
      KeysOfHas(t, last.workId);
      AddSecondsKeyOrder(t, last.workId, Duration(last));
      if !HasKey(t, last.workId) {
        assert KeysOf(t + [(last.workId, Duration(last))]) == KeysOf(t) + [last.workId];
      }
    }
  }

  /** One row of `by_work`. */
  datatype WorkSummary = WorkSummary(
    workId: Id,
    title: string,
    sprintName: string,
    totalSeconds: int,
    totalEarnedCents: int,
    currency: string)

  /** The response of `get_summary`. */
  datatype Summary = Summary(
    from: string,
    to: string,
    totalSeconds: int,
    totalEarnedCents: int,
    currency: string,
    byWork: seq<WorkSummary>)

  const ReportCurrency: string := "BRL"

  /** A work's row: its own name and currency, its seconds, and those seconds
      priced once at its rate. */
  function SummaryOf(w: Work, sec: int): WorkSummary {
    WorkSummary(w.id, w.title, w.sprintName, sec, CentsFromHourlyRate(w.hourlyRateCents, sec), w.currency)
  }

  /** `item` is the row of a work the caller owns, priced for `sec` seconds. */
  predicate RowOf(works: seq<Work>, userId: Id, item: WorkSummary, sec: int) {
    && FindWork(works, item.workId, userId).Some?
    && item == SummaryOf(works[FindWork(works, item.workId, userId).value], sec)
  }

  predicate ListsWork(items: seq<WorkSummary>, id: Id) {
    exists k | 0 <= k < |items| :: items[k].workId == id
  }

  predicate WorkIdsDistinct(items: seq<WorkSummary>) {
    forall i, j | 0 <= i < |items| && 0 <= j < |items| :: items[i].workId == items[j].workId ==> i == j
  }

  lemma ListsWorkCons(x: WorkSummary, items: seq<WorkSummary>, id: Id)
    ensures ListsWork([x] + items, id) <==> x.workId == id || ListsWork(items, id)
  {
    var r := [x] + items;
    assert r[0] == x;
    if ListsWork(r, id) && x.workId != id {
      var k :| 0 <= k < |r| && r[k].workId == id;
      assert items[k - 1] == r[k];
    }
    if ListsWork(items, id) {
      var k :| 0 <= k < |items| && items[k].workId == id;
      assert r[k + 1] == items[k];
    }
  }

  lemma WorkIdsDistinctCons(x: WorkSummary, items: seq<WorkSummary>)
    requires WorkIdsDistinct(items) && !ListsWork(items, x.workId)
    ensures WorkIdsDistinct([x] + items)
  {
    var r := [x] + items;
    forall i, j | 0 <= i < |r| && 0 <= j < |r| && r[i].workId == r[j].workId ensures i == j {
      if i > 0 && j > 0 {
        assert items[i - 1].workId == items[j - 1].workId;
      }
    }
  }

  /** Every row is the caller's work priced at that work's total in `t`. */
  predicate RowsPriced(works: seq<Work>, userId: Id, t: Totals, items: seq<WorkSummary>) {
    forall k | 0 <= k < |items| :: RowOf(works, userId, items[k], Lookup(t, items[k].workId))
  }

  /** The rows list exactly the keys of `t` that are the caller's works. */
  ghost predicate RowsListed(works: seq<Work>, userId: Id, t: Totals, items: seq<WorkSummary>) {
    forall id :: ListsWork(items, id) <==> HasKey(t, id) && Owns(works, id, userId)
  }

  /** The loop over `per_work_seconds.items()`: one row per pair whose work is
      found among the caller's works, in dict order, priced at that pair's seconds. */
  function SummaryItems(works: seq<Work>, userId: Id, t: Totals): (items: seq<WorkSummary>)
    ensures KeysDistinct(t) ==> forall k | 0 <= k < |items| :: RowOf(works, userId, items[k], Lookup(t, items[k].workId))
    ensures forall id :: ListsWork(items, id) <==> HasKey(t, id) && Owns(works, id, userId)
    ensures KeysDistinct(t) ==> WorkIdsDistinct(items)
  {
    if |t| == 0 then []
    else
      var rest := SummaryItems(works, userId, t[1..]);
      assert RowsListed(works, userId, t[1..], rest);
      assert KeysDistinct(t[1..]) ==> RowsPriced(works, userId, t[1..], rest);
      match FindWork(works, t[0].0, userId)
      case None =>
        SkippedPair(works, userId, t, rest);
        rest
      case Some(i) =>
        var items := [SummaryOf(works[i], t[0].1)] + rest;
        ListedPair(works, userId, t, i, rest);
        items
  }

  /** Splitting off the first pair of `t`: its key and the rest's keys. */
  lemma FirstPair(t: Totals)
    requires |t| > 0
    ensures forall id :: HasKey(t, id) <==> id == t[0].0 || HasKey(t[1..], id)
    ensures KeysDistinct(t) <==> KeysDistinct(t[1..]) && !HasKey(t[1..], t[0].0)
  {
    assert t == [t[0]] + t[1..];
    KeysDistinctCons(t[0], t[1..]);
    forall id ensures HasKey(t, id) <==> id == t[0].0 || HasKey(t[1..], id) {
      HasKeyCons(t[0], t[1..], id);
    }
  }

  /** Lookups of other keys skip the first pair. */
  lemma RowsPricedPast(works: seq<Work>, userId: Id, t: Totals, rest: seq<WorkSummary>)
    requires |t| > 0
    requires RowsPriced(works, userId, t[1..], rest)
    requires RowsListed(works, userId, t[1..], rest)
    requires !HasKey(t[1..], t[0].0)
    ensures RowsPriced(works, userId, t, rest)
    ensures !ListsWork(rest, t[0].0)
  {
    forall k | 0 <= k < |rest| ensures RowOf(works, userId, rest[k], Lookup(t, rest[k].workId)) {
      assert ListsWork(rest, rest[k].workId);
      assert Lookup(t, rest[k].workId) == Lookup(t[1..], rest[k].workId);
    }
  }

  /** A pair whose work the caller does not own adds no row. */
  lemma SkippedPair(works: seq<Work>, userId: Id, t: Totals, rest: seq<WorkSummary>)
    requires |t| > 0 && !Owns(works, t[0].0, userId)
    requires KeysDistinct(t[1..]) ==> RowsPriced(works, userId, t[1..], rest)
    requires RowsListed(works, userId, t[1..], rest)
    requires KeysDistinct(t[1..]) ==> WorkIdsDistinct(rest)
    ensures KeysDistinct(t) ==> RowsPriced(works, userId, t, rest)
    ensures RowsListed(works, userId, t, rest)
    ensures KeysDistinct(t) ==> WorkIdsDistinct(rest)
  {
    FirstPair(t);
    if KeysDistinct(t) {
      RowsPricedPast(works, userId, t, rest);
    }
  }

  /** A pair whose work the caller owns adds that work's row in front. */
  lemma ListedPair(works: seq<Work>, userId: Id, t: Totals, i: nat, rest: seq<WorkSummary>)
    requires |t| > 0 && FindWork(works, t[0].0, userId) == Some(i)
    requires KeysDistinct(t[1..]) ==> RowsPriced(works, userId, t[1..], rest)
    requires RowsListed(works, userId, t[1..], rest)
    requires KeysDistinct(t[1..]) ==> WorkIdsDistinct(rest)
    ensures var items := [SummaryOf(works[i], t[0].1)] + rest;
            && (KeysDistinct(t) ==> RowsPriced(works, userId, t, items))
            && RowsListed(works, userId, t, items)
            && (KeysDistinct(t) ==> WorkIdsDistinct(items))
  {
    var item := SummaryOf(works[i], t[0].1);
    var items := [item] + rest;
    FirstPair(t);
    forall id ensures ListsWork(items, id) <==> HasKey(t, id) && Owns(works, id, userId) {
      ListsWorkCons(item, rest, id);
    }
    if KeysDistinct(t) {
      RowsPricedPast(works, userId, t, rest);
      WorkIdsDistinctCons(item, rest);
      assert items[0] == item;
      assert forall k | 1 <= k < |items| :: items[k] == rest[k - 1];
    }
  }

  /** `a` may be listed ahead of `b`: it earned at least as much. */
  function EarnsAtLeast(a: WorkSummary, b: WorkSummary): bool {
    a.totalEarnedCents >= b.totalEarnedCents
  }

  function ItemSeconds(w: WorkSummary): int { w.totalSeconds }

  function ItemCents(w: WorkSummary): int { w.totalEarnedCents }

  lemma EarnsAtLeastIsTotalPreorder()
    ensures TotalPreorder(EarnsAtLeast)
  {
  }

  /** Some entry in the window belongs to the work. */
  predicate HasIncludedEntry(db: Db, userId: Id, dayFrom: int, dayTo: int, workId: Id) {
    exists e | e in db.entries :: e.workId == workId && Included(db, userId, dayFrom, dayTo, e)
  }

  /** The rows of `by_work` before sorting, in dict order. */
  function UnsortedRows(db: Db, userId: Id, dayFrom: int, dayTo: int): seq<WorkSummary> {
    SummaryItems(db.works, userId, PerWorkSeconds(IncludedEntries(db, userId, dayFrom, dayTo)))
  }

  /** The row of the work is priced for the reference total of its included entries. */
  predicate RowIsExact(db: Db, userId: Id, dayFrom: int, dayTo: int, item: WorkSummary) {
    RowOf(db.works, userId, item, SecondsOf(IncludedEntries(db, userId, dayFrom, dayTo), item.workId))
  }

  lemma UnsortedRowsAreExact(db: Db, userId: Id, dayFrom: int, dayTo: int)
    ensures var rows := UnsortedRows(db, userId, dayFrom, dayTo);
            && WorkIdsDistinct(rows)
            && (forall k | 0 <= k < |rows| :: RowIsExact(db, userId, dayFrom, dayTo, rows[k]))
            && (forall id :: ListsWork(rows, id) <==>
                  Owns(db.works, id, userId) && HasIncludedEntry(db, userId, dayFrom, dayTo, id))
  {
    var included := IncludedEntries(db, userId, dayFrom, dayTo);
    forall id ensures HasEntryFor(included, id) <==> HasIncludedEntry(db, userId, dayFrom, dayTo, id) {
      if HasIncludedEntry(db, userId, dayFrom, dayTo, id) {
        var e :| e in db.entries && e.workId == id && Included(db, userId, dayFrom, dayTo, e);
        assert e in included;
      }
    }
  }

  lemma PermutationKeepsRows(a: seq<WorkSummary>, b: seq<WorkSummary>)
    requires multiset(a) == multiset(b)
    ensures forall w :: w in a <==> w in b
    ensures forall id :: ListsWork(a, id) <==> ListsWork(b, id)
  {
    forall w ensures w in a <==> w in b {
      assert w in a <==> w in multiset(a);
      assert w in b <==> w in multiset(b);
    }
    forall id | ListsWork(a, id) ensures ListsWork(b, id) {
      var k :| 0 <= k < |a| && a[k].workId == id;
      assert a[k] in b;
    }
    forall id | ListsWork(b, id) ensures ListsWork(a, id) {
      var k :| 0 <= k < |b| && b[k].workId == id;
      assert b[k] in a;
    }
  }

  /** `get_summary`. `dayFrom`/`dayTo` are the day numbers `date.fromisoformat`
      gives for `dateFrom`/`dateTo`. Each work with an included entry is listed
      once, at the reference total of its included entries priced once at its
      rate; the totals add up the rows; rows come highest earnings first. */
  function GetSummary(db: Db, userId: Id, dateFrom: string, dateTo: string, dayFrom: int, dayTo: int): (s: Summary)
    ensures s.from == dateFrom && s.to == dateTo
    ensures s.currency == ReportCurrency
    ensures s.totalSeconds == SumBy(s.byWork, ItemSeconds)
    ensures s.totalEarnedCents == SumBy(s.byWork, ItemCents)
    ensures SortedBy(s.byWork, EarnsAtLeast)
    ensures WorkIdsDistinct(s.byWork)
    ensures forall id :: ListsWork(s.byWork, id) <==>
              Owns(db.works, id, userId) && HasIncludedEntry(db, userId, dayFrom, dayTo, id)
    ensures forall k | 0 <= k < |s.byWork| :: RowIsExact(db, userId, dayFrom, dayTo, s.byWork[k])
  {
    var items := UnsortedRows(db, userId, dayFrom, dayTo);
    var byWork := SortBy(items, EarnsAtLeast);
    SortedRowsAddUp(items);
    SortedRowsAreExact(db, userId, dayFrom, dayTo);
    Summary(dateFrom, dateTo, SumBy(items, ItemSeconds), SumBy(items, ItemCents), ReportCurrency, byWork)
  }

  /** Sorting by earnings orders the rows and keeps both totals. */
  lemma SortedRowsAddUp(items: seq<WorkSummary>)
    ensures var byWork := SortBy(items, EarnsAtLeast);
            && SortedBy(byWork, EarnsAtLeast)
            && SumBy(byWork, ItemSeconds) == SumBy(items, ItemSeconds)
            && SumBy(byWork, ItemCents) == SumBy(items, ItemCents)
  {
    EarnsAtLeastIsTotalPreorder();
    SortIsSorted(items, EarnsAtLeast);
    SortKeepsSum(items, EarnsAtLeast, ItemSeconds);
    SortKeepsSum(items, EarnsAtLeast, ItemCents);
  }

  /** Sorting keeps the rows exactly those of the owned works with an
      included entry, one each, priced exactly. */
  lemma SortedRowsAreExact(db: Db, userId: Id, dayFrom: int, dayTo: int)
    ensures var byWork := SortBy(UnsortedRows(db, userId, dayFrom, dayTo), EarnsAtLeast);
            && WorkIdsDistinct(byWork)
            && (forall id :: ListsWork(byWork, id) <==>
                  Owns(db.works, id, userId) && HasIncludedEntry(db, userId, dayFrom, dayTo, id))
            && (forall k | 0 <= k < |byWork| :: RowIsExact(db, userId, dayFrom, dayTo, byWork[k]))
  {
    var items := UnsortedRows(db, userId, dayFrom, dayTo);
    var byWork := SortBy(items, EarnsAtLeast);
    UnsortedRowsAreExact(db, userId, dayFrom, dayTo);
    PermutationKeepsDistinctIds(items, byWork);
    PermutationKeepsRows(items, byWork);
    forall k | 0 <= k < |byWork| ensures RowIsExact(db, userId, dayFrom, dayTo, byWork[k]) {
      assert byWork[k] in items;
      var j :| 0 <= j < |items| && items[j] == byWork[k];
    }
  }

  lemma PermutationKeepsDistinctIds(a: seq<WorkSummary>, b: seq<WorkSummary>)
    requires multiset(a) == multiset(b)
    requires WorkIdsDistinct(a)
    ensures WorkIdsDistinct(b)
  {
    forall i, j | 0 <= i < |b| && 0 <= j < |b| && b[i].workId == b[j].workId ensures i == j {
      if i != j {
        assert b[i] in multiset(a) && b[j] in multiset(a);
        var p :| 0 <= p < |a| && a[p] == b[i];
        var q :| 0 <= q < |a| && a[q] == b[j];
        assert p == q;
        OccursOnce(a, p);
        OccursTwice(b, i, j);
        assert false;
      }
    }
  }

  lemma OccursOnce(a: seq<WorkSummary>, p: nat)
    requires WorkIdsDistinct(a) && p < |a|
    ensures multiset(a)[a[p]] == 1
  {
    var x := a[p];
    assert a == a[..p] + [x] + a[p + 1..];
    assert multiset(a) == multiset(a[..p]) + multiset{x} + multiset(a[p + 1..]);
  }

  lemma OccursTwice(b: seq<WorkSummary>, i: nat, j: nat)
    requires i < |b| && j < |b| && i != j && b[i] == b[j]
    ensures multiset(b)[b[i]] >= 2
  {
    var lo := if i < j then i else j;
    var hi := if i < j then j else i;
    assert b == b[..lo] + [b[lo]] + b[lo + 1..hi] + [b[hi]] + b[hi + 1..];
    assert multiset(b) == multiset(b[..lo]) + multiset{b[lo]} + multiset(b[lo + 1..hi]) + multiset{b[hi]} + multiset(b[hi + 1..]);
  }

  /** An empty or inverted window (`date_from > date_to`) reports nothing. */
  lemma InvertedWindowIsEmpty(db: Db, userId: Id, dateFrom: string, dateTo: string, dayFrom: int, dayTo: int)
    requires dayFrom > dayTo
    ensures var s := GetSummary(db, userId, dateFrom, dateTo, dayFrom, dayTo);
            s.totalSeconds == 0 && s.totalEarnedCents == 0 && s.byWork == []
  {
    var s := GetSummary(db, userId, dateFrom, dateTo, dayFrom, dayTo);
    assert DayStart(dayFrom) >= DayStart(dayTo + 1) by {
      var c := SecondsPerDay * MicrosPerSecond;
      assert DayStart(dayFrom) - DayStart(dayTo + 1) == (dayFrom - dayTo - 1) * c;
    }
  }

  /** Equal earnings keep the order of the works' first entries: `by_work` is
      a stable sort of the rows in dict order. */
  lemma SummaryOrderIsStable(db: Db, userId: Id, dateFrom: string, dateTo: string, dayFrom: int, dayTo: int, z: WorkSummary)
    ensures var items := UnsortedRows(db, userId, dayFrom, dayTo);
            TiesWith(GetSummary(db, userId, dateFrom, dateTo, dayFrom, dayTo).byWork, z, EarnsAtLeast)
            == TiesWith(items, z, EarnsAtLeast)
  {
    var items := UnsortedRows(db, userId, dayFrom, dayTo);
    EarnsAtLeastIsTotalPreorder();
    SortIsStable(items, z, EarnsAtLeast);
  }

  /** Pricing the total once can differ from pricing each entry: two half
      hours at 1 cent an hour earn 1 cent together but 0 each. */
  lemma PricedOncePerWork()
    ensures CentsFromHourlyRate(1, 1800 + 1800) == 1
    ensures CentsFromHourlyRate(1, 1800) + CentsFromHourlyRate(1, 1800) == 0
    ensures CentsFromHourlyRate(3500, 1800 + 3600) == 5250
  {
    CentsExamples();
    CentsForWholeHours(1, 1);
    RoundHalfEvenUnique(3500 * 5400, 3600, 5250);
  }

  /** The `TimeEntry` class attributes the entries query names while it is
      built, in the order it names them (`work_id` in the join, then the
      filters on `deleted_at`, `ended_at` and `started_at`). */
  const QueriedEntryAttributes: seq<string> := ["work_id", "deleted_at", "ended_at", "started_at"]

  /** `get_summary` when the `TimeEntry` class maps the attributes in `mapped`.
      Naming an attribute the class lacks raises `AttributeError` before the
      query runs; nothing catches it, so the request answers 500. */
  function SummaryWithMapping(mapped: set<string>, db: Db, userId: Id, dateFrom: string, dateTo: string,
                              dayFrom: int, dayTo: int): (r: Result<Summary, HttpError>)
    ensures r.Failure? <==> exists k | 0 <= k < |QueriedEntryAttributes| :: QueriedEntryAttributes[k] !in mapped
    ensures r.Failure? ==> r.error == ServerError
    ensures r.Success? ==> r.value == GetSummary(db, userId, dateFrom, dateTo, dayFrom, dayTo)
  {
    if forall k | 0 <= k < |QueriedEntryAttributes| :: QueriedEntryAttributes[k] in mapped then
      Success(GetSummary(db, userId, dateFrom, dateTo, dayFrom, dayTo))
    else
      Failure(ServerError)
  }

  lemma TimeEntryMapsNoDeletedAt()
    ensures QueriedEntryAttributes[1] == "deleted_at" && "deleted_at" !in TimeEntryMapped
  {
  }

  /** As the classes are written, every summary request fails with a 500,
      whatever the data and the dates. */
  lemma SummaryAsWrittenFails(db: Db, userId: Id, dateFrom: string, dateTo: string, dayFrom: int, dayTo: int)
    ensures SummaryWithMapping(TimeEntryMapped, db, userId, dateFrom, dateTo, dayFrom, dayTo) == Failure(ServerError)
  {
    TimeEntryMapsNoDeletedAt();
  }

  /** With every migrated column mapped, the request answers the summary. */
  lemma SummaryWithMigratedColumns(db: Db, userId: Id, dateFrom: string, dateTo: string, dayFrom: int, dayTo: int)
    ensures SummaryWithMapping(TimeEntryColumns, db, userId, dateFrom, dateTo, dayFrom, dayTo)
            == Success(GetSummary(db, userId, dateFrom, dateTo, dayFrom, dayTo))
  {
  }
}
