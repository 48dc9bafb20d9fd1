/** The dashboard page (`src/pages/Dashboard.tsx`): the three report windows it
    requests, ending today, and the top of the 30-day breakdown it lists. */
module Dashboard {
  import opened Text
  import opened Calendar
  import opened Sorting
  import opened Reports
  import Ledger

  /** The `from`/`to` strings of one `getSummary` request. */
  datatype Window = Window(from: string, to: string)

  datatype Windows = Windows(today: Window, week: Window, month: Window)

  /** Today alone, the last 7 days and the last 30 days, today included. */
  function RequestedWindows(today: Date): (w: Windows)
    requires ValidDate(today)
    ensures w.today.from == w.today.to == w.week.to == w.month.to == IsoDate(today)
    ensures w.week.from == IsoAddDays(today, -6)
    ensures w.month.from == IsoAddDays(today, -29)
  {
    var t := IsoDate(today);
    Windows(Window(t, t), Window(IsoAddDays(today, -6), t), Window(IsoAddDays(today, -29), t))
  }

  /** Each window starts no later than it ends and, counted forward from its
      start, reaches today after 0, 6 and 29 days: 1, 7 and 30 days long. */
  lemma WindowsSpanTheirDays(today: Date)
    requires ValidDate(today)
    ensures !DateLt(today, AddDays(today, -6)) && !DateLt(today, AddDays(today, -29))
    ensures AddDays(AddDays(today, -6), 6) == today
    ensures AddDays(AddDays(today, -29), 29) == today
  {
    AddDaysAdd(today, -6, 6);
    AddDaysAdd(today, -29, 29);
  }

  /** Moving back `k` days loses at most `k` years. */
  lemma {:induction false} AddDaysBackYears(d: Date, k: nat)
    requires ValidDate(d)
    ensures d.year - k <= AddDays(d, -(k as int)).year <= d.year
    decreases k
  {
    if k > 0 {
      AddDaysBackYears(Prev(d), k - 1);
      AddDaysStepBack(d, -((k - 1) as int));
    }
  }

  /** Compared as strings, as the server compares `start_date` and `end_date`,
      every window's `from` is at most its `to`. */
  lemma WindowsAreOrderedAsStrings(today: Date)
    requires ValidDate(today) && 1029 <= today.year <= 9999
    ensures var w := RequestedWindows(today);
            && !StrLt(w.today.to, w.today.from)
            && !StrLt(w.week.to, w.week.from)
            && !StrLt(w.month.to, w.month.from)
  {
    StrLtIrreflexive(IsoDate(today));
    BackWindowOrdered(today, 6);
    BackWindowOrdered(today, 29);
  }

  /** A window reaching `k` days back, within four-digit years, starts no later
      than it ends as strings. */
  lemma BackWindowOrdered(today: Date, k: nat)
    requires ValidDate(today) && 1000 + k <= today.year <= 9999
    ensures !StrLt(IsoDate(today), IsoAddDays(today, -(k as int)))
  {
    AddDaysBackYears(today, k);
    IsoOrderIsChronological(today, AddDays(today, -(k as int)));
    if k > 0 {
      assert DateLt(AddDays(today, -(k as int)), today);
    }
  }

  /** How many rows "Top trabalhos (30 dias)" shows at most. */
  const TopWorksShown: nat := 6

  /** `by_work.slice(0, 6)`. */
  function TopWorks<T>(byWork: seq<T>): (r: seq<T>)
    ensures |r| == if |byWork| < TopWorksShown then |byWork| else TopWorksShown
    ensures r == byWork[..|r|]
  {
    if |byWork| <= TopWorksShown then byWork else byWork[..TopWorksShown]
  }

  /** The rows shown earned at least as much as every row left out. */
  lemma TopWorksEarnMost(db: Ledger.Db, userId: Ledger.Id, dateFrom: string, dateTo: string, dayFrom: int, dayTo: int)
    ensures var byWork := GetSummary(db, userId, dateFrom, dateTo, dayFrom, dayTo).byWork;
            var shown := TopWorks(byWork);
            forall i, j | 0 <= i < |shown| <= j < |byWork| ::
              shown[i].totalEarnedCents >= byWork[j].totalEarnedCents
  {
    var byWork := GetSummary(db, userId, dateFrom, dateTo, dayFrom, dayTo).byWork;
    TopOfSortedLeads(byWork);
  }

  /** The first rows of a list sorted by earnings earned at least as much as the rest. */
  lemma TopOfSortedLeads(byWork: seq<WorkSummary>)
    requires SortedBy(byWork, EarnsAtLeast)
    ensures var shown := TopWorks(byWork);
            forall i, j | 0 <= i < |shown| <= j < |byWork| ::
              shown[i].totalEarnedCents >= byWork[j].totalEarnedCents
  {
    var shown := TopWorks(byWork);
    forall i, j | 0 <= i < |shown| <= j < |byWork|
      ensures shown[i].totalEarnedCents >= byWork[j].totalEarnedCents
    {
      assert shown[i] == byWork[i];
      assert EarnsAtLeast(byWork[i], byWork[j]);
    }
  }
}
