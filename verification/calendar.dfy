/** Calendar days of the proleptic Gregorian calendar, as the browser's `Date`
    steps through them in `isoAddDays` (`src/pages/Dashboard.tsx`): moving a
    day at a time across month and year ends, and writing `YYYY-MM-DD`. */
module Calendar {
  import opened Wrappers
  import opened Text

  datatype Date = Date(year: int, month: int, day: int)

  predicate IsLeapYear(y: int) {
    (y % 4 == 0 && y % 100 != 0) || y % 400 == 0
  }

  function DaysInMonth(y: int, m: int): (n: int)
    requires 1 <= m <= 12
    ensures 28 <= n <= 31
  {
    if m == 2 then (if IsLeapYear(y) then 29 else 28)
    else if m == 4 || m == 6 || m == 9 || m == 11 then 30
    else 31
  }

  predicate ValidDate(d: Date) {
    1 <= d.month <= 12 && 1 <= d.day <= DaysInMonth(d.year, d.month)
  }

  /** Chronological order. */
  predicate DateLt(a: Date, b: Date) {
    || a.year < b.year
    || (a.year == b.year && a.month < b.month)
    || (a.year == b.year && a.month == b.month && a.day < b.day)
  }

  /** The following day. */
  function Next(d: Date): (r: Date)
    requires ValidDate(d)
    ensures ValidDate(r) && DateLt(d, r)
  {
    if d.day < DaysInMonth(d.year, d.month) then Date(d.year, d.month, d.day + 1)
    else if d.month < 12 then Date(d.year, d.month + 1, 1)
    else Date(d.year + 1, 1, 1)
  }

  /** The preceding day. */
  function Prev(d: Date): (r: Date)
    requires ValidDate(d)
    ensures ValidDate(r) && DateLt(r, d)
  {
    if d.day > 1 then Date(d.year, d.month, d.day - 1)
    else if d.month > 1 then Date(d.year, d.month - 1, DaysInMonth(d.year, d.month - 1))
    else Date(d.year - 1, 12, 31)
  }

  lemma PrevNext(d: Date)
    requires ValidDate(d)
    ensures Prev(Next(d)) == d
  {
  }

  lemma NextPrev(d: Date)
    requires ValidDate(d)
    ensures Next(Prev(d)) == d
  {
  }

  /** No valid day lies strictly between a day and the next one. */
  lemma NextIsImmediate(d: Date, e: Date)
    requires ValidDate(d) && ValidDate(e)
    requires DateLt(d, e)
    ensures !DateLt(e, Next(d))
  {
  }

  /** `d.setDate(d.getDate() + days)`: `days` steps forward, or backward when negative. */
  function AddDays(d: Date, days: int): (r: Date)
    requires ValidDate(d)
    ensures ValidDate(r)
    ensures days > 0 ==> DateLt(d, r)
    ensures days < 0 ==> DateLt(r, d)
    decreases if days >= 0 then days else -days
  {
    if days == 0 then d
    else if days > 0 then AddDays(Next(d), days - 1)
    else AddDays(Prev(d), days + 1)
  }

  lemma AddDaysStepForward(d: Date, k: int)
    requires ValidDate(d)
    ensures AddDays(Next(d), k) == AddDays(d, k + 1)
  {
    if k < 0 {
      PrevNext(d);
    }
  }

  lemma AddDaysStepBack(d: Date, k: int)
    requires ValidDate(d)
    ensures AddDays(Prev(d), k) == AddDays(d, k - 1)
  {
    if k > 0 {
      NextPrev(d);
    }
  }

  /** Moving `a` days and then `b` days is moving `a + b` days. */
  lemma {:induction false} AddDaysAdd(d: Date, a: int, b: int)
    requires ValidDate(d)
    ensures AddDays(AddDays(d, a), b) == AddDays(d, a + b)
    decreases if a >= 0 then a else -a
  {
    if a > 0 {
      AddDaysAdd(Next(d), a - 1, b);
      AddDaysStepForward(d, a - 1 + b);
    } else if a < 0 {
      AddDaysAdd(Prev(d), a + 1, b);
      AddDaysStepBack(d, a + 1 + b);
    }
  }

  /** JavaScript `String(year)`: no padding, a minus sign before negative years. */
  function YearString(y: int): (r: string)
    ensures y >= 0 ==> AllDigits(r) && DecimalValue(r) == y && |r| >= 1
  {
    if y < 0 then "-" + NatToString(-y) else NatToString(y)
  }

  /** Four-digit years write as four characters. */
  lemma YearStringWidth(y: int)
    ensures 1000 <= y <= 9999 ==> |YearString(y)| == 4
  {
    if 1000 <= y <= 9999 {
      NatToStringWidth(y, 4);
      NatToStringWidth(y, 3);
      assert Pow10(3) == 1000 && Pow10(4) == 10000;
    }
  }

  /** `${yyyy}-${mm}-${dd}` with month and day padded to two digits. */
  function IsoDate(d: Date): (r: string)
    requires ValidDate(d)
    ensures |r| >= 7 && r[|r| - 6] == '-' && r[|r| - 3] == '-'
    ensures 1000 <= d.year <= 9999 ==> |r| == 10
  {
    var mm := ZeroPad(d.month, 2);
    var dd := ZeroPad(d.day, 2);
    assert Pow10(2) == 100;
    YearStringWidth(d.year);
    YearString(d.year) + ("-" + mm + ("-" + dd))
  }

  /** `isoAddDays`, given the day its `iso` argument denotes. */
  function IsoAddDays(d: Date, days: int): (r: string)
    requires ValidDate(d)
    ensures AddDays(d, days).year >= 0 ==> ParseIso(r) == Some(AddDays(d, days))
  {
    var target := AddDays(d, days);
    if target.year >= 0 then
      IsoDateRoundTrip(target);
      IsoDate(target)
    else
      IsoDate(target)
  }

  /** Reads `Y-MM-DD` (non-negative year, two-digit month and day) back into a
      valid day, if it is one. */
  function ParseIso(s: string): (r: Option<Date>)
    ensures r.Some? ==> ValidDate(r.value) && r.value.year >= 0
  {
    var p := Split(s, '-');
    if && |p| == 3
       && |p[0]| >= 1 && |p[1]| == 2 && |p[2]| == 2
       && AllDigits(p[0]) && AllDigits(p[1]) && AllDigits(p[2])
       && ValidDate(Date(DecimalValue(p[0]), DecimalValue(p[1]), DecimalValue(p[2])))
    then Some(Date(DecimalValue(p[0]), DecimalValue(p[1]), DecimalValue(p[2])))
    else None
  }

  /** The written day reads back as itself. */
  lemma IsoDateRoundTrip(d: Date)
    requires ValidDate(d) && d.year >= 0
    ensures ParseIso(IsoDate(d)) == Some(d)
  {
    var pieces := [YearString(d.year), ZeroPad(d.month, 2), ZeroPad(d.day, 2)];
    assert Pow10(2) == 100;
    forall k | 0 <= k < 3 ensures '-' !in pieces[k] {
      assert AllDigits(pieces[k]);
    }
    JoinThree(pieces[0], pieces[1], pieces[2], '-');
    SplitJoin(pieces, '-');
  }

  /** Moving zero days writes the day unchanged. */
  lemma IsoAddZero(d: Date)
    requires ValidDate(d) && d.year >= 0
    ensures ParseIso(IsoAddDays(d, 0)) == Some(d)
  {
    IsoDateRoundTrip(d);
  }

  lemma TwoDigits(n: nat)
    requires 10 <= n <= 99
    ensures ZeroPad(n, 2) == [DigitChar(n / 10), DigitChar(n % 10)]
  {
    assert NatToString(n / 10) == [DigitChar(n / 10)];
  }

  lemma OneDigit(n: nat)
    requires n <= 9
    ensures ZeroPad(n, 2) == ['0', DigitChar(n)]
  {
  }

  /** A year of four digits writes each of them, most significant first. */
  lemma FourDigits(n: nat)
    requires 1000 <= n <= 9999
    ensures var a := n / 10; var b := a / 10;
            YearString(n) == [DigitChar(b / 10), DigitChar(b % 10), DigitChar(a % 10), DigitChar(n % 10)]
  {
    var a := n / 10;
    var b := a / 10;
    var c := b / 10;
    assert 10 <= b && c < 10;
    assert NatToString(b) == [DigitChar(c), DigitChar(b % 10)];
    assert NatToString(a) == NatToString(b) + [DigitChar(a % 10)];
    assert NatToString(n) == NatToString(a) + [DigitChar(n % 10)];
  }

  /** The written form of a day from its three written fields. */
  lemma IsoDateFields(d: Date, yyyy: string, mm: string, dd: string)
    requires ValidDate(d)
    requires YearString(d.year) == yyyy && ZeroPad(d.month, 2) == mm && ZeroPad(d.day, 2) == dd
    ensures IsoDate(d) == yyyy + "-" + mm + "-" + dd
  {
  }

  /** Across a year end: the day before 2026-01-01 is 2025-12-31. */
  lemma NewYearsEveExample()
    ensures IsoAddDays(Date(2026, 1, 1), -1) == "2025-12-31"
  {
    assert AddDays(Date(2026, 1, 1), -1) == Date(2025, 12, 31);
    IsoNewYearsEve();
  }

  lemma IsoNewYearsEve()
    ensures IsoDate(Date(2025, 12, 31)) == "2025-12-31"
  {
    FourDigits(2025);
    TwoDigits(12);
    TwoDigits(31);
    IsoDateFields(Date(2025, 12, 31), "2025", "12", "31");
  }

  /** Across February's end in a leap year and in a common year. */
  lemma LeapDayExample()
    ensures IsoAddDays(Date(2024, 2, 28), 1) == "2024-02-29"
    ensures IsoAddDays(Date(2025, 2, 28), 1) == "2025-03-01"
  {
    assert AddDays(Date(2024, 2, 28), 1) == Date(2024, 2, 29);
    assert AddDays(Date(2025, 2, 28), 1) == Date(2025, 3, 1);
    IsoLeapDay();
    IsoFirstOfMarch();
  }

  lemma IsoLeapDay()
    ensures IsoDate(Date(2024, 2, 29)) == "2024-02-29"
  {
    FourDigits(2024);
    OneDigit(2);
    TwoDigits(29);
    IsoDateFields(Date(2024, 2, 29), "2024", "02", "29");
  }

  lemma IsoFirstOfMarch()
    ensures IsoDate(Date(2025, 3, 1)) == "2025-03-01"
  {
    FourDigits(2025);
    OneDigit(3);
    OneDigit(1);
    IsoDateFields(Date(2025, 3, 1), "2025", "03", "01");
  }

  lemma DashFirst(x: string, y: string)
    ensures StrLt("-" + x, "-" + y) <==> StrLt(x, y)
  {
    assert ("-" + x)[1..] == x && ("-" + y)[1..] == y;
  }

  /** Two-digit fields after a dash compare by value. */
  lemma FieldOrder(m1: string, x1: string, m2: string, x2: string)
    requires |m1| == |m2| && AllDigits(m1) && AllDigits(m2)
    ensures StrLt("-" + m1 + x1, "-" + m2 + x2) <==>
              DecimalValue(m1) < DecimalValue(m2) || (DecimalValue(m1) == DecimalValue(m2) && StrLt(x1, x2))
  {
    assert "-" + m1 + x1 == "-" + (m1 + x1);
    assert "-" + m2 + x2 == "-" + (m2 + x2);
    DashFirst(m1 + x1, m2 + x2);
    StrLtConcat(m1, x1, m2, x2);
    DigitsOrder(m1, m2);
  }

  lemma LastFieldOrder(da: string, db: string)
    requires |da| == |db| && AllDigits(da) && AllDigits(db)
    ensures StrLt("-" + da, "-" + db) <==> DecimalValue(da) < DecimalValue(db)
  {
    DashFirst(da, db);
    DigitsOrder(da, db);
  }

  /** A digit head of fixed width decides by value before the tail is looked at. */
  lemma HeadThenTail(ya: string, ta: string, yb: string, tb: string)
    requires |ya| == |yb| && AllDigits(ya) && AllDigits(yb)
    ensures StrLt(ya + ta, yb + tb) <==>
              DecimalValue(ya) < DecimalValue(yb) || (DecimalValue(ya) == DecimalValue(yb) && StrLt(ta, tb))
  {
    DigitsOrder(ya, yb);
    StrLtConcat(ya, ta, yb, tb);
  }

  /** `-M-D` tails with fields of matching widths compare by month, then day. */
  lemma TailOrder(ma: string, da: string, mb: string, db: string)
    requires |ma| == |mb| && |da| == |db|
    requires AllDigits(ma) && AllDigits(da) && AllDigits(mb) && AllDigits(db)
    ensures StrLt("-" + ma + ("-" + da), "-" + mb + ("-" + db)) <==>
              || DecimalValue(ma) < DecimalValue(mb)
              || (DecimalValue(ma) == DecimalValue(mb) && DecimalValue(da) < DecimalValue(db))
  {
    LastFieldOrder(da, db);
    FieldOrder(ma, "-" + da, mb, "-" + db);
  }

  /** For four-digit years, comparing the written days as strings (as Python
      compares `start_date` and `end_date`) is comparing them in time. */
  lemma IsoOrderIsChronological(a: Date, b: Date)
    requires ValidDate(a) && ValidDate(b)
    requires 1000 <= a.year <= 9999 && 1000 <= b.year <= 9999
    ensures StrLt(IsoDate(a), IsoDate(b)) <==> DateLt(a, b)
  {
    YearStringWidth(a.year);
    YearStringWidth(b.year);
    assert Pow10(2) == 100;
    var ma, da := ZeroPad(a.month, 2), ZeroPad(a.day, 2);
    var mb, db := ZeroPad(b.month, 2), ZeroPad(b.day, 2);
    TailOrder(ma, da, mb, db);
    HeadThenTail(YearString(a.year), "-" + ma + ("-" + da), YearString(b.year), "-" + mb + ("-" + db));
  }
}
