/** The clock display of the frontend (`src/lib/format.ts`, `formatHMS`). */
module Format {
  import opened Wrappers
  import opened Arith
  import opened Text

  /** Reads `HH:MM:SS` back: at least two hour digits, two minute digits below
      60, two second digits below 60; the number of seconds they denote. */
  function ParseHMS(r: string): (t: Option<nat>)
    ensures t.Some? ==> |r| >= 8
  {
    var p := Split(r, ':');
    if && |p| == 3
       && |p[0]| >= 2 && |p[1]| == 2 && |p[2]| == 2
       && AllDigits(p[0]) && AllDigits(p[1]) && AllDigits(p[2])
       && DecimalValue(p[1]) < 60 && DecimalValue(p[2]) < 60
    then
      assert p == [p[0], p[1], p[2]];
      JoinThree(p[0], p[1], p[2], ':');
      Some(DecimalValue(p[0]) * 3600 + DecimalValue(p[1]) * 60 + DecimalValue(p[2]))
    else None
  }

  /** Hours, minutes below 60 and seconds below 60 of a non-negative count. */
  lemma ClockFields(s: nat)
    ensures s / 3600 * 3600 + s % 3600 / 60 * 60 + s % 60 == s
    ensures s % 3600 / 60 < 60
    ensures s < 360000 ==> s / 3600 < 100
  {
    DivMod(s, 3600);
    DivMod(s % 3600, 60);
    DivMod(s, 60);
    assert s % 60 == s % 3600 % 60 by {
      var q := s / 3600;
      assert s == q * 3600 + s % 3600;
      assert q * 3600 == (q * 60) * 60;
      DivMod(s % 3600, 60);
      assert s == (q * 60 + s % 3600 / 60) * 60 + s % 3600 % 60;
      DivModUnique(s, 60, q * 60 + s % 3600 / 60, s % 3600 % 60);
    }
  }

  /** The quotient and remainder are the only pair that reassembles `a`. */
  lemma DivModUnique(a: int, d: int, q: int, m: int)
    requires d > 0 && 0 <= m < d && a == q * d + m
    ensures q == a / d && m == a % d
  {
    DivMod(a, d);
    if q < a / d {
      MulStep(q, a / d, d);
    } else if q > a / d {
      MulStep(a / d, q, d);
    }
  }

  /** `formatHMS`: clamps below at 0 and writes hours, minutes and seconds,
      each zero-padded to two digits; hours may run past two digits. */
  function FormatHMS(totalSeconds: int): (r: string)
    ensures |r| >= 8
    ensures totalSeconds < 360000 ==> |r| == 8
    ensures r[|r| - 3] == ':' && r[|r| - 6] == ':'
  {
    var s: nat := if totalSeconds < 0 then 0 else totalSeconds;
    ClockFields(s);
    var hh := ZeroPad(s / 3600, 2);
    var mm := ZeroPad(s % 3600 / 60, 2);
    var ss := ZeroPad(s % 60, 2);
    assert Pow10(2) == 100;
    JoinThree(hh, mm, ss, ':');
    Join([hh, mm, ss], ':')
  }

  /** Reading the display back yields the clamped count: `formatHMS` loses nothing. */
  lemma FormatHMSRoundTrip(totalSeconds: int)
    ensures ParseHMS(FormatHMS(totalSeconds)) == Some(if totalSeconds < 0 then 0 else totalSeconds)
  {
    var s: nat := if totalSeconds < 0 then 0 else totalSeconds;
    var hh, mm, ss := ZeroPad(s / 3600, 2), ZeroPad(s % 3600 / 60, 2), ZeroPad(s % 60, 2);
    ClockPieces(s);
    assert FormatHMS(totalSeconds) == Join([hh, mm, ss], ':');
    ParseJoinedFields(hh, mm, ss);
  }

  /** The three padded fields of a count are well formed and denote it. */
  lemma ClockPieces(s: nat)
    ensures var hh, mm, ss := ZeroPad(s / 3600, 2), ZeroPad(s % 3600 / 60, 2), ZeroPad(s % 60, 2);
            && |hh| >= 2 && |mm| == 2 && |ss| == 2
            && AllDigits(hh) && AllDigits(mm) && AllDigits(ss)
            && DecimalValue(mm) < 60 && DecimalValue(ss) < 60
            && DecimalValue(hh) * 3600 + DecimalValue(mm) * 60 + DecimalValue(ss) == s
  {
    ClockFields(s);
    assert Pow10(2) == 100;
  }

  /** Any three well-formed fields, joined by colons, read back as the
      seconds they denote. */
  lemma ParseJoinedFields(hh: string, mm: string, ss: string)
    requires |hh| >= 2 && |mm| == 2 && |ss| == 2
    requires AllDigits(hh) && AllDigits(mm) && AllDigits(ss)
    requires DecimalValue(mm) < 60 && DecimalValue(ss) < 60
    ensures ParseHMS(Join([hh, mm, ss], ':')) ==
              Some(DecimalValue(hh) * 3600 + DecimalValue(mm) * 60 + DecimalValue(ss))
  {
    var pieces := [hh, mm, ss];
    forall k | 0 <= k < 3 ensures ':' !in pieces[k] {
      assert AllDigits(pieces[k]);
    }
    SplitJoin(pieces, ':');
    var p := Split(Join(pieces, ':'), ':');
    assert p == pieces;
    assert |p| == 3 && p[0] == hh && p[1] == mm && p[2] == ss;
  }

  /** Two distinct non-negative counts never show the same display. */
  lemma FormatHMSInjective(a: nat, b: nat)
    requires FormatHMS(a) == FormatHMS(b)
    ensures a == b
  {
    FormatHMSRoundTrip(a);
    FormatHMSRoundTrip(b);
  }

  /** Negative counts display as zero. */
  lemma FormatHMSOfNegative(totalSeconds: int)
    requires totalSeconds < 0
    ensures FormatHMS(totalSeconds) == "00:00:00"
  {
    assert NatToString(0) == "0";
    assert PadStart("0", 2, '0') == "00";
    JoinThree("00", "00", "00", ':');
  }
}
