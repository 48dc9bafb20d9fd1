/** The live timer of the work page (`src/pages/WorkDetail.tsx`): the elapsed
    seconds and the running earnings it displays, and how the Start and Stop
    buttons change its state. Browser time is in milliseconds since the epoch;
    the clock reading `nowMs` is a parameter. */
module WorkDetail {
  import opened Wrappers
  import opened Arith
  import opened TimeUtil
  import opened Money

  /** The `running` and `startedAt` state of the page; `startedAtMs` is the
      server's `started_at` as `new Date(...).getTime()` reads it. */
  datatype TimerView = TimerView(running: bool, startedAtMs: Option<int>)

  /** The state the page opens with: not running, no start. */
  const InitialView: TimerView := TimerView(false, None)

  const MillisPerSecond: int := 1000

  /** `elapsedSeconds`: whole seconds since the start, floored, never negative;
      0 when stopped or without a start. */
  function ElapsedSeconds(view: TimerView, nowMs: int): (r: nat)
    ensures !view.running || view.startedAtMs.None? ==> r == 0
    ensures view.running && view.startedAtMs.Some? && nowMs < view.startedAtMs.value ==> r == 0
    ensures view.running && view.startedAtMs.Some? && nowMs >= view.startedAtMs.value ==>
              r * MillisPerSecond <= nowMs - view.startedAtMs.value < (r + 1) * MillisPerSecond
  {
    if !view.running || view.startedAtMs.None? then 0
    else
      var d := nowMs - view.startedAtMs.value;
      DivMod(d, MillisPerSecond);
      var s := d / MillisPerSecond;
      if s < 0 then 0 else s
  }

  /** `earnedCents`: 0 when stopped; while running, the rate times the elapsed
      hours rounded to the nearest cent, a tie going up (`Math.round`). */
  function EarnedCents(view: TimerView, rateCents: int, nowMs: int): (r: int)
    ensures !view.running ==> r == 0
    ensures view.running ==>
              var n := rateCents * ElapsedSeconds(view, nowMs);
              -SecondsPerHour <= 2 * (n - r * SecondsPerHour) < SecondsPerHour
  {
    if !view.running then 0
    else RoundHalfUp(rateCents * ElapsedSeconds(view, nowMs), SecondsPerHour)
  }

  /** The `ApiError` that `apiFetch` throws when the server answers with a
      status outside 200-299; the handler stops at the `await` and sets nothing. */
  datatype ApiError = ApiError(status: int)

  /** `onStart`: running from the `started_at` the server returned; a failed
      request leaves the page as it was. */
  function OnStart(view: TimerView, answer: Result<int, ApiError>): (r: TimerView)
    ensures answer.Success? ==> r.running && r.startedAtMs == Some(answer.value)
    ensures answer.Failure? ==> r == view
  {
    match answer
    case Success(startedAtMs) => TimerView(true, Some(startedAtMs))
    case Failure(_) => view
  }

  /** `onStop`: back to the opening state on any successful answer ("stopped"
      or "not_running"); a failed request leaves the page as it was. */
  function OnStop(view: TimerView, answer: Result<(), ApiError>): (r: TimerView)
    ensures answer.Success? ==> r == InitialView
    ensures answer.Failure? ==> r == view
  {
    match answer
    case Success(_) => TimerView(false, None)
    case Failure(_) => view
  }

  /** After a successful Stop the page shows nothing elapsed and nothing
      earned, at any time. */
  lemma StoppedShowsZero(view: TimerView, rateCents: int, nowMs: int)
    ensures ElapsedSeconds(OnStop(view, Success(())), nowMs) == 0
    ensures EarnedCents(OnStop(view, Success(())), rateCents, nowMs) == 0
  {
  }

  /** A request that fails changes neither figure the page shows: a running
      timer keeps counting after a failed Stop. */
  lemma FailedRequestKeepsDisplay(view: TimerView, err: ApiError, rateCents: int, nowMs: int)
    ensures ElapsedSeconds(OnStart(view, Failure(err)), nowMs) == ElapsedSeconds(view, nowMs)
    ensures ElapsedSeconds(OnStop(view, Failure(err)), nowMs) == ElapsedSeconds(view, nowMs)
    ensures EarnedCents(OnStop(view, Failure(err)), rateCents, nowMs) == EarnedCents(view, rateCents, nowMs)
    ensures view.running ==> OnStop(view, Failure(err)).running
  {
  }

  /** While running, the page counts what the server's `seconds_between` would
      count for a session from the returned start to now, both clocks agreeing. */
  lemma ElapsedMatchesServer(view: TimerView, startedAtMs: int, nowMs: int)
    ensures ElapsedSeconds(OnStart(view, Success(startedAtMs)), nowMs)
         == SecondsBetween(startedAtMs * 1000, nowMs * 1000)
  {
    var r := ElapsedSeconds(OnStart(view, Success(startedAtMs)), nowMs);
    var s := SecondsBetween(startedAtMs * 1000, nowMs * 1000);
    var d := nowMs - startedAtMs;
    if d >= 0 {
      assert s * MicrosPerSecond <= d * 1000 < (s + 1) * MicrosPerSecond;
      assert s * MicrosPerSecond == (s * MillisPerSecond) * 1000;
      assert (s + 1) * MicrosPerSecond == ((s + 1) * MillisPerSecond) * 1000;
      assert s * MillisPerSecond <= d < (s + 1) * MillisPerSecond;
      if r < s {
        MulStep(r, s, MillisPerSecond);
      } else if s < r {
        MulStep(s, r, MillisPerSecond);
      }
    }
  }

  /** The live figure is the server's figure or one cent more; one more exactly
      on a half-cent tie whose upper neighbour is odd. */
  lemma EarnedVersusServer(view: TimerView, rateCents: int, nowMs: int)
    requires view.running
    ensures var elapsed := ElapsedSeconds(view, nowMs);
            var live := EarnedCents(view, rateCents, nowMs);
            var server := CentsFromHourlyRate(rateCents, elapsed);
            && (live == server || live == server + 1)
            && (live == server + 1 <==> 2 * (live * SecondsPerHour - rateCents * elapsed) == SecondsPerHour && live % 2 != 0)
  {
    var elapsed := ElapsedSeconds(view, nowMs);
    HalfUpVersusHalfEven(rateCents * elapsed, SecondsPerHour);
    if elapsed == 0 {
      RoundHalfEvenUnique(0, SecondsPerHour, 0);
    }
  }

  /** Half an hour at 1 cent an hour: the page shows 1 cent, the server pays 0. */
  lemma HalfCentTieDiffers(startedAtMs: int)
    ensures var view := OnStart(InitialView, Success(startedAtMs));
            var nowMs := startedAtMs + 1800 * MillisPerSecond;
            && ElapsedSeconds(view, nowMs) == 1800
            && EarnedCents(view, 1, nowMs) == 1
            && CentsFromHourlyRate(1, ElapsedSeconds(view, nowMs)) == 0
  {
    var view := OnStart(InitialView, Success(startedAtMs));
    var nowMs := startedAtMs + 1800 * MillisPerSecond;
    var e := ElapsedSeconds(view, nowMs);
    if e < 1800 {
      MulStep(e, 1800, MillisPerSecond);
    } else if e > 1800 {
      MulStep(1800, e, MillisPerSecond);
    }
    CentsExamples();
  }
}
