/** The session-expiry banner (`TokenExpirationWarning`): once a second it
    recomputes the whole seconds left on the token, shows a warning in the
    last five minutes, and stops for good when the token has expired. */
module ExpirationWarning {
  import opened Common

  /** The warning appears at five minutes left or less. */
  const WarningWindow: int := 300

  /** The component's state: `timeLeft` (null before the first tick), whether
      the warning is on, and whether the interval is still set. */
  datatype View = View(timeLeft: Option<int>, showWarning: bool, ticking: bool)

  /** `Math.floor((expirationTime - now) / 1000)`. */
  function SecondsLeft(expirationTime: int, now: Time): (s: int)
    ensures s * 1000 <= expirationTime - now < s * 1000 + 1000
  {
    (expirationTime - now) / 1000
  }

  /** One run of the interval callback; a cleared interval runs no more. */
  function Step(v: View, expirationTime: int, now: Time): (w: View)
    ensures !v.ticking ==> w == v
    ensures v.ticking ==> w.timeLeft == Some(SecondsLeft(expirationTime, now))
    ensures v.ticking ==> (w.ticking <==> SecondsLeft(expirationTime, now) > 0)
    ensures v.ticking ==>
              (w.showWarning <==> 0 < SecondsLeft(expirationTime, now) && (v.showWarning || SecondsLeft(expirationTime, now) <= WarningWindow))
  {
    if !v.ticking then v
    else
      var s := SecondsLeft(expirationTime, now);
      if s <= 0 then View(Some(s), false, false)
      else View(Some(s), v.showWarning || s <= WarningWindow, true)
  }

  /** The callback run at each of the instants `nows`, in order. */
  function Run(v: View, expirationTime: int, nows: seq<Time>): View
    decreases |nows|
  {
    if |nows| == 0 then v else Run(Step(v, expirationTime, nows[0]), expirationTime, nows[1..])
  }

  /** A warning on display always has a positive count behind it. */
  predicate Consistent(v: View) {
    v.showWarning ==> v.timeLeft.Some? && v.timeLeft.value > 0
  }

  lemma StepKeepsConsistent(v: View, expirationTime: int, now: Time)
    requires Consistent(v)
    ensures Consistent(Step(v, expirationTime, now))
  {
  }

  /** Every run of the callback keeps the state consistent. */
  lemma {:induction false} RunKeepsConsistent(v: View, expirationTime: int, nows: seq<Time>)
    requires Consistent(v)
    ensures Consistent(Run(v, expirationTime, nows))
    decreases |nows|
  {
    if |nows| > 0 {
      StepKeepsConsistent(v, expirationTime, nows[0]);
      RunKeepsConsistent(Step(v, expirationTime, nows[0]), expirationTime, nows[1..]);
    }
  }

  /** Once the interval is cleared the state never changes again. */
  lemma {:induction false} StoppedStaysStopped(v: View, expirationTime: int, nows: seq<Time>)
    requires !v.ticking
    ensures Run(v, expirationTime, nows) == v
    decreases |nows|
  {
    if |nows| > 0 {
      StoppedStaysStopped(Step(v, expirationTime, nows[0]), expirationTime, nows[1..]);
    }
  }

  /** A tick that finds the token expired hides the warning and ends the
      countdown: whatever ticks follow, nothing changes. */
  lemma ExpiryIsFinal(v: View, expirationTime: int, now: Time, later: seq<Time>)
    requires v.ticking && SecondsLeft(expirationTime, now) <= 0
    ensures var w := Step(v, expirationTime, now);
            && !w.showWarning && !w.ticking
            && Run(w, expirationTime, later) == w
  {
    StoppedStaysStopped(Step(v, expirationTime, now), expirationTime, later);
  }

  /** Once on, the warning stays on through every tick that still finds time left. */
  lemma {:induction false} WarningStaysOn(v: View, expirationTime: int, nows: seq<Time>)
    requires v.showWarning && v.ticking
    requires forall k :: 0 <= k < |nows| ==> SecondsLeft(expirationTime, nows[k]) > 0
    ensures Run(v, expirationTime, nows).showWarning
    decreases |nows|
  {
    if |nows| > 0 {
      var w := Step(v, expirationTime, nows[0]);
      assert SecondsLeft(expirationTime, nows[0]) > 0;
      assert forall k :: 0 <= k < |nows[1..]| ==> SecondsLeft(expirationTime, nows[1..][k]) > 0 by {
        forall k | 0 <= k < |nows[1..]| ensures nows[1..][k] == nows[k + 1] { }
      }
      WarningStaysOn(w, expirationTime, nows[1..]);
    }
  }

  // ---------------------------------------------------------------- the banner

  /** The banner's text: whole minutes and the seconds past them. */
  datatype Banner = Banner(minutes: int, seconds: int)

  /** JavaScript's `%`: truncating, so the remainder takes the dividend's sign. */
  function JsRemainder(a: int, b: int): (r: int)
    requires b > 0
    ensures a >= 0 ==> r == a % b
    ensures a < 0 ==> -b < r <= 0 && r == -((-a) % b)
  {
    if a >= 0 then a % b else -((-a) % b)
  }

  /** `Math.floor(timeLeft / 60)` minutes and `timeLeft % 60` seconds; for a
      count that is not negative they make up exactly that count. */
  function Display(t: int): (b: Banner)
    ensures t >= 0 ==> 60 * b.minutes + b.seconds == t && 0 <= b.seconds < 60 && b.minutes >= 0
  {
    Banner(t / 60, JsRemainder(t, 60))
  }

  /** `if (!showWarning || timeLeft === null) return null`: the banner when it is shown. */
  function Rendered(v: View): (b: Option<Banner>)
    ensures b.Some? <==> v.showWarning && v.timeLeft.Some?
    ensures b.Some? ==> b.value == Display(v.timeLeft.value)
  {
    if !v.showWarning || v.timeLeft.None? then None else Some(Display(v.timeLeft.value))
  }

  /** A banner on display in a consistent state shows a positive time, split
      correctly into minutes and seconds below sixty. */
  lemma RenderedIsPositiveClock(v: View)
    requires Consistent(v) && Rendered(v).Some?
    ensures var b := Rendered(v).value;
            && 60 * b.minutes + b.seconds == v.timeLeft.value > 0
            && 0 <= b.seconds < 60
  {
  }

  /** The state after mounting: no count yet, no warning, and an interval
      only when the token carries a non-zero `exp`. */
  function Mounted(exp: Option<int>): (v: View)
    ensures v.timeLeft.None? && !v.showWarning && Consistent(v)
    ensures v.ticking <==> exp.Some? && exp.value != 0
  {
    View(None, false, exp.Some? && exp.value != 0)
  }

  /** Without an `exp` claim no timer starts, and nothing is ever rendered. */
  lemma NoExpiryNoBanner(exp: Option<int>, expirationTime: int, nows: seq<Time>)
    requires exp.None? || exp == Some(0)
    ensures Rendered(Run(Mounted(exp), expirationTime, nows)).None?
  {
    StoppedStaysStopped(Mounted(exp), expirationTime, nows);
  }

  /** The component instance: its two pieces of React state, the instant it
      counts down to, and whether its interval is set. */
  class TokenExpirationWarning {
    var timeLeft: Option<int>
    var showWarning: bool
    /** `exp * 1000`, in milliseconds. */
    var expirationTime: int
    var ticking: bool

    function State(): View
      reads this
    {
      View(timeLeft, showWarning, ticking)
    }

    ghost predicate Valid()
      reads this
    {
      Consistent(State())
    }

    /** The mount effect, with `exp` as decoded from the stored token; a
        missing or zero `exp` sets no interval. */
    constructor (exp: Option<int>)
      ensures Valid() && State() == Mounted(exp)
      ensures ticking ==> expirationTime == exp.value * 1000
    {
      timeLeft := None;
      showWarning := false;
      if exp.None? || exp.value == 0 {
        ticking := false;
        expirationTime := 0;
      } else {
        ticking := true;
        expirationTime := exp.value * 1000;
      }
    }

    /** The interval callback, run by the timer while the interval is set. */
    method Tick(now: Time)
      requires Valid() && ticking
      modifies this
      ensures Valid() && State() == Step(old(State()), expirationTime, now)
      ensures expirationTime == old(expirationTime)
    {
      var remaining := expirationTime - now;
      var secondsLeft := remaining / 1000;
      timeLeft := Some(secondsLeft);
      if secondsLeft <= WarningWindow && secondsLeft > 0 {
        showWarning := true;
      }
      if secondsLeft <= 0 {
        showWarning := false;
        ticking := false;
      }
    }

    /** `handleRefreshToken`, with the outcome of `refreshToken()` given: a
        success hides the warning, a failure changes nothing. */
    method HandleRefresh(success: bool)
      requires Valid()
      modifies this
      ensures Valid() && expirationTime == old(expirationTime)
      ensures success ==> State() == old(State()).(showWarning := false)
      ensures !success ==> State() == old(State())
    {
      if success {
        showWarning := false;
      }
    }

    /** The effect's cleanup on unmount clears the interval. */
    method Unmount()
      requires Valid()
      modifies this
      ensures Valid() && expirationTime == old(expirationTime)
      ensures State() == old(State()).(ticking := false)
    {
      ticking := false;
    }
  }
}
