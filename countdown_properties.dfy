/** The single-slot countdown: a new countdown replaces the pending one, each tick counts down one
    second and broadcasts, and the callback runs once, on the first tick that reaches zero or below. */
module CountdownProperties {
  import opened Options
  import opened Config
  import opened Match

  /** `n` firings of the interval in a row. */
  function Ticks(rules: Rules, s: State, n: nat, draw: int): State
    decreases n
  {
    if n == 0 then s else Tick(rules, Ticks(rules, s, n - 1, draw), draw)
  }

  /** An absent duration and a zero duration both fall back to `timerDurations.default`; any other
      duration is used as given. */
  lemma AbsentOrZeroDurationUsesDefault(rules: Rules, d: int)
    ensures CountdownLength(rules, None) == rules.timers.default
    ensures CountdownLength(rules, Some(0)) == rules.timers.default
    ensures d != 0 ==> CountdownLength(rules, Some(d)) == d
  {
  }

  /** Starting a countdown replaces whatever was pending: only the new callback can run. */
  lemma StartCountdownReplacesPending(rules: Rules, s: State, k: Continuation, duration: Option<int>)
    ensures StartCountdown(rules, s, k, duration).timer == Running(k)
    ensures StartCountdown(rules, s, k, duration).(timer := s.timer, remainingMs := s.remainingMs) == s
  {
  }

  /** Without an interval nothing fires, however many seconds pass. */
  lemma {:induction false} StoppedStaysStopped(rules: Rules, s: State, n: nat, draw: int)
    requires s.timer == Stopped
    ensures Ticks(rules, s, n, draw) == s
    decreases n
  {
    if n > 0 {
      StoppedStaysStopped(rules, s, n - 1, draw);
    }
  }

  /** While time remains, each tick takes one second off and broadcasts, and nothing else happens. */
  lemma {:induction false} CountsDownWhileTimeRemains(rules: Rules, s: State, n: nat, draw: int)
    requires s.timer.Running?
    requires s.remainingMs - 1000 * n > 0
    ensures Ticks(rules, s, n, draw) == s.(remainingMs := s.remainingMs - 1000 * n, sent := s.sent + n)
    decreases n
  {
    if n > 0 {
      CountsDownWhileTimeRemains(rules, s, n - 1, draw);
    }
  }

  /** A pending countdown fires on tick number ceil(remainingMs / 1000), the `n` bounded as below:
      the first `n - 1` ticks only count down and broadcast, and the `n`-th clears the interval and
      then runs the callback, exactly once. */
  lemma FiresOnTick(rules: Rules, s: State, n: nat, draw: int)
    requires s.timer.Running? && n >= 1
    requires 1000 * (n - 1) < s.remainingMs <= 1000 * n
    ensures Ticks(rules, s, n - 1, draw) == s.(remainingMs := s.remainingMs - 1000 * (n - 1), sent := s.sent + n - 1)
    ensures Ticks(rules, s, n, draw)
      == Run(rules, s.(remainingMs := s.remainingMs - 1000 * n, sent := s.sent + n, timer := Stopped), s.timer.onExpiry, draw)
  {
    CountsDownWhileTimeRemains(rules, s, n - 1, draw);
    var before := s.(remainingMs := s.remainingMs - 1000 * (n - 1), sent := s.sent + n - 1);
    NextTick(rules, s, n, draw, before);
    LastSecondFires(rules, s, n, draw);
  }

  /** `Ticks` unfolds by one firing. */
  lemma NextTick(rules: Rules, s: State, n: nat, draw: int, before: State)
    requires n >= 1 && Ticks(rules, s, n - 1, draw) == before
    ensures Ticks(rules, s, n, draw) == Tick(rules, before, draw)
  {
  }

  /** The firing that reaches zero or below stops the interval and runs the callback. */
  lemma LastSecondFires(rules: Rules, s: State, n: nat, draw: int)
    requires s.timer.Running? && n >= 1
    requires 1000 * (n - 1) < s.remainingMs <= 1000 * n
    ensures var before := s.(remainingMs := s.remainingMs - 1000 * (n - 1), sent := s.sent + n - 1);
      Tick(rules, before, draw)
      == Run(rules, s.(remainingMs := s.remainingMs - 1000 * n, sent := s.sent + n, timer := Stopped), s.timer.onExpiry, draw)
  {
    var before := s.(remainingMs := s.remainingMs - 1000 * (n - 1), sent := s.sent + n - 1);
    assert Broadcast(before.(remainingMs := before.remainingMs - 1000)).(timer := Stopped)
      == s.(remainingMs := s.remainingMs - 1000 * n, sent := s.sent + n, timer := Stopped);
  }

  /** A countdown that is not positive fires on the very first tick. */
  lemma NonPositiveFiresAtOnce(rules: Rules, s: State, draw: int)
    requires s.timer.Running? && s.remainingMs <= 0
    ensures Tick(rules, s, draw)
      == Run(rules, s.(remainingMs := s.remainingMs - 1000, sent := s.sent + 1, timer := Stopped), s.timer.onExpiry, draw)
  {
    assert Broadcast(s.(remainingMs := s.remainingMs - 1000)).(timer := Stopped)
      == s.(remainingMs := s.remainingMs - 1000, sent := s.sent + 1, timer := Stopped);
  }

  /** Round PLAY's countdown ends in silence: once it has fired, the clock stays stopped until an
      event starts another countdown. */
  lemma {:induction false} PlayCountdownEndsTheClock(rules: Rules, s: State, draw: int, m: nat)
    requires 1 <= draw <= 10
    ensures var entered := EnterRoundPhase(rules, s, RoundPlay, draw);
      && Ticks(rules, entered, draw, draw).timer == Stopped
      && Ticks(rules, entered, draw + m, draw) == Ticks(rules, entered, draw, draw)
    decreases m
  {
    var entered := EnterRoundPhase(rules, s, RoundPlay, draw);
    FiresOnTick(rules, entered, draw, draw);
    if m > 0 {
      PlayCountdownEndsTheClock(rules, s, draw, m - 1);
    }
  }

  /** STARTING's 1 ms countdown moves the round to PRE_PLAY on the first tick. */
  lemma StartingLastsOneTick(rules: Rules, s: State, d1: int, d2: int)
    ensures var t := Tick(rules, EnterRoundPhase(rules, s, Starting, d1), d2);
      && t.roundPhase == PrePlay && t.timer == Running(EnterRoundPlay)
      && t.remainingMs == CountdownLength(rules, Some(rules.timers.prePlay))
  {
  }
}
