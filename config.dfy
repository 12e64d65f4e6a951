/** The per-game rules (`IGameRules`). Player counts and win thresholds are counts; durations are
    milliseconds, as the source's configuration writes them. */
module Config {

  datatype TimerDurations = TimerDurations(
    default: int,   // used when a countdown is started without a duration, or with 0
    lobby: int,     // from "all players ready" to match PLAY
    prePlay: int,   // before the round's PLAY phase
    play: int,      // configured, but never read: the PLAY countdown is random
    postPlay: int)  // after a round has been won

  datatype Rules = Rules(
    roundsToWinMatch: nat,
    scoreToWinRound: nat,
    maxPlayers: nat,
    minPlayers: nat,
    timers: TimerDurations)

  /** `DEFAULT_RULES`; the 321bang game configures the same values. */
  const DEFAULT_RULES := Rules(3, 1, 2, 2, TimerDurations(3000, 5000, 5000, 30000, 5000))
}
