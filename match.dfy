/** The match and round state machine of `GameMode` (with the `GameState` it mutates) as functions
    on values. Each function is one operation of `GameMode`; the class in module Framework runs the
    same operations in place and is proved to agree with these functions. */
module Match {
  import opened Options
  import opened Config
  import opened Roster
  import Seqs

  datatype MatchPhase = Lobby | Play | Complete
  datatype RoundPhase = Starting | PrePlay | RoundPlay | PostPlay | Ending

  /** The callback handed to `startCountdown`; `DoNothing` is the empty callback of round PLAY. */
  datatype Continuation = EnterMatchPlay | EnterPrePlay | EnterRoundPlay | DoNothing | EnterEnding

  /** The single timer slot (`currentTimer`): no interval, or one interval with its callback. */
  datatype Timer = Stopped | Running(onExpiry: Continuation)

  /** Everything an operation may change: the `GameState` fields (the countdown kept in
      milliseconds), the timer slot, and how many times the state has been broadcast. */
  datatype State = State(
    matchPhase: MatchPhase,
    roundPhase: RoundPhase,
    roster: seq<Player>,
    remainingMs: int,
    timer: Timer,
    sent: nat)

  /** A new `GameState`: LOBBY, STARTING, no players, countdown 0, no timer. */
  const INITIAL := State(Lobby, Starting, [], 0, Stopped, 0)

  /** STARTING's countdown: 1 ms, so that it fires on the first tick. */
  const STARTING_MS := 1

  /** The random draw (`Math.floor(Math.random() * 10) + 1`) is read only on entering round PLAY;
      paths that cannot get there pass this value (see MatchProperties.DrawOnlyMattersForRoundPlay). */
  const NO_DRAW := 1

  /** `multiCastGameState`: the whole state is emitted to the room; the model counts emissions. */
  function Broadcast(s: State): State {
    s.(sent := s.sent + 1)
  }

  /** `duration || rules.timerDurations.default`: an absent or zero duration falls back to the
      default. The length is the default or a duration that was given and is not 0. */
  function CountdownLength(rules: Rules, duration: Option<int>): (ms: int)
    ensures ms == rules.timers.default || (duration == Some(ms) && ms != 0)
    ensures duration.Some? && duration.value != 0 ==> ms == duration.value
  {
    if duration.None? || duration.value == 0 then rules.timers.default else duration.value
  }

  /** `startCountdown`: the previous interval is cleared and the slot now holds the new one. */
  function StartCountdown(rules: Rules, s: State, onExpiry: Continuation, duration: Option<int>): (r: State)
    ensures r.timer == Running(onExpiry)
    ensures r.remainingMs == CountdownLength(rules, duration)
    ensures r.(timer := s.timer, remainingMs := s.remainingMs) == s
  {
    s.(remainingMs := CountdownLength(rules, duration), timer := Running(onExpiry))
  }

  /** `addPlayer`: append while there is room, otherwise leave the roster alone. The old roster is
      kept as a prefix, at most one player is added, and the roster never grows past the cap. */
  function AddPlayer(rules: Rules, s: State, p: Player): (r: State)
    ensures r.(roster := s.roster) == s
    ensures s.roster <= r.roster && |r.roster| <= |s.roster| + 1
    ensures |r.roster| == |s.roster| + 1 <==> |s.roster| < rules.maxPlayers
    ensures |r.roster| == |s.roster| + 1 ==> r.roster[|s.roster|] == p
    ensures |s.roster| <= rules.maxPlayers ==> |r.roster| <= rules.maxPlayers
  {
    if |s.roster| < rules.maxPlayers then s.(roster := s.roster + [p]) else s
  }

  /** The roster part of `removePlayer`: splice out the player found at `index` (-1 when the player
      is not in the roster). The players before `index` stay where they are, those after it move
      down by one, and an index outside the roster changes nothing. */
  function RemovePlayerAt(s: State, index: int): (r: State)
    ensures r.(roster := s.roster) == s
    ensures !(0 <= index < |s.roster|) ==> r.roster == s.roster
    ensures 0 <= index < |s.roster| ==>
      && |r.roster| == |s.roster| - 1
      && r.roster[..index] == s.roster[..index]
      && r.roster[index..] == s.roster[index + 1..]
  {
    if 0 <= index < |s.roster| then s.(roster := Seqs.RemoveAt(s.roster, index)) else s
  }

  /** `checkAllPlayersReady`: start the lobby countdown iff exactly `minPlayers` are present and
      all are ready. */
  function CheckAllPlayersReady(rules: Rules, s: State): State {
    if |s.roster| == rules.minPlayers && AllReady(s.roster) then
      StartCountdown(rules, s, EnterMatchPlay, Some(rules.timers.lobby))
    else
      s
  }

  /** `onPlayerReady`. */
  function PlayerReady(rules: Rules, s: State, playerId: string): State {
    match FindPlayer(s.roster, playerId)
    case None => s
    case Some(i) =>
      var marked := s.(roster := s.roster[i := s.roster[i].(isReady := true)]);
      CheckAllPlayersReady(rules, Broadcast(marked))
  }

  /** `onPlayerScored`: the scorer's round score goes up; then the first player in join order who
      has reached the threshold (not necessarily the scorer) wins the round. */
  function PlayerScored(rules: Rules, s: State, playerId: string): State {
    match FindPlayer(s.roster, playerId)
    case None => s
    case Some(i) =>
      var scored := ScoreAt(s, i);
      match FirstRoundWinner(scored.roster, rules.scoreToWinRound)
      case None => scored
      case Some(w) => EnterRoundPhase(rules, CreditRoundAt(scored, w), PostPlay, NO_DRAW)
  }

  /** `player.roundScore++` for the player at `i`. */
  function ScoreAt(s: State, i: nat): State
    requires i < |s.roster|
  {
    s.(roster := s.roster[i := s.roster[i].(roundScore := s.roster[i].roundScore + 1)])
  }

  /** `winner.roundsWon++` for the player at `w`. */
  function CreditRoundAt(s: State, w: nat): State
    requires w < |s.roster|
  {
    s.(roster := s.roster[w := s.roster[w].(roundsWon := s.roster[w].roundsWon + 1)])
  }

  function MatchRank(phase: MatchPhase): nat {
    if phase == Play then 1 else 0
  }

  function RoundRank(phase: RoundPhase): nat {
    if phase == Ending then 2 else 0
  }

  /** `setMatchPhase`. */
  function EnterMatchPhase(rules: Rules, s: State, phase: MatchPhase): State
    decreases MatchRank(phase)
  {
    var entered := s.(matchPhase := phase);
    var acted := if phase == Play then EnterRoundPhase(rules, entered, Starting, NO_DRAW) else entered;
    Broadcast(acted)
  }

  /** `setRoundPhase`; `draw` is the random number of seconds used when round PLAY is entered. */
  function EnterRoundPhase(rules: Rules, s: State, phase: RoundPhase, draw: int): State
    decreases RoundRank(phase)
  {
    var entered := s.(roundPhase := phase);
    var acted :=
      match phase
      case Starting =>
        StartCountdown(rules, entered.(roster := ResetScores(entered.roster)), EnterPrePlay, Some(STARTING_MS))
      case PrePlay => StartCountdown(rules, entered, EnterRoundPlay, Some(rules.timers.prePlay))
      case RoundPlay => StartCountdown(rules, entered, DoNothing, Some(draw * 1000))
      case PostPlay => StartCountdown(rules, entered, EnterEnding, Some(rules.timers.postPlay))
      case Ending =>
        if AnyMatchWinner(entered.roster, rules.roundsToWinMatch) then EnterMatchPhase(rules, entered, Complete)
        else EnterRoundPhase(rules, entered, Starting, draw);
    Broadcast(acted)
  }

  /** Invoke a countdown's callback. */
  function Run(rules: Rules, s: State, k: Continuation, draw: int): State {
    match k
    case EnterMatchPlay => EnterMatchPhase(rules, s, Play)
    case EnterPrePlay => EnterRoundPhase(rules, s, PrePlay, draw)
    case EnterRoundPlay => EnterRoundPhase(rules, s, RoundPlay, draw)
    case DoNothing => s
    case EnterEnding => EnterRoundPhase(rules, s, Ending, draw)
  }

  /** One firing of the one-second interval: count down, broadcast, and on reaching zero or below
      clear the interval and then invoke the callback. Without an interval nothing fires. */
  function Tick(rules: Rules, s: State, draw: int): State {
    match s.timer
    case Stopped => s
    case Running(k) =>
      var counted := Broadcast(s.(remainingMs := s.remainingMs - 1000));
      if counted.remainingMs <= 0 then Run(rules, counted.(timer := Stopped), k, draw) else counted
  }

  /** A new connection: a fresh player is added (if there is room), then the state is broadcast,
      also when the match is full. Phases and timer are untouched. */
  function Join(rules: Rules, s: State, socketId: string): (r: State)
    ensures r.(roster := s.roster, sent := s.sent) == s && r.sent == s.sent + 1
    ensures |s.roster| < rules.maxPlayers ==> r.roster == s.roster + [NewPlayer(socketId)]
    ensures |s.roster| >= rules.maxPlayers ==> r.roster == s.roster
  {
    Broadcast(AddPlayer(rules, s, NewPlayer(socketId)))
  }

  /** A disconnection: the first player with the socket's id is removed and the state broadcast;
      an unknown id changes nothing. Phases and timer are untouched either way; a disconnect does
      not send the match back to LOBBY. */
  function Leave(s: State, socketId: string): (r: State)
    ensures FindPlayer(s.roster, socketId).None? ==> r == s
    ensures FindPlayer(s.roster, socketId).Some? ==>
      var k := FindPlayer(s.roster, socketId).value;
      && r.(roster := s.roster, sent := s.sent) == s && r.sent == s.sent + 1
      && |r.roster| == |s.roster| - 1
      && r.roster[..k] == s.roster[..k]
      && r.roster[k..] == s.roster[k + 1..]
  {
    match FindPlayer(s.roster, socketId)
    case None => s
    case Some(i) => Broadcast(RemovePlayerAt(s, i))
  }

  /** What can happen to one match: connections, the two client events, one interval firing. */
  datatype Event = Connect(socketId: string) | Disconnect(socketId: string)
                 | Ready(playerId: string) | Scored(playerId: string) | Second(draw: int)

  function Step(rules: Rules, s: State, e: Event): State {
    match e
    case Connect(id) => Join(rules, s, id)
    case Disconnect(id) => Leave(s, id)
    case Ready(id) => PlayerReady(rules, s, id)
    case Scored(id) => PlayerScored(rules, s, id)
    case Second(draw) => Tick(rules, s, draw)
  }

  /** The state after a sequence of events. */
  function Replay(rules: Rules, s: State, events: seq<Event>): State
    decreases |events|
  {
    if events == [] then s else Replay(rules, Step(rules, s, events[0]), events[1..])
  }
}
