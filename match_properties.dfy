/** What the state machine promises: the roster cap, the effects of the event handlers, the
    phase-entry actions, and that no operation takes a round win away. */
module MatchProperties {
  import opened Options
  import opened Config
  import opened Roster
  import opened Match
  import Seqs

  /** Two rosters hold the same players in the same order, with the same rounds won and readiness;
      a round score is either kept or cleared to 0. */
  ghost predicate SamePlayers(a: seq<Player>, b: seq<Player>) {
    && |a| == |b|
    && forall i :: 0 <= i < |a| ==>
         && a[i].id == b[i].id && a[i].roundsWon == b[i].roundsWon && a[i].isReady == b[i].isReady
         && (b[i].roundScore == a[i].roundScore || b[i].roundScore == 0)
  }

  /** Entering a round phase changes no player except for clearing round scores. */
  lemma {:induction false} RoundEntryKeepsPlayers(rules: Rules, s: State, phase: RoundPhase, draw: int)
    ensures SamePlayers(s.roster, EnterRoundPhase(rules, s, phase, draw).roster)
    decreases RoundRank(phase), 1
  {
    var entered := s.(roundPhase := phase);
    match phase
    case Ending =>
      if AnyMatchWinner(entered.roster, rules.roundsToWinMatch) {
        MatchEntryKeepsPlayers(rules, entered, Complete);
      } else {
        RoundEntryKeepsPlayers(rules, entered, Starting, draw);
      }
    case _ =>
  }

  /** Entering a match phase changes no player except for clearing round scores. */
  lemma {:induction false} MatchEntryKeepsPlayers(rules: Rules, s: State, phase: MatchPhase)
    ensures SamePlayers(s.roster, EnterMatchPhase(rules, s, phase).roster)
    decreases MatchRank(phase), 1
  {
    if phase == Play {
      RoundEntryKeepsPlayers(rules, s.(matchPhase := phase), Starting, NO_DRAW);
    }
  }

  /** A timer tick changes no player except for clearing round scores. */
  lemma TickKeepsPlayers(rules: Rules, s: State, draw: int)
    ensures SamePlayers(s.roster, Tick(rules, s, draw).roster)
  {
    match s.timer
    case Stopped =>
    case Running(k) =>
      var counted := Broadcast(s.(remainingMs := s.remainingMs - 1000)).(timer := Stopped);
      match k
      case EnterMatchPlay => MatchEntryKeepsPlayers(rules, counted, Play);
      case EnterPrePlay => RoundEntryKeepsPlayers(rules, counted, PrePlay, draw);
      case EnterRoundPlay => RoundEntryKeepsPlayers(rules, counted, RoundPlay, draw);
      case DoNothing =>
      case EnterEnding => RoundEntryKeepsPlayers(rules, counted, Ending, draw);
  }

  /** `addPlayer` appends exactly when the roster is below `maxPlayers`; at the cap the roster is
      returned unchanged. */
  lemma AddPlayerRespectsCap(rules: Rules, s: State, p: Player)
    ensures var r := AddPlayer(rules, s, p);
      && (|s.roster| < rules.maxPlayers ==> r.roster == s.roster + [p])
      && (|s.roster| >= rules.maxPlayers ==> r.roster == s.roster)
      && r.(roster := s.roster) == s
  {
  }

  /** No event takes the roster above `maxPlayers`. */
  lemma StepKeepsCap(rules: Rules, s: State, e: Event)
    requires |s.roster| <= rules.maxPlayers
    ensures |Step(rules, s, e).roster| <= rules.maxPlayers
  {
    match e
    case Connect(id) =>
    case Disconnect(id) =>
    case Ready(id) =>
    case Scored(id) => ScoredKeepsPlayers(rules, s, id);
    case Second(draw) => TickKeepsPlayers(rules, s, draw);
  }

  /** Starting from the empty roster of a new game state, the roster never exceeds `maxPlayers`,
      whatever happens. */
  lemma {:induction false} ReplayKeepsCap(rules: Rules, s: State, events: seq<Event>)
    requires |s.roster| <= rules.maxPlayers
    ensures |Replay(rules, s, events).roster| <= rules.maxPlayers
    decreases |events|
  {
    if events != [] {
      StepKeepsCap(rules, s, events[0]);
      ReplayKeepsCap(rules, Step(rules, s, events[0]), events[1..]);
    }
  }

  /** Replaying two runs of events one after the other is replaying their concatenation. */
  lemma {:induction false} ReplayConcat(rules: Rules, s: State, first: seq<Event>, second: seq<Event>)
    ensures Replay(rules, s, first + second) == Replay(rules, Replay(rules, s, first), second)
    decreases |first|
  {
    if first == [] {
      assert first + second == second;
    } else {
      assert (first + second)[1..] == first[1..] + second;
      ReplayConcat(rules, Step(rules, s, first[0]), first[1..], second);
    }
  }

  lemma NewGameWithinCap(rules: Rules, events: seq<Event>)
    ensures |Replay(rules, INITIAL, events).roster| <= rules.maxPlayers
  {
    ReplayKeepsCap(rules, INITIAL, events);
  }

  /** `removePlayer` on the roster: the first occurrence is spliced out and everything else kept in
      order; a player who is not there leaves the roster as it was. */
  lemma RemovePlayerRemovesFirstOccurrence(s: State, p: Player)
    ensures var r := RemovePlayerAt(s, Seqs.IndexOf(s.roster, p));
      && (p !in s.roster ==> r == s)
      && (p in s.roster ==>
            var k := Seqs.IndexOf(s.roster, p);
            && |r.roster| == |s.roster| - 1
            && r.roster[..k] == s.roster[..k] && p !in s.roster[..k]
            && (forall j :: k <= j < |r.roster| ==> r.roster[j] == s.roster[j + 1])
            && multiset(r.roster)[p] == multiset(s.roster)[p] - 1
            && r.(roster := s.roster) == s)
  {
    if p in s.roster {
      var k := Seqs.IndexOf(s.roster, p);
      Seqs.RemoveFirstOccurrence(s.roster, p);
      Seqs.RemoveAtKeepsOthers(s.roster, k);
    }
  }

  /** Events naming an unknown player change nothing. */
  lemma UnknownPlayerChangesNothing(rules: Rules, s: State, playerId: string)
    requires forall j :: 0 <= j < |s.roster| ==> s.roster[j].id != playerId
    ensures PlayerReady(rules, s, playerId) == s
    ensures PlayerScored(rules, s, playerId) == s
    ensures Leave(s, playerId) == s
  {
  }

  /** `onPlayerReady` on a known player marks the first player with that id ready and broadcasts;
      it starts the lobby countdown toward match PLAY iff the roster then holds exactly `minPlayers`
      players, all ready, and otherwise leaves the timer alone. */
  lemma ReadyStartsLobbyCountdownIff(rules: Rules, s: State, playerId: string, i: nat)
    requires FindPlayer(s.roster, playerId) == Some(i)
    ensures var r := PlayerReady(rules, s, playerId);
      && r.roster == s.roster[i := s.roster[i].(isReady := true)]
      && r.matchPhase == s.matchPhase && r.roundPhase == s.roundPhase && r.sent == s.sent + 1
      && (r.timer, r.remainingMs) ==
         if |s.roster| == rules.minPlayers && forall j :: 0 <= j < |s.roster| && j != i ==> s.roster[j].isReady
         then (Running(EnterMatchPlay), CountdownLength(rules, Some(rules.timers.lobby)))
         else (s.timer, s.remainingMs)
  {
    var marked := s.roster[i := s.roster[i].(isReady := true)];
    assert forall j :: 0 <= j < |marked| ==> (marked[j].isReady <==> j == i || s.roster[j].isReady);
  }

  /** A roster larger (or smaller) than `minPlayers` never starts the lobby countdown. */
  lemma NoAutoStartAwayFromMinimum(rules: Rules, s: State, playerId: string)
    requires |s.roster| != rules.minPlayers
    ensures var r := PlayerReady(rules, s, playerId);
      r.timer == s.timer && r.remainingMs == s.remainingMs
  {
  }

  /** A score that wins no round only raises the scorer's round score; nothing is broadcast. */
  lemma ScoreWithoutWinner(rules: Rules, s: State, playerId: string, i: nat)
    requires FindPlayer(s.roster, playerId) == Some(i)
    requires s.roster[i].roundScore + 1 < rules.scoreToWinRound
    requires forall j :: 0 <= j < |s.roster| ==> s.roster[j].roundScore < rules.scoreToWinRound
    ensures PlayerScored(rules, s, playerId)
      == s.(roster := s.roster[i := s.roster[i].(roundScore := s.roster[i].roundScore + 1)])
  {
    var scored := s.roster[i := s.roster[i].(roundScore := s.roster[i].roundScore + 1)];
    assert FirstRoundWinner(scored, rules.scoreToWinRound).None? by {
      forall j | 0 <= j < |scored| ensures scored[j].roundScore < rules.scoreToWinRound {
      }
    }
  }

  /** A score after which some player has reached `scoreToWinRound`: the first such player in join
      order is credited with exactly one more round, nobody else's rounds change, and the round
      moves to POST_PLAY with the post-play countdown toward ENDING. */
  lemma ScoreWithWinner(rules: Rules, s: State, playerId: string, i: nat, w: nat)
    requires FindPlayer(s.roster, playerId) == Some(i)
    requires FirstRoundWinner(ScoreAt(s, i).roster, rules.scoreToWinRound) == Some(w)
    ensures var r := PlayerScored(rules, s, playerId);
      && |r.roster| == |s.roster|
      && r.roster[w].roundsWon == s.roster[w].roundsWon + 1
      && (forall j :: 0 <= j < |s.roster| && j != w ==> r.roster[j].roundsWon == s.roster[j].roundsWon)
      && (forall j :: 0 <= j < |s.roster| ==> r.roster[j].id == s.roster[j].id)
      && r.roundPhase == PostPlay && r.matchPhase == s.matchPhase
      && r.timer == Running(EnterEnding)
      && r.remainingMs == CountdownLength(rules, Some(rules.timers.postPlay))
      && r.sent == s.sent + 1
  {
    ScoredIntoPostPlay(rules, s, playerId, i, w);
  }

  /** The state a round-winning score leaves behind, spelled out. */
  lemma ScoredIntoPostPlay(rules: Rules, s: State, playerId: string, i: nat, w: nat)
    requires FindPlayer(s.roster, playerId) == Some(i)
    requires FirstRoundWinner(ScoreAt(s, i).roster, rules.scoreToWinRound) == Some(w)
    ensures PlayerScored(rules, s, playerId)
      == Broadcast(StartCountdown(rules, CreditRoundAt(ScoreAt(s, i), w).(roundPhase := PostPlay), EnterEnding, Some(rules.timers.postPlay)))
  {
    var won := CreditRoundAt(ScoreAt(s, i), w);
    assert PlayerScored(rules, s, playerId) == EnterRoundPhase(rules, won, PostPlay, NO_DRAW);
  }

  /** `onPlayerScored` keeps the roster's players in place and never lowers a rounds-won count. */
  lemma ScoredKeepsPlayers(rules: Rules, s: State, playerId: string)
    ensures var r := PlayerScored(rules, s, playerId);
      && |r.roster| == |s.roster|
      && forall j :: 0 <= j < |s.roster| ==>
           r.roster[j].id == s.roster[j].id && r.roster[j].roundsWon >= s.roster[j].roundsWon
  {
    match FindPlayer(s.roster, playerId) {
      case None =>
      case Some(i) =>
        match FirstRoundWinner(ScoreAt(s, i).roster, rules.scoreToWinRound) {
          case None =>
          case Some(w) =>
            var won := CreditRoundAt(ScoreAt(s, i), w);
            assert PlayerScored(rules, s, playerId) == EnterRoundPhase(rules, won, PostPlay, NO_DRAW);
            RoundEntryKeepsPlayers(rules, won, PostPlay, NO_DRAW);
        }
    }
  }

  /** Scoring is not limited to round PLAY, and a won round's scores stay until STARTING clears
      them. So once some player `w` is the first in join order at the threshold, a further score in
      any phase credits `w` with yet another round, unless the scorer stands before `w` and this
      score takes them to the threshold too (then the scorer is credited instead, see
      Scenario.EarlierPlayerTakesTheCredit). */
  lemma ScoringAfterRoundWinCreditsAgain(rules: Rules, s: State, playerId: string, i: nat, w: nat)
    requires FindPlayer(s.roster, playerId) == Some(i)
    requires FirstRoundWinner(s.roster, rules.scoreToWinRound) == Some(w)
    requires i >= w || s.roster[i].roundScore + 1 < rules.scoreToWinRound
    ensures var r := PlayerScored(rules, s, playerId);
      && r.roster[w].roundsWon == s.roster[w].roundsWon + 1
      && (forall j :: 0 <= j < |s.roster| && j != w ==> r.roster[j].roundsWon == s.roster[j].roundsWon)
      && r.roundPhase == PostPlay && r.timer == Running(EnterEnding)
  {
    var scored := ScoreAt(s, i).roster;
    assert scored[w].roundScore >= rules.scoreToWinRound;
    assert forall j :: 0 <= j < w ==> scored[j].roundScore < rules.scoreToWinRound;
    match FirstRoundWinner(scored, rules.scoreToWinRound) {
      case None =>
        assert false;
      case Some(v) =>
        assert v == w;
    }
    ScoreWithWinner(rules, s, playerId, i, w);
  }

  /** No event lowers anyone's rounds won: events other than connections keep the roster's players
      in place with no fewer rounds won; a connection only appends a new player with none, and a
      disconnection only splices one player out. */
  lemma RoundsWonNeverDecrease(rules: Rules, s: State, e: Event)
    ensures var r := Step(rules, s, e);
      && (!e.Connect? && !e.Disconnect? ==>
            && |r.roster| == |s.roster|
            && forall j :: 0 <= j < |s.roster| ==>
                 r.roster[j].id == s.roster[j].id && r.roster[j].roundsWon >= s.roster[j].roundsWon)
      && (e.Connect? ==> r.roster == s.roster || r.roster == s.roster + [NewPlayer(e.socketId)])
      && (e.Disconnect? ==>
            r.roster == s.roster
            || exists k :: 0 <= k < |s.roster| && r.roster == Seqs.RemoveAt(s.roster, k))
  {
    match e
    case Connect(id) =>
    case Disconnect(id) =>
      match FindPlayer(s.roster, id) {
        case None =>
        case Some(k) => assert Step(rules, s, e).roster == Seqs.RemoveAt(s.roster, k);
      }
    case Ready(id) =>
    case Scored(id) => ScoredKeepsPlayers(rules, s, id);
    case Second(draw) => TickKeepsPlayers(rules, s, draw);
  }

  /** Entering STARTING clears every round score and keeps ids, rounds won, readiness and order;
      it arms the 1 ms countdown toward PRE_PLAY. */
  lemma StartingResetsScores(rules: Rules, s: State, draw: int)
    ensures var r := EnterRoundPhase(rules, s, Starting, draw);
      && r.roundPhase == Starting && r.matchPhase == s.matchPhase
      && |r.roster| == |s.roster|
      && (forall j :: 0 <= j < |s.roster| ==> r.roster[j] == s.roster[j].(roundScore := 0))
      && r.timer == Running(EnterPrePlay) && r.remainingMs == STARTING_MS
      && r.sent == s.sent + 1
  {
  }

  /** `setMatchPhase(PLAY)` always leaves the round in STARTING, and broadcasts twice (once for the
      round phase, once for the match phase). */
  lemma MatchPlayStartsRound(rules: Rules, s: State)
    ensures var r := EnterMatchPhase(rules, s, Play);
      && r.matchPhase == Play && r.roundPhase == Starting
      && r.roster == ResetScores(s.roster)
      && r.timer == Running(EnterPrePlay) && r.sent == s.sent + 2
  {
  }

  /** `setMatchPhase(LOBBY)` and `setMatchPhase(COMPLETE)` only set the phase and broadcast. */
  lemma OtherMatchPhasesOnlyBroadcast(rules: Rules, s: State, phase: MatchPhase)
    requires phase != Play
    ensures EnterMatchPhase(rules, s, phase) == s.(matchPhase := phase, sent := s.sent + 1)
  {
  }

  /** ENDING completes the match iff some player has won `roundsToWinMatch` rounds; otherwise it
      starts the next round. */
  lemma EndingOutcome(rules: Rules, s: State, draw: int)
    ensures var r := EnterRoundPhase(rules, s, Ending, draw);
      && (AnyMatchWinner(s.roster, rules.roundsToWinMatch) ==>
            r == s.(matchPhase := Complete, roundPhase := Ending, sent := s.sent + 2))
      && (!AnyMatchWinner(s.roster, rules.roundsToWinMatch) ==>
            r == EnterRoundPhase(rules, s, Starting, draw).(sent := s.sent + 2))
      && (s.matchPhase == Play ==>
            (r.matchPhase == Complete <==>
             exists j :: 0 <= j < |s.roster| && s.roster[j].roundsWon >= rules.roundsToWinMatch))
  {
  }

  /** The random draw is read only on entering round PLAY. */
  lemma DrawOnlyMattersForRoundPlay(rules: Rules, s: State, phase: RoundPhase, d1: int, d2: int)
    requires phase != RoundPlay
    ensures EnterRoundPhase(rules, s, phase, d1) == EnterRoundPhase(rules, s, phase, d2)
  {
  }

  /** Round PLAY runs a countdown of `draw` seconds whose expiry does nothing. */
  lemma RoundPlayCountdown(rules: Rules, s: State, draw: int)
    requires 1 <= draw <= 10
    ensures var r := EnterRoundPhase(rules, s, RoundPlay, draw);
      r == s.(roundPhase := RoundPlay, remainingMs := draw * 1000, timer := Running(DoNothing), sent := s.sent + 1)
  {
  }

  /** ENDING enters COMPLETE from the tick that fired POST_PLAY's countdown, and that tick has
      already cleared the interval: the match is COMPLETE with nothing pending. */
  lemma CompleteIsEnteredWithNothingPending(rules: Rules, s: State, draw: int)
    requires s.matchPhase == Play && s.timer == Running(EnterEnding) && s.remainingMs <= 1000
    requires AnyMatchWinner(s.roster, rules.roundsToWinMatch)
    ensures Tick(rules, s, draw).matchPhase == Complete
    ensures Tick(rules, s, draw).timer == Stopped
  {
    var fired := s.(remainingMs := s.remainingMs - 1000, sent := s.sent + 1, timer := Stopped);
    assert Tick(rules, s, draw) == EnterRoundPhase(rules, fired, Ending, draw);
    EndingOutcome(rules, fired, draw);
  }

  /** COMPLETE is not final: "ready" is accepted in any phase, so a later "ready" can arm the lobby
      countdown again (MatchProperties.ReadyStartsLobbyCountdownIff), and when that countdown fires
      the match re-enters PLAY and a new round. */
  lemma CompleteIsNotFinal(rules: Rules, s: State, draw: int)
    requires s.matchPhase == Complete
    requires s.timer == Running(EnterMatchPlay) && s.remainingMs <= 1000
    ensures Tick(rules, s, draw).matchPhase == Play
    ensures Tick(rules, s, draw).roundPhase == Starting
  {
  }
}
