/** The framework's objects: players whose fields are updated in place, the game mode that owns
    the roster and the timer slot, the session that binds a game mode to a room, and the registry
    of sessions. Every state-changing method is proved to agree with the value-level function of
    module Match, so the properties proved there hold of these objects. */
module Framework {
  import opened Options
  import opened Config
  import opened Roster
  import opened Match
  import Seqs
  import Registry

  class PlayerState {
    const id: string
    var roundScore: nat
    var roundsWon: nat
    var isReady: bool

    constructor (id: string)
      ensures View() == NewPlayer(id)
    {
      this.id := id;
      roundScore := 0;
      roundsWon := 0;
      isReady := false;
    }

    /** The player's fields as a value. */
    function View(): Player
      reads this
    {
      Player(id, roundScore, roundsWon, isReady)
    }

    method IncrementRoundScore()
      modifies this
      ensures View() == old(View()).(roundScore := old(roundScore) + 1)
    {
      roundScore := roundScore + 1;
    }
  }

  class GameMode {
    const session: Session
    const rules: Rules
    var matchPhase: MatchPhase
    var roundPhase: RoundPhase
    var players: seq<PlayerState>
    var remainingMs: int
    var timer: Timer
    ghost var sent: nat

    /** The roster never exceeds its capacity and holds each player object once. */
    ghost predicate Valid()
      reads this
    {
      |players| <= rules.maxPlayers && Seqs.Distinct(players)
    }

    /** The players' values, in join order. */
    function Roster(): (r: seq<Player>)
      reads this, players
      ensures |r| == |players|
      ensures forall i :: 0 <= i < |players| ==> r[i] == players[i].View()
    {
      seq(|players|, i reads this, players requires 0 <= i < |players| => players[i].View())
    }

    /** The whole state as a value of module Match. */
    ghost function Abstract(): State
      reads this, players
    {
      State(matchPhase, roundPhase, Roster(), remainingMs, timer, sent)
    }

    constructor (session: Session, rules: Rules)
      ensures this.session == session && this.rules == rules
      ensures Valid() && Abstract() == INITIAL
    {
      this.session := session;
      this.rules := rules;
      matchPhase := Lobby;
      roundPhase := Starting;
      players := [];
      remainingMs := 0;
      timer := Stopped;
      sent := 0;
    }

    method MultiCastGameState()
      modifies this
      ensures players == old(players)
      ensures Abstract() == Broadcast(old(Abstract()))
    {
      sent := sent + 1;
    }

    method AddPlayer(player: PlayerState)
      requires Valid() && player !in players
      modifies this
      ensures Valid()
      ensures players == if old(|players|) < rules.maxPlayers then old(players) + [player] else old(players)
      ensures Abstract() == Match.AddPlayer(rules, old(Abstract()), player.View())
    {
      if |players| < rules.maxPlayers {
        players := players + [player];
        assert Roster() == old(Roster()) + [player.View()];
      }
    }

    /** `removePlayer`: splice out the player's first position, ask the session to end when the
        roster is then empty (even if nobody was removed). It does not broadcast. */
    method RemovePlayer(player: PlayerState)
      requires Valid()
      modifies this, session.manager
      ensures Valid()
      ensures var k := Seqs.IndexOf(old(players), player);
        players == if k >= 0 then Seqs.RemoveAt(old(players), k) else old(players)
      ensures Abstract() == RemovePlayerAt(old(Abstract()), Seqs.IndexOf(old(players), player))
      ensures session.manager.sessions ==
        if players == [] then old(session.manager.sessions) - {session.room} else old(session.manager.sessions)
    {
      var index := Seqs.IndexOf(players, player);
      if index > -1 {
        SpliceOut(index);
      }
      if |players| < 1 {
        session.EndSession();
      }
    }

    /** `players.splice(index, 1)`. */
    method SpliceOut(index: nat)
      requires Valid() && index < |players|
      modifies this
      ensures Valid() && players == Seqs.RemoveAt(old(players), index)
      ensures Abstract() == RemovePlayerAt(old(Abstract()), index)
    {
      Seqs.RemoveAtDistinct(players, index);
      Seqs.RemoveAtKeepsOthers(Roster(), index);
      players := players[..index] + players[index + 1..];
      assert Roster() == Seqs.RemoveAt(old(Roster()), index);
    }

    method OnPlayerReady(playerId: string)
      requires Valid()
      modifies this, players
      ensures Valid() && players == old(players)
      ensures Abstract() == PlayerReady(rules, old(Abstract()), playerId)
    {
      var found := FindPlayer(Roster(), playerId);
      if found.None? {
        return;
      }
      var player := players[found.value];
      player.isReady := true;
      assert Roster() == old(Roster())[found.value := old(Roster())[found.value].(isReady := true)];
      MultiCastGameState();
      CheckAllPlayersReady();
    }

    method OnPlayerScored(playerId: string)
      requires Valid()
      modifies this, players
      ensures Valid() && players == old(players)
      ensures Abstract() == PlayerScored(rules, old(Abstract()), playerId)
    {
      var found := FindPlayer(Roster(), playerId);
      if found.None? {
        return;
      }
      var i := found.value;
      ghost var a0 := Abstract();
      CreditScore(i);
      assert Abstract() == ScoreAt(a0, i);
      var winner := FirstRoundWinner(Roster(), rules.scoreToWinRound);
      if winner.Some? {
        CreditRoundWin(winner.value);
        assert Abstract() == CreditRoundAt(ScoreAt(a0, i), winner.value);
        SetRoundPhase(PostPlay, NO_DRAW);
      }
    }

    /** `player.incrementRoundScore()` for the player at position `i`; no other player changes. */
    method CreditScore(i: nat)
      requires Valid() && i < |players|
      modifies players[i]
      ensures Abstract() == ScoreAt(old(Abstract()), i)
    {
      players[i].IncrementRoundScore();
      assert Roster() == ScoreAt(old(Abstract()), i).roster;
    }

    /** `winner.roundsWon++` on the player at position `i`; no other player changes. */
    method CreditRoundWin(i: nat)
      requires Valid() && i < |players|
      modifies players[i]
      ensures Abstract() == CreditRoundAt(old(Abstract()), i)
    {
      players[i].roundsWon := players[i].roundsWon + 1;
      assert Roster() == CreditRoundAt(old(Abstract()), i).roster;
    }

    method CheckAllPlayersReady()
      modifies this
      ensures players == old(players)
      ensures Abstract() == Match.CheckAllPlayersReady(rules, old(Abstract()))
    {
      var hasEnoughPlayers := |players| == rules.minPlayers;
      var isAllPlayersReady := AllReady(Roster());
      if hasEnoughPlayers && isAllPlayersReady {
        StartCountdown(EnterMatchPlay, Some(rules.timers.lobby));
      }
    }

    method SetMatchPhase(phase: MatchPhase)
      requires Valid()
      modifies this, players
      ensures Valid() && players == old(players)
      ensures Abstract() == EnterMatchPhase(rules, old(Abstract()), phase)
      decreases MatchRank(phase)
    {
      ghost var entered := old(Abstract()).(matchPhase := phase);
      matchPhase := phase;
      assert Abstract() == entered;
      if phase == Play {
        SetRoundPhase(Starting, NO_DRAW);
      }
      assert Abstract() == if phase == Play then EnterRoundPhase(rules, entered, Starting, NO_DRAW) else entered;
      MultiCastGameState();
    }

    method SetRoundPhase(phase: RoundPhase, draw: int)
      requires Valid() && 1 <= draw <= 10
      modifies this, players
      ensures Valid() && players == old(players)
      ensures Abstract() == EnterRoundPhase(rules, old(Abstract()), phase, draw)
      decreases RoundRank(phase)
    {
      ghost var entered := old(Abstract()).(roundPhase := phase);
      roundPhase := phase;
      assert Abstract() == entered;
      match phase {
      case Starting =>
        ResetRoundScores();
        assert Abstract() == entered.(roster := ResetScores(entered.roster));
        StartCountdown(EnterPrePlay, Some(STARTING_MS));
      case PrePlay =>
        StartCountdown(EnterRoundPlay, Some(rules.timers.prePlay));
      case RoundPlay =>
        StartCountdown(DoNothing, Some(draw * 1000));
      case PostPlay =>
        StartCountdown(EnterEnding, Some(rules.timers.postPlay));
      case Ending =>
        if AnyMatchWinner(Roster(), rules.roundsToWinMatch) {
          SetMatchPhase(Complete);
        } else {
          SetRoundPhase(Starting, draw);
        }
      }
      MultiCastGameState();
    }

    /** The `forEach` of round STARTING, one player object at a time. */
    method ResetRoundScores()
      requires Valid()
      modifies players
      ensures Abstract() == old(Abstract()).(roster := ResetScores(old(Roster())))
    {
      ghost var before := Roster();
      var i := 0;
      while i < |players|
        invariant 0 <= i <= |players|
        invariant forall j :: 0 <= j < i ==> players[j].View() == before[j].(roundScore := 0)
        invariant forall j :: i <= j < |players| ==> players[j].View() == before[j]
      {
        players[i].roundScore := 0;
        i := i + 1;
      }
      assert Roster() == ResetScores(before);
    }

    method StartCountdown(onExpiry: Continuation, duration: Option<int>)
      modifies this
      ensures players == old(players)
      ensures Abstract() == Match.StartCountdown(rules, old(Abstract()), onExpiry, duration)
    {
      // Overwriting the single slot is the clearInterval of the previous timer.
      remainingMs := CountdownLength(rules, duration);
      timer := Running(onExpiry);
    }

    /** One firing of the interval; `draw` is the random PLAY length used if the callback enters
        round PLAY. */
    method Tick(draw: int)
      requires Valid() && 1 <= draw <= 10
      modifies this, players
      ensures Valid() && players == old(players)
      ensures Abstract() == Match.Tick(rules, old(Abstract()), draw)
    {
      if timer.Running? {
        var onExpiry := timer.onExpiry;
        ghost var counted := Broadcast(old(Abstract()).(remainingMs := remainingMs - 1000));
        CountDown();
        assert Abstract() == counted;
        if remainingMs <= 0 {
          timer := Stopped;
          assert Abstract() == counted.(timer := Stopped);
          assert Match.Tick(rules, old(Abstract()), draw) == Run(rules, Abstract(), onExpiry, draw);
          RunCallback(onExpiry, draw);
        }
      }
    }

    /** One second off the countdown, then the state is broadcast. */
    method CountDown()
      modifies this
      ensures players == old(players) && timer == old(timer)
      ensures Abstract() == Broadcast(old(Abstract()).(remainingMs := old(remainingMs) - 1000))
    {
      remainingMs := remainingMs - 1000;
      MultiCastGameState();
    }

    /** Invoke the callback a countdown was started with. */
    method RunCallback(onExpiry: Continuation, draw: int)
      requires Valid() && 1 <= draw <= 10
      modifies this, players
      ensures Valid() && players == old(players)
      ensures Abstract() == Run(rules, old(Abstract()), onExpiry, draw)
    {
      match onExpiry
      case EnterMatchPlay => SetMatchPhase(Play);
      case EnterPrePlay => SetRoundPhase(PrePlay, draw);
      case EnterRoundPlay => SetRoundPhase(RoundPlay, draw);
      case DoNothing =>
      case EnterEnding => SetRoundPhase(Ending, draw);
    }
  }

  class Session {
    var room: string
    var gameMode: GameMode?
    const manager: SessionManager

    /** The game mode belongs to this session, and once a player is present the room has been
        derived from a handshake. */
    ghost predicate Valid()
      reads this, gameMode
    {
      && gameMode != null && gameMode.session == this && gameMode.Valid()
      && (gameMode.players != [] ==> Registry.IsRoomKey(room))
    }

    constructor (rules: Rules, manager: SessionManager)
      ensures Valid() && this.manager == manager && room == ""
      ensures fresh(gameMode) && gameMode.rules == rules && gameMode.Abstract() == INITIAL
    {
      room := "";
      gameMode := null;
      this.manager := manager;
      new;
      gameMode := new GameMode(this, rules);
    }

    /** A connection whose handshake names `sessionQuery`: the room is derived from it, a player
        for the socket is added and the state broadcast. The source's "no room" guard can never
        fire, since the derived room is never empty. */
    method Connect(sessionQuery: string, socketId: string)
      requires Valid()
      modifies this, gameMode
      ensures Valid() && gameMode == old(gameMode) && room == Registry.RoomKey(sessionQuery)
      ensures gameMode.Abstract() == Join(gameMode.rules, old(gameMode.Abstract()), socketId)
    {
      room := Registry.RoomKey(sessionQuery);
      Registry.RoomIsNeverAnId(sessionQuery);
      var player := new PlayerState(socketId);
      gameMode.AddPlayer(player);
      gameMode.MultiCastGameState();
    }

    /** The disconnect handler: the first player with the socket's id is removed (which ends the
        session when the roster becomes empty) and the state broadcast. Because the registry is
        keyed by bare ids and the session passes its room, the registry is left as it was. */
    method Disconnect(socketId: string)
      requires Valid() && manager.Valid()
      modifies gameMode, manager
      ensures Valid() && gameMode == old(gameMode) && manager.Valid()
      ensures gameMode.Abstract() == Leave(old(gameMode.Abstract()), socketId)
      // The last player leaving does ask the registry to end the entry keyed by `room`, but the
      // registry's keys are generated ids and `room` never is one, so nothing is deleted.
      ensures manager.sessions == old(manager.sessions)
    {
      ghost var before := gameMode.Abstract();
      var found := FindPlayer(gameMode.Roster(), socketId);
      if found.Some? {
        Seqs.IndexOfDistinct(gameMode.players, found.value);
        gameMode.RemovePlayer(gameMode.players[found.value]);
        assert room[..|Registry.ROOM_PREFIX|] == Registry.ROOM_PREFIX;
        assert room !in manager.sessions;
        ghost var removed := gameMode.Abstract();
        assert removed == RemovePlayerAt(before, found.value);
        gameMode.MultiCastGameState();
        assert gameMode.Abstract() == Broadcast(removed);
      }
    }

    /** Asks the registry to end the session registered under this session's room. */
    method EndSession()
      modifies manager
      ensures manager.sessions == old(manager.sessions) - {room}
    {
      manager.EndSession(room);
    }
  }

  class SessionManager {
    var sessions: map<string, Session>

    /** Every key was produced by the id generator. */
    ghost predicate Valid()
      reads this
    {
      forall k :: k in sessions ==> Registry.ValidId(k)
    }

    constructor ()
      ensures Valid() && sessions == map[]
    {
      sessions := map[];
    }

    /** `createSession`; `id` is the generated session id. An existing entry under the same id is
        replaced, as `Map.set` does. */
    method CreateSession(id: string, rules: Rules) returns (sessionId: string)
      requires Valid() && Registry.ValidId(id)
      modifies this
      ensures Valid() && sessionId == id
      ensures GetSession(id).Some? && fresh(sessions[id])
      ensures sessions == old(sessions)[id := sessions[id]]
      ensures sessions[id].Valid() && sessions[id].manager == this && sessions[id].room == ""
      ensures sessions[id].gameMode.rules == rules && sessions[id].gameMode.Abstract() == INITIAL
    {
      var session := new Session(rules, this);
      sessions := sessions[id := session];
      sessionId := id;
    }

    /** `getSession`: the session registered under `sessionId`, or none. */
    function GetSession(sessionId: string): (r: Option<Session>)
      reads this
      ensures r.Some? <==> sessionId in sessions
      ensures r.Some? ==> r.value == sessions[sessionId]
    {
      if sessionId in sessions then Some(sessions[sessionId]) else None
    }

    /** `endSession`: delete the entry when present. The session's own `endSession`, which the
        source calls first, asks for its room to be ended; that room is never a key
        (Registry.TeardownIsDeleteIfPresent), so the nested call is not repeated here. */
    method EndSession(sessionId: string)
      modifies this
      ensures sessions == old(sessions) - {sessionId}
      ensures old(Valid()) ==> Valid()
      ensures GetSession(sessionId).None?
    {
      var session := GetSession(sessionId);
      if session.Some? {
        sessions := sessions - {sessionId};
      }
    }
  }
}
