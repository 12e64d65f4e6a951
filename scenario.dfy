/** One round of a two-player match under `DEFAULT_RULES`, event by event: both players join and
    ready up, the lobby countdown starts the match, the round passes through STARTING and
    PRE_PLAY into PLAY, a score wins the round, and POST_PLAY and ENDING lead into the next
    round because nobody has won three rounds yet. */
module Scenario {
  import opened Options
  import opened Config
  import opened Roster
  import opened Match
  import opened CountdownProperties
  import MatchProperties

  /** Both players join: the roster holds them in join order, neither ready, no countdown. */
  lemma BothJoin()
    ensures Replay(DEFAULT_RULES, INITIAL, [Connect("a"), Connect("b")])
      == State(Lobby, Starting, [NewPlayer("a"), NewPlayer("b")], 0, Stopped, 2)
  {
    var s1 := Step(DEFAULT_RULES, INITIAL, Connect("a"));
    assert s1 == State(Lobby, Starting, [NewPlayer("a")], 0, Stopped, 1);
    assert Replay(DEFAULT_RULES, s1, [Connect("b")]) == Step(DEFAULT_RULES, s1, Connect("b"));
  }

  /** The first "ready" only marks its player; the second, with both players present, starts the
      lobby countdown toward match PLAY. */
  lemma BothReady()
    ensures Step(DEFAULT_RULES, State(Lobby, Starting, [NewPlayer("a"), NewPlayer("b")], 0, Stopped, 2), Ready("a"))
      == State(Lobby, Starting, [Player("a", 0, 0, true), NewPlayer("b")], 0, Stopped, 3)
    ensures Replay(DEFAULT_RULES, State(Lobby, Starting, [NewPlayer("a"), NewPlayer("b")], 0, Stopped, 2), [Ready("a"), Ready("b")])
      == State(Lobby, Starting, [Player("a", 0, 0, true), Player("b", 0, 0, true)], 5000, Running(EnterMatchPlay), 4)
  {
    var s2 := State(Lobby, Starting, [NewPlayer("a"), NewPlayer("b")], 0, Stopped, 2);
    var s3 := Step(DEFAULT_RULES, s2, Ready("a"));
    assert FindPlayer(s2.roster, "a") == Some(0);
    assert !AllReady(s3.roster) by { assert !s3.roster[1].isReady; }
    assert s3 == State(Lobby, Starting, [Player("a", 0, 0, true), NewPlayer("b")], 0, Stopped, 3);
    assert FindPlayer(s3.roster, "b") == Some(1);
    assert Replay(DEFAULT_RULES, s3, [Ready("b")]) == Step(DEFAULT_RULES, s3, Ready("b"));
  }

  /** Both players joined and readied; the lobby countdown is pending. */
  lemma LobbyCountdownStarts()
    ensures Replay(DEFAULT_RULES, INITIAL, [Connect("a"), Connect("b"), Ready("a"), Ready("b")])
      == State(Lobby, Starting, [Player("a", 0, 0, true), Player("b", 0, 0, true)], 5000, Running(EnterMatchPlay), 4)
  {
    BothJoin();
    BothReady();
    assert [Connect("a"), Connect("b"), Ready("a"), Ready("b")] == [Connect("a"), Connect("b")] + [Ready("a"), Ready("b")];
    MatchProperties.ReplayConcat(DEFAULT_RULES, INITIAL, [Connect("a"), Connect("b")], [Ready("a"), Ready("b")]);
  }

  /** Five seconds later the match is in PLAY and round STARTING's 1 ms countdown is pending. */
  lemma MatchBegins()
    ensures var lobby := State(Lobby, Starting, [Player("a", 0, 0, true), Player("b", 0, 0, true)], 5000, Running(EnterMatchPlay), 4);
      Ticks(DEFAULT_RULES, lobby, 5, 3)
      == State(Play, Starting, [Player("a", 0, 0, true), Player("b", 0, 0, true)], 1, Running(EnterPrePlay), 11)
  {
    var lobby := State(Lobby, Starting, [Player("a", 0, 0, true), Player("b", 0, 0, true)], 5000, Running(EnterMatchPlay), 4);
    FiresOnTick(DEFAULT_RULES, lobby, 5, 3);
    assert ResetScores(lobby.roster) == lobby.roster;
  }

  /** One tick into PRE_PLAY, five more into round PLAY with a drawn length of three seconds. */
  lemma RoundPlayBegins()
    ensures var starting := State(Play, Starting, [Player("a", 0, 0, true), Player("b", 0, 0, true)], 1, Running(EnterPrePlay), 11);
      && Ticks(DEFAULT_RULES, starting, 1, 3)
         == State(Play, PrePlay, [Player("a", 0, 0, true), Player("b", 0, 0, true)], 5000, Running(EnterRoundPlay), 13)
      && Ticks(DEFAULT_RULES, Ticks(DEFAULT_RULES, starting, 1, 3), 5, 3)
         == State(Play, RoundPlay, [Player("a", 0, 0, true), Player("b", 0, 0, true)], 3000, Running(DoNothing), 19)
  {
    var starting := State(Play, Starting, [Player("a", 0, 0, true), Player("b", 0, 0, true)], 1, Running(EnterPrePlay), 11);
    FiresOnTick(DEFAULT_RULES, starting, 1, 3);
    var prePlay := State(Play, PrePlay, [Player("a", 0, 0, true), Player("b", 0, 0, true)], 5000, Running(EnterRoundPlay), 13);
    FiresOnTick(DEFAULT_RULES, prePlay, 5, 3);
  }

  /** Player "a" scores in round PLAY: the round is won, POST_PLAY's countdown replaces PLAY's. */
  lemma RoundIsWon()
    ensures var play := State(Play, RoundPlay, [Player("a", 0, 0, true), Player("b", 0, 0, true)], 3000, Running(DoNothing), 19);
      PlayerScored(DEFAULT_RULES, play, "a")
      == State(Play, PostPlay, [Player("a", 1, 1, true), Player("b", 0, 0, true)], 5000, Running(EnterEnding), 20)
  {
    var play := State(Play, RoundPlay, [Player("a", 0, 0, true), Player("b", 0, 0, true)], 3000, Running(DoNothing), 19);
    assert FindPlayer(play.roster, "a") == Some(0);
    var scored := play.(roster := [Player("a", 1, 0, true), Player("b", 0, 0, true)]);
    assert FirstRoundWinner(scored.roster, 1) == Some(0);
  }

  /** POST_PLAY runs out, ENDING finds no match winner, and the next round starts with the round
      scores cleared and the round won kept. */
  lemma NextRoundStarts()
    ensures var postPlay := State(Play, PostPlay, [Player("a", 1, 1, true), Player("b", 0, 0, true)], 5000, Running(EnterEnding), 20);
      Ticks(DEFAULT_RULES, postPlay, 5, 3)
      == State(Play, Starting, [Player("a", 0, 1, true), Player("b", 0, 0, true)], 1, Running(EnterPrePlay), 27)
  {
    var postPlay := State(Play, PostPlay, [Player("a", 1, 1, true), Player("b", 0, 0, true)], 5000, Running(EnterEnding), 20);
    FiresOnTick(DEFAULT_RULES, postPlay, 5, 3);
    var ending := postPlay.(roundPhase := Ending, remainingMs := 0, sent := 25, timer := Stopped);
    assert !AnyMatchWinner(ending.roster, 3);
    assert ResetScores(ending.roster) == [Player("a", 0, 1, true), Player("b", 0, 0, true)];
  }

  /** After "b" has won a round, a score by "a", who joined earlier, takes "a" to the threshold:
      the first player at the threshold is now "a", so "a" is credited with the round and "b"'s
      earlier win is not repeated. */
  lemma EarlierPlayerTakesTheCredit()
    ensures var postPlay := State(Play, PostPlay, [Player("a", 0, 0, true), Player("b", 1, 1, true)], 5000, Running(EnterEnding), 20);
      PlayerScored(DEFAULT_RULES, postPlay, "a")
      == State(Play, PostPlay, [Player("a", 1, 1, true), Player("b", 1, 1, true)], 5000, Running(EnterEnding), 21)
  {
    var postPlay := State(Play, PostPlay, [Player("a", 0, 0, true), Player("b", 1, 1, true)], 5000, Running(EnterEnding), 20);
    assert FindPlayer(postPlay.roster, "a") == Some(0);
    assert FirstRoundWinner(ScoreAt(postPlay, 0).roster, 1) == Some(0);
  }
}
