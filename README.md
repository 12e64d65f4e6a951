# Round-based match framework: a verified model

This project models the core of a backend framework for small, session-scoped multiplayer
matches (`src/games/framework/index.ts`). A **game mode** holds the players of one match in
join order. It takes each match through the phases LOBBY, PLAY and COMPLETE. While the match is
in PLAY it runs a cycle of round phases: STARTING, PRE_PLAY, PLAY, POST_PLAY, ENDING, and then
STARTING again or the end of the match. Phases advance on a single one-second countdown timer
and on two client events, "ready" and "scored". Every change is broadcast to the session's room,
with two exceptions: a score that wins no round sends nothing, and the lobby countdown armed by
the last "ready" is first sent by the next tick, because the handler broadcasts before it checks
readiness.
A **session** binds a game mode to a room and turns socket connections and disconnections into
roster changes. The **session manager** keeps the sessions in a map keyed by generated ids.

The model has two layers:

- **Values.** Modules `Roster`, `Match` and `Registry` describe players, the whole match state
  and the session ids as datatypes. Every game-mode operation is a function on them. Modules
  `MatchProperties`, `CountdownProperties` and `Scenario` prove what those functions promise.
- **Objects.** Module `Framework` has the classes `PlayerState`, `GameMode`, `Session` and
  `SessionManager`. Their fields are updated in place, as in the source: the roster is a sequence
  of player objects whose fields are assigned, and the registry is a map field. Each method of
  `GameMode` is proved to leave `Abstract()` equal to the matching `Match` function applied to
  the old state. So every lemma about the functions also holds for the objects.

Modelling choices:

- The external inputs are parameters. These are the socket id and the handshake's session
  query, the one-second timer firing (`Tick`), the random length of round PLAY (`draw`, from 1
  to 10 seconds), and the generated session id.
- `multiCastGameState` sends the whole state to the room. The model counts the sends in a ghost
  counter `sent`.
- The countdown keeps integer milliseconds. The source keeps `duration / 1000` seconds as a
  float and subtracts 1 per tick. Subtracting 1000 ms per tick and firing at or below 0 gives
  the same firing tick. So the 1 ms countdown of STARTING fires on the first tick.
- The single timer slot is `Timer = Stopped | Running(onExpiry)`. The callbacks are the five
  `Continuation`s that the source passes to `startCountdown`.
- `GameState` has no behaviour of its own beyond field setters, so its fields are fields of
  `GameMode`.

### Behaviour of the code worth knowing

- `multiCastGameState` always sends the whole state. The state has no field naming the round
  winner (`index.ts:305-310`).
- `setMatchPhase(PLAY)` broadcasts twice: once from the nested `setRoundPhase(STARTING)` and
  once itself (`MatchProperties.MatchPlayStartsRound`).
- COMPLETE is entered from the tick that fired POST_PLAY's countdown. That tick has already
  cleared the interval, so nothing is pending in COMPLETE
  (`MatchProperties.CompleteIsEnteredWithNothingPending`). COMPLETE is still not final. "ready"
  is accepted in any phase, so a later "ready" can arm the lobby countdown again. When that
  countdown fires, the match re-enters PLAY and a new round starts
  (`MatchProperties.CompleteIsNotFinal`).
- "scored" is accepted in any phase, and round scores are cleared only on entering STARTING.
  After a round has been won, a further score credits another round to the first player in join
  order who is at the threshold. That is the earlier winner
  (`MatchProperties.ScoringAfterRoundWinCreditsAgain`), unless the score takes a player who
  joined before them to the threshold. Then that player is credited instead
  (`Scenario.EarlierPlayerTakesTheCredit`).
- A score that wins no round broadcasts nothing (`MatchProperties.ScoreWithoutWinner`).
- A disconnect leaves the match and round phases and the timer as they were
  (`Match.Leave`).
- When the roster becomes empty, the session asks the manager to end the key
  `"gameSession-" + query`. The manager's keys are bare generated ids of at most nine base-36
  digits, so the lookup misses and nothing is deleted (`Framework.Session.Disconnect`,
  `Registry.SessionCallDeletesNothing`).

## Model

| member | source | states |
|---|---|---|
| Roster.FindPlayer | src/games/framework/index.ts:165 | the position of the first player with the id, or none exactly when no player has it |
| Roster.FirstRoundWinner | src/games/framework/index.ts:289-296 | the first player in join order whose round score reaches `scoreToWinRound`, or none exactly when nobody does |
| Roster.AnyMatchWinner | src/games/framework/index.ts:297-304 | true iff some player has won at least `roundsToWinMatch` rounds |
| Roster.AllReady | src/games/framework/index.ts:195-197 | true iff every player is ready |
| Roster.ResetScores | src/games/framework/index.ts:226-230 | every round score becomes 0; the same players keep their ids, rounds won, readiness and order |
| Seqs.IndexOf | src/games/framework/index.ts:152 | `indexOf`: -1 iff absent, otherwise the first position holding the element |
| Seqs.RemoveAtKeepsOthers | src/games/framework/index.ts:154 | `splice(k, 1)` keeps the elements before `k`, shifts those after it down by one, and loses exactly the element at `k` (multiset) |
| Seqs.RemoveFirstOccurrence | src/games/framework/index.ts:152-154 | `splice(indexOf(x), 1)` removes the first occurrence of `x` and only one occurrence |
| Framework.PlayerState.constructor | src/games/framework/index.ts:71-76 | the new object's `View()` is `Roster.NewPlayer(id)`: no score, no round won, not ready |
| Framework.PlayerState.IncrementRoundScore | src/games/framework/index.ts:78-80 | the round score goes up by one and nothing else changes |
| Framework.GameMode.constructor | src/games/framework/index.ts:90-98 | LOBBY, STARTING, empty roster, countdown 0, no timer |
| Framework.GameMode.MultiCastGameState | src/games/framework/index.ts:305-310 | `Abstract()` becomes `Match.Broadcast` of the old state: one more send and no other change |
| Framework.GameMode.AddPlayer | src/games/framework/index.ts:141-150 | appends the player iff the roster is below `maxPlayers`, otherwise leaves it unchanged; keeps the cap invariant |
| Framework.GameMode.RemovePlayer | src/games/framework/index.ts:151-161 | splices out the player's first position, or leaves the roster when absent; the session is asked to end whenever the roster is then empty, even if nobody was removed |
| Framework.GameMode.SpliceOut | src/games/framework/index.ts:154 | the roster loses exactly the given position and keeps the rest in order, without repeats |
| Framework.GameMode.OnPlayerReady | src/games/framework/index.ts:164-173 | equals `Match.PlayerReady`: an unknown id changes nothing; otherwise the player is marked ready, the state broadcast and readiness checked |
| Framework.GameMode.OnPlayerScored | src/games/framework/index.ts:174-188 | equals `Match.PlayerScored`: the scorer's round score goes up; the first player at the threshold wins one more round and the round enters POST_PLAY |
| Framework.GameMode.CreditScore | src/games/framework/index.ts:181 | `Abstract()` becomes `Match.ScoreAt(old, i)`: only the scorer's round score changes, by one |
| Framework.GameMode.CreditRoundWin | src/games/framework/index.ts:185 | `Abstract()` becomes `Match.CreditRoundAt(old, i)`: only the winner's rounds won changes, by one |
| Framework.GameMode.CheckAllPlayersReady | src/games/framework/index.ts:191-205 | equals `Match.CheckAllPlayersReady`: the lobby countdown starts iff the roster is exactly `minPlayers` long and all are ready |
| Framework.GameMode.SetMatchPhase | src/games/framework/index.ts:206-220 | equals `Match.EnterMatchPhase`, keeping the roster invariant |
| Framework.GameMode.SetRoundPhase | src/games/framework/index.ts:221-265 | equals `Match.EnterRoundPhase` for each of the five phases, keeping the roster invariant |
| Framework.GameMode.ResetRoundScores | src/games/framework/index.ts:226-230 | the loop leaves the roster equal to `ResetScores` of the old roster, one player object at a time |
| Framework.GameMode.StartCountdown | src/games/framework/index.ts:268-277 | the slot holds the new callback, replacing any pending one; the countdown is the duration, or the default when it is absent or 0 |
| Framework.GameMode.Tick | src/games/framework/index.ts:278-286 | equals `Match.Tick`: count down one second and broadcast; at or below 0 clear the interval and then run the callback |
| Framework.GameMode.CountDown | src/games/framework/index.ts:279-280 | one second off the countdown, one broadcast, timer and roster untouched |
| Framework.GameMode.RunCallback | src/games/framework/index.ts:284 | the callback does what `Match.Run` says for each of the five continuations |
| Framework.Session.constructor | src/games/framework/index.ts:319-332 | a session with an empty room and a fresh game mode in its initial state |
| Framework.Session.Connect | src/games/framework/index.ts:344-360 | the room becomes `"gameSession-" + query`; a new player for the socket joins if there is room, then a broadcast |
| Framework.Session.Disconnect | src/games/framework/index.ts:362-374 | equals `Match.Leave`: the first player with the socket's id leaves and the state is broadcast once; an unknown socket changes nothing; the registry is unchanged even when the roster becomes empty |
| Framework.Session.EndSession | src/games/framework/index.ts:377-379 | asks the manager to end the entry keyed by the session's room |
| Framework.SessionManager.constructor | src/games/framework/index.ts:383 | an empty registry |
| Framework.SessionManager.CreateSession | src/games/framework/index.ts:385-392 | returns the id; `GetSession(id)` then finds a fresh session in its initial state; other entries are kept |
| Framework.SessionManager.GetSession | src/games/framework/index.ts:398-400 | some session iff the id is registered, and then that entry |
| Framework.SessionManager.EndSession | src/games/framework/index.ts:407-413 | deletes exactly that entry when present and is a no-op otherwise, so a second call changes nothing |
| Match.CountdownLength | src/games/framework/index.ts:274-275 | the length is the given duration when present and not 0, and otherwise the default |
| Match.StartCountdown | src/games/framework/index.ts:268-277 | only the new callback is pending, the countdown is the chosen length, and nothing else changes |
| Match.AddPlayer | src/games/framework/index.ts:141-150 | the old roster stays a prefix; one player is appended iff the roster is below `maxPlayers`, and that player is the one given; a roster within the cap stays within it |
| Match.RemovePlayerAt | src/games/framework/index.ts:152-157 | a position inside the roster is spliced out, with the players before it in place and those after it moved down by one; any other index changes nothing |
| Match.Join | src/games/framework/index.ts:357-360 | a fresh player for the socket is appended iff there is room, and the state is broadcast even when the match is full; phases and timer untouched |
| Match.Leave | src/games/framework/index.ts:362-373 | an unknown socket changes nothing; otherwise exactly the first player with that id is spliced out, the state is broadcast once, and phases and timer stay as they were |
| Registry.TeardownChain | src/games/framework/index.ts:407-413 | the as-written call chain through `:377-379`: when it returns, the requested key is gone and every remaining entry was there before, unchanged |
| Registry.RoomIsNeverAnId | src/games/framework/index.ts:348 | a room key is never a generated session id |
| Registry.SessionCallDeletesNothing | src/games/framework/index.ts:377-379 | the session's call into the manager with its room deletes nothing from a registry of generated ids |
| Registry.TeardownIsDeleteIfPresent | src/games/framework/index.ts:407-413 | with rooms that are not keys, the as-written call chain returns after one nested call and deletes exactly the requested id |
| Registry.TeardownDivergesOnMatchingKey | src/games/framework/index.ts:407-413 | if a session's room were its own key, the call chain would never return |
| Registry.EmptyIdTeardownNeverReturns | src/games/framework/index.ts:402-405 | the empty id can be generated, and ending an unconnected session registered under it never returns |
| Registry.UnconnectedTeardownNeverReturns | src/games/framework/index.ts:407-413 | while an unconnected session is registered under the empty id, ending any unconnected session never returns |
| Registry.EmptyIdEntryIsDeletedToo | src/games/framework/index.ts:407-413 | when the session under the empty id has connected, ending an unconnected session returns with the empty-id entry deleted as well as the requested one |
| MatchProperties.AddPlayerRespectsCap | src/games/framework/index.ts:141-150 | append below the cap, unchanged at the cap, nothing else touched |
| MatchProperties.StepKeepsCap | src/games/framework/index.ts:141-150 | no single event takes the roster above `maxPlayers` |
| MatchProperties.ReplayKeepsCap | src/games/framework/index.ts:141-150 | no sequence of events takes the roster above `maxPlayers` |
| MatchProperties.NewGameWithinCap | src/games/framework/index.ts:96 | from a new game's empty roster, the roster stays within `maxPlayers` whatever happens |
| MatchProperties.RemovePlayerRemovesFirstOccurrence | src/games/framework/index.ts:151-157 | the first occurrence is removed, the rest kept in order, one occurrence fewer; an absent player changes nothing |
| MatchProperties.UnknownPlayerChangesNothing | src/games/framework/index.ts:164-179 | "ready", "scored" and (by the disconnect handler at `:365-373`) a disconnect with an unknown id change nothing |
| MatchProperties.ReadyStartsLobbyCountdownIff | src/games/framework/index.ts:191-205 | "ready" marks exactly the first matching player and broadcasts; the lobby countdown toward PLAY starts iff the roster is exactly `minPlayers` long and the others are all ready, otherwise the timer is untouched |
| MatchProperties.NoAutoStartAwayFromMinimum | src/games/framework/index.ts:192-194 | with a roster size other than `minPlayers`, "ready" never touches the timer |
| MatchProperties.ScoreWithoutWinner | src/games/framework/index.ts:174-188 | a score that wins no round raises only the scorer's round score and broadcasts nothing |
| MatchProperties.ScoreWithWinner | src/games/framework/index.ts:183-187 | the first player at the threshold wins exactly one more round, nobody else's rounds change, and the round enters POST_PLAY with the post-play countdown toward ENDING |
| MatchProperties.ScoredKeepsPlayers | src/games/framework/index.ts:174-188 | a score keeps the players in place and lowers nobody's rounds won |
| MatchProperties.ScoringAfterRoundWinCreditsAgain | src/games/framework/index.ts:174-188 | when `w` is the first player at the threshold, a further score in any phase credits `w` with one more round and nobody else, and the round enters POST_PLAY, unless the scorer joined before `w` and reaches the threshold with this score |
| MatchProperties.RoundsWonNeverDecrease | src/games/framework/index.ts:185 | no event lowers anyone's rounds won; joins only append a new player and leaves only splice one out |
| MatchProperties.RoundEntryKeepsPlayers | src/games/framework/index.ts:221-265 | entering any round phase keeps the players, their order, rounds won and readiness, and each round score is kept or cleared to 0 |
| MatchProperties.MatchEntryKeepsPlayers | src/games/framework/index.ts:206-220 | entering any match phase keeps the players, their order, rounds won and readiness, and each round score is kept or cleared to 0 |
| MatchProperties.TickKeepsPlayers | src/games/framework/index.ts:278-286 | a tick keeps the players, their order, rounds won and readiness, and each round score is kept or cleared to 0 |
| MatchProperties.StartingResetsScores | src/games/framework/index.ts:224-232 | STARTING zeroes every round score, keeps everything else about the players, and arms the 1 ms countdown toward PRE_PLAY |
| MatchProperties.MatchPlayStartsRound | src/games/framework/index.ts:212-219 | entering match PLAY leaves the round in STARTING with scores cleared, and broadcasts twice |
| MatchProperties.OtherMatchPhasesOnlyBroadcast | src/games/framework/index.ts:206-220 | entering LOBBY or COMPLETE only sets the phase and broadcasts |
| MatchProperties.EndingOutcome | src/games/framework/index.ts:254-262 | ENDING completes the match iff some player has won `roundsToWinMatch` rounds; otherwise it starts the next round |
| MatchProperties.DrawOnlyMattersForRoundPlay | src/games/framework/index.ts:240-246 | the random draw affects nothing but entry into round PLAY |
| MatchProperties.RoundPlayCountdown | src/games/framework/index.ts:240-246 | round PLAY arms a countdown of `draw` seconds whose expiry does nothing |
| MatchProperties.CompleteIsEnteredWithNothingPending | src/games/framework/index.ts:254-258 | the tick that ends a won match leaves it COMPLETE with the interval cleared |
| MatchProperties.CompleteIsNotFinal | src/games/framework/index.ts:199-203 | a lobby countdown armed in COMPLETE (by a later "ready") puts the match back into PLAY and a new round when it fires |
| CountdownProperties.AbsentOrZeroDurationUsesDefault | src/games/framework/index.ts:274-275 | an absent or zero duration uses the default; any other is used as given |
| CountdownProperties.StartCountdownReplacesPending | src/games/framework/index.ts:268-277 | only the new callback is pending afterwards; nothing but the timer and countdown changes |
| CountdownProperties.StoppedStaysStopped | src/games/framework/index.ts:282-284 | with no interval, no number of ticks changes anything |
| CountdownProperties.CountsDownWhileTimeRemains | src/games/framework/index.ts:278-281 | while time remains, `n` ticks take off `n` seconds and broadcast `n` times, and nothing else |
| CountdownProperties.FiresOnTick | src/games/framework/index.ts:278-286 | a countdown of d ms fires on tick n with 1000(n-1) < d <= 1000n, that is ceil(d / 1000): the n-1 ticks before only count down and broadcast, and tick n clears the interval before the callback runs |
| CountdownProperties.NonPositiveFiresAtOnce | src/games/framework/index.ts:278-286 | a countdown at or below 0 fires on the next tick |
| CountdownProperties.PlayCountdownEndsTheClock | src/games/framework/index.ts:240-246 | round PLAY's countdown stops after `draw` ticks, and from then on ticks change nothing |
| CountdownProperties.StartingLastsOneTick | src/games/framework/index.ts:231 | STARTING's 1 ms countdown moves the round to PRE_PLAY on the first tick |
| Scenario.BothJoin | src/games/framework/index.ts:344-360 | two connections give a roster of two unready players in join order |
| Scenario.BothReady | src/games/framework/index.ts:164-205 | the first "ready" only marks "a" and broadcasts, with the timer stopped; the second starts the 5000 ms lobby countdown |
| Scenario.LobbyCountdownStarts | src/games/framework/index.ts:141-205 | under the default rules, two joins (through the connection handler at `:344-360`) and two "ready" events arm the lobby countdown toward PLAY |
| Scenario.MatchBegins | src/games/framework/index.ts:199-203 | five ticks later the match is in PLAY and the round in STARTING |
| Scenario.RoundPlayBegins | src/games/framework/index.ts:231-244 | one tick into PRE_PLAY, then five into round PLAY |
| Scenario.RoundIsWon | src/games/framework/index.ts:183-187 | a score in round PLAY wins the round: one round won, POST_PLAY |
| Scenario.EarlierPlayerTakesTheCredit | src/games/framework/index.ts:181-187 | with "b" at the threshold in POST_PLAY, a score that takes "a" (who joined first) to the threshold credits "a", not "b" |
| Scenario.NextRoundStarts | src/games/framework/index.ts:254-262 | five ticks after POST_PLAY starts, ENDING finds no match winner and the next round starts with scores cleared and the win kept |

## Left out

- Socket.io wiring is not modelled. This covers the listener registration in the constructors,
  `socket.join`, `getRoom` and the `emit` itself. A ghost send counter stands for the emit.
- Real-time scheduling with `setInterval`/`clearInterval` is replaced by the explicit `Tick`
  operation and the single timer slot.
- `Math.random` is replaced by parameters. The length of round PLAY is `draw`, from 1 to 10
  seconds. The session id is passed to `CreateSession` and can be any string of up to nine
  base-36 digits.
- `console.log` output is not modelled.
- The HTTP routes and bootstrap in `src/index.ts` are not part of this model.
- The game discovery in `src/games/gamesConfig.ts` is not part of this model.
- The socket server wrapper in `src/games/gameSocketServer.ts` is not part of this model.
- The 321bang rules table (`src/games/321bang/index.ts`) holds the same values as
  `DEFAULT_RULES`, which the scenario lemmas use.
- `getSessions`, `getGameState`, `getPlayers` and `GameState`'s setters are plain accessors.
  They are represented by direct field access.
- Several sessions share one server's "connection" event, and each handshake overwrites `room`.
  This cross-session behaviour is transport concurrency. Each `Session` here sees only its own
  connections.
- A handshake whose `sessionId` is missing or repeated is not modelled. The query is taken as a
  string.
- The source's "no room specified" guard is not modelled as a branch. The room it tests is never
  empty, so the branch cannot be taken.
- The floating-point `currentTimerDuration` is kept as integer milliseconds. Rounding in the
  source's float division is not modelled.
- Framework.GameMode.AddPlayer: requires that the player object is not already in the roster.
  The only caller passes a freshly created one, so adding the same object twice is not modelled.
- Framework.SessionManager.EndSession: deletes the entry directly and does not call the
  session's `endSession` first. As the source is written, that nested call deletes nothing
  whenever the empty id is not a key (`Registry.TeardownIsDeleteIfPresent`). When the empty id
  is a key, ending an unconnected session either never returns or also deletes the empty-id
  entry. Both cases are findings below.
- Framework.Session.Disconnect: requires a registry whose keys are all generated ids, which
  `CreateSession` guarantees.

## Findings

| source | as written | input that shows it | evidently intended | confidence | as-written member | corrected member |
|---|---|---|---|---|---|---|
| src/games/framework/index.ts:407-413 | `endSession(id)` first calls the session's `endSession`, which calls `endSession(room)` on the manager again before anything is deleted | code outside the repository calls the manager's public `endSession` with the id of any session that has had no connection, while an unconnected session is registered under `""`; no code in the repository does (the session's own call at `:378` passes its prefixed room, and `removePlayer` runs only after a connection has set the room). `""` is generated when `Math.random()` returns exactly 0. Both rooms are `""`, so the chain reaches `endSession("")`, which calls itself without end (`Registry.UnconnectedTeardownNeverReturns`) | remove the entry if present and return | not executed | Registry.EmptyIdTeardownNeverReturns | Framework.SessionManager.EndSession |
| src/games/framework/index.ts:407-413 | the back-call `endSession(room)` of an unconnected session is `endSession("")`, which deletes whatever session is registered under `""` | as above, but the session under `""` has connected, so its room is `"gameSession-" + query`; ending the unconnected session `"abc"` deletes both `"abc"` and `""` | delete only the requested entry | not executed | Registry.EmptyIdEntryIsDeletedToo | Framework.SessionManager.EndSession |
