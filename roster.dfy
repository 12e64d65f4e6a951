/** The values of the players in a match, in join order, and the queries the state machine asks of
    them: `find` by id, `find` of the round winner, `some` for the match winner, `every` for
    readiness, and the `forEach` that clears round scores. */
module Roster {
  import opened Options

  /** The fields of one `PlayerState`. */
  datatype Player = Player(id: string, roundScore: nat, roundsWon: nat, isReady: bool)

  /** A freshly joined player: no score, no round won, not ready. */
  function NewPlayer(id: string): Player {
    Player(id, 0, 0, false)
  }

  /** `players.find(ps => ps.id === playerId)`: the position of the first player with that id. */
  function FindPlayer(ps: seq<Player>, id: string): (r: Option<nat>)
    ensures r.Some? ==> r.value < |ps| && ps[r.value].id == id
    ensures r.Some? ==> forall j :: 0 <= j < r.value ==> ps[j].id != id
    ensures r.None? <==> forall j :: 0 <= j < |ps| ==> ps[j].id != id
  {
    if ps == [] then None
    else if ps[0].id == id then Some(0)
    else match FindPlayer(ps[1..], id)
      case None => None
      case Some(k) => Some(k + 1)
  }

  /** `checkRoundWinConditions`: the position of the first player, in join order, whose round score
      has reached the threshold. */
  function FirstRoundWinner(ps: seq<Player>, scoreToWinRound: nat): (r: Option<nat>)
    ensures r.Some? ==> r.value < |ps| && ps[r.value].roundScore >= scoreToWinRound
    ensures r.Some? ==> forall j :: 0 <= j < r.value ==> ps[j].roundScore < scoreToWinRound
    ensures r.None? <==> forall j :: 0 <= j < |ps| ==> ps[j].roundScore < scoreToWinRound
  {
    if ps == [] then None
    else if ps[0].roundScore >= scoreToWinRound then Some(0)
    else match FirstRoundWinner(ps[1..], scoreToWinRound)
      case None => None
      case Some(k) => Some(k + 1)
  }

  /** `checkMatchWinConditions`: whether some player has won enough rounds. */
  function AnyMatchWinner(ps: seq<Player>, roundsToWinMatch: nat): (won: bool)
    ensures won <==> exists j :: 0 <= j < |ps| && ps[j].roundsWon >= roundsToWinMatch
  {
    if ps == [] then false
    else ps[0].roundsWon >= roundsToWinMatch || AnyMatchWinner(ps[1..], roundsToWinMatch)
  }

  /** `players.every(p => p.isReady)`. */
  function AllReady(ps: seq<Player>): (ready: bool)
    ensures ready <==> forall j :: 0 <= j < |ps| ==> ps[j].isReady
  {
    ps == [] || (ps[0].isReady && AllReady(ps[1..]))
  }

  /** The `forEach` run on entering round STARTING: every round score back to 0, nothing else
      about any player changed, and the order kept. */
  function ResetScores(ps: seq<Player>): (r: seq<Player>)
    ensures |r| == |ps|
    ensures forall j :: 0 <= j < |ps| ==>
      r[j].roundScore == 0 && r[j].id == ps[j].id && r[j].roundsWon == ps[j].roundsWon
      && r[j].isReady == ps[j].isReady
  {
    if ps == [] then [] else [ps[0].(roundScore := 0)] + ResetScores(ps[1..])
  }
}
