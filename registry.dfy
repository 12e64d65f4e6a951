/** Session identifiers and rooms, and the teardown call chain between a session and the registry
    as the source writes it. */
module Registry {
  import opened Options

  /** A character that `Number.prototype.toString(36)` can produce after the point. */
  predicate IsBase36(c: char) {
    '0' <= c <= '9' || 'a' <= c <= 'z'
  }

  /** What `Math.random().toString(36).substr(2, 9)` can return: at most nine base-36 digits. */
  predicate ValidId(id: string) {
    |id| <= 9 && forall i :: 0 <= i < |id| ==> IsBase36(id[i])
  }

  const ROOM_PREFIX := "gameSession-"

  /** The room a connection joins: the session id from the handshake with the prefix in front. */
  function RoomKey(sessionQuery: string): string {
    ROOM_PREFIX + sessionQuery
  }

  predicate IsRoomKey(room: string) {
    |room| >= |ROOM_PREFIX| && room[..|ROOM_PREFIX|] == ROOM_PREFIX
  }

  /** A room is never a registry key: rooms are at least twelve characters long and carry a '-'. */
  lemma RoomIsNeverAnId(sessionQuery: string)
    ensures IsRoomKey(RoomKey(sessionQuery))
    ensures !ValidId(RoomKey(sessionQuery))
  {
    assert RoomKey(sessionQuery)[..|ROOM_PREFIX|] == ROOM_PREFIX;
  }

  /** The registry's `endSession(key)` as written, with the session's own `endSession` unfolded:
      `rooms` maps each registered id to the room of its session. When `key` is registered, the
      session first calls the registry's `endSession` with its room, and only when that call has
      returned is `key` deleted. `fuel` bounds the depth of that call chain; `None` means the chain
      has not returned within it. When the chain does return, `key` is gone and the registry has
      only lost entries, never gained or changed one. */
  function TeardownChain(rooms: map<string, string>, key: string, fuel: nat): (r: Option<map<string, string>>)
    ensures r.Some? ==> key !in r.value && r.value.Keys <= rooms.Keys
    ensures r.Some? ==> forall k :: k in r.value ==> r.value[k] == rooms[k]
    decreases fuel
  {
    if key !in rooms then Some(rooms)
    else if fuel == 0 then None
    else match TeardownChain(rooms, rooms[key], fuel - 1)
      case None => None
      case Some(after) => Some(after - {key})
  }

  /** The session's call into the registry, with its room as the key, deletes nothing while every
      key is a generated id. */
  lemma {:induction false} SessionCallDeletesNothing(rooms: map<string, string>, sessionQuery: string, fuel: nat)
    requires forall k :: k in rooms ==> ValidId(k)
    ensures TeardownChain(rooms, RoomKey(sessionQuery), fuel) == Some(rooms)
  {
    RoomIsNeverAnId(sessionQuery);
  }

  /** Ending a registered id whose session's room is not a key returns after one nested call and
      deletes exactly that id: the registry's `endSession` is "delete if present". */
  lemma {:induction false} TeardownIsDeleteIfPresent(rooms: map<string, string>, key: string, fuel: nat)
    requires forall k :: k in rooms ==> ValidId(k)
    requires forall k :: k in rooms ==> IsRoomKey(rooms[k]) || rooms[k] == ""
    requires "" !in rooms
    requires fuel >= 1
    ensures TeardownChain(rooms, key, fuel) == Some(rooms - {key})
  {
    if key in rooms {
      var room := rooms[key];
      if IsRoomKey(room) {
        RoomIsNeverAnId(room[|ROOM_PREFIX|..]);
        assert RoomKey(room[|ROOM_PREFIX|..]) == room;
      }
      assert room !in rooms;
      assert TeardownChain(rooms, room, fuel - 1) == Some(rooms);
    } else {
      assert rooms - {key} == rooms;
    }
  }

  /** Were the session's room ever a key of its own entry, the call chain would never return. */
  lemma {:induction false} TeardownDivergesOnMatchingKey(rooms: map<string, string>, key: string, fuel: nat)
    requires key in rooms && rooms[key] == key
    ensures TeardownChain(rooms, key, fuel) == None
    decreases fuel
  {
    if fuel > 0 {
      TeardownDivergesOnMatchingKey(rooms, key, fuel - 1);
    }
  }

  /** `Math.random()` may return 0, whose base-36 digits after the point are none: the empty id.
      A session registered under it that has had no connection still has the empty room, so
      ending it never returns, however deep the call chain is allowed to go. */
  lemma EmptyIdTeardownNeverReturns(fuel: nat)
    ensures ValidId("")
    ensures TeardownChain(map["" := ""], "", fuel) == None
  {
    TeardownDivergesOnMatchingKey(map["" := ""], "", fuel);
  }

  /** While an unconnected session is registered under the empty id, ending any other unconnected
      session never returns either: its room is also empty, so its back-call is `endSession("")`. */
  lemma UnconnectedTeardownNeverReturns(rooms: map<string, string>, key: string, fuel: nat)
    requires key in rooms && rooms[key] == ""
    requires "" in rooms && rooms[""] == ""
    ensures TeardownChain(rooms, key, fuel) == None
  {
    if fuel > 0 {
      TeardownDivergesOnMatchingKey(rooms, "", fuel - 1);
    }
  }

  /** When the session under the empty id has connected, ending an unconnected session returns,
      but its back-call `endSession("")` deletes the empty-id entry as well: two sessions are gone
      where one was asked for. */
  lemma EmptyIdEntryIsDeletedToo(rooms: map<string, string>, key: string, fuel: nat)
    requires forall k :: k in rooms ==> ValidId(k)
    requires key in rooms && rooms[key] == ""
    requires "" in rooms && IsRoomKey(rooms[""])
    requires fuel >= 2
    ensures key != ""
    ensures TeardownChain(rooms, key, fuel) == Some(rooms - {""} - {key})
  {
    var room := rooms[""];
    RoomIsNeverAnId(room[|ROOM_PREFIX|..]);
    assert RoomKey(room[|ROOM_PREFIX|..]) == room;
    assert room !in rooms;
    assert TeardownChain(rooms, room, fuel - 2) == Some(rooms);
    assert TeardownChain(rooms, "", fuel - 1) == Some(rooms - {""});
  }
}
