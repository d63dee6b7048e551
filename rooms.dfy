/** `roomManager`: the in-memory store of rooms, keyed by room code. */
module Rooms {
  import opened Wrappers
  import opened Text
  import opened Roster
  import opened Validation

  /** One room: its code, the host's name, the players in joining order, the
      settings and the phase. */
  datatype Room = Room(code: string, host: string, players: seq<Player>, settings: Settings, phase: Phase)

  /** Why `joinRoom` refused. */
  datatype JoinError = RoomNotFound | NameTaken {
    /** The `error` string of the failed result. */
    function Message(): string {
      match this
      case RoomNotFound => "Spiel nicht gefunden"
      case NameTaken => "Dieser Name ist bereits vergeben"
    }
  }

  /** `{ success: true, room, player }` or `{ success: false, error }`. */
  datatype JoinResult = Joined(room: Room, player: Player) | JoinFailed(error: JoinError)

  /** The fields passed to `updateGameSettings`; an absent field is `None`. */
  datatype SettingsPatch = SettingsPatch(impostorCount: Option<int>, hintWordEnabled: Option<bool>) {
    /** `{ ...s, ...this }`. */
    function Apply(s: Settings): Settings {
      Settings(impostorCount.GetOr(s.impostorCount), hintWordEnabled.GetOr(s.hintWordEnabled))
    }
  }

  /** The spread overwrites exactly the supplied fields, and applying the same
      patch twice changes nothing more. */
  lemma ApplyOverwritesSupplied(patch: SettingsPatch, s: Settings)
    ensures patch.impostorCount.Some? ==> patch.Apply(s).impostorCount == patch.impostorCount.value
    ensures patch.impostorCount.None? ==> patch.Apply(s).impostorCount == s.impostorCount
    ensures patch.hintWordEnabled.Some? ==> patch.Apply(s).hintWordEnabled == patch.hintWordEnabled.value
    ensures patch.hintWordEnabled.None? ==> patch.Apply(s).hintWordEnabled == s.hintWordEnabled
    ensures patch.Apply(patch.Apply(s)) == patch.Apply(s)
    ensures SettingsPatch(None, None).Apply(s) == s
  {
  }

  /** The room created for `hostName` under `code`, with the host's id `id`. */
  function NewRoom(code: string, hostName: string, id: PlayerId): Room {
    Room(code, hostName, [Player(hostName, id, true, None)], DefaultSettings, Lobby)
  }

  /** What every stored room satisfies: it is stored under its own code, a
      code of the generated form; its first player is its host, the only
      one marked as host; names and ids are unique, and every id was handed
      out before `nextId`. */
  ghost predicate RoomValid(key: string, room: Room, nextId: nat) {
    && room.code == key
    && MatchesCodePattern(key)
    && |room.players| > 0
    && room.players[0].name == room.host
    && room.players[0].isHost
    && (forall i :: 0 < i < |room.players| ==> !room.players[i].isHost)
    && DistinctNames(room.players)
    && DistinctIds(room.players)
    && (forall i :: 0 <= i < |room.players| ==> room.players[i].id < nextId)
  }

  lemma NewRoomValid(code: string, hostName: string, id: PlayerId, nextId: nat)
    requires MatchesCodePattern(code) && id < nextId
    ensures RoomValid(code, NewRoom(code, hostName, id), nextId)
  {
  }

  /** Joining keeps a room valid. */
  lemma JoinKeepsValid(key: string, room: Room, name: string, id: PlayerId)
    requires RoomValid(key, room, id) && !HasName(room.players, name)
    ensures RoomValid(key, room.(players := room.players + [Player(name, id, false, None)]), id + 1)
  {
    var ps := room.players + [Player(name, id, false, None)];
    forall i, j | 0 <= i < j < |ps| ensures ps[i].name != ps[j].name {
      if j == |ps| - 1 {
        assert ps[i] == room.players[i];
      }
    }
  }

  class RoomStore {
    /** The `rooms` map. */
    var rooms: map<string, Room>
    /** The next fresh player id (the model of `generatePlayerId`). */
    var nextId: nat

    ghost predicate Valid()
      reads this
    {
      forall key :: key in rooms ==> RoomValid(key, rooms[key], nextId)
    }

    constructor()
      ensures Valid() && rooms == map[] && nextId == 0
    {
      rooms := map[];
      nextId := 0;
    }

    /** `generatePlayerId`: an id no player has yet. */
    method FreshId() returns (id: PlayerId)
      requires Valid()
      modifies this
      ensures Valid()
      ensures id == old(nextId) && nextId == old(nextId) + 1 && rooms == old(rooms)
    {
      id := nextId;
      nextId := nextId + 1;
      assert forall key :: key in rooms ==> RoomValid(key, rooms[key], nextId) by {
        forall key | key in rooms ensures RoomValid(key, rooms[key], nextId) {
          assert RoomValid(key, rooms[key], nextId - 1);
        }
      }
    }

    /** `getRoom`: the room stored under the upper-cased code, if any. */
    function GetRoom(code: string): Option<Room>
      reads this
    {
      var key := Upper(code);
      if key in rooms then Some(rooms[key]) else None
    }

    /** `createRoom`: a fresh room for `hostName` under a generated code (the
        draws `picks`), stored under that code, replacing any room that had
        it; the host is its only player. */
    method CreateRoom(hostName: string, picks: seq<nat>) returns (room: Room)
      requires Valid()
      requires |picks| == CodeLength && forall i :: 0 <= i < |picks| ==> picks[i] < |Alphabet|
      modifies this
      ensures Valid()
      ensures MatchesCodePattern(room.code) && forall i :: 0 <= i < CodeLength ==> room.code[i] == Alphabet[picks[i]]
      ensures room == NewRoom(room.code, hostName, old(nextId))
      ensures rooms == old(rooms)[room.code := room]
      ensures nextId == old(nextId) + 1
    {
      var roomCode := GenerateRoomCode(picks);
      var id := FreshId();
      room := NewRoom(roomCode, hostName, id);
      NewRoomValid(roomCode, hostName, id, nextId);
      rooms := rooms[roomCode := room];
    }

    /** `joinRoom`: fails with `Spiel nicht gefunden` when no room has the
        code (in any case), with `Dieser Name ist bereits vergeben` when the
        exact name is in the room, in both cases changing nothing; otherwise
        appends one new non-host player without a role to that room. */
    method JoinRoom(code: string, name: string) returns (result: JoinResult)
      requires Valid()
      modifies this
      ensures Valid()
      ensures old(GetRoom(code)).None? ==>
                result == JoinFailed(RoomNotFound) && unchanged(this)
      ensures old(GetRoom(code)).Some? && HasName(old(GetRoom(code)).value.players, name) ==>
                result == JoinFailed(NameTaken) && unchanged(this)
      ensures old(GetRoom(code)).Some? && !HasName(old(GetRoom(code)).value.players, name) ==>
                var room := old(GetRoom(code)).value;
                var player := Player(name, old(nextId), false, None);
                && result == Joined(room.(players := room.players + [player]), player)
                && rooms == old(rooms)[Upper(code) := result.room]
                && nextId == old(nextId) + 1
    {
      var found := GetRoom(code);
      if found.None? {
        return JoinFailed(RoomNotFound);
      }
      var room := found.value;
      if HasName(room.players, name) {
        return JoinFailed(NameTaken);
      }
      var key := Upper(code);
      assert RoomValid(key, room, nextId);
      var id := FreshId();
      var newPlayer := Player(name, id, false, None);
      JoinKeepsValid(key, room, name, id);
      room := room.(players := room.players + [newPlayer]);
      rooms := rooms[key := room];
      result := Joined(room, newPlayer);
    }

    /** `updateGameSettings`: merges the patch into the settings of the room
        with that code and answers true, or answers false and changes
        nothing when there is no such room. */
    method UpdateGameSettings(code: string, patch: SettingsPatch) returns (ok: bool)
      requires Valid()
      modifies this
      ensures Valid()
      ensures ok <==> old(GetRoom(code)).Some?
      ensures !ok ==> rooms == old(rooms)
      ensures ok ==> var room := old(GetRoom(code)).value;
                     rooms == old(rooms)[Upper(code) := room.(settings := patch.Apply(room.settings))]
      ensures nextId == old(nextId)
    {
      var found := GetRoom(code);
      if found.Some? {
        var room := found.value;
        assert RoomValid(Upper(code), room, nextId);
        rooms := rooms[Upper(code) := room.(settings := patch.Apply(room.settings))];
        return true;
      }
      return false;
    }

    /** The lookup ignores case: any spelling of a stored code finds its room,
        and only a valid room code can find one. */
    lemma GetRoomIgnoresCase(code: string)
      requires Valid()
      ensures GetRoom(code) == GetRoom(Upper(code))
      ensures GetRoom(code).Some? ==> ValidRoomCode(code) && GetRoom(code).value.code == Upper(code)
    {
      UpperIdempotent(code);
      if GetRoom(code).Some? {
        ValidRoomCodeIgnoresCase(code);
        assert Upper(Upper(code)) == Upper(code);
        assert MatchesCodePattern(Upper(code));
        UpperOfCode(Upper(code));
      }
    }

    /** A stored room is found under its own code. */
    lemma GetRoomFindsStored(key: string)
      requires Valid() && key in rooms
      ensures GetRoom(key) == Some(rooms[key])
    {
      UpperOfCode(key);
    }
  }

  /** A code of the generated form is its own upper case. */
  lemma UpperOfCode(code: string)
    requires MatchesCodePattern(code)
    ensures Upper(code) == code
  {
  }
}
