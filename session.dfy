/** The client's `gameState` and the handlers that move it through a round:
    lobby, role reveal, game, voting, results and back to the lobby. */
module Session {
  import opened Wrappers
  import opened Text
  import opened Roster
  import opened Validation
  import opened Roles
  import opened Votes
  import opened Outcomes
  import opened Rooms
  import opened Words

  /** The messages the handlers pass to `showError`. */
  datatype SessionError =
    | InvalidName
    | InvalidCodeFormat
    | MissingCode
    | BadCodeLength
    | JoinFailure(reason: JoinError)
    | NotAllowedToStart
    | NoVoteSelected
  {
    function Message(): string {
      match this
      case InvalidName => "Bitte gib einen gültigen Namen ein."
      case InvalidCodeFormat => "Bitte gib einen gültigen Raumcode ein (4 Zeichen)."
      case MissingCode => "Bitte gib einen Raumcode ein oder erstelle einen neuen Raum."
      case BadCodeLength => "Ungültiger Raumcode"
      case JoinFailure(reason) => reason.Message()
      case NotAllowedToStart => "Nur der Spielleiter kann das Spiel starten."
      case NoVoteSelected => "Bitte wähle einen Spieler aus."
    }
  }

  /** `currentPlayer ? currentPlayer.role : 'crew'` for the first player named `name`. */
  function RoleOf(players: seq<Player>, name: string): Option<Role> {
    match FindByName(players, name)
    case None => Some(Crew)
    case Some(i) => players[i].role
  }

  /** `votes[name]` is truthy: a vote is recorded and names someone. */
  predicate HasVote(votes: Record<string>, name: string) {
    Get(votes, name).Some? && Get(votes, name).value != ""
  }

  /** The start guard is exactly what role assignment needs to leave at
      least one crew member: a host with three or more players may start
      iff ranking any shuffle of the roster gives somebody the crew role. */
  lemma {:induction false} StartGuardLeavesCrew(isHost: bool, players: seq<Player>, settings: Settings, js: seq<nat>)
    requires ValidPicks(js, |players|)
    ensures CanStartGame(isHost, players, settings) <==>
              isHost && |players| >= MinPlayers
              && CountRole(RolesByRank(Shuffle(players, js), settings.impostorCount), Crew) > 0
  {
    RolesByRankCounts(Shuffle(players, js), settings.impostorCount);
  }

  /** A valid room code is four UTF-16 code units long, so it passes the
      length check of `joinRoom`. */
  lemma ValidCodeLength(code: string)
    requires ValidRoomCode(code)
    ensures Utf16Length(code) == CodeLength
  {
    ValidRoomCodeChars(code);
    Utf16LengthBmp(code);
  }

  /** After `handleNewRound` no player has a role left, and the ids stay
      distinct. */
  lemma ClearedRosterHasNoRoles(before: seq<Player>, after: seq<Player>, r: Role)
    requires |after| == |before| && forall i :: 0 <= i < |after| ==> after[i] == before[i].(role := None)
    ensures CountRole(after, r) == 0
    ensures DistinctIds(before) ==> DistinctIds(after)
  {
    CountRolePositive(after, r);
  }

  class GameSession {
    var playerName: string
    var roomCode: string
    var isHost: bool
    var players: seq<Player>
    var settings: Settings
    var currentRole: Option<Role>
    var secretWord: string
    var hintWord: string
    /** `gameState.votes`: voter name to the name voted for. */
    var votes: Record<string>
    var phase: Phase

    ghost predicate Valid()
      reads this
    {
      DistinctIds(players) && DistinctKeys(votes)
    }

    /** The room-level fields are unchanged. */
    twostate predicate LobbyKept()
      reads this
    {
      roomCode == old(roomCode) && isHost == old(isHost) && players == old(players) && settings == old(settings)
    }

    /** The per-round fields are unchanged. */
    twostate predicate RoundKept()
      reads this
    {
      && currentRole == old(currentRole) && secretWord == old(secretWord) && hintWord == old(hintWord)
      && votes == old(votes) && phase == old(phase)
    }

    /** The initial `gameState`. */
    constructor()
      ensures Valid()
      ensures playerName == "" && roomCode == "" && !isHost && players == [] && settings == DefaultSettings
      ensures currentRole == None && secretWord == "" && hintWord == "" && votes == [] && phase == Lobby
    {
      playerName := "";
      roomCode := "";
      isHost := false;
      players := [];
      settings := DefaultSettings;
      currentRole := None;
      secretWord := "";
      hintWord := "";
      votes := [];
      phase := Lobby;
    }

    /** `handleCreateRoom`: with a valid trimmed name, creates a room in the
        store and makes this client its host and only player. */
    method HandleCreateRoom(store: RoomStore, nameInput: string, picks: seq<nat>) returns (err: Option<SessionError>)
      requires Valid() && store.Valid()
      requires |picks| == CodeLength && forall i :: 0 <= i < |picks| ==> picks[i] < |Alphabet|
      modifies this, store
      ensures Valid() && store.Valid()
      ensures var name := Trim(nameInput);
              !ValidPlayerName(name) ==> err == Some(InvalidName) && unchanged(this) && unchanged(store)
      ensures var name := Trim(nameInput);
              ValidPlayerName(name) ==>
                && err == None
                && MatchesCodePattern(roomCode) && (forall i :: 0 <= i < CodeLength ==> roomCode[i] == Alphabet[picks[i]])
                && store.rooms == old(store.rooms)[roomCode := NewRoom(roomCode, name, old(store.nextId))]
                && store.nextId == old(store.nextId) + 1
                && playerName == name && isHost
                && players == [Player(name, old(store.nextId), true, None)]
                && settings == DefaultSettings
                && RoundKept()
    {
      var name := Trim(nameInput);
      if !ValidPlayerName(name) {
        return Some(InvalidName);
      }
      var room := store.CreateRoom(name, picks);
      EnterRoom(name, room.code, true, room.players, room.settings);
      err := None;
    }

    /** The client takes over a room's code, roster and settings, under the
        given player name and host flag. */
    method EnterRoom(name: string, code: string, host: bool, roster: seq<Player>, s: Settings)
      requires DistinctKeys(votes) && DistinctIds(roster)
      modifies this
      ensures Valid()
      ensures playerName == name && roomCode == code && isHost == host && players == roster && settings == s
      ensures RoundKept()
    {
      playerName := name;
      roomCode := code;
      isHost := host;
      players := roster;
      settings := s;
    }

    /** `joinRoom` of the script: refuses a code that is empty or not four code
        units long, then asks the store; on success this client becomes a
        guest of that room and takes over its roster and settings. */
    method JoinRoom(store: RoomStore, code: string, name: string) returns (err: Option<SessionError>)
      requires Valid() && store.Valid()
      modifies this, store
      ensures Valid() && store.Valid()
      ensures (code == "" || Utf16Length(code) != CodeLength) ==>
                err == Some(BadCodeLength) && unchanged(this) && unchanged(store)
      ensures code != "" && Utf16Length(code) == CodeLength ==>
                var found := old(store.GetRoom(code));
                && (found.None? ==> err == Some(JoinFailure(RoomNotFound)) && unchanged(this) && unchanged(store))
                && (found.Some? && HasName(found.value.players, name) ==>
                      err == Some(JoinFailure(NameTaken)) && unchanged(this) && unchanged(store))
                && (found.Some? && !HasName(found.value.players, name) ==>
                      var joined := found.value.players + [Player(name, old(store.nextId), false, None)];
                      && err == None
                      && store.rooms == old(store.rooms)[Upper(code) := found.value.(players := joined)]
                      && store.nextId == old(store.nextId) + 1
                      && roomCode == code && !isHost && playerName == name
                      && players == joined && settings == found.value.settings
                      && RoundKept())
    {
      if code == "" || Utf16Length(code) != CodeLength {
        return Some(BadCodeLength);
      }
      var result := store.JoinRoom(code, name);
      if result.JoinFailed? {
        return Some(JoinFailure(result.error));
      }
      assert RoomValid(Upper(code), store.rooms[Upper(code)], store.nextId);
      EnterRoom(name, code, false, result.room.players, result.room.settings);
      err := None;
    }

    /** `handleJoin`: checks the trimmed name, then the trimmed, upper-cased
        code; the name is taken over as soon as it is valid, and a join is
        attempted only with a code. */
    method HandleJoin(store: RoomStore, nameInput: string, codeInput: string) returns (err: Option<SessionError>)
      requires Valid() && store.Valid()
      modifies this, store
      ensures Valid() && store.Valid()
      ensures var name := Trim(nameInput);
              !ValidPlayerName(name) ==> err == Some(InvalidName) && unchanged(this) && unchanged(store)
      ensures var name := Trim(nameInput); var code := Upper(Trim(codeInput));
              ValidPlayerName(name) && code != "" && !ValidRoomCode(code) ==>
                err == Some(InvalidCodeFormat) && unchanged(this) && unchanged(store)
      ensures var name := Trim(nameInput); var code := Upper(Trim(codeInput));
              ValidPlayerName(name) && code == "" ==>
                err == Some(MissingCode) && playerName == name && LobbyKept() && RoundKept() && unchanged(store)
      ensures var name := Trim(nameInput); var code := Upper(Trim(codeInput));
              ValidPlayerName(name) && ValidRoomCode(code) ==>
                var found := old(store.GetRoom(code));
                && playerName == name
                && (found.None? ==> err == Some(JoinFailure(RoomNotFound)) && LobbyKept() && RoundKept() && unchanged(store))
                && (found.Some? && HasName(found.value.players, name) ==>
                      err == Some(JoinFailure(NameTaken)) && LobbyKept() && RoundKept() && unchanged(store))
                && (found.Some? && !HasName(found.value.players, name) ==>
                      var joined := found.value.players + [Player(name, old(store.nextId), false, None)];
                      && err == None
                      && store.rooms == old(store.rooms)[code := found.value.(players := joined)]
                      && store.nextId == old(store.nextId) + 1
                      && roomCode == code && !isHost
                      && players == joined && settings == found.value.settings
                      && RoundKept())
    {
      var name := Trim(nameInput);
      var code := Upper(Trim(codeInput));
      if !ValidPlayerName(name) {
        return Some(InvalidName);
      }
      if code != "" && !ValidRoomCode(code) {
        return Some(InvalidCodeFormat);
      }
      SetPlayerName(name);
      assert Valid() && store.Valid();
      if code != "" {
        assert Utf16Length(code) == CodeLength by {
          ValidCodeLength(code);
        }
        assert Upper(code) == code by {
          UpperIdempotent(Trim(codeInput));
        }
        err := JoinRoom(store, code, name);
      } else {
        err := Some(MissingCode);
      }
    }

    /** `gameState.playerName = name`. */
    method SetPlayerName(name: string)
      requires Valid()
      modifies this
      ensures Valid() && playerName == name && LobbyKept() && RoundKept()
    {
      playerName := name;
    }

    /** `assignRoles`: shuffles a copy of the roster with the draws `js`,
        gives the first `impostorCount` of the shuffled players the impostor
        role and the rest the crew role, writes the roles back by id into the
        roster (whose order does not change), and sets the local player's role. */
    method AssignRoles(js: seq<nat>)
      requires Valid() && ValidPicks(js, |players|)
      modifies this
      ensures Valid()
      ensures AssignedFrom(old(players), players, settings.impostorCount, js)
      ensures currentRole == RoleOf(players, playerName)
      ensures playerName == old(playerName) && roomCode == old(roomCode) && isHost == old(isHost)
      ensures settings == old(settings) && secretWord == old(secretWord) && hintWord == old(hintWord)
      ensures votes == old(votes) && phase == old(phase)
    {
      players := AssignRolesTo(players, settings.impostorCount, js);
      currentRole := RoleOf(players, playerName);
    }

    /** `handleStartGame`: refused unless `canStartGame`; otherwise assigns
        the roles, draws the word with `wordPick` and enters the role reveal. */
    method HandleStartGame(wordPick: nat, js: seq<nat>) returns (err: Option<SessionError>)
      requires Valid() && wordPick < |WordList| && ValidPicks(js, |players|)
      modifies this
      ensures Valid()
      ensures !CanStartGame(old(isHost), old(players), old(settings)) ==> err == Some(NotAllowedToStart) && unchanged(this)
      ensures CanStartGame(old(isHost), old(players), old(settings)) ==>
                && err == None
                && AssignedFrom(old(players), players, settings.impostorCount, js)
                && CountRole(players, Impostor) == ImpostorTotal(settings.impostorCount, |players|)
                && CountRole(players, Crew) == |players| - ImpostorTotal(settings.impostorCount, |players|)
                && currentRole == RoleOf(players, playerName)
                && secretWord == WordList[wordPick].word && hintWord == WordList[wordPick].hint
                && phase == RoleReveal
                && playerName == old(playerName) && roomCode == old(roomCode) && isHost == old(isHost)
                && settings == old(settings) && votes == old(votes)
    {
      if !CanStartGame(isHost, players, settings) {
        return Some(NotAllowedToStart);
      }
      ghost var before := players;
      AssignRoles(js);
      AssignedFromCounts(before, players, settings.impostorCount, js);
      RevealWith(GetRandomWord(wordPick));
      err := None;
    }

    /** The secret word and its hint are set and the role reveal begins. */
    method RevealWith(wordData: WordEntry)
      modifies this
      ensures secretWord == wordData.word && hintWord == wordData.hint && phase == RoleReveal
      ensures playerName == old(playerName) && LobbyKept()
      ensures currentRole == old(currentRole) && votes == old(votes)
    {
      secretWord := wordData.word;
      hintWord := wordData.hint;
      phase := RoleReveal;
    }

    /** `handleContinueToGame`: enters the game phase. */
    method HandleContinueToGame()
      requires Valid()
      modifies this
      ensures Valid()
      ensures phase == Game
      ensures playerName == old(playerName) && LobbyKept()
      ensures currentRole == old(currentRole) && secretWord == old(secretWord) && hintWord == old(hintWord) && votes == old(votes)
    {
      phase := Game;
    }

    /** `showVotingScreen`: enters the voting phase with no votes recorded. */
    method ShowVotingScreen()
      requires Valid()
      modifies this
      ensures Valid()
      ensures phase == Voting && votes == []
      ensures playerName == old(playerName) && LobbyKept()
      ensures currentRole == old(currentRole) && secretWord == old(secretWord) && hintWord == old(hintWord)
    {
      phase := Voting;
      votes := [];
    }

    /** The game timer firing: it opens the vote only while the game phase
        lasts, and otherwise does nothing. */
    method Timeout()
      requires Valid()
      modifies this
      ensures Valid()
      ensures old(phase) == Game ==> phase == Voting && votes == []
      ensures old(phase) != Game ==> unchanged(this)
      ensures playerName == old(playerName) && LobbyKept()
      ensures currentRole == old(currentRole) && secretWord == old(secretWord) && hintWord == old(hintWord)
    {
      if phase == Game {
        ShowVotingScreen();
      }
    }

    /** `selectVotingTarget`: records the local player's vote, replacing an
        earlier one. */
    method SelectVotingTarget(target: string)
      requires Valid()
      modifies this
      ensures Valid()
      ensures votes == Put(old(votes), playerName, target)
      ensures HasVote(votes, playerName) <==> target != ""
      ensures playerName == old(playerName) && LobbyKept()
      ensures currentRole == old(currentRole) && secretWord == old(secretWord) && hintWord == old(hintWord)
      ensures phase == old(phase)
    {
      PutKeys(votes, playerName, target);
      PutGet(votes, playerName, target, playerName);
      votes := Put(votes, playerName, target);
    }

    /** `showResults`: enters the results phase with the outcome of the vote. */
    method ShowResults(votedOut: Option<string>, impostorWon: bool) returns (outcome: Outcome)
      requires Valid()
      modifies this
      ensures Valid()
      ensures outcome == ResultOf(players, votedOut, impostorWon)
      ensures phase == Results
      ensures playerName == old(playerName) && LobbyKept()
      ensures currentRole == old(currentRole) && secretWord == old(secretWord) && hintWord == old(hintWord)
      ensures votes == old(votes)
    {
      phase := Results;
      outcome := ResultOf(players, votedOut, impostorWon);
    }

    /** `handleSubmitVote`: refused while the local player has no vote;
        otherwise every other player casts the simulated vote their draw in
        `picks` chooses (`SimulatedVotes` over `DrawnTargets`), the simulated
        votes are spread over the recorded ones, the
        most voted name is voted out and the results are shown, with
        `impostorWon` as the remaining impostors' guess. */
    method HandleSubmitVote(picks: seq<nat>, impostorWon: bool)
      returns (err: Option<SessionError>, simulated: Record<string>, allVotes: Record<string>,
               votedOut: Option<string>, outcome: Option<Outcome>)
      requires Valid() && (HasVote(votes, playerName) ==> ValidVotePicks(players, playerName, picks))
      modifies this
      ensures Valid()
      ensures !HasVote(old(votes), old(playerName)) ==> err == Some(NoVoteSelected) && unchanged(this)
      ensures HasVote(old(votes), old(playerName)) ==>
                && err == None
                && simulated == SimulatedVotes(old(players), old(playerName),
                                               DrawnTargets(old(players), old(playerName), picks), |old(players)|)
                && FairVotes(players, playerName, simulated)
                && (forall i :: 0 <= i < |players| && players[i].name != playerName ==> Find(simulated, players[i].name) >= 0)
                && allVotes == Merge(votes, simulated)
                && Get(allVotes, playerName) == Get(votes, playerName)
                && votedOut.Some? && IsMostVoted(Values(allVotes), votedOut.value)
                && outcome == Some(ResultOf(players, votedOut, impostorWon))
                && phase == Results
                && playerName == old(playerName) && LobbyKept()
                && currentRole == old(currentRole) && secretWord == old(secretWord) && hintWord == old(hintWord)
                && votes == old(votes)
    {
      simulated, allVotes, votedOut, outcome := [], [], None, None;
      if !HasVote(votes, playerName) {
        return Some(NoVoteSelected), simulated, allVotes, votedOut, outcome;
      }
      simulated := SimulateVotes(players, playerName, picks);
      allVotes := Merge(votes, simulated);
      MergeGet(votes, simulated, playerName);
      assert Find(simulated, playerName) == -1;
      votedOut := ResolveVote(allVotes);
      var result := ShowResults(votedOut, impostorWon);
      outcome := Some(result);
      err := None;
    }

    /** `handleNewRound`: back to the lobby with the per-round fields cleared
        and every role reset; the roster keeps its players in their order,
        and the settings stay. */
    method HandleNewRound()
      requires Valid()
      modifies this
      ensures Valid()
      ensures phase == Lobby && currentRole == None && secretWord == "" && hintWord == "" && votes == []
      ensures |players| == |old(players)| && forall i :: 0 <= i < |players| ==> players[i] == old(players)[i].(role := None)
      ensures playerName == old(playerName) && roomCode == old(roomCode) && isHost == old(isHost) && settings == old(settings)
    {
      phase := Lobby;
      currentRole := None;
      secretWord := "";
      hintWord := "";
      votes := [];
      for i := 0 to |players|
        invariant |players| == |old(players)|
        invariant forall k :: 0 <= k < i ==> players[k] == old(players)[k].(role := None)
        invariant forall k :: i <= k < |players| ==> players[k] == old(players)[k]
        invariant phase == Lobby && currentRole == None && secretWord == "" && hintWord == "" && votes == []
        invariant playerName == old(playerName) && roomCode == old(roomCode) && isHost == old(isHost)
        invariant settings == old(settings)
      {
        players := players[i := players[i].(role := None)];
      }
      ClearedRosterHasNoRoles(old(players), players, Crew);
    }
  }
}
