/** The test page of the game: its re-implementations of the game helpers
    (`assignRolesToPlayers`, a `joinRoom` against a single game state,
    `createNewGame`), the pass/fail bookkeeping of `TestFramework`, and the
    concrete assertions its unit, integration and regression tests make. */
module TestSupport {
  import opened Wrappers
  import opened Text
  import opened Roster
  import opened Validation
  import opened Roles
  import opened Session

  /** `0, 1, ..., n - 1`: the positions of the caller's array. */
  function Iota(n: nat): (r: seq<nat>)
    ensures |r| == n && forall i :: 0 <= i < n ==> r[i] == i
  {
    seq(n, i requires 0 <= i < n => i)
  }

  /** Running the shuffle loop on a copy `s` and, alongside, on the positions
      `q` its entries come from keeps every entry at the position it names. */
  lemma {:induction false} ShuffleDownTracks<T>(s: seq<T>, q: seq<nat>, base: seq<T>, js: seq<nat>, i: nat)
    requires ValidPicks(js, |s|) && |q| == |s| && i < |s|
    requires forall m :: 0 <= m < |s| ==> q[m] < |base| && s[m] == base[q[m]]
    ensures forall m :: 0 <= m < |s| ==>
              ShuffleDown<nat>(q, js, i)[m] < |base| && ShuffleDown(s, js, i)[m] == base[ShuffleDown<nat>(q, js, i)[m]]
    decreases i
  {
    if i > 0 {
      var s' := Swap(s, i, js[i]);
      var q' := Swap(q, i, js[i]);
      assert forall m :: 0 <= m < |s| ==> q'[m] < |base| && s'[m] == base[q'[m]];
      ShuffleDownTracks(s', q', base, js, i - 1);
    }
  }

  /** Which caller entry each entry of the shuffled copy is: the shuffle of
      the positions. It is a rearrangement of the positions, and the
      shuffled copy holds at `m` the caller's entry at `Shuffle(Iota(n), js)[m]`. */
  lemma ShuffleTracks<T>(players: seq<T>, js: seq<nat>)
    requires ValidPicks(js, |players|)
    ensures Distinct(Shuffle<nat>(Iota(|players|), js))
    ensures forall m :: 0 <= m < |players| ==>
              Shuffle<nat>(Iota(|players|), js)[m] < |players| &&
              Shuffle(players, js)[m] == players[Shuffle<nat>(Iota(|players|), js)[m]]
  {
    var n := |players|;
    PermutationKeepsDistinct(Iota(n), Shuffle<nat>(Iota(n), js));
    if n > 0 {
      ShuffleDownTracks(players, Iota(n), players, js, n - 1);
    }
  }

  /** The role loop of `assignRolesToPlayers` after `i` iterations. `copy` is
      the shuffled copy and `view` the caller's array; both hold the same
      player objects, `copy[m]` being the caller's entry `pi[m]`, so a role
      written through the copy shows in the caller's array too. */
  ghost predicate RoleLoop(players: seq<Player>, sh: seq<Player>, pi: seq<nat>, k: int,
                           copy: seq<Player>, view: seq<Player>, i: nat)
  {
    && |sh| == |pi| == |copy| == |view| == |players| && i <= |players|
    && (forall m :: 0 <= m < i ==> copy[m] == sh[m].(role := Some(RoleAtRank(m, k))))
    && (forall m :: i <= m < |copy| ==> copy[m] == sh[m])
    && (forall m :: 0 <= m < |pi| ==> pi[m] < |view| && view[pi[m]] == copy[m])
    && (forall m :: 0 <= m < |view| ==> view[m] == players[m].(role := view[m].role))
    && multiset(view) == multiset(copy)
  }

  /** One iteration of the role loop keeps `RoleLoop`. */
  lemma RoleLoopStep(players: seq<Player>, sh: seq<Player>, pi: seq<nat>, k: int,
                     copy: seq<Player>, view: seq<Player>, i: nat)
    requires Distinct(pi) && RoleLoop(players, sh, pi, k, copy, view, i) && i < |players|
    ensures var x := copy[i].(role := Some(RoleAtRank(i, k)));
            RoleLoop(players, sh, pi, k, copy[i := x], view[pi[i] := x], i + 1)
  {
    var x := copy[i].(role := Some(RoleAtRank(i, k)));
    var copy', view' := copy[i := x], view[pi[i] := x];
    assert forall m :: 0 <= m < i + 1 ==> copy'[m] == sh[m].(role := Some(RoleAtRank(m, k)));
    assert forall m :: i + 1 <= m < |copy'| ==> copy'[m] == sh[m];
    assert forall m :: 0 <= m < |pi| ==> pi[m] < |view'| && view'[pi[m]] == copy'[m] by {
      forall m | 0 <= m < |pi| ensures view'[pi[m]] == copy'[m] {
        if m != i {
          if m < i { assert pi[m] != pi[i]; } else { assert pi[i] != pi[m]; }
        }
      }
    }
    assert forall m :: 0 <= m < |view'| ==> view'[m] == players[m].(role := view'[m].role) by {
      forall m | 0 <= m < |view'| ensures view'[m] == players[m].(role := view'[m].role) {
        if m == pi[i] { assert view[pi[i]] == copy[i]; }
      }
    }
    assert multiset(view') == multiset(copy') by {
      forall y ensures multiset(view')[y] == multiset(copy')[y] {
        UpdateOccurrences(view, pi[i], x, y);
        UpdateOccurrences(copy, i, x, y);
      }
    }
  }

  /** `assignRolesToPlayers(players, impostorCount)`: shuffles a copy of the
      array and gives the player at position `i` of the copy the role
      `i < impostorCount ? 'impostor' : 'crew'`. The copy shares its player
      objects with the caller, so the caller's array, whose order the
      shuffle leaves alone, sees the roles too: `callers` is that array
      afterwards, `shuffled` the returned copy. Object identity is modelled
      by position: `pi[m]` is the caller's entry that is entry `m` of the
      copy, the shuffle of the positions `Iota(n)`. */
  method AssignRolesToPlayers(players: seq<Player>, k: int, js: seq<nat>)
      returns (shuffled: seq<Player>, callers: seq<Player>)
    requires ValidPicks(js, |players|)
    ensures shuffled == RolesByRank(Shuffle(players, js), k)
    ensures AssignedFrom(players, callers, k, js)
    ensures CountRole(callers, Impostor) == ImpostorTotal(k, |players|)
    ensures CountRole(callers, Crew) == |players| - ImpostorTotal(k, |players|)
    ensures forall m :: 0 <= m < |callers| ==> callers[m].role.Some?
  {
    var n := |players|;
    var copy := new Player[n](i requires 0 <= i < n => players[i]);
    assert copy[..] == players;
    ShuffleInPlace(copy, js);
    ghost var sh := copy[..];
    var pi := Shuffle<nat>(Iota(n), js);
    var view := new Player[n](i requires 0 <= i < n => players[i]);
    RoleLoopStart(players, js, k, view[..]);
    for i := 0 to n
      invariant RoleLoop(players, sh, pi, k, copy[..], view[..], i)
    {
      RoleLoopStep(players, sh, pi, k, copy[..], view[..], i);
      GiveRole(copy, view, i, pi[i], k);
    }
    RoleLoopDone(players, js, k, copy[..], view[..]);
    shuffled := copy[..];
    callers := view[..];
    AssignedFromCounts(players, callers, k, js);
  }

  /** `shuffled[i].role = i < impostorCount ? 'impostor' : 'crew'` on the
      player object that is entry `i` of the copy and entry `j` of the
      caller's array. */
  method GiveRole(copy: array<Player>, view: array<Player>, i: nat, j: nat, k: int)
    requires copy != view && i < copy.Length && j < view.Length
    modifies copy, view
    ensures var x := old(copy[i]).(role := Some(RoleAtRank(i, k)));
            copy[..] == old(copy[..])[i := x] && view[..] == old(view[..])[j := x]
  {
    var x := copy[i].(role := Some(if i < k then Impostor else Crew));
    copy[i] := x;
    view[j] := x;
  }

  /** Before the role loop the copy is the shuffled roster and the caller's
      array is untouched. */
  lemma RoleLoopStart(players: seq<Player>, js: seq<nat>, k: int, view: seq<Player>)
    requires ValidPicks(js, |players|) && view == players
    ensures Distinct(Shuffle<nat>(Iota(|players|), js))
    ensures RoleLoop(players, Shuffle(players, js), Shuffle<nat>(Iota(|players|), js), k,
                     Shuffle(players, js), view, 0)
  {
    ShuffleTracks(players, js);
  }

  /** After the role loop the copy holds the roles by rank, and the caller's
      array is the same players with exactly those roles. */
  lemma RoleLoopDone(players: seq<Player>, js: seq<nat>, k: int, copy: seq<Player>, view: seq<Player>)
    requires ValidPicks(js, |players|)
    requires RoleLoop(players, Shuffle(players, js), Shuffle<nat>(Iota(|players|), js), k, copy, view, |players|)
    ensures copy == RolesByRank(Shuffle(players, js), k)
    ensures AssignedFrom(players, view, k, js)
  {
  }

  /** The result of the mock `joinRoom`: `{ success: true, player }` or
      `{ success: false, error }`. */
  datatype MockJoinResult = MockJoined(player: Player) | MockRefused(error: string)

  const GameNotFound := "Spiel nicht gefunden"
  const NameTaken := "Name bereits vergeben"

  /** The mock `joinRoom(roomCode, playerName, gameState)`: refuses a code
      other than the state's own, then a name already in the state's
      roster; otherwise appends a fresh non-host player with id `id` (the
      source's `generatePlayerId()`). */
  method MockJoinRoom(roomCode: string, playerName: string, s: GameSession, id: PlayerId)
      returns (r: MockJoinResult)
    modifies s
    ensures old(s.roomCode) != roomCode ==> r == MockRefused(GameNotFound) && unchanged(s)
    ensures old(s.roomCode) == roomCode && HasName(old(s.players), playerName) ==>
              r == MockRefused(NameTaken) && unchanged(s)
    ensures old(s.roomCode) == roomCode && !HasName(old(s.players), playerName) ==>
              && r == MockJoined(Player(playerName, id, false, None))
              && s.players == old(s.players) + [r.player]
              && s.playerName == old(s.playerName) && s.roomCode == old(s.roomCode) && s.isHost == old(s.isHost)
              && s.settings == old(s.settings) && s.RoundKept()
  {
    if s.roomCode != roomCode {
      return MockRefused(GameNotFound);
    }
    if FindByName(s.players, playerName).Some? {
      return MockRefused(NameTaken);
    }
    var newPlayer := Player(playerName, id, false, None);
    s.players := s.players + [newPlayer];
    r := MockJoined(newPlayer);
  }

  /** The result of `createNewGame`. */
  datatype NewGame = NewGame(players: seq<Player>, hasAutoGeneratedPlayers: bool, roomCode: string)

  /** `createNewGame(hostName, gameState)`: a fresh room code from `picks`,
      and the state's roster becomes the host alone. */
  method CreateNewGame(hostName: string, s: GameSession, picks: seq<nat>, id: PlayerId) returns (g: NewGame)
    requires |picks| == CodeLength && forall i :: 0 <= i < |picks| ==> picks[i] < |Alphabet|
    modifies s
    ensures g == NewGame(s.players, false, s.roomCode)
    ensures s.players == [Player(hostName, id, true, None)]
    ensures MatchesCodePattern(s.roomCode) && forall i :: 0 <= i < CodeLength ==> s.roomCode[i] == Alphabet[picks[i]]
    ensures s.isHost && s.playerName == hostName
    ensures s.settings == old(s.settings) && s.RoundKept()
  {
    var code := GenerateRoomCode(picks);
    s.roomCode := code;
    s.isHost := true;
    s.playerName := hostName;
    s.players := [Player(hostName, id, true, None)];
    g := NewGame(s.players, false, s.roomCode);
  }

  /** How many of the tests passed: `None` is a test function that returned,
      `Some(message)` one that threw an error with that message. */
  function PassCount(outcomes: seq<Option<string>>): (n: nat)
    ensures n <= |outcomes|
  {
    if outcomes == [] then 0
    else PassCount(outcomes[..|outcomes| - 1]) + if outcomes[|outcomes| - 1].None? then 1 else 0
  }

  /** Counting one more outcome. */
  lemma PassCountStep(outcomes: seq<Option<string>>, i: nat)
    requires i < |outcomes|
    ensures PassCount(outcomes[..i + 1]) == PassCount(outcomes[..i]) + if outcomes[i].None? then 1 else 0
  {
    assert outcomes[..i + 1][..i] == outcomes[..i];
  }

  /** Every test passed exactly when none of them threw. */
  lemma {:induction false} PassCountAll(outcomes: seq<Option<string>>)
    ensures PassCount(outcomes) == |outcomes| <==> forall i :: 0 <= i < |outcomes| ==> outcomes[i].None?
  {
    if outcomes != [] {
      var p := outcomes[..|outcomes| - 1];
      PassCountAll(p);
      assert forall i :: 0 <= i < |p| ==> p[i] == outcomes[i];
    }
  }

  /** The HTML line `runTests` reports for one test. */
  function ResultLine(name: string, outcome: Option<string>): string {
    match outcome
    case None => "<div class=\"test-result test-pass\">\U{2705} " + name + "</div>"
    case Some(message) => "<div class=\"test-result test-fail\">\U{274C} " + name + ": " + message + "</div>"
  }

  /** The `results` counters of a test framework. */
  datatype Summary = Summary(passed: nat, failed: nat, total: nat)

  /** `TestFramework`: the registered test names and the counters of the
      last run. Running a test function is left to the caller, who passes
      each test's outcome to `RunTests`. */
  class TestFramework {
    var tests: seq<string>
    var results: Summary

    constructor()
      ensures tests == [] && results == Summary(0, 0, 0)
    {
      tests := [];
      results := Summary(0, 0, 0);
    }

    /** `test(name, testFunction)`: registers one more test. */
    method Test(name: string)
      modifies this
      ensures tests == old(tests) + [name] && results == old(results)
    {
      tests := tests + [name];
    }

    /** `runTests`: resets the counters, then runs the tests in order,
        counting each as passed or failed and reporting one line per test.
        `outcomes[i]` is what running test `i` gives. */
    method RunTests(outcomes: seq<Option<string>>) returns (output: seq<string>)
      requires |outcomes| == |tests|
      modifies this
      ensures tests == old(tests)
      ensures results.passed == PassCount(outcomes)
      ensures results.passed + results.failed == results.total == |tests|
      ensures |output| == |tests| && forall i :: 0 <= i < |tests| ==> output[i] == ResultLine(tests[i], outcomes[i])
    {
      results, output := RunAll(tests, outcomes);
      forall i | 0 <= i < |tests| ensures output[i] == ResultLine(tests[i], outcomes[i]) {
        ZipWithAt(ResultLine, tests, outcomes, i);
      }
    }
  }

  /** `f` applied to corresponding entries of `xs` and `ys`, in order; the
      result lines of a run are `ZipWith(ResultLine, names, outcomes)`. */
  function ZipWith<A, B, C>(f: (A, B) -> C, xs: seq<A>, ys: seq<B>): (r: seq<C>)
    requires |ys| == |xs|
    ensures |r| == |xs|
  {
    if xs == [] then []
    else ZipWith(f, xs[..|xs| - 1], ys[..|xs| - 1]) + [f(xs[|xs| - 1], ys[|xs| - 1])]
  }

  /** Extending both inputs by one entry appends one result. */
  lemma ZipWithStep<A, B, C>(f: (A, B) -> C, xs: seq<A>, ys: seq<B>, i: nat)
    requires |ys| == |xs| && i < |xs|
    ensures ZipWith(f, xs[..i + 1], ys[..i + 1]) == ZipWith(f, xs[..i], ys[..i]) + [f(xs[i], ys[i])]
  {
    assert xs[..i + 1][..i] == xs[..i] && ys[..i + 1][..i] == ys[..i];
  }

  /** Entry `i` of the result is `f` of entry `i` of both inputs. */
  lemma {:induction false} ZipWithAt<A, B, C>(f: (A, B) -> C, xs: seq<A>, ys: seq<B>, i: nat)
    requires |ys| == |xs| && i < |xs|
    ensures ZipWith(f, xs, ys)[i] == f(xs[i], ys[i])
  {
    var n := |xs| - 1;
    if i < n {
      ZipWithAt(f, xs[..n], ys[..n], i);
      assert xs[..n][i] == xs[i] && ys[..n][i] == ys[i];
    }
  }

  /** The loop of `runTests` over the tests named `names`: the counters end
      with the number of passes and failures, and the output is one result
      line per test, in order. The counters are gathered in locals and
      stored once, which nothing in between can tell apart from the
      step-by-step increments. */
  method RunAll(names: seq<string>, outcomes: seq<Option<string>>) returns (results: Summary, output: seq<string>)
    requires |outcomes| == |names|
    ensures results.passed == PassCount(outcomes)
    ensures results.passed + results.failed == results.total == |names|
    ensures output == ZipWith(ResultLine, names, outcomes)
  {
    var passed: nat, failed: nat := 0, 0;
    output := [];
    for i := 0 to |names|
      invariant passed == PassCount(outcomes[..i]) && passed + failed == i
      invariant output == ZipWith(ResultLine, names[..i], outcomes[..i])
    {
      PassCountStep(outcomes, i);
      ZipWithStep(ResultLine, names, outcomes, i);
      if outcomes[i].None? {
        passed := passed + 1;
      } else {
        failed := failed + 1;
      }
      output := output + [ResultLine(names[i], outcomes[i])];
    }
    assert names[..|names|] == names && outcomes[..|names|] == outcomes;
    results := Summary(passed, failed, passed + failed);
  }

  /** A name with no white space at either end and no character outside the
      Basic Multilingual Plane is valid exactly when it has 1 to 20
      characters. */
  lemma CleanNameValid(name: string)
    requires name == [] || (!IsSpace(name[0]) && !IsSpace(name[|name| - 1]))
    requires forall i :: 0 <= i < |name| ==> name[i] as int <= 0xFFFF
    ensures ValidPlayerName(name) <==> 0 < |name| <= MaxNameLength
  {
    assert Utf16Length(name) == |name| by {
      Utf16LengthBmp(name);
    }
    assert Trim(name) == name by {
      TrimClean(name);
    }
    assert ValidPlayerName(name) <==> 0 < |name| <= MaxNameLength by {
      CountedAsTrimmed(name);
    }
  }

  /** A name that is its own trim and counts one code unit per character is
      valid exactly when it has 1 to 20 characters. */
  lemma CountedAsTrimmed(name: string)
    requires Trim(name) == name && Utf16Length(name) == |name|
    ensures ValidPlayerName(name) <==> 0 < |name| <= MaxNameLength
  {
  }


  /** The invalid names of the unit test of `validatePlayerName`: empty,
      blank, and 21 characters long. */
  lemma InvalidNameVectors()
    ensures !ValidPlayerName("") && !ValidPlayerName("   ") && !ValidPlayerName(seq(21, _ => 'A'))
  {
    CleanNameValid("");
    TrimAllSpace("   ");
    CleanNameValid(seq(21, _ => 'A'));
  }

  /** The valid names of that test, one lemma each. */
  lemma PlainNameValid()
    ensures ValidPlayerName("Max")
  {
    CleanNameValid("Max");
  }

  lemma NameWithSpaceValid()
    ensures ValidPlayerName("Anna Schmidt")
  {
    CleanNameValid("Anna Schmidt");
  }

  lemma NameWithDigitsValid()
    ensures ValidPlayerName("Test123")
  {
    CleanNameValid("Test123");
  }

  /** Unit test "Rollenzuweisung": three players and one impostor give one
      impostor and two crew members, and everyone has a role. */
  method RoleAssignmentThreePlayers(ids: seq<PlayerId>, js: seq<nat>) returns (players: seq<Player>)
    requires |ids| == 3 && ValidPicks(js, 3)
    ensures |players| == 3
    ensures CountRole(players, Impostor) == 1 && CountRole(players, Crew) == 2
    ensures forall m :: 0 <= m < |players| ==> players[m].role.Some?
  {
    var before := [Player("Player1", ids[0], false, None), Player("Player2", ids[1], false, None),
                   Player("Player3", ids[2], false, None)];
    var _, after := AssignRolesToPlayers(before, 1, js);
    players := after;
  }

  /** The decimal digits of `n`, as a template literal `${n}` writes it. */
  function Decimal(n: nat): (r: string)
    ensures |r| >= 1 && (n >= 10 ==> |r| >= 2)
  {
    if n < 10 then [('0' as int + n) as char] else Decimal(n / 10) + [('0' as int + n % 10) as char]
  }

  /** Different numbers are written differently. */
  lemma {:induction false} DecimalInjective(a: nat, b: nat)
    requires Decimal(a) == Decimal(b)
    ensures a == b
  {
    var da, db := Decimal(a), Decimal(b);
    if a >= 10 && b >= 10 {
      assert da[..|da| - 1] == Decimal(a / 10) && db[..|db| - 1] == Decimal(b / 10);
      DecimalInjective(a / 10, b / 10);
      assert da[|da| - 1] == db[|db| - 1];
    } else if a < 10 && b < 10 {
      assert da[0] == db[0];
    }
  }

  /** The name `Player${i}` of the `i`-th joined player. */
  function Numbered(i: nat): string {
    "Player" + Decimal(i)
  }

  lemma NumberedInjective(a: nat, b: nat)
    requires Numbered(a) == Numbered(b)
    ensures a == b
  {
    assert Numbered(a)[6..] == Decimal(a) && Numbered(b)[6..] == Decimal(b);
    DecimalInjective(a, b);
  }

  /** `simulateMultiplayerScenario(playerCount, impostorCount)` of the
      end-to-end tests: a host and players `Player1`, `Player2`, ... up to
      `playerCount` players in all (at least the host), roles assigned by
      `assignRolesToPlayers`. It reports the number of players, of
      impostors and of crew members, and whether all names differ. */
  method SimulateMultiplayerScenario(playerCount: nat, impostorCount: int, ids: seq<PlayerId>, js: seq<nat>)
      returns (totalPlayers: nat, impostors: nat, crew: nat, allPlayersUnique: bool)
    requires |ids| >= playerCount && |ids| >= 1
    requires ValidPicks(js, if playerCount == 0 then 1 else playerCount)
    ensures totalPlayers == if playerCount == 0 then 1 else playerCount
    ensures impostors == ImpostorTotal(impostorCount, totalPlayers)
    ensures crew == totalPlayers - impostors
    ensures allPlayersUnique
  {
    var n := if playerCount == 0 then 1 else playerCount;
    var players := [Player("Host", ids[0], true, None)];
    for i := 1 to n
      invariant |players| == i && players[0] == Player("Host", ids[0], true, None)
      invariant forall m :: 1 <= m < i ==> players[m] == Player(Numbered(m), ids[m], false, None)
    {
      players := players + [Player("Player" + Decimal(i), ids[i], false, None)];
    }
    NumberedNamesDistinct(players, ids);
    var _, callers := AssignRolesToPlayers(players, impostorCount, js);
    assert forall m :: 0 <= m < |callers| ==> callers[m].name == players[m].name;
    totalPlayers := |callers|;
    impostors := CountRole(callers, Impostor);
    crew := CountRole(callers, Crew);
    allPlayersUnique := DistinctNames(callers);
  }

  /** The host and the numbered players all have different names. */
  lemma NumberedNamesDistinct(players: seq<Player>, ids: seq<PlayerId>)
    requires |players| >= 1 && |ids| >= |players| && players[0] == Player("Host", ids[0], true, None)
    requires forall m :: 1 <= m < |players| ==> players[m] == Player(Numbered(m), ids[m], false, None)
    ensures DistinctNames(players)
  {
    forall a, b | 0 <= a < b < |players| ensures players[a].name != players[b].name {
      if a == 0 {
        assert |players[a].name| == 4 && |players[b].name| >= 7;
      } else if players[a].name == players[b].name {
        NumberedInjective(a, b);
      }
    }
  }

  /** End-to-end test 2: five players with two impostors give two impostors
      and three crew members, all with distinct names. */
  method MultiplayerScenario(ids: seq<PlayerId>, js: seq<nat>)
      returns (totalPlayers: nat, impostors: nat, crew: nat, allPlayersUnique: bool)
    requires |ids| == 5 && ValidPicks(js, 5)
    ensures totalPlayers == 5 && impostors == 2 && crew == 3 && allPlayersUnique
  {
    totalPlayers, impostors, crew, allPlayersUnique := SimulateMultiplayerScenario(5, 2, ids, js);
  }

  /** A game state with `roster` in room `TEST`, as the integration tests
      set it up. */
  method StateWith(roster: seq<Player>, host: bool, name: string) returns (s: GameSession)
    ensures fresh(s)
    ensures s.roomCode == "TEST" && s.isHost == host && s.playerName == name && s.players == roster
  {
    s := new GameSession();
    s.roomCode := "TEST";
    s.isHost := host;
    s.playerName := name;
    s.players := roster;
  }

  /** Integration test C1: a guest joins the host's room with its code. */
  method JoinWithValidCode(hostId: PlayerId, guestId: PlayerId)
      returns (joinResult: MockJoinResult, players: seq<Player>)
    ensures joinResult.MockJoined? && |players| == 2
    ensures FindByName(players, "Guest") == Some(1) && !players[1].isHost
  {
    var s := StateWith([Player("Host", hostId, true, None)], true, "Host");
    joinResult := MockJoinRoom("TEST", "Guest", s, guestId);
    players := s.players;
  }

  /** Integration test C2: a wrong code is refused and nobody joins. */
  method JoinWithInvalidCode(hostId: PlayerId, guestId: PlayerId)
      returns (joinResult: MockJoinResult, players: seq<Player>)
    ensures joinResult == MockRefused("Spiel nicht gefunden") && |players| == 1
  {
    var s := StateWith([Player("Host", hostId, true, None)], true, "Host");
    joinResult := MockJoinRoom("WRONG", "Guest", s, guestId);
    players := s.players;
  }

  /** Integration test D1: a name already in the room is refused and nobody
      joins. */
  method JoinWithTakenName(maxId: PlayerId, newId: PlayerId)
      returns (joinResult: MockJoinResult, players: seq<Player>)
    ensures joinResult == MockRefused("Name bereits vergeben") && |players| == 1
  {
    var s := StateWith([Player("Max", maxId, false, None)], false, "");
    assert s.players[0].name == "Max";
    joinResult := MockJoinRoom("TEST", "Max", s, newId);
    players := s.players;
  }

  /** Integration test E1: two players join one after the other and every
      player is in the roster. */
  method JoinOneAfterAnother(ids: seq<PlayerId>)
      returns (first: MockJoinResult, second: MockJoinResult, countAfterFirst: nat, players: seq<Player>)
    requires |ids| == 3
    ensures first.MockJoined? && countAfterFirst == 2
    ensures second.MockJoined? && |players| == 3
    ensures HasName(players, "Host") && HasName(players, "Player1") && HasName(players, "Player2")
  {
    var s := StateWith([Player("Host", ids[0], true, None)], true, "Host");
    first := MockJoinRoom(s.roomCode, "Player1", s, ids[1]);
    countAfterFirst := |s.players|;
    second := MockJoinRoom(s.roomCode, "Player2", s, ids[2]);
    players := s.players;
    assert players[0].name == "Host" && players[1].name == "Player1" && players[2].name == "Player2";
  }

  /** Regression test of the start button, and integration test B1: with
      three players and one impostor only the host may start; a host alone
      may not, whatever B1 expects. */
  lemma OnlyHostStarts(players: seq<Player>, host: Player)
    requires |players| == 3
    ensures CanStartGame(true, players, DefaultSettings) && !CanStartGame(false, players, DefaultSettings)
    ensures !CanStartGame(true, [host], DefaultSettings)
  {
  }
}
