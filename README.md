# Impostor: a model of the game logic

"Impostor" is a browser party game in German. One player creates a room and
gets a four-character room code. Others join with that code and a name. The
host starts a round. Each player is then secretly made either crew or
impostor. The crew learns a secret word, and the impostors may get a hint
word. After the discussion everyone votes, and the player with the most
votes is voted out. The crew wins if every impostor was voted out. If some
impostors remain, they get a (random) chance to guess the word.

This project models the game's logic in Dafny and proves its properties:

- the client's `gameState` and the handlers that move it through
  lobby → role reveal → game → voting → results → lobby (`script.js`);
- the in-memory `roomManager`;
- the validators and the word list;
- the role shuffle and the role assignment;
- the vote count and the verdict;
- the test suite's framework and helper functions (`tests.js`), together with
  the facts its unit, integration, end-to-end and regression tests assert.

Modules:

| module | file | models |
|---|---|---|
| `Wrappers` | wrappers.dfy | `Option`, for `null`/`undefined` results |
| `Text` | text.dfy | `String.prototype.trim` (ECMAScript white space and line terminators), `toUpperCase` on ASCII letters, UTF-16 `length` |
| `Roster` | roster.dfy | players, roles, settings, phases; role counting (`filter(...).length`) |
| `Validation` | validation.dfy | `generateRoomCode`, `validatePlayerName`, `validateRoomCode`, `canStartGame` |
| `Roles` | roles.dfy | the Fisher–Yates shuffle and `assignRoles`' rank rule and write-back by id |
| `Votes` | votes.dfy | JavaScript objects used as dictionaries (insertion-ordered records), the vote tally and the most-voted scan, the simulated votes |
| `Outcomes` | outcome.dfy | the four result cards of `showResults` |
| `Rooms` | rooms.dfy | `roomManager` as a class over a `map` |
| `Words` | words.dfy | `wordList` and `getRandomWord` |
| `Session` | session.dfy | `gameState` as a class and its handlers |
| `TestSupport` | tests.dfy | `TestFramework`, the test helpers and the scenarios the tests check |

Inputs that are random in the source are parameters:
- the room-code character picks: `picks`, each below 36;
- the shuffle's `j` choices: `js`, with `js[i] <= i`;
- the word pick: below 20;
- the simulated voters' picks;
- the impostors' coin flip: `impostorWon`.

Player ids are plain numbers. In `Rooms.RoomStore` a counter hands them out,
so distinct players there get distinct ids, which is what `generatePlayerId`
aims for. In the test helpers (`TestSupport.MockJoinRoom`,
`RoleAssignmentThreePlayers`, `SimulateMultiplayerScenario` and the `JoinWith*`
scenarios) ids are unconstrained parameters, and no test-helper contract
depends on them being distinct.

JavaScript objects used as dictionaries (`gameState.votes`, `simulatedVotes`,
`allVotes`, `voteCount`) are `Votes.Record` values. These are sequences of
key/value pairs in insertion order, because the order of `Object.entries`
decides ties in the most-voted scan.

Where the code departs from what it evidently intends, the model follows the code:

- `script.js` declares `validateRoomCode` twice (158-160 and 187-189). The later
  declaration wins in JavaScript, so that is the one modelled: it accepts
  lower-case codes.
- `roomManager.createRoom` stores the new room under its code without checking
  for a collision. An existing room with the same code is replaced
  (`Rooms.RoomStore.CreateRoom`: `rooms == old(rooms)[room.code := room]`).
- `handleJoin` stores the trimmed name in `gameState.playerName` before it
  joins, and keeps it when joining fails (`Session.GameSession.HandleJoin`).
- The room manager refuses a taken name with "Dieser Name ist bereits
  vergeben". The test helper's mock `joinRoom` says "Name bereits vergeben".
  Each is modelled with its own text.
- `assignRoles` ranks the shuffled copy and writes each updated player back at
  the index of the first player with the same id. With distinct ids this
  updates every player exactly once: the roster keeps its order and gets the
  roles of the ranked copy (`Roles.AssignRolesTo`). Distinct ids are part of
  `Session.GameSession.Valid`.

## Model

| member | source | states |
|---|---|---|
| `Text.TrimStart` | script.js:184 | removes a prefix made only of white space, and the rest does not start with white space |
| `Text.TrimEnd` | script.js:184 | removes a suffix made only of white space, and the rest does not end with white space |
| `Text.Trim` | script.js:213-214 | the trimmed string is the infix between the leading and trailing white space, and it neither starts nor ends with white space |
| `Text.TrimAllSpace` | script.js:184 | a string of white space only trims to the empty string (`"   "` is not a name) |
| `Text.TrimClean` | script.js:184 | a string with no surrounding white space trims to itself |
| `Text.TrimIdempotent` | script.js:213 | trimming twice equals trimming once, so `validatePlayerName` on an already-trimmed name sees the same text |
| `Text.Upper` | script.js:50 | upper-casing keeps the length, leaves no lower-case ASCII letter, keeps every other character and maps `a`–`z` to `A`–`Z` |
| `Text.UpperIdempotent` | script.js:214 | upper-casing twice equals upper-casing once, so `getRoom` on an already upper-cased code looks up the same key |
| `Text.Utf16Length` | script.js:184 | the UTF-16 `length` lies between the number of code points and twice that |
| `Text.Utf16LengthBmp` | script.js:262 | the UTF-16 `length` equals the number of code points exactly when no code point is above U+FFFF |
| `Roster.FindByName` | script.js:402 | `find` by name: the first player with that name, and none exactly when no player has it |
| `Roster.CountRole` | script.js:579 | `filter(...).length` of a role never exceeds the number of players |
| `Roster.IndexOfId` | script.js:395 | `findIndex` by id: the first index with that id, or -1 when no player has it |
| `Roster.CountRoleAppend` | script.js:579 | the count of a role over a concatenation is the sum of the counts |
| `Roster.CountRolePositive` | script.js:579 | the count of a role is positive exactly when some player has that role |
| `Roster.CountRoleSplit` | script.js:579 | removing one player lowers the count of a role by one exactly when that player has it |
| `Roster.CountRolePermutation` | script.js:378-381 | reordering the players (same multiset) keeps the count of every role |
| `Roster.CountRoleMatched` | script.js:378-381 | the inductive step of the above: matching the last player with one position of the other roster keeps the count |
| `Roster.OccursTwice` | script.js:394-395 | a player at two positions occurs at least twice |
| `Roster.OccursOnlyOnce` | tests.js:417-421 | an element of a duplicate-free sequence occurs exactly once |
| `Roster.PermutationKeepsDistinct` | tests.js:417-421 | a permutation of a duplicate-free sequence is duplicate free |
| `Roster.PermutationKeepsDistinctIds` | script.js:378-381 | a reordering of a roster with distinct ids has distinct ids (derived from `PermutationKeepsDistinct`) |
| `Validation.GenerateRoomCode` | script.js:145-152 | the code has four characters, the `i`-th is the `picks[i]`-th character of `A–Z0–9`, and it matches `/^[A-Z0-9]{4}$/` |
| `Validation.ValidPlayerName` | script.js:183-185 | definition, no contract: the trimmed name is 1 to 20 UTF-16 code units long; `ValidPlayerNameBounds` and `CleanNameValid` state its consequences |
| `Validation.ValidPlayerNameBounds` | script.js:183-185 | a valid name has 1 to 20 characters once trimmed |
| `Validation.ValidRoomCode` | script.js:187-189 | a valid code has exactly four characters |
| `Validation.CanStartGame` | script.js:162-169 | definition, no contract: the client is host, there are at least three players and fewer impostors than players; `StartGuardLeavesCrew`, `OnlyHostStarts` and `HandleStartGame` state its consequences |
| `Session.StartGuardLeavesCrew` | script.js:162-169 | a host with at least three players may start exactly when ranking the shuffled roster leaves at least one crew member |
| `Validation.ValidRoomCodeChars` | script.js:187-189 | a code is valid exactly when it has four characters, each an ASCII letter (either case) or a digit |
| `Validation.ValidRoomCodeIgnoresCase` | script.js:187-189 | a code is valid exactly when its upper-cased form is valid |
| `Roles.Swap` | script.js:381 | swapping two positions keeps the length |
| `Roles.SwapPermutes` | script.js:381 | a swap only rearranges the elements (the multiset is kept) |
| `Roles.ShuffleDown` | script.js:378-381 | the shuffle from index `i` down to 1 keeps the length |
| `Roles.ShuffleDownPermutes` | script.js:378-381 | the shuffle from index `i` down to 1 is a permutation |
| `Roles.Shuffle` | script.js:378-381 | the Fisher–Yates shuffle keeps the length and is a permutation of the players |
| `Roles.ShuffleKeepsDistinctIds` | script.js:378-381 | shuffling a roster with distinct ids gives distinct ids |
| `Roles.RolesByRankCounts` | script.js:385-391 | ranking gives exactly `min(max(k, 0), n)` impostors and the rest crew |
| `Roles.RolesByRank` | script.js:385-391 | definition, no contract: entry `i` of the shuffled copy gets impostor for `i < impostorCount`, else crew; `RolesByRankCounts` and `RolesByRankRelabels` state its properties |
| `Roles.AssignedFromCounts` | script.js:374-404 | after the assignment there are `min(max(k, 0), n)` impostors and the rest crew, every player has a role, and distinct ids stay distinct |
| `Roles.SwapInPlace` | script.js:381 | the array after the destructuring swap is `Swap` of the old array |
| `Roles.ShuffleInPlace` | script.js:378-381 | the array after the shuffle loop is `Shuffle` of the old array |
| `Roles.AssignByRank` | script.js:385-391 | the array after the role loop: position `i` is an impostor exactly when `i < impostorCount`, nothing else changes |
| `Roles.UpdateOccurrences` | script.js:397 | overwriting one position changes each element's multiplicity by the old and the new value only |
| `Roles.UpdateSwap` | script.js:397 | overwriting one position of the roster trades one occurrence of the old player for one of the new player |
| `Roles.WriteBackFinds` | script.js:395 | while writing back, the id of the next updated player is found at the position still holding its old value |
| `Roles.WriteBackBalance` | script.js:397 | one write-back step keeps the multiset balance between roster, shuffled copy and written values |
| `Roles.WriteBackUntouched` | script.js:394-399 | players whose id was not yet written back keep their old value |
| `Roles.WriteBackStep` | script.js:394-399 | one write-back step keeps the write-back invariant |
| `Roles.WriteBack` | script.js:394-399 | every roster position keeps its player with a new role, and the roster is a permutation of the updated players |
| `Roles.ShuffleAndRank` | script.js:375-391 | the ranked copy is `RolesByRank(Shuffle(players))` |
| `Roles.RolesByRankRelabels` | script.js:385-391 | ranking keeps the length and changes only roles |
| `Roles.AssignRolesTo` | script.js:374-399 | the new roster is the old one in the same order with the roles of the ranked shuffled copy (`AssignedFrom`), and ids stay distinct |
| `Words.GetRandomWord` | script.js:171-173 | the pick is an entry of the word list, and word and hint are non-empty and differ |
| `Votes.Find` | script.js:547-552 | the first index with the key, or -1 when the key is absent |
| `Votes.Get` | script.js:530 | definition, no contract: `obj[k]` is the value at the key's position, `None` when absent; `PutGet` and `MergeGet` state its properties |
| `Votes.Put` | script.js:525 | definition, no contract: `obj[k] = v` overwrites an existing key in place or appends a new one; `PutGet` and `PutKeys` state its properties |
| `Votes.Values` | script.js:550 | definition, no contract: `Object.values` in insertion order; `ResolveVote` uses it |
| `Votes.PutGet` | script.js:525 | after `obj[k] = v`, reading `k` gives `v` and every other key reads as before, at the same index |
| `Votes.FindSameKeys` | script.js:525 | extending a record with other keys keeps where a key is found |
| `Votes.PutKeys` | script.js:525 | assignment keeps the order of existing keys, appends a new key, and keeps keys distinct |
| `Votes.Merge` | script.js:547 | `{ ...a, ...b }` keeps `a`'s keys in order and keeps keys distinct |
| `Votes.MergeGet` | script.js:547 | in `{ ...a, ...b }` a key reads as in `b` when `b` has it and as in `a` otherwise |
| `Votes.OccurrencesPositive` | script.js:550-552 | a target in the list occurs at least once |
| `Votes.IndexOf` | script.js:550-552 | the first position of a target |
| `Votes.Dedup` | script.js:550-552 | the keys of the tally: the same targets without repetition |
| `Votes.DedupOrder` | script.js:550-552 | the tally's keys follow the order of each target's first vote |
| `Votes.IndexOfPrefix` | script.js:550-552 | one more vote does not move an earlier target's first position |
| `Votes.TotalUpdate` | script.js:551 | replacing one count changes the total by the difference |
| `Votes.TotalAppend` | script.js:551 | appending a count adds it to the total |
| `Votes.AppendKeys` | script.js:551 | appending a pair appends its key |
| `Votes.AppendVote` | script.js:550-552 | one more vote adds one occurrence of its target, and the target joins the tally's keys when it is new |
| `Votes.TallyStep` | script.js:550-552 | `voteCount[target] = (voteCount[target] \|\| 0) + 1` keeps the tally invariant: keys in first-vote order, each count the number of votes, counts summing to the votes |
| `Votes.TallyStepFound` | script.js:551 | the same step for a target already tallied |
| `Votes.FoundCounts` | script.js:551 | incrementing a found count keeps every count equal to the votes for its key |
| `Votes.TallyStepNew` | script.js:551 | the same step for a new target: it enters with count 1 |
| `Votes.NewCounts` | script.js:551 | a new target with count 1 keeps every count equal to the votes for its key |
| `Votes.OccurrencesZero` | script.js:551 | a target not yet voted for has zero votes (`voteCount[target] \|\| 0`) |
| `Votes.CountVotes` | script.js:547-552 | the tally of the votes: keys in first-vote order, each count the number of votes for it, total the number of votes |
| `Votes.MostVoted` | script.js:554-563 | `maxVotes` bounds every count, nobody is voted out exactly when no count is positive (in particular when the tally is empty), and the voted-out player's count is `maxVotes`, at the first entry that has it |
| `Votes.MostVotedUnique` | script.js:554-563 | the most-voted player (highest count, earliest first vote among ties) is unique |
| `Votes.ScanPicksMostVoted` | script.js:554-563 | the strictly-greater scan stops at the first key with the highest count, and that key is the most-voted player |
| `Votes.NonEmptyTally` | script.js:554-563 | a tally of at least one vote has a first entry with a positive count |
| `Votes.ResolveVote` | script.js:546-563 | nobody is voted out exactly when there are no votes; otherwise the most-voted player is voted out |
| `Votes.OthersThan` | script.js:540 | the possible targets of a voter are exactly the players with another name |
| `Votes.OthersThanAppend` | script.js:540 | `filter` keeps roster order: a roster extended by one player keeps what it kept, followed by that player when it is kept |
| `Votes.DrawnTargets` | script.js:540-541 | the target drawn for each player other than the local one is a player with another name |
| `Votes.FairVoteStep` | script.js:539-543 | one vote of a player for a player of another name keeps the votes fair |
| `Votes.SimulatedVotes` | script.js:537-544 | definition, no contract: the `forEach` fold, each player other than the local one storing their target under their own name; the four lemmas below state its properties |
| `Votes.SimulatedVotesFair` | script.js:537-544 | with fair targets the simulated votes are fair: distinct keys, nobody votes as the local player or for their own name, voters and targets are players |
| `Votes.SimulatedVotesComplete` | script.js:537-544 | every player other than the local one has a simulated vote |
| `Votes.SimulatedVotesGet` | script.js:540-542 | with distinct names, each voter's entry is their own target |
| `Votes.SimulatedVotesKeys` | script.js:537-542 | with distinct names, the keys are the names of the players other than the local one, in roster order |
| `Votes.KeptNamesStep` | script.js:538 | the other players of a longer roster prefix are those of the shorter one, followed by the new player unless it is the local one |
| `Votes.NewVoterKey` | script.js:542 | a voter not named like an earlier one adds their name as the last key |
| `Votes.SimulateVotes` | script.js:536-544 | the loop yields `SimulatedVotes` of the roster with the targets `OthersThan(players, players[i].name)[picks[i]].name`; so every player other than the local one votes, fairly |
| `Outcomes.Outcome.Title` | script.js:585-611 | the crew's title "Crew gewinnt!" appears on exactly the cards that show the secret word |
| `Outcomes.ResultTitle` | script.js:576-611 | the crew's title is shown exactly when the voted-out player is an impostor and either every impostor has that name or the remaining impostors miss the word; otherwise "Impostors gewinnen!" is shown and the word is not |
| `Outcomes.Outcome.RevealsWord` | script.js:583-611 | the cards that show the secret word are exactly those where the crew wins |
| `Outcomes.Impostors` | script.js:579 | `filter` by the impostor role: exactly the impostors, as many as `CountRole` says |
| `Outcomes.NamedIn` | script.js:580 | `filter` by name never grows the list and keeps all of it exactly when all players have that name |
| `Outcomes.ResultOf` | script.js:569-616 | a crew member or nobody voted out gives the impostors' win; an impostor voted out gives the crew's win when all impostors carry that name; otherwise the coin decides |
| `Outcomes.WasImpostor` | script.js:574-575 | definition, no contract: the first player with the voted-out name exists and is an impostor; `ResultOf` branches on it |
| `Outcomes.NamedImpostors` | script.js:579-582 | `votedOutImpostors.length === allImpostors.length` holds exactly when every impostor has the voted-out name |
| `Outcomes.ImpostorVotedOutOutcome` | script.js:576-603 | with distinct names, voting out an impostor wins for the crew outright exactly when there was one impostor; with two or more the coin decides |
| `Outcomes.NamedImpostorIsSole` | script.js:579-582 | with distinct names, if every impostor has the voted-out impostor's name, that impostor is the only one |
| `Outcomes.OthersAreCrew` | script.js:579-582 | when every player other than one impostor is not an impostor, there is exactly one impostor |
| `Outcomes.SoleImpostorIsNamed` | script.js:579-582 | the only impostor is the voted-out one |
| `Rooms.ApplyOverwritesSupplied` | script.js:79 | `{ ...settings, ...patch }` takes each supplied field and keeps the others; it is idempotent and an empty patch changes nothing |
| `Rooms.NewRoomValid` | script.js:24-46 | a new room under a generated code is well formed: stored under its own code, its host is its first and only player marked as host, names and ids are distinct and every id is below `nextId` |
| `Rooms.JoinKeepsValid` | script.js:60-72 | appending a guest with a new name and a fresh id keeps the room well formed |
| `Rooms.RoomStore.constructor` | script.js:20-21 | the store starts empty |
| `Rooms.RoomStore.FreshId` | script.js:154-156 | hands out a new id and changes no room |
| `Rooms.RoomStore.CreateRoom` | script.js:23-46 | stores a new room with the generated code, one host player and default settings under that code, replacing a room with the same code |
| `Rooms.RoomStore.JoinRoom` | script.js:53-74 | an unknown code fails with "Spiel nicht gefunden", a taken name fails with "Dieser Name ist bereits vergeben"; otherwise the guest is appended without host rights and the store changes in that room only |
| `Rooms.RoomStore.UpdateGameSettings` | script.js:76-83 | succeeds exactly when the room exists, and then merges the patch into that room's settings only |
| `Rooms.RoomStore.GetRoomIgnoresCase` | script.js:49-51 | a lookup ignores the case of the code, and a found room's code is the upper-cased code |
| `Rooms.RoomStore.GetRoom` | script.js:49-51 | definition, no contract: the room stored under the upper-cased code; `GetRoomIgnoresCase` and `GetRoomFindsStored` state its properties |
| `Rooms.RoomStore.GetRoomFindsStored` | script.js:45-50 | every stored room is found under its code |
| `Rooms.UpperOfCode` | script.js:50 | a generated code is already upper case |
| `Session.ValidCodeLength` | script.js:262 | a code accepted by `validateRoomCode` has `length` 4 |
| `Session.RoleOf` | script.js:402-403 | definition, no contract: the role of the first player with the name, crew when there is none; `AssignRoles` uses it |
| `Session.ClearedRosterHasNoRoles` | script.js:628-630 | after clearing every role no player has any role, and ids stay distinct |
| `Session.GameSession.constructor` | script.js:2-17 | the initial `gameState` |
| `Session.GameSession.HandleCreateRoom` | script.js:238-258 | an invalid name is refused with nothing changed; otherwise the player is host of the new room with its roster and settings |
| `Session.GameSession.EnterRoom` | script.js:250-254 | copies the room's roster and settings into the state, as `handleCreateRoom` does here and `joinRoom` does at script.js:276-280 |
| `Session.GameSession.JoinRoom` | script.js:260-284 | a missing code or one of the wrong length is refused with nothing changed; a refused join reports the room manager's reason; a successful join makes the player a guest of the room |
| `Session.GameSession.HandleJoin` | script.js:212-236 | refuses an invalid name, an invalid code and a missing code in that order; otherwise joins with the trimmed upper-cased code |
| `Session.GameSession.SetPlayerName` | script.js:226 | sets the player name and nothing else |
| `Session.GameSession.AssignRoles` | script.js:374-404 | the roster keeps its order and gets the ranked shuffled roles, and the current role is that of the first player with the player's name |
| `Session.GameSession.HandleStartGame` | script.js:355-372 | refused with nothing changed unless `canStartGame`; otherwise roles are assigned, the picked word and hint are set and the phase is role reveal |
| `Session.GameSession.RevealWith` | script.js:366-371 | stores the word and hint and enters the role-reveal phase |
| `Session.GameSession.HandleContinueToGame` | script.js:457-460 | enters the game phase and changes nothing else |
| `Session.GameSession.ShowVotingScreen` | script.js:496-515 | enters the voting phase with no votes |
| `Session.GameSession.Timeout` | script.js:489-494 | opens the vote only while still in the game phase; otherwise nothing changes |
| `Session.GameSession.SelectVotingTarget` | script.js:517-527 | records the player's vote for the target; the vote counts as given exactly when the target is non-empty |
| `Session.GameSession.ShowResults` | script.js:569-616 | enters the results phase with the outcome `ResultOf` the roster and the voted-out name |
| `Session.GameSession.HandleSubmitVote` | script.js:529-567 | without a vote it is refused with nothing changed, whatever the draws (they are required to be valid only when a vote exists); otherwise the simulated votes are exactly `SimulatedVotes` of the roster with the targets the draws pick, they are fair, and the most-voted player of all votes decides the result |
| `Session.GameSession.HandleNewRound` | script.js:619-634 | back to the lobby with no role, word, hint or votes; the players are kept with their roles cleared |
| `TestSupport.Iota` | tests.js:417-421 | the identity sequence `0 .. n-1` used to track where the shuffle sends each player |
| `TestSupport.ShuffleDownTracks` | tests.js:418-421 | shuffling the positions alongside the players tells where every shuffled player came from |
| `TestSupport.ShuffleTracks` | tests.js:418-421 | the shuffled positions are distinct and the shuffled copy holds, at each index, the original player at the tracked position |
| `TestSupport.RoleLoopStep` | tests.js:424-426 | setting a role through the shuffled copy also sets it on the same player in the caller's array |
| `TestSupport.AssignRolesToPlayers` | tests.js:417-429 | the returned copy is ranked; the caller's array, sharing the player objects, gets the same roles in its own order, with the impostor count `min(max(k, 0), n)` and a role for everyone |
| `TestSupport.GiveRole` | tests.js:425 | writes the role into the copy and into the caller's array at the tracked position |
| `TestSupport.RoleLoopStart` | tests.js:417-421 | before the role loop the tracking invariant holds |
| `TestSupport.RoleLoopDone` | tests.js:424-428 | after the role loop the copy is ranked and the caller's array is assigned from it |
| `TestSupport.MockJoinRoom` | tests.js:440-453 | a different code fails with "Spiel nicht gefunden", a taken name fails with "Name bereits vergeben", and nothing changes; otherwise the guest is appended |
| `TestSupport.CreateNewGame` | tests.js:455-466 | the state holds exactly one player, the host with the given name, a generated code and no auto-generated players |
| `TestSupport.PassCount` | tests.js:16-34 | the number of passing tests does not exceed the number of tests |
| `TestSupport.PassCountStep` | tests.js:20-31 | one more test adds one pass exactly when it passes |
| `TestSupport.PassCountAll` | tests.js:16-34 | all tests pass exactly when every test function returns without an error |
| `TestSupport.TestFramework.constructor` | tests.js:3-10 | no tests and zero counts |
| `TestSupport.TestFramework.Test` | tests.js:12-14 | registers one more test at the end |
| `TestSupport.TestFramework.RunTests` | tests.js:16-34 | passed counts the passing tests, passed + failed = total = number of tests, and one result line per test in order |
| `TestSupport.RunAll` | tests.js:20-31 | after the loop over the tests, passed and failed count the passes and the failures, total is the number of tests and the output holds one result line per test in order |
| `TestSupport.ResultLine` | tests.js:25-29 | definition, no contract: the pass line `✅ name` or the fail line `❌ name: message` |
| `TestSupport.ZipWithStep` | tests.js:20-31 | running one more test appends that test's result line after the earlier lines |
| `TestSupport.ZipWithAt` | tests.js:20-31 | the output line at position i is the result line of test i |
| `TestSupport.CleanNameValid` | tests.js:413-415 | a name without surrounding white space and without characters above U+FFFF is valid exactly when it has 1 to 20 characters |
| `TestSupport.CountedAsTrimmed` | tests.js:413-415 | for a name equal to its trimmed form whose UTF-16 length is its length, validity is exactly a length of 1 to 20 |
| `TestSupport.InvalidNameVectors` | tests.js:178-181 | `""`, `"   "` and 21 times `A` are invalid names |
| `TestSupport.PlainNameValid` | tests.js:174 | `"Max"` is a valid name |
| `TestSupport.NameWithSpaceValid` | tests.js:175 | `"Anna Schmidt"` is a valid name |
| `TestSupport.NameWithDigitsValid` | tests.js:176 | `"Test123"` is a valid name |
| `TestSupport.RoleAssignmentThreePlayers` | tests.js:185-205 | three players with one impostor give one impostor and two crew members, each with a role |
| `TestSupport.Decimal` | tests.js:485 | the decimal form of a number has at least one digit, and at least two from 10 on |
| `TestSupport.DecimalInjective` | tests.js:485 | different numbers have different decimal forms |
| `TestSupport.NumberedInjective` | tests.js:485 | different numbers give different `Player${i}` names |
| `TestSupport.NumberedNamesDistinct` | tests.js:481-486 | the host and the numbered players have distinct names |
| `TestSupport.SimulateMultiplayerScenario` | tests.js:479-497 | `max(playerCount, 1)` players, `min(max(k, 0), n)` impostors, the rest crew, and all names unique |
| `TestSupport.MultiplayerScenario` | tests.js:341-349 | five players and two impostors give two impostors, three crew and unique names |
| `TestSupport.StateWith` | tests.js:68-85 | a mock state in room `TEST` with the given roster |
| `TestSupport.JoinWithValidCode` | tests.js:229-250 | joining room `TEST` succeeds, there are two players and the guest is not host |
| `TestSupport.JoinWithInvalidCode` | tests.js:252-272 | joining with `WRONG` fails with "Spiel nicht gefunden" and leaves one player |
| `TestSupport.JoinWithTakenName` | tests.js:275-290 | joining as `Max` when `Max` is present fails with "Name bereits vergeben" and leaves one player |
| `TestSupport.JoinOneAfterAnother` | tests.js:293-323 | two guests join one after the other, the roster grows to two and then three, and all three names are present |
| `TestSupport.OnlyHostStarts` | tests.js:371-379 | with the three players of `simulateGameWithMultiplePlayers` (tests.js:499-510) and one impostor the host may start and a guest may not; a lone host may not start |

## Left out

- The DOM: screens, buttons, `currentScreen`, `updateUI`, `updateStartButton`, `showRoleReveal`, `showGameScreen`'s texts, `showError`'s display and timer, and the input listeners that toggle buttons or upper-case the input field. They only show state.
- `Math.random`: every random choice is a parameter, so nothing is said about distributions. In particular, the uniqueness of generated room codes (tests.js:163-168) is a probabilistic claim and is not modelled.
- `new Date().toISOString()` timestamps (`joinedAt`, `createdAt`) and the `player_...` format of ids. Ids are numbers.
- Aliasing of player objects between `gameState.players` and the room store. The model copies values. In `assignRolesToPlayers` the sharing between the shuffled copy and the caller's array is modelled explicitly (`TestSupport.AssignRolesToPlayers`). In `assignRoles` the sharing is modelled by the id write-back, which needs distinct ids.
- The settings listeners (script.js:333-353). They write the selected `impostorCount` or `hintWordEnabled` into `gameState.gameSettings` and, for a host with a room code, pass the same field to `roomManager.updateGameSettings`. In the model a session's settings therefore start at the defaults and change only through `Session.GameSession.EnterRoom`; the store's `Rooms.RoomStore.UpdateGameSettings` is modelled on its own.
- `testRoomManagement`, `runAllTests` and the test-page bootstrap. They are UI wiring and logging.
- `Votes.ValidVotePicks`: it requires every simulated voter to have a differently named player to vote for. When there is none (for example players `[A]` with local name `B`, or two players sharing a name), script.js:541-542 reads `.name` of `undefined` and throws a `TypeError`; that failure is not modelled.
- `toUpperCase` beyond ASCII, and a string's `length` for lone surrogates. Text outside ASCII is left unchanged by `Text.Upper`.
- Keys that JavaScript orders specially in objects (integer-like property names), and prototype keys such as `__proto__`. Records keep plain insertion order.
- `TestSupport.TestFramework.RunTests`: the outcome (`None` for a pass, `Some(message)` for the thrown error's message) of each test function is a parameter. Running the test functions, `async` execution and the `assert*` helpers' message texts are not modelled.
- Tests whose expectations contradict the code they call are not stated as lemmas. Examples: B1 expects a lone host to start; the regression test at tests.js:381-390 joins a mock state whose code is `''` and expects success; `assertNotNull` is not defined. The end-to-end stubs `simulateCompleteGameFlow` and `attemptDirectJoin` return constants.
- `TestSupport.SimulateMultiplayerScenario`: the constant `gameCompleted: true` is not returned. `impostors` and `crew` are the lengths of the filtered lists, not the lists.
- The unit tests A1 and A2 (tests.js:120-154) build by hand the one-host state that `createNewGame` builds, and the regression tests at tests.js:354-369 and 392-400 call `createNewGame`. The contract of `TestSupport.CreateNewGame` states what they check; they have no members of their own.
- Async behaviour and exceptions: every handler runs to completion.
