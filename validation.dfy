/** Room-code generation and the three guards of the game script:
    `validatePlayerName`, `validateRoomCode` and `canStartGame`. */
module Validation {
  import opened Text
  import opened Roster

  /** The characters a room code is drawn from. */
  const Alphabet := "ABCDEFGHIJKLMNOPQRSTUVWXYZ0123456789"
  const CodeLength := 4
  const MaxNameLength := 20
  const MinPlayers := 3

  /** One character of the class `[A-Z0-9]`. */
  predicate IsCodeChar(c: char) {
    'A' <= c <= 'Z' || '0' <= c <= '9'
  }

  /** The regular expression `/^[A-Z0-9]{4}$/`. */
  predicate MatchesCodePattern(s: string) {
    |s| == CodeLength && forall i :: 0 <= i < |s| ==> IsCodeChar(s[i])
  }

  /** `generateRoomCode`: four characters of `Alphabet`, the `i`-th chosen by
      `picks[i]` (the source's `Math.floor(Math.random() * 36)`). The result
      matches the room-code pattern and passes `ValidRoomCode`. */
  method GenerateRoomCode(picks: seq<nat>) returns (code: string)
    requires |picks| == CodeLength
    requires forall i :: 0 <= i < |picks| ==> picks[i] < |Alphabet|
    ensures |code| == CodeLength
    ensures forall i :: 0 <= i < CodeLength ==> code[i] == Alphabet[picks[i]]
    ensures MatchesCodePattern(code) && ValidRoomCode(code)
  {
    code := "";
    for i := 0 to CodeLength
      invariant |code| == i
      invariant forall k :: 0 <= k < i ==> code[k] == Alphabet[picks[k]] && IsCodeChar(code[k])
    {
      code := code + [Alphabet[picks[i]]];
    }
    assert Upper(code) == code;
  }

  /** `validatePlayerName`: the trimmed name is 1 to 20 UTF-16 code units long. */
  predicate ValidPlayerName(name: string) {
    0 < Utf16Length(Trim(name)) <= MaxNameLength
  }

  /** A valid name has 1 to 20 characters once trimmed. (Kept out of the
      predicate's own contract, where it would mention `Trim` of every
      trimmed name the handlers test.) */
  lemma ValidPlayerNameBounds(name: string)
    ensures ValidPlayerName(name) ==> 0 < |Trim(name)| <= MaxNameLength
  {
  }

  /** `validateRoomCode` as declared last in the script (the declaration in
      effect): the code is non-empty and its upper-case form matches
      `/^[A-Z0-9]{4}$/`. */
  predicate ValidRoomCode(code: string)
    ensures ValidRoomCode(code) ==> |code| == CodeLength
  {
    code != "" && MatchesCodePattern(Upper(code))
  }

  /** The validator accepts lower case: a code is valid exactly when it has four
      characters, each an ASCII letter of either case or a digit. */
  lemma ValidRoomCodeChars(code: string)
    ensures ValidRoomCode(code) <==>
      |code| == CodeLength && forall i :: 0 <= i < |code| ==> IsCodeChar(code[i]) || 'a' <= code[i] <= 'z'
  {
    if |code| == CodeLength && forall i :: 0 <= i < |code| ==> IsCodeChar(code[i]) || 'a' <= code[i] <= 'z' {
      forall i | 0 <= i < |code| ensures IsCodeChar(Upper(code)[i]) {
        if 'a' <= code[i] <= 'z' { assert 'A' <= Upper(code)[i] <= 'Z'; }
      }
    }
    if ValidRoomCode(code) {
      forall i | 0 <= i < |code| ensures IsCodeChar(code[i]) || 'a' <= code[i] <= 'z' {
        assert IsCodeChar(Upper(code)[i]);
      }
    }
  }

  /** Whether a code is valid does not depend on its case. */
  lemma ValidRoomCodeIgnoresCase(code: string)
    ensures ValidRoomCode(code) <==> ValidRoomCode(Upper(code))
  {
    UpperIdempotent(code);
  }

  /** `canStartGame`: the local client is the host, there are at least three
      players, and fewer impostors than players. */
  predicate CanStartGame(isHost: bool, players: seq<Player>, settings: Settings) {
    isHost && |players| >= MinPlayers && settings.impostorCount < |players|
  }
}
