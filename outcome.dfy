/** How a round ends once the vote has picked someone (or no one). */
module Outcomes {
  import opened Wrappers
  import opened Roster

  /** The four result cards of the results screen. */
  datatype Outcome =
    | AllImpostorsFound     // every impostor was voted out
    | ImpostorsGuessedWord  // impostors remain and guessed the word
    | ImpostorsMissedWord   // impostors remain and missed the word
    | InnocentVotedOut      // a crew member (or nobody) was voted out
  {
    /** The side that wins the round. */
    function Winner(): Role {
      match this
      case AllImpostorsFound => Crew
      case ImpostorsMissedWord => Crew
      case ImpostorsGuessedWord => Impostor
      case InnocentVotedOut => Impostor
    }

    /** The title shown on the result card: the crew's title is shown on
        exactly the cards that reveal the secret word. */
    function Title(): (t: string)
      ensures t == "Crew gewinnt!" <==> RevealsWord()
    {
      if Winner() == Crew then "Crew gewinnt!" else "Impostors gewinnen!"
    }

    /** The cards that show `Das geheime Wort war: ...`: exactly those where
        the crew wins. */
    predicate RevealsWord()
      ensures RevealsWord() <==> Winner() == Crew
    {
      this == AllImpostorsFound || this == ImpostorsMissedWord
    }
  }

  /** `ps.filter(p => p.role === 'impostor')`. */
  function Impostors(ps: seq<Player>): (r: seq<Player>)
    ensures forall p :: p in r <==> p in ps && p.role == Some(Impostor)
    ensures |r| == CountRole(ps, Impostor)
  {
    if ps == [] then []
    else
      var rest := Impostors(ps[..|ps| - 1]);
      var last := ps[|ps| - 1];
      assert ps == ps[..|ps| - 1] + [last];
      if last.role == Some(Impostor) then rest + [last] else rest
  }

  /** `ps.filter(p => p.name === name)`: it keeps every player exactly when
      every player has that name. */
  function NamedIn(ps: seq<Player>, name: string): (r: seq<Player>)
    ensures |r| <= |ps|
    ensures |r| == |ps| <==> forall i :: 0 <= i < |ps| ==> ps[i].name == name
  {
    if ps == [] then []
    else if ps[0].name == name then [ps[0]] + NamedIn(ps[1..], name)
    else NamedIn(ps[1..], name)
  }

  /** `votedOut && votedOut.role === 'impostor'` for the first player with the
      voted-out name. */
  predicate WasImpostor(players: seq<Player>, votedOut: Option<string>) {
    && votedOut.Some?
    && match FindByName(players, votedOut.value)
       case None => false
       case Some(i) => players[i].role == Some(Impostor)
  }

  /** Every impostor bears the name `v`. */
  predicate AllImpostorsNamed(players: seq<Player>, v: string) {
    forall i :: 0 <= i < |players| && players[i].role == Some(Impostor) ==> players[i].name == v
  }

  /** The result of the round: a crew member (or no one) voted out lets the
      impostors win; the last impostors voted out let the crew win; otherwise
      the remaining impostors' guess `impostorWon` decides. */
  function ResultOf(players: seq<Player>, votedOut: Option<string>, impostorWon: bool): (r: Outcome)
    ensures r == InnocentVotedOut <==> !WasImpostor(players, votedOut)
    ensures r == AllImpostorsFound <==> WasImpostor(players, votedOut) && AllImpostorsNamed(players, votedOut.value)
    ensures r == ImpostorsGuessedWord <==>
              WasImpostor(players, votedOut) && !AllImpostorsNamed(players, votedOut.value) && impostorWon
  {
    if !WasImpostor(players, votedOut) then InnocentVotedOut
    else
      var all := Impostors(players);
      var named := NamedIn(all, votedOut.value);
      NamedImpostors(players, votedOut.value);
      if |named| == |all| then AllImpostorsFound
      else if impostorWon then ImpostorsGuessedWord
      else ImpostorsMissedWord
  }

  /** The crew's title, and with it the secret word, is shown exactly when an
      impostor was voted out and either every impostor has that name or the
      remaining impostors miss the word; otherwise the impostors' title is
      shown. */
  lemma ResultTitle(players: seq<Player>, votedOut: Option<string>, impostorWon: bool)
    ensures var r := ResultOf(players, votedOut, impostorWon);
            r.Title() == "Crew gewinnt!" <==>
              WasImpostor(players, votedOut) && (AllImpostorsNamed(players, votedOut.value) || !impostorWon)
    ensures var r := ResultOf(players, votedOut, impostorWon);
            r.Title() != "Crew gewinnt!" ==> r.Title() == "Impostors gewinnen!" && !r.RevealsWord()
  {
  }

  lemma NamedImpostors(players: seq<Player>, v: string)
    ensures AllImpostorsNamed(players, v) ==> forall j :: 0 <= j < |Impostors(players)| ==> Impostors(players)[j].name == v
    ensures (forall j :: 0 <= j < |Impostors(players)| ==> Impostors(players)[j].name == v) ==> AllImpostorsNamed(players, v)
  {
    var all := Impostors(players);
    if forall j :: 0 <= j < |all| ==> all[j].name == v {
      forall i | 0 <= i < |players| && players[i].role == Some(Impostor)
        ensures players[i].name == v
      {
        assert players[i] in all;
        var j :| 0 <= j < |all| && all[j] == players[i];
      }
    }
    if AllImpostorsNamed(players, v) {
      forall j | 0 <= j < |all| ensures all[j].name == v {
        assert all[j] in all;
        var i :| 0 <= i < |players| && players[i] == all[j];
      }
    }
  }

  /** With distinct names, voting out an impostor wins for the crew exactly
      when that impostor was the only one; with more impostors the guess
      decides. */
  lemma ImpostorVotedOutOutcome(players: seq<Player>, v: string, impostorWon: bool)
    requires DistinctNames(players) && WasImpostor(players, Some(v))
    ensures ResultOf(players, Some(v), impostorWon) == AllImpostorsFound <==> CountRole(players, Impostor) == 1
    ensures CountRole(players, Impostor) >= 2 ==>
              ResultOf(players, Some(v), impostorWon) == if impostorWon then ImpostorsGuessedWord else ImpostorsMissedWord
  {
    var i := FindByName(players, v).value;
    if AllImpostorsNamed(players, v) {
      NamedImpostorIsSole(players, i);
    }
    if CountRole(players, Impostor) == 1 {
      SoleImpostorIsNamed(players, i);
    }
  }

  /** With distinct names, an impostor whose name every impostor bears is the
      only impostor. */
  lemma NamedImpostorIsSole(players: seq<Player>, i: nat)
    requires DistinctNames(players) && i < |players| && players[i].role == Some(Impostor)
    requires AllImpostorsNamed(players, players[i].name)
    ensures CountRole(players, Impostor) == 1
  {
    assert forall j :: 0 <= j < |players| && j != i ==> players[j].role != Some(Impostor) by {
      forall j | 0 <= j < |players| && j != i ensures players[j].role != Some(Impostor) {
        if j < i {
          assert players[j].name != players[i].name;
        } else {
          assert players[i].name != players[j].name;
        }
      }
    }
    OthersAreCrew(players, i);
  }

  /** When no player but the one at `i` is an impostor, there is one impostor. */
  lemma OthersAreCrew(players: seq<Player>, i: nat)
    requires i < |players| && players[i].role == Some(Impostor)
    requires forall j :: 0 <= j < |players| && j != i ==> players[j].role != Some(Impostor)
    ensures CountRole(players, Impostor) == 1
  {
    var rest := players[..i] + players[i + 1..];
    assert forall k :: 0 <= k < |rest| ==> rest[k].role != Some(Impostor) by {
      forall k | 0 <= k < |rest| ensures rest[k].role != Some(Impostor) {
        if k < i {
          assert rest[k] == players[k];
        } else {
          assert rest[k] == players[k + 1];
        }
      }
    }
    CountRoleSplit(players, i, Impostor);
    CountRolePositive(rest, Impostor);
  }

  /** The only impostor is the one at `i`, so every impostor bears its name. */
  lemma SoleImpostorIsNamed(players: seq<Player>, i: nat)
    requires i < |players| && players[i].role == Some(Impostor)
    requires CountRole(players, Impostor) == 1
    ensures AllImpostorsNamed(players, players[i].name)
  {
    var rest := players[..i] + players[i + 1..];
    CountRoleSplit(players, i, Impostor);
    CountRolePositive(rest, Impostor);
    forall j | 0 <= j < |players| && j != i ensures players[j].role != Some(Impostor) {
      if j < i {
        assert rest[j] == players[j];
      } else {
        assert rest[j - 1] == players[j];
      }
    }
  }
}
