/** The vote of one round: JavaScript objects used as dictionaries, the
    simulated votes of the other players, the tally, the most-voted player
    and the round's outcome. */
module Votes {
  import opened Wrappers
  import opened Roster

  /** A plain JavaScript object used as a dictionary from names: its entries
      in insertion order (names are not array-index strings, so this is the
      order `Object.entries` and `Object.values` report). */
  type Record<V> = seq<(string, V)>

  /** Object keys are unique. */
  predicate DistinctKeys<V>(m: Record<V>) {
    forall i, j :: 0 <= i < j < |m| ==> m[i].0 != m[j].0
  }

  /** `Object.values(m)`. */
  function Values<V>(m: Record<V>): seq<V> {
    seq(|m|, i requires 0 <= i < |m| => m[i].1)
  }

  /** The position of key `k` in `m` (its first entry), or -1 when absent. */
  function Find<V>(m: Record<V>, k: string): (r: int)
    ensures -1 <= r < |m|
    ensures r >= 0 ==> m[r].0 == k && forall i :: 0 <= i < r ==> m[i].0 != k
    ensures r == -1 ==> forall i :: 0 <= i < |m| ==> m[i].0 != k
  {
    if m == [] then -1
    else if m[0].0 == k then 0
    else
      var r := Find(m[1..], k);
      if r < 0 then -1 else r + 1
  }

  /** `m[k]`, with `None` for `undefined`. */
  function Get<V>(m: Record<V>, k: string): Option<V> {
    var i := Find(m, k);
    if i < 0 then None else Some(m[i].1)
  }

  /** `m[k] = v`. */
  function Put<V>(m: Record<V>, k: string, v: V): Record<V> {
    var i := Find(m, k);
    if i < 0 then m + [(k, v)] else m[i := (k, v)]
  }

  /** After `m[k] = v`, `k` holds `v` and every other key looks up as before,
      at the same position. */
  lemma PutGet<V>(m: Record<V>, k: string, v: V, k': string)
    ensures Get(Put(m, k, v), k') == if k' == k then Some(v) else Get(m, k')
    ensures k' != k ==> Find(Put(m, k, v), k') == Find(m, k')
  {
    var r := Put(m, k, v);
    var f := Find(m, k);
    if k' == k {
      var h := Find(r, k);
      if f >= 0 {
        assert r[f].0 == k && forall i :: 0 <= i < f ==> r[i] == m[i];
        assert h == f;
      } else {
        assert r[|m|].0 == k && forall i :: 0 <= i < |m| ==> r[i] == m[i];
        assert h == |m|;
      }
    } else {
      FindSameKeys(m, r, k');
      var g := Find(m, k');
      if g >= 0 {
        assert r[g] == m[g];
      }
    }
  }

  /** A record that extends the keys of `m` with keys other than `k'` finds
      `k'` where `m` does. */
  lemma FindSameKeys<V>(m: Record<V>, r: Record<V>, k': string)
    requires |m| <= |r| && forall i :: 0 <= i < |m| ==> r[i].0 == m[i].0
    requires forall i :: |m| <= i < |r| ==> r[i].0 != k'
    ensures Find(r, k') == Find(m, k')
  {
    var g := Find(m, k');
    var h := Find(r, k');
    if g >= 0 {
      assert r[g].0 == k';
      assert h <= g;
      assert m[h].0 == k';
    } else {
      assert forall i :: 0 <= i < |r| ==> r[i].0 != k';
    }
  }

  /** `m[k] = v` keeps every existing key in its place, adds a new key at the
      end, and keeps the keys unique. */
  lemma PutKeys<V>(m: Record<V>, k: string, v: V)
    ensures |Put(m, k, v)| == if Find(m, k) < 0 then |m| + 1 else |m|
    ensures forall i :: 0 <= i < |m| ==> Put(m, k, v)[i].0 == m[i].0
    ensures DistinctKeys(m) ==> DistinctKeys(Put(m, k, v))
  {
  }

  /** The spread `{ ...a, ...b }`: the keys of `a` first, in their order, then
      the new keys of `b`. */
  function Merge<V>(a: Record<V>, b: Record<V>): (r: Record<V>)
    ensures |a| <= |r| && forall i :: 0 <= i < |a| ==> r[i].0 == a[i].0
    ensures DistinctKeys(a) ==> DistinctKeys(r)
    decreases |b|
  {
    if b == [] then a
    else
      PutKeys(a, b[0].0, b[0].1);
      Merge(Put(a, b[0].0, b[0].1), b[1..])
  }

  /** On a key both have, the value of `b` wins; every other key keeps the
      value of whichever record has it. */
  lemma {:induction false} MergeGet<V>(a: Record<V>, b: Record<V>, k: string)
    requires DistinctKeys(b)
    ensures Get(Merge(a, b), k) == if Get(b, k).Some? then Get(b, k) else Get(a, k)
    decreases |b|
  {
    if b != [] {
      var a' := Put(a, b[0].0, b[0].1);
      MergeGet(a', b[1..], k);
      PutGet(a, b[0].0, b[0].1, k);
      if b[0].0 == k {
        assert Find(b[1..], k) == -1;
      } else {
        assert Get(b, k) == Get(b[1..], k);
      }
    }
  }

  /** How many of the votes `s` name `x`. */
  function Occurrences(s: seq<string>, x: string): nat {
    if s == [] then 0
    else Occurrences(s[..|s| - 1], x) + (if s[|s| - 1] == x then 1 else 0)
  }

  lemma {:induction false} OccurrencesPositive(s: seq<string>, x: string)
    requires x in s
    ensures Occurrences(s, x) > 0
  {
    if s[|s| - 1] != x {
      assert x in s[..|s| - 1] by {
        var i :| 0 <= i < |s| && s[i] == x;
        assert s[..|s| - 1][i] == x;
      }
      OccurrencesPositive(s[..|s| - 1], x);
    }
  }

  /** `s.indexOf(x)`: when the first vote for `x` was cast. */
  function IndexOf(s: seq<string>, x: string): (r: nat)
    requires x in s
    ensures r < |s| && s[r] == x && forall i :: 0 <= i < r ==> s[i] != x
  {
    if s[0] == x then 0 else IndexOf(s[1..], x) + 1
  }

  /** The distinct names of `s` in the order of their first occurrence. */
  function Dedup(s: seq<string>): (r: seq<string>)
    ensures forall x :: x in r <==> x in s
    ensures forall i, j :: 0 <= i < j < |r| ==> r[i] != r[j]
  {
    if s == [] then []
    else
      var p := s[..|s| - 1];
      var x := s[|s| - 1];
      assert s == p + [x];
      if x in p then Dedup(p) else Dedup(p) + [x]
  }

  /** The first vote for an earlier key of `Dedup(s)` comes earlier in `s`. */
  lemma {:induction false} DedupOrder(s: seq<string>, i: nat, j: nat)
    requires i < j < |Dedup(s)|
    ensures IndexOf(s, Dedup(s)[i]) < IndexOf(s, Dedup(s)[j])
  {
    var p := s[..|s| - 1];
    var x := s[|s| - 1];
    assert s == p + [x];
    var d := Dedup(s);
    if x in p {
      DedupOrder(p, i, j);
      IndexOfPrefix(p, x, d[i]);
      IndexOfPrefix(p, x, d[j]);
    } else if j < |Dedup(p)| {
      DedupOrder(p, i, j);
      IndexOfPrefix(p, x, d[i]);
      IndexOfPrefix(p, x, d[j]);
    } else {
      IndexOfPrefix(p, x, d[i]);
    }
  }

  lemma IndexOfPrefix(p: seq<string>, x: string, y: string)
    requires y in p
    ensures IndexOf(p + [x], y) == IndexOf(p, y)
  {
    var a := IndexOf(p + [x], y);
    var b := IndexOf(p, y);
    assert (p + [x])[b] == y;
  }

  /** The sum of the counts of a tally. */
  function Total(m: Record<nat>): nat {
    if m == [] then 0 else Total(m[..|m| - 1]) + m[|m| - 1].1
  }

  lemma {:induction false} TotalUpdate(m: Record<nat>, p: nat, e: (string, nat))
    requires p < |m|
    ensures Total(m[p := e]) == Total(m) - m[p].1 + e.1
  {
    if p < |m| - 1 {
      assert m[p := e][..|m| - 1] == m[..|m| - 1][p := e];
      TotalUpdate(m[..|m| - 1], p, e);
    } else {
      assert m[p := e][..|m| - 1] == m[..|m| - 1];
    }
  }

  /** The names of the entries of `m`, in order. */
  function Keys<V>(m: Record<V>): seq<string> {
    seq(|m|, i requires 0 <= i < |m| => m[i].0)
  }

  /** `tally` is the vote count of the votes `s`: one entry per voted-for
      name, in the order of each name's first vote, holding the number of
      votes for it. */
  ghost predicate Tallies(tally: Record<nat>, s: seq<string>) {
    && DistinctKeys(tally)
    && Keys(tally) == Dedup(s)
    && (forall i :: 0 <= i < |tally| ==> tally[i].1 == Occurrences(s, tally[i].0))
    && Total(tally) == |s|
  }

  lemma AppendVote(s: seq<string>, t: string)
    ensures forall x :: Occurrences(s + [t], x) == Occurrences(s, x) + if t == x then 1 else 0
    ensures Dedup(s + [t]) == if t in s then Dedup(s) else Dedup(s) + [t]
  {
    assert (s + [t])[..|s|] == s;
  }

  /** Counting one more vote `t` keeps the tally exact. */
  lemma TallyStep(tally: Record<nat>, s: seq<string>, t: string)
    requires Tallies(tally, s)
    ensures Tallies(Put(tally, t, Get(tally, t).GetOr(0) + 1), s + [t])
  {
    if Find(tally, t) >= 0 {
      assert Keys(tally)[Find(tally, t)] == t;
      TallyStepFound(tally, s, t);
    } else {
      assert t !in Keys(tally);
      TallyStepNew(tally, s, t);
    }
  }

  lemma TallyStepFound(tally: Record<nat>, s: seq<string>, t: string)
    requires Tallies(tally, s) && Find(tally, t) >= 0 && t in s
    ensures Tallies(Put(tally, t, Get(tally, t).GetOr(0) + 1), s + [t])
  {
    var f := Find(tally, t);
    var r := tally[f := (t, tally[f].1 + 1)];
    assert Put(tally, t, Get(tally, t).GetOr(0) + 1) == r;
    assert DistinctKeys(r);
    assert Keys(r) == Dedup(s + [t]) by {
      AppendVote(s, t);
      assert Keys(r) == Keys(tally);
    }
    assert forall i :: 0 <= i < |r| ==> r[i].1 == Occurrences(s + [t], r[i].0) by {
      AppendVote(s, t);
      FoundCounts(tally, s, t, f);
    }
    assert Total(r) == |s + [t]| by {
      TotalUpdate(tally, f, (t, tally[f].1 + 1));
    }
  }

  lemma FoundCounts(tally: Record<nat>, s: seq<string>, t: string, f: nat)
    requires DistinctKeys(tally) && f < |tally| && tally[f].0 == t
    requires forall i :: 0 <= i < |tally| ==> tally[i].1 == Occurrences(s, tally[i].0)
    requires forall x :: Occurrences(s + [t], x) == Occurrences(s, x) + if t == x then 1 else 0
    ensures var r := tally[f := (t, tally[f].1 + 1)];
            forall i :: 0 <= i < |r| ==> r[i].1 == Occurrences(s + [t], r[i].0)
  {
  }

  lemma TallyStepNew(tally: Record<nat>, s: seq<string>, t: string)
    requires Tallies(tally, s) && Find(tally, t) < 0 && t !in s
    ensures Tallies(Put(tally, t, Get(tally, t).GetOr(0) + 1), s + [t])
  {
    var r := tally + [(t, 1)];
    assert Put(tally, t, Get(tally, t).GetOr(0) + 1) == r;
    assert DistinctKeys(r);
    assert Keys(r) == Dedup(s + [t]) by {
      AppendVote(s, t);
      AppendKeys(tally, (t, 1));
    }
    assert forall i :: 0 <= i < |r| ==> r[i].1 == Occurrences(s + [t], r[i].0) by {
      AppendVote(s, t);
      OccurrencesZero(s, t);
      NewCounts(tally, s, t);
    }
    assert Total(r) == |s + [t]| by {
      TotalAppend(tally, (t, 1));
    }
  }

  lemma TotalAppend(m: Record<nat>, e: (string, nat))
    ensures Total(m + [e]) == Total(m) + e.1
  {
    assert (m + [e])[..|m|] == m;
  }

  lemma AppendKeys<V>(m: Record<V>, e: (string, V))
    ensures Keys(m + [e]) == Keys(m) + [e.0]
  {
  }

  lemma NewCounts(tally: Record<nat>, s: seq<string>, t: string)
    requires forall i :: 0 <= i < |tally| ==> tally[i].1 == Occurrences(s, tally[i].0)
    requires forall i :: 0 <= i < |tally| ==> tally[i].0 != t
    requires Occurrences(s, t) == 0
    requires forall x :: Occurrences(s + [t], x) == Occurrences(s, x) + if t == x then 1 else 0
    ensures var r := tally + [(t, 1)];
            forall i :: 0 <= i < |r| ==> r[i].1 == Occurrences(s + [t], r[i].0)
  {
  }

  lemma {:induction false} OccurrencesZero(s: seq<string>, x: string)
    requires x !in s
    ensures Occurrences(s, x) == 0
  {
    if s != [] {
      OccurrencesZero(s[..|s| - 1], x);
    }
  }

  /** The counting loop `voteCount[target] = (voteCount[target] || 0) + 1` over
      the votes `targets`; the counts add up to the number of votes. */
  method CountVotes(targets: seq<string>) returns (tally: Record<nat>)
    ensures Tallies(tally, targets)
  {
    tally := [];
    for n := 0 to |targets|
      invariant Tallies(tally, targets[..n])
    {
      var t := targets[n];
      assert targets[..n + 1] == targets[..n] + [t];
      TallyStep(tally, targets[..n], t);
      var count := Get(tally, t).GetOr(0) + 1;
      tally := Put(tally, t, count);
    }
    assert targets[..|targets|] == targets;
  }

  /** The scan of `Object.entries(voteCount)` for the name with the most votes,
      replacing the candidate only on a strictly larger count: `maxVotes` is
      the largest count, and `votedOut` the first entry that has it, or `None`
      when every count is 0 (in particular when there are no entries). */
  method MostVoted(tally: Record<nat>) returns (votedOut: Option<string>, maxVotes: nat)
    ensures forall k :: 0 <= k < |tally| ==> tally[k].1 <= maxVotes
    ensures votedOut.None? <==> maxVotes == 0
    ensures votedOut.None? <==> forall k :: 0 <= k < |tally| ==> tally[k].1 == 0
    ensures votedOut.Some? ==> exists w :: 0 <= w < |tally| && tally[w] == (votedOut.value, maxVotes)
                                          && forall k :: 0 <= k < w ==> tally[k].1 < maxVotes
  {
    maxVotes := 0;
    votedOut := None;
    ghost var w := 0;
    for i := 0 to |tally|
      invariant forall k :: 0 <= k < i ==> tally[k].1 <= maxVotes
      invariant votedOut.None? <==> maxVotes == 0
      invariant votedOut.Some? ==> w < i && tally[w] == (votedOut.value, maxVotes)
                                   && forall k :: 0 <= k < w ==> tally[k].1 < maxVotes
    {
      var (player, votes) := tally[i];
      if votes > maxVotes {
        maxVotes := votes;
        votedOut := Some(player);
        w := i;
      }
    }
  }

  /** `w` is who the vote `s` removes: a name with the most votes and, among
      the names tied with it, the one whose first vote came first. */
  ghost predicate IsMostVoted(s: seq<string>, w: string) {
    && w in s
    && forall t :: t in s ==> Occurrences(s, t) <= Occurrences(s, w)
                              && (Occurrences(s, t) == Occurrences(s, w) ==> IndexOf(s, w) <= IndexOf(s, t))
  }

  /** At most one name is the most voted. */
  lemma MostVotedUnique(s: seq<string>, a: string, b: string)
    requires IsMostVoted(s, a) && IsMostVoted(s, b)
    ensures a == b
  {
    assert IndexOf(s, a) == IndexOf(s, b);
  }

  /** The scan's pick, over an exact tally, is the most voted name. */
  lemma ScanPicksMostVoted(tally: Record<nat>, s: seq<string>, w: nat, maxVotes: nat)
    requires Tallies(tally, s)
    requires w < |tally| && tally[w].1 == maxVotes
    requires forall k :: 0 <= k < |tally| ==> tally[k].1 <= maxVotes
    requires forall k :: 0 <= k < w ==> tally[k].1 < maxVotes
    ensures IsMostVoted(s, tally[w].0)
  {
    var v := tally[w].0;
    assert v == Keys(tally)[w];
    forall t | t in s
      ensures Occurrences(s, t) <= Occurrences(s, v)
      ensures Occurrences(s, t) == Occurrences(s, v) ==> IndexOf(s, v) <= IndexOf(s, t)
    {
      assert t in Dedup(s);
      var k :| 0 <= k < |tally| && Dedup(s)[k] == t;
      assert tally[k].0 == Keys(tally)[k];
      if w < k {
        DedupOrder(s, w, k);
      }
    }
  }

  /** A tally of at least one vote has a first entry with a positive count. */
  lemma NonEmptyTally(tally: Record<nat>, s: seq<string>)
    requires Tallies(tally, s) && s != []
    ensures |tally| > 0 && tally[0].1 > 0
  {
    assert s[0] in Dedup(s);
    assert tally[0].0 == Keys(tally)[0];
    OccurrencesPositive(s, tally[0].0);
  }

  /** The count and the scan of the vote handler together: with no votes no
      one is voted out; otherwise the one voted out is the most voted name of
      `Object.values(allVotes)`. */
  method ResolveVote(allVotes: Record<string>) returns (votedOut: Option<string>)
    ensures votedOut.None? <==> allVotes == []
    ensures votedOut.Some? ==> IsMostVoted(Values(allVotes), votedOut.value)
  {
    var targets := Values(allVotes);
    var tally := CountVotes(targets);
    var maxVotes;
    votedOut, maxVotes := MostVoted(tally);
    if targets != [] {
      NonEmptyTally(tally, targets);
    } else {
      assert Keys(tally) == [];
    }
    if votedOut.Some? {
      var w :| 0 <= w < |tally| && tally[w] == (votedOut.value, maxVotes) && forall k :: 0 <= k < w ==> tally[k].1 < maxVotes;
      ScanPicksMostVoted(tally, targets, w, maxVotes);
    }
  }

  /** `players.filter(p => p.name !== name)`: whom a player named `name` may vote for. */
  function OthersThan(players: seq<Player>, name: string): (r: seq<Player>)
    ensures forall p :: p in r <==> p in players && p.name != name
  {
    if players == [] then []
    else if players[0].name != name then [players[0]] + OthersThan(players[1..], name)
    else OthersThan(players[1..], name)
  }

  /** The draws of the simulated voters: draw `picks[i]` chooses among the
      players the `i`-th player may vote for. */
  predicate ValidVotePicks(players: seq<Player>, playerName: string, picks: seq<nat>) {
    && |picks| == |players|
    && forall i :: 0 <= i < |players| && players[i].name != playerName ==> picks[i] < |OthersThan(players, players[i].name)|
  }

  /** What every simulated vote satisfies: no one votes as the local player
      or for their own name, and voters and their choices are players. */
  predicate FairVotes(players: seq<Player>, playerName: string, sim: Record<string>) {
    && DistinctKeys(sim)
    && forall k :: 0 <= k < |sim| ==>
         && sim[k].0 != playerName && sim[k].0 != sim[k].1
         && HasName(players, sim[k].0) && HasName(players, sim[k].1)
  }

  /** One target per roster position: every player other than the local one
      is given a player of another name. */
  predicate FairTargets(players: seq<Player>, playerName: string, targets: seq<string>) {
    && |targets| == |players|
    && forall i :: 0 <= i < |players| && players[i].name != playerName ==>
         targets[i] != players[i].name && HasName(players, targets[i])
  }

  /** The name each simulated voter's draw picks:
      `OthersThan(players, players[i].name)[picks[i]].name` for every player
      other than the local one (the local player's entry is unused). These
      targets are fair. */
  function DrawnTargets(players: seq<Player>, playerName: string, picks: seq<nat>): (r: seq<string>)
    requires ValidVotePicks(players, playerName, picks)
    ensures FairTargets(players, playerName, r)
  {
    var r := seq(|players|, i requires 0 <= i < |players| =>
      if players[i].name != playerName then OthersThan(players, players[i].name)[picks[i]].name else "");
    assert forall i :: 0 <= i < |players| && players[i].name != playerName ==>
             r[i] != players[i].name && HasName(players, r[i]) by {
      forall i | 0 <= i < |players| && players[i].name != playerName
        ensures r[i] != players[i].name && HasName(players, r[i])
      {
        var target := OthersThan(players, players[i].name)[picks[i]];
        assert target in players;
      }
    }
    r
  }

  /** One vote of a player for a player of another name keeps the votes fair. */
  lemma FairVoteStep(players: seq<Player>, playerName: string, sim: Record<string>, voter: string, target: string)
    requires FairVotes(players, playerName, sim)
    requires voter != playerName && target != voter && HasName(players, voter) && HasName(players, target)
    ensures FairVotes(players, playerName, Put(sim, voter, target))
  {
    var r := Put(sim, voter, target);
    PutKeys(sim, voter, target);
    forall k | 0 <= k < |r|
      ensures r[k].0 != playerName && r[k].0 != r[k].1
      ensures HasName(players, r[k].0) && HasName(players, r[k].1)
    {
      if k < |sim| && sim[k].0 != voter {
        assert r[k] == sim[k];
      } else {
        assert r[k] == (voter, target);
      }
    }
  }

  /** The `forEach` over the first `n` players of the roster: every player
      other than the local one records, under their own name, their target
      (`simulatedVotes[player.name] = randomTarget.name`). */
  function SimulatedVotes(players: seq<Player>, playerName: string, targets: seq<string>, n: nat): Record<string>
    requires n <= |players| == |targets|
  {
    if n == 0 then []
    else
      var prev := SimulatedVotes(players, playerName, targets, n - 1);
      if players[n - 1].name != playerName then Put(prev, players[n - 1].name, targets[n - 1]) else prev
  }

  /** The simulated votes are fair. */
  lemma {:induction false} SimulatedVotesFair(players: seq<Player>, playerName: string, targets: seq<string>, n: nat)
    requires n <= |players| && FairTargets(players, playerName, targets)
    ensures FairVotes(players, playerName, SimulatedVotes(players, playerName, targets, n))
  {
    if n > 0 {
      var prev := SimulatedVotes(players, playerName, targets, n - 1);
      var voter := players[n - 1].name;
      assert FairVotes(players, playerName, prev) by {
        SimulatedVotesFair(players, playerName, targets, n - 1);
      }
      if voter != playerName {
        assert SimulatedVotes(players, playerName, targets, n) == Put(prev, voter, targets[n - 1]);
        assert targets[n - 1] != voter && HasName(players, targets[n - 1]);
        assert HasName(players, voter);
        FairVoteStep(players, playerName, prev, voter, targets[n - 1]);
      }
    }
  }

  /** Every player before `n` other than the local one has a simulated vote. */
  lemma {:induction false} SimulatedVotesComplete(players: seq<Player>, playerName: string, targets: seq<string>, n: nat)
    requires n <= |players| == |targets|
    ensures forall m :: 0 <= m < n && players[m].name != playerName ==>
              Find(SimulatedVotes(players, playerName, targets, n), players[m].name) >= 0
  {
    if n > 0 {
      var prev := SimulatedVotes(players, playerName, targets, n - 1);
      var voter := players[n - 1].name;
      SimulatedVotesComplete(players, playerName, targets, n - 1);
      if voter != playerName {
        var cur := Put(prev, voter, targets[n - 1]);
        assert SimulatedVotes(players, playerName, targets, n) == cur;
        forall m | 0 <= m < n && players[m].name != playerName ensures Find(cur, players[m].name) >= 0 {
          PutGet(prev, voter, targets[n - 1], players[m].name);
        }
      }
    }
  }

  /** With distinct names, each simulated voter's entry holds their own target. */
  lemma {:induction false} SimulatedVotesGet(players: seq<Player>, playerName: string, targets: seq<string>, n: nat)
    requires n <= |players| == |targets| && DistinctNames(players)
    ensures forall i :: 0 <= i < n && players[i].name != playerName ==>
              Get(SimulatedVotes(players, playerName, targets, n), players[i].name) == Some(targets[i])
  {
    if n > 0 {
      SimulatedVotesGet(players, playerName, targets, n - 1);
      var prev := SimulatedVotes(players, playerName, targets, n - 1);
      var voter := players[n - 1].name;
      if voter != playerName {
        forall i | 0 <= i < n && players[i].name != playerName
          ensures Get(Put(prev, voter, targets[n - 1]), players[i].name) == Some(targets[i])
        {
          PutGet(prev, voter, targets[n - 1], players[i].name);
          if i < n - 1 {
            assert players[i].name != voter;
          }
        }
      }
    }
  }

  /** With distinct names, the simulated votes are keyed by the names of the
      players other than the local one, in roster order: the order in which
      `Object.values` hands them to the tally. */
  lemma {:induction false} SimulatedVotesKeys(players: seq<Player>, playerName: string, targets: seq<string>, n: nat)
    requires n <= |players| == |targets| && DistinctNames(players)
    ensures Keys(SimulatedVotes(players, playerName, targets, n)) == Names(OthersThan(players[..n], playerName))
  {
    if n > 0 {
      SimulatedVotesKeys(players, playerName, targets, n - 1);
      KeptNamesStep(players, playerName, n);
      if players[n - 1].name != playerName {
        NewVoterKey(players, playerName, targets, n);
      } else {
        assert SimulatedVotes(players, playerName, targets, n) == SimulatedVotes(players, playerName, targets, n - 1);
      }
    }
  }

  /** The names kept from the first `n` players: those kept from the first
      `n - 1`, then player `n - 1`'s name unless it is the local player. */
  lemma KeptNamesStep(players: seq<Player>, playerName: string, n: nat)
    requires 0 < n <= |players|
    ensures Names(OthersThan(players[..n], playerName))
            == Names(OthersThan(players[..n - 1], playerName))
               + (if players[n - 1].name != playerName then [players[n - 1].name] else [])
  {
    var voter := players[n - 1];
    var kept := OthersThan(players[..n - 1], playerName);
    assert players[..n] == players[..n - 1] + [voter];
    OthersThanAppend(players[..n - 1], voter, playerName);
    if voter.name != playerName {
      assert Names(kept + [voter]) == Names(kept) + [voter.name];
    }
  }

  /** A voter other than the local player, not named like any earlier one,
      adds their name as the last key. */
  lemma NewVoterKey(players: seq<Player>, playerName: string, targets: seq<string>, n: nat)
    requires 0 < n <= |players| == |targets| && DistinctNames(players) && players[n - 1].name != playerName
    requires Keys(SimulatedVotes(players, playerName, targets, n - 1)) == Names(OthersThan(players[..n - 1], playerName))
    ensures Keys(SimulatedVotes(players, playerName, targets, n))
            == Names(OthersThan(players[..n - 1], playerName)) + [players[n - 1].name]
  {
    var prev := SimulatedVotes(players, playerName, targets, n - 1);
    var voter := players[n - 1].name;
    var kept := OthersThan(players[..n - 1], playerName);
    assert Find(prev, voter) == -1 by {
      forall k | 0 <= k < |prev| ensures prev[k].0 != voter {
        assert prev[k].0 == Keys(prev)[k] == Names(kept)[k];
        KeptEarlier(players, playerName, n - 1, k);
      }
    }
    assert SimulatedVotes(players, playerName, targets, n) == prev + [(voter, targets[n - 1])];
    AppendKeys(prev, (voter, targets[n - 1]));
  }

  /** With distinct names, a player kept from the first `n` players is not
      named like player `n`. */
  lemma KeptEarlier(players: seq<Player>, playerName: string, n: nat, k: nat)
    requires n < |players| && DistinctNames(players) && k < |OthersThan(players[..n], playerName)|
    ensures OthersThan(players[..n], playerName)[k].name != players[n].name
  {
    var q := OthersThan(players[..n], playerName)[k];
    assert q in players[..n];
    var j :| 0 <= j < n && players[..n][j] == q;
    assert players[j].name != players[n].name;
  }

  /** `filter` keeps roster order: extending the roster by one player
      extends the players it keeps by that player exactly when it is kept. */
  lemma {:induction false} OthersThanAppend(players: seq<Player>, p: Player, name: string)
    ensures OthersThan(players + [p], name) == OthersThan(players, name) + (if p.name != name then [p] else [])
  {
    if players != [] {
      assert (players + [p])[0] == players[0];
      assert (players + [p])[1..] == players[1..] + [p];
      OthersThanAppend(players[1..], p, name);
    }
  }

  /** The names of a list of players, in order. */
  function Names(ps: seq<Player>): (r: seq<string>)
    ensures |r| == |ps|
  {
    seq(|ps|, i requires 0 <= i < |ps| => ps[i].name)
  }

  /** The simulated votes of everyone but the local player: the `forEach`
      loop computes `SimulatedVotes` over the whole roster with the drawn
      targets, so every other player has a vote, nobody votes for their own
      name, and everyone voted for is a player. */
  method SimulateVotes(players: seq<Player>, playerName: string, picks: seq<nat>) returns (sim: Record<string>)
    requires ValidVotePicks(players, playerName, picks)
    ensures sim == SimulatedVotes(players, playerName, DrawnTargets(players, playerName, picks), |players|)
    ensures FairVotes(players, playerName, sim)
    ensures forall i :: 0 <= i < |players| && players[i].name != playerName ==> Find(sim, players[i].name) >= 0
  {
    ghost var drawn := DrawnTargets(players, playerName, picks);
    sim := [];
    for i := 0 to |players|
      invariant sim == SimulatedVotes(players, playerName, drawn, i)
    {
      var player := players[i];
      if player.name != playerName {
        var targets := OthersThan(players, player.name);
        var randomTarget := targets[picks[i]];
        sim := Put(sim, player.name, randomTarget.name);
      }
    }
    SimulatedVotesFair(players, playerName, drawn, |players|);
    SimulatedVotesComplete(players, playerName, drawn, |players|);
  }
}
