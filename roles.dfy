/** Role assignment: a Fisher–Yates shuffle of a copy of the roster, roles
    handed out by position in the shuffled copy, and the roles written back
    into the roster by player id. The random choices of the shuffle are an
    input: `js[i]` is the `j` the source draws when its loop variable is `i`. */
module Roles {
  import opened Wrappers
  import opened Roster

  /** The swap `[s[i], s[j]] = [s[j], s[i]]`. */
  function Swap<T>(s: seq<T>, i: nat, j: nat): (r: seq<T>)
    requires i < |s| && j < |s|
    ensures |r| == |s|
  {
    s[i := s[j]][j := s[i]]
  }

  /** A swap only rearranges: the elements and their multiplicities stay. */
  lemma SwapPermutes<T>(s: seq<T>, i: nat, j: nat)
    requires i < |s| && j < |s|
    ensures multiset(Swap(s, i, j)) == multiset(s)
  {
  }

  /** The draws of `Math.floor(Math.random() * (i + 1))`, one per position. */
  predicate ValidPicks(js: seq<nat>, n: nat) {
    |js| == n && forall i :: 0 <= i < n ==> js[i] <= i
  }

  /** The iterations `i, i - 1, ..., 1` of the shuffle loop. */
  function ShuffleDown<T>(s: seq<T>, js: seq<nat>, i: nat): (r: seq<T>)
    requires ValidPicks(js, |s|) && i < |s|
    ensures |r| == |s|
    decreases i
  {
    if i == 0 then s else ShuffleDown(Swap(s, i, js[i]), js, i - 1)
  }

  /** Each run of the shuffle loop only rearranges its input. */
  lemma {:induction false} ShuffleDownPermutes<T>(s: seq<T>, js: seq<nat>, i: nat)
    requires ValidPicks(js, |s|) && i < |s|
    ensures multiset(ShuffleDown(s, js, i)) == multiset(s)
    decreases i
  {
    if i > 0 {
      assert multiset(Swap(s, i, js[i])) == multiset(s);
      ShuffleDownPermutes(Swap(s, i, js[i]), js, i - 1);
    }
  }

  /** The whole shuffle loop `for (i = n - 1; i > 0; i--)`: a permutation. */
  function Shuffle<T>(s: seq<T>, js: seq<nat>): (r: seq<T>)
    requires ValidPicks(js, |s|)
    ensures |r| == |s| && multiset(r) == multiset(s)
  {
    if s == [] then s else ShuffleDownPermutes(s, js, |s| - 1); ShuffleDown(s, js, |s| - 1)
  }

  /** Shuffling a roster of distinct ids yields a roster of distinct ids. */
  lemma ShuffleKeepsDistinctIds(s: seq<Player>, js: seq<nat>)
    requires ValidPicks(js, |s|) && DistinctIds(s)
    ensures DistinctIds(Shuffle(s, js))
  {
    PermutationKeepsDistinctIds(s, Shuffle(s, js));
  }

  /** The role of position `i` of the shuffled roster: `i < impostorCount`. */
  function RoleAtRank(i: nat, impostorCount: int): Role {
    if i < impostorCount then Impostor else Crew
  }

  /** How many impostors a roster of `n` gets for a setting of `k`. */
  function ImpostorTotal(k: int, n: nat): nat {
    if k <= 0 then 0 else if k >= n then n else k
  }

  /** The role loop over the shuffled copy. */
  function RolesByRank(s: seq<Player>, k: int): seq<Player> {
    seq(|s|, i requires 0 <= i < |s| => s[i].(role := Some(RoleAtRank(i, k))))
  }

  /** Handing out roles by position gives exactly `ImpostorTotal(k, n)`
      impostors and the rest crew. */
  lemma {:induction false} RolesByRankCounts(s: seq<Player>, k: int)
    ensures CountRole(RolesByRank(s, k), Impostor) == ImpostorTotal(k, |s|)
    ensures CountRole(RolesByRank(s, k), Crew) == |s| - ImpostorTotal(k, |s|)
  {
    if s != [] {
      var p := s[..|s| - 1];
      assert RolesByRank(s, k)[..|s| - 1] == RolesByRank(p, k);
      RolesByRankCounts(p, k);
    }
  }

  /** `after` is what assigning roles to `before` with draws `js` and setting
      `k` leaves: the same players in the same order, only roles changed, and
      as a whole exactly the shuffled copy with roles given by position. */
  ghost predicate AssignedFrom(before: seq<Player>, after: seq<Player>, k: int, js: seq<nat>)
    requires ValidPicks(js, |before|)
  {
    && |after| == |before|
    && (forall j :: 0 <= j < |after| ==> after[j] == before[j].(role := after[j].role))
    && multiset(after) == multiset(RolesByRank(Shuffle(before, js), k))
  }

  /** What the tests assert of an assignment: exactly `ImpostorTotal(k, n)`
      impostors, the others crew, every player has a role, and ids stay
      distinct. */
  lemma AssignedFromCounts(before: seq<Player>, after: seq<Player>, k: int, js: seq<nat>)
    requires ValidPicks(js, |before|) && AssignedFrom(before, after, k, js)
    ensures CountRole(after, Impostor) == ImpostorTotal(k, |before|)
    ensures CountRole(after, Crew) == |before| - ImpostorTotal(k, |before|)
    ensures forall j :: 0 <= j < |after| ==> after[j].role.Some?
    ensures DistinctIds(before) ==> DistinctIds(after)
  {
    var ranked := RolesByRank(Shuffle(before, js), k);
    RolesByRankCounts(Shuffle(before, js), k);
    CountRolePermutation(after, ranked, Impostor);
    CountRolePermutation(after, ranked, Crew);
    forall j | 0 <= j < |after| ensures after[j].role.Some? {
      assert after[j] in multiset(ranked);
    }
    if DistinctIds(before) {
      forall a, b | 0 <= a < b < |after| ensures after[a].id != after[b].id {
        assert after[a].id == before[a].id && after[b].id == before[b].id;
      }
    }
  }

  /** The destructuring swap on an array. */
  method SwapInPlace<T>(a: array<T>, i: nat, j: nat)
    requires i < a.Length && j < a.Length
    modifies a
    ensures a[..] == Swap(old(a[..]), i, j)
  {
    var t := a[i];
    a[i] := a[j];
    a[j] := t;
  }

  /** The copy's shuffle loop, run in place on an array. */
  method ShuffleInPlace<T>(a: array<T>, js: seq<nat>)
    requires ValidPicks(js, a.Length)
    modifies a
    ensures a[..] == Shuffle(old(a[..]), js)
  {
    var i := a.Length - 1;
    while i > 0
      invariant a.Length == 0 ==> i == -1
      invariant a.Length > 0 ==> 0 <= i < a.Length && ShuffleDown(a[..], js, i) == Shuffle(old(a[..]), js)
    {
      ghost var before := a[..];
      SwapInPlace(a, i, js[i]);
      assert ShuffleDown(a[..], js, i - 1) == ShuffleDown(before, js, i);
      i := i - 1;
    }
  }

  /** The role loop, run in place on the shuffled array. */
  method AssignByRank(a: array<Player>, k: int)
    modifies a
    ensures a[..] == RolesByRank(old(a[..]), k)
  {
    for i := 0 to a.Length
      invariant forall m :: 0 <= m < i ==> a[m] == old(a[m]).(role := Some(RoleAtRank(m, k)))
      invariant forall m :: i <= m < a.Length ==> a[m] == old(a[m])
    {
      a[i] := a[i].(role := Some(if i < k then Impostor else Crew));
    }
  }

  /** How often `x` occurs after overwriting position `i` with `v`. */
  lemma UpdateOccurrences<T>(s: seq<T>, i: nat, v: T, x: T)
    requires i < |s|
    ensures multiset(s[i := v])[x] == multiset(s)[x] - (if s[i] == x then 1 else 0) + (if v == x then 1 else 0)
  {
    assert s == s[..i] + [s[i]] + s[i + 1..];
    assert s[i := v] == s[..i] + [v] + s[i + 1..];
  }

  /** Cancelling a common term of a multiset equation. */
  lemma Cancel<T>(a: multiset<T>, b: multiset<T>, c: multiset<T>)
    requires a + b == b + c
    ensures a == c
  {
    forall x ensures a[x] == c[x] {
      assert (a + b)[x] == (b + c)[x];
    }
  }

  /** The state of the write-back loop after its first `t` iterations. */
  ghost predicate WrittenBack(roster: seq<Player>, base: seq<Player>, updated: seq<Player>, result: seq<Player>, t: nat)
    requires t <= |base| == |updated|
  {
    && |result| == |roster|
    && (forall j :: 0 <= j < |result| ==> result[j] == roster[j].(role := result[j].role))
    && (forall j :: 0 <= j < |roster| && (forall i :: 0 <= i < t ==> base[i].id != roster[j].id) ==> result[j] == roster[j])
    && multiset(result) + multiset(base[..t]) == multiset(roster) + multiset(updated[..t])
  }

  /** The entry `findIndex` finds for `updated[t]` is the roster position of
      `base[t]`, and it has not been overwritten yet. */
  lemma WriteBackFinds(roster: seq<Player>, base: seq<Player>, updated: seq<Player>, result: seq<Player>, t: nat)
    requires DistinctIds(roster) && DistinctIds(base)
    requires multiset(base) == multiset(roster)
    requires t < |updated| == |base|
    requires updated[t].id == base[t].id
    requires WrittenBack(roster, base, updated, result, t)
    ensures 0 <= IndexOfId(result, updated[t].id) && result[IndexOfId(result, updated[t].id)] == base[t]
  {
    assert base[t] in multiset(roster);
    var m :| 0 <= m < |roster| && roster[m] == base[t];
    assert result[m].id == updated[t].id;
    var idx := IndexOfId(result, updated[t].id);
    assert idx == m by {
      assert result[idx].id == roster[idx].id;
    }
    assert forall i :: 0 <= i < t ==> base[i].id != roster[m].id;
  }

  /** One iteration of the write-back loop keeps the occurrence balance. */
  lemma WriteBackBalance(roster: seq<Player>, base: seq<Player>, updated: seq<Player>, result: seq<Player>, t: nat, idx: nat)
    requires t < |updated| == |base|
    requires idx < |result| && result[idx] == base[t]
    requires multiset(result) + multiset(base[..t]) == multiset(roster) + multiset(updated[..t])
    ensures multiset(result[idx := updated[t]]) + multiset(base[..t + 1]) == multiset(roster) + multiset(updated[..t + 1])
  {
    assert base[..t + 1] == base[..t] + [base[t]];
    assert updated[..t + 1] == updated[..t] + [updated[t]];
    UpdateSwap(result, idx, updated[t]);
    Rebalance(multiset(result[idx := updated[t]]), multiset(result), multiset(base[..t]),
              multiset(roster), multiset(updated[..t]), base[t], updated[t]);
  }

  /** Adding the swapped pair to both sides of a balanced multiset equation. */
  lemma Rebalance<T>(r': multiset<T>, r: multiset<T>, bm: multiset<T>, o: multiset<T>, um: multiset<T>, b: T, u: T)
    requires r' + multiset{b} == r + multiset{u}
    requires r + bm == o + um
    ensures r' + (bm + multiset{b}) == o + (um + multiset{u})
  {
    forall x ensures r'[x] + bm[x] + multiset{b}[x] == o[x] + um[x] + multiset{u}[x] {
      assert (r' + multiset{b})[x] == (r + multiset{u})[x];
      assert (r + bm)[x] == (o + um)[x];
    }
  }

  /** Overwriting one position swaps one occurrence for another. */
  lemma UpdateSwap<T>(s: seq<T>, i: nat, v: T)
    requires i < |s|
    ensures multiset(s[i := v]) + multiset{s[i]} == multiset(s) + multiset{v}
  {
    assert s == s[..i] + [s[i]] + s[i + 1..];
    assert s[i := v] == s[..i] + [v] + s[i + 1..];
  }

  /** One iteration of the write-back loop leaves alone every entry whose id
      has not come up yet. */
  lemma WriteBackUntouched(roster: seq<Player>, base: seq<Player>, result: seq<Player>, t: nat, idx: nat, v: Player)
    requires t < |base| && |result| == |roster|
    requires idx < |result| && base[t].id == roster[idx].id
    requires forall j :: 0 <= j < |roster| && (forall i :: 0 <= i < t ==> base[i].id != roster[j].id) ==> result[j] == roster[j]
    ensures forall j :: 0 <= j < |roster| && (forall i :: 0 <= i < t + 1 ==> base[i].id != roster[j].id) ==> result[idx := v][j] == roster[j]
  {
    forall j | 0 <= j < |roster| && (forall i :: 0 <= i < t + 1 ==> base[i].id != roster[j].id)
      ensures result[idx := v][j] == roster[j]
    {
      assert base[t].id != roster[j].id;
    }
  }

  /** One iteration of the write-back loop keeps `WrittenBack`. */
  lemma WriteBackStep(roster: seq<Player>, base: seq<Player>, updated: seq<Player>, result: seq<Player>, t: nat, idx: nat)
    requires t < |updated| == |base|
    requires WrittenBack(roster, base, updated, result, t)
    requires idx < |result| && result[idx] == base[t] && result[idx].id == roster[idx].id
    requires updated[t] == base[t].(role := updated[t].role)
    ensures WrittenBack(roster, base, updated, result[idx := updated[t]], t + 1)
  {
    WriteBackBalance(roster, base, updated, result, t, idx);
    WriteBackUntouched(roster, base, result, t, idx, updated[t]);
  }

  /** The write-back loop: for each updated player, in order, overwrite the
      roster entry with the same id (`findIndex`). `updated` must be a
      rearrangement `base` of the roster with only roles changed. The result
      keeps the roster's order and differs only in roles, and holds exactly
      the updated players. */
  method WriteBack(roster: seq<Player>, ghost base: seq<Player>, updated: seq<Player>) returns (result: seq<Player>)
    requires DistinctIds(roster) && DistinctIds(base)
    requires multiset(base) == multiset(roster)
    requires |updated| == |base|
    requires forall i :: 0 <= i < |updated| ==> updated[i] == base[i].(role := updated[i].role)
    ensures |result| == |roster|
    ensures forall j :: 0 <= j < |result| ==> result[j] == roster[j].(role := result[j].role)
    ensures multiset(result) == multiset(updated)
  {
    result := roster;
    for t := 0 to |updated|
      invariant WrittenBack(roster, base, updated, result, t)
    {
      var idx := IndexOfId(result, updated[t].id);
      assert 0 <= idx && result[idx] == base[t] by {
        WriteBackFinds(roster, base, updated, result, t);
      }
      assert WrittenBack(roster, base, updated, result[idx := updated[t]], t + 1) by {
        assert result[idx].id == roster[idx].id;
        WriteBackStep(roster, base, updated, result, t, idx);
      }
      if idx != -1 {
        result := result[idx := updated[t]];
      }
    }
    assert base[..|updated|] == base && updated[..|updated|] == updated;
    Cancel(multiset(result), multiset(roster), multiset(updated));
  }

  /** The shuffle and the role loop on a copy `[...players]` of the roster:
      the shuffled copy, each player's role given by its position. */
  method ShuffleAndRank(ps: seq<Player>, k: int, js: seq<nat>) returns (shuffled: seq<Player>)
    requires ValidPicks(js, |ps|)
    ensures shuffled == RolesByRank(Shuffle(ps, js), k)
  {
    var a := new Player[|ps|](i requires 0 <= i < |ps| => ps[i]);
    assert a[..] == ps;
    ShuffleInPlace(a, js);
    AssignByRank(a, k);
    shuffled := a[..];
  }

  /** The ranked copy differs from the shuffled roster in roles only. */
  lemma RolesByRankRelabels(s: seq<Player>, k: int)
    ensures |RolesByRank(s, k)| == |s|
    ensures forall i :: 0 <= i < |s| ==> RolesByRank(s, k)[i] == s[i].(role := RolesByRank(s, k)[i].role)
  {
  }

  /** Role assignment as a whole: shuffle a copy, hand out roles by
      position, and write each role back to the roster player with that id. */
  method AssignRolesTo(ps: seq<Player>, k: int, js: seq<nat>) returns (result: seq<Player>)
    requires ValidPicks(js, |ps|) && DistinctIds(ps)
    ensures AssignedFrom(ps, result, k, js)
    ensures DistinctIds(result)
  {
    var updated := ShuffleAndRank(ps, k, js);
    ShuffleKeepsDistinctIds(ps, js);
    RolesByRankRelabels(Shuffle(ps, js), k);
    result := WriteBack(ps, Shuffle(ps, js), updated);
    AssignedFromCounts(ps, result, k, js);
  }
}
