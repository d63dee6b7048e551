/** The values the game passes around: players, their roles, a room's
    settings and the game phase, with the queries the game makes over a
    list of players (`find`, `findIndex`, `some`, `filter(...).length`). */
module Roster {
  import opened Wrappers

  datatype Role = Crew | Impostor

  /** Player ids are opaque; the model hands them out as fresh numbers. */
  type PlayerId = nat

  /** A player record; `role == None` is the source's `role: null`.
      The `joinedAt` time stamp is not part of this model. */
  datatype Player = Player(name: string, id: PlayerId, isHost: bool, role: Option<Role>)

  /** A room's `gameSettings`. */
  datatype Settings = Settings(impostorCount: int, hintWordEnabled: bool)

  /** `{ impostorCount: 1, hintWordEnabled: true }`, the settings of a fresh room. */
  const DefaultSettings := Settings(1, true)

  /** The values of `gamePhase`. */
  datatype Phase = Lobby | RoleReveal | Game | Voting | Results

  predicate DistinctIds(ps: seq<Player>) {
    forall i, j :: 0 <= i < j < |ps| ==> ps[i].id != ps[j].id
  }

  predicate DistinctNames(ps: seq<Player>) {
    forall i, j :: 0 <= i < j < |ps| ==> ps[i].name != ps[j].name
  }

  /** `ps.some(p => p.name === name)`. */
  predicate HasName(ps: seq<Player>, name: string) {
    exists i :: 0 <= i < |ps| && ps[i].name == name
  }

  /** `ps.find(p => p.name === name)`, as the index of the player it finds:
      the first player with that exact name, or `None` when nobody has it. */
  function FindByName(ps: seq<Player>, name: string): (r: Option<nat>)
    ensures r.Some? ==> r.value < |ps| && ps[r.value].name == name
    ensures r.Some? ==> forall k :: 0 <= k < r.value ==> ps[k].name != name
    ensures r.None? <==> !HasName(ps, name)
  {
    if ps == [] then None
    else if ps[0].name == name then Some(0)
    else match FindByName(ps[1..], name)
      case None => None
      case Some(i) => Some(i + 1)
  }

  /** `ps.findIndex(p => p.id === id)`: the first index holding that id, or -1. */
  function IndexOfId(ps: seq<Player>, id: PlayerId): (r: int)
    ensures -1 <= r < |ps|
    ensures r >= 0 ==> ps[r].id == id && forall k :: 0 <= k < r ==> ps[k].id != id
    ensures r == -1 ==> forall k :: 0 <= k < |ps| ==> ps[k].id != id
  {
    if ps == [] then -1
    else if ps[0].id == id then 0
    else
      var r := IndexOfId(ps[1..], id);
      if r < 0 then -1 else r + 1
  }

  /** `ps.filter(p => p.role === r).length`. */
  function CountRole(ps: seq<Player>, r: Role): (c: nat)
    ensures c <= |ps|
  {
    if ps == [] then 0
    else CountRole(ps[..|ps| - 1], r) + (if ps[|ps| - 1].role == Some(r) then 1 else 0)
  }

  lemma {:induction false} CountRoleAppend(a: seq<Player>, b: seq<Player>, r: Role)
    ensures CountRole(a + b, r) == CountRole(a, r) + CountRole(b, r)
  {
    if b == [] {
      assert a + b == a;
    } else {
      assert (a + b)[..|a + b| - 1] == a + b[..|b| - 1];
      CountRoleAppend(a, b[..|b| - 1], r);
    }
  }

  /** Some player has role `r` exactly when the count of `r` is positive. */
  lemma {:induction false} CountRolePositive(ps: seq<Player>, r: Role)
    ensures CountRole(ps, r) > 0 <==> exists i :: 0 <= i < |ps| && ps[i].role == Some(r)
  {
    if ps != [] {
      var p := ps[..|ps| - 1];
      CountRolePositive(p, r);
      if exists i :: 0 <= i < |p| && p[i].role == Some(r) {
        var i :| 0 <= i < |p| && p[i].role == Some(r);
        assert ps[i] == p[i];
      }
      if exists i :: 0 <= i < |ps| && ps[i].role == Some(r) {
        var i :| 0 <= i < |ps| && ps[i].role == Some(r);
        if i < |p| { assert p[i] == ps[i]; }
      }
    }
  }

  /** The count of `r` is the count among all players but the one at `i`,
      plus one if that player has role `r`. */
  lemma CountRoleSplit(ps: seq<Player>, i: nat, r: Role)
    requires i < |ps|
    ensures CountRole(ps, r) == CountRole(ps[..i] + ps[i + 1..], r) + (if ps[i].role == Some(r) then 1 else 0)
  {
    assert ps == ps[..i] + [ps[i]] + ps[i + 1..];
    assert [ps[i]][..0] == [];
    CountRoleAppend(ps[..i] + [ps[i]], ps[i + 1..], r);
    CountRoleAppend(ps[..i], [ps[i]], r);
    CountRoleAppend(ps[..i], ps[i + 1..], r);
  }

  /** Counting roles does not depend on the order of the players. */
  lemma {:induction false} CountRolePermutation(a: seq<Player>, b: seq<Player>, r: Role)
    requires multiset(a) == multiset(b)
    ensures CountRole(a, r) == CountRole(b, r)
  {
    if a == [] {
      assert |b| == |multiset(b)| == 0;
    } else {
      var x := a[|a| - 1];
      var a' := a[..|a| - 1];
      assert x in multiset(b) by {
        assert a == a' + [x];
      }
      var p :| 0 <= p < |b| && b[p] == x;
      var b' := b[..p] + b[p + 1..];
      assert multiset(a') == multiset(b') by {
        assert a == a' + [x];
        assert b == b[..p] + [x] + b[p + 1..];
        assert multiset(b') == multiset(b) - multiset{x};
        assert multiset(a') == multiset(a) - multiset{x};
      }
      CountRolePermutation(a', b', r);
      CountRoleMatched(a, b, p, r);
    }
  }

  /** Removing the last player of `a` and a copy of it from `b` changes both
      counts alike. */
  lemma CountRoleMatched(a: seq<Player>, b: seq<Player>, p: nat, r: Role)
    requires a != [] && p < |b| && b[p] == a[|a| - 1]
    requires CountRole(a[..|a| - 1], r) == CountRole(b[..p] + b[p + 1..], r)
    ensures CountRole(a, r) == CountRole(b, r)
  {
    CountRoleSplit(b, p, r);
  }

  /** No element occurs at two positions. */
  predicate Distinct<T(==)>(s: seq<T>) {
    forall i, j :: 0 <= i < j < |s| ==> s[i] != s[j]
  }

  /** In a sequence without repetitions every element occurs once. */
  lemma OccursOnlyOnce<T>(a: seq<T>, m: nat)
    requires Distinct(a) && m < |a|
    ensures multiset(a)[a[m]] == 1
  {
    assert a == a[..m] + [a[m]] + a[m + 1..];
    assert a[m] !in a[..m] && a[m] !in a[m + 1..] by {
      forall k | 0 <= k < |a| && k != m ensures a[k] != a[m] {
        if k < m { assert a[k] != a[m]; } else { assert a[m] != a[k]; }
      }
    }
  }

  /** An element found at two positions occurs at least twice. */
  lemma OccursTwice<T>(b: seq<T>, p: nat, q: nat)
    requires p < q < |b| && b[p] == b[q]
    ensures multiset(b)[b[p]] >= 2
  {
    assert b == b[..q] + b[q..];
    assert b[p] in b[..q] && b[q] in b[q..];
  }

  /** A rearrangement of a sequence without repetitions has none. */
  lemma PermutationKeepsDistinct<T>(a: seq<T>, b: seq<T>)
    requires Distinct(a) && multiset(a) == multiset(b)
    ensures Distinct(b)
  {
    forall p, q | 0 <= p < q < |b| ensures b[p] != b[q] {
      assert b[p] in multiset(a);
      var m :| 0 <= m < |a| && a[m] == b[p];
      if b[p] == b[q] {
        OccursTwice(b, p, q);
        OccursOnlyOnce(a, m);
        assert false;
      }
    }
  }

  /** Rearranging a roster of distinct ids keeps the ids distinct: players
      with distinct ids are distinct, so the rearrangement holds each of
      them at one position only. */
  lemma PermutationKeepsDistinctIds(a: seq<Player>, b: seq<Player>)
    requires DistinctIds(a) && multiset(a) == multiset(b)
    ensures DistinctIds(b)
  {
    assert Distinct(a) by {
      forall i, j | 0 <= i < j < |a| ensures a[i] != a[j] {
        assert a[i].id != a[j].id;
      }
    }
    PermutationKeepsDistinct(a, b);
    forall p, q | 0 <= p < q < |b| ensures b[p].id != b[q].id {
      assert b[p] in multiset(a) && b[q] in multiset(a);
      var m1 :| 0 <= m1 < |a| && a[m1] == b[p];
      var m2 :| 0 <= m2 < |a| && a[m2] == b[q];
      if m1 < m2 {
        assert a[m1].id != a[m2].id;
      } else if m2 < m1 {
        assert a[m2].id != a[m1].id;
      } else {
        assert false;
      }
    }
  }
}
