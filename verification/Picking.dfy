/** Selections: what is left of a list when some of its places are passed over. */
module Picking {

  // The places of a list of n that are to be kept, from first to last.
  ghost predicate Picks(at: seq<nat>, n: nat, keep: nat -> bool) {
    && (forall i, j :: 0 <= i < j < |at| ==> at[i] < at[j])
    && (forall k: nat :: k in at <==> k < n && keep(k))
  }

  // One place on.
  lemma PicksNext(before: seq<nat>, n: nat, was: nat -> bool, keep: nat -> bool) returns (at: seq<nat>)
    requires Picks(before, n, was) && forall k: nat :: k < n ==> was(k) == keep(k)
    ensures Picks(at, n + 1, keep) && at == before + if keep(n) then [n] else []
  {
    at := before + if keep(n) then [n] else [];
    assert forall i :: 0 <= i < |before| ==> before[i] in before;
    forall k: nat ensures k in at <==> k < n + 1 && keep(k) {
      if keep(n) { assert at[|before|] == n; }
      if k in before { var i :| 0 <= i < |before| && before[i] == k; assert at[i] == k; }
    }
  }

  lemma PicksNone(keep: nat -> bool)
    ensures Picks([], 0, keep)
  {
  }

  lemma PicksMembers(at: seq<nat>, n: nat, keep: nat -> bool)
    requires Picks(at, n, keep)
    ensures forall i :: 0 <= i < |at| ==> at[i] < n && keep(at[i])
  {
    assert forall i :: 0 <= i < |at| ==> at[i] in at;
  }

  // How many places to be kept come before one.
  ghost function Earlier(k: nat, keep: nat -> bool): set<nat> { set j: nat | j < k && keep(j) }

  // The i-th place kept has i before it.
  lemma {:induction false} PlaceIs(at: seq<nat>, n: nat, keep: nat -> bool, i: nat)
    requires Picks(at, n, keep) && i < |at|
    ensures |Earlier(at[i], keep)| == i
  {
    assert at[i] in at;
    if i == 0 {
      assert forall j: nat :: j < n && keep(j) ==> j in at;
      assert Earlier(at[0], keep) == {};
    } else {
      PlaceIs(at, n, keep, i - 1);
      assert at[i - 1] in at;
      forall j: nat ensures j < at[i] && keep(j) <==> (j < at[i - 1] && keep(j)) || j == at[i - 1] {
        if j < at[i] && keep(j) { assert j in at; }
      }
      assert Earlier(at[i], keep) == Earlier(at[i - 1], keep) + {at[i - 1]};
    }
  }

  // Of the places kept, those among the first m.
  lemma AmongFirst(at: seq<nat>, n: nat, keep: nat -> bool, m: nat, k: nat)
    requires Picks(at, n, keep) && m <= |at|
    ensures k in at[..m] <==> k < n && keep(k) && |Earlier(k, keep)| < m
  {
    assert k in at[..m] ==> exists j :: 0 <= j < m && at[j] == k;
    if k in at {
      var i :| 0 <= i < |at| && at[i] == k;
      PlaceIs(at, n, keep, i);
      assert i < m ==> at[..m][i] == k;
    }
  }

  // All the places kept.
  lemma CountAll(at: seq<nat>, n: nat, keep: nat -> bool)
    requires Picks(at, n, keep)
    ensures |Earlier(n, keep)| == |at|
  {
    assert forall j: nat :: j < n && keep(j) ==> j in at;
    if at == [] {
      assert Earlier(n, keep) == {};
    } else {
      var last := at[|at| - 1];
      PlaceIs(at, n, keep, |at| - 1);
      assert last in at;
      assert Earlier(n, keep) == Earlier(last, keep) + {last};
    }
  }

  // Fewer come before a place kept than there are in all.
  lemma FewerEarlier(k: nat, n: nat, keep: nat -> bool)
    requires k < n && keep(k)
    ensures |Earlier(k, keep)| < |Earlier(n, keep)|
  {
    var rest := Earlier(n, keep) - Earlier(k, keep);
    assert k in rest && Earlier(n, keep) == Earlier(k, keep) + rest;
  }
}
