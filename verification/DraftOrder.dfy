/** Which formats a drafting run asks, and in what order: pass one and the backfill. */
module DraftOrder {
  import opened Generation
  import opened Drafts
  import opened DraftFacts
  import opened DraftBounds
  import opened Picking

  // ------------------------------------------------------------ the order of the retries

  lemma {:induction false} WorkingIs(produced: seq<nat>)
    ensures Picks(Working(produced), |produced|, (f: nat) => f < |produced| && produced[f] > 0)
  {
    var keep := (f: nat) => f < |produced| && produced[f] > 0;
    if produced == [] {
      PicksNone(keep);
    } else {
      var n := |produced| - 1;
      WorkingIs(produced[..n]);
      var at := PicksNext(Working(produced[..n]), n, (f: nat) => f < n && produced[..n][f] > 0, keep);
    }
  }

  lemma {:induction false} UnprovenIs(produced: seq<nat>, reached: seq<bool>)
    requires |produced| == |reached|
    ensures Picks(Unproven(produced, reached), |produced|, (f: nat) => f < |produced| && produced[f] == 0 && !reached[f])
  {
    var keep := (f: nat) => f < |produced| && produced[f] == 0 && !reached[f];
    if produced == [] {
      PicksNone(keep);
    } else {
      var n := |produced| - 1;
      UnprovenIs(produced[..n], reached[..n]);
      var at := PicksNext(Unproven(produced[..n], reached[..n]), n, (f: nat) => f < n && produced[..n][f] == 0 && !reached[..n][f], keep);
    }
  }

  /** The backfill asks first the formats that have given something, then those that no reply was ever
      heard for, each in the plan's order; a format that was heard and gave nothing is not asked. */
  lemma RetryOrderIs(plan: Plan, c: Core) returns (m: nat)
    requires Shaped(plan, c)
    ensures m <= |RetryOrder(plan, c)|
    ensures Picks(RetryOrder(plan, c)[..m], |plan.shares|, (f: nat) => f < |c.produced| && c.produced[f] > 0)
    ensures Picks(RetryOrder(plan, c)[m..], |plan.shares|, (f: nat) => f < |c.produced| && c.produced[f] == 0 && !c.reached[f])
  {
    hide Working, Unproven, Picks;
    WorkingIs(c.produced);
    UnprovenIs(c.produced, c.reached);
    m := |Working(c.produced)|;
    assert RetryOrder(plan, c)[..m] == Working(c.produced) && RetryOrder(plan, c)[m..] == Unproven(c.produced, c.reached);
  }

  /** Between rounds, the formats that gave something or were not heard yet stay, in their order. */
  lemma {:induction false} StillWorthIs(plan: Plan, c: Core, order: seq<nat>) returns (at: seq<nat>)
    requires Shaped(plan, c) && InPlan(plan, order)
    ensures Picks(at, |order|, (k: nat) => k < |order| && (c.produced[order[k]] > 0 || !c.reached[order[k]]))
    ensures |at| == |StillWorth(plan, c, order)| && forall i :: 0 <= i < |at| ==> at[i] < |order| && StillWorth(plan, c, order)[i] == order[at[i]]
  {
    var keep := (k: nat) => k < |order| && (c.produced[order[k]] > 0 || !c.reached[order[k]]);
    if order == [] {
      at := [];
    } else {
      var n := |order| - 1;
      var before := StillWorthIs(plan, c, order[..n]);
      at := PicksNext(before, n, (k: nat) => k < n && (c.produced[order[..n][k]] > 0 || !c.reached[order[..n][k]]), keep);
    }
  }

  /** A round asks every format in its order once, unless the paper fills or the calls run out. */
  lemma {:induction false} RoundAsksAll(plan: Plan, turns: Turns, c: Core, order: seq<nat>, k: nat)
    requires Shaped(plan, c) && InPlan(plan, order) && k <= |order|
    ensures var p := Sweep(plan, turns, c, order, k);
      p.Going? ==> |p.core.heard| == |c.heard| + (|order| - k) || |p.core.accepted| >= Target(plan) || Spent(plan, p.core)
    decreases |order| - k
  {
    hide Write, Target;
    if !(k == |order| || |c.accepted| >= Target(plan) || Spent(plan, c)) {
      OneMoreHeard(plan, turns, c, order[k], Target(plan) - |c.accepted|);
      var p := Write(plan, turns, c, order[k], Target(plan) - |c.accepted|);
      if p.Going? { RoundAsksAll(plan, turns, p.core, order, k + 1); }
    }
  }

  // A format counts as heard once a writing call for it is answered.
  lemma OneMoreHeard(plan: Plan, turns: Turns, c: Core, fmt: nat, wanted: nat)
    requires Shaped(plan, c) && fmt < |plan.shares| && !Spent(plan, c)
    ensures var p := Write(plan, turns, c, fmt, wanted);
      p.Going? ==>
        && p.core.heard == c.heard + [Wrote(fmt, wanted)] && p.core.left == c.left - 1
        && p.core.reached == if turns(|c.heard|).Answered? then c.reached[fmt := true] else c.reached
  {
    hide Raises, KeepFlags, KeptNow, TakenOf, StemsOf, Offered;
  }

  // ---------------------------------------------------------------- what a stretch asks

  // Writing calls are added, each for its format, and no format forgets what it gave or that it was
  // heard.
  ghost predicate Asks(turns: Turns, c: Core, d: Core) {
    && c.heard <= d.heard && |c.produced| == |c.reached| == |d.produced| == |d.reached|
    && (forall f :: 0 <= f < |c.produced| ==> c.produced[f] <= d.produced[f] && (c.reached[f] ==> d.reached[f]))
    && forall k :: |c.heard| <= k < |d.heard| ==>
         d.heard[k].Wrote? && d.heard[k].format < |d.reached| && (turns(k).Answered? ==> d.reached[d.heard[k].format])
  }

  lemma AsksOn(turns: Turns, a: Core, b: Core, c: Core)
    requires Asks(turns, a, b) && Asks(turns, b, c)
    ensures Asks(turns, a, c)
  {
    forall k | |a.heard| <= k < |c.heard|
      ensures c.heard[k].Wrote? && c.heard[k].format < |c.reached| && (turns(k).Answered? ==> c.reached[c.heard[k].format])
    {
      if k < |b.heard| { assert c.heard[k] == b.heard[k]; }
    }
  }

  lemma WriteAsks(plan: Plan, turns: Turns, c: Core, fmt: nat, wanted: nat)
    requires Shaped(plan, c) && fmt < |plan.shares| && Write(plan, turns, c, fmt, wanted).Going?
    ensures var d := Write(plan, turns, c, fmt, wanted).core;
      Asks(turns, c, d) && d.heard == c.heard + if Spent(plan, c) then [] else [Wrote(fmt, wanted)]
  {
    hide Write;
    var d := Write(plan, turns, c, fmt, wanted).core;
    WriteAdds(plan, turns, c, fmt, wanted);
    if Spent(plan, c) {
      assert d == c by { SpentWrites(plan, turns, c, fmt, wanted); }
    } else {
      OneMoreHeard(plan, turns, c, fmt, wanted);
    }
  }

  lemma SpentWrites(plan: Plan, turns: Turns, c: Core, fmt: nat, wanted: nat)
    requires Shaped(plan, c) && fmt < |plan.shares| && Spent(plan, c)
    ensures Write(plan, turns, c, fmt, wanted).Going? && Write(plan, turns, c, fmt, wanted).core == c
  {
  }

  // ------------------------------------------------------------------------ pass one

  lemma {:induction false} ShareAsks(plan: Plan, turns: Turns, c: Core, fmt: nat, remaining: int, rounds: nat)
    requires Shaped(plan, c) && fmt < |plan.shares| && Share(plan, turns, c, fmt, remaining, rounds).Going?
    ensures var d := Share(plan, turns, c, fmt, remaining, rounds).core;
      && Asks(turns, c, d) && |d.heard| <= |c.heard| + rounds
      && forall k :: |c.heard| <= k < |d.heard| ==> d.heard[k].format == fmt
    decreases rounds
  {
    hide Write, Asks;
    if rounds == 0 || remaining <= 0 || Spent(plan, c) {
      AsksNothing(turns, c);
    } else {
      WriteAsks(plan, turns, c, fmt, remaining);
      var b := Write(plan, turns, c, fmt, remaining).core;
      var rest := remaining - (|b.accepted| - |c.accepted|);
      ShareAsks(plan, turns, b, fmt, rest, rounds - 1);
      var d := Share(plan, turns, b, fmt, rest, rounds - 1).core;
      AsksOn(turns, c, b, d);
      assert d.heard[|c.heard|] == b.heard[|c.heard|] by { HeardStays(turns, b, d); }
    }
  }

  lemma AsksNothing(turns: Turns, c: Core)
    requires |c.produced| == |c.reached|
    ensures Asks(turns, c, c)
  {
  }

  lemma HeardStays(turns: Turns, c: Core, d: Core)
    requires Asks(turns, c, d)
    ensures c.heard <= d.heard && forall k :: 0 <= k < |c.heard| ==> d.heard[k] == c.heard[k]
  {
  }

  /** Pass one asks the formats in the plan's order, each at most once a batch of passages. */
  lemma {:induction false} PassOneAsks(plan: Plan, turns: Turns, c: Core, fmt: nat)
    requires Shaped(plan, c) && fmt <= |plan.shares| && Shares(plan, turns, c, fmt).Going?
    ensures var d := Shares(plan, turns, c, fmt).core;
      && Asks(turns, c, d)
      && (forall k :: |c.heard| <= k < |d.heard| ==> fmt <= d.heard[k].format)
      && (forall k, l :: |c.heard| <= k < l < |d.heard| ==> d.heard[k].format <= d.heard[l].format)
      && (forall k, l :: |c.heard| <= k && k + plan.batches <= l < |d.heard| ==> d.heard[k].format < d.heard[l].format)
    decreases |plan.shares| - fmt
  {
    hide Share, Asks;
    if fmt == |plan.shares| {
      AsksNothing(turns, c);
    } else {
      ShareAsks(plan, turns, c, fmt, plan.shares[fmt], plan.batches);
      var b := Share(plan, turns, c, fmt, plan.shares[fmt], plan.batches).core;
      PassOneAsks(plan, turns, b, fmt + 1);
      var d := Shares(plan, turns, b, fmt + 1).core;
      AsksOn(turns, c, b, d);
      HeardStays(turns, c, b);
      HeardStays(turns, b, d);
      forall k, l | |c.heard| <= k < l < |d.heard|
        ensures d.heard[k].format <= d.heard[l].format && (k + plan.batches <= l ==> d.heard[k].format < d.heard[l].format)
      {
      }
    }
  }

  // ------------------------------------------------------------------------- backfill

  predicate EachOnce(order: seq<nat>) { forall i, j :: 0 <= i < j < |order| ==> order[i] != order[j] }

  lemma {:induction false} SweepAsks(plan: Plan, turns: Turns, c: Core, order: seq<nat>, k: nat)
    requires Shaped(plan, c) && InPlan(plan, order) && k <= |order| && Sweep(plan, turns, c, order, k).Going?
    ensures var d := Sweep(plan, turns, c, order, k).core;
      && Asks(turns, c, d) && |d.heard| <= |c.heard| + (|order| - k)
      && forall i :: |c.heard| <= i < |d.heard| ==> d.heard[i].format == order[k + i - |c.heard|]
    decreases |order| - k
  {
    hide Write, Asks, Target;
    if k == |order| || |c.accepted| >= Target(plan) || Spent(plan, c) {
      AsksNothing(turns, c);
    } else {
      WriteAsks(plan, turns, c, order[k], Target(plan) - |c.accepted|);
      var b := Write(plan, turns, c, order[k], Target(plan) - |c.accepted|).core;
      SweepAsks(plan, turns, b, order, k + 1);
      var d := Sweep(plan, turns, b, order, k + 1).core;
      AsksOn(turns, c, b, d);
      HeardStays(turns, b, d);
    }
  }

  // A format that was heard once in the stretch and asked again has given something by the end.
  ghost predicate AgainOnlyIfGiving(turns: Turns, from: nat, d: Core) {
    forall k, l :: from <= k < l < |d.heard| && d.heard[k].format == d.heard[l].format < |d.produced| && turns(k).Answered? ==>
      d.produced[d.heard[k].format] > 0
  }

  lemma {:induction false} BackfillAsks(plan: Plan, turns: Turns, c: Core, order: seq<nat>)
    requires Shaped(plan, c) && InPlan(plan, order) && EachOnce(order) && Backfill(plan, turns, c, order).Going?
    ensures var d := Backfill(plan, turns, c, order).core;
      && Asks(turns, c, d) && AgainOnlyIfGiving(turns, |c.heard|, d)
      && forall k :: |c.heard| <= k < |d.heard| ==> d.heard[k].format in order
    decreases c.left
  {
    hide Sweep, Target, StillWorth, NoneWorks, Asks;
    if |c.accepted| >= Target(plan) || order == [] || Spent(plan, c) {
      AsksNothing(turns, c);
    } else {
      SweepSpends(plan, turns, c, order, 0);
      SweepAsks(plan, turns, c, order, 0);
      var b := Sweep(plan, turns, c, order, 0).core;
      HeardStays(turns, c, b);
      var next := StillWorth(plan, b, order);
      if !(|b.accepted| == |c.accepted| && NoneWorks(plan, b, next)) {
        StillOnce(plan, b, order);
        BackfillAsks(plan, turns, b, next);
        var d := Backfill(plan, turns, b, next).core;
        AsksOn(turns, c, b, d);
        HeardStays(turns, b, d);
        forall k, l | |c.heard| <= k < l < |d.heard| && d.heard[k].format == d.heard[l].format < |d.produced| && turns(k).Answered?
          ensures d.produced[d.heard[k].format] > 0
        {
          if k < |b.heard| <= l { GaveSince(turns, c, b, d, k); }
        }
      }
    }
  }

  // A format heard in the last round and still worth asking has given something.
  lemma GaveSince(turns: Turns, c: Core, b: Core, d: Core, k: nat)
    requires Asks(turns, c, b) && Asks(turns, b, d) && |c.heard| <= k < |b.heard| && turns(k).Answered?
    ensures b.heard[k].format < |b.produced| == |b.reached| == |d.produced| && d.heard[k] == b.heard[k]
    ensures Worth(b, b.heard[k].format) ==> d.produced[b.heard[k].format] > 0
  {
  }

  lemma {:induction false} StillOnce(plan: Plan, c: Core, order: seq<nat>)
    requires Shaped(plan, c) && InPlan(plan, order) && EachOnce(order)
    ensures EachOnce(StillWorth(plan, c, order)) && forall f :: f in StillWorth(plan, c, order) ==> f in order && f < |c.produced| && Worth(c, f)
  {
    var at := StillWorthIs(plan, c, order);
  }

  lemma RetryOnce(plan: Plan, c: Core)
    requires Shaped(plan, c)
    ensures EachOnce(RetryOrder(plan, c))
    ensures forall f: nat :: f in RetryOrder(plan, c) ==> f < |c.produced| && (c.produced[f] > 0 || !c.reached[f])
  {
    hide RetryOrder;
    var r := RetryOrder(plan, c);
    var m := RetryOrderIs(plan, c);
    forall i | 0 <= i < |r| ensures r[i] < |c.produced| && if i < m then c.produced[r[i]] > 0 else c.produced[r[i]] == 0 && !c.reached[r[i]] {
      assert if i < m then r[..m][i] in r[..m] else r[m..][i - m] in r[m..];
    }
    forall i, j | 0 <= i < j < |r| ensures r[i] != r[j] {
      if j < m { assert r[..m][i] < r[..m][j]; } else if i >= m { assert r[m..][i - m] < r[m..][j - m]; }
    }
  }

  /** After pass one a run asks only formats that had given something by then or had not been heard; and
      one of them that was heard is asked again only if it has given something in the end. */
  lemma BackfillAsksWell(plan: Plan, turns: Turns, limit: int, k: nat, l: nat)
    requires Sensible(plan) && Run(plan, turns, limit).Going? && AfterShares(plan, turns, limit).Going?
    requires |AfterShares(plan, turns, limit).core.heard| <= k < |Run(plan, turns, limit).core.heard|
    ensures var c, d := AfterShares(plan, turns, limit).core, Run(plan, turns, limit).core;
      var f := d.heard[k].format;
      && d.heard[k].Wrote? && f < |c.produced| && (c.produced[f] > 0 || !c.reached[f])
      && (k < l < |d.heard| && d.heard[l].format == f && turns(k).Answered? ==> f < |d.produced| && d.produced[f] > 0)
  {
    hide AfterShares, Backfill, RetryOrder;
    var c := AfterShares(plan, turns, limit).core;
    RetryOnce(plan, c);
    BackfillAsks(plan, turns, c, RetryOrder(plan, c));
  }
}
