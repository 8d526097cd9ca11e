/** What every call of a drafting run keeps, the run keeps. */
module DraftRuns {
  import opened Generation
  import opened Drafts

  // Kept by every harvesting call: the k-th is for format k, round and round, and asks for what is
  // still wanted of the book.
  ghost predicate KeptByBook(plan: Plan, turns: Turns, inv: Core -> bool) {
    forall c: Core :: Asking(plan, c) && inv(c) ==>
      var p := TakeBook(plan, turns, c, |c.heard| % |plan.shares|, plan.share - |c.accepted|);
      p.Going? ==> inv(p.core)
  }

  predicate Asking(plan: Plan, c: Core) {
    Shaped(plan, c) && plan.shares != [] && c.cursor < |plan.printed| && |c.accepted| < plan.share && c.left > 0
  }

  ghost predicate KeptByWriting(plan: Plan, turns: Turns, inv: Core -> bool) {
    forall c: Core, fmt: nat, wanted: nat :: Shaped(plan, c) && fmt < |plan.shares| && inv(c) ==>
      var p := Write(plan, turns, c, fmt, wanted);
      p.Going? ==> inv(p.core)
  }

  // A step of pass zero makes a call or finds the book at its end.
  lemma TakeBookMoves(plan: Plan, turns: Turns, c: Core)
    requires Asking(plan, c)
    ensures var p := TakeBook(plan, turns, c, |c.heard| % |plan.shares|, plan.share - |c.accepted|);
      p.Going? ==> |p.core.heard| == |c.heard| + 1 || p.core.cursor == |plan.printed|
  {
    hide Raises, KeepFlags, KeptNow, TakenOf, StemsOf, Answering, AnyMisfit, Usable;
  }

  lemma {:induction false} HarvestKeeps(plan: Plan, turns: Turns, c: Core, inv: Core -> bool)
    requires Shaped(plan, c) && c.cursor <= |plan.printed| && plan.shares != [] && inv(c) && KeptByBook(plan, turns, inv)
    ensures var p := Harvest(plan, turns, c, |c.heard|); p.Going? ==> inv(p.core)
    decreases |plan.printed| - c.cursor
  {
    hide TakeBook;
    if Asking(plan, c) {
      TakeBookMoves(plan, turns, c);
      var p := TakeBook(plan, turns, c, |c.heard| % |plan.shares|, plan.share - |c.accepted|);
      if p.Going? && |p.core.heard| == |c.heard| + 1 {
        HarvestKeeps(plan, turns, p.core, inv);
      }
    }
  }

  lemma {:induction false} ShareKeeps(plan: Plan, turns: Turns, c: Core, fmt: nat, remaining: int, rounds: nat, inv: Core -> bool)
    requires Shaped(plan, c) && fmt < |plan.shares| && inv(c) && KeptByWriting(plan, turns, inv)
    ensures var p := Share(plan, turns, c, fmt, remaining, rounds); p.Going? ==> inv(p.core)
    decreases rounds
  {
    hide Write;
    if !(rounds == 0 || remaining <= 0 || Spent(plan, c)) {
      var p := Write(plan, turns, c, fmt, remaining);
      if p.Going? { ShareKeeps(plan, turns, p.core, fmt, remaining - (|p.core.accepted| - |c.accepted|), rounds - 1, inv); }
    }
  }

  lemma {:induction false} SharesKeep(plan: Plan, turns: Turns, c: Core, fmt: nat, inv: Core -> bool)
    requires Shaped(plan, c) && fmt <= |plan.shares| && inv(c) && KeptByWriting(plan, turns, inv)
    ensures var p := Shares(plan, turns, c, fmt); p.Going? ==> inv(p.core)
    decreases |plan.shares| - fmt
  {
    hide Share, KeptByWriting;
    if fmt < |plan.shares| {
      ShareKeeps(plan, turns, c, fmt, plan.shares[fmt], plan.batches, inv);
      var p := Share(plan, turns, c, fmt, plan.shares[fmt], plan.batches);
      if p.Going? { SharesKeep(plan, turns, p.core, fmt + 1, inv); }
    }
  }

  lemma {:induction false} SweepKeeps(plan: Plan, turns: Turns, c: Core, order: seq<nat>, k: nat, inv: Core -> bool)
    requires Shaped(plan, c) && InPlan(plan, order) && k <= |order| && inv(c) && KeptByWriting(plan, turns, inv)
    ensures var p := Sweep(plan, turns, c, order, k); p.Going? ==> inv(p.core)
    decreases |order| - k
  {
    hide Write, Target;
    if !(k == |order| || |c.accepted| >= Target(plan) || Spent(plan, c)) {
      var p := Write(plan, turns, c, order[k], Target(plan) - |c.accepted|);
      if p.Going? { SweepKeeps(plan, turns, p.core, order, k + 1, inv); }
    }
  }

  lemma {:induction false} BackfillKeeps(plan: Plan, turns: Turns, c: Core, order: seq<nat>, inv: Core -> bool)
    requires Shaped(plan, c) && InPlan(plan, order) && inv(c) && KeptByWriting(plan, turns, inv)
    ensures var p := Backfill(plan, turns, c, order); p.Going? ==> inv(p.core)
    decreases c.left
  {
    hide Sweep, Target, StillWorth, NoneWorks, KeptByWriting;
    if !(|c.accepted| >= Target(plan) || order == [] || Spent(plan, c)) {
      SweepSpends(plan, turns, c, order, 0);
      SweepKeeps(plan, turns, c, order, 0, inv);
      var p := Sweep(plan, turns, c, order, 0);
      if p.Going? {
        var next := StillWorth(plan, p.core, order);
        if !(|p.core.accepted| == |c.accepted| && NoneWorks(plan, p.core, next)) {
          BackfillKeeps(plan, turns, p.core, next, inv);
        }
      }
    }
  }

  /** A property that a run starts with and every harvesting call keeps is there when the book is done
      with. */
  lemma BookKeeps(plan: Plan, turns: Turns, limit: int, inv: Core -> bool)
    requires Sensible(plan) && inv(Start(plan, limit)) && KeptByBook(plan, turns, inv)
    ensures var p := AfterBook(plan, turns, limit); p.Going? ==> inv(p.core)
  {
    hide Harvest, KeptByBook;
    if plan.share > 0 {
      SharesExist(plan);
      HarvestKeeps(plan, turns, Start(plan, limit), inv);
    }
  }

  /** One that is there then, and that every writing call keeps, is there at the end. */
  lemma WritingKeeps(plan: Plan, turns: Turns, limit: int, inv: Core -> bool)
    requires Sensible(plan) && AfterBook(plan, turns, limit).Going? && inv(AfterBook(plan, turns, limit).core)
    requires KeptByWriting(plan, turns, inv)
    ensures var p := Run(plan, turns, limit); p.Going? ==> inv(p.core)
  {
    hide Shares, Backfill, RetryOrder, KeptByWriting;
    SharesKeep(plan, turns, AfterBook(plan, turns, limit).core, 0, inv);
    var p := AfterShares(plan, turns, limit);
    if p.Going? { BackfillKeeps(plan, turns, p.core, RetryOrder(plan, p.core), inv); }
  }
}
