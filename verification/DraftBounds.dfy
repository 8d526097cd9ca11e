/** How many questions a drafting run can take, and what it has when it ends. */
module DraftBounds {
  import opened Wrappers
  import opened Generation
  import opened Drafts
  import opened DraftFacts

  // -------------------------------------------------------------- what each step adds

  lemma {:induction false} AllFlagsTake(found: seq<string>, flags: seq<bool>, fmt: nat)
    requires |flags| == |found| && forall k :: 0 <= k < |flags| ==> flags[k]
    ensures |TakenOf(found, flags, fmt)| == |found|
  {
    if found != [] { AllFlagsTake(found[..|found| - 1], flags[..|found| - 1], fmt); }
  }

  // With no vectors to compare, everything found is taken.
  lemma JoinAdds(c: Core, fmt: nat, found: seq<string>, vectors: Option<seq<Vector>>, book: bool, near: (Vector, Vector) -> bool)
    requires fmt < |c.produced| && Join(c, fmt, found, vectors, book, near).Going?
    ensures var d := Join(c, fmt, found, vectors, book, near).core;
      && c.accepted <= d.accepted && |d.accepted| <= |c.accepted| + |found|
      && (vectors.None? ==> |d.accepted| == |c.accepted| + |found|)
      && (forall k :: |c.accepted| <= k < |d.accepted| ==> d.accepted[k].stem in found && (book ==> d.accepted[k].stem in d.stems))
      && (!book ==> d.stems == c.stems)
      && d.left == c.left && d.heard == c.heard && d.cursor == c.cursor
      && d.produced == c.produced[fmt := c.produced[fmt] + |d.accepted| - |c.accepted|]
  {
    hide KeptNow, Flags;
    var flags := KeepFlags(c.kept, found, vectors, near);
    if vectors.None? { AllFlagsTake(found, flags, fmt); }
    var taken := TakenOf(found, flags, fmt);
    forall k | 0 <= k < |taken| ensures taken[k].stem in StemsOf(taken) {}
  }

  lemma WriteAdds(plan: Plan, turns: Turns, c: Core, fmt: nat, wanted: nat)
    requires Shaped(plan, c) && fmt < |plan.shares| && Write(plan, turns, c, fmt, wanted).Going?
    ensures var d := Write(plan, turns, c, fmt, wanted).core;
      && |c.accepted| <= |d.accepted| <= |c.accepted| + wanted
      && d.left == (if Spent(plan, c) then c.left else c.left - 1) && d.stems == c.stems
      && (forall f :: 0 <= f < |plan.shares| && f != fmt ==> d.produced[f] == c.produced[f])
      && d.produced[fmt] >= c.produced[fmt]
  {
    hide Join, Inspected;
    if !Spent(plan, c) && turns(|c.heard|).Answered? {
      var turn, b := turns(|c.heard|), Calling(c, Wrote(fmt, wanted));
      JoinAdds(b.(reached := b.reached[fmt := true]), fmt, Offered(turn, wanted), turn.embed(Offered(turn, wanted)), false, plan.near);
    }
  }

  lemma {:induction false} ShareAdds(plan: Plan, turns: Turns, c: Core, fmt: nat, remaining: int, rounds: nat)
    requires Shaped(plan, c) && fmt < |plan.shares| && remaining >= 0 && Share(plan, turns, c, fmt, remaining, rounds).Going?
    ensures var d := Share(plan, turns, c, fmt, remaining, rounds).core;
      && |c.accepted| <= |d.accepted| <= |c.accepted| + remaining && d.left <= c.left && d.stems == c.stems
      && (Spent(plan, c) ==> d == c)
      && (rounds > 0 && remaining > 0 && !Spent(plan, c) ==> d.left < c.left)
    decreases rounds
  {
    hide Write;
    if !(rounds == 0 || remaining <= 0 || Spent(plan, c)) {
      WriteAdds(plan, turns, c, fmt, remaining);
      var d := Write(plan, turns, c, fmt, remaining).core;
      ShareAdds(plan, turns, d, fmt, remaining - (|d.accepted| - |c.accepted|), rounds - 1);
    }
  }

  // --------------------------------------------------------------------- pass one

  // The most pass one can write from a format on, with so many calls: a call at least for each
  // share there is.
  function WriteMost(shares: seq<nat>, fmt: nat, calls: int): (n: nat)
    requires fmt <= |shares|
    decreases |shares| - fmt
  {
    if fmt == |shares| then 0
    else if shares[fmt] == 0 then WriteMost(shares, fmt + 1, calls)
    else if calls <= 0 then 0
    else shares[fmt] + WriteMost(shares, fmt + 1, calls - 1)
  }

  lemma {:induction false} MoreCallsWriteMore(shares: seq<nat>, fmt: nat, a: int, b: int)
    requires fmt <= |shares| && a <= b
    ensures WriteMost(shares, fmt, a) <= WriteMost(shares, fmt, b)
    decreases |shares| - fmt
  {
    if fmt < |shares| {
      MoreCallsWriteMore(shares, fmt + 1, a, b);
      MoreCallsWriteMore(shares, fmt + 1, a - 1, b - 1);
    }
  }

  lemma {:induction false} WriteMostFits(shares: seq<nat>, fmt: nat, calls: int)
    requires fmt <= |shares|
    ensures WriteMost(shares, fmt, calls) <= Total(shares) - Total(shares[..fmt])
    decreases |shares| - fmt
  {
    if fmt < |shares| {
      TotalGrows(shares, fmt);
      WriteMostFits(shares, fmt + 1, calls);
      WriteMostFits(shares, fmt + 1, calls - 1);
    } else {
      assert shares[..fmt] == shares;
    }
  }

  // What pass one can write, given how many calls are left to it.
  function Writable(plan: Plan, fmt: nat, calls: int): nat
    requires fmt <= |plan.shares|
  {
    if plan.batches == 0 then 0 else WriteMost(plan.shares, fmt, calls)
  }

  lemma {:induction false} SharesAdd(plan: Plan, turns: Turns, c: Core, fmt: nat)
    requires Shaped(plan, c) && fmt <= |plan.shares| && Shares(plan, turns, c, fmt).Going?
    ensures var d := Shares(plan, turns, c, fmt).core;
      |c.accepted| <= |d.accepted| <= |c.accepted| + Writable(plan, fmt, c.left) && d.stems == c.stems
    decreases |plan.shares| - fmt
  {
    hide Share;
    if fmt < |plan.shares| {
      ShareAdds(plan, turns, c, fmt, plan.shares[fmt], plan.batches);
      var d := Share(plan, turns, c, fmt, plan.shares[fmt], plan.batches).core;
      SharesAdd(plan, turns, d, fmt + 1);
      MoreCallsWriteMore(plan.shares, fmt + 1, d.left, c.left);
      if d.left < c.left { MoreCallsWriteMore(plan.shares, fmt + 1, d.left, c.left - 1); }
      NothingWritten(plan.shares, fmt + 1, c.left);
    }
  }

  lemma {:induction false} NothingWritten(shares: seq<nat>, fmt: nat, calls: int)
    requires fmt <= |shares|
    ensures calls <= 0 ==> WriteMost(shares, fmt, calls) == 0
    decreases |shares| - fmt
  {
    if fmt < |shares| { NothingWritten(shares, fmt + 1, calls); }
  }

  // --------------------------------------------------------------------- pass zero

  // How many questions the book's batches from one on can fill of the room there is, in so many
  // calls, and how many calls that takes.
  datatype Supply = Supply(taken: nat, used: nat)

  function BookSupply(printed: seq<seq<BookQuestion>>, cursor: nat, room: nat, calls: int): (s: Supply)
    requires cursor <= |printed|
    ensures s.taken <= room
    decreases |printed| - cursor
  {
    if room == 0 || cursor == |printed| || calls <= 0 then Supply(0, 0)
    else if Usable(printed[cursor]) == [] then BookSupply(printed, cursor + 1, room, calls)
    else
      var most := Smaller(room, |Usable(printed[cursor])|);
      var rest := BookSupply(printed, cursor + 1, room - most, calls - 1);
      Supply(most + rest.taken, 1 + rest.used)
  }

  function Smaller(a: nat, b: nat): nat { if a < b then a else b }

  lemma {:induction false} SkipUnusable(printed: seq<seq<BookQuestion>>, cursor: nat, room: nat, calls: int)
    requires cursor <= |printed|
    ensures BookSupply(printed, cursor, room, calls) == BookSupply(printed, NextBatch(printed, cursor), room, calls)
    decreases |printed| - cursor
  {
    if cursor < |printed| && Usable(printed[cursor]) == [] { SkipUnusable(printed, cursor + 1, room, calls); }
  }

  // A batch with nothing usable is passed; any other gives what there is room for.
  lemma SupplyPasses(printed: seq<seq<BookQuestion>>, cursor: nat, room: nat, calls: int)
    requires cursor < |printed| && Usable(printed[cursor]) == []
    ensures BookSupply(printed, cursor, room, calls) == BookSupply(printed, cursor + 1, room, calls)
  {
    hide Usable;
  }

  lemma SupplyGives(printed: seq<seq<BookQuestion>>, cursor: nat, room: nat, calls: int, most: nat)
    requires cursor < |printed| && Usable(printed[cursor]) != [] && calls > 0 && room > 0
    requires most == Smaller(room, |Usable(printed[cursor])|)
    ensures var rest := BookSupply(printed, cursor + 1, room - most, calls - 1);
      BookSupply(printed, cursor, room, calls) == Supply(most + rest.taken, 1 + rest.used)
  {
    hide Usable;
  }

  lemma {:induction false} SupplyEnds(printed: seq<seq<BookQuestion>>, cursor: nat, room: nat, calls: int)
    requires cursor <= |printed| && (room == 0 || cursor == |printed| || calls <= 0)
    ensures BookSupply(printed, cursor, room, calls) == Supply(0, 0)
  {
  }

  // More room takes as much more at most, and no fewer calls.
  lemma {:induction false} RoomSupplies(printed: seq<seq<BookQuestion>>, cursor: nat, room: nat, more: nat, calls: int)
    requires cursor <= |printed|
    ensures var a, b := BookSupply(printed, cursor, room, calls), BookSupply(printed, cursor, room + more, calls);
      a.taken <= b.taken <= a.taken + more && a.used <= b.used
    decreases |printed| - cursor
  {
    hide BookSupply, Usable;
    if room + more == 0 || cursor == |printed| || calls <= 0 {
      SupplyEnds(printed, cursor, room, calls);
      SupplyEnds(printed, cursor, room + more, calls);
    } else if Usable(printed[cursor]) == [] {
      SupplyPasses(printed, cursor, room, calls);
      SupplyPasses(printed, cursor, room + more, calls);
      RoomSupplies(printed, cursor + 1, room, more, calls);
    } else {
      var n := |Usable(printed[cursor])|;
      var a, b := Smaller(room, n), Smaller(room + more, n);
      SupplyGives(printed, cursor, room + more, calls, b);
      RoomSupplies(printed, cursor + 1, room - a, (room + more - b) - (room - a), calls - 1);
      if room > 0 {
        SupplyGives(printed, cursor, room, calls, a);
      } else {
        SupplyEnds(printed, cursor, 0, calls);
        SupplyEnds(printed, cursor + 1, 0, calls - 1);
      }
    }
  }

  ghost predicate OnceEach(turns: Turns) { forall k: nat :: turns(k).Answered? ==> NumbersOnce(turns(k).answers) }

  lemma HearAdds(plan: Plan, turns: Turns, c: Core, fmt: nat, asked: seq<string>)
    requires Shaped(plan, c) && fmt < |plan.shares| && Hear(plan, c, fmt, asked, turns(|c.heard|)).Going?
    ensures var d := Hear(plan, c, fmt, asked, turns(|c.heard|)).core;
      && |c.accepted| <= |d.accepted| && (OnceEach(turns) ==> |d.accepted| <= |c.accepted| + |asked|)
      && d.left == c.left - 1 && d.cursor == c.cursor
      && c.accepted <= d.accepted && c.stems <= d.stems
      && (forall k :: |c.accepted| <= k < |d.accepted| ==> d.accepted[k].stem in d.stems && d.accepted[k].stem in asked)
  {
    hide Join, AnyMisfit, NumbersOnce;
    var turn := turns(|c.heard|);
    if turn.Answered? {
      var found := Answering(turn.answers, asked);
      JoinAdds(Calling(c, Harvested(fmt, asked)), fmt, found, turn.embed(found), true, plan.near);
      if OnceEach(turns) { HarvestNeverOverruns(turn.answers, asked); }
      JoinKeepsStems(Calling(c, Harvested(fmt, asked)), fmt, found, turn.embed(found), plan.near);
    }
  }

  lemma JoinKeepsStems(c: Core, fmt: nat, found: seq<string>, vectors: Option<seq<Vector>>, near: (Vector, Vector) -> bool)
    requires fmt < |c.produced| && Join(c, fmt, found, vectors, true, near).Going?
    ensures c.stems <= Join(c, fmt, found, vectors, true, near).core.stems
  {
    hide TakenOf, KeepFlags, KeptNow, StemsOf;
  }

  // What the rest of a run can still come to, from a place in pass zero.
  function Reach(plan: Plan, c: Core): int
    requires c.cursor <= |plan.printed|
  {
    var room := if |c.accepted| < plan.share then plan.share - |c.accepted| else 0;
    var s := BookSupply(plan.printed, c.cursor, room, c.left);
    |c.accepted| + s.taken + Writable(plan, 0, c.left - s.used)
  }

  // Taking less from a batch than it could give gains nothing later.
  lemma TakingLess(plan: Plan, n: nat, room: nat, got: nat, left: int)
    requires n < |plan.printed| && Usable(plan.printed[n]) != [] && room > 0 && left > 0
    requires got <= Smaller(room, |Usable(plan.printed[n])|)
    ensures var s, t := BookSupply(plan.printed, n, room, left), BookSupply(plan.printed, n + 1, room - got, left - 1);
      got + t.taken + Writable(plan, 0, left - 1 - t.used) <= s.taken + Writable(plan, 0, left - s.used)
  {
    hide Usable, WriteMost, BookSupply;
    var most := Smaller(room, |Usable(plan.printed[n])|);
    SupplyGives(plan.printed, n, room, left, most);
    RoomSupplies(plan.printed, n + 1, room - most, most - got, left - 1);
    var s, t := BookSupply(plan.printed, n + 1, room - most, left - 1), BookSupply(plan.printed, n + 1, room - got, left - 1);
    MoreCallsWriteMore(plan.shares, 0, left - 1 - t.used, left - 1 - s.used);
  }

  lemma TakeBookReach(plan: Plan, turns: Turns, c: Core, fmt: nat)
    requires Shaped(plan, c) && fmt < |plan.shares| && c.cursor < |plan.printed| && |c.accepted| < plan.share && c.left > 0
    requires OnceEach(turns) && TakeBook(plan, turns, c, fmt, plan.share - |c.accepted|).Going?
    ensures var d := TakeBook(plan, turns, c, fmt, plan.share - |c.accepted|).core;
      Reach(plan, d) <= Reach(plan, c) && |d.accepted| <= plan.share
  {
    hide Hear, Usable, OnceEach, Writable, BookSupply;
    var room := plan.share - |c.accepted|;
    var n := NextBatch(plan.printed, c.cursor);
    SkipUnusable(plan.printed, c.cursor, room, c.left);
    if n < |plan.printed| {
      var asked, b := FirstOf(Usable(plan.printed[n]), room), c.(cursor := n + 1);
      HearAdds(plan, turns, b, fmt, asked);
      var d := Hear(plan, b, fmt, asked, turns(|c.heard|)).core;
      TakingLess(plan, n, room, |d.accepted| - |c.accepted|, c.left);
    }
  }

  lemma {:induction false} HarvestReach(plan: Plan, turns: Turns, c: Core, position: nat)
    requires Shaped(plan, c) && c.cursor <= |plan.printed| && plan.shares != [] && |c.accepted| <= plan.share
    requires OnceEach(turns) && Harvest(plan, turns, c, position).Going?
    ensures var d := Harvest(plan, turns, c, position).core;
      |d.accepted| + Writable(plan, 0, d.left) <= Reach(plan, c) && |d.accepted| <= plan.share
    decreases |plan.printed| - c.cursor
  {
    hide TakeBook, OnceEach, WriteMost;
    if !(|c.accepted| >= plan.share || c.cursor == |plan.printed| || c.left <= 0) {
      TakeBookReach(plan, turns, c, position % |plan.shares|);
      HarvestReach(plan, turns, TakeBook(plan, turns, c, position % |plan.shares|, plan.share - |c.accepted|).core, position + 1);
    }
  }

  // The most a run can have taken when pass one ends, each harvesting reply answering a number
  // once.
  function Most(plan: Plan, limit: int): nat {
    var s := BookSupply(plan.printed, 0, plan.share, limit);
    s.taken + Writable(plan, 0, limit - s.used)
  }

  lemma AfterSharesReach(plan: Plan, turns: Turns, limit: int)
    requires Sensible(plan) && OnceEach(turns) && AfterShares(plan, turns, limit).Going?
    ensures |AfterShares(plan, turns, limit).core.accepted| <= Most(plan, limit)
    ensures |AfterBook(plan, turns, limit).core.accepted| <= plan.share
  {
    hide OnceEach, Harvest, Shares, WriteMost;
    if plan.share > 0 {
      SharesExist(plan);
      HarvestReach(plan, turns, Start(plan, limit), 0);
    }
    SharesAdd(plan, turns, AfterBook(plan, turns, limit).core, 0);
  }

  // --------------------------------------------------------------------- pass two

  lemma {:induction false} SweepAdds(plan: Plan, turns: Turns, c: Core, order: seq<nat>, k: nat)
    requires Shaped(plan, c) && InPlan(plan, order) && k <= |order| && Sweep(plan, turns, c, order, k).Going?
    ensures var d := Sweep(plan, turns, c, order, k).core;
      && |c.accepted| <= |d.accepted| && (|c.accepted| <= Target(plan) ==> |d.accepted| <= Target(plan)) && d.stems == c.stems
      && (forall f: nat :: f < |plan.shares| && f !in order ==> d.produced[f] == c.produced[f])
    decreases |order| - k
  {
    hide Write, Target;
    if !(k == |order| || |c.accepted| >= Target(plan) || Spent(plan, c)) {
      WriteAdds(plan, turns, c, order[k], Target(plan) - |c.accepted|);
      SweepAdds(plan, turns, Write(plan, turns, c, order[k], Target(plan) - |c.accepted|).core, order, k + 1);
    }
  }

  // Every format that has worked is in the order.
  predicate Covers(plan: Plan, c: Core, order: seq<nat>)
    requires Shaped(plan, c)
  {
    forall f :: 0 <= f < |plan.shares| && c.produced[f] > 0 ==> f in order
  }

  lemma NothingTaken(plan: Plan, c: Core, order: seq<nat>)
    requires Shaped(plan, c) && InPlan(plan, order) && Covers(plan, c, order) && NoneWorks(plan, c, order)
    ensures Total(c.produced) == 0
  {
    forall f | 0 <= f < |c.produced| ensures c.produced[f] == 0 {
      if f in order {
        var k :| 0 <= k < |order| && order[k] == f;
      }
    }
    TotalZero(c.produced);
  }

  lemma {:induction false} BackfillEnds(plan: Plan, turns: Turns, c: Core, order: seq<nat>)
    requires Shaped(plan, c) && InPlan(plan, order) && Covers(plan, c, order) && |c.accepted| == Total(c.produced)
    requires Backfill(plan, turns, c, order).Going?
    ensures var d := Backfill(plan, turns, c, order).core;
      && |c.accepted| <= |d.accepted| && (|d.accepted| <= Target(plan) || d == c) && d.stems == c.stems
      && (|d.accepted| >= Target(plan) || Spent(plan, d) || d.accepted == [])
    decreases c.left
  {
    hide Sweep, Target, StillWorth, NoneWorks, Total, Leads, Covers;
    if |c.accepted| >= Target(plan) || order == [] || Spent(plan, c) {
      if order == [] { Nothing(plan, c, order); }
    } else {
      SweepSpends(plan, turns, c, order, 0);
      SweepAdds(plan, turns, c, order, 0);
      SweepLeads(plan, turns, c, order, 0);
      var d := Sweep(plan, turns, c, order, 0).core;
      var next := StillWorth(plan, d, order);
      Balanced(turns, c, d);
      StillCovers(plan, c, d, order);
      if |d.accepted| == |c.accepted| && NoneWorks(plan, d, next) {
        Nothing(plan, d, next);
      } else {
        BackfillEnds(plan, turns, d, next);
      }
    }
  }

  lemma Nothing(plan: Plan, c: Core, order: seq<nat>)
    requires Shaped(plan, c) && InPlan(plan, order) && Covers(plan, c, order) && |c.accepted| == Total(c.produced)
    ensures order == [] || NoneWorks(plan, c, order) ==> c.accepted == []
  {
    if order == [] || NoneWorks(plan, c, order) { NothingTaken(plan, c, order); }
  }

  lemma Balanced(turns: Turns, c: Core, d: Core)
    requires Leads(turns, c, Going(d)) && |c.accepted| == Total(c.produced)
    ensures |d.accepted| == Total(d.produced)
  {
  }

  lemma {:induction false} StillCovers(plan: Plan, c: Core, d: Core, order: seq<nat>)
    requires Shaped(plan, c) && Shaped(plan, d) && InPlan(plan, order) && Covers(plan, c, order)
    requires forall f: nat :: f < |plan.shares| && f !in order ==> d.produced[f] == c.produced[f]
    ensures Covers(plan, d, StillWorth(plan, d, order))
  {
  }

  lemma RetryCovers(plan: Plan, c: Core)
    requires Shaped(plan, c)
    ensures Covers(plan, c, RetryOrder(plan, c))
  {
  }
}
