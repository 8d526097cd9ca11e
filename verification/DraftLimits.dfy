/** The results about whole drafting runs: when one is broken, what it ends with, and exactly which
    plans hold every run to the paper's size. */
module DraftLimits {
  import opened Wrappers
  import opened Generation
  import opened Drafts
  import opened DraftFacts
  import opened DraftBounds

  // ---------------------------------------------------------------------- how it ends

  lemma {:induction false} HarvestStems(plan: Plan, turns: Turns, c: Core, position: nat)
    requires Shaped(plan, c) && c.cursor <= |plan.printed| && plan.shares != [] && Harvest(plan, turns, c, position).Going?
    requires forall k :: 0 <= k < |c.accepted| ==> c.accepted[k].stem in c.stems
    ensures var d := Harvest(plan, turns, c, position).core;
      forall k :: 0 <= k < |d.accepted| ==> d.accepted[k].stem in d.stems
    decreases |plan.printed| - c.cursor
  {
    hide Hear, Usable;
    if !(|c.accepted| >= plan.share || c.cursor == |plan.printed| || c.left <= 0) {
      var n := NextBatch(plan.printed, c.cursor);
      var fmt := position % |plan.shares|;
      if n < |plan.printed| {
        HearAdds(plan, turns, c.(cursor := n + 1), fmt, FirstOf(Usable(plan.printed[n]), plan.share - |c.accepted|));
      }
      HarvestStems(plan, turns, TakeBook(plan, turns, c, fmt, plan.share - |c.accepted|).core, position + 1);
    }
  }

  /** A run that is not broken ends with the paper full, or no call it could make, or nothing at
      all; and what it has starts with what it took from the book, whose stems are recorded. */
  lemma RunEnds(plan: Plan, turns: Turns, limit: int)
    requires Sensible(plan) && Run(plan, turns, limit).Going?
    ensures var d, book := Run(plan, turns, limit).core, AfterBook(plan, turns, limit);
      && (|d.accepted| >= Target(plan) || Spent(plan, d) || d.accepted == [])
      && book.Going? && book.core.accepted <= d.accepted
      && (forall k :: 0 <= k < |book.core.accepted| ==> d.accepted[k].stem in d.stems)
      && |d.accepted| <= |book.core.accepted| + Target(plan)
      && (OnceEach(turns) ==> |book.core.accepted| <= plan.share)
      && |d.accepted| == Total(d.produced)
  {
    hide Harvest, Shares, Backfill, RetryOrder, Leads, Total, OnceEach, Writable;
    var book, shared := AfterBook(plan, turns, limit), AfterShares(plan, turns, limit);
    if plan.share > 0 {
      SharesExist(plan);
      HarvestStems(plan, turns, Start(plan, limit), 0);
    }
    if OnceEach(turns) { AfterSharesReach(plan, turns, limit); }
    SharesAdd(plan, turns, book.core, 0);
    WritableFits(plan, book.core.left);
    AfterSharesLead(plan, turns, limit);
    StartBalanced(plan, limit);
    Balanced(turns, Start(plan, limit), shared.core);
    RetryCovers(plan, shared.core);
    BackfillEnds(plan, turns, shared.core, RetryOrder(plan, shared.core));
    SharesKeep(plan, turns, limit);
    RunKeeps(plan, turns, limit);
  }

  lemma WritableFits(plan: Plan, calls: int)
    ensures Writable(plan, 0, calls) <= Target(plan)
  {
    WriteMostFits(plan.shares, 0, calls);
    assert plan.shares[..0] == [];
  }

  lemma StartBalanced(plan: Plan, limit: int)
    ensures |Start(plan, limit).accepted| == Total(Start(plan, limit).produced)
  {
    TotalZero(Start(plan, limit).produced);
  }

  lemma SharesKeep(plan: Plan, turns: Turns, limit: int)
    requires Sensible(plan) && AfterShares(plan, turns, limit).Going?
    ensures AfterBook(plan, turns, limit).core.accepted <= AfterShares(plan, turns, limit).core.accepted
  {
    hide Shares, AfterBook, Breaks, Total;
    SharesLead(plan, turns, AfterBook(plan, turns, limit).core, 0);
  }

  lemma RunKeeps(plan: Plan, turns: Turns, limit: int)
    requires Sensible(plan) && Run(plan, turns, limit).Going?
    ensures AfterShares(plan, turns, limit).core.accepted <= Run(plan, turns, limit).core.accepted
    ensures var c, d := AfterShares(plan, turns, limit).core, Run(plan, turns, limit).core;
      |c.accepted| == Total(c.produced) ==> |d.accepted| == Total(d.produced)
  {
    hide Backfill, AfterShares, Breaks, Total, RetryOrder;
    var c := AfterShares(plan, turns, limit).core;
    BackfillLeads(plan, turns, c, RetryOrder(plan, c));
  }

  /** One reply ends a run: an answer numbered 1 whose fields are of the wrong kind. Any run that
      would take from the book, on getting it to its first call, is over. */
  lemma MisfitEndsRun(plan: Plan, turns: Turns, limit: int, fault: Option<string>)
    requires Sensible(plan) && plan.share > 0 && limit > 0 && NextBatch(plan.printed, 0) < |plan.printed|
    requires turns(0).Answered? && turns(0).answers == [Settling(1, true, false, fault)]
    ensures Run(plan, turns, limit).Broken? && |Run(plan, turns, limit).heard| == 1
  {
    hide Usable, Shares, Backfill, Join;
    SharesExist(plan);
    var n := NextBatch(plan.printed, 0);
    var asked := FirstOf(Usable(plan.printed[n]), plan.share);
    assert Misfit(turns(0).answers[0], |asked|);
  }

  /** Another does: the embedder sends two vectors or more for the first questions written, and one
      of them is not a list of numbers. */
  lemma UnreadableEndsRun(plan: Plan, turns: Turns, limit: int, vectors: seq<Vector>)
    requires Sensible(plan) && plan.share == 0 && plan.shares != [] && plan.shares[0] > 0 && plan.batches > 0 && limit > 0
    requires turns(0).Answered? && Offered(turns(0), plan.shares[0]) != []
    requires turns(0).embed(Offered(turns(0), plan.shares[0])) == Some(vectors) && |vectors| >= 2 && !AllNumbers(vectors)
    ensures Run(plan, turns, limit).Broken? && |Run(plan, turns, limit).heard| == 1
  {
    hide Offered, Stumbles, Backfill, AllNumbers, Breaks;
    assert Fits([], []);
    assert [] + vectors == vectors;
    StumblesIff([], [], vectors, plan.near);
  }

  // ------------------------------------------------------------- a generous model

  function Sound(n: nat): (r: seq<Item>)
    ensures |r| == n && forall k :: 0 <= k < n ==> r[k].fault.None?
  {
    seq(n, _ => Item("", None))
  }

  function Numbered(n: nat): (r: seq<Settling>)
    ensures |r| == n && forall k :: 0 <= k < n ==> r[k] == Settling(k + 1, true, true, None)
  {
    seq(n, k requires 0 <= k < n => Settling(k + 1, true, true, None))
  }

  function NoEmbedder(): seq<string> -> Option<seq<Vector>> { stems => None }

  // Every call answered with n sound items and n answers, and no embedder to tell them apart.
  function Generous(n: nat): Turns { k => Answered(0, Sound(n), Numbered(n), NoEmbedder()) }

  lemma {:induction false} AllFresh(items: seq<Item>, room: nat)
    requires forall k :: 0 <= k < |items| ==> items[k].fault.None?
    ensures |Fresh(items, room)| == Smaller(room, |items|)
  {
    if items != [] && room > 0 { AllFresh(items[1..], room - 1); }
  }

  lemma {:induction false} AllStand(n: nat, count: nat)
    ensures StandingCount(Numbered(n), count) == Smaller(n, count)
    ensures !AnyMisfit(Numbered(n), count)
  {
    if n > 0 {
      AllStand(n - 1, count);
      assert Numbered(n)[..n - 1] == Numbered(n - 1);
    }
  }

  lemma GenerousIsOnce(n: nat)
    ensures OnceEach(Generous(n))
  {
  }

  // A generous model gives a call just what it asked for.
  lemma WriteGets(plan: Plan, n: nat, c: Core, fmt: nat, wanted: nat)
    requires Shaped(plan, c) && fmt < |plan.shares| && wanted <= n && !Spent(plan, c)
    ensures var p := Write(plan, Generous(n), c, fmt, wanted);
      && p.Going? && |p.core.accepted| == |c.accepted| + wanted && p.core.left == c.left - 1
      && p.core.produced == c.produced[fmt := c.produced[fmt] + wanted]
  {
    hide Join, Fresh;
    var turn, b := Generous(n)(|c.heard|), Calling(c, Wrote(fmt, wanted));
    AllFresh(Inspected(turn.items, wanted), wanted);
    var found := Offered(turn, wanted);
    NeverMiscounted(b.(reached := b.reached[fmt := true]), fmt, found, false, plan.near);
  }

  lemma NeverMiscounted(c: Core, fmt: nat, found: seq<string>, book: bool, near: (Vector, Vector) -> bool)
    requires fmt < |c.produced|
    ensures Join(c, fmt, found, None, book, near).Going?
    ensures var d := Join(c, fmt, found, None, book, near).core;
      && |d.accepted| == |c.accepted| + |found| && d.left == c.left && d.cursor == c.cursor
      && d.produced == c.produced[fmt := c.produced[fmt] + |found|]
  {
    JoinAdds(c, fmt, found, None, book, near);
  }

  lemma {:induction false} ShareGets(plan: Plan, n: nat, c: Core, fmt: nat)
    requires Shaped(plan, c) && fmt < |plan.shares| && plan.shares[fmt] <= n
    ensures var p := Share(plan, Generous(n), c, fmt, plan.shares[fmt], plan.batches);
      && p.Going?
      && (plan.shares[fmt] == 0 || Spent(plan, c) ==> p.core == c)
      && (plan.shares[fmt] > 0 && !Spent(plan, c) ==> |p.core.accepted| == |c.accepted| + plan.shares[fmt] && p.core.left == c.left - 1)
      && (plan.shares[fmt] > 0 && !Spent(plan, c) ==> p.core.produced == c.produced[fmt := c.produced[fmt] + plan.shares[fmt]])
  {
    hide Write, Generous;
    if plan.shares[fmt] > 0 && !Spent(plan, c) {
      WriteGets(plan, n, c, fmt, plan.shares[fmt]);
      var p := Write(plan, Generous(n), c, fmt, plan.shares[fmt]);
      assert Share(plan, Generous(n), p.core, fmt, 0, plan.batches - 1) == Going(p.core);
    }
  }

  lemma {:induction false} SharesGet(plan: Plan, n: nat, c: Core, fmt: nat)
    requires Shaped(plan, c) && fmt <= |plan.shares| && forall k :: 0 <= k < |plan.shares| ==> plan.shares[k] <= n
    ensures var p := Shares(plan, Generous(n), c, fmt);
      p.Going? && |p.core.accepted| == |c.accepted| + Writable(plan, fmt, c.left)
    decreases |plan.shares| - fmt
  {
    hide Share, Generous;
    if fmt < |plan.shares| {
      ShareGets(plan, n, c, fmt);
      SharesGet(plan, n, Share(plan, Generous(n), c, fmt, plan.shares[fmt], plan.batches).core, fmt + 1);
      NothingWritten(plan.shares, fmt, c.left);
      NothingWritten(plan.shares, fmt + 1, c.left);
    }
  }

  lemma {:induction false} SharesProduce(plan: Plan, n: nat, c: Core, fmt: nat)
    requires Shaped(plan, c) && fmt <= |plan.shares| && (forall k :: 0 <= k < |plan.shares| ==> plan.shares[k] <= n)
    requires plan.batches > 0 && c.left >= |plan.shares| - fmt
    ensures var p := Shares(plan, Generous(n), c, fmt);
      p.Going? && forall f :: 0 <= f < |plan.shares| ==> p.core.produced[f] == c.produced[f] + if f < fmt then 0 else plan.shares[f]
    decreases |plan.shares| - fmt
  {
    hide Share, Generous;
    if fmt < |plan.shares| {
      ShareGets(plan, n, c, fmt);
      SharesProduce(plan, n, Share(plan, Generous(n), c, fmt, plan.shares[fmt], plan.batches).core, fmt + 1);
    }
  }

  /** Given all it asks for, a plan that takes nothing from the book, with passages to write from and a
      call for each format, ends with just the plan's share of each format. */
  lemma EachFormatItsShare(plan: Plan, limit: int)
    requires plan.share == 0 && plan.batches > 0 && limit >= |plan.shares|
    ensures var p := Run(plan, Generous(Target(plan)), limit);
      p.Going? && p.core.produced == plan.shares && |p.core.accepted| == Target(plan)
  {
    hide Shares, Backfill, Generous, RetryOrder;
    var n, start := Target(plan), Start(plan, limit);
    forall k | 0 <= k < |plan.shares| ensures plan.shares[k] <= n { PartOfTotal(plan.shares, k); }
    SharesProduce(plan, n, start, 0);
    var p := Shares(plan, Generous(n), start, 0);
    assert p.core.produced == plan.shares;
    AfterSharesLead(plan, Generous(n), limit);
    StartBalanced(plan, limit);
    Balanced(Generous(n), start, p.core);
    FullEnds(plan, Generous(n), p.core, RetryOrder(plan, p.core));
  }

  lemma {:induction false} FullEnds(plan: Plan, turns: Turns, c: Core, order: seq<nat>)
    requires Shaped(plan, c) && InPlan(plan, order) && |c.accepted| >= Target(plan)
    ensures Backfill(plan, turns, c, order) == Going(c)
  {
  }

  lemma HearGets(plan: Plan, n: nat, c: Core, fmt: nat, asked: seq<string>)
    requires Shaped(plan, c) && fmt < |plan.shares| && |asked| <= n
    ensures var p := Hear(plan, c, fmt, asked, Generous(n)(|c.heard|));
      p.Going? && |p.core.accepted| == |c.accepted| + |asked| && p.core.left == c.left - 1 && p.core.cursor == c.cursor
  {
    hide Join, AnyMisfit, StandingCount;
    AllStand(n, |asked|);
    AnsweringCount(Numbered(n), asked);
    NeverMiscounted(Calling(c, Harvested(fmt, asked)), fmt, Answering(Numbered(n), asked), true, plan.near);
  }

  // One harvesting call of a generous model, or the end of the batches.
  lemma TakeGets(plan: Plan, n: nat, c: Core, fmt: nat)
    requires Shaped(plan, c) && c.cursor < |plan.printed| && fmt < |plan.shares| && |c.accepted| < plan.share <= n && c.left > 0
    ensures var p, room, s := TakeBook(plan, Generous(n), c, fmt, plan.share - |c.accepted|), plan.share - |c.accepted|,
                              BookSupply(plan.printed, c.cursor, plan.share - |c.accepted|, c.left);
      && p.Going? && |c.accepted| <= |p.core.accepted| <= plan.share
      && var t := BookSupply(plan.printed, p.core.cursor, plan.share - |p.core.accepted|, p.core.left);
         |p.core.accepted| + t.taken == |c.accepted| + s.taken && p.core.left - t.used == c.left - s.used
  {
    hide Hear, Generous, Usable, BookSupply, NextBatch;
    var room, b := plan.share - |c.accepted|, NextBatch(plan.printed, c.cursor);
    SkipUnusable(plan.printed, c.cursor, room, c.left);
    if b < |plan.printed| {
      SupplyGives(plan.printed, b, room, c.left, Smaller(room, |Usable(plan.printed[b])|));
      HearGets(plan, n, c.(cursor := b + 1), fmt, FirstOf(Usable(plan.printed[b]), room));
    } else {
      SupplyEnds(plan.printed, b, room, c.left);
    }
  }

  lemma {:induction false} HarvestGets(plan: Plan, n: nat, c: Core, position: nat)
    requires Shaped(plan, c) && c.cursor <= |plan.printed| && plan.shares != [] && |c.accepted| <= plan.share <= n
    ensures var p, s := Harvest(plan, Generous(n), c, position), BookSupply(plan.printed, c.cursor, plan.share - |c.accepted|, c.left);
      p.Going? && |p.core.accepted| == |c.accepted| + s.taken && p.core.left == c.left - s.used
    decreases |plan.printed| - c.cursor
  {
    hide TakeBook, Generous, Usable;
    if |c.accepted| >= plan.share || c.cursor == |plan.printed| || c.left <= 0 {
    } else {
      hide BookSupply;
      TakeGets(plan, n, c, position % |plan.shares|);
      HarvestGets(plan, n, TakeBook(plan, Generous(n), c, position % |plan.shares|, plan.share - |c.accepted|).core, position + 1);
    }
  }

  /** The most is reached: a model that gives every call what it asked for, with the embedder
      down, takes just that much before the backfill. */
  lemma MostIsReached(plan: Plan, limit: int)
    requires Sensible(plan)
    ensures var p := AfterShares(plan, Generous(Target(plan)), limit);
      p.Going? && |p.core.accepted| == Most(plan, limit)
  {
    hide Harvest, Shares, Generous, Writable;
    var n := Target(plan);
    forall k | 0 <= k < |plan.shares| ensures plan.shares[k] <= n { PartOfTotal(plan.shares, k); }
    if plan.share > 0 {
      SharesExist(plan);
      HarvestGets(plan, n, Start(plan, limit), 0);
    }
    SharesGet(plan, n, AfterBook(plan, Generous(n), limit).core, 0);
  }

  lemma {:induction false} PartOfTotal(counts: seq<nat>, k: nat)
    requires k < |counts|
    ensures counts[k] <= Total(counts)
  {
    if k < |counts| - 1 { PartOfTotal(counts[..|counts| - 1], k); }
  }

  // ----------------------------------------------------------- staying within the paper

  // The run, if it goes through, takes no more questions than the paper has places.
  predicate StaysWithin(plan: Plan, turns: Turns, limit: int)
    requires Sensible(plan)
  {
    Run(plan, turns, limit).Going? ==> |Run(plan, turns, limit).core.accepted| <= Target(plan)
  }

  // What is over the paper's size after pass one is kept; what is not is not taken past it.
  lemma BackfillSettles(plan: Plan, turns: Turns, limit: int)
    requires Sensible(plan) && AfterShares(plan, turns, limit).Going?
    ensures var c := AfterShares(plan, turns, limit).core;
      if |c.accepted| > Target(plan) then Run(plan, turns, limit) == Going(c) else StaysWithin(plan, turns, limit)
  {
    hide AfterShares, Sweep, RetryOrder, Target, StillWorth, NoneWorks;
    var c := AfterShares(plan, turns, limit).core;
    if |c.accepted| <= Target(plan) { BackfillFits(plan, turns, c, RetryOrder(plan, c)); }
  }

  lemma {:induction false} BackfillFits(plan: Plan, turns: Turns, c: Core, order: seq<nat>)
    requires Shaped(plan, c) && InPlan(plan, order) && |c.accepted| <= Target(plan)
    ensures Backfill(plan, turns, c, order).Going? ==> |Backfill(plan, turns, c, order).core.accepted| <= Target(plan)
    decreases c.left
  {
    hide Sweep, Target, StillWorth, NoneWorks;
    if !(|c.accepted| >= Target(plan) || order == [] || Spent(plan, c)) {
      var p := Sweep(plan, turns, c, order, 0);
      SweepSpends(plan, turns, c, order, 0);
      if p.Going? {
        SweepAdds(plan, turns, c, order, 0);
        BackfillFits(plan, turns, p.core, StillWorth(plan, p.core, order));
      }
    }
  }

  /** Of the runs whose harvesting replies answer a number once, none takes more than the paper
      has places, whatever the replies, exactly when the plan's most fits: what the book can
      supply within its share, and what pass one can write with the calls that leaves. */
  lemma FitsIff(plan: Plan, limit: int)
    requires Sensible(plan)
    ensures (forall turns: Turns | OnceEach(turns) :: StaysWithin(plan, turns, limit)) <==> Most(plan, limit) <= Target(plan)
  {
    hide OnceEach, StaysWithin, AfterShares, Most, Target, Generous;
    if Most(plan, limit) <= Target(plan) {
      forall turns: Turns | OnceEach(turns) ensures StaysWithin(plan, turns, limit) {
        FitsThen(plan, turns, limit);
      }
    } else {
      GenerousIsOnce(Target(plan));
      RunReachesMost(plan, limit);
      assert !StaysWithin(plan, Generous(Target(plan)), limit) by { Overruns(plan, limit); }
    }
  }

  lemma FitsThen(plan: Plan, turns: Turns, limit: int)
    requires Sensible(plan) && OnceEach(turns) && Most(plan, limit) <= Target(plan)
    ensures StaysWithin(plan, turns, limit)
  {
    hide OnceEach, AfterShares, Most, Target, Backfill;
    if AfterShares(plan, turns, limit).Going? {
      AfterSharesReach(plan, turns, limit);
      BackfillSettles(plan, turns, limit);
    }
  }

  /** A most past the paper's size is what a whole run ends with: given all it asks for, it keeps
      every one of those questions and writes no more. */
  lemma RunReachesMost(plan: Plan, limit: int)
    requires Sensible(plan) && Most(plan, limit) > Target(plan)
    ensures var p := Run(plan, Generous(Target(plan)), limit);
      p.Going? && |p.core.accepted| == Most(plan, limit)
  {
    hide AfterShares, Most, Target, Backfill, Generous;
    MostIsReached(plan, limit);
    BackfillSettles(plan, Generous(Target(plan)), limit);
  }

  lemma Overruns(plan: Plan, limit: int)
    requires Sensible(plan) && Run(plan, Generous(Target(plan)), limit).Going?
    requires |Run(plan, Generous(Target(plan)), limit).core.accepted| > Target(plan)
    ensures !StaysWithin(plan, Generous(Target(plan)), limit)
  {
  }

  /** A paper of one format, which is what the planner makes: it fits in every such run exactly when
      nothing comes from the book, or there are no passages to write from, or the book's calls are
      all there are. Otherwise a run ends with the book's questions and a whole paper besides. */
  lemma {:induction false} OneFormatFitsIff(plan: Plan, limit: int)
    requires Sensible(plan) && |plan.shares| == 1
    ensures var s := BookSupply(plan.printed, 0, plan.share, limit);
      && (Most(plan, limit) <= Target(plan) <==> s.taken == 0 || plan.batches == 0 || limit <= s.used)
      && (s.taken > 0 && plan.batches > 0 && limit > s.used ==> Most(plan, limit) == s.taken + Target(plan))
  {
    var s := BookSupply(plan.printed, 0, plan.share, limit);
    assert plan.shares[..1] == plan.shares && plan.shares[..0] == [];
    TotalGrows(plan.shares, 0);
    assert Target(plan) == plan.shares[0];
    assert WriteMost(plan.shares, 1, limit - s.used - 1) == 0 && WriteMost(plan.shares, 1, limit - s.used) == 0;
  }

  // The book has something to give, the plan takes some, and a call can be made for it.
  predicate TakesFromBook(plan: Plan, limit: int) {
    plan.share > 0 && limit > 0 && NextBatch(plan.printed, 0) < |plan.printed|
  }

  // A first reply that answers question 1 over and over, with the embedder down.
  function Repeating(n: nat): (t: Turn) { Answered(0, [], seq(n, _ => Settling(1, true, true, None)), NoEmbedder()) }

  function Repeats(n: nat): Turns { k => Repeating(n) }

  lemma {:induction false} RepeatsStand(n: nat, count: nat)
    requires count > 0
    ensures StandingCount(Repeating(n).answers, count) == n && !AnyMisfit(Repeating(n).answers, count)
  {
    if n > 0 {
      RepeatsStand(n - 1, count);
      assert Repeating(n).answers[..n - 1] == Repeating(n - 1).answers;
    }
  }

  // One harvesting call with the embedder down takes every answer that stands.
  lemma {:induction false} HearTakesStanding(plan: Plan, c: Core, fmt: nat, asked: seq<string>, turn: Turn)
    requires Shaped(plan, c) && fmt < |plan.shares| && turn.Answered? && !AnyMisfit(turn.answers, |asked|)
    requires turn.embed(Answering(turn.answers, asked)) == None
    ensures var p := Hear(plan, c, fmt, asked, turn);
      p.Going? && |p.core.accepted| == |c.accepted| + StandingCount(turn.answers, |asked|)
  {
    hide Join, AnyMisfit;
    AnsweringCount(turn.answers, asked);
    NeverMiscounted(Calling(c, Harvested(fmt, asked)), fmt, Answering(turn.answers, asked), true, plan.near);
  }

  /** With the embedder down a harvesting call takes more questions than it asked exactly when more
      answers stand than were asked. */
  lemma {:induction false} CallOverrunsIff(plan: Plan, c: Core, fmt: nat, asked: seq<string>, turn: Turn)
    requires Shaped(plan, c) && fmt < |plan.shares| && turn.Answered? && !AnyMisfit(turn.answers, |asked|)
    requires turn.embed(Answering(turn.answers, asked)) == None
    ensures Hear(plan, c, fmt, asked, turn).Going?
    ensures |Hear(plan, c, fmt, asked, turn).core.accepted| > |c.accepted| + |asked| <==> StandingCount(turn.answers, |asked|) > |asked|
  {
    hide Hear;
    HearTakesStanding(plan, c, fmt, asked, turn);
  }

  /** Over all replies, those that repeat numbers included, every run stays within the paper exactly
      when the plan takes nothing from the book. */
  lemma AlwaysFitsIff(plan: Plan, limit: int)
    requires Sensible(plan)
    ensures (forall turns: Turns :: StaysWithin(plan, turns, limit)) <==> !TakesFromBook(plan, limit)
  {
    hide StaysWithin, TakesFromBook, Repeating;
    if TakesFromBook(plan, limit) {
      RepeatsOverrun(plan, limit);
      assert !StaysWithin(plan, Repeats(Target(plan) + 1), limit);
    } else {
      forall turns: Turns ensures StaysWithin(plan, turns, limit) { NothingFromBook(plan, turns, limit); }
    }
  }

  lemma NothingFromBook(plan: Plan, turns: Turns, limit: int)
    requires Sensible(plan) && !TakesFromBook(plan, limit)
    ensures StaysWithin(plan, turns, limit)
  {
    hide Backfill, Shares, Target, Writable;
    var c := Start(plan, limit);
    if plan.share > 0 {
      SharesExist(plan);
      NoHarvest(plan, turns, limit);
    }
    if AfterShares(plan, turns, limit).Going? {
      SharesAdd(plan, turns, AfterBook(plan, turns, limit).core, 0);
      WritableFits(plan, AfterBook(plan, turns, limit).core.left);
      BackfillSettles(plan, turns, limit);
    }
  }

  lemma {:induction false} NoHarvest(plan: Plan, turns: Turns, limit: int)
    requires Sensible(plan) && plan.shares != [] && !TakesFromBook(plan, limit)
    ensures Harvest(plan, turns, Start(plan, limit), 0).Going? && Harvest(plan, turns, Start(plan, limit), 0).core.accepted == []
  {
    hide Hear, NextBatch;
  }

  lemma RepeatsOverrun(plan: Plan, limit: int)
    requires Sensible(plan) && TakesFromBook(plan, limit)
    ensures !StaysWithin(plan, Repeats(Target(plan) + 1), limit)
  {
    hide Hear, Backfill, Shares, Target, Usable, Repeating, AnyMisfit;
    SharesExist(plan);
    var n, turns: Turns := Target(plan) + 1, Repeats(Target(plan) + 1);
    var b := NextBatch(plan.printed, 0);
    var asked, c := FirstOf(Usable(plan.printed[b]), plan.share), Start(plan, limit).(cursor := b + 1);
    RepeatsStand(n, |asked|);
    RepeatsUnembedded(n, asked);
    HearTakesStanding(plan, c, 0, asked, Repeating(n));
    var d := Hear(plan, c, 0, asked, Repeating(n)).core;
    assert TakeBook(plan, turns, Start(plan, limit), 0, plan.share) == Going(d);
    assert Harvest(plan, turns, d, 1) == Going(d);
    assert Harvest(plan, turns, Start(plan, limit), 0) == Going(d);
    AfterBookLeads(plan, turns, limit);
    RepeatsGoOn(plan, n, d);
    OverStays(plan, turns, limit, d);
  }

  lemma {:induction false} RepeatsUnembedded(n: nat, asked: seq<string>)
    ensures Repeating(n).Answered? && Repeating(n).embed(Answering(Repeating(n).answers, asked)) == None
  {
  }

  // No such reply breaks a run.
  lemma {:induction false} RepeatsGoOn(plan: Plan, n: nat, c: Core)
    requires Shaped(plan, c) && Fed(Repeats(n), c)
    ensures Shares(plan, Repeats(n), c, 0).Going?
  {
    hide Shares;
    SharesLead(plan, Repeats(n), c, 0);
  }

  // Past the paper's size already, a run only grows.
  lemma OverStays(plan: Plan, turns: Turns, limit: int, d: Core)
    requires Sensible(plan) && AfterBook(plan, turns, limit) == Going(d) && |d.accepted| > Target(plan)
    requires AfterShares(plan, turns, limit).Going?
    ensures !StaysWithin(plan, turns, limit)
  {
    hide Backfill, Shares, Target, AfterBook;
    SharesAdd(plan, turns, d, 0);
    BackfillSettles(plan, turns, limit);
  }
}
