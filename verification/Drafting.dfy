/** One whole drafting run: the closures and loops of `generate_questions` in
    `services/assessments.py`, each doing what `Drafts` says, with the trace kept alongside.
    Prompts, checkpoints and logging are left out. */
module Drafting {
  import opened Wrappers
  import opened Batches
  import opened Traces
  import opened Generation
  import opened Drafts
  import opened DraftFacts
  import opened DraftBounds
  import opened DraftLimits

  // Why an empty paper is empty.
  datatype Blame = Service | Replies | Material

  // `Aborted` is an error that escapes: nothing drafted is kept, and no trace goes with it.
  datatype Result =
    | Drafted(paper: seq<Taken>, trace: Payload)
    | Nothing(blame: Blame, trace: Payload)
    | Aborted

  // What a call brought, or the error it raised.
  datatype Reply = Got(count: nat) | Raised

  const REPEAT := "near-duplicate of an accepted question"

  class Run {
    const plan: Plan
    const turns: Turns
    const budget: CallBudget
    const deduper: StemDeduper
    const trace: GenerationTrace

    var accepted: seq<Taken>
    var rejected: nat
    var duplicates: nat
    var produced: seq<nat>
    var reached: seq<bool>
    var harvestedStems: set<string>
    var cursor: nat
    ghost var heard: seq<Call>
    // How many of the accepted came from the book. They are the first.
    ghost var fromBook: nat

    ghost function View(): Core
      reads this, budget, deduper
    {
      Core(accepted, produced, reached, harvestedStems, cursor, deduper.kept, budget.left, heard)
    }

    // The books, with what a call under way has yet to enter in them.
    ghost predicate Owing(calls: nat, got: nat, booked: nat, reasons: nat)
      reads this, budget, trace
    {
      && |plan.shares| == |produced| == |reached| == |trace.tallies|
      && plan.batches == |budget.batches| && plan.near == deduper.near && cursor <= |plan.printed|
      && budget.Valid() && trace.Valid()
      && trace.calls + calls == budget.granted == |heard|
      && (forall k :: 0 <= k < |produced| ==> produced[k] == trace.tallies[k].accepted)
      && |accepted| == Total(produced) + got == trace.totals.accepted + got
      && trace.totals.harvested + booked == fromBook <= |accepted|
      && duplicates <= rejected <= trace.totals.rejected + reasons
    }

    /** Every call the budget granted is in the trace, and every accepted question in its format's
        tally and in the total. */
    ghost predicate Valid()
      reads this, budget, trace
    {
      Owing(0, 0, 0, 0)
    }

    // An error has escaped: the last call was granted and never reached the trace.
    ghost predicate Lost()
      reads this, budget, trace
    {
      budget.Valid() && trace.Valid() && trace.calls + 1 == budget.granted == |heard|
    }

    // What a step of the run came to, told as a function would.
    ghost function Outcome(r: Reply): Progress
      reads this, budget, deduper
    {
      if r.Got? then Going(View()) else Broken(heard, budget.left)
    }

    ghost predicate Sound(r: Reply)
      reads this, budget, trace
    {
      if r.Got? then Valid() else Lost()
    }

    constructor (plan: Plan, batches: seq<seq<Chunk>>, limit: int, turns: Turns)
      requires plan.batches == |batches|
      ensures Valid() && fresh(budget) && fresh(deduper) && fresh(trace)
      ensures View() == Start(plan, limit) && this.plan == plan && this.turns == turns && fromBook == 0
      ensures budget.limit == limit && budget.batches == batches
    {
      this.plan, this.turns := plan, turns;
      budget := new CallBudget(limit, batches);
      deduper := new StemDeduper(plan.near);
      trace := new GenerationTrace(limit, Target(plan), |plan.shares|);
      accepted, rejected, duplicates, harvestedStems, cursor, fromBook, heard := [], 0, 0, {}, 0, 0, [];
      produced := seq(|plan.shares|, _ => 0);
      reached := seq(|plan.shares|, _ => false);
      new;
      TotalZero(produced);
    }

    // Near-duplicates are turned away as they arrive; the rest join the paper. A number of vectors
    // that is not the number of stems raises, once the shorter of the two has run out, and so does a
    // vector that cannot be compared, before anything is taken.
    method AcceptNovel(fmt: nat, found: seq<string>, turn: Turn, book: bool, ghost reasons: nat) returns (r: Reply, repeats: nat)
      requires turn.Answered? && Owing(1, 0, 0, reasons) && fmt < |plan.shares| && (book ==> fromBook == |accepted|)
      modifies this`accepted, this`rejected, this`duplicates, this`harvestedStems, this`fromBook, deduper
      ensures r.Raised? <==> Raises(old(deduper.kept), found, turn.embed(found), plan.near)
      ensures r.Raised? ==> fromBook == old(fromBook) && Lost()
      ensures r.Got? ==> Join(old(View()), fmt, found, turn.embed(found), book, plan.near)
                         == Going(View().(produced := produced[fmt := produced[fmt] + r.count]))
      ensures r.Got? ==> Owing(1, r.count, if book then r.count else 0, reasons + repeats)
      ensures r.Got? ==> |accepted| == |old(accepted)| + r.count && fromBook == if book then |accepted| else old(fromBook)
    {
      hide Total, Flags, TakenOf, StemsOf, KeepFlags, KeptNow, Join, Stumbles;
      ghost var start := View();
      var kept := deduper.Keep(found, turn.embed(found));
      if kept.None? {
        return Raised, 0;
      }
      var flags := kept.value;
      FlagsCount(start.kept, found, turn.embed(found), plan.near);
      var got;
      got, repeats := TakeFlagged(fmt, found, flags, book);
      if |flags| != |found| {
        return Raised, repeats;
      }
      assert found[..|found|] == found && flags[..|found|] == flags;
      JoinTakes(start, fmt, found, turn.embed(found), book, plan.near);
      if book {
        fromBook := |accepted|;
      }
      r := Got(got);
    }

    // The stems and their flags, in step, while there are both.
    method TakeFlagged(fmt: nat, found: seq<string>, flags: seq<bool>, book: bool) returns (got: nat, repeats: nat)
      modifies this`accepted, this`rejected, this`duplicates, this`harvestedStems
      ensures var n := if |flags| < |found| then |flags| else |found|;
        && got + repeats == n
        && accepted == old(accepted) + TakenOf(found[..n], flags[..n], fmt) && |accepted| == |old(accepted)| + got
        && harvestedStems == (if book then old(harvestedStems) + StemsOf(TakenOf(found[..n], flags[..n], fmt)) else old(harvestedStems))
      ensures rejected == old(rejected) + repeats && duplicates == old(duplicates) + repeats
    {
      hide TakenOf, StemsOf;
      got, repeats := 0, 0;
      TakenNone(fmt);
      for k := 0 to if |flags| < |found| then |flags| else |found|
        modifies this`accepted, this`rejected, this`duplicates, this`harvestedStems
        invariant got + repeats == k
        invariant accepted == old(accepted) + TakenOf(found[..k], flags[..k], fmt) && |accepted| == |old(accepted)| + got
        invariant rejected == old(rejected) + repeats && duplicates == old(duplicates) + repeats
        invariant harvestedStems == if book then old(harvestedStems) + StemsOf(TakenOf(found[..k], flags[..k], fmt)) else old(harvestedStems)
      {
        TakenNext(found, flags, fmt, k);
        if flags[k] {
          accepted := accepted + [Taken(found[k], fmt)];
          if book {
            harvestedStems := harvestedStems + {found[k]};
          }
          got := got + 1;
        } else {
          rejected, duplicates := rejected + 1, duplicates + 1;
          repeats := repeats + 1;
        }
      }
    }

    // The end of a call: its format's count, and its line in the trace.
    method Enter(fmt: nat, ms: nat, got: nat, reasons: seq<string>, failed: bool, book: bool)
      requires fmt < |plan.shares| && (failed ==> got == 0 && reasons == [])
      requires Owing(1, got, if book then got else 0, |reasons|)
      modifies this`produced, trace
      ensures Valid()
      ensures produced == old(produced)[fmt := old(produced)[fmt] + got] && trace.calls == old(trace.calls) + 1
    {
      hide Total, Sum, LlmSteps;
      TotalUpdate(produced, fmt, produced[fmt] + got);
      produced := produced[fmt := produced[fmt] + got];
      trace.Call(fmt, ms, got, reasons, failed, book);
    }

    // `ask`: one call for one format, over the next batch of passages.
    method Ask(fmt: nat, wanted: nat) returns (r: Reply)
      requires Valid() && fmt < |plan.shares|
      modifies this, budget, deduper, trace
      ensures Sound(r) && fromBook == old(fromBook)
      ensures Outcome(r) == Write(plan, turns, old(View()), fmt, wanted)
      ensures r.Got? ==> |accepted| == |old(accepted)| + r.count
    {
      hide Total, Replied, Sum, LlmSteps;
      var batch := budget.Take();
      if batch.None? {
        return Got(0);
      }
      heard := heard + [Wrote(fmt, wanted)];
      r := HearReply(fmt, wanted, turns(trace.calls));
    }

    // A format's reply was read, with so many faults.
    method Reach(fmt: nat, faults: nat)
      requires Owing(1, 0, 0, 0) && fmt < |plan.shares|
      modifies this`reached, this`rejected
      ensures Owing(1, 0, 0, faults) && fmt < |produced|
      ensures reached == old(reached)[fmt := true] && rejected == old(rejected) + faults
    {
      hide Total, Sum, LlmSteps;
      reached := reached[fmt := true];
      rejected := rejected + faults;
    }

    // What the call came to.
    method HearReply(fmt: nat, wanted: nat, turn: Turn) returns (r: Reply)
      requires Owing(1, 0, 0, 0) && fmt < |plan.shares|
      modifies this, deduper, trace
      ensures Sound(r) && fromBook == old(fromBook)
      ensures Outcome(r) == Replied(plan, old(View()), fmt, wanted, turn)
      ensures r.Got? ==> |accepted| == |old(accepted)| + r.count
    {
      hide Owing, Fresh, Inspected, Join;
      if turn.Dead? {
        Enter(fmt, turn.ms, 0, [], true, false);
        return Got(0);
      }
      var found, reasons := ReadItems(Inspected(turn.items, wanted), wanted);
      Reach(fmt, |reasons|);
      var repeats;
      r, repeats := AcceptNovel(fmt, found, turn, false, |reasons|);
      if r.Raised? {
        JoinRaises(old(View()).(reached := reached), fmt, found, turn.embed(found), false, plan.near);
        return;
      }
      Enter(fmt, turn.ms, r.count, reasons + seq(repeats, _ => REPEAT), false, false);
    }

    // The first usable batch of book questions from the cursor on, if there is one.
    method NextUsable() returns (usable: seq<string>, skipped: seq<string>)
      requires Valid()
      modifies this`cursor
      ensures Valid()
      ensures var n := NextBatch(plan.printed, old(cursor));
        && cursor == (if n == |plan.printed| then n else n + 1)
        && usable == (if n == |plan.printed| then [] else Usable(plan.printed[n]))
    {
      usable, skipped := [], [];
      while cursor < |plan.printed|
        invariant old(cursor) <= cursor <= |plan.printed|
        invariant NextBatch(plan.printed, old(cursor)) == NextBatch(plan.printed, cursor)
      {
        var candidate := plan.printed[cursor];
        cursor := cursor + 1;
        var fit: seq<string> := [];
        for k := 0 to |candidate|
          invariant fit == Usable(candidate[..k])
        {
          assert candidate[..k + 1][..k] == candidate[..k];
          match candidate[k].fault
          case None => fit := fit + [candidate[k].text];
          case Some(reason) => skipped := skipped + [reason];
        }
        assert candidate[..|candidate|] == candidate;
        if fit != [] {
          usable := fit;
          return;
        }
      }
    }

    // `take_from_book`: one call that answers the next batch of the book's own questions.
    method TakeFromBook(fmt: nat, wanted: nat) returns (r: Reply)
      requires Valid() && fmt < |plan.shares| && fromBook == |accepted|
      modifies this, budget, deduper, trace
      ensures Sound(r) && (r.Got? ==> fromBook == |accepted|)
      ensures Outcome(r) == TakeBook(plan, turns, old(View()), fmt, wanted)
    {
      hide Owing, Usable, Hear;
      InShape();
      var usable, skipped := NextUsable();
      if usable == [] {
        return Got(0);
      }
      r := AskBook(fmt, FirstOf(usable, wanted), skipped);
    }

    // One harvesting call, if there is one left.
    method AskBook(fmt: nat, asked: seq<string>, skipped: seq<string>) returns (r: Reply)
      requires Valid() && fmt < |plan.shares| && fromBook == |accepted|
      modifies this, budget, deduper, trace
      ensures Sound(r) && (r.Got? ==> fromBook == |accepted|)
      ensures Outcome(r) == if old(budget.left) <= 0 then Going(old(View())) else Hear(plan, old(View()), fmt, asked, turns(|old(heard)|))
    {
      hide Total, Settled, Sum, LlmSteps;
      var granted := budget.Spend();
      if !granted {
        return Got(0);
      }
      heard := heard + [Harvested(fmt, asked)];
      r := HearAnswers(fmt, asked, skipped, turns(trace.calls));
    }

    lemma OwedIsLost()
      requires Owing(1, 0, 0, 0)
      ensures Lost() && |produced| == |plan.shares|
    {
    }

    // So many answers turned away, of those the trace will give a reason for.
    method TurnAway(count: nat, ghost reasons: nat)
      requires Owing(1, 0, 0, 0) && count <= reasons
      modifies this`rejected
      ensures Owing(1, 0, 0, reasons) && rejected == old(rejected) + count
    {
      hide Total, Sum, LlmSteps;
      rejected := rejected + count;
    }

    // What the harvesting call came to.
    method HearAnswers(fmt: nat, asked: seq<string>, skipped: seq<string>, turn: Turn) returns (r: Reply)
      requires Owing(1, 0, 0, 0) && fmt < |plan.shares| && fromBook == |accepted|
      modifies this, deduper, trace
      ensures Sound(r) && (r.Got? ==> fromBook == |accepted|)
      ensures Outcome(r) == Settled(plan, old(View()), fmt, asked, turn)
    {
      hide Owing, Answering, AnyMisfit, Join;
      OwedIsLost();
      if turn.Dead? {
        Enter(fmt, turn.ms, 0, [], true, true);
        return Got(0);
      }
      var misfit, found, reasons, unasked := ReadAnswers(turn.answers, asked);
      if misfit {
        return Raised;
      }
      TurnAway(unasked, |skipped + reasons|);
      var repeats;
      r, repeats := AcceptNovel(fmt, found, turn, true, |skipped + reasons|);
      if r.Raised? {
        JoinRaises(old(View()), fmt, found, turn.embed(found), true, plan.near);
        return;
      }
      Enter(fmt, turn.ms, r.count, skipped + reasons + seq(repeats, _ => REPEAT), false, true);
    }

    // Pass zero: the book's own questions, up to their share.
    method HarvestPass() returns (r: Reply)
      requires Valid() && fromBook == |accepted| && plan.shares != []
      modifies this, budget, deduper, trace
      ensures Sound(r) && (r.Got? ==> fromBook == |accepted|)
      ensures Outcome(r) == Harvest(plan, turns, old(View()), 0)
    {
      hide TakeBook, Owing;
      ghost var start := View();
      InShape();
      Note("harvest");
      var position := 0;
      while |accepted| < plan.share && cursor < |plan.printed| && !budget.Exhausted()
        modifies this, budget, deduper, trace
        invariant Valid() && fromBook == |accepted| && Shaped(plan, View()) && cursor <= |plan.printed|
        invariant Harvest(plan, turns, start, 0) == Harvest(plan, turns, View(), position)
        decreases |plan.printed| - cursor
      {
        var fmt := position % |plan.shares|;
        position := position + 1;
        var before := |accepted|;
        var taken := TakeFromBook(fmt, plan.share - |accepted|);
        if taken.Raised? {
          return Raised;
        }
        InShape();
        if |accepted| == before && cursor >= |plan.printed| {
          break;
        }
      }
      r := Got(0);
    }

    // Pass one: every format is asked for its whole share, whatever the book supplied.
    method FirstPass() returns (r: Reply)
      requires Valid()
      modifies this, budget, deduper, trace
      ensures Sound(r) && fromBook == old(fromBook)
      ensures Outcome(r) == Shares(plan, turns, old(View()), 0)
    {
      hide Owing, Share;
      ghost var start := View();
      InShape();
      for fmt := 0 to |plan.shares|
        modifies this, budget, deduper, trace
        invariant Valid() && fromBook == old(fromBook) && Shaped(plan, View())
        invariant Shares(plan, turns, start, 0) == Shares(plan, turns, View(), fmt)
      {
        var asked := AskForShare(fmt);
        if asked.Raised? {
          return Raised;
        }
        InShape();
      }
      r := Got(0);
    }

    // One format's share of pass one: at most one call a batch.
    method AskForShare(fmt: nat) returns (r: Reply)
      requires Valid() && fmt < |plan.shares|
      modifies this, budget, deduper, trace
      ensures Sound(r) && fromBook == old(fromBook)
      ensures Outcome(r) == Share(plan, turns, old(View()), fmt, plan.shares[fmt], plan.batches)
    {
      hide Owing, Write;
      ghost var start := View();
      InShape();
      var remaining: int := plan.shares[fmt];
      for n := 0 to |budget.batches|
        modifies this, budget, deduper, trace
        invariant Valid() && fromBook == old(fromBook) && Shaped(plan, View()) && remaining >= 0
        invariant Share(plan, turns, start, fmt, plan.shares[fmt], plan.batches) == Share(plan, turns, View(), fmt, remaining, plan.batches - n)
      {
        SpentIs();
        if remaining <= 0 || budget.Spent() {
          return Got(0);
        }
        ghost var before := View();
        var asked := Ask(fmt, remaining);
        if asked.Raised? {
          return Raised;
        }
        WriteAdds(plan, turns, before, fmt, remaining);
        InShape();
        remaining := remaining - asked.count;
      }
      r := Got(0);
    }

    // Pass two: make up the shortfall from the formats that are working.
    method Fill() returns (r: Reply)
      requires Valid()
      modifies this, budget, deduper, trace
      ensures Sound(r) && fromBook == old(fromBook)
      ensures Outcome(r) == Backfill(plan, turns, old(View()), RetryOrder(plan, old(View())))
    {
      hide Owing, Sweep, Target, StillWorth, Working, Unproven;
      ghost var start := View();
      InShape();
      var order := Working(produced) + Unproven(produced, reached);
      assert order == RetryOrder(plan, start);
      SpentIs();
      if |accepted| < Target(plan) && order != [] && !budget.Spent() {
        Note("backfill");
        SpentIs();
      }
      while |accepted| < Target(plan) && order != [] && !budget.Spent()
        modifies this, budget, deduper, trace
        invariant Valid() && fromBook == old(fromBook) && Shaped(plan, View()) && InPlan(plan, order)
        invariant Spent(plan, View()) == budget.Spent()
        invariant Backfill(plan, turns, start, RetryOrder(plan, start)) == Backfill(plan, turns, View(), order)
        decreases budget.left
      {
        ghost var before := View();
        var had := |accepted|;
        SweepSpends(plan, turns, before, order, 0);
        var swept := SweepOnce(order);
        if swept.Raised? {
          return Raised;
        }
        InShape();
        SpentIs();
        ghost var was := order;
        order := Worthwhile(order);
        if |accepted| == had && order == [] {
          return Got(0);
        }
        if |accepted| == had && forall k :: 0 <= k < |order| ==> produced[order[k]] == 0 {
          return Got(0);
        }
      }
      r := Got(0);
    }

    // One round of the backfill: each format in turn, while anything is missing.
    method SweepOnce(order: seq<nat>) returns (r: Reply)
      requires Valid() && InPlan(plan, order)
      modifies this, budget, deduper, trace
      ensures Sound(r) && fromBook == old(fromBook)
      ensures Outcome(r) == Sweep(plan, turns, old(View()), order, 0)
    {
      hide Owing, Write, Target;
      ghost var start := View();
      InShape();
      for k := 0 to |order|
        modifies this, budget, deduper, trace
        invariant Valid() && fromBook == old(fromBook) && Shaped(plan, View())
        invariant Sweep(plan, turns, start, order, 0) == Sweep(plan, turns, View(), order, k)
      {
        SpentIs();
        if |accepted| >= Target(plan) || budget.Spent() {
          return Got(0);
        }
        var asked := Ask(order[k], Target(plan) - |accepted|);
        if asked.Raised? {
          return Raised;
        }
        InShape();
      }
      r := Got(0);
    }

    method Worthwhile(order: seq<nat>) returns (r: seq<nat>)
      requires Shaped(plan, View()) && InPlan(plan, order)
      ensures r == StillWorth(plan, View(), order)
    {
      r := [];
      for k := 0 to |order|
        invariant r == StillWorth(plan, View(), order[..k])
      {
        assert order[..k + 1][..k] == order[..k];
        if produced[order[k]] > 0 || !reached[order[k]] {
          r := r + [order[k]];
        }
      }
      assert order[..|order|] == order;
    }

    // A stage of the run, noted.
    method Note(stage: string)
      requires Valid() && stage != "llm"
      modifies trace`steps
      ensures Valid()
    {
      trace.Step(stage);
    }

    lemma InShape()
      requires Valid()
      ensures Shaped(plan, View()) && plan.batches == |budget.batches| && cursor <= |plan.printed|
    {
    }

    lemma SpentIs()
      requires Valid()
      ensures Spent(plan, View()) == budget.Spent()
    {
    }

    // The end of the run: an empty paper is refused, any other cut to size.
    method Conclude() returns (r: Result)
      requires Valid()
      modifies trace
      ensures Valid() && trace.calls == old(trace.calls) && trace.tallies == old(trace.tallies)
      ensures !r.Aborted? && r.trace.summary.llmCalls == trace.calls && r.trace.summary.totals.accepted == |accepted|
      ensures r.Nothing? <==> accepted == []
      ensures r.Nothing? ==> r.blame == Blamed(trace.tallies)
      ensures r.Drafted? ==> r.paper == (if |accepted| <= Target(plan) then accepted else accepted[..Target(plan)])
      ensures r.Drafted? ==> r.trace.summary.totals.deduped == duplicates && r.trace.summary.totals.finalCount == |r.paper|
    {
      hide Total, Target, Blamed, Sum, LlmSteps;
      if accepted == [] {
        var empty := trace.Finish(0);
        return Nothing(Blamed(trace.tallies), empty);
      }
      var paper := if |accepted| <= Target(plan) then accepted else accepted[..Target(plan)];
      trace.Dedupe(|accepted| + duplicates, |accepted|);
      trace.Step("persist");
      var payload := trace.Finish(|paper|);
      r := Result.Drafted(paper, payload);
    }

    /** The whole run, whatever the model and the embedder reply. */
    method Generate() returns (r: Result)
      requires Valid() && Sensible(plan) && View() == Start(plan, budget.limit) && fromBook == 0
      modifies this, budget, deduper, trace
      // It is aborted exactly when some reply it heard breaks it, and then the last call is lost.
      ensures r.Aborted? <==> exists k :: 0 <= k < |heard| && Breaks(Sent(turns, heard[..k]), heard[k], turns(k))
      ensures if r.Aborted? then Lost() else Valid()
      ensures |heard| == budget.granted && (heard != [] ==> |heard| <= budget.limit)
      // Otherwise each call is in the trace once, the paper is the first `target` accepted, the
      // book's questions first, and it is short only when calls or passages have run out.
      ensures !r.Aborted? ==> Drafts.Run(plan, turns, budget.limit) == Going(View()) && trace.calls == budget.granted
      ensures !r.Aborted? ==> r.trace.summary.llmCalls == trace.calls && r.trace.summary.totals.accepted == |accepted|
      ensures r.Drafted? ==> r.paper == (if |accepted| <= Target(plan) then accepted else accepted[..Target(plan)])
      ensures r.Drafted? ==> forall k :: 0 <= k < |r.paper| && k < fromBook ==> r.paper[k].stem in harvestedStems
      ensures r.Drafted? && |r.paper| < Target(plan) ==> budget.Spent()
      ensures !r.Aborted? ==> |accepted| <= fromBook + Target(plan) && trace.totals.harvested == fromBook
      ensures !r.Aborted? && OnceEach(turns) ==> fromBook <= plan.share
      ensures r.Nothing? ==> accepted == [] && r.blame == Blamed(trace.tallies)
    {
      hide Owing, OnceEach, Breaks, Target, Drafts.Run, Start;
      ghost var limit := budget.limit;
      BreaksIff(plan, turns, limit);
      var drafted := Passes();
      if drafted.Raised? {
        return Aborted;
      }
      Ends(limit);
      r := Conclude();
      Harvests();
    }

    // The three passes, one after the other.
    method Passes() returns (r: Reply)
      requires Valid() && Sensible(plan) && View() == Start(plan, budget.limit) && fromBook == 0
      modifies this, budget, deduper, trace
      ensures Sound(r) && Outcome(r) == Drafts.Run(plan, turns, budget.limit)
      ensures r.Got? ==> AfterBook(plan, turns, budget.limit).Going? && |AfterBook(plan, turns, budget.limit).core.accepted| == fromBook
    {
      assert accepted == [];
      hide Owing, Harvest, Shares, Backfill, Target, Start, RetryOrder;
      if plan.share > 0 {
        SharesExist(plan);
        var harvested := HarvestPass();
        if harvested.Raised? {
          return Raised;
        }
      }
      var shared := FirstPass();
      if shared.Raised? {
        return Raised;
      }
      r := Fill();
    }

    lemma Ends(limit: int)
      requires Valid() && Sensible(plan) && Drafts.Run(plan, turns, limit) == Going(View())
      requires AfterBook(plan, turns, limit).Going? && |AfterBook(plan, turns, limit).core.accepted| == fromBook
      ensures |accepted| >= Target(plan) || budget.Spent() || accepted == []
      ensures forall k :: 0 <= k < fromBook ==> k < |accepted| && accepted[k].stem in harvestedStems
      ensures |accepted| <= fromBook + Target(plan) && (OnceEach(turns) ==> fromBook <= plan.share)
    {
      hide OnceEach, Target, Drafts.Run, AfterBook, Total, Start;
      RunEnds(plan, turns, limit);
    }

    lemma Harvests()
      requires Valid()
      ensures trace.totals.harvested == fromBook && trace.calls == budget.granted == |heard|
    {
    }
  }

  lemma {:induction false} TakenNone(fmt: nat)
    ensures TakenOf([], [], fmt) == [] && StemsOf([]) == {}
  {
  }

  lemma {:induction false} TakenNext(found: seq<string>, flags: seq<bool>, fmt: nat, k: nat)
    requires k < |found| && k < |flags|
    ensures var t, u := TakenOf(found[..k], flags[..k], fmt), TakenOf(found[..k + 1], flags[..k + 1], fmt);
      if flags[k] then u == t + [Taken(found[k], fmt)] && StemsOf(u) == StemsOf(t) + {found[k]} else u == t
  {
    assert found[..k + 1][..k] == found[..k] && flags[..k + 1][..k] == flags[..k];
    StemsAppend(TakenOf(found[..k], flags[..k], fmt), Taken(found[k], fmt));
  }

  lemma FlagsCount(kept: seq<Vector>, found: seq<string>, vectors: Option<seq<Vector>>, near: (Vector, Vector) -> bool)
    ensures |KeepFlags(kept, found, vectors, near)| != |found| <==> Miscounted(found, vectors)
  {
  }

  lemma {:induction false} JoinTakes(c: Core, fmt: nat, found: seq<string>, vectors: Option<seq<Vector>>, book: bool, near: (Vector, Vector) -> bool)
    requires fmt < |c.produced| && !Raises(c.kept, found, vectors, near)
    ensures |KeepFlags(c.kept, found, vectors, near)| == |found|
    ensures var taken := TakenOf(found, KeepFlags(c.kept, found, vectors, near), fmt);
      Join(c, fmt, found, vectors, book, near)
      == Going(c.(accepted := c.accepted + taken, produced := c.produced[fmt := c.produced[fmt] + |taken|],
                  stems := if book then c.stems + StemsOf(taken) else c.stems, kept := KeptNow(c.kept, found, vectors, near)))
  {
  }

  lemma StemsAppend(taken: seq<Taken>, t: Taken)
    ensures StemsOf(taken + [t]) == StemsOf(taken) + {t.stem}
  {
    var all := taken + [t];
    assert all[|taken|].stem == t.stem;
    forall k | 0 <= k < |taken| ensures taken[k].stem in StemsOf(all) { assert all[k].stem in StemsOf(all); }
  }

  lemma JoinRaises(c: Core, fmt: nat, found: seq<string>, vectors: Option<seq<Vector>>, book: bool, near: (Vector, Vector) -> bool)
    requires fmt < |c.produced| && Raises(c.kept, found, vectors, near)
    ensures Join(c, fmt, found, vectors, book, near) == Broken(c.heard, c.left)
  {
  }

  // --------------------------------------------------------------- the reading loops

  method ReadItems(items: seq<Item>, wanted: nat) returns (found: seq<string>, reasons: seq<string>)
    ensures found == Fresh(items, wanted) && reasons == Faults(items, wanted)
  {
    hide Fresh, Faults;
    found, reasons := [], [];
    assert items[0..] == items;
    for k := 0 to |items|
      invariant |found| <= wanted
      invariant Fresh(items, wanted) == found + Fresh(items[k..], wanted - |found|)
      invariant Faults(items, wanted) == reasons + Faults(items[k..], wanted - |found|)
    {
      if |found| >= wanted {
        NothingRead(items[k..]);
        return;
      }
      ReadNext(items, k, wanted - |found|);
      match items[k].fault
      case None => found := found + [items[k].stem];
      case Some(reason) => reasons := reasons + [reason];
    }
    NothingRead(items[|items|..]);
  }

  lemma {:induction false} ReadNext(items: seq<Item>, k: nat, room: nat)
    requires k < |items| && room > 0
    ensures var i := items[k];
      if i.fault.None? then Fresh(items[k..], room) == [i.stem] + Fresh(items[k + 1..], room - 1) && Faults(items[k..], room) == Faults(items[k + 1..], room - 1)
      else Fresh(items[k..], room) == Fresh(items[k + 1..], room) && Faults(items[k..], room) == [i.fault.value] + Faults(items[k + 1..], room)
  {
    assert items[k..][1..] == items[k + 1..];
  }

  // Nothing is read with no room, or from nothing.
  lemma {:induction false} NothingRead(items: seq<Item>)
    ensures Fresh(items, 0) == [] && Faults(items, 0) == []
    ensures items == [] ==> forall room: nat :: Fresh(items, room) == [] && Faults(items, room) == []
  {
  }

  // The answers that stand, and why the others do not. An answer to a question that was not
  // asked, or one found at fault, is a rejection; one the passages do not settle is not. One that
  // does not fit the contract raises there and then.
  method ReadAnswers(answers: seq<Settling>, asked: seq<string>) returns (misfit: bool, found: seq<string>, reasons: seq<string>, rejections: nat)
    ensures misfit == AnyMisfit(answers, |asked|)
    ensures !misfit ==> found == Answering(answers, asked) && rejections <= |reasons| && |found| + |reasons| == |answers|
  {
    misfit, found, reasons, rejections := false, [], [], 0;
    for k := 0 to |answers|
      invariant !misfit && found == Answering(answers[..k], asked)
      invariant forall j :: 0 <= j < k ==> !Misfit(answers[j], |asked|)
      invariant rejections <= |reasons| && |found| + |reasons| == k
    {
      assert answers[..k + 1][..k] == answers[..k];
      var a := answers[k];
      if !Asked(a, |asked|) {
        rejections, reasons := rejections + 1, reasons + ["answer to a question that was not asked"];
      } else if !a.settled {
        reasons := reasons + ["the material does not settle this question"];
      } else if !a.fits {
        misfit := true;
        return;
      } else if a.fault.Some? {
        rejections, reasons := rejections + 1, reasons + [a.fault.value];
      } else {
        found := found + [asked[a.number - 1]];
      }
    }
    assert answers[..|answers|] == answers;
  }

  // ------------------------------------------------------------------ blame

  // Which of the three failures an empty paper is put down to.
  function Blamed(tallies: seq<Tally>): Blame {
    var calls := Sum(tallies, CALLS);
    if calls > 0 && Sum(tallies, FAILED) == calls then Service
    else if Sum(tallies, REJECTED) > 0 then Replies
    else Material
  }

  const FAILED := (t: Tally) => t.failedCalls

  /** The service is blamed exactly when some call was made and every call of every format
      failed. */
  lemma ServiceBlamedForDeadCalls(tallies: seq<Tally>)
    requires forall k :: 0 <= k < |tallies| ==> tallies[k].failedCalls <= tallies[k].calls
    ensures Blamed(tallies) == Service <==>
      (exists k :: 0 <= k < |tallies| && tallies[k].calls > 0)
      && (forall k :: 0 <= k < |tallies| ==> tallies[k].failedCalls == tallies[k].calls)
  {
    SumsCompare(tallies);
  }

  lemma {:induction false} SumsCompare(tallies: seq<Tally>)
    requires forall k :: 0 <= k < |tallies| ==> tallies[k].failedCalls <= tallies[k].calls
    ensures Sum(tallies, FAILED) <= Sum(tallies, CALLS)
    ensures Sum(tallies, FAILED) == Sum(tallies, CALLS) <==> forall k :: 0 <= k < |tallies| ==> tallies[k].failedCalls == tallies[k].calls
    ensures Sum(tallies, CALLS) > 0 <==> exists k :: 0 <= k < |tallies| && tallies[k].calls > 0
  {
    if tallies != [] {
      var last := |tallies| - 1;
      SumsCompare(tallies[..last]);
      assert forall k :: 0 <= k < last ==> tallies[..last][k] == tallies[k];
    }
  }
}
