/** What holds of every drafting run, and how many questions one can take. */
module DraftFacts {
  import opened Generation
  import opened Drafts

  // ------------------------------------------------------------- what breaks a run

  // The stems a reply puts to the embedder.
  function Put(call: Call, turn: Turn): seq<string> {
    match call
    case Wrote(_, wanted) => Offered(turn, wanted)
    case Harvested(_, asked) => if turn.Dead? then [] else Answering(turn.answers, asked)
  }

  // What it sends for them, and what it has sent over a whole run.
  function SentFor(call: Call, turn: Turn): seq<Vector> {
    var found := Put(call, turn);
    if turn.Dead? || found == [] || turn.embed(found).None? then [] else turn.embed(found).value
  }

  function Sent(turns: Turns, heard: seq<Call>): seq<Vector> {
    if heard == [] then []
    else Sent(turns, heard[..|heard| - 1]) + SentFor(heard[|heard| - 1], turns(|heard| - 1))
  }

  predicate AllNumbers(vectors: seq<Vector>) { forall k :: 0 <= k < |vectors| ==> vectors[k].Numbers? }

  // Two or more vectors have been sent, the last of them just now, and one is not numbers.
  predicate Spoils(before: seq<Vector>, vectors: seq<Vector>) {
    vectors != [] && |before + vectors| >= 2 && !AllNumbers(before + vectors)
  }

  // The reply to a call that no run survives, given the vectors sent before it.
  predicate Breaks(before: seq<Vector>, call: Call, turn: Turn) {
    turn.Answered? &&
    (|| (call.Harvested? && AnyMisfit(turn.answers, |call.asked|))
     || Miscounted(Put(call, turn), turn.embed(Put(call, turn)))
     || Spoils(before, SentFor(call, turn)))
  }

  // The vectors kept, of those sent: the first is kept whatever it is, and once a second has gone
  // by all are numbers.
  ghost predicate Fits(kept: seq<Vector>, sent: seq<Vector>) {
    && (kept == [] <==> sent == [])
    && (|sent| == 1 ==> kept == sent)
    && (|sent| >= 2 ==> AllNumbers(kept) && AllNumbers(sent))
  }

  ghost predicate Fed(turns: Turns, c: Core) { Fits(c.kept, Sent(turns, c.heard)) }

  // One vector more: it balks exactly when it makes two or more with one that is not numbers.
  lemma BalksIff(kept: seq<Vector>, sent: seq<Vector>, v: Vector, near: (Vector, Vector) -> bool)
    requires Fits(kept, sent)
    ensures Balks(kept, v, near) <==> sent != [] && !AllNumbers(sent + [v])
    ensures !Balks(kept, v, near) ==> Fits(if Novel(kept, v, near) then kept + [v] else kept, sent + [v])
  {
    var all := sent + [v];
    assert all[|sent|] == v && forall k :: 0 <= k < |sent| ==> all[k] == sent[k];
    if kept != [] { assert Uncomparable(v, kept[0]) ==> Balks(kept, v, near); }
  }

  lemma {:induction false} StumblesIff(kept: seq<Vector>, sent: seq<Vector>, vectors: seq<Vector>, near: (Vector, Vector) -> bool)
    requires Fits(kept, sent)
    ensures Stumbles(kept, vectors, near) <==> Spoils(sent, vectors)
    ensures !Stumbles(kept, vectors, near) ==> Fits(KeptAfter(kept, vectors, near), sent + vectors)
    decreases |vectors|
  {
    hide Balks, Novel, Fits;
    if vectors == [] {
      assert sent + vectors == sent;
    } else {
      var n := |vectors| - 1;
      var rest, v := vectors[..n], vectors[n];
      StumblesIff(kept, sent, rest, near);
      assert sent + vectors == sent + rest + [v];
      StumblesNext(kept, vectors, n, near);
      assert vectors[..n + 1] == vectors;
      if !Stumbles(kept, rest, near) {
        BalksIff(KeptAfter(kept, rest, near), sent + rest, v, near);
        hide AllNumbers;
      } else {
        assert forall k :: 0 <= k < |sent + rest| ==> (sent + vectors)[k] == (sent + rest)[k];
      }
    }
  }

  function HeardOf(p: Progress): seq<Call> { if p.Going? then p.core.heard else p.heard }

  function LeftOf(p: Progress): int { if p.Going? then p.core.left else p.left }

  // The calls from one on, up to another, were survived.
  predicate Survived(turns: Turns, heard: seq<Call>, from: nat, until: int) {
    forall k :: from <= k < until && k < |heard| ==> !Breaks(Sent(turns, heard[..k]), heard[k], turns(k))
  }

  // How a stretch of a run leads on: each call costs one of those left, it breaks at the first
  // reply that breaks it and at no other, and while it goes on nothing accepted is lost.
  ghost predicate Leads(turns: Turns, c: Core, p: Progress) {
    && c.heard <= HeardOf(p) && LeftOf(p) + |HeardOf(p)| == c.left + |c.heard|
    && (LeftOf(p) >= 0 || LeftOf(p) == c.left)
    && (Fed(turns, c) ==> LeadsFed(turns, c, p))
    && (p.Going? ==>
          && c.accepted <= p.core.accepted && c.stems <= p.core.stems
          && |p.core.accepted| - Total(p.core.produced) == |c.accepted| - Total(c.produced))
  }

  // What it comes to when the vectors kept are those of the run.
  ghost predicate LeadsFed(turns: Turns, c: Core, p: Progress) {
    && Survived(turns, HeardOf(p), |c.heard|, if p.Going? then |HeardOf(p)| else |HeardOf(p)| - 1)
    && (p.Going? ==> Fed(turns, p.core))
    && (p.Broken? ==>
          && |p.heard| > |c.heard|
          && Breaks(Sent(turns, p.heard[..|p.heard| - 1]), p.heard[|p.heard| - 1], turns(|p.heard| - 1)))
  }

  lemma LeadsNowhere(turns: Turns, c: Core, d: Core)
    requires d.heard == c.heard && d.left == c.left && d.accepted == c.accepted && d.stems == c.stems && d.produced == c.produced && d.kept == c.kept
    ensures Leads(turns, c, Going(d))
  {
  }

  lemma LeadsOn(turns: Turns, c: Core, d: Core, p: Progress)
    requires Leads(turns, c, Going(d)) && Leads(turns, d, p)
    ensures Leads(turns, c, p)
  {
    hide Breaks, Sent, Fits;
    assert forall k :: 0 <= k < |d.heard| ==> HeardOf(p)[k] == d.heard[k] && HeardOf(p)[..k] == d.heard[..k];
  }

  lemma {:induction false} SentNext(turns: Turns, heard: seq<Call>, call: Call)
    ensures Sent(turns, heard + [call]) == Sent(turns, heard) + SentFor(call, turns(|heard|))
    ensures (heard + [call])[..|heard|] == heard
  {
    assert (heard + [call])[..|heard|] == heard;
  }

  // What the embedder's reply to one call comes to.
  lemma JoinFed(turns: Turns, c: Core, call: Call, fmt: nat, found: seq<string>, turn: Turn, book: bool, near: (Vector, Vector) -> bool)
    requires fmt < |c.produced| && turn == turns(|c.heard|) && turn.Answered? && found == Put(call, turn)
    requires Fed(turns, c) && (call.Harvested? ==> !AnyMisfit(turn.answers, |call.asked|))
    ensures Breaks(Sent(turns, c.heard), call, turn) <==> Raises(c.kept, found, turn.embed(found), near)
    ensures !Breaks(Sent(turns, c.heard), call, turn) ==>
      Fits(KeptNow(c.kept, found, turn.embed(found), near), Sent(turns, c.heard) + SentFor(call, turn))
  {
    hide Fits, Stumbles, Spoils, AnyMisfit, Put, KeptAfter;
    var sent, vectors := Sent(turns, c.heard), SentFor(call, turn);
    StumblesIff(c.kept, sent, vectors, near);
    NothingSent(sent);
    if vectors == [] {
      StumblesNone(c.kept, near);
    }
  }

  lemma NothingSent(sent: seq<Vector>)
    ensures !Spoils(sent, []) && sent + [] == sent
  {
  }

  lemma JoinLeads(turns: Turns, c: Core, call: Call, reached: seq<bool>, cursor: nat, fmt: nat, found: seq<string>, turn: Turn, book: bool, near: (Vector, Vector) -> bool)
    requires fmt < |c.produced| && c.left > 0 && turn == turns(|c.heard|) && turn.Answered? && found == Put(call, turn)
    requires call.Harvested? ==> !AnyMisfit(turn.answers, |call.asked|)
    ensures Leads(turns, c, Join(Calling(c, call).(reached := reached, cursor := cursor), fmt, found, turn.embed(found), book, near))
  {
    hide Breaks, Total, TakenOf, KeepFlags, KeptNow, StemsOf, Raises, Sent, SentFor, Put, AnyMisfit, Fits;
    var d := Calling(c, call).(reached := reached, cursor := cursor);
    assert d.heard[|c.heard|] == call;
    var p := Join(d, fmt, found, turn.embed(found), book, near);
    SentNext(turns, c.heard, call);
    if Fed(turns, c) { JoinFed(turns, c, call, fmt, found, turn, book, near); }
    if p.Going? { TotalUpdate(c.produced, fmt, p.core.produced[fmt]); }
  }

  lemma DeadLeads(turns: Turns, c: Core, call: Call, cursor: nat)
    requires c.left > 0 && turns(|c.heard|).Dead?
    ensures Leads(turns, c, Going(Calling(c, call).(cursor := cursor)))
  {
    hide Sent, Fits, Put;
    SentNext(turns, c.heard, call);
    NothingSent(Sent(turns, c.heard));
  }

  lemma WriteLeads(plan: Plan, turns: Turns, c: Core, fmt: nat, wanted: nat)
    requires Shaped(plan, c) && fmt < |plan.shares|
    ensures Leads(turns, c, Write(plan, turns, c, fmt, wanted))
  {
    hide Leads, Offered, Join, Raises;
    if Spent(plan, c) {
      LeadsNowhere(turns, c, c);
    } else {
      var turn := turns(|c.heard|);
      if turn.Dead? {
        DeadLeads(turns, c, Wrote(fmt, wanted), c.cursor);
      } else {
        JoinLeads(turns, c, Wrote(fmt, wanted), c.reached[fmt := true], c.cursor, fmt, Offered(turn, wanted), turn, false, plan.near);
      }
    }
  }

  lemma HearBreaks(turns: Turns, c: Core, fmt: nat, asked: seq<string>, cursor: nat)
    requires c.left > 0 && turns(|c.heard|).Answered? && AnyMisfit(turns(|c.heard|).answers, |asked|)
    ensures Leads(turns, c, Broken(c.heard + [Harvested(fmt, asked)], c.left - 1))
  {
    hide Sent, Fits, Put;
    SentNext(turns, c.heard, Harvested(fmt, asked));
  }

  lemma TakeBookLeads(plan: Plan, turns: Turns, c: Core, fmt: nat, wanted: nat)
    requires Shaped(plan, c) && fmt < |plan.shares| && c.cursor <= |plan.printed|
    ensures Leads(turns, c, TakeBook(plan, turns, c, fmt, wanted))
  {
    hide Leads, Usable, FirstOf, Answering, Join, Raises, AnyMisfit;
    var n := NextBatch(plan.printed, c.cursor);
    if n == |plan.printed| {
      LeadsNowhere(turns, c, c.(cursor := n));
    } else if c.left <= 0 {
      LeadsNowhere(turns, c, c.(cursor := n + 1));
    } else {
      var asked, turn := FirstOf(Usable(plan.printed[n]), wanted), turns(|c.heard|);
      if turn.Dead? {
        DeadLeads(turns, c, Harvested(fmt, asked), n + 1);
      } else if AnyMisfit(turn.answers, |asked|) {
        HearBreaks(turns, c, fmt, asked, n + 1);
      } else {
        JoinLeads(turns, c, Harvested(fmt, asked), c.reached, n + 1, fmt, Answering(turn.answers, asked), turn, true, plan.near);
      }
    }
  }

  lemma {:induction false} HarvestLeads(plan: Plan, turns: Turns, c: Core, position: nat)
    requires Shaped(plan, c) && c.cursor <= |plan.printed| && plan.shares != []
    ensures Leads(turns, c, Harvest(plan, turns, c, position))
    decreases |plan.printed| - c.cursor
  {
    hide Leads, TakeBook;
    LeadsNowhere(turns, c, c);
    if !(|c.accepted| >= plan.share || c.cursor == |plan.printed| || c.left <= 0) {
      var fmt, wanted := position % |plan.shares|, plan.share - |c.accepted|;
      TakeBookLeads(plan, turns, c, fmt, wanted);
      var p := TakeBook(plan, turns, c, fmt, wanted);
      if p.Going? {
        HarvestLeads(plan, turns, p.core, position + 1);
        LeadsOn(turns, c, p.core, Harvest(plan, turns, p.core, position + 1));
      }
    }
  }

  lemma {:induction false} ShareLeads(plan: Plan, turns: Turns, c: Core, fmt: nat, remaining: int, rounds: nat)
    requires Shaped(plan, c) && fmt < |plan.shares|
    ensures Leads(turns, c, Share(plan, turns, c, fmt, remaining, rounds))
    decreases rounds
  {
    hide Leads, Write;
    LeadsNowhere(turns, c, c);
    if !(rounds == 0 || remaining <= 0 || Spent(plan, c)) {
      WriteLeads(plan, turns, c, fmt, remaining);
      var p := Write(plan, turns, c, fmt, remaining);
      if p.Going? {
        var rest := remaining - (|p.core.accepted| - |c.accepted|);
        ShareLeads(plan, turns, p.core, fmt, rest, rounds - 1);
        LeadsOn(turns, c, p.core, Share(plan, turns, p.core, fmt, rest, rounds - 1));
      }
    }
  }

  lemma {:induction false} SharesLead(plan: Plan, turns: Turns, c: Core, fmt: nat)
    requires Shaped(plan, c) && fmt <= |plan.shares|
    ensures Leads(turns, c, Shares(plan, turns, c, fmt))
    decreases |plan.shares| - fmt
  {
    hide Leads, Share;
    LeadsNowhere(turns, c, c);
    if fmt < |plan.shares| {
      ShareLeads(plan, turns, c, fmt, plan.shares[fmt], plan.batches);
      var p := Share(plan, turns, c, fmt, plan.shares[fmt], plan.batches);
      if p.Going? {
        SharesLead(plan, turns, p.core, fmt + 1);
        LeadsOn(turns, c, p.core, Shares(plan, turns, p.core, fmt + 1));
      }
    }
  }

  lemma {:induction false} SweepLeads(plan: Plan, turns: Turns, c: Core, order: seq<nat>, k: nat)
    requires Shaped(plan, c) && InPlan(plan, order) && k <= |order|
    ensures Leads(turns, c, Sweep(plan, turns, c, order, k))
    decreases |order| - k
  {
    hide Leads, Write, Target;
    LeadsNowhere(turns, c, c);
    if !(k == |order| || |c.accepted| >= Target(plan) || Spent(plan, c)) {
      WriteLeads(plan, turns, c, order[k], Target(plan) - |c.accepted|);
      var p := Write(plan, turns, c, order[k], Target(plan) - |c.accepted|);
      if p.Going? {
        SweepLeads(plan, turns, p.core, order, k + 1);
        LeadsOn(turns, c, p.core, Sweep(plan, turns, p.core, order, k + 1));
      }
    }
  }

  lemma {:induction false} BackfillLeads(plan: Plan, turns: Turns, c: Core, order: seq<nat>)
    requires Shaped(plan, c) && InPlan(plan, order)
    ensures Leads(turns, c, Backfill(plan, turns, c, order))
    decreases c.left
  {
    hide Leads, Sweep, Target, StillWorth, NoneWorks;
    LeadsNowhere(turns, c, c);
    if !(|c.accepted| >= Target(plan) || order == [] || Spent(plan, c)) {
      SweepSpends(plan, turns, c, order, 0);
      SweepLeads(plan, turns, c, order, 0);
      var p := Sweep(plan, turns, c, order, 0);
      if p.Going? {
        var next := StillWorth(plan, p.core, order);
        if !(|p.core.accepted| == |c.accepted| && NoneWorks(plan, p.core, next)) {
          BackfillLeads(plan, turns, p.core, next);
          LeadsOn(turns, c, p.core, Backfill(plan, turns, p.core, next));
        }
      }
    }
  }

  lemma AfterBookLeads(plan: Plan, turns: Turns, limit: int)
    requires Sensible(plan)
    ensures Leads(turns, Start(plan, limit), AfterBook(plan, turns, limit))
  {
    hide Leads, Harvest;
    if plan.share == 0 {
      LeadsNowhere(turns, Start(plan, limit), Start(plan, limit));
    } else {
      SharesExist(plan);
      HarvestLeads(plan, turns, Start(plan, limit), 0);
    }
  }

  lemma AfterSharesLead(plan: Plan, turns: Turns, limit: int)
    requires Sensible(plan)
    ensures Leads(turns, Start(plan, limit), AfterShares(plan, turns, limit))
  {
    hide Leads, AfterBook, Shares, Start;
    AfterBookLeads(plan, turns, limit);
    var p := AfterBook(plan, turns, limit);
    if p.Going? {
      SharesLead(plan, turns, p.core, 0);
      LeadsOn(turns, Start(plan, limit), p.core, Shares(plan, turns, p.core, 0));
    }
  }

  lemma RunLeads(plan: Plan, turns: Turns, limit: int)
    requires Sensible(plan)
    ensures Leads(turns, Start(plan, limit), Run(plan, turns, limit))
  {
    hide Leads, AfterShares, Backfill, RetryOrder, Start;
    AfterSharesLead(plan, turns, limit);
    var p := AfterShares(plan, turns, limit);
    if p.Going? {
      BackfillLeads(plan, turns, p.core, RetryOrder(plan, p.core));
      LeadsOn(turns, Start(plan, limit), p.core, Backfill(plan, turns, p.core, RetryOrder(plan, p.core)));
    }
  }

  /** A run breaks exactly when some reply it hears breaks it: a harvesting reply with an asked,
      settled answer that does not fit the contract, or an embedder's with the wrong number of
      vectors, or one that makes two vectors or more in all with one that is not numbers. It then
      ends at that call. */
  lemma BreaksIff(plan: Plan, turns: Turns, limit: int)
    requires Sensible(plan)
    ensures var p := Run(plan, turns, limit);
      && (p.Broken? <==> exists k :: 0 <= k < |HeardOf(p)| && Breaks(Sent(turns, HeardOf(p)[..k]), HeardOf(p)[k], turns(k)))
      && (p.Broken? ==> p.heard != [] && Survived(turns, p.heard, 0, |p.heard| - 1))
      && LeftOf(p) == limit - |HeardOf(p)| && (HeardOf(p) != [] ==> |HeardOf(p)| <= limit)
  {
    hide Breaks, Run;
    RunLeads(plan, turns, limit);
    assert Start(plan, limit).heard == [] && Fed(turns, Start(plan, limit));
    hide Sent, Fits;
  }
}
