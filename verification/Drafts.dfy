/** What a drafting run does, step by step, as a function of the plan and of what the model and
    the embedder answer: the passes of `generate_questions` in `services/assessments.py`. A run
    is broken when an error escapes it. */
module Drafts {
  import opened Wrappers
  import opened Generation

  // Shares for each format, the book's questions in batches, how many of them to take, and how
  // many batches of passages there are to write from.
  datatype Plan = Plan(shares: seq<nat>, printed: seq<seq<BookQuestion>>, share: nat, batches: nat, near: (Vector, Vector) -> bool)

  // What a call asked for, and for which format: some questions written, or some of the book's
  // answered.
  datatype Call = Wrote(format: nat, wanted: nat) | Harvested(format: nat, asked: seq<string>)

  // Where a run has got to. `heard` is the calls made; the k-th is answered by the k-th turn.
  datatype Core = Core(accepted: seq<Taken>, produced: seq<nat>, reached: seq<bool>, stems: set<string>,
                       cursor: nat, kept: seq<Vector>, left: int, heard: seq<Call>)

  datatype Progress = Going(core: Core) | Broken(heard: seq<Call>, left: int)

  type Turns = nat -> Turn

  function Target(plan: Plan): nat { Total(plan.shares) }

  predicate Shaped(plan: Plan, c: Core) { |c.produced| == |c.reached| == |plan.shares| }

  predicate Spent(plan: Plan, c: Core) { c.left <= 0 || plan.batches == 0 }

  // ------------------------------------------------------------------- one call

  function TakenOf(found: seq<string>, flags: seq<bool>, fmt: nat): (r: seq<Taken>)
    requires |flags| == |found|
    ensures |r| <= |found|
    ensures forall k :: 0 <= k < |r| ==> r[k].format == fmt && r[k].stem in found
  {
    if found == [] then []
    else
      var n := |found| - 1;
      TakenOf(found[..n], flags[..n], fmt) + (if flags[n] then [Taken(found[n], fmt)] else [])
  }

  function StemsOf(taken: seq<Taken>): set<string> { set k | 0 <= k < |taken| :: taken[k].stem }

  // The sound questions of a reply, once the near-duplicates among them are turned away.
  function Join(c: Core, fmt: nat, found: seq<string>, vectors: Option<seq<Vector>>, book: bool, near: (Vector, Vector) -> bool): (p: Progress)
    requires fmt < |c.produced|
    ensures p.Going? ==> |p.core.produced| == |c.produced| && p.core.reached == c.reached && p.core.left == c.left
  {
    if Raises(c.kept, found, vectors, near) then Broken(c.heard, c.left)
    else
      var taken := TakenOf(found, KeepFlags(c.kept, found, vectors, near), fmt);
      Going(c.(accepted := c.accepted + taken, produced := c.produced[fmt := c.produced[fmt] + |taken|],
               stems := if book then c.stems + StemsOf(taken) else c.stems, kept := KeptNow(c.kept, found, vectors, near)))
  }

  function Calling(c: Core, call: Call): Core { c.(left := c.left - 1, heard := c.heard + [call]) }

  // What a writing reply comes to, once its call is made.
  function Replied(plan: Plan, d: Core, fmt: nat, wanted: nat, turn: Turn): (p: Progress)
    requires Shaped(plan, d) && fmt < |plan.shares|
    ensures p.Going? ==> Shaped(plan, p.core) && p.core.left == d.left
  {
    if turn.Dead? then Going(d)
    else
      var found := Offered(turn, wanted);
      Join(d.(reached := d.reached[fmt := true]), fmt, found, turn.embed(found), false, plan.near)
  }

  // `ask`
  function Write(plan: Plan, turns: Turns, c: Core, fmt: nat, wanted: nat): (p: Progress)
    requires Shaped(plan, c) && fmt < |plan.shares|
    ensures p.Going? ==> Shaped(plan, p.core) && p.core.left == if Spent(plan, c) then c.left else c.left - 1
  {
    if Spent(plan, c) then Going(c)
    else Replied(plan, Calling(c, Wrote(fmt, wanted)), fmt, wanted, turns(|c.heard|))
  }

  // The first batch from here on with a usable question, or the end.
  function NextBatch(printed: seq<seq<BookQuestion>>, cursor: nat): (n: nat)
    requires cursor <= |printed|
    ensures cursor <= n <= |printed|
    ensures n < |printed| ==> Usable(printed[n]) != []
    ensures forall k :: cursor <= k < n ==> Usable(printed[k]) == []
    decreases |printed| - cursor
  {
    if cursor == |printed| || Usable(printed[cursor]) != [] then cursor else NextBatch(printed, cursor + 1)
  }

  // `take_from_book`
  function TakeBook(plan: Plan, turns: Turns, c: Core, fmt: nat, wanted: nat): (p: Progress)
    requires Shaped(plan, c) && fmt < |plan.shares| && c.cursor <= |plan.printed|
    ensures p.Going? ==> Shaped(plan, p.core) && p.core.cursor <= |plan.printed|
    ensures p.Going? && c.cursor < |plan.printed| ==> c.cursor < p.core.cursor
  {
    var n := NextBatch(plan.printed, c.cursor);
    if n == |plan.printed| then Going(c.(cursor := n))
    else if c.left <= 0 then Going(c.(cursor := n + 1))
    else
      var asked := FirstOf(Usable(plan.printed[n]), wanted);
      Hear(plan, c.(cursor := n + 1), fmt, asked, turns(|c.heard|))
  }

  function Hear(plan: Plan, c: Core, fmt: nat, asked: seq<string>, turn: Turn): (p: Progress)
    requires Shaped(plan, c) && fmt < |plan.shares|
    ensures p.Going? ==> Shaped(plan, p.core) && p.core.cursor == c.cursor
  {
    Settled(plan, Calling(c, Harvested(fmt, asked)), fmt, asked, turn)
  }

  // What a harvesting reply comes to, once its call is made.
  function Settled(plan: Plan, d: Core, fmt: nat, asked: seq<string>, turn: Turn): (p: Progress)
    requires Shaped(plan, d) && fmt < |plan.shares|
    ensures p.Going? ==> Shaped(plan, p.core) && p.core.cursor == d.cursor
  {
    if turn.Dead? then Going(d)
    else if AnyMisfit(turn.answers, |asked|) then Broken(d.heard, d.left)
    else
      var found := Answering(turn.answers, asked);
      Join(d, fmt, found, turn.embed(found), true, plan.near)
  }

  // --------------------------------------------------------------------- the passes

  // Pass zero, from a position in the round of formats on.
  function Harvest(plan: Plan, turns: Turns, c: Core, position: nat): (p: Progress)
    requires Shaped(plan, c) && c.cursor <= |plan.printed| && plan.shares != []
    ensures p.Going? ==> Shaped(plan, p.core) && p.core.cursor <= |plan.printed|
    decreases |plan.printed| - c.cursor
  {
    if |c.accepted| >= plan.share || c.cursor == |plan.printed| || c.left <= 0 then Going(c)
    else
      var p := TakeBook(plan, turns, c, position % |plan.shares|, plan.share - |c.accepted|);
      if p.Broken? then p else Harvest(plan, turns, p.core, position + 1)
  }

  // A format's share of pass one: so many rounds at most.
  function Share(plan: Plan, turns: Turns, c: Core, fmt: nat, remaining: int, rounds: nat): (p: Progress)
    requires Shaped(plan, c) && fmt < |plan.shares|
    ensures p.Going? ==> Shaped(plan, p.core)
    decreases rounds
  {
    if rounds == 0 || remaining <= 0 || Spent(plan, c) then Going(c)
    else
      var p := Write(plan, turns, c, fmt, remaining);
      if p.Broken? then p
      else Share(plan, turns, p.core, fmt, remaining - (|p.core.accepted| - |c.accepted|), rounds - 1)
  }

  // Pass one, from a format on.
  function Shares(plan: Plan, turns: Turns, c: Core, fmt: nat): (p: Progress)
    requires Shaped(plan, c) && fmt <= |plan.shares|
    ensures p.Going? ==> Shaped(plan, p.core)
    decreases |plan.shares| - fmt
  {
    if fmt == |plan.shares| then Going(c)
    else
      var p := Share(plan, turns, c, fmt, plan.shares[fmt], plan.batches);
      if p.Broken? then p else Shares(plan, turns, p.core, fmt + 1)
  }

  predicate InPlan(plan: Plan, order: seq<nat>) { forall k :: 0 <= k < |order| ==> order[k] < |plan.shares| }

  // One round of the backfill, from a place in its order on.
  function Sweep(plan: Plan, turns: Turns, c: Core, order: seq<nat>, k: nat): (p: Progress)
    requires Shaped(plan, c) && InPlan(plan, order) && k <= |order|
    ensures p.Going? ==> Shaped(plan, p.core)
    decreases |order| - k
  {
    if k == |order| || |c.accepted| >= Target(plan) || Spent(plan, c) then Going(c)
    else
      var p := Write(plan, turns, c, order[k], Target(plan) - |c.accepted|);
      if p.Broken? then p else Sweep(plan, turns, p.core, order, k + 1)
  }

  // A format still worth asking: one that has worked, or that was never given a hearing.
  predicate Worth(c: Core, fmt: nat)
    requires fmt < |c.produced| == |c.reached|
  {
    c.produced[fmt] > 0 || !c.reached[fmt]
  }

  function StillWorth(plan: Plan, c: Core, order: seq<nat>): (r: seq<nat>)
    requires Shaped(plan, c) && InPlan(plan, order)
    ensures InPlan(plan, r)
    ensures forall f: nat :: f in r <==> f in order && f < |plan.shares| && Worth(c, f)
  {
    if order == [] then []
    else StillWorth(plan, c, order[..|order| - 1]) + (if Worth(c, order[|order| - 1]) then [order[|order| - 1]] else [])
  }

  function Working(produced: seq<nat>): (r: seq<nat>)
    ensures forall f: nat :: f in r <==> f < |produced| && produced[f] > 0
  {
    if produced == [] then []
    else
      var last := |produced| - 1;
      Working(produced[..last]) + (if produced[last] > 0 then [last] else [])
  }

  function Unproven(produced: seq<nat>, reached: seq<bool>): (r: seq<nat>)
    requires |produced| == |reached|
    ensures forall f: nat :: f in r <==> f < |produced| && produced[f] == 0 && !reached[f]
  {
    if produced == [] then []
    else
      var last := |produced| - 1;
      Unproven(produced[..last], reached[..last]) + (if produced[last] == 0 && !reached[last] then [last] else [])
  }

  // The formats that have worked, then those no call of which was ever heard.
  function RetryOrder(plan: Plan, c: Core): (r: seq<nat>)
    requires Shaped(plan, c)
    ensures InPlan(plan, r)
  {
    var r := Working(c.produced) + Unproven(c.produced, c.reached);
    assert forall k :: 0 <= k < |r| ==> r[k] in r;
    r
  }

  predicate NoneWorks(plan: Plan, c: Core, order: seq<nat>)
    requires Shaped(plan, c) && InPlan(plan, order)
  {
    forall k :: 0 <= k < |order| ==> c.produced[order[k]] == 0
  }

  // Pass two.
  function Backfill(plan: Plan, turns: Turns, c: Core, order: seq<nat>): (p: Progress)
    requires Shaped(plan, c) && InPlan(plan, order)
    ensures p.Going? ==> Shaped(plan, p.core)
    decreases c.left
  {
    if |c.accepted| >= Target(plan) || order == [] || Spent(plan, c) then Going(c)
    else
      SweepSpends(plan, turns, c, order, 0);
      var p := Sweep(plan, turns, c, order, 0);
      if p.Broken? then p
      else
        var next := StillWorth(plan, p.core, order);
        if |p.core.accepted| == |c.accepted| && NoneWorks(plan, p.core, next) then p
        else Backfill(plan, turns, p.core, next)
  }

  lemma {:induction false} SweepSpends(plan: Plan, turns: Turns, c: Core, order: seq<nat>, k: nat)
    requires Shaped(plan, c) && InPlan(plan, order) && k <= |order|
    ensures Sweep(plan, turns, c, order, k).Going? ==> Sweep(plan, turns, c, order, k).core.left <= c.left
    ensures var p := Sweep(plan, turns, c, order, k);
      p.Going? && k < |order| && |c.accepted| < Target(plan) && !Spent(plan, c) ==> p.core.left < c.left
    decreases |order| - k
  {
    hide Target, Write;
    if !(k == |order| || |c.accepted| >= Target(plan) || Spent(plan, c)) {
      var p := Write(plan, turns, c, order[k], Target(plan) - |c.accepted|);
      if p.Going? { SweepSpends(plan, turns, p.core, order, k + 1); }
    }
  }

  // ------------------------------------------------------------------------ the run

  function Start(plan: Plan, limit: int): Core {
    Core([], seq(|plan.shares|, _ => 0), seq(|plan.shares|, _ => false), {}, 0, [], limit, [])
  }

  // The paper takes no more from the book than it has room for.
  predicate Sensible(plan: Plan) { plan.share <= Target(plan) }

  lemma SharesExist(plan: Plan)
    requires Sensible(plan) && plan.share > 0
    ensures plan.shares != []
  {
  }

  function AfterBook(plan: Plan, turns: Turns, limit: int): (p: Progress)
    requires Sensible(plan)
    ensures p.Going? ==> Shaped(plan, p.core)
  {
    if plan.share == 0 then Going(Start(plan, limit))
    else SharesExist(plan); Harvest(plan, turns, Start(plan, limit), 0)
  }

  function AfterShares(plan: Plan, turns: Turns, limit: int): (p: Progress)
    requires Sensible(plan)
    ensures p.Going? ==> Shaped(plan, p.core)
  {
    var p := AfterBook(plan, turns, limit);
    if p.Broken? then p else Shares(plan, turns, p.core, 0)
  }

  function Run(plan: Plan, turns: Turns, limit: int): (p: Progress)
    requires Sensible(plan)
    ensures p.Going? ==> Shaped(plan, p.core)
  {
    var p := AfterShares(plan, turns, limit);
    if p.Broken? then p else Backfill(plan, turns, p.core, RetryOrder(plan, p.core))
  }
}
