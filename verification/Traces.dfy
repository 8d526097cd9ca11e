/** The record a generation run keeps of itself: `services/generation_trace.py`. A format is
    its place in the plan; a tally with no calls is one the payload does not show yet. */
module Traces {

  datatype Tally = Tally(calls: nat, accepted: nat, harvested: nat, rejected: nat, failedCalls: nat)

  datatype Totals = Totals(accepted: nat, harvested: nat, rejected: nat, deduped: int, finalCount: nat)

  datatype Summary = Summary(target: int, budget: int, llmMs: nat, llmCalls: nat, totals: Totals, tallies: seq<Tally>)

  datatype Payload = Payload(finished: bool, steps: seq<string>, summary: Summary)

  function Sum(tallies: seq<Tally>, part: Tally -> nat): nat {
    if tallies == [] then 0 else Sum(tallies[..|tallies| - 1], part) + part(tallies[|tallies| - 1])
  }

  lemma {:induction false} SumUpdate(tallies: seq<Tally>, k: nat, t: Tally, part: Tally -> nat)
    requires k < |tallies|
    ensures Sum(tallies[k := t], part) == Sum(tallies, part) - part(tallies[k]) + part(t)
  {
    var n := |tallies| - 1;
    if k == n {
      assert tallies[k := t][..n] == tallies[..n];
    } else {
      SumUpdate(tallies[..n], k, t, part);
      assert tallies[k := t][..n] == tallies[..n][k := t];
    }
  }

  lemma {:induction false} SumOfBlank(n: nat, part: Tally -> nat)
    requires part(Tally(0, 0, 0, 0, 0)) == 0
    ensures Sum(seq(n, _ => Tally(0, 0, 0, 0, 0)), part) == 0
  {
    if n > 0 {
      assert seq(n, _ => Tally(0, 0, 0, 0, 0))[..n - 1] == seq(n - 1, _ => Tally(0, 0, 0, 0, 0));
      SumOfBlank(n - 1, part);
    }
  }

  // How many of the steps are model calls.
  function LlmSteps(steps: seq<string>): nat {
    if steps == [] then 0 else LlmSteps(steps[..|steps| - 1]) + (if steps[|steps| - 1] == "llm" then 1 else 0)
  }

  const CALLS := (t: Tally) => t.calls
  const ACCEPTED := (t: Tally) => t.accepted
  const HARVESTED := (t: Tally) => t.harvested
  const REJECTED := (t: Tally) => t.rejected

  // What one call adds to its format's tally.
  function Entered(t: Tally, accepted: nat, reasons: nat, failed: bool, harvested: bool): Tally {
    if failed then t.(calls := t.calls + 1, failedCalls := t.failedCalls + 1)
    else Tally(t.calls + 1, t.accepted + accepted, t.harvested + (if harvested then accepted else 0), t.rejected + reasons, t.failedCalls)
  }

  lemma {:induction false} LlmStepsNext(steps: seq<string>)
    ensures LlmSteps(steps + ["llm"]) == LlmSteps(steps) + 1
  {
    assert (steps + ["llm"])[..|steps|] == steps;
  }

  class GenerationTrace {
    const budget: int
    const target: int
    var steps: seq<string>
    var calls: nat
    var llmMs: nat
    var tallies: seq<Tally>
    var totals: Totals

    /** The books balance: the calls are the formats' calls and the "llm" steps, and each
        total is the sum of the formats' tallies. */
    ghost predicate Valid()
      reads this
    {
      && calls == Sum(tallies, CALLS) == LlmSteps(steps)
      && totals.accepted == Sum(tallies, ACCEPTED)
      && totals.harvested == Sum(tallies, HARVESTED)
      && totals.rejected == Sum(tallies, REJECTED)
      && forall k :: 0 <= k < |tallies| ==> tallies[k].harvested <= tallies[k].accepted && tallies[k].failedCalls <= tallies[k].calls
    }

    constructor (budget: int, target: int, formats: nat)
      ensures Valid() && calls == 0 && |tallies| == formats && totals == Totals(0, 0, 0, 0, 0)
      ensures tallies == seq(formats, _ => Tally(0, 0, 0, 0, 0))
      ensures this.budget == budget && this.target == target
    {
      this.budget, this.target := budget, target;
      steps, calls, llmMs := [], 0, 0;
      tallies := seq(formats, _ => Tally(0, 0, 0, 0, 0));
      totals := Totals(0, 0, 0, 0, 0);
      SumOfBlank(formats, CALLS);
      SumOfBlank(formats, ACCEPTED);
      SumOfBlank(formats, HARVESTED);
      SumOfBlank(formats, REJECTED);
    }

    // A stage that is not a model call.
    method Step(name: string)
      requires Valid() && name != "llm"
      modifies this`steps
      ensures Valid() && steps == old(steps) + [name]
    {
      steps := steps + [name];
    }

    method Call(fmt: nat, ms: nat, accepted: nat, reasons: seq<string>, failed: bool, harvested: bool)
      requires Valid() && fmt < |tallies|
      requires failed ==> accepted == 0 && reasons == []
      modifies this`steps, this`calls, this`llmMs, this`tallies, this`totals
      ensures Valid()
      ensures calls == old(calls) + 1 && llmMs == old(llmMs) + ms && steps == old(steps) + ["llm"]
      ensures tallies == old(tallies)[fmt := Entered(old(tallies)[fmt], accepted, |reasons|, failed, harvested)]
      ensures totals == old(totals).(accepted := old(totals).accepted + accepted, rejected := old(totals).rejected + |reasons|,
                                     harvested := old(totals).harvested + (if harvested then accepted else 0))
    {
      hide Sum, LlmSteps;
      LlmStepsNext(steps);
      var entered := Entered(tallies[fmt], accepted, |reasons|, failed, harvested);
      SumUpdate(tallies, fmt, entered, CALLS);
      SumUpdate(tallies, fmt, entered, ACCEPTED);
      SumUpdate(tallies, fmt, entered, HARVESTED);
      SumUpdate(tallies, fmt, entered, REJECTED);
      calls, llmMs := calls + 1, llmMs + ms;
      tallies := tallies[fmt := entered];
      if !failed {
        totals := totals.(accepted := totals.accepted + accepted, rejected := totals.rejected + |reasons|);
        if harvested {
          totals := totals.(harvested := totals.harvested + accepted);
        }
      }
      steps := steps + ["llm"];
    }

    method Dedupe(before: int, after: int)
      requires Valid()
      modifies this`steps, this`totals
      ensures Valid() && totals == old(totals).(deduped := before - after) && steps == old(steps) + ["dedupe"]
    {
      totals := totals.(deduped := before - after);
      Step("dedupe");
    }

    function Snapshot(): Payload
      reads this
    {
      Payload(false, steps, Summary(target, budget, llmMs, calls, totals, tallies))
    }

    method Finish(finalCount: nat) returns (p: Payload)
      requires Valid()
      modifies this`totals
      ensures Valid() && totals == old(totals).(finalCount := finalCount)
      ensures p == Snapshot().(finished := true)
    {
      totals := totals.(finalCount := finalCount);
      p := Snapshot().(finished := true);
    }
  }
}
