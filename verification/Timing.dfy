/** When a sitting can be begun, written and handed in, told from the paper and the clock. */
module Timing {
  import opened Wrappers
  import opened Grading
  import opened Sittings
  import Papers

  // Before the paper closes, and within its length counted from when the sitting began.
  predicate InTime(p: Papers.Row, began: int, now: int) {
    (p.closes.Some? ==> now < p.closes.value) && (p.length.Some? && p.length.value > 0 ==> now < began + p.length.value)
  }

  /** A sitting's deadline is the earlier of the paper's closing and its length after the start; there is
      none when the paper has neither. */
  lemma DeadlineIs(p: Papers.Row, began: int, now: int)
    ensures Deadline(p, began).Some? ==> (now < Deadline(p, began).value <==> InTime(p, began, now))
    ensures Deadline(p, began).None? <==> p.closes.None? && (p.length.None? || p.length.value == 0)
  {
  }

  /** A sitting begins exactly when the paper is published and open, unless the sitter's was voided; one
      begun before is taken up as it stands. */
  lemma BeginsIff(p: Papers.Row, existing: Option<Row>, now: int)
    ensures var r := Start(p, existing, now);
      && (r.Ok? <==> p.status == Papers.Published && (p.opens.Some? ==> p.opens.value <= now) && (p.closes.Some? ==> now < p.closes.value)
                     && (existing.Some? ==> existing.value.status != Voided))
      && (r.Ok? && existing.Some? ==> r.value == existing.value)
      && (r.Ok? && existing.None? ==> r.value.status == InProgress && r.value.startedAt == now && r.value.answers == [] && r.value.score.None?)
  {
  }

  // Neither hands the sitting in nor voids it.
  predicate LeavesOpen(e: Event) { !e.Submitting? && !e.Voiding? }

  lemma {:induction false} StaysOpen(a: Row, p: Papers.Row, run: seq<Timed>, upper: string -> string)
    requires forall k :: 0 <= k < |run| ==> LeavesOpen(run[k].event)
    ensures Run(a, p, run, upper).status == a.status && Run(a, p, run, upper).deadline == a.deadline
    decreases |run|
  {
    hide MarkAll, Total, Quantize, WithRow, Locate;
    if run != [] { StaysOpen(Step(a, p, run[0].event, run[0].at, upper), p, run[1..], upper); }
  }

  /** Through any run that does not end it, a sitting takes a response exactly until the paper closes or
      its length has passed since the start, for exactly the questions of the paper; and what it takes
      is what is then on record, and nothing else changes. */
  lemma {:induction false} TakesUntil(p: Papers.Row, began: int, run: seq<Timed>, upper: string -> string, question: nat, response: Option<string>, now: int)
    requires Start(p, None, began).Ok? && forall k :: 0 <= k < |run| ==> LeavesOpen(run[k].event)
    ensures var a := Run(Start(p, None, began).value, p, run, upper);
      var r := Save(a, p, question, response, now);
      && (r.Ok? <==> InTime(p, began, now) && exists k :: 0 <= k < |p.questions| && p.questions[k].id == question)
      && (r.Ok? ==> r.value == a.(answers := r.value.answers) && ResponseTo(r.value.answers, question) == response)
      && (r.Ok? ==> forall other :: other != question ==> ResponseTo(r.value.answers, other) == ResponseTo(a.answers, other))
  {
    hide Run;
    var start := Start(p, None, began).value;
    StaysOpen(start, p, run, upper);
    DeadlineIs(p, began, now);
    var a := Run(start, p, run, upper);
    var r := Save(a, p, question, response, now);
    if r.Ok? {
      SaveTakes(a, p, question, response, now);
      var row := WithRow(a.answers, question)[Locate(a.answers, question)].(response := response);
      forall other | other != question ensures ResponseTo(r.value.answers, other) == ResponseTo(a.answers, other) {
        RowSetKeepsOthers(a.answers, question, row, other);
      }
    }
  }

  /** Handing in ends a running sitting and no other, and tells one that the clock ended from one that
      the sitter did. */
  lemma {:induction false} HandsIn(p: Papers.Row, began: int, run: seq<Timed>, upper: string -> string, automatic: bool, now: int)
    requires Start(p, None, began).Ok? && forall k :: 0 <= k < |run| ==> LeavesOpen(run[k].event)
    ensures var a := Run(Start(p, None, began).value, p, run, upper);
      Submit(a, automatic, now) == a.(submittedAt := Some(now), status := if !automatic && InTime(p, began, now) then Submitted else AutoSubmitted)
    ensures forall a: Row :: a.status != InProgress ==> Submit(a, automatic, now) == a
  {
    hide Run;
    var start := Start(p, None, began).value;
    StaysOpen(start, p, run, upper);
    DeadlineIs(p, began, now);
  }

  /** A result is released exactly when it has been graded, and once. */
  lemma ReleasesIff(a: Row, now: int)
    ensures Release(a, now).Ok? <==> a.gradedAt.Some?
    ensures Release(a, now).Ok? ==> Release(a, now).value == a.(releasedAt := if a.releasedAt.Some? then a.releasedAt else Some(now))
  {
  }
}
