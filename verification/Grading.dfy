/** Marking: `quantize`, `grade_mcq` and `grade_answer` of `services/grading.py`, and the
    pass over a whole attempt in `workers/tasks/grading.py`. A stored mark is a whole number
    of cents, as its `numeric(10,2)` column holds it. */
module Grading {
  import opened Text
  import opened Wrappers

  // `Decimal.quantize(0.01, ROUND_HALF_UP)`, in cents: ties go away from zero.
  function Quantize(value: real): (cents: int)
    ensures value >= 0.0 ==> value * 100.0 - 0.5 < cents as real <= value * 100.0 + 0.5
    ensures value < 0.0 ==> value * 100.0 - 0.5 <= cents as real < value * 100.0 + 0.5
  {
    if value >= 0.0 then (value * 100.0 + 0.5).Floor else -((-value * 100.0 + 0.5).Floor)
  }

  // Rounding a mark never takes it past a bound that is itself in whole cents.
  lemma QuantizeStaysWithin(value: real, bound: nat)
    requires 0.0 <= value <= bound as real / 100.0
    ensures 0 <= Quantize(value) <= bound
  {
  }

  lemma QuantizeWholeCents(cents: int)
    ensures Quantize(cents as real / 100.0) == cents
  {
  }

  // ------------------------------------------------------------------- marks

  datatype Grader = Auto | Human

  // The columns of a question that marking reads. `points` is in cents.
  datatype Question = Question(id: nat, index: nat, correct: Option<string>, points: nat)

  datatype Answer = Answer(question: nat, response: Option<string>, awarded: Option<int>, grader: Option<Grader>)

  function GradeMcq(q: Question, response: Option<string>, upper: string -> string): (cents: nat)
    ensures cents == 0 || cents == q.points
    ensures cents == q.points > 0 ==> response.Some? && q.correct.Some? && Folded(response.value, upper) == Folded(q.correct.value, upper)
  {
    if response.None? || response.value == "" || q.correct.None? || q.correct.value == "" then 0
    else if Folded(response.value, upper) == Folded(q.correct.value, upper) then q.points
    else 0
  }

  // `strip().upper()`, with the case mapping as a parameter.
  function Folded(s: string, upper: string -> string): string { upper(Strip(s)) }

  function Marked(q: Question, a: Answer, upper: string -> string): Answer {
    if a.grader == Some(Human) then a
    else a.(awarded := Some(GradeMcq(q, a.response, upper)), grader := Some(Auto))
  }

  // Where the answer to a question is, or the length when there is none.
  function Locate(answers: seq<Answer>, question: nat): (k: nat)
    ensures k <= |answers|
    ensures k < |answers| ==> answers[k].question == question
    ensures forall j :: 0 <= j < k ==> answers[j].question != question
  {
    if answers == [] || answers[0].question == question then 0 else 1 + Locate(answers[1..], question)
  }

  // The answer row for a question, brought into being when there is none.
  function WithRow(answers: seq<Answer>, question: nat): (r: seq<Answer>)
    ensures Locate(answers, question) < |r| && r[Locate(answers, question)].question == question
    ensures answers <= r
  {
    if Locate(answers, question) < |answers| then answers else answers + [Answer(question, None, None, None)]
  }

  function MarkOne(answers: seq<Answer>, q: Question, upper: string -> string): (r: seq<Answer>)
    ensures |answers| <= |r|
  {
    var rows := WithRow(answers, q.id);
    var k := Locate(answers, q.id);
    rows[k := Marked(q, rows[k], upper)]
  }

  // Every question marked in turn, including those nobody answered.
  function MarkAll(answers: seq<Answer>, questions: seq<Question>, upper: string -> string): seq<Answer> {
    if questions == [] then answers
    else MarkOne(MarkAll(answers, questions[..|questions| - 1], upper), questions[|questions| - 1], upper)
  }

  function Awarded(a: Answer): int { if a.awarded.Some? then a.awarded.value else 0 }

  // `recompute_score`: the sum of the marks given.
  function Total(answers: seq<Answer>): int {
    if answers == [] then 0 else Total(answers[..|answers| - 1]) + Awarded(answers[|answers| - 1])
  }

  function MaxScore(questions: seq<Question>): nat {
    if questions == [] then 0 else MaxScore(questions[..|questions| - 1]) + questions[|questions| - 1].points
  }

  // --------------------------------------------------------------- well formed

  ghost predicate DistinctIds(questions: seq<Question>) {
    forall i, j :: 0 <= i < j < |questions| ==> questions[i].id != questions[j].id
  }

  // One row a question, each for a question of the paper, each mark within its points.
  ghost predicate FairRow(a: Answer, questions: seq<Question>) {
    exists k :: 0 <= k < |questions| && questions[k].id == a.question && 0 <= Awarded(a) <= questions[k].points
  }

  ghost predicate Fair(answers: seq<Answer>, questions: seq<Question>) {
    && (forall i, j :: 0 <= i < j < |answers| ==> answers[i].question != answers[j].question)
    && (forall i :: 0 <= i < |answers| ==> FairRow(answers[i], questions))
  }

  lemma {:induction false} FairMark(answers: seq<Answer>, questions: seq<Question>, k: nat, upper: string -> string)
    requires Fair(answers, questions) && k < |questions| && DistinctIds(questions)
    ensures Fair(MarkOne(answers, questions[k], upper), questions)
  {
    var q := questions[k];
    var r := MarkOne(answers, q, upper);
    var at := Locate(answers, q.id);
    forall i | 0 <= i < |r|
      ensures FairRow(r[i], questions)
    {
      if i == at {
        assert questions[k].id == r[i].question;
        if at < |answers| { assert FairRow(answers[at], questions); }
      } else {
        assert r[i] == answers[i];
      }
    }
  }

  lemma {:induction false} FairMarks(answers: seq<Answer>, questions: seq<Question>, n: nat, upper: string -> string)
    requires Fair(answers, questions) && DistinctIds(questions) && n <= |questions|
    ensures Fair(MarkAll(answers, questions[..n], upper), questions)
  {
    hide Fair, MarkOne;
    if n > 0 {
      assert questions[..n][..n - 1] == questions[..n - 1];
      FairMarks(answers, questions, n - 1, upper);
      FairMark(MarkAll(answers, questions[..n - 1], upper), questions, n - 1, upper);
    }
  }

  // ---------------------------------------------------------- score within max

  lemma {:induction false} MaxScoreDrop(questions: seq<Question>, k: nat)
    requires k < |questions|
    ensures MaxScore(questions) == MaxScore(questions[..k] + questions[k + 1..]) + questions[k].points
  {
    var n := |questions| - 1;
    var rest := questions[..k] + questions[k + 1..];
    if k == n {
      assert rest == questions[..n];
    } else {
      MaxScoreDrop(questions[..n], k);
      assert rest[..|rest| - 1] == questions[..n][..k] + questions[..n][k + 1..];
    }
  }

  /** Marks awarded one a question, each within its question's points, add up to no more
      than the paper is out of. */
  lemma {:induction false} ScoreWithinMax(answers: seq<Answer>, questions: seq<Question>)
    requires Fair(answers, questions)
    ensures 0 <= Total(answers) <= MaxScore(questions)
    decreases |answers|
  {
    if answers != [] {
      var n := |answers| - 1;
      var a := answers[n];
      assert FairRow(a, questions);
      var k :| 0 <= k < |questions| && questions[k].id == a.question && 0 <= Awarded(a) <= questions[k].points;
      var rest := questions[..k] + questions[k + 1..];
      MaxScoreDrop(questions, k);
      forall i | 0 <= i < n
        ensures FairRow(answers[..n][i], rest)
      {
        assert FairRow(answers[i], questions);
        var j :| 0 <= j < |questions| && questions[j].id == answers[i].question && 0 <= Awarded(answers[i]) <= questions[j].points;
        assert rest[if j < k then j else j - 1] == questions[j];
      }
      ScoreWithinMax(answers[..n], rest);
    }
  }

  // -------------------------------------------------------------- re-grading

  // Marking keeps every response, and a human's row whole.
  ghost predicate Keeps(before: seq<Answer>, after: seq<Answer>) {
    && |before| <= |after|
    && (forall i :: 0 <= i < |before| ==>
          && after[i].question == before[i].question
          && after[i].response == before[i].response
          && (before[i].grader == Some(Human) ==> after[i] == before[i]))
    && (forall i :: |before| <= i < |after| ==> after[i].response == None)
  }

  lemma {:induction false} MarkingKeeps(answers: seq<Answer>, questions: seq<Question>, upper: string -> string)
    ensures Keeps(answers, MarkAll(answers, questions, upper))
    decreases |questions|
  {
    if questions != [] { MarkingKeeps(answers, questions[..|questions| - 1], upper); }
  }

  ghost predicate MarkedFor(answers: seq<Answer>, q: Question, upper: string -> string) {
    var k := Locate(answers, q.id);
    k < |answers| && answers[k] == Marked(q, answers[k], upper)
  }

  lemma MarkOneMarks(answers: seq<Answer>, q: Question, upper: string -> string)
    ensures MarkedFor(MarkOne(answers, q, upper), q, upper)
  {
    var r := MarkOne(answers, q, upper);
    LocateSame(answers, r, q.id);
  }

  // A row's place depends only on the ids up to it.
  lemma {:induction false} LocateSame(a: seq<Answer>, b: seq<Answer>, question: nat)
    requires |a| <= |b| && forall i :: 0 <= i < |a| ==> a[i].question == b[i].question
    requires Locate(a, question) < |b| && b[Locate(a, question)].question == question
    ensures Locate(b, question) == Locate(a, question)
  {
  }

  lemma MarkOthersKeep(answers: seq<Answer>, p: Question, q: Question, upper: string -> string)
    requires p.id != q.id && MarkedFor(answers, p, upper)
    ensures MarkedFor(MarkOne(answers, q, upper), p, upper)
  {
    LocateSame(answers, MarkOne(answers, q, upper), p.id);
  }

  lemma {:induction false} MarkAllMarks(answers: seq<Answer>, questions: seq<Question>, k: nat, upper: string -> string)
    requires DistinctIds(questions) && k < |questions|
    ensures MarkedFor(MarkAll(answers, questions, upper), questions[k], upper)
    decreases |questions|
  {
    var n := |questions| - 1;
    var before := MarkAll(answers, questions[..n], upper);
    if k == n {
      MarkOneMarks(before, questions[n], upper);
    } else {
      MarkAllMarks(answers, questions[..n], k, upper);
      assert questions[..n][k] == questions[k];
      MarkOthersKeep(before, questions[k], questions[n], upper);
    }
  }

  lemma MarkedOnce(answers: seq<Answer>, q: Question, upper: string -> string)
    requires MarkedFor(answers, q, upper)
    ensures MarkOne(answers, q, upper) == answers
  {
  }

  lemma {:induction false} MarkedAlready(answers: seq<Answer>, questions: seq<Question>, upper: string -> string)
    requires forall k :: 0 <= k < |questions| ==> MarkedFor(answers, questions[k], upper)
    ensures MarkAll(answers, questions, upper) == answers
    decreases |questions|
  {
    hide MarkedFor, MarkOne;
    if questions != [] {
      var n := |questions| - 1;
      var rest := questions[..n];
      forall k | 0 <= k < n ensures MarkedFor(answers, rest[k], upper) {
        assert rest[k] == questions[k];
      }
      MarkedAlready(answers, rest, upper);
      MarkedOnce(answers, questions[n], upper);
    }
  }

  /** Grading is at-least-once: a second run over its own result changes no row. */
  lemma {:induction false} RegradeChangesNothing(answers: seq<Answer>, questions: seq<Question>, upper: string -> string)
    requires DistinctIds(questions)
    ensures var once := MarkAll(answers, questions, upper);
      MarkAll(once, questions, upper) == once
  {
    var once := MarkAll(answers, questions, upper);
    forall k | 0 <= k < |questions| ensures MarkedFor(once, questions[k], upper) {
      MarkAllMarks(answers, questions, k, upper);
    }
    MarkedAlready(once, questions, upper);
  }
}
