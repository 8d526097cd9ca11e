/** What a sitting is worth once it is marked: the grading pass of `workers/tasks/grading.py`, over
    single steps and over whole runs. */
module Marks {
  import opened Wrappers
  import opened Text
  import opened Grading
  import opened Sittings
  import Papers

  // The table holds one row a question.
  ghost predicate OneRowEach(answers: seq<Answer>) {
    forall i, j :: 0 <= i < j < |answers| ==> answers[i].question != answers[j].question
  }

  // What a response is worth: all the points, when it and the key say the same but for case and
  // white space and neither is empty, and otherwise nothing.
  ghost predicate Right(q: Question, response: Option<string>, upper: string -> string) {
    && response.Some? && response.value != "" && q.correct.Some? && q.correct.value != ""
    && upper(Strip(response.value)) == upper(Strip(q.correct.value))
  }

  // A human has marked the question.
  ghost predicate ByHand(answers: seq<Answer>, id: nat) {
    exists i :: 0 <= i < |answers| && answers[i].question == id && answers[i].grader == Some(Human)
  }

  // What was written for a question, and what it was given.
  ghost predicate Wrote(answers: seq<Answer>, id: nat, response: Option<string>) {
    if exists i :: 0 <= i < |answers| && answers[i].question == id
    then exists i :: 0 <= i < |answers| && answers[i].question == id && answers[i].response == response
    else response == None
  }

  ghost predicate Given(answers: seq<Answer>, id: nat, mark: int) {
    exists i :: 0 <= i < |answers| && answers[i].question == id && answers[i].awarded == Some(mark)
  }

  lemma {:induction false} TheRow(answers: seq<Answer>, i: nat)
    requires OneRowEach(answers) && i < |answers|
    ensures Locate(answers, answers[i].question) == i
  {
    assert Locate(answers, answers[i].question) <= i;
  }

  lemma WroteIs(answers: seq<Answer>, id: nat, response: Option<string>)
    requires OneRowEach(answers)
    ensures Wrote(answers, id, response) <==> ResponseTo(answers, id) == response
  {
    var k := Locate(answers, id);
    hide Locate;
    forall i | 0 <= i < |answers| && answers[i].question == id ensures i == k { TheRow(answers, i); }
  }

  lemma {:induction false} MarkAllKeepsRows(answers: seq<Answer>, questions: seq<Question>, upper: string -> string)
    requires OneRowEach(answers)
    ensures OneRowEach(MarkAll(answers, questions, upper))
  {
    if questions != [] {
      var before := MarkAll(answers, questions[..|questions| - 1], upper);
      MarkAllKeepsRows(answers, questions[..|questions| - 1], upper);
      hide MarkAll, Marked;
      MarkOneKeepsRows(before, questions[|questions| - 1], upper);
    }
  }

  lemma {:induction false} MarkOneKeepsRows(answers: seq<Answer>, q: Question, upper: string -> string)
    requires OneRowEach(answers)
    ensures OneRowEach(MarkOne(answers, q, upper))
  {
    hide GradeMcq;
  }

  // A human's row is there afterwards exactly when it was there before.
  lemma {:induction false} ByHandStays(answers: seq<Answer>, questions: seq<Question>, id: nat, upper: string -> string)
    requires OneRowEach(answers)
    ensures var after := MarkAll(answers, questions, upper);
      var k := Locate(after, id);
      ByHand(answers, id) <==> k < |after| && after[k].grader == Some(Human)
  {
    var after := MarkAll(answers, questions, upper);
    MarkAllKeepsRows(answers, questions, upper);
    MarkingKeeps(answers, questions, upper);
    HandsKept(answers, questions, upper);
    hide MarkAll;
    var k := Locate(after, id);
    if k < |after| && after[k].grader == Some(Human) { assert answers[k].question == id; }
    if ByHand(answers, id) {
      var i :| 0 <= i < |answers| && answers[i].question == id && answers[i].grader == Some(Human);
      TheRow(after, i);
    }
  }

  // No row is marked by a human that was not before.
  ghost predicate NoNewHands(before: seq<Answer>, after: seq<Answer>) {
    forall i :: 0 <= i < |after| && after[i].grader == Some(Human) ==> i < |before| && before[i] == after[i]
  }

  lemma MarkOneHands(answers: seq<Answer>, q: Question, upper: string -> string)
    ensures NoNewHands(answers, MarkOne(answers, q, upper))
  {
    hide GradeMcq;
    var rows, k := WithRow(answers, q.id), Locate(answers, q.id);
    var after := MarkOne(answers, q, upper);
    assert after[k] == Marked(q, rows[k], upper);
    assert forall i :: 0 <= i < |after| && i != k ==> after[i] == rows[i];
  }

  lemma {:induction false} HandsKept(answers: seq<Answer>, questions: seq<Question>, upper: string -> string)
    ensures NoNewHands(answers, MarkAll(answers, questions, upper))
  {
    hide MarkOne;
    if questions != [] {
      var n := |questions| - 1;
      var before := MarkAll(answers, questions[..n], upper);
      HandsKept(answers, questions[..n], upper);
      MarkOneHands(before, questions[n], upper);
      assert forall i :: 0 <= i < |before| && i < |answers| ==> before[i] == answers[i] || before[i].grader != Some(Human);
    }
  }

  // A row for the question, with the response, marked for it by the code.
  ghost predicate Earns(answers: seq<Answer>, q: Question, response: Option<string>, upper: string -> string) {
    exists i :: 0 <= i < |answers| && answers[i]
      == Answer(q.id, response, Some(if Right(q, response, upper) then q.points else 0), Some(Auto))
  }

  /** Marking a sitting that is not void leaves each question of the paper a row with what was written
      for it. Unless a human had marked it, the mark is the question's points when the response is
      right and nothing otherwise; a human's mark is as it was; and the score is the sum of the rows. */
  lemma MarkingMarks(a: Row, p: Papers.Row, now: int, upper: string -> string, k: nat, response: Option<string>)
    requires a.status != Voided && OneRowEach(a.answers) && DistinctIds(p.questions) && k < |p.questions|
    requires Wrote(a.answers, p.questions[k].id, response)
    ensures var b, q := Step(a, p, Marking, now, upper), p.questions[k];
      && OneRowEach(b.answers) && Wrote(b.answers, q.id, response)
      && (!ByHand(a.answers, q.id) ==> Earns(b.answers, q, response, upper))
      && (ByHand(a.answers, q.id) ==> forall m :: Given(a.answers, q.id, m) ==> Given(b.answers, q.id, m))
      && b.status == a.status && b.score == Some(Total(b.answers)) && b.maxScore == p.maxScore && b.gradedAt == Some(now)
      && b.releasedAt == if p.immediate then Some(now) else a.releasedAt
  {
    var q, after := p.questions[k], MarkAll(a.answers, p.questions, upper);
    MarkAllMarks(a.answers, p.questions, k, upper);
    MarkAllKeepsRows(a.answers, p.questions, upper);
    MarkingKeeps(a.answers, p.questions, upper);
    KeptRowsKeepResponses(a.answers, after, q.id);
    ByHandStays(a.answers, p.questions, q.id, upper);
    hide MarkAll;
    WroteIs(a.answers, q.id, response);
    WroteIs(after, q.id, response);
    var i := Locate(after, q.id);
    hide Locate;
    if ByHand(a.answers, q.id) {
      forall m | Given(a.answers, q.id, m) ensures Given(after, q.id, m) { HandKept(a.answers, after, q.id, m); }
    } else {
      assert after[i] == Answer(q.id, response, Some(if Right(q, response, upper) then q.points else 0), Some(Auto));
    }
  }

  lemma HandKept(before: seq<Answer>, after: seq<Answer>, id: nat, mark: int)
    requires OneRowEach(before) && Keeps(before, after) && ByHand(before, id) && Given(before, id, mark)
    ensures Given(after, id, mark)
  {
    var j :| 0 <= j < |before| && before[j].question == id && before[j].grader == Some(Human);
    var l :| 0 <= l < |before| && before[l].question == id && before[l].awarded == Some(mark);
    assert j == l && after[j] == before[j];
  }

  // A row set leaves the rows of other questions as they were.
  lemma {:induction false} OtherRowStays(answers: seq<Answer>, id: nat, row: Answer, q: Question, response: Option<string>, upper: string -> string)
    requires OneRowEach(answers) && Earns(answers, q, response, upper) && row.question == id != q.id
    ensures var after := WithRow(answers, id)[Locate(answers, id) := row];
      OneRowEach(after) && Earns(after, q, response, upper)
  {
    hide Right;
    var after := WithRow(answers, id)[Locate(answers, id) := row];
    var i :| 0 <= i < |answers| && answers[i] == Answer(q.id, response, Some(if Right(q, response, upper) then q.points else 0), Some(Auto));
    assert i != Locate(answers, id) && after[i] == answers[i];
  }

  // What no later step can take away: the mark a response earned.
  lemma StepKeepsEarned(a: Row, p: Papers.Row, e: Event, now: int, upper: string -> string, k: nat, response: Option<string>)
    requires OneRowEach(a.answers) && DistinctIds(p.questions) && k < |p.questions| && Earns(a.answers, p.questions[k], response, upper)
    requires !Writable(a, now) && (e.Overriding? ==> e.question != p.questions[k].id)
    ensures var b := Step(a, p, e, now, upper);
      OneRowEach(b.answers) && Earns(b.answers, p.questions[k], response, upper)
  {
    hide MarkAll, Total, WithRow, Locate, Right, Papers.FindQuestion;
    var q := p.questions[k];
    match e
    case Marking =>
      if a.status != Voided {
        EarnedIsWritten(a.answers, q, response, upper);
        MarkingMarks(a, p, now, upper, k, response);
      }
    case Overriding(id, points) =>
      if Override(a, p, id, points).Ok? {
        var row := WithRow(a.answers, id)[Locate(a.answers, id)].(awarded := Some(Quantize(points)), grader := Some(Human));
        OtherRowStays(a.answers, id, row, q, response, upper);
      }
    case _ =>
  }

  lemma EarnedIsWritten(answers: seq<Answer>, q: Question, response: Option<string>, upper: string -> string)
    requires OneRowEach(answers) && Earns(answers, q, response, upper)
    ensures Wrote(answers, q.id, response) && !ByHand(answers, q.id)
  {
    hide Right;
  }

  /** Once a sitting is closed to writing and marked, through any run in which no human marks the
      question its row keeps the response and the mark that the response earned. */
  lemma {:induction false} EarnedMarkStands(a: Row, p: Papers.Row, run: seq<Timed>, from: int, upper: string -> string, k: nat, response: Option<string>)
    requires InOrder(run, from) && !Writable(a, from) && OneRowEach(a.answers) && DistinctIds(p.questions)
    requires k < |p.questions| && Earns(a.answers, p.questions[k], response, upper)
    requires forall n :: 0 <= n < |run| && run[n].event.Overriding? ==> run[n].event.question != p.questions[k].id
    ensures Earns(Run(a, p, run, upper).answers, p.questions[k], response, upper)
    decreases |run|
  {
    hide Step, Earns, OneRowEach;
    if run != [] {
      StepKeepsEarned(a, p, run[0].event, run[0].at, upper, k, response);
      StepKeeps(a, p, run[0].event, run[0].at, upper, p.questions[k].id);
      OrderCarries(run, from);
      EarnedMarkStands(Step(a, p, run[0].event, run[0].at, upper), p, run[1..], run[0].at, upper, k, response);
    }
  }

  /** A human's mark is taken exactly for a question of the paper and between nothing and its points. It
      is then the mark on record, to the nearest cent, as a human's; no other row changes, and the
      score is the sum of the rows. */
  lemma OverrideIs(a: Row, p: Papers.Row, k: nat, points: real)
    requires OneRowEach(a.answers) && DistinctIds(p.questions) && k < |p.questions|
    ensures var q := p.questions[k];
      var r := Override(a, p, q.id, points);
      && (r.Ok? <==> 0.0 <= points && points * 100.0 <= q.points as real)
      && (r.Ok? ==>
            && OneRowEach(r.value.answers) && ByHand(r.value.answers, q.id) && r.value == a.(answers := r.value.answers, score := Some(Total(r.value.answers)))
            && (exists m :: Given(r.value.answers, q.id, m) && -0.5 <= points * 100.0 - m as real <= 0.5)
            && (forall i :: 0 <= i < |a.answers| && a.answers[i].question != q.id ==> a.answers[i] in r.value.answers)
            && (forall id, response :: Wrote(a.answers, id, response) ==> Wrote(r.value.answers, id, response)))
  {
    hide Total, Quantize, Wrote;
    var q := p.questions[k];
    Papers.FoundAt(p.questions, k);
    var r := Override(a, p, q.id, points);
    if r.Ok? {
      var at := Locate(a.answers, q.id);
      var row := WithRow(a.answers, q.id)[at].(awarded := Some(Quantize(points)), grader := Some(Human));
      assert r.value.answers[at] == row;
      assert Given(r.value.answers, q.id, Quantize(points));
      forall i | 0 <= i < |a.answers| && a.answers[i].question != q.id ensures a.answers[i] in r.value.answers {
        assert r.value.answers[i] == a.answers[i];
      }
      forall id, response | Wrote(a.answers, id, response) ensures Wrote(r.value.answers, id, response) {
        StaysWritten(a.answers, q.id, row, id, response);
      }
    }
  }

  // Marking one row changes nothing that was written.
  lemma {:induction false} StaysWritten(answers: seq<Answer>, q: nat, row: Answer, id: nat, response: Option<string>)
    requires OneRowEach(answers) && Wrote(answers, id, response) && row.question == q && row.response == ResponseTo(answers, q)
    ensures var after := WithRow(answers, q)[Locate(answers, q) := row];
      OneRowEach(after) && Wrote(after, id, response)
  {
    hide Wrote;
    var after := WithRow(answers, q)[Locate(answers, q) := row];
    WroteIs(answers, id, response);
    RowSetKeepsOthers(answers, q, row, id);
    WroteIs(after, id, response);
  }

  // ------------------------------------------------------------------ full marks

  lemma {:induction false} NoPoints(questions: seq<Question>)
    ensures MaxScore(questions) == 0 <==> forall k :: 0 <= k < |questions| ==> questions[k].points == 0
  {
    if questions != [] { NoPoints(questions[..|questions| - 1]); }
  }

  // Every question with points has a row that holds them all.
  ghost predicate FullMarks(answers: seq<Answer>, questions: seq<Question>) {
    forall k :: 0 <= k < |questions| ==> Full(answers, questions[k])
  }

  ghost predicate Full(answers: seq<Answer>, q: Question) { q.points == 0 || Given(answers, q.id, q.points) }

  lemma {:induction false} FullMarksIff(answers: seq<Answer>, questions: seq<Question>)
    requires Fair(answers, questions) && DistinctIds(questions)
    ensures Total(answers) == MaxScore(questions) <==> FullMarks(answers, questions)
    decreases |answers|
  {
    if answers == [] {
      NoPoints(questions);
    } else {
      hide Fair, FairRow, DistinctIds, FullMarks, MaxScore;
      var n := |answers| - 1;
      var k := RowQuestion(answers, questions);
      var rest := questions[..k] + questions[k + 1..];
      MaxScoreDrop(questions, k);
      LessOneFair(answers, questions, k);
      ScoreWithinMax(answers[..n], rest);
      FullMarksIff(answers[..n], rest);
      LessOneFull(answers, questions, k);
    }
  }

  lemma RowQuestion(answers: seq<Answer>, questions: seq<Question>) returns (k: nat)
    requires answers != [] && Fair(answers, questions)
    ensures k < |questions| && questions[k].id == answers[|answers| - 1].question
    ensures 0 <= Awarded(answers[|answers| - 1]) <= questions[k].points
  {
    assert FairRow(answers[|answers| - 1], questions);
    k :| 0 <= k < |questions| && questions[k].id == answers[|answers| - 1].question && 0 <= Awarded(answers[|answers| - 1]) <= questions[k].points;
  }

  lemma LessOneFair(answers: seq<Answer>, questions: seq<Question>, k: nat)
    requires answers != [] && Fair(answers, questions) && DistinctIds(questions)
    requires k < |questions| && questions[k].id == answers[|answers| - 1].question
    ensures Fair(answers[..|answers| - 1], questions[..k] + questions[k + 1..]) && DistinctIds(questions[..k] + questions[k + 1..])
  {
    var n, rest := |answers| - 1, questions[..k] + questions[k + 1..];
    forall i | 0 <= i < n ensures FairRow(answers[..n][i], rest) {
      assert FairRow(answers[i], questions);
      var j :| 0 <= j < |questions| && questions[j].id == answers[i].question && 0 <= Awarded(answers[i]) <= questions[j].points;
      assert j != k && rest[if j < k then j else j - 1] == questions[j];
    }
  }

  lemma LessOneFull(answers: seq<Answer>, questions: seq<Question>, k: nat)
    requires answers != [] && Fair(answers, questions) && DistinctIds(questions)
    requires k < |questions| && questions[k].id == answers[|answers| - 1].question && 0 <= Awarded(answers[|answers| - 1]) <= questions[k].points
    ensures FullMarks(answers, questions)
       <==> FullMarks(answers[..|answers| - 1], questions[..k] + questions[k + 1..]) && Awarded(answers[|answers| - 1]) == questions[k].points
  {
    hide Full;
    var n, rest := |answers| - 1, questions[..k] + questions[k + 1..];
    forall j | 0 <= j < |questions| && j != k ensures Full(answers, questions[j]) <==> Full(answers[..n], questions[j]) {
      OtherFull(answers, questions[j]);
    }
    LastFull(answers, questions[k]);
    assert forall j :: 0 <= j < k ==> rest[j] == questions[j];
    assert forall j :: k < j < |questions| ==> rest[j - 1] == questions[j];
    assert forall i :: 0 <= i < |rest| ==> rest[i] == questions[if i < k then i else i + 1];
  }

  lemma OtherFull(answers: seq<Answer>, q: Question)
    requires answers != [] && answers[|answers| - 1].question != q.id
    ensures Full(answers, q) <==> Full(answers[..|answers| - 1], q)
  {
    hide Given;
    GivenBefore(answers, q.id, q.points);
  }

  lemma LastFull(answers: seq<Answer>, q: Question)
    requires answers != [] && answers[|answers| - 1].question == q.id && 0 <= Awarded(answers[|answers| - 1]) <= q.points
    requires forall i, j :: 0 <= i < j < |answers| ==> answers[i].question != answers[j].question
    ensures Full(answers, q) <==> Awarded(answers[|answers| - 1]) == q.points
  {
    var n := |answers| - 1;
    if q.points > 0 && Awarded(answers[n]) == q.points { assert answers[n].awarded == Some(q.points); }
  }

  lemma GivenBefore(answers: seq<Answer>, id: nat, mark: int)
    requires answers != [] && answers[|answers| - 1].question != id
    ensures Given(answers, id, mark) <==> Given(answers[..|answers| - 1], id, mark)
  {
    var n := |answers| - 1;
    if i :| 0 <= i < |answers| && answers[i].question == id && answers[i].awarded == Some(mark) {
      assert answers[..n][i] == answers[i];
    }
    if i :| 0 <= i < n && answers[..n][i].question == id && answers[..n][i].awarded == Some(mark) {
      assert answers[i].question == id;
    }
  }

  // A right response to the question is among the answers.
  ghost predicate RightFor(answers: seq<Answer>, q: Question, upper: string -> string) {
    exists r :: Wrote(answers, q.id, r) && Right(q, r, upper)
  }

  ghost predicate AllRight(answers: seq<Answer>, questions: seq<Question>, upper: string -> string) {
    forall k :: 0 <= k < |questions| ==> questions[k].points == 0 || RightFor(answers, questions[k], upper)
  }

  /** A sitting no human has touched scores all the paper is out of exactly when every question that
      is worth anything has a right response. */
  lemma FullMarksWhenAllRight(a: Row, p: Papers.Row, now: int, upper: string -> string)
    requires a.status != Voided && Fair(a.answers, p.questions) && DistinctIds(p.questions)
    requires forall k :: 0 <= k < |p.questions| ==> !ByHand(a.answers, p.questions[k].id)
    ensures Step(a, p, Marking, now, upper).score == Some(MaxScore(p.questions)) <==> AllRight(a.answers, p.questions, upper)
  {
    var after := MarkAll(a.answers, p.questions, upper);
    FairMarks(a.answers, p.questions, |p.questions|, upper);
    assert p.questions[..|p.questions|] == p.questions;
    hide MarkAll, Fair, DistinctIds, AllRight, FullMarks, ByHand, MaxScore, Total;
    FullMarksIff(after, p.questions);
    FullIsRight(a, p, now, upper);
  }

  lemma FullIsRight(a: Row, p: Papers.Row, now: int, upper: string -> string)
    requires a.status != Voided && Fair(a.answers, p.questions) && DistinctIds(p.questions)
    requires forall k :: 0 <= k < |p.questions| ==> !ByHand(a.answers, p.questions[k].id)
    ensures FullMarks(MarkAll(a.answers, p.questions, upper), p.questions) <==> AllRight(a.answers, p.questions, upper)
  {
    hide MarkAll, Fair, DistinctIds, RightFor, Given, ByHand;
    var after := MarkAll(a.answers, p.questions, upper);
    forall k | 0 <= k < |p.questions| && p.questions[k].points > 0
      ensures Given(after, p.questions[k].id, p.questions[k].points) <==> RightFor(a.answers, p.questions[k], upper)
    {
      RightIsGiven(a, p, now, upper, k);
    }
  }

  lemma RightIsGiven(a: Row, p: Papers.Row, now: int, upper: string -> string, k: nat)
    requires a.status != Voided && Fair(a.answers, p.questions) && DistinctIds(p.questions)
    requires k < |p.questions| && !ByHand(a.answers, p.questions[k].id) && p.questions[k].points > 0
    ensures Given(MarkAll(a.answers, p.questions, upper), p.questions[k].id, p.questions[k].points)
       <==> RightFor(a.answers, p.questions[k], upper)
  {
    hide MarkAll, Right, DistinctIds;
    var q, after := p.questions[k], MarkAll(a.answers, p.questions, upper);
    var response := ResponseTo(a.answers, q.id);
    WroteIs(a.answers, q.id, response);
    MarkingMarks(a, p, now, upper, k, response);
    var i :| 0 <= i < |after| && after[i] == Answer(q.id, response, Some(if Right(q, response, upper) then q.points else 0), Some(Auto));
    assert Given(after, q.id, q.points) <==> after[i].awarded == Some(q.points);
    forall r | Wrote(a.answers, q.id, r) ensures r == response { WroteIs(a.answers, q.id, r); }
  }
}
