/** One person's sitting of one paper: `services/attempts.py`, and the grading pass of
    `workers/tasks/grading.py`. A refused call leaves the row as it was. */
module Sittings {
  import opened Wrappers
  import opened Grading
  import Papers

  datatype Status = InProgress | Submitted | AutoSubmitted | Voided

  datatype Row = Row(status: Status, startedAt: int, deadline: Option<int>, submittedAt: Option<int>,
                     answers: seq<Answer>, score: Option<int>, maxScore: Option<nat>,
                     gradedAt: Option<int>, releasedAt: Option<int>, gradingError: Option<string>)

  const GRADING_FAILED := "Marking this paper failed. The author has been told and can mark it by hand."

  // ------------------------------------------------------------- each operation

  predicate IsOpen(p: Papers.Row, now: int) {
    && (p.opens.Some? ==> p.opens.value <= now)
    && (p.closes.Some? ==> now < p.closes.value)
  }

  // Fixed when the sitting starts: the length of the paper, or its closing time if sooner.
  function Deadline(p: Papers.Row, now: int): Option<int> {
    var byLength := if p.length.Some? && p.length.value != 0 then Some(now + p.length.value) else None;
    if p.closes.None? then byLength
    else if byLength.None? || p.closes.value < byLength.value then p.closes
    else byLength
  }

  function Start(p: Papers.Row, existing: Option<Row>, now: int): Outcome<Row> {
    if p.status != Papers.Published then Refused(NotFound)
    else if !IsOpen(p, now) then Refused(Conflict)
    else if existing.Some? then
      if existing.value.status == Voided then Refused(Conflict) else Ok(existing.value)
    else Ok(Row(InProgress, now, Deadline(p, now), None, [], None, None, None, None, None))
  }

  predicate Expired(a: Row, now: int) { a.deadline.Some? && now >= a.deadline.value }

  // While this holds the sitter may still write.
  predicate Writable(a: Row, now: int) { a.status == InProgress && !Expired(a, now) }

  function Save(a: Row, p: Papers.Row, question: nat, response: Option<string>, now: int): Outcome<Row> {
    if !Writable(a, now) then Refused(Conflict)
    else if Papers.FindQuestion(p.questions, question) == |p.questions| then Refused(NotFound)
    else
      var rows := WithRow(a.answers, question);
      var k := Locate(a.answers, question);
      Ok(a.(answers := rows[k := rows[k].(response := response)]))
  }

  function Submit(a: Row, automatic: bool, now: int): Row {
    if a.status != InProgress then a
    else a.(status := if automatic || Expired(a, now) then AutoSubmitted else Submitted, submittedAt := Some(now))
  }

  // A voided sitting is not marked. Every other is, whatever its state, as often as asked.
  function Grade(a: Row, p: Papers.Row, now: int, upper: string -> string): Row {
    if a.status == Voided then a
    else
      var marked := MarkAll(a.answers, p.questions, upper);
      a.(answers := marked, score := Some(Total(marked)), maxScore := p.maxScore, gradedAt := Some(now),
         releasedAt := if p.immediate then Some(now) else a.releasedAt, gradingError := None)
  }

  // A grading pass that failed says so on the row, and undoes the rest of what it did.
  function FailedGrading(a: Row): Row { a.(gradingError := Some(GRADING_FAILED)) }

  function Release(a: Row, now: int): Outcome<Row> {
    if a.gradedAt.None? then Refused(Conflict)
    else if a.releasedAt.Some? then Ok(a)
    else Ok(a.(releasedAt := Some(now)))
  }

  function Override(a: Row, p: Papers.Row, question: nat, points: real): Outcome<Row> {
    var at := Papers.FindQuestion(p.questions, question);
    if at == |p.questions| then Refused(NotFound)
    else if points < 0.0 || points > p.questions[at].points as real / 100.0 then Refused(ValidationFailed)
    else
      var rows := WithRow(a.answers, question);
      var k := Locate(a.answers, question);
      var answers := rows[k := rows[k].(awarded := Some(Quantize(points)), grader := Some(Human))];
      Ok(a.(answers := answers, score := Some(Total(answers))))
  }

  function Void(a: Row): Row { a.(status := Voided) }

  // ------------------------------------------------------------- what is shown

  datatype Line = Line(question: nat, response: Option<string>, awarded: Option<int>, correct: Option<string>)

  datatype Payload = Payload(status: Status, submittedAt: Option<int>, gradedAt: Option<int>, released: bool,
                             score: Option<int>, maxScore: Option<nat>, gradingError: Option<string>, answers: seq<Line>)

  function LineFor(a: Row, q: Question): Line {
    var k := Locate(a.answers, q.id);
    if k < |a.answers| then Line(q.id, a.answers[k].response, a.answers[k].awarded, q.correct)
    else Line(q.id, None, None, q.correct)
  }

  function ResultView(a: Row, p: Papers.Row): Payload {
    var released := a.releasedAt.Some?;
    Payload(a.status, a.submittedAt, a.gradedAt, released,
            if released then a.score else None, if released then a.maxScore else None, if released then a.gradingError else None,
            if released then seq(|p.questions|, k requires 0 <= k < |p.questions| => LineFor(a, p.questions[k])) else [])
  }

  /** After it, the lines shown are the paper's questions in order, each with its own row. */
  lemma ReleasedShowsEachQuestion(a: Row, p: Papers.Row, k: nat)
    requires a.releasedAt.Some? && k < |p.questions|
    ensures var v := ResultView(a, p);
      && |v.answers| == |p.questions| && v.answers[k].question == p.questions[k].id
      && v.answers[k].response == ResponseTo(a.answers, p.questions[k].id) && v.answers[k].correct == p.questions[k].correct
      && (forall i :: 0 <= i < |a.answers| && i == Locate(a.answers, p.questions[k].id) ==> v.answers[k].awarded == a.answers[i].awarded)
      && v.score == a.score && v.maxScore == a.maxScore && v.gradingError == a.gradingError
  {
  }

  // -------------------------------------------------------------- the class

  class Sitting {
    var status: Status
    var startedAt: int
    var deadline: Option<int>
    var submittedAt: Option<int>
    var answers: seq<Answer>
    var score: Option<int>
    var maxScore: Option<nat>
    var gradedAt: Option<int>
    var releasedAt: Option<int>
    var gradingError: Option<string>

    function View(): Row
      reads this
    {
      Row(status, startedAt, deadline, submittedAt, answers, score, maxScore, gradedAt, releasedAt, gradingError)
    }

    constructor (p: Papers.Row, now: int)
      ensures View() == Row(InProgress, now, Deadline(p, now), None, [], None, None, None, None, None)
    {
      status, startedAt, submittedAt, answers := InProgress, now, None, [];
      score, maxScore, gradedAt, releasedAt, gradingError := None, None, None, None, None;
      var ends: Option<int> := None;
      if p.length.Some? && p.length.value != 0 {
        ends := Some(now + p.length.value);
      }
      if p.closes.Some? {
        ends := if ends.Some? && ends.value <= p.closes.value then ends else p.closes;
      }
      deadline := ends;
    }

    method SaveAnswer(p: Papers.Row, question: nat, response: Option<string>, now: int) returns (r: Outcome<()>)
      modifies this
      ensures var spec := Save(old(View()), p, question, response, now);
        r.Ok? == spec.Ok? && View() == if spec.Ok? then spec.value else old(View())
    {
      if status != InProgress || (deadline.Some? && now >= deadline.value) {
        return Refused(Conflict);
      }
      if Papers.FindQuestion(p.questions, question) == |p.questions| {
        return Refused(NotFound);
      }
      var k := Locate(answers, question);
      if k == |answers| {
        answers := answers + [Answer(question, None, None, None)];
      }
      answers := answers[k := answers[k].(response := response)];
      r := Ok(());
    }

    method SubmitPaper(automatic: bool, now: int)
      modifies this
      ensures View() == Submit(old(View()), automatic, now)
    {
      if status != InProgress {
        return;
      }
      status := if automatic || (deadline.Some? && now >= deadline.value) then AutoSubmitted else Submitted;
      submittedAt := Some(now);
    }

    method GradeAttempt(p: Papers.Row, now: int, upper: string -> string)
      modifies this
      ensures View() == Grade(old(View()), p, now, upper)
    {
      hide MarkOne, Total;
      if status == Voided {
        return;
      }
      for k := 0 to |p.questions|
        modifies this`answers
        invariant answers == MarkAll(old(answers), p.questions[..k], upper)
      {
        assert p.questions[..k + 1][..k] == p.questions[..k];
        GradeAnswer(p.questions[k], upper);
      }
      assert p.questions[..|p.questions|] == p.questions;
      Recompute();
      maxScore := p.maxScore;
      gradedAt := Some(now);
      gradingError := None;
      if p.immediate {
        releasedAt := Some(now);
      }
    }

    // What a grading pass that failed leaves.
    method FailGrading()
      modifies this
      ensures View() == FailedGrading(old(View()))
    {
      gradingError := Some(GRADING_FAILED);
    }

    // `grade_answer`, on the row for a question, made if there is none.
    method GradeAnswer(q: Question, upper: string -> string)
      modifies this`answers
      ensures answers == MarkOne(old(answers), q, upper)
    {
      var at := Locate(answers, q.id);
      if at == |answers| {
        answers := answers + [Answer(q.id, None, None, None)];
      }
      if answers[at].grader == Some(Human) {
        return;
      }
      answers := answers[at := answers[at].(awarded := Some(GradeMcq(q, answers[at].response, upper)), grader := Some(Auto))];
    }

    // `recompute_score`
    method Recompute()
      modifies this`score
      ensures score == Some(Total(answers))
    {
      var total := 0;
      for k := 0 to |answers|
        invariant total == Total(answers[..k])
      {
        assert answers[..k + 1][..k] == answers[..k];
        if answers[k].awarded.Some? {
          total := total + answers[k].awarded.value;
        }
      }
      assert answers[..|answers|] == answers;
      score := Some(total);
    }

    method ReleaseResult(now: int) returns (r: Outcome<()>)
      modifies this
      ensures var spec := Release(old(View()), now);
        r.Ok? == spec.Ok? && View() == if spec.Ok? then spec.value else old(View())
    {
      if gradedAt.None? {
        return Refused(Conflict);
      }
      if releasedAt.None? {
        releasedAt := Some(now);
      }
      r := Ok(());
    }

    method OverrideGrade(p: Papers.Row, question: nat, points: real) returns (r: Outcome<()>)
      modifies this
      ensures var spec := Override(old(View()), p, question, points);
        r.Ok? == spec.Ok? && View() == if spec.Ok? then spec.value else old(View())
    {
      hide Quantize, Total;
      var at := Papers.FindQuestion(p.questions, question);
      if at == |p.questions| {
        return Refused(NotFound);
      }
      if points < 0.0 || points > p.questions[at].points as real / 100.0 {
        return Refused(ValidationFailed);
      }
      var k := Locate(answers, question);
      if k == |answers| {
        answers := answers + [Answer(question, None, None, None)];
      }
      answers := answers[k := answers[k].(awarded := Some(Quantize(points)), grader := Some(Human))];
      Recompute();
      r := Ok(());
    }

    method VoidAttempt()
      modifies this
      ensures View() == Void(old(View()))
    {
      if status == Voided {
        return;
      }
      status := Voided;
    }
  }

  // --------------------------------------------------------- what each step keeps

  datatype Event =
    | Saving(question: nat, response: Option<string>)
    | Submitting(automatic: bool)
    | Marking
    | MarkingFails
    | Releasing
    | Overriding(question: nat, points: real)
    | Voiding

  function OrElse(r: Outcome<Row>, a: Row): Row { if r.Ok? then r.value else a }

  function Step(a: Row, p: Papers.Row, e: Event, now: int, upper: string -> string): Row {
    match e
    case Saving(q, response) => OrElse(Save(a, p, q, response, now), a)
    case Submitting(automatic) => Submit(a, automatic, now)
    case Marking => Grade(a, p, now, upper)
    case MarkingFails => FailedGrading(a)
    case Releasing => OrElse(Release(a, now), a)
    case Overriding(q, points) => OrElse(Override(a, p, q, points), a)
    case Voiding => Void(a)
  }

  // What a sitter wrote for a question, if there is a row for it.
  function ResponseTo(answers: seq<Answer>, question: nat): Option<string> {
    var k := Locate(answers, question);
    if k < |answers| then answers[k].response else None
  }

  // A mark a human gave, if one did.
  function HumanMark(answers: seq<Answer>, question: nat): Option<int> {
    var k := Locate(answers, question);
    if k < |answers| && answers[k].grader == Some(Human) then answers[k].awarded else None
  }

  lemma KeptRowsKeepResponses(before: seq<Answer>, after: seq<Answer>, question: nat)
    requires Keeps(before, after)
    ensures ResponseTo(after, question) == ResponseTo(before, question)
    ensures HumanMark(before, question).Some? ==> HumanMark(after, question) == HumanMark(before, question)
  {
    var k := Locate(before, question);
    if k < |before| { LocateSame(before, after, question); }
  }

  // Writing one question's row leaves what was written for every other.
  lemma RowSetKeepsOthers(answers: seq<Answer>, q: nat, row: Answer, question: nat)
    requires row.question == q
    requires question == q ==> row.response == ResponseTo(answers, q)
    ensures ResponseTo(WithRow(answers, q)[Locate(answers, q) := row], question) == ResponseTo(answers, question)
  {
    var after := WithRow(answers, q)[Locate(answers, q) := row];
    if Locate(answers, question) < |answers| || question == q {
      LocateSame(answers, after, question);
    } else {
      assert forall i :: 0 <= i < |after| ==> after[i].question != question;
    }
  }

  /** One step, at any time. The deadline never moves; a voided sitting stays voided and one
      handed in stays handed in; a result once released stays released; grading leaves human
      marks alone; and only a save that is in time changes a response. */
  lemma StepKeeps(a: Row, p: Papers.Row, e: Event, now: int, upper: string -> string, question: nat)
    ensures var b := Step(a, p, e, now, upper);
      && b.deadline == a.deadline && b.startedAt == a.startedAt
      && (a.status == Voided ==> b.status == Voided)
      && (a.status != InProgress ==> b.status != InProgress)
      && (a.releasedAt.Some? ==> b.releasedAt.Some?)
      && (e == Marking && HumanMark(a.answers, question).Some? ==> HumanMark(b.answers, question) == HumanMark(a.answers, question))
      && (!Writable(a, now) || !e.Saving? || e.question != question ==> ResponseTo(b.answers, question) == ResponseTo(a.answers, question))
  {
    match e
    case Marking =>
      MarkingKeeps(a.answers, p.questions, upper);
      if a.status != Voided { KeptRowsKeepResponses(a.answers, MarkAll(a.answers, p.questions, upper), question); }
    case Overriding(q, points) =>
      var row := WithRow(a.answers, q)[Locate(a.answers, q)].(awarded := Some(Quantize(points)), grader := Some(Human));
      RowSetKeepsOthers(a.answers, q, row, question);
    case Saving(q, response) =>
      if q != question { RowSetKeepsOthers(a.answers, q, WithRow(a.answers, q)[Locate(a.answers, q)].(response := response), question); }
    case _ =>
  }

  // A save in time takes: it is what will be marked.
  lemma {:induction false} SaveTakes(a: Row, p: Papers.Row, q: nat, response: Option<string>, now: int)
    requires Writable(a, now) && Papers.FindQuestion(p.questions, q) < |p.questions|
    ensures Save(a, p, q, response, now).Ok?
    ensures ResponseTo(Save(a, p, q, response, now).value.answers, q) == response
  {
    LocateSame(a.answers, Save(a, p, q, response, now).value.answers, q);
  }

  // ------------------------------------------------------------------ whole runs

  datatype Timed = Timed(event: Event, at: int)

  // Time does not run backwards.
  predicate InOrder(run: seq<Timed>, from: int) {
    forall k :: 0 <= k < |run| ==> from <= run[k].at && (k > 0 ==> run[k - 1].at <= run[k].at)
  }

  function Run(a: Row, p: Papers.Row, run: seq<Timed>, upper: string -> string): Row
    decreases |run|
  {
    if run == [] then a else Run(Step(a, p, run[0].event, run[0].at, upper), p, run[1..], upper)
  }

  lemma OrderCarries(run: seq<Timed>, from: int)
    requires run != [] && InOrder(run, from)
    ensures InOrder(run[1..], run[0].at)
  {
    forall k | 0 <= k < |run| - 1
      ensures run[0].at <= run[1..][k].at && (k > 0 ==> run[1..][k - 1].at <= run[1..][k].at)
    {
      OrderFromFirst(run, from, k + 1);
      assert run[1..][k] == run[k + 1];
      if k > 0 { assert run[1..][k - 1] == run[k]; }
    }
  }

  lemma {:induction false} OrderFromFirst(run: seq<Timed>, from: int, k: nat)
    requires k < |run| && InOrder(run, from)
    ensures run[0].at <= run[k].at
  {
    if k > 0 { OrderFromFirst(run, from, k - 1); }
  }

  /** Once the deadline has come, or the sitting has left IN_PROGRESS, no run of any length
      changes a response; and no run moves the deadline or brings a voided sitting back. */
  lemma {:induction false} ClosedSittingIsFixed(a: Row, p: Papers.Row, run: seq<Timed>, from: int, upper: string -> string, question: nat)
    requires InOrder(run, from)
    ensures var b := Run(a, p, run, upper);
      && b.deadline == a.deadline
      && (a.status == Voided ==> b.status == Voided)
      && (a.releasedAt.Some? ==> b.releasedAt.Some?)
      && (!Writable(a, from) ==> ResponseTo(b.answers, question) == ResponseTo(a.answers, question))
    decreases |run|
  {
    hide Step;
    if run != [] {
      StepKeeps(a, p, run[0].event, run[0].at, upper, question);
      OrderCarries(run, from);
      ClosedSittingIsFixed(Step(a, p, run[0].event, run[0].at, upper), p, run[1..], run[0].at, upper, question);
    }
  }

  /** Any number of re-grades, at any times, leave the answers and the score of the first. */
  lemma {:induction false} RegradesChangeNothing(a: Row, p: Papers.Row, run: seq<Timed>, upper: string -> string)
    requires DistinctIds(p.questions) && run != []
    requires forall k :: 0 <= k < |run| ==> run[k].event == Marking
    ensures var b, c := Run(a, p, run, upper), Grade(a, p, run[0].at, upper);
      b.answers == c.answers && b.score == c.score && b.maxScore == c.maxScore && b.status == c.status
    decreases |run|
  {
    var once := Grade(a, p, run[0].at, upper);
    if |run| > 1 {
      RegradeChangesNothing(a.answers, p.questions, upper);
      RegradesChangeNothing(once, p, run[1..], upper);
    }
  }

  // ------------------------------------------------------------- before release

  // A step with what the sitter wrote and what a human gave left out.
  function Blind(e: Event): Event {
    match e
    case Saving(_, _) => Saving(0, None)
    case Overriding(_, _) => Overriding(0, 0.0)
    case _ => e
  }

  // Two sittings alike in where they stand, whatever is written, marked or scored in either.
  predicate StandAlike(a: Row, b: Row) {
    a.status == b.status && a.deadline == b.deadline && a.submittedAt == b.submittedAt && a.gradedAt == b.gradedAt && a.releasedAt == b.releasedAt
  }

  // Two runs of the same steps at the same times, whatever is written or given in them.
  predicate RunAlike(r: seq<Timed>, s: seq<Timed>) {
    |r| == |s| && forall k :: 0 <= k < |r| ==> r[k].at == s[k].at && Blind(r[k].event) == Blind(s[k].event)
  }

  lemma StepStandsAlike(a: Row, b: Row, p: Papers.Row, q: Papers.Row, e: Event, f: Event, now: int, upper: string -> string)
    requires StandAlike(a, b) && Blind(e) == Blind(f) && p.immediate == q.immediate
    ensures StandAlike(Step(a, p, e, now, upper), Step(b, q, f, now, upper))
  {
    hide MarkAll, Total, WithRow, Locate, Quantize, Papers.FindQuestion;
    match e
    case Saving(_, _) =>
    case Overriding(_, _) =>
    case _ =>
  }

  lemma {:induction false} RunsStandAlike(a: Row, b: Row, p: Papers.Row, q: Papers.Row, r: seq<Timed>, s: seq<Timed>, upper: string -> string)
    requires StandAlike(a, b) && RunAlike(r, s) && p.immediate == q.immediate
    ensures StandAlike(Run(a, p, r, upper), Run(b, q, s, upper))
    decreases |r|
  {
    hide Step, StandAlike;
    if r != [] {
      StepStandsAlike(a, b, p, q, r[0].event, s[0].event, r[0].at, upper);
      RunsStandAlike(Step(a, p, r[0].event, r[0].at, upper), Step(b, q, s[0].event, s[0].at, upper), p, q, r[1..], s[1..], upper);
    }
  }

  /** Until release a result shows where the sitting stands and when it was handed in and graded,
      and nothing else: over any two runs of the same steps at the same times, whatever was
      written, whatever was right, whatever a human gave, the unreleased results are the same. */
  lemma {:induction false} NoMarksBeforeRelease(a: Row, b: Row, p: Papers.Row, q: Papers.Row, r: seq<Timed>, s: seq<Timed>, upper: string -> string)
    requires StandAlike(a, b) && RunAlike(r, s) && p.immediate == q.immediate
    requires Run(a, p, r, upper).releasedAt.None?
    ensures ResultView(Run(a, p, r, upper), p) == ResultView(Run(b, q, s, upper), q)
    ensures var v := ResultView(Run(a, p, r, upper), p); v.answers == [] && v.score.None? && v.maxScore.None? && v.gradingError.None?
  {
    RunsStandAlike(a, b, p, q, r, s, upper);
  }

  /** Two unreleased results are the same exactly when the sittings have the same status and were
      handed in and graded at the same times: that it has been graded, and when, does show. */
  lemma UnreleasedShowsIff(a: Row, b: Row, p: Papers.Row, q: Papers.Row)
    requires a.releasedAt.None? && b.releasedAt.None?
    ensures ResultView(a, p) == ResultView(b, q) <==> a.status == b.status && a.submittedAt == b.submittedAt && a.gradedAt == b.gradedAt
  {
  }
}
