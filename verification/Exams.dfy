/** A paper and everybody's sittings of it, over whole runs of every call there is. */
module Exams {
  import opened Wrappers
  import opened Grading
  import opened Questions
  import Papers
  import Sittings

  datatype World = World(paper: Papers.Row, sittings: map<nat, Sittings.Row>)

  datatype Op =
    | Write(target: Option<nat>, newId: nat, built: Outcome<Fields>)
    | Delete(id: nat)
    | Update(settings: Papers.Settings)
    | Publish
    | Close
    | GenerationArrives(drafted: seq<Question>)
    | GenerationFails
    | Start(sitter: nat)
    | Sit(sitter: nat, event: Sittings.Event)

  datatype Call = Call(op: Op, at: int)

  function OrElse(r: Outcome<Papers.Row>, p: Papers.Row): Papers.Row { if r.Ok? then r.value else p }

  // One call, atomically. Replacing the questions takes every answer to them along.
  function Step(w: World, c: Call, upper: string -> string): World {
    match c.op
    case Write(target, newId, built) => w.(paper := OrElse(Papers.Write(w.paper, target, newId, built), w.paper))
    case Delete(id) => w.(paper := OrElse(Papers.Delete(w.paper, id), w.paper))
    case Update(settings) => w.(paper := OrElse(Papers.Update(w.paper, settings), w.paper))
    case Publish => w.(paper := OrElse(Papers.Publish(w.paper), w.paper))
    case Close => w.(paper := OrElse(Papers.Close(w.paper), w.paper))
    case GenerationArrives(drafted) =>
      World(Papers.Generated(w.paper, drafted),
            if Papers.Storable(drafted) then map s | s in w.sittings :: w.sittings[s].(answers := []) else w.sittings)
    case GenerationFails => w.(paper := Papers.GenerationFailed(w.paper))
    case Start(sitter) =>
      var r := Sittings.Start(w.paper, if sitter in w.sittings then Some(w.sittings[sitter]) else None, c.at);
      if r.Ok? then w.(sittings := w.sittings[sitter := r.value]) else w
    case Sit(sitter, event) =>
      if sitter in w.sittings then
        w.(sittings := w.sittings[sitter := Sittings.Step(w.sittings[sitter], w.paper, event, c.at, upper)])
      else w
  }

  function Run(w: World, run: seq<Call>, upper: string -> string): World {
    if run == [] then w else Step(Run(w, run[..|run| - 1], upper), run[|run| - 1], upper)
  }

  predicate Frozen(p: Papers.Row) { p.status == Papers.Published || p.status == Papers.Closed }

  predicate ByWorker(op: Op) { op.GenerationArrives? || op.GenerationFails? }

  // ------------------------------------------------------------------ the freeze

  // What a published paper must not lose.
  ghost predicate SamePaper(p: Papers.Row, q: Papers.Row) {
    Frozen(q) && q.questions == p.questions && q.maxScore == p.maxScore && q.length == p.length && q.closes == p.closes
  }

  ghost predicate StaysFrozen(w: World, run: seq<Call>, upper: string -> string) {
    forall n :: 0 <= n <= |run| ==> SamePaper(w.paper, Run(w, run[..n], upper).paper)
  }

  lemma OneCallFreezes(w: World, c: Call, upper: string -> string)
    requires Frozen(w.paper)
    ensures SamePaper(w.paper, Step(w, c, upper).paper) <==> !ByWorker(c.op)
  {
  }

  /** A published paper is frozen through a run of calls exactly when no generation result
      is delivered in the run. The worker writes its result without looking at the status,
      so a task delivered a second time, after publication, thaws the paper. */
  lemma {:induction false} FrozenUnlessGenerationRuns(w: World, run: seq<Call>, upper: string -> string)
    requires Frozen(w.paper)
    ensures StaysFrozen(w, run, upper) <==> forall k :: 0 <= k < |run| ==> !ByWorker(run[k].op)
    decreases |run|
  {
    hide Step;
    if run == [] {
      assert forall n :: 0 <= n <= 0 ==> run[..n] == [];
    } else {
      var last := |run| - 1;
      var before := run[..last];
      FrozenUnlessGenerationRuns(w, before, upper);
      assert forall n :: 0 <= n <= last ==> run[..n] == before[..n];
      assert run[..|run|] == run && before[..last] == before;
      if StaysFrozen(w, before, upper) { OneCallFreezes(Run(w, before, upper), run[last], upper); }
      assert StaysFrozen(w, run, upper) <==> StaysFrozen(w, before, upper) && SamePaper(w.paper, Run(w, run, upper).paper);
    }
  }

  // ------------------------------------------------------------------ the books

  ghost predicate FairSitting(a: Sittings.Row, p: Papers.Row) {
    && Fair(a.answers, p.questions)
    && (a.score.Some? ==> a.score.value == Total(a.answers))
    && (a.gradedAt.Some? ==> a.score.Some? && a.maxScore == p.maxScore)
    && (a.releasedAt.Some? ==> a.gradedAt.Some?)
  }

  ghost predicate Balanced(w: World) {
    && Papers.Sound(w.paper)
    && (!Frozen(w.paper) ==> w.sittings == map[])
    && (forall s :: s in w.sittings ==> FairSitting(w.sittings[s], w.paper))
  }

  // A generation result comes only to a paper still waiting for one.
  ghost predicate Timely(w: World, c: Call) {
    ByWorker(c.op) ==> w.paper.status == Papers.Generating && (c.op.GenerationArrives? ==> DistinctIds(c.op.drafted))
  }

  ghost predicate TimelyRun(w: World, run: seq<Call>, upper: string -> string) {
    forall k :: 0 <= k < |run| ==> Timely(Run(w, run[..k], upper), run[k])
  }

  lemma {:induction false} SetRowKeepsFair(answers: seq<Answer>, questions: seq<Question>, q: nat, row: Answer)
    requires Fair(answers, questions) && row.question == q && FairRow(row, questions)
    ensures Fair(WithRow(answers, q)[Locate(answers, q) := row], questions)
  {
    var after := WithRow(answers, q)[Locate(answers, q) := row];
    forall i | 0 <= i < |after|
      ensures FairRow(after[i], questions)
    {
      if i != Locate(answers, q) { assert FairRow(answers[i], questions); }
    }
  }

  // The row a response is saved to, there already or new.
  lemma {:induction false} ResponseKeepsFair(answers: seq<Answer>, questions: seq<Question>, q: nat, response: Option<string>)
    requires Fair(answers, questions) && Papers.FindQuestion(questions, q) < |questions|
    ensures FairRow(WithRow(answers, q)[Locate(answers, q)].(response := response), questions)
  {
    var k, at := Locate(answers, q), Papers.FindQuestion(questions, q);
    hide Locate, Papers.FindQuestion;
    if k < |answers| {
      assert FairRow(answers[k], questions);
    } else {
      assert questions[at].id == q;
    }
  }

  lemma SavedAnswersFair(answers: seq<Answer>, questions: seq<Question>, q: nat, response: Option<string>)
    requires Fair(answers, questions) && Papers.FindQuestion(questions, q) < |questions|
    ensures var rows, k := WithRow(answers, q), Locate(answers, q);
      Fair(rows[k := rows[k].(response := response)], questions) && Total(rows[k := rows[k].(response := response)]) == Total(answers)
  {
    hide Fair, FairRow, Locate, WithRow, Papers.FindQuestion, Total;
    var rows, k := WithRow(answers, q), Locate(answers, q);
    ResponseKeepsFair(answers, questions, q, response);
    SetRowKeepsFair(answers, questions, q, rows[k].(response := response));
    TotalAppend(answers, q);
    TotalSameMarks(rows, rows[k := rows[k].(response := response)]);
  }

  lemma SaveKeepsFair(a: Sittings.Row, p: Papers.Row, q: nat, response: Option<string>, now: int)
    requires FairSitting(a, p) && Sittings.Save(a, p, q, response, now).Ok?
    ensures FairSitting(Sittings.Save(a, p, q, response, now).value, p)
  {
    hide Fair, Locate, WithRow, Papers.FindQuestion, Total;
    SavedAnswersFair(a.answers, p.questions, q, response);
  }

  lemma {:induction false} TotalAppend(answers: seq<Answer>, q: nat)
    ensures Total(WithRow(answers, q)) == Total(answers)
  {
    var rows := WithRow(answers, q);
    if |rows| > |answers| { assert rows[..|rows| - 1] == answers; }
  }

  lemma {:induction false} TotalSameMarks(a: seq<Answer>, b: seq<Answer>)
    requires |a| == |b| && forall k :: 0 <= k < |a| ==> Awarded(a[k]) == Awarded(b[k])
    ensures Total(a) == Total(b)
  {
    if a != [] { TotalSameMarks(a[..|a| - 1], b[..|b| - 1]); }
  }

  lemma OverrideKeepsFair(a: Sittings.Row, p: Papers.Row, q: nat, points: real)
    requires FairSitting(a, p) && Sittings.Override(a, p, q, points).Ok?
    ensures FairSitting(Sittings.Override(a, p, q, points).value, p)
  {
    var at := Papers.FindQuestion(p.questions, q);
    QuantizeStaysWithin(points, p.questions[at].points);
    var row := WithRow(a.answers, q)[Locate(a.answers, q)].(awarded := Some(Quantize(points)), grader := Some(Human));
    assert p.questions[at].id == row.question;
    SetRowKeepsFair(a.answers, p.questions, q, row);
  }

  lemma SittingStepKeepsFair(a: Sittings.Row, p: Papers.Row, e: Sittings.Event, now: int, upper: string -> string)
    requires FairSitting(a, p) && DistinctIds(p.questions)
    ensures FairSitting(Sittings.Step(a, p, e, now, upper), p)
  {
    hide Fair;
    match e
    case Saving(q, response) =>
      if Sittings.Save(a, p, q, response, now).Ok? { SaveKeepsFair(a, p, q, response, now); }
    case Marking =>
      FairMarks(a.answers, p.questions, |p.questions|, upper);
      assert p.questions[..|p.questions|] == p.questions;
    case Overriding(q, points) =>
      if Sittings.Override(a, p, q, points).Ok? { OverrideKeepsFair(a, p, q, points); }
    case _ =>
  }

  lemma StepKeepsBalanced(w: World, c: Call, upper: string -> string)
    requires Balanced(w) && Timely(w, c)
    ensures Balanced(Step(w, c, upper))
  {
    hide FairSitting, DistinctIds;
    var p := w.paper;
    match c.op
    case Sit(sitter, event) =>
      if sitter in w.sittings { SittingStepKeepsFair(w.sittings[sitter], p, event, c.at, upper); }
    case Start(sitter) =>
      if sitter !in w.sittings { FreshSittingFair(p, c.at); }
    case Write(target, newId, built) => Papers.WriteKeepsSound(p, target, newId, built);
    case Delete(id) => Papers.DeleteKeepsSound(p, id);
    case Publish => Papers.PublishKeepsSound(p);
    case Close => CloseKeepsFair(w);
    case GenerationArrives(drafted) => Papers.GeneratedIsSound(p, drafted);
    case _ =>
  }

  lemma FreshSittingFair(p: Papers.Row, now: int)
    ensures Sittings.Start(p, None, now).Ok? ==> FairSitting(Sittings.Start(p, None, now).value, p)
  {
  }

  lemma CloseKeepsFair(w: World)
    requires Balanced(w)
    ensures Balanced(w.(paper := OrElse(Papers.Close(w.paper), w.paper)))
  {
    hide Fair;
    forall s | s in w.sittings
      ensures FairSitting(w.sittings[s], OrElse(Papers.Close(w.paper), w.paper))
    {
      assert FairSitting(w.sittings[s], w.paper);
    }
  }

  /** Over every run of edits, publication, sittings, saves, hand-ins, gradings, re-gradings,
      overrides, releases and voids: each score is the sum of its marks and lies between
      nothing and what the paper is out of; a graded sitting is out of that same number; and
      nothing is released ungraded. */
  lemma {:induction false} BooksBalance(w: World, run: seq<Call>, upper: string -> string, sitter: nat)
    requires Balanced(w) && TimelyRun(w, run, upper)
    ensures Balanced(Run(w, run, upper))
    ensures var end := Run(w, run, upper);
      sitter in end.sittings ==>
        var a := end.sittings[sitter];
        && end.paper.maxScore == Some(MaxScore(end.paper.questions))
        && (a.score.Some? ==> a.score.value == Total(a.answers) && 0 <= a.score.value <= end.paper.maxScore.value)
        && (a.gradedAt.Some? ==> a.maxScore == end.paper.maxScore)
        && (a.releasedAt.Some? ==> a.gradedAt.Some?)
    decreases |run|
  {
    hide Step, Fair, Timely;
    if run != [] {
      var before := run[..|run| - 1];
      forall k | 0 <= k < |before| ensures Timely(Run(w, before[..k], upper), before[k]) {
        assert before[..k] == run[..k];
      }
      BooksBalance(w, before, upper, sitter);
      StepKeepsBalanced(Run(w, before, upper), run[|run| - 1], upper);
    }
    var end := Run(w, run, upper);
    if sitter in end.sittings {
      assert FairSitting(end.sittings[sitter], end.paper);
      ScoreWithinMax(end.sittings[sitter].answers, end.paper.questions);
    }
  }

  // Where every paper begins.
  lemma NewPaperBalanced(requested: nat, s: Papers.Settings)
    ensures Balanced(World(Papers.Row(Papers.Generating, [], None, requested, s.opens, s.closes, s.length, s.immediate), map[]))
  {
  }

  // ------------------------------------------------------------- one sitter at a time

  // The call is this sitter's own, or replaces the questions.
  predicate Touches(op: Op, sitter: nat) {
    match op
    case Start(s) => s == sitter
    case Sit(s, _) => s == sitter
    case GenerationArrives(drafted) => Papers.Storable(drafted)
    case _ => false
  }

  // How one's sitting stands, if there is one.
  function Standing(w: World, sitter: nat): Option<Sittings.Row> {
    if sitter in w.sittings then Some(w.sittings[sitter]) else None
  }

  /** A sitting is changed by its own sitter's calls alone, questions replaced by a worker apart: through
      any run of everyone else's calls and of the author's, it stays as it stood; and no call of a
      sitter's touches the paper. */
  lemma {:induction false} OnlyOwnCallsTouch(w: World, run: seq<Call>, upper: string -> string, sitter: nat)
    requires forall k :: 0 <= k < |run| ==> !Touches(run[k].op, sitter)
    ensures Standing(Run(w, run, upper), sitter) == Standing(w, sitter)
    ensures (forall k :: 0 <= k < |run| ==> run[k].op.Start? || run[k].op.Sit?) ==> Run(w, run, upper).paper == w.paper
    decreases |run|
  {
    if run != [] {
      var n := |run| - 1;
      OnlyOwnCallsTouch(w, run[..n], upper, sitter);
      OneCallTouches(Run(w, run[..n], upper), run[n], upper, sitter);
    }
  }

  /** A generation result that is stored takes the answers of every sitting along and leaves the rest of
      each; any other leaves the sittings alone. */
  lemma ResultClearsAnswers(w: World, drafted: seq<Question>, at: int, upper: string -> string, sitter: nat)
    ensures var v := Step(w, Call(GenerationArrives(drafted), at), upper);
      && v.sittings.Keys == w.sittings.Keys
      && (sitter in w.sittings ==> v.sittings[sitter] == if 1 <= |drafted| <= 100 then w.sittings[sitter].(answers := []) else w.sittings[sitter])
  {
  }

  lemma OneCallTouches(w: World, c: Call, upper: string -> string, sitter: nat)
    ensures !Touches(c.op, sitter) ==> Standing(Step(w, c, upper), sitter) == Standing(w, sitter)
    ensures c.op.Start? || c.op.Sit? ==> Step(w, c, upper).paper == w.paper
    ensures c.op.Sit? && c.op.sitter in w.sittings ==>
      Standing(Step(w, c, upper), c.op.sitter) == Some(Sittings.Step(w.sittings[c.op.sitter], w.paper, c.op.event, c.at, upper))
  {
    hide Sittings.Step, Sittings.Start, Papers.Write, Papers.Delete, Papers.Publish, Papers.Update, Papers.Close, Papers.Generated;
  }
}
