/** The paper's own row and its question rows: `write_question`, `delete_question`,
    `_reindex`, `update_draft`, `publish` and `close` of `services/assessments.py`, and the
    terminal writes of `workers/tasks/assessments.py`. */
module Papers {
  import opened Wrappers
  import opened Grading
  import opened Questions

  datatype Status = Draft | Generating | Published | Closed

  // Questions in index order. Times are whatever the clock counts in.
  datatype Row = Row(status: Status, questions: seq<Question>, maxScore: Option<nat>, questionCount: nat,
                     opens: Option<int>, closes: Option<int>, length: Option<nat>, immediate: bool)

  // What the author may set on a draft. A field left out of a request keeps its old value.
  datatype Settings = Settings(opens: Option<int>, closes: Option<int>, length: Option<nat>, immediate: bool)

  const OFFSET: nat := 10_000
  // What the table's check on `question_count` lets a paper hold.
  const MOST: nat := 100

  predicate Indexed(questions: seq<Question>) {
    forall k :: 0 <= k < |questions| ==> questions[k].index == k
  }

  ghost predicate Sound(p: Row) {
    && Indexed(p.questions)
    && DistinctIds(p.questions)
    && (p.status == Published || p.status == Closed ==>
          p.questions != [] && p.maxScore == Some(MaxScore(p.questions)) && Answerable(p.questions))
  }

  predicate Answerable(questions: seq<Question>) {
    forall k :: 0 <= k < |questions| ==> questions[k].correct.Some? && questions[k].correct.value != ""
  }

  function Editable(p: Row): Outcome<()> {
    if p.status == Draft then Ok(()) else Refused(Conflict)
  }

  function FindQuestion(questions: seq<Question>, id: nat): (k: nat)
    ensures k <= |questions|
    ensures k < |questions| ==> questions[k].id == id
    ensures forall j :: 0 <= j < k ==> questions[j].id != id
  {
    if questions == [] || questions[0].id == id then 0 else 1 + FindQuestion(questions[1..], id)
  }

  // The question as its columns hold it: a mark in cents, which the table wants positive.
  function StoredAs(id: nat, index: nat, f: Fields): Outcome<Question> {
    var cents := Quantize(f.points);
    if cents <= 0 then Refused(Constraint) else Ok(Question(id, index, Some(f.correct), cents))
  }

  // One past the largest index in use, or 0 when there is none.
  function NextIndex(questions: seq<Question>): (next: nat)
    ensures forall k :: 0 <= k < |questions| ==> questions[k].index < next
    ensures next > 0 ==> exists k :: 0 <= k < |questions| && questions[k].index == next - 1
  {
    if questions == [] then 0
    else
      var rest, last := NextIndex(questions[..|questions| - 1]), questions[|questions| - 1];
      if last.index < rest then rest else last.index + 1
  }

  // `write_question`: `target` names the row to edit, whose index is left alone; `newId` is the
  // id a new row is given.
  function Write(p: Row, target: Option<nat>, newId: nat, built: Outcome<Fields>): Outcome<Row> {
    if Editable(p).Refused? then Refused(Conflict)
    else if built.Refused? then Refused(built.error)
    else
      var at := FindQuestion(p.questions, if target.Some? then target.value else newId);
      if target.Some? && at == |p.questions| then Refused(NotFound)
      else if target.None? && at < |p.questions| then Refused(Constraint)
      else
        var id := if target.Some? then target.value else newId;
        var index := if target.Some? then p.questions[at].index else NextIndex(p.questions);
        var stored := StoredAs(id, index, built.value);
        if stored.Refused? then Refused(stored.error)
        else if target.Some? then Ok(p.(questions := p.questions[at := stored.value]))
        else Ok(p.(questions := p.questions + [stored.value]))
  }

  function Without(questions: seq<Question>, k: nat): seq<Question>
    requires k < |questions|
  {
    questions[..k] + questions[k + 1..]
  }

  // Every row at its place in the list, counted from `base`.
  function Placed(questions: seq<Question>, base: nat): (r: seq<Question>)
    ensures |r| == |questions|
    ensures forall k :: 0 <= k < |r| ==> r[k] == questions[k].(index := base + k)
  {
    seq(|questions|, k requires 0 <= k < |questions| => questions[k].(index := base + k))
  }

  // Whether writing those places one row after another, in the order of the rows' ids as the
  // ORM does within a flush, meets an index that a row not yet written still holds.
  predicate Clashes(questions: seq<Question>, base: nat) {
    exists j, k :: 0 <= j < |questions| && 0 <= k < |questions| &&
      questions[j].id < questions[k].id && questions[k].index == base + j
  }

  function Delete(p: Row, id: nat): Outcome<Row> {
    if Editable(p).Refused? then Refused(Conflict)
    else
      var at := FindQuestion(p.questions, id);
      if at == |p.questions| then Refused(NotFound)
      else
        var rest := Without(p.questions, at);
        if Clashes(rest, OFFSET) || Clashes(Placed(rest, OFFSET), 0) then Refused(Constraint)
        else Ok(p.(questions := Placed(rest, 0)))
  }

  function Update(p: Row, s: Settings): Outcome<Row> {
    if Editable(p).Refused? then Refused(Conflict)
    else if s.opens.Some? && s.closes.Some? && s.opens.value >= s.closes.value then Refused(ValidationFailed)
    else Ok(p.(opens := s.opens, closes := s.closes, length := s.length, immediate := s.immediate))
  }

  function Publish(p: Row): Outcome<Row> {
    if p.status != Draft then Refused(Conflict)
    else if p.questions == [] || !Answerable(p.questions) then Refused(ValidationFailed)
    else if |p.questions| > MOST then Refused(Constraint)
    else Ok(p.(status := Published, maxScore := Some(MaxScore(p.questions)), questionCount := |p.questions|))
  }

  function Close(p: Row): Outcome<Row> {
    if p.status != Published then Refused(Conflict) else Ok(p.(status := Closed))
  }

  // `_fail`: the paper is a draft again, whatever it was.
  function GenerationFailed(p: Row): Row { p.(status := Draft) }

  predicate Storable(questions: seq<Question>) { 1 <= |questions| <= MOST }

  // `_generate`: the drafted questions replace whatever is there, and the paper is a draft. A
  // count the table refuses is rolled back and told as a failure.
  function Generated(p: Row, questions: seq<Question>): Row {
    if Storable(questions) then p.(status := Draft, questions := Placed(questions, 0), questionCount := |questions|)
    else GenerationFailed(p)
  }

  // ---------------------------------------------------------------- the class

  class Paper {
    var status: Status
    var questions: seq<Question>
    var maxScore: Option<nat>
    var questionCount: nat
    var opens: Option<int>
    var closes: Option<int>
    var length: Option<nat>
    var immediate: bool

    function View(): Row
      reads this
    {
      Row(status, questions, maxScore, questionCount, opens, closes, length, immediate)
    }

    constructor (requested: nat, settings: Settings)
      ensures View() == Row(Generating, [], None, requested, settings.opens, settings.closes, settings.length, settings.immediate)
    {
      status, questions, maxScore, questionCount := Generating, [], None, requested;
      opens, closes, length, immediate := settings.opens, settings.closes, settings.length, settings.immediate;
    }

    method WriteQuestion(target: Option<nat>, newId: nat, stem: string, options: seq<Choice>, correct: Option<string>,
                         points: real, casing: Casing)
      returns (r: Outcome<()>)
      modifies this
      ensures var spec := Write(old(View()), target, newId, Build(stem, options, correct, Some(points), casing));
        r.Ok? == spec.Ok? && View() == if spec.Ok? then spec.value else old(View())
      ensures r.Refused? ==> r == Refused(Write(old(View()), target, newId, Build(stem, options, correct, Some(points), casing)).error)
    {
      hide NextIndex, FindQuestion, StoredAs, Build;
      if status != Draft {
        return Refused(Conflict);
      }
      var built := BuildQuestionFields(stem, options, correct, Some(points), casing);
      if built.Refused? {
        return Refused(built.error);
      }
      var at := FindQuestion(questions, if target.Some? then target.value else newId);
      if target.Some? && at == |questions| {
        return Refused(NotFound);
      }
      if target.None? && at < |questions| {
        return Refused(Constraint);
      }
      var id := if target.Some? then target.value else newId;
      var stored := StoredAs(id, if target.Some? then questions[at].index else NextIndex(questions), built.value);
      if stored.Refused? {
        return Refused(stored.error);
      }
      if target.Some? {
        questions := questions[at := stored.value];
      } else {
        questions := questions + [stored.value];
      }
      r := Ok(());
    }

    method DeleteQuestion(id: nat) returns (r: Outcome<()>)
      requires Indexed(questions) && DistinctIds(questions)
      modifies this
      ensures var spec := Delete(old(View()), id);
        r.Ok? == spec.Ok? && View() == if spec.Ok? then spec.value else old(View())
      ensures r.Refused? ==> r == Refused(Delete(old(View()), id).error)
    {
      hide FindQuestion, Clashes, Placed;
      if status != Draft {
        return Refused(Conflict);
      }
      var at := FindQuestion(questions, id);
      if at == |questions| {
        return Refused(NotFound);
      }
      WithoutKeepsIds(questions, at);
      hide DistinctIds;
      var before := questions;
      questions := Without(questions, at);
      var ok := Reindex();
      if !ok {
        questions := before;
        return Refused(Constraint);
      }
      r := Ok(());
    }

    // One UPDATE of one row's index, refused by the unique constraint if another row has it.
    method WriteIndex(k: nat, index: nat) returns (ok: bool)
      requires k < |questions| && UniqueIndices(questions)
      modifies this`questions
      ensures |questions| == |old(questions)|
      ensures ok <==> Free(old(questions), k, index)
      ensures questions == if ok then old(questions)[k := old(questions)[k].(index := index)] else old(questions)
      ensures UniqueIndices(questions)
    {
      ok := Free(questions, k, index);
      if ok {
        questions := questions[k := questions[k].(index := index)];
      }
    }

    // The row left whose id is least.
    method LeastLeft(left: set<nat>) returns (k: nat)
      requires left != {} && forall j :: j in left ==> 0 <= j < |questions|
      ensures k in left && Least(questions, left, k)
    {
      LeastIdExists(questions, left);
      k :| k in left && Least(questions, left, k);
    }

    // One flush: the row of least id among those left, until none is left.
    method Flush(base: nat) returns (ok: bool)
      requires UniqueIndices(questions) && DistinctIds(questions)
      modifies this`questions
      ensures ok <==> !Clashes(old(questions), base)
      ensures ok ==> questions == Placed(old(questions), base)
      ensures UniqueIndices(questions)
    {
      ghost var start := questions;
      var left := Positions(|questions|);
      PartlyStarts(start, base);
      hide Midway, Clashes, DistinctIds, Partly, UniqueIndices, Free, Least;
      while left != {}
        invariant forall k :: k in left ==> 0 <= k < |start|
        invariant questions == Partly(start, left, base)
        invariant UniqueIndices(questions) && Midway(start, left, base)
      {
        var k := LeastLeft(left);
        LeastIn(start, left, base, k);
        var moved := WriteIndex(k, base + k);
        if !moved {
          MidwayStops(start, left, base, k);
          return false;
        }
        MidwayOn(start, left, base, k);
        left := left - {k};
      }
      PartlyEnds(start, base);
      ok := true;
    }

    // Two flushes, the first past the offset, so that no row lands on one not yet moved.
    method Reindex() returns (ok: bool)
      requires UniqueIndices(questions) && DistinctIds(questions)
      modifies this`questions
      ensures ok <==> !Clashes(old(questions), OFFSET) && !Clashes(Placed(old(questions), OFFSET), 0)
      ensures ok ==> questions == Placed(old(questions), 0)
      ensures UniqueIndices(questions)
    {
      ghost var start := questions;
      ok := Flush(OFFSET);
      if ok {
        ok := Flush(0);
        assert ok ==> questions == Placed(start, 0);
      }
    }

    method UpdateDraft(settings: Settings) returns (r: Outcome<()>)
      modifies this
      ensures var spec := Update(old(View()), settings);
        r.Ok? == spec.Ok? && View() == if spec.Ok? then spec.value else old(View())
      ensures r.Refused? ==> r == Refused(Update(old(View()), settings).error)
    {
      if status != Draft {
        return Refused(Conflict);
      }
      if settings.opens.Some? && settings.closes.Some? && settings.opens.value >= settings.closes.value {
        return Refused(ValidationFailed);
      }
      opens, closes, length, immediate := settings.opens, settings.closes, settings.length, settings.immediate;
      r := Ok(());
    }

    method PublishPaper() returns (r: Outcome<()>)
      modifies this
      ensures var spec := Publish(old(View()));
        r.Ok? == spec.Ok? && View() == if spec.Ok? then spec.value else old(View())
      ensures r.Refused? ==> r == Refused(Publish(old(View())).error)
    {
      if status != Draft {
        return Refused(Conflict);
      }
      if questions == [] || exists k :: 0 <= k < |questions| && (questions[k].correct.None? || questions[k].correct.value == "") {
        return Refused(ValidationFailed);
      }
      if |questions| > MOST {
        return Refused(Constraint);
      }
      status := Published;
      maxScore := Some(MaxScore(questions));
      questionCount := |questions|;
      r := Ok(());
    }

    method ClosePaper() returns (r: Outcome<()>)
      modifies this
      ensures var spec := Close(old(View()));
        r.Ok? == spec.Ok? && View() == if spec.Ok? then spec.value else old(View())
      ensures r.Refused? ==> r == Refused(Close(old(View())).error)
    {
      if status != Published {
        return Refused(Conflict);
      }
      status := Closed;
      r := Ok(());
    }

    method GenerationDone(drafted: seq<Question>)
      modifies this
      ensures View() == Generated(old(View()), drafted)
    {
      status := Draft;
      if Storable(drafted) {
        questions := Placed(drafted, 0);
        questionCount := |drafted|;
      }
    }

    method GenerationLost()
      modifies this
      ensures View() == GenerationFailed(old(View()))
    {
      status := Draft;
    }
  }

  // ------------------------------------------------------------- renumbering

  predicate UniqueIndices(questions: seq<Question>) {
    forall i, j :: 0 <= i < j < |questions| ==> questions[i].index != questions[j].index
  }

  predicate Free(questions: seq<Question>, k: nat, index: nat) {
    forall j :: 0 <= j < |questions| && j != k ==> questions[j].index != index
  }

  // The rows of the given positions as they were, the rest placed from `base`.
  function Partly(start: seq<Question>, left: set<nat>, base: nat): (r: seq<Question>)
    ensures |r| == |start|
  {
    seq(|start|, k requires 0 <= k < |start| => if k in left then start[k] else start[k].(index := base + k))
  }

  function Positions(n: nat): (r: set<nat>)
    ensures forall k :: k in r <==> 0 <= k < n
  {
    if n == 0 then {} else Positions(n - 1) + {n - 1}
  }

  predicate Least(questions: seq<Question>, left: set<nat>, k: nat)
    requires 0 <= k < |questions| && forall j :: j in left ==> 0 <= j < |questions|
  {
    forall j :: j in left ==> questions[k].id <= questions[j].id
  }

  lemma {:induction false} LeastIdExists(questions: seq<Question>, left: set<nat>)
    requires left != {} && forall k :: k in left ==> 0 <= k < |questions|
    ensures exists k :: k in left && Least(questions, left, k)
  {
    var k: nat :| k in left;
    var rest := left - {k};
    if rest == {} {
      assert left == {k} && Least(questions, left, k);
    } else {
      LeastIdExists(questions, rest);
      var m: nat :| m in rest && Least(questions, rest, m);
      assert left == rest + {k};
      assert Least(questions, left, if questions[m].id < questions[k].id then m else k);
    }
  }

  // A flush under way: the rows written have smaller ids than the rows left, and none of them
  // met an index that a row left at the time still held.
  ghost predicate Midway(start: seq<Question>, left: set<nat>, base: nat) {
    && (forall k :: k in left ==> 0 <= k < |start|)
    && (forall j, k :: 0 <= j < |start| && j !in left && k in left ==> start[j].id < start[k].id)
    && (forall j, k :: 0 <= j < |start| && j !in left && 0 <= k < |start| && start[j].id < start[k].id ==>
          start[k].index != base + j)
  }

  // Rows keep their ids.
  lemma LeastIn(start: seq<Question>, left: set<nat>, base: nat, k: nat)
    requires k in left && (forall j :: j in left ==> 0 <= j < |start|) && Least(Partly(start, left, base), left, k)
    ensures Least(start, left, k) && Partly(start, left, base)[k] == start[k]
  {
    assert forall j :: j in left ==> Partly(start, left, base)[j].id == start[j].id;
  }

  lemma {:induction false} PartlyStarts(start: seq<Question>, base: nat)
    ensures Partly(start, Positions(|start|), base) == start && Midway(start, Positions(|start|), base)
  {
  }

  lemma PartlyEnds(start: seq<Question>, base: nat)
    requires Midway(start, {}, base)
    ensures Partly(start, {}, base) == Placed(start, base) && !Clashes(start, base)
  {
  }

  // One row written, or met by a row not yet written.
  lemma MidwayStops(start: seq<Question>, left: set<nat>, base: nat, k: nat)
    requires Midway(start, left, base) && k in left && DistinctIds(start) && Least(start, left, k)
    requires !Free(Partly(start, left, base), k, base + k)
    ensures Clashes(start, base)
  {
    var j: nat :| j < |start| && j != k && Partly(start, left, base)[j].index == base + k;
    assert j in left && start[k].id <= start[j].id;
    assert start[k].id < start[j].id && start[j].index == base + k;
  }

  lemma MidwayOn(start: seq<Question>, left: set<nat>, base: nat, k: nat)
    requires Midway(start, left, base) && k in left && DistinctIds(start) && Least(start, left, k)
    requires Free(Partly(start, left, base), k, base + k)
    ensures Midway(start, left - {k}, base)
    ensures Partly(start, left, base)[k := start[k].(index := base + k)] == Partly(start, left - {k}, base)
  {
    LeastGoesFirst(start, left, k);
    forall j | 0 <= j < |start| && start[k].id < start[j].id ensures start[j].index != base + k {
      assert j in left && Partly(start, left, base)[j] == start[j];
    }
    hide Free, Partly, DistinctIds, Least;
    PartlyOn(start, left, base, k);
  }

  lemma LeastGoesFirst(start: seq<Question>, left: set<nat>, k: nat)
    requires k in left && DistinctIds(start) && (forall j :: j in left ==> 0 <= j < |start|) && Least(start, left, k)
    ensures forall j :: j in left && j != k ==> start[k].id < start[j].id
  {
  }

  lemma PartlyOn(start: seq<Question>, left: set<nat>, base: nat, k: nat)
    requires k in left && k < |start|
    ensures Partly(start, left, base)[k := start[k].(index := base + k)] == Partly(start, left - {k}, base)
  {
  }

  predicate Small(n: nat, at: nat) { n <= OFFSET || (n == OFFSET + 1 && at == OFFSET) }

  /** In whatever order single writes reach the table, after any of the first pass and after
      any of the second no two rows share an index: at most ten thousand questions, or one
      more with the last deleted. */
  lemma DeleteNeverCollides(questions: seq<Question>, at: nat, left: set<nat>)
    requires Indexed(questions) && at < |questions| && Small(|questions|, at)
    ensures var rest := Without(questions, at);
      UniqueIndices(Partly(rest, left, OFFSET)) && UniqueIndices(Partly(Placed(rest, OFFSET), left, 0))
  {
  }

  function WithIds(p: Row, ids: seq<nat>): Row
    requires |ids| == |p.questions|
  {
    p.(questions := seq(|ids|, k requires 0 <= k < |ids| => p.questions[k].(id := ids[k])))
  }

  ghost predicate Distinct(ids: seq<nat>) { forall i, j :: 0 <= i < j < |ids| ==> ids[i] != ids[j] }

  lemma {:induction false} FoundAt(questions: seq<Question>, k: nat)
    requires k < |questions| && DistinctIds(questions)
    ensures FindQuestion(questions, questions[k].id) == k
  {
  }

  lemma SmallGoesThrough(p: Row, at: nat)
    requires p.status == Draft && Indexed(p.questions) && DistinctIds(p.questions)
    requires at < |p.questions| && Small(|p.questions|, at)
    ensures Delete(p, p.questions[at].id).Ok?
  {
    FoundAt(p.questions, at);
    var rest := Without(p.questions, at);
    assert forall k :: 0 <= k < |rest| ==> rest[k].index < OFFSET;
    assert !Clashes(rest, OFFSET);
    assert !Clashes(Placed(rest, OFFSET), 0);
  }

  lemma ClashRefuses(p: Row, at: nat, j: nat, k: nat)
    requires p.status == Draft && DistinctIds(p.questions) && at < |p.questions|
    requires var rest := Without(p.questions, at);
      j < |rest| && k < |rest| && rest[j].id < rest[k].id && rest[k].index == OFFSET + j
    ensures Delete(p, p.questions[at].id).Refused?
  {
    FoundAt(p.questions, at);
    hide FindQuestion, DistinctIds;
    assert Clashes(Without(p.questions, at), OFFSET);
  }

  // Ids that rise with the index: the first row written meets the one numbered ten thousand, or
  // the second the one numbered one more when that one is gone.
  lemma LargeCanCollide(p: Row, at: nat) returns (ids: seq<nat>)
    requires p.status == Draft && Indexed(p.questions) && at < |p.questions| && !Small(|p.questions|, at)
    ensures |ids| == |p.questions| && Distinct(ids) && Delete(WithIds(p, ids), ids[at]).Refused?
  {
    hide Delete;
    ids := seq(|p.questions|, k => k);
    var q := WithIds(p, ids);
    ClashRefuses(q, at, if at == OFFSET then 1 else 0, if at < OFFSET then OFFSET - 1 else OFFSET);
  }

  /** The bound is the exact one: rows are written in the order of their random ids, and no
      assignment of ids makes the delete collide just when the draft is that small. */
  lemma DeleteGoesThroughIff(p: Row, at: nat)
    requires p.status == Draft && Indexed(p.questions) && at < |p.questions|
    ensures (forall ids :: |ids| == |p.questions| && Distinct(ids) ==> Delete(WithIds(p, ids), ids[at]).Ok?)
       <==> Small(|p.questions|, at)
  {
    hide Delete;
    if Small(|p.questions|, at) {
      forall ids: seq<nat> | |ids| == |p.questions| && Distinct(ids) ensures Delete(WithIds(p, ids), ids[at]).Ok? {
        SmallGoesThrough(WithIds(p, ids), at);
      }
    } else {
      var ids := LargeCanCollide(p, at);
    }
  }

  /** One question past the bound, it is a toss: a delete other than of the last question goes
      through exactly when the last one's row is written before the first one's. */
  lemma OneOverGoesThroughIff(p: Row, at: nat)
    requires p.status == Draft && Indexed(p.questions) && DistinctIds(p.questions)
    requires |p.questions| == OFFSET + 1 && at < OFFSET
    ensures var first, last := p.questions[if at == 0 then 1 else 0], p.questions[OFFSET];
      Delete(p, p.questions[at].id).Ok? <==> last.id < first.id
  {
    FoundAt(p.questions, at);
    var rest := Without(p.questions, at);
    assert rest[OFFSET - 1] == p.questions[OFFSET] && rest[0] == p.questions[if at == 0 then 1 else 0];
    assert Clashes(rest, OFFSET) <==> rest[0].id < rest[OFFSET - 1].id;
    assert !Clashes(Placed(rest, OFFSET), 0);
  }

  lemma WithoutKeepsIds(questions: seq<Question>, at: nat)
    requires DistinctIds(questions) && at < |questions|
    ensures DistinctIds(Without(questions, at))
  {
  }

  lemma PlacedKeepsIds(questions: seq<Question>)
    requires DistinctIds(questions)
    ensures DistinctIds(Placed(questions, 0))
  {
  }

  /** Survivors keep their order and close the gap. */
  lemma {:induction false} DeleteKeepsOrder(p: Row, id: nat)
    requires Sound(p) && Delete(p, id).Ok?
    ensures var after := Delete(p, id).value.questions;
      && Indexed(after) && DistinctIds(after)
      && |after| == |p.questions| - 1
      && forall k :: 0 <= k < |after| ==>
           after[k] == p.questions[if k < FindQuestion(p.questions, id) then k else k + 1].(index := k)
  {
    hide Clashes, FindQuestion, DistinctIds;
    var at := FindQuestion(p.questions, id);
    WithoutKeepsIds(p.questions, at);
    PlacedKeepsIds(Without(p.questions, at));
  }

  /** In rows numbered 0 to n-1 the next index is n. */
  lemma {:induction false} NextIndexCounts(questions: seq<Question>)
    requires Indexed(questions)
    ensures NextIndex(questions) == |questions|
  {
    if questions != [] {
      assert questions[|questions| - 1].index < NextIndex(questions);
    }
  }

  lemma RewriteKeepsSound(p: Row, k: nat, q: Question)
    requires Sound(p) && p.status == Draft && k < |p.questions| && q.id == p.questions[k].id && q.index == p.questions[k].index
    ensures Sound(p.(questions := p.questions[k := q]))
  {
  }

  lemma AddKeepsSound(p: Row, q: Question)
    requires Sound(p) && p.status == Draft && q.index == |p.questions| && FindQuestion(p.questions, q.id) == |p.questions|
    ensures Sound(p.(questions := p.questions + [q]))
  {
  }

  /** A write keeps the numbering 0 to n-1: an edited row stays at its index, and the largest
      index plus one is where a new row continues it. */
  lemma WriteKeepsSound(p: Row, target: Option<nat>, newId: nat, built: Outcome<Fields>)
    requires Sound(p)
    ensures Write(p, target, newId, built).Ok? ==> Sound(Write(p, target, newId, built).value)
  {
    hide Sound, NextIndex, FindQuestion;
    var id := if target.Some? then target.value else newId;
    var at := FindQuestion(p.questions, id);
    SoundIsIndexed(p);
    NextIndexCounts(p.questions);
    if Write(p, target, newId, built).Ok? {
      if target.Some? {
        RewriteKeepsSound(p, at, StoredAs(id, p.questions[at].index, built.value).value);
      } else {
        AddKeepsSound(p, StoredAs(id, NextIndex(p.questions), built.value).value);
      }
    }
  }

  // The question has the key that was built, and its points to the nearest cent.
  ghost predicate Holds(q: Question, f: Fields) {
    q.correct == Some(f.correct) && -0.5 <= f.points * 100.0 - q.points as real <= 0.5
  }

  ghost predicate Has(questions: seq<Question>, id: nat) { exists k :: 0 <= k < |questions| && questions[k].id == id }

  /** In a draft a write takes exactly when its points come to a cent and, for an edit, the question is
      there, for a new one, its id is not. The row then holds what was built: the edited one in its
      place, a new one at the end; and no other row changes. */
  lemma WriteIs(p: Row, target: Option<nat>, newId: nat, f: Fields)
    requires Sound(p) && p.status == Draft
    ensures var r := Write(p, target, newId, Ok(f));
      && (r.Ok? <==> f.points * 100.0 >= 0.5 && if target.Some? then Has(p.questions, target.value) else !Has(p.questions, newId))
      && (r.Ok? && target.Some? ==>
            exists k :: 0 <= k < |p.questions| && p.questions[k].id == target.value
              && Holds(r.value.questions[k], f) && r.value == p.(questions := p.questions[k := Question(target.value, k, Some(f.correct), r.value.questions[k].points)]))
      && (r.Ok? && target.None? ==>
            |r.value.questions| == |p.questions| + 1 && var q := r.value.questions[|p.questions|];
            Holds(q, f) && q.id == newId && q.index == |p.questions| && r.value == p.(questions := p.questions + [q]))
  {
    hide DistinctIds, NextIndex;
    NextIndexCounts(p.questions);
    var id := if target.Some? then target.value else newId;
    var at := FindQuestion(p.questions, id);
    assert Has(p.questions, id) <==> at < |p.questions|;
  }

  /** The worker's result is stored exactly when it has one to a hundred questions: they replace what was
      there, in their order, and the count with them. Whatever comes, the paper is a draft. */
  lemma DeliveredIs(p: Row, drafted: seq<Question>)
    ensures var q := Generated(p, drafted);
      && q.status == Draft && q.maxScore == p.maxScore && q.opens == p.opens && q.closes == p.closes && q.length == p.length
      && (if 1 <= |drafted| <= 100 then q.questionCount == |drafted| == |q.questions| else q.questions == p.questions && q.questionCount == p.questionCount)
      && (1 <= |drafted| <= 100 ==> forall k :: 0 <= k < |drafted| ==> q.questions[k] == drafted[k].(index := k))
  {
  }

  /** A draft's settings are taken exactly when it opens before it closes, where it does both; and a
      paper closes exactly when it is published. Nothing else of either changes. */
  lemma SettlesIff(p: Row, s: Settings)
    ensures Update(p, s).Ok? <==> p.status == Draft && (s.opens.Some? && s.closes.Some? ==> s.opens.value < s.closes.value)
    ensures Update(p, s).Ok? ==> Update(p, s).value == p.(opens := s.opens, closes := s.closes, length := s.length, immediate := s.immediate)
    ensures Close(p).Ok? <==> p.status == Published
    ensures Close(p).Ok? ==> Close(p).value == p.(status := Closed)
  {
  }

  /** A paper is published exactly when it is a draft of one to a hundred questions, each with a key; it
      is then out of the sum of their points, and is otherwise as it was. */
  lemma PublishIff(p: Row)
    ensures Publish(p).Ok?
       <==> p.status == Draft && 1 <= |p.questions| <= 100 && forall q :: q in p.questions ==> q.correct.Some? && q.correct.value != ""
    ensures Publish(p).Ok? ==>
      Publish(p).value == p.(status := Published, maxScore := Some(MaxScore(p.questions)), questionCount := |p.questions|)
  {
    hide MaxScore;
    assert forall k :: 0 <= k < |p.questions| ==> p.questions[k] in p.questions;
  }

  lemma SoundIsIndexed(p: Row)
    requires Sound(p)
    ensures Indexed(p.questions)
  {
  }

  lemma DeleteKeepsSound(p: Row, id: nat)
    requires Sound(p)
    ensures Delete(p, id).Ok? ==> Sound(Delete(p, id).value)
  {
    if Delete(p, id).Ok? { DeleteKeepsOrder(p, id); }
  }

  lemma PublishKeepsSound(p: Row)
    requires Sound(p)
    ensures Publish(p).Ok? ==> Sound(Publish(p).value)
  {
  }

  lemma GeneratedIsSound(p: Row, drafted: seq<Question>)
    requires Sound(p) && DistinctIds(drafted)
    ensures Sound(Generated(p, drafted))
  {
  }
}
