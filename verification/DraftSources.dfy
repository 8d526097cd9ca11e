/** Where the questions of a drafting run come from: each one accepted is in a reply the run heard, and
    each one of the book's was settled by an answer to its own number. */
module DraftSources {
  import opened Wrappers
  import opened Generation
  import opened Drafts
  import opened DraftFacts
  import opened DraftRuns
  import opened Picking

  // ------------------------------------------------------------ one harvesting reply

  // The answer is to the n-th question asked, which the passages settle, and is sound.
  predicate Settles(a: Settling, n: int, count: nat) {
    a.number == n && 1 <= n <= count && a.settled && a.fits && a.fault.None?
  }

  /** What a harvesting reply brings, answer by answer: the answers that settle a question asked, in
      their order, each bringing the question its number names. */
  lemma {:induction false} AnsweringIs(answers: seq<Settling>, asked: seq<string>) returns (at: seq<nat>)
    ensures Picks(at, |answers|, (k: nat) => k < |answers| && Settles(answers[k], answers[k].number, |asked|))
    ensures |at| == |Answering(answers, asked)|
    ensures forall i :: 0 <= i < |at| ==> at[i] < |answers| && 1 <= answers[at[i]].number <= |asked|
    ensures forall i :: 0 <= i < |at| ==> Answering(answers, asked)[i] == asked[answers[at[i]].number - 1]
  {
    var keep := (k: nat) => k < |answers| && Settles(answers[k], answers[k].number, |asked|);
    if answers == [] {
      at := [];
    } else {
      var n := |answers| - 1;
      var before := AnsweringIs(answers[..n], asked);
      at := PicksNext(before, n, (k: nat) => k < n && Settles(answers[..n][k], answers[..n][k].number, |asked|), keep);
    }
  }

  // The answers that settle the n-th question.
  ghost function SettledBy(answers: seq<Settling>, n: int, count: nat): set<nat> {
    set k: nat | k < |answers| && Settles(answers[k], n, count)
  }

  /** Of questions that differ, each is brought as often as answers settle it. */
  lemma {:induction false} EachAsItsAnswers(answers: seq<Settling>, asked: seq<string>, n: nat)
    requires 1 <= n <= |asked| && forall i, j :: 0 <= i < j < |asked| ==> asked[i] != asked[j]
    ensures multiset(Answering(answers, asked))[asked[n - 1]] == |SettledBy(answers, n, |asked|)|
  {
    if answers == [] {
      assert SettledBy(answers, n, |asked|) == {};
    } else {
      var last := |answers| - 1;
      EachAsItsAnswers(answers[..last], asked, n);
      SettlingNext(answers, n, |asked|);
    }
  }

  lemma SettlingNext(answers: seq<Settling>, n: int, count: nat)
    requires answers != []
    ensures var last := |answers| - 1;
      |SettledBy(answers, n, count)| == |SettledBy(answers[..last], n, count)| + if Settles(answers[last], n, count) then 1 else 0
  {
    var last := |answers| - 1;
    var all, before := SettledBy(answers, n, count), SettledBy(answers[..last], n, count);
    assert last !in before;
    assert all == if Settles(answers[last], n, count) then before + {last} else before;
  }

  // ------------------------------------------------------------------- whole runs

  // The question was asked of the book in this call, and an answer to its number settles it.
  ghost predicate SettledIn(call: Call, turn: Turn, stem: string) {
    call.Harvested? && turn.Answered?
    && exists k :: 0 <= k < |turn.answers| && Settles(turn.answers[k], turn.answers[k].number, |call.asked|)
         && call.asked[turn.answers[k].number - 1] == stem
  }

  // The question is a sound one of the items of this call's reply, among the first eight or three
  // times as many as were wanted.
  ghost predicate WrittenIn(call: Call, turn: Turn, stem: string) {
    call.Wrote? && turn.Answered?
    && exists k :: 0 <= k < |turn.items| && (k < 8 || k < 3 * call.wanted) && turn.items[k] == Item(stem, None)
  }

  // Where a question came from: a call for its format. The book's k-th call is for format k, round and
  // round.
  ghost predicate Sourced(plan: Plan, turns: Turns, heard: seq<Call>, t: Taken, book: bool) {
    exists c :: 0 <= c < |heard| && heard[c].format == t.format &&
      if book then SettledIn(heard[c], turns(c), t.stem) && plan.shares != [] && t.format == c % |plan.shares|
      else WrittenIn(heard[c], turns(c), t.stem)
  }

  // What is asked of the book is what it prints, and fit to be asked.
  ghost predicate Printed(plan: Plan, call: Call) {
    call.Harvested? ==> forall q :: q in call.asked ==>
      exists b, i :: 0 <= b < |plan.printed| && 0 <= i < |plan.printed[b]| && plan.printed[b][i] == BookQuestion(q, None)
  }

  // A stretch of a run adds to what was heard and accepted, and has a source for all it adds.
  ghost predicate Adds(plan: Plan, turns: Turns, c: Core, p: Progress, book: bool) {
    p.Going? ==>
      && c.heard <= p.core.heard && c.accepted <= p.core.accepted
      && (forall k :: |c.heard| <= k < |p.core.heard| ==> Printed(plan, p.core.heard[k]))
      && (forall k :: |c.accepted| <= k < |p.core.accepted| ==> Sourced(plan, turns, p.core.heard, p.core.accepted[k], book))
  }

  lemma SourcedOn(plan: Plan, turns: Turns, heard: seq<Call>, more: seq<Call>, t: Taken, book: bool)
    requires Sourced(plan, turns, heard, t, book) && heard <= more
    ensures Sourced(plan, turns, more, t, book)
  {
    hide SettledIn, WrittenIn;
    var c :| 0 <= c < |heard| && heard[c].format == t.format &&
      if book then SettledIn(heard[c], turns(c), t.stem) && plan.shares != [] && t.format == c % |plan.shares|
      else WrittenIn(heard[c], turns(c), t.stem);
    assert more[c] == heard[c];
  }

  lemma AddsOn(plan: Plan, turns: Turns, c: Core, d: Core, p: Progress, book: bool)
    requires Adds(plan, turns, c, Going(d), book) && Adds(plan, turns, d, p, book)
    ensures Adds(plan, turns, c, p, book)
  {
    hide Sourced, Printed;
    if p.Going? {
      forall k | |c.accepted| <= k < |p.core.accepted| ensures Sourced(plan, turns, p.core.heard, p.core.accepted[k], book) {
        if k < |d.accepted| {
          assert p.core.accepted[k] == d.accepted[k];
          SourcedOn(plan, turns, d.heard, p.core.heard, d.accepted[k], book);
        }
      }
    }
  }

  lemma AddsNothing(plan: Plan, turns: Turns, c: Core, d: Core, book: bool)
    requires c.accepted == d.accepted && c.heard == d.heard
    ensures Adds(plan, turns, c, Going(d), book)
  {
  }

  // Joining takes from what was found and nothing else.
  lemma JoinAdds(plan: Plan, turns: Turns, c: Core, call: Call, d: Core, fmt: nat, found: seq<string>, turn: Turn, book: bool)
    requires fmt < |d.produced| && d.accepted == c.accepted && d.heard == c.heard + [call] && turn == turns(|c.heard|)
    requires Printed(plan, call) && turn.Answered? && call.format == fmt && (book ==> plan.shares != [] && fmt == |c.heard| % |plan.shares|)
    requires forall s :: s in found ==> if book then SettledIn(call, turn, s) else WrittenIn(call, turn, s)
    ensures Adds(plan, turns, c, Join(d, fmt, found, turn.embed(found), book, plan.near), book)
  {
    hide SettledIn, WrittenIn, Printed, Raises, KeepFlags, KeptNow, StemsOf, Stumbles;
    var p := Join(d, fmt, found, turn.embed(found), book, plan.near);
    if p.Going? {
      assert d.heard[|c.heard|] == call;
      forall k | |c.accepted| <= k < |p.core.accepted| ensures Sourced(plan, turns, p.core.heard, p.core.accepted[k], book) {
        JoinedIsFound(d, fmt, found, turn.embed(found), book, plan.near, k);
        assert p.core.heard[|c.heard|] == call;
      }
    }
  }

  lemma JoinedIsFound(d: Core, fmt: nat, found: seq<string>, vectors: Option<seq<Vector>>, book: bool, near: (Vector, Vector) -> bool, k: nat)
    requires fmt < |d.produced| && Join(d, fmt, found, vectors, book, near).Going?
    requires |d.accepted| <= k < |Join(d, fmt, found, vectors, book, near).core.accepted|
    ensures Join(d, fmt, found, vectors, book, near).core.heard == d.heard
    ensures var t := Join(d, fmt, found, vectors, book, near).core.accepted[k]; t.stem in found && t.format == fmt
  {
    hide KeptNow, StemsOf, Stumbles;
  }

  // ------------------------------------------------------------- one writing reply

  lemma {:induction false} NextFresh(items: seq<Item>, from: nat, room: nat)
    requires from <= |items|
    ensures from == |items| || room == 0 ==> Fresh(items[from..], room) == []
    ensures from < |items| && room > 0 ==>
      if items[from].fault.None? then Fresh(items[from..], room) == [items[from].stem] + Fresh(items[from + 1..], room - 1)
      else Fresh(items[from..], room) == Fresh(items[from + 1..], room)
  {
    if from < |items| { assert items[from..][1..] == items[from + 1..]; }
  }

  // From a place on, the sound items up to so many, in their order; reading stops when there are
  // enough, or at the end.
  lemma {:induction false} FreshIs(items: seq<Item>, from: nat, room: nat) returns (at: seq<nat>, end: nat)
    requires from <= |items|
    ensures |at| == |Fresh(items[from..], room)| <= room && from <= end <= |items| && (end == |items| || |at| == room)
    ensures (forall i, j :: 0 <= i < j < |at| ==> at[i] < at[j]) && forall k :: k in at <==> from <= k < end && items[k].fault.None?
    ensures forall i :: 0 <= i < |at| ==> from <= at[i] < |items| && items[at[i]].stem == Fresh(items[from..], room)[i]
    decreases |items| - from
  {
    hide Fresh;
    NextFresh(items, from, room);
    if from == |items| || room == 0 {
      at, end := [], from;
    } else if items[from].fault.None? {
      var rest;
      rest, end := FreshIs(items, from + 1, room - 1);
      at := [from] + rest;
    } else {
      at, end := FreshIs(items, from + 1, room);
    }
  }

  // The faults met are those of the items read that are not sound.
  lemma {:induction false} FaultsAre(items: seq<Item>, from: nat, room: nat) returns (bad: seq<nat>, end: nat)
    requires from <= |items|
    ensures from <= end <= |items| && (end == |items| || |Fresh(items[from..], room)| == room) && |bad| == |Faults(items[from..], room)|
    ensures (forall i, j :: 0 <= i < j < |bad| ==> bad[i] < bad[j]) && forall k :: k in bad <==> from <= k < end && items[k].fault.Some?
    ensures forall i :: 0 <= i < |bad| ==> from <= bad[i] < |items| && items[bad[i]].fault == Some(Faults(items[from..], room)[i])
    decreases |items| - from
  {
    hide Fresh;
    NextFresh(items, from, room);
    if from == |items| || room == 0 {
      bad, end := [], from;
    } else {
      assert items[from..][1..] == items[from + 1..];
      if items[from].fault.None? {
        bad, end := FaultsAre(items, from + 1, room - 1);
      } else {
        var rest;
        rest, end := FaultsAre(items, from + 1, room);
        bad := [from] + rest;
      }
    }
  }

  /** What a writing reply offers: of its first eight items, or three times as many as are wanted if
      that is more, the sound ones in their order, up to the number wanted. */
  lemma OfferedIs(turn: Turn, wanted: nat) returns (at: seq<nat>, end: nat)
    requires turn.Answered?
    ensures Picks(at, end, (k: nat) => k < |turn.items| && turn.items[k].fault.None?) && |at| == |Offered(turn, wanted)| <= wanted
    ensures end <= |turn.items| && (end <= 8 || end <= 3 * wanted)
    ensures |at| == wanted || end == |turn.items| || (end >= 8 && end >= 3 * wanted)
    ensures forall i :: 0 <= i < |at| ==> at[i] < |turn.items| && turn.items[at[i]].stem == Offered(turn, wanted)[i]
  {
    hide Fresh;
    var read := Inspected(turn.items, wanted);
    assert read[0..] == read;
    at, end := FreshIs(read, 0, wanted);
  }

  lemma WriteSources(plan: Plan, turns: Turns, c: Core, fmt: nat, wanted: nat)
    requires Shaped(plan, c) && fmt < |plan.shares|
    ensures Adds(plan, turns, c, Write(plan, turns, c, fmt, wanted), false)
  {
    hide Adds, Join, Fresh, WrittenIn, SettledIn;
    var turn := turns(|c.heard|);
    if Spent(plan, c) {
      AddsNothing(plan, turns, c, c, false);
    } else if turn.Dead? {
      AddsCall(plan, turns, c, Wrote(fmt, wanted), c.cursor, false);
    } else {
      var found := Offered(turn, wanted);
      forall s | s in found ensures WrittenIn(Wrote(fmt, wanted), turn, s) { OfferedIsWritten(turn, fmt, wanted, s); }
      JoinAdds(plan, turns, c, Wrote(fmt, wanted), Calling(c, Wrote(fmt, wanted)).(reached := c.reached[fmt := true]), fmt, found, turn, false);
    }
  }

  lemma OfferedIsWritten(turn: Turn, fmt: nat, wanted: nat, s: string)
    requires turn.Answered? && s in Offered(turn, wanted)
    ensures WrittenIn(Wrote(fmt, wanted), turn, s)
  {
    hide Offered;
    var at, end := OfferedIs(turn, wanted);
    var i :| 0 <= i < |at| && Offered(turn, wanted)[i] == s;
    assert at[i] in at;
    assert turn.items[at[i]] == Item(s, None);
  }

  lemma AddsCall(plan: Plan, turns: Turns, c: Core, call: Call, cursor: nat, book: bool)
    requires Printed(plan, call)
    ensures Adds(plan, turns, c, Going(Calling(c, call).(cursor := cursor)), book)
  {
    hide Printed;
  }

  /** What is asked of a batch: its usable questions in their order, up to the number wanted. */
  lemma {:induction false} UsableIs(questions: seq<BookQuestion>) returns (at: seq<nat>)
    ensures Picks(at, |questions|, (k: nat) => k < |questions| && questions[k].fault.None?) && |at| == |Usable(questions)|
    ensures forall i :: 0 <= i < |at| ==> at[i] < |questions| && questions[at[i]] == BookQuestion(Usable(questions)[i], None)
    ensures forall n: nat :: FirstOf(Usable(questions), n) <= Usable(questions) && (|FirstOf(Usable(questions), n)| == n || FirstOf(Usable(questions), n) == Usable(questions))
  {
    var keep := (k: nat) => k < |questions| && questions[k].fault.None?;
    if questions == [] {
      at := [];
    } else {
      var n := |questions| - 1;
      var before := UsableIs(questions[..n]);
      at := PicksNext(before, n, (k: nat) => k < n && questions[..n][k].fault.None?, keep);
    }
  }

  lemma AskedIsPrinted(plan: Plan, b: nat, fmt: nat, room: nat)
    requires b < |plan.printed|
    ensures Printed(plan, Harvested(fmt, FirstOf(Usable(plan.printed[b]), room)))
  {
    hide Usable;
    var at := UsableIs(plan.printed[b]);
    forall q | q in FirstOf(Usable(plan.printed[b]), room)
      ensures exists b, i :: 0 <= b < |plan.printed| && 0 <= i < |plan.printed[b]| && plan.printed[b][i] == BookQuestion(q, None)
    {
      var i :| 0 <= i < |at| && Usable(plan.printed[b])[i] == q;
      assert plan.printed[b][at[i]] == BookQuestion(q, None);
    }
  }

  lemma {:induction false} AnsweredIsSettled(turn: Turn, fmt: nat, asked: seq<string>, s: string)
    requires turn.Answered? && s in Answering(turn.answers, asked)
    ensures SettledIn(Harvested(fmt, asked), turn, s)
  {
    hide Answering, Settles;
    var at := AnsweringIs(turn.answers, asked);
    var i :| 0 <= i < |at| && Answering(turn.answers, asked)[i] == s;
    assert at[i] in at;
  }

  lemma TakeBookSources(plan: Plan, turns: Turns, c: Core, fmt: nat, wanted: nat)
    requires Shaped(plan, c) && fmt < |plan.shares| && c.cursor <= |plan.printed| && fmt == |c.heard| % |plan.shares|
    ensures Adds(plan, turns, c, TakeBook(plan, turns, c, fmt, wanted), true)
  {
    hide Adds, Join, Answering, Usable, FirstOf, Printed, SettledIn, WrittenIn, AnyMisfit;
    var n, turn := NextBatch(plan.printed, c.cursor), turns(|c.heard|);
    if n == |plan.printed| || c.left <= 0 {
      AddsNothing(plan, turns, c, TakeBook(plan, turns, c, fmt, wanted).core, true);
    } else {
      var asked := FirstOf(Usable(plan.printed[n]), wanted);
      AskedIsPrinted(plan, n, fmt, wanted);
      if turn.Dead? {
        AddsCall(plan, turns, c, Harvested(fmt, asked), n + 1, true);
      } else if AnyMisfit(turn.answers, |asked|) {
        Undone(plan, turns, c, TakeBook(plan, turns, c, fmt, wanted), true);
      } else {
        var found := Answering(turn.answers, asked);
        forall s | s in found ensures SettledIn(Harvested(fmt, asked), turn, s) { AnsweredIsSettled(turn, fmt, asked, s); }
        JoinAdds(plan, turns, c, Harvested(fmt, asked), Calling(c.(cursor := n + 1), Harvested(fmt, asked)), fmt, found, turn, true);
      }
    }
  }

  lemma Undone(plan: Plan, turns: Turns, c: Core, p: Progress, book: bool)
    requires p.Broken?
    ensures Adds(plan, turns, c, p, book)
  {
  }

  lemma BookAdds(plan: Plan, turns: Turns, limit: int)
    requires Sensible(plan)
    ensures Adds(plan, turns, Start(plan, limit), AfterBook(plan, turns, limit), true)
  {
    hide Adds, TakeBook, AfterBook;
    var start := Start(plan, limit);
    var inv := (d: Core) => Adds(plan, turns, start, Going(d), true);
    AddsNothing(plan, turns, start, start, true);
    forall c: Core | Asking(plan, c) && inv(c)
      ensures var p := TakeBook(plan, turns, c, |c.heard| % |plan.shares|, plan.share - |c.accepted|); p.Going? ==> inv(p.core)
    {
      var p := TakeBook(plan, turns, c, |c.heard| % |plan.shares|, plan.share - |c.accepted|);
      TakeBookSources(plan, turns, c, |c.heard| % |plan.shares|, plan.share - |c.accepted|);
      AddsOn(plan, turns, start, c, p, true);
    }
    BookKeeps(plan, turns, limit, inv);
    if AfterBook(plan, turns, limit).Broken? { Undone(plan, turns, start, AfterBook(plan, turns, limit), true); }
  }

  lemma WritingAdds(plan: Plan, turns: Turns, limit: int)
    requires Sensible(plan) && AfterBook(plan, turns, limit).Going?
    ensures Adds(plan, turns, AfterBook(plan, turns, limit).core, Run(plan, turns, limit), false)
  {
    hide Adds, Write, AfterBook, Run;
    var book := AfterBook(plan, turns, limit).core;
    var inv := (d: Core) => Adds(plan, turns, book, Going(d), false);
    AddsNothing(plan, turns, book, book, false);
    forall c: Core, fmt: nat, wanted: nat | Shaped(plan, c) && fmt < |plan.shares| && inv(c)
      ensures var p := Write(plan, turns, c, fmt, wanted); p.Going? ==> inv(p.core)
    {
      WriteSources(plan, turns, c, fmt, wanted);
      AddsOn(plan, turns, book, c, Write(plan, turns, c, fmt, wanted), false);
    }
    WritingKeeps(plan, turns, limit, inv);
    if Run(plan, turns, limit).Broken? { Undone(plan, turns, book, Run(plan, turns, limit), false); }
  }

  /** Every question of a run that is not broken has its reply, to a call for its format. What came from
      the book is the book's own question, fit to be asked, asked in a call the run made and settled by a
      sound answer to its own number, the calls taking the formats in turn; all the rest are sound items
      of writing calls. */
  lemma EveryQuestionHasItsReply(plan: Plan, turns: Turns, limit: int, k: nat)
    requires Sensible(plan) && Run(plan, turns, limit).Going? && k < |Run(plan, turns, limit).core.accepted|
    ensures AfterBook(plan, turns, limit).Going?
    ensures var d := Run(plan, turns, limit).core;
      && Sourced(plan, turns, d.heard, d.accepted[k], k < |AfterBook(plan, turns, limit).core.accepted|)
      && forall c :: 0 <= c < |d.heard| ==> Printed(plan, d.heard[c])
  {
    hide Harvest, Shares, Backfill, RetryOrder, Sourced, Printed;
    BookAdds(plan, turns, limit);
    WritingAdds(plan, turns, limit);
    var book, d := AfterBook(plan, turns, limit).core, Run(plan, turns, limit).core;
    if k < |book.accepted| {
      assert d.accepted[k] == book.accepted[k];
      SourcedOn(plan, turns, book.heard, d.heard, d.accepted[k], true);
    }
    assert forall c :: 0 <= c < |book.heard| ==> d.heard[c] == book.heard[c];
  }
}
