/** The drafting run: `generate_questions` in `services/assessments.py`, with `_StemDeduper`.
    The model and the embedder answer as they please: the outcome of the k-th call is
    `turns(k)`, whatever that is. A format is its place in the plan. */
module Generation {
  import opened Reals
  import opened Wrappers

  // What the embedder sends for one stem: a list of numbers, or something that is not one.
  datatype Vector = Numbers(values: seq<real>) | Unreadable

  // A parsed item of a reply, with what `validate_generated` says of it: a fault, or None.
  datatype Item = Item(stem: string, fault: Option<string>)

  // One answer of a harvesting reply: the number it claims to answer, whether the passages
  // settle it, whether its fields fit the reply contract, and the fault `validate_generated`
  // finds in one that does.
  datatype Settling = Settling(number: int, settled: bool, fits: bool, fault: Option<string>)

  // What one model call comes to. The embedder is asked about the stems that survive it.
  datatype Turn =
    | Dead(ms: nat)
    | Answered(ms: nat, items: seq<Item>, answers: seq<Settling>, embed: seq<string> -> Option<seq<Vector>>)

  // A question the book prints, with what `usable_book_question` says of it.
  datatype BookQuestion = BookQuestion(text: string, fault: Option<string>)

  datatype Taken = Taken(stem: string, format: nat)

  // ------------------------------------------------------------- near-duplicates

  // One flag a vector: true when it is near nothing kept before it.
  function Flags(kept: seq<Vector>, vectors: seq<Vector>, near: (Vector, Vector) -> bool): (r: seq<bool>)
    ensures |r| == |vectors|
  {
    if vectors == [] then []
    else
      var v := vectors[|vectors| - 1];
      var before := vectors[..|vectors| - 1];
      Flags(kept, before, near) + [Novel(KeptAfter(kept, before, near), v, near)]
  }

  predicate Novel(kept: seq<Vector>, v: Vector, near: (Vector, Vector) -> bool) {
    forall k :: 0 <= k < |kept| ==> !near(v, kept[k])
  }

  function KeptAfter(kept: seq<Vector>, vectors: seq<Vector>, near: (Vector, Vector) -> bool): seq<Vector> {
    if vectors == [] then kept
    else
      var v := vectors[|vectors| - 1];
      var before := KeptAfter(kept, vectors[..|vectors| - 1], near);
      if Novel(before, v, near) then before + [v] else before
  }

  predicate Uncomparable(v: Vector, w: Vector) { v.Unreadable? || w.Unreadable? }

  // Whether comparing a vector with those kept raises: it is compared with each in turn up to the
  // first it is near, and either of two that is not numbers raises.
  predicate Balks(kept: seq<Vector>, v: Vector, near: (Vector, Vector) -> bool) {
    exists j :: 0 <= j < |kept| && Uncomparable(v, kept[j]) && forall i :: 0 <= i < j ==> !near(v, kept[i])
  }

  // Whether some vector of a reply does, at its turn.
  predicate Stumbles(kept: seq<Vector>, vectors: seq<Vector>, near: (Vector, Vector) -> bool) {
    exists k :: 0 <= k < |vectors| && Balks(KeptAfter(kept, vectors[..k], near), vectors[k], near)
  }

  lemma {:induction false} StumblesNone(kept: seq<Vector>, near: (Vector, Vector) -> bool)
    ensures !Stumbles(kept, [], near) && KeptAfter(kept, [], near) == kept && Flags(kept, [], near) == []
  {
  }

  // One vector more of a reply.
  lemma {:induction false} StumblesNext(kept: seq<Vector>, all: seq<Vector>, k: nat, near: (Vector, Vector) -> bool)
    requires k < |all|
    ensures var now := KeptAfter(kept, all[..k], near);
      && (Stumbles(kept, all[..k + 1], near) <==> Stumbles(kept, all[..k], near) || Balks(now, all[k], near))
      && KeptAfter(kept, all[..k + 1], near) == (if Novel(now, all[k], near) then now + [all[k]] else now)
      && Flags(kept, all[..k + 1], near) == Flags(kept, all[..k], near) + [Novel(now, all[k], near)]
  {
    hide Stumbles, Balks, Novel;
    assert all[..k + 1][..k] == all[..k] && all[..k + 1][k] == all[k];
    StumblesUpTo(kept, all, k, near);
  }

  lemma {:induction false} StumblesUpTo(kept: seq<Vector>, all: seq<Vector>, k: nat, near: (Vector, Vector) -> bool)
    requires k < |all|
    ensures Stumbles(kept, all[..k + 1], near) <==> Stumbles(kept, all[..k], near) || Balks(KeptAfter(kept, all[..k], near), all[k], near)
  {
    hide Balks, KeptAfter;
    var less, more := all[..k], all[..k + 1];
    assert forall i :: 0 <= i < k ==> more[..i] == less[..i] && more[i] == less[i];
    assert more[..k] == less && more[k] == all[k];
  }

  lemma StumblesOn(kept: seq<Vector>, all: seq<Vector>, k: nat, near: (Vector, Vector) -> bool)
    requires k <= |all| && Stumbles(kept, all[..k], near)
    ensures Stumbles(kept, all, near)
  {
    hide Balks, KeptAfter;
    var i :| 0 <= i < k && Balks(KeptAfter(kept, all[..k][..i], near), all[..k][i], near);
    assert all[..k][..i] == all[..i] && all[..k][i] == all[i];
  }

  ghost predicate NoneNear(kept: seq<Vector>, near: (Vector, Vector) -> bool) {
    forall i, j :: 0 <= i < j < |kept| ==> !near(kept[j], kept[i])
  }

  /** No two stems kept are near one another, and each one dropped is near one kept earlier. */
  lemma {:induction false} KeptStemsDiffer(kept: seq<Vector>, vectors: seq<Vector>, near: (Vector, Vector) -> bool, k: nat)
    requires NoneNear(kept, near) && k < |vectors|
    ensures NoneNear(KeptAfter(kept, vectors, near), near) && kept <= KeptAfter(kept, vectors, near)
    ensures Flags(kept, vectors, near)[k] <==> Novel(KeptAfter(kept, vectors[..k], near), vectors[k], near)
    decreases |vectors|
  {
    hide Stumbles, Balks, Flags, KeptAfter;
    var last := |vectors| - 1;
    StumblesNext(kept, vectors, last, near);
    assert vectors[..last + 1] == vectors;
    if k < last {
      KeptStemsDiffer(kept, vectors[..last], near, k);
      assert vectors[..last][..k] == vectors[..k];
    } else if last > 0 {
      KeptStemsDiffer(kept, vectors[..last], near, last - 1);
    } else {
      assert vectors[..0] == [];
      StumblesNone(kept, near);
    }
  }

  // The flags `keep` answers with: all set when there is no embedder, and otherwise one for each
  // vector it sent, however many that is.
  function KeepFlags(kept: seq<Vector>, stems: seq<string>, vectors: Option<seq<Vector>>, near: (Vector, Vector) -> bool): seq<bool> {
    if stems == [] then []
    else if vectors.None? then seq(|stems|, _ => true)
    else Flags(kept, vectors.value, near)
  }

  function KeptNow(kept: seq<Vector>, stems: seq<string>, vectors: Option<seq<Vector>>, near: (Vector, Vector) -> bool): seq<Vector> {
    if stems == [] || vectors.None? then kept else KeptAfter(kept, vectors.value, near)
  }

  class StemDeduper {
    const near: (Vector, Vector) -> bool
    var kept: seq<Vector>

    constructor (near: (Vector, Vector) -> bool)
      ensures kept == [] && this.near == near
    {
      this.near, kept := near, [];
    }

    // Whether a vector is near none kept, unless finding out raises.
    method Compare(v: Vector) returns (novel: Option<bool>)
      ensures novel.None? <==> Balks(kept, v, near)
      ensures novel.Some? ==> novel.value == Novel(kept, v, near)
    {
      for j := 0 to |kept|
        invariant forall i :: 0 <= i < j ==> !near(v, kept[i])
        invariant forall i :: 0 <= i < j ==> !Uncomparable(v, kept[i])
      {
        if Uncomparable(v, kept[j]) {
          return None;
        }
        if near(v, kept[j]) {
          return Some(false);
        }
      }
      novel := Some(true);
    }

    // `keep`: the flags, unless a comparison raises.
    method Keep(stems: seq<string>, vectors: Option<seq<Vector>>) returns (flags: Option<seq<bool>>)
      modifies this
      ensures flags.None? <==> stems != [] && vectors.Some? && Stumbles(old(kept), vectors.value, near)
      ensures flags.Some? ==> flags.value == KeepFlags(old(kept), stems, vectors, near)
      ensures flags.Some? ==> kept == KeptNow(old(kept), stems, vectors, near)
    {
      if stems == [] {
        return Some([]);
      }
      if vectors.None? {
        return Some(seq(|stems|, _ => true));
      }
      hide Novel, Balks, Stumbles, Flags, KeptAfter;
      ghost var start := kept;
      var all, made := vectors.value, [];
      StumblesNone(start, near);
      for k := 0 to |all|
        invariant made == Flags(start, all[..k], near) && kept == KeptAfter(start, all[..k], near)
        invariant !Stumbles(start, all[..k], near)
      {
        StumblesNext(start, all, k, near);
        var novel := Compare(all[k]);
        if novel.None? {
          StumblesOn(start, all, k + 1, near);
          return None;
        }
        if novel.value {
          kept := kept + [all[k]];
        }
        made := made + [novel.value];
      }
      assert all[..|all|] == all;
      flags := Some(made);
    }
  }

  // --------------------------------------------------------- reading one reply

  // The sound items, until there are enough of them.
  function Fresh(items: seq<Item>, room: nat): (r: seq<string>)
    ensures |r| <= room && |r| <= |items|
  {
    if items == [] || room == 0 then []
    else if items[0].fault.None? then [items[0].stem] + Fresh(items[1..], room - 1)
    else Fresh(items[1..], room)
  }

  // The faults met on the way.
  function Faults(items: seq<Item>, room: nat): seq<string> {
    if items == [] || room == 0 then []
    else if items[0].fault.None? then Faults(items[1..], room - 1)
    else [items[0].fault.value] + Faults(items[1..], room)
  }

  // A runaway reply is not read to its end.
  function Inspected(items: seq<Item>, wanted: nat): seq<Item> {
    var most := if wanted * 3 > 8 then wanted * 3 else 8;
    if |items| <= most then items else items[..most]
  }

  // The stems a reply can put on the paper.
  function Offered(turn: Turn, wanted: nat): seq<string> {
    if turn.Dead? then [] else Fresh(Inspected(turn.items, wanted), wanted)
  }

  // The texts of the questions fit to be asked.
  function Usable(questions: seq<BookQuestion>): (r: seq<string>)
    ensures |r| <= |questions|
  {
    if questions == [] then []
    else
      var last := |questions| - 1;
      Usable(questions[..last]) + (if questions[last].fault.None? then [questions[last].text] else [])
  }

  predicate Asked(a: Settling, count: nat) { 1 <= a.number <= count }

  predicate Stands(a: Settling, count: nat) { Asked(a, count) && a.settled && a.fits && a.fault.None? }

  // An answer that is read into the reply contract and does not fit: the whole run ends there.
  predicate Misfit(a: Settling, count: nat) { Asked(a, count) && a.settled && !a.fits }

  predicate AnyMisfit(answers: seq<Settling>, count: nat) { exists k :: 0 <= k < |answers| && Misfit(answers[k], count) }

  // The embedder sent another number of vectors than it was asked for.
  predicate Miscounted(stems: seq<string>, vectors: Option<seq<Vector>>) {
    stems != [] && vectors.Some? && |vectors.value| != |stems|
  }

  // The reply to the stems ends the run: another number of vectors, or one that cannot be compared.
  predicate Raises(kept: seq<Vector>, stems: seq<string>, vectors: Option<seq<Vector>>, near: (Vector, Vector) -> bool) {
    Miscounted(stems, vectors) || (stems != [] && vectors.Some? && Stumbles(kept, vectors.value, near))
  }

  // The book's own words for each answer that stands.
  function Answering(answers: seq<Settling>, asked: seq<string>): (r: seq<string>)
    ensures |r| <= |answers|
    ensures forall k :: 0 <= k < |r| ==> r[k] in asked
  {
    if answers == [] then []
    else
      var last := |answers| - 1;
      Answering(answers[..last], asked)
        + (if Stands(answers[last], |asked|) then [asked[answers[last].number - 1]] else [])
  }

  function FirstOf(stems: seq<string>, n: nat): (r: seq<string>)
    ensures |r| <= n && |r| <= |stems|
  {
    if |stems| <= n then stems else stems[..n]
  }

  ghost predicate NumbersOnce(answers: seq<Settling>) {
    forall i, j :: 0 <= i < j < |answers| ==> answers[i].number != answers[j].number
  }

  // The numbers of the answers that stand.
  ghost function Standing(answers: seq<Settling>, count: nat): (r: set<int>)
    ensures forall x :: x in r ==> 1 <= x <= count
  {
    if answers == [] then {}
    else
      var last := |answers| - 1;
      Standing(answers[..last], count) + (if Stands(answers[last], count) then {answers[last].number} else {})
  }

  lemma {:induction false} StandingIsGiven(answers: seq<Settling>, count: nat, x: int)
    requires x in Standing(answers, count)
    ensures exists k :: 0 <= k < |answers| && answers[k].number == x
  {
    var last := |answers| - 1;
    if x in Standing(answers[..last], count) {
      StandingIsGiven(answers[..last], count, x);
      var k :| 0 <= k < last && answers[..last][k].number == x;
      assert answers[k].number == x;
    } else {
      assert answers[last].number == x;
    }
  }

  lemma {:induction false} EachStandsAlone(answers: seq<Settling>, asked: seq<string>)
    requires NumbersOnce(answers)
    ensures |Answering(answers, asked)| == |Standing(answers, |asked|)|
  {
    if answers != [] {
      var last := |answers| - 1;
      EachStandsAlone(answers[..last], asked);
      if answers[last].number in Standing(answers[..last], |asked|) {
        StandingIsGiven(answers[..last], |asked|, answers[last].number);
      }
    }
  }

  lemma BoundedNumbers(numbers: set<int>, bound: nat)
    requires forall x :: x in numbers ==> 1 <= x <= bound
    ensures |numbers| <= bound
  {
    if bound == 0 {
      assert forall x :: x !in numbers;
    } else {
      BoundedNumbers(numbers - {bound}, bound - 1);
      assert numbers <= (numbers - {bound}) + {bound};
    }
  }

  /** A harvesting reply that answers no number twice yields no more than was asked. */
  lemma {:induction false} HarvestNeverOverruns(answers: seq<Settling>, asked: seq<string>)
    requires NumbersOnce(answers)
    ensures |Answering(answers, asked)| <= |asked|
  {
    EachStandsAlone(answers, asked);
    BoundedNumbers(Standing(answers, |asked|), |asked|);
  }

  // How many answers stand.
  function StandingCount(answers: seq<Settling>, count: nat): nat {
    if answers == [] then 0
    else StandingCount(answers[..|answers| - 1], count) + (if Stands(answers[|answers| - 1], count) then 1 else 0)
  }

  lemma {:induction false} AnsweringCount(answers: seq<Settling>, asked: seq<string>)
    ensures |Answering(answers, asked)| == StandingCount(answers, |asked|)
  {
    if answers != [] { AnsweringCount(answers[..|answers| - 1], asked); }
  }

  // ------------------------------------------------------------------ the plan

  datatype Preference = Never | Only | Prefer | Auto

  lemma PartFits(target: nat, share: real)
    requires 0.0 <= share <= 1.0
    ensures 0 <= (target as real * share).Floor <= target
  {
    Signs(target as real, share);
    Signs(target as real, 1.0 - share);
    assert target as real * (1.0 - share) == target as real - target as real * share;
  }

  // `_harvest_target`, with the share as configured.
  function HarvestTarget(preference: Preference, target: nat, available: nat, share: real): (r: nat)
    ensures r <= target && r <= available
    ensures preference.Never? ==> r == 0
    ensures preference.Only? || preference.Prefer? ==> r == target || r == available
    ensures preference.Auto? && share >= 1.0 ==> r == target || r == available
    ensures preference.Auto? && share <= 0.0 ==> r == 0
    ensures preference.Auto? && 0.0 <= share <= 1.0 && r < available ==> r as real <= target as real * share < r as real + 1.0
  {
    if available == 0 || preference.Never? then 0
    else if preference.Only? || preference.Prefer? then if target <= available then target else available
    else
      var bounded := if share < 0.0 then 0.0 else if share > 1.0 then 1.0 else share;
      PartFits(target, bounded);
      var part := (target as real * bounded).Floor;
      if part <= available then part else available
  }

  function Total(counts: seq<nat>): nat {
    if counts == [] then 0 else Total(counts[..|counts| - 1]) + counts[|counts| - 1]
  }

  lemma {:induction false} TotalUpdate(counts: seq<nat>, k: nat, v: nat)
    requires k < |counts|
    ensures Total(counts[k := v]) == Total(counts) - counts[k] + v
  {
    var n := |counts| - 1;
    if k == n {
      assert counts[k := v][..n] == counts[..n];
    } else {
      TotalUpdate(counts[..n], k, v);
      assert counts[k := v][..n] == counts[..n][k := v];
    }
  }

  lemma {:induction false} TotalZero(counts: seq<nat>)
    requires forall k :: 0 <= k < |counts| ==> counts[k] == 0
    ensures Total(counts) == 0
  {
    if counts != [] { TotalZero(counts[..|counts| - 1]); }
  }

  lemma TotalGrows(counts: seq<nat>, k: nat)
    requires k < |counts|
    ensures Total(counts[..k + 1]) == Total(counts[..k]) + counts[k]
  {
    assert counts[..k + 1][..k] == counts[..k];
  }
}
