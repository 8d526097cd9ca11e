/** The score that orders the review queue: `compute_integrity_score` in
    `services/proctoring.py`, over exact arithmetic. */
module Integrity {
  import opened Reals
  import opened Wrappers

  datatype Kind =
    SessionStart | SessionEnd | HeartbeatGap | NoFace | MultipleFaces | FaceMismatch | GazeAway | HeadPoseAway
    | PhoneVisible | TabBlur | WindowBlur | FullscreenExit | Copy | Paste | ContextMenu | CameraDenied
    | CameraStopped | ClockSkew | ScreenShareDenied | ScreenShareStopped | MultipleDisplays

  datatype Event = Event(kind: Kind, occurrences: nat, durationMs: Option<nat>, dismissed: bool)

  // A length of sitting; what is not positive is treated as not known.
  type Sitting = Option<real>

  const PER_EVENT_CAP: real := 70.0
  const FULL_SITTING_SCALE: real := 10.0

  // Points an occurrence, and a minute.
  function Weights(kind: Kind): (w: (real, real))
    ensures w.0 >= 0.0 && w.1 >= 0.0
  {
    match kind
    case SessionStart => (0.0, 0.0)
    case SessionEnd => (0.0, 0.0)
    case HeartbeatGap => (6.0, 4.0)
    case NoFace => (3.0, 6.0)
    case MultipleFaces => (12.0, 10.0)
    case FaceMismatch => (15.0, 0.0)
    case GazeAway => (0.5, 1.0)
    case HeadPoseAway => (0.5, 1.0)
    case PhoneVisible => (4.0, 4.0)
    case TabBlur => (3.0, 4.0)
    case WindowBlur => (2.0, 3.0)
    case FullscreenExit => (2.0, 0.0)
    case Copy => (1.0, 0.0)
    case Paste => (3.0, 0.0)
    case ContextMenu => (0.5, 0.0)
    case CameraDenied => (20.0, 0.0)
    case CameraStopped => (12.0, 0.0)
    case ClockSkew => (1.0, 0.0)
    case ScreenShareDenied => (15.0, 0.0)
    case ScreenShareStopped => (10.0, 0.0)
    case MultipleDisplays => (6.0, 4.0)
  }

  function Min(a: real, b: real): real { if b < a then b else a }

  function Duration(e: Event): nat { if e.durationMs.Some? then e.durationMs.value else 0 }

  // How much of the sitting a duration is, at most all of it; in minutes when the length of
  // the sitting is not known.
  function Held(durationMs: nat, sitting: Sitting): real {
    if sitting.Some? && sitting.value > 0.0 then Min(1.0, durationMs as real / 1000.0 / sitting.value) * FULL_SITTING_SCALE
    else durationMs as real / 60000.0
  }

  function Contribution(e: Event, sitting: Sitting): real {
    Min(Points(Weights(e.kind), e.occurrences as real, Held(Duration(e), sitting)), PER_EVENT_CAP)
  }

  function Points(w: (real, real), occurrences: real, held: real): real { w.0 * occurrences + w.1 * held }

  // What an event costs; a dismissed one nothing, when dismissals count.
  function Cost(e: Event, includeDismissed: bool, sitting: Sitting): real {
    if !includeDismissed && e.dismissed then 0.0 else Contribution(e, sitting)
  }

  function Penalty(events: seq<Event>, includeDismissed: bool, sitting: Sitting): real {
    if events == [] then 0.0
    else Penalty(events[..|events| - 1], includeDismissed, sitting) + Cost(events[|events| - 1], includeDismissed, sitting)
  }

  function Score(events: seq<Event>, includeDismissed: bool, sitting: Sitting): (s: int)
    ensures 0 <= s <= 100
  {
    var rounded := Round(100.0 - Penalty(events, includeDismissed, sitting));
    var low := if rounded < 100 then rounded else 100;
    if low > 0 then low else 0
  }

  method ComputeIntegrityScore(events: seq<Event>, includeDismissed: bool, sitting: Sitting) returns (score: int)
    ensures score == Score(events, includeDismissed, sitting) && 0 <= score <= 100
  {
    hide Contribution, Round;
    var penalty: real := 0.0;
    for n := 0 to |events|
      invariant penalty == Penalty(events[..n], includeDismissed, sitting)
    {
      assert events[..n + 1][..n] == events[..n];
      if !includeDismissed && events[n].dismissed { continue; }
      var contribution := ContributionOf(events[n], sitting);
      penalty := penalty + contribution;
    }
    assert events[..|events|] == events;
    var rounded := Round(100.0 - penalty);
    score := if rounded < 100 then rounded else 100;
    score := if score > 0 then score else 0;
  }

  lemma HeldIs(durationMs: nat, sitting: Sitting)
    ensures sitting.Some? && sitting.value > 0.0 ==> Held(durationMs, sitting) == Min(1.0, durationMs as real / 1000.0 / sitting.value) * FULL_SITTING_SCALE
    ensures !(sitting.Some? && sitting.value > 0.0) ==> Held(durationMs, sitting) == durationMs as real / 60000.0
  {
  }

  method ContributionOf(event: Event, sitting: Sitting) returns (contribution: real)
    ensures contribution == Contribution(event, sitting)
  {
    hide Weights, Duration, Held;
    var perOccurrence, perMinute := Weights(event.kind).0, Weights(event.kind).1;
    var durationMs := Duration(event);
    var durationPenalty: real;
    if sitting.Some? && sitting.value > 0.0 && durationMs != 0 {
      var share := Min(1.0, durationMs as real / 1000.0 / sitting.value);
      durationPenalty := perMinute * share * FULL_SITTING_SCALE;
      Regroup(perMinute, share, FULL_SITTING_SCALE);
      HeldIs(durationMs, sitting);
    } else {
      durationPenalty := perMinute * (durationMs as real / 60000.0);
      HeldIs(durationMs, sitting);
      if durationMs == 0 { NothingHeld(perMinute, sitting); }
    }
    contribution := Min(perOccurrence * event.occurrences as real + durationPenalty, PER_EVENT_CAP);
  }

  lemma Regroup(a: real, b: real, c: real)
    ensures a * b * c == a * (b * c)
  {
  }

  lemma NothingHeld(perMinute: real, sitting: Sitting)
    ensures Held(0, sitting) == 0.0 && perMinute * Held(0, sitting) == 0.0
  {
    if sitting.Some? && sitting.value > 0.0 { Quotients(0.0, 0.0, sitting.value); }
  }

  lemma Quotients(a: real, b: real, c: real)
    requires c > 0.0
    ensures (a + b) / c == a / c + b / c && 0.0 / c == 0.0
    ensures a >= 0.0 ==> a / c >= 0.0
    ensures a >= c ==> a / c >= 1.0
  {
    assert (a / c) * c == a;
  }

  // --------------------------------------------------------------- one event's cost

  lemma HeldPositive(durationMs: nat, sitting: Sitting)
    ensures Held(durationMs, sitting) >= 0.0
  {
    if sitting.Some? && sitting.value > 0.0 { Quotients(durationMs as real / 1000.0, 0.0, sitting.value); }
  }

  lemma PointsPositive(w: (real, real), occurrences: real, held: real)
    requires w.0 >= 0.0 && w.1 >= 0.0 && occurrences >= 0.0 && held >= 0.0
    ensures Points(w, occurrences, held) >= 0.0
  {
    Signs(w.0, occurrences);
    Signs(w.1, held);
  }

  lemma CostBounds(e: Event, includeDismissed: bool, sitting: Sitting)
    ensures 0.0 <= Cost(e, includeDismissed, sitting) <= PER_EVENT_CAP
    ensures Held(Duration(e), sitting) >= 0.0
  {
    hide Weights, Held, Points;
    HeldPositive(Duration(e), sitting);
    PointsPositive(Weights(e.kind), e.occurrences as real, Held(Duration(e), sitting));
  }

  // A heavier penalty never scores more.
  lemma {:induction false} LessPenaltyScoresMore(a: seq<Event>, b: seq<Event>, ia: bool, ib: bool, sa: Sitting, sb: Sitting)
    requires Penalty(a, ia, sa) <= Penalty(b, ib, sb)
    ensures Score(a, ia, sa) >= Score(b, ib, sb)
  {
    hide Penalty, Round;
    RoundGrows(100.0 - Penalty(b, ib, sb), 100.0 - Penalty(a, ia, sa));
  }

  lemma {:induction false} PenaltyOne(e: Event, includeDismissed: bool, sitting: Sitting)
    ensures Penalty([e], includeDismissed, sitting) == Cost(e, includeDismissed, sitting)
  {
    assert [e][..0] == [];
  }

  lemma {:induction false} PenaltyAdds(a: seq<Event>, b: seq<Event>, includeDismissed: bool, sitting: Sitting)
    ensures Penalty(a + b, includeDismissed, sitting) == Penalty(a, includeDismissed, sitting) + Penalty(b, includeDismissed, sitting)
  {
    hide Cost;
    if b == [] {
      assert a + b == a;
    } else {
      var rest := b[..|b| - 1];
      PenaltyAdds(a, rest, includeDismissed, sitting);
      assert (a + b)[..|a + b| - 1] == a + rest;
    }
  }

  lemma {:induction false} PenaltyPositive(events: seq<Event>, includeDismissed: bool, sitting: Sitting)
    ensures 0.0 <= Penalty(events, includeDismissed, sitting) <= |events| as real * PER_EVENT_CAP
  {
    hide Cost;
    if events != [] {
      PenaltyPositive(events[..|events| - 1], includeDismissed, sitting);
      CostBounds(events[|events| - 1], includeDismissed, sitting);
    }
  }

  // ---------------------------------------------------------------------- the laws

  /** One event alone never takes the score below 30, and n never below 100 - 70n. */
  lemma NoEventSinksTheScore(events: seq<Event>, includeDismissed: bool, sitting: Sitting)
    ensures Score(events, includeDismissed, sitting) >= 100 - 70 * |events|
  {
    hide Penalty, Cost;
    PenaltyPositive(events, includeDismissed, sitting);
    RoundGrows((100 - 70 * |events|) as real, 100.0 - Penalty(events, includeDismissed, sitting));
  }

  /** One more observation, wherever it falls in the timeline, never raises the score. */
  lemma MoreEventsScoreLess(a: seq<Event>, e: Event, b: seq<Event>, includeDismissed: bool, sitting: Sitting)
    ensures Score(a + [e] + b, includeDismissed, sitting) <= Score(a + b, includeDismissed, sitting)
  {
    hide Penalty, Cost, Score;
    PenaltyAdds(a + [e], b, includeDismissed, sitting);
    PenaltyAdds(a, [e], includeDismissed, sitting);
    PenaltyAdds(a, b, includeDismissed, sitting);
    PenaltyOne(e, includeDismissed, sitting);
    CostBounds(e, includeDismissed, sitting);
    LessPenaltyScoresMore(a + b, a + [e] + b, includeDismissed, includeDismissed, sitting, sitting);
  }

  lemma Without(events: seq<Event>, k: nat)
    requires k < |events|
    ensures multiset(events[..k] + events[k + 1..]) == multiset(events) - multiset{events[k]}
  {
    assert events == events[..k] + [events[k]] + events[k + 1..];
  }

  // One event's part of the penalty, wherever it stands.
  lemma {:induction false} PenaltyAt(b: seq<Event>, k: nat, includeDismissed: bool, sitting: Sitting)
    requires k < |b|
    ensures Penalty(b, includeDismissed, sitting)
         == Penalty(b[..k] + b[k + 1..], includeDismissed, sitting) + Penalty([b[k]], includeDismissed, sitting)
  {
    hide Penalty;
    assert b == b[..k] + [b[k]] + b[k + 1..];
    PenaltyAdds(b[..k] + [b[k]], b[k + 1..], includeDismissed, sitting);
    PenaltyAdds(b[..k], [b[k]], includeDismissed, sitting);
    PenaltyAdds(b[..k], b[k + 1..], includeDismissed, sitting);
  }

  // A list with one of the events it holds taken out.
  lemma LessOne(b: seq<Event>, x: Event, includeDismissed: bool, sitting: Sitting) returns (less: seq<Event>)
    requires x in multiset(b)
    ensures multiset(less) == multiset(b) - multiset{x}
    ensures Penalty(b, includeDismissed, sitting) == Penalty(less, includeDismissed, sitting) + Penalty([x], includeDismissed, sitting)
  {
    hide Penalty;
    var k :| 0 <= k < |b| && b[k] == x;
    less := b[..k] + b[k + 1..];
    Without(b, k);
    PenaltyAt(b, k, includeDismissed, sitting);
  }

  lemma {:induction false} OrderDoesNotMatter(a: seq<Event>, b: seq<Event>, includeDismissed: bool, sitting: Sitting)
    requires multiset(a) == multiset(b)
    ensures Penalty(a, includeDismissed, sitting) == Penalty(b, includeDismissed, sitting)
    decreases |a|
  {
    hide Penalty;
    if a == [] {
      assert |multiset(b)| == 0;
    } else {
      var rest, last := a[..|a| - 1], a[|a| - 1];
      assert a == rest + [last];
      var less := LessOne(b, last, includeDismissed, sitting);
      OrderDoesNotMatter(rest, less, includeDismissed, sitting);
      PenaltyAdds(rest, [last], includeDismissed, sitting);
    }
  }

  /** The score does not depend on the order the events are read in. */
  lemma ScoreIgnoresOrder(a: seq<Event>, b: seq<Event>, includeDismissed: bool, sitting: Sitting)
    requires multiset(a) == multiset(b)
    ensures Score(a, includeDismissed, sitting) == Score(b, includeDismissed, sitting)
  {
    OrderDoesNotMatter(a, b, includeDismissed, sitting);
  }

  lemma Replaced(events: seq<Event>, k: nat, e: Event, includeDismissed: bool, sitting: Sitting)
    requires k < |events|
    ensures Penalty(events[k := e], includeDismissed, sitting)
         == Penalty(events, includeDismissed, sitting) - Cost(events[k], includeDismissed, sitting) + Cost(e, includeDismissed, sitting)
  {
    hide Cost, Penalty;
    var a, b := events[..k], events[k + 1..];
    assert events == a + [events[k]] + b && events[k := e] == a + [e] + b;
    PenaltyAdds(a + [e], b, includeDismissed, sitting);
    PenaltyAdds(a, [e], includeDismissed, sitting);
    PenaltyAdds(a + [events[k]], b, includeDismissed, sitting);
    PenaltyAdds(a, [events[k]], includeDismissed, sitting);
    PenaltyOne(e, includeDismissed, sitting);
    PenaltyOne(events[k], includeDismissed, sitting);
  }

  // One event replaced by one that costs no more.
  lemma CheaperScoresMore(events: seq<Event>, k: nat, e: Event, includeDismissed: bool, sitting: Sitting)
    requires k < |events| && Cost(e, includeDismissed, sitting) <= Cost(events[k], includeDismissed, sitting)
    ensures Score(events[k := e], includeDismissed, sitting) >= Score(events, includeDismissed, sitting)
  {
    hide Penalty, Score, Cost;
    Replaced(events, k, e, includeDismissed, sitting);
    LessPenaltyScoresMore(events[k := e], events, includeDismissed, includeDismissed, sitting, sitting);
  }

  lemma DismissedCost(e: Event, sitting: Sitting)
    ensures Cost(e.(dismissed := true), false, sitting) == 0.0 <= Cost(e, false, sitting)
    ensures Cost(e.(dismissed := true), true, sitting) == Cost(e, true, sitting)
  {
    CostBounds(e, false, sitting);
    hide Weights, Held;
  }

  /** An author dismissing an event never lowers the score, and leaves the one that counts
      dismissed events as it was. */
  lemma DismissingHelps(events: seq<Event>, k: nat, sitting: Sitting)
    requires k < |events|
    ensures Score(events[k := events[k].(dismissed := true)], false, sitting) >= Score(events, false, sitting)
    ensures Score(events[k := events[k].(dismissed := true)], true, sitting) == Score(events, true, sitting)
  {
    hide Penalty, Score, Cost;
    var e := events[k].(dismissed := true);
    DismissedCost(events[k], sitting);
    CheaperScoresMore(events, k, e, false, sitting);
    CheaperScoresMore(events, k, e, true, sitting);
    var changed := events[k := e];
    assert changed[k := events[k]] == events;
    CheaperScoresMore(changed, k, events[k], true, sitting);
  }

  /** A released score, without the dismissed events, is never under the stored one. */
  lemma {:induction false} ReleasedIsKinder(events: seq<Event>, sitting: Sitting)
    ensures Penalty(events, false, sitting) <= Penalty(events, true, sitting)
    ensures Score(events, false, sitting) >= Score(events, true, sitting)
  {
    hide Contribution, Score;
    if events != [] {
      ReleasedIsKinder(events[..|events| - 1], sitting);
      CostBounds(events[|events| - 1], true, sitting);
    }
    LessPenaltyScoresMore(events, events, false, true, sitting, sitting);
  }

  // The event with its duration made k times as long.
  function Stretched(e: Event, k: nat): Event {
    if e.durationMs.Some? then e.(durationMs := Some(e.durationMs.value * k)) else e
  }

  lemma ShareStretched(d: nat, k: nat, s: real)
    requires k > 0 && s > 0.0
    ensures k as real * s > 0.0
    ensures (d * k) as real / 1000.0 / (k as real * s) == d as real / 1000.0 / s
  {
    var x, r := d as real / 1000.0, k as real;
    Signs(r, s);
    CastProduct(d, k);
    Rearranged(x / s, r, s);
    Divided(x, s, x / s);
    calc {
      (d * k) as real / 1000.0 / (r * s);
      { assert (d * k) as real / 1000.0 == x * r; }
      x * r / (r * s);
      { Divided(x * r, r * s, x / s); }
      x / s;
    }
  }

  lemma CastProduct(d: nat, k: nat)
    ensures (d * k) as real == d as real * k as real
    ensures (d * k) as real / 1000.0 == d as real / 1000.0 * k as real
  {
  }

  lemma Rearranged(y: real, r: real, s: real)
    ensures y * (r * s) == (y * s) * r
  {
  }

  lemma Divided(p: real, q: real, r: real)
    requires q != 0.0 && r * q == p
    ensures p / q == r
  {
  }

  lemma CostStretched(e: Event, k: nat, includeDismissed: bool, s: real)
    requires k > 0 && s > 0.0
    ensures k as real * s > 0.0
    ensures Cost(Stretched(e, k), includeDismissed, Some(k as real * s)) == Cost(e, includeDismissed, Some(s))
  {
    hide Weights;
    ShareStretched(Duration(e), k, s);
    assert Duration(Stretched(e, k)) == Duration(e) * k;
  }

  // Two events alike but for their durations, which are as n to m.
  predicate InProportion(a: Event, b: Event, m: nat, n: nat) {
    a.kind == b.kind && a.occurrences == b.occurrences && a.dismissed == b.dismissed && Duration(a) * m == Duration(b) * n
  }

  lemma CostInProportion(a: Event, b: Event, m: nat, n: nat, includeDismissed: bool, s: real, t: real)
    requires m > 0 && n > 0 && s > 0.0 && t > 0.0 && m as real * s == n as real * t && InProportion(a, b, m, n)
    ensures Cost(a, includeDismissed, Some(s)) == Cost(b, includeDismissed, Some(t))
  {
    hide Weights;
    CostStretched(a, m, includeDismissed, s);
    CostStretched(b, n, includeDismissed, t);
    assert Duration(Stretched(a, m)) == Duration(a) * m == Duration(b) * n == Duration(Stretched(b, n));
    SameDurationCostsSame(Stretched(a, m), Stretched(b, n), includeDismissed, Some(m as real * s));
  }

  lemma SameDurationCostsSame(a: Event, b: Event, includeDismissed: bool, sitting: Sitting)
    requires InProportion(a, b, 1, 1)
    ensures Cost(a, includeDismissed, sitting) == Cost(b, includeDismissed, sitting)
  {
  }

  /** Durations are scored as a share: two sittings whose lengths are as n to m, and so are the
      durations of their events, score the same. */
  lemma {:induction false} OnlySharesCount(a: seq<Event>, b: seq<Event>, m: nat, n: nat, includeDismissed: bool, s: real, t: real)
    requires m > 0 && n > 0 && s > 0.0 && t > 0.0 && m as real * s == n as real * t
    requires |a| == |b| && forall k :: 0 <= k < |a| ==> InProportion(a[k], b[k], m, n)
    ensures Penalty(a, includeDismissed, Some(s)) == Penalty(b, includeDismissed, Some(t))
    ensures Score(a, includeDismissed, Some(s)) == Score(b, includeDismissed, Some(t))
  {
    hide Cost, InProportion;
    if a != [] {
      var l := |a| - 1;
      OnlySharesCount(a[..l], b[..l], m, n, includeDismissed, s, t);
      CostInProportion(a[l], b[l], m, n, includeDismissed, s, t);
    }
  }

  // Two observations of one kind told as one.
  function Merged(a: Event, b: Event): Event { Event(a.kind, a.occurrences + b.occurrences, Some(Duration(a) + Duration(b)), a.dismissed) }

  lemma HeldTogether(a: nat, b: nat, sitting: Sitting)
    ensures Held(a + b, sitting) <= Held(a, sitting) + Held(b, sitting)
  {
    if sitting.Some? && sitting.value > 0.0 {
      var x, y := a as real / 1000.0, b as real / 1000.0;
      Quotients(x, y, sitting.value);
      Quotients(y, x, sitting.value);
    }
  }

  lemma Scaled(w: real, x: real, y: real)
    requires w >= 0.0 && x <= y
    ensures w * x <= w * y
  {
    Signs(w, y - x);
  }

  lemma PointsAdd(w: (real, real), m: real, n: real, x: real, y: real, z: real)
    requires w.0 >= 0.0 && w.1 >= 0.0 && m >= 0.0 && n >= 0.0 && x >= 0.0 && y >= 0.0 && z <= x + y
    ensures Points(w, m, x) >= 0.0 && Points(w, n, y) >= 0.0
    ensures Points(w, m + n, z) <= Points(w, m, x) + Points(w, n, y)
  {
    Scaled(w.1, z, x + y);
    PointsPositive(w, m, x);
    PointsPositive(w, n, y);
    assert w.1 * (x + y) == w.1 * x + w.1 * y && w.0 * (m + n) == w.0 * m + w.0 * n;
  }

  lemma MergedContribution(a: Event, b: Event, sitting: Sitting)
    requires a.kind == b.kind
    ensures Contribution(Merged(a, b), sitting) <= Contribution(a, sitting) + Contribution(b, sitting)
  {
    hide Weights, Held, Points;
    var w := Weights(a.kind);
    var m, n := a.occurrences as real, b.occurrences as real;
    var x, y, z := Held(Duration(a), sitting), Held(Duration(b), sitting), Held(Duration(a) + Duration(b), sitting);
    HeldTogether(Duration(a), Duration(b), sitting);
    CostBounds(a, true, sitting);
    CostBounds(b, true, sitting);
    PointsAdd(w, m, n, x, y, z);
    assert Duration(Merged(a, b)) == Duration(a) + Duration(b) && Merged(a, b).occurrences as real == m + n;
  }

  lemma MergedCost(a: Event, b: Event, includeDismissed: bool, sitting: Sitting)
    requires a.kind == b.kind && a.dismissed == b.dismissed
    ensures Cost(Merged(a, b), includeDismissed, sitting) <= Cost(a, includeDismissed, sitting) + Cost(b, includeDismissed, sitting)
  {
    hide Contribution;
    MergedContribution(a, b, sitting);
  }

  /** Reporting two observations of one kind as one, occurrences and durations added, never
      lowers the score. */
  lemma MergingHelps(events: seq<Event>, a: Event, b: Event, includeDismissed: bool, sitting: Sitting)
    requires a.kind == b.kind && a.dismissed == b.dismissed
    ensures Score(events + [Merged(a, b)], includeDismissed, sitting) >= Score(events + [a, b], includeDismissed, sitting)
  {
    hide Cost, Penalty, Score;
    MergedCost(a, b, includeDismissed, sitting);
    PenaltyOne(Merged(a, b), includeDismissed, sitting);
    PenaltyOne(a, includeDismissed, sitting);
    PenaltyOne(b, includeDismissed, sitting);
    assert [a, b] == [a] + [b];
    PenaltyAdds([a], [b], includeDismissed, sitting);
    PenaltyAdds(events, [a, b], includeDismissed, sitting);
    PenaltyAdds(events, [Merged(a, b)], includeDismissed, sitting);
    LessPenaltyScoresMore(events + [Merged(a, b)], events + [a, b], includeDismissed, includeDismissed, sitting, sitting);
  }

  /** A camera that sees nobody for the whole of a sitting, however short, fails it. */
  lemma AbsentThroughout(e: Event, s: real)
    requires e.kind == NoFace && e.occurrences >= 1 && s > 0.0 && Duration(e) as real >= 1000.0 * s
    ensures Score([e], true, Some(s)) <= 37
  {
    PenaltyOne(e, true, Some(s));
    Quotients(Duration(e) as real / 1000.0, 0.0, s);
    assert Held(Duration(e), Some(s)) == 10.0;
    assert Cost(e, true, Some(s)) >= 63.0;
    RoundGrows(100.0 - Penalty([e], true, Some(s)), 37.0);
  }

  // An event of a kind seen so often, each time too briefly to last.
  function Brief(kind: Kind, occurrences: nat): Event { Event(kind, occurrences, None, false) }

  lemma BriefContribution(kind: Kind, n: nat, sitting: Sitting)
    ensures Contribution(Brief(kind, n), sitting) == Min(OccurrencesCost(kind, n), 70.0)
  {
    NothingHeld(Weights(kind).1, sitting);
  }

  /** Occurrences add up: what two counts of one kind cost together is what they cost apart, or 70. */
  lemma OccurrencesAdd(kind: Kind, m: nat, n: nat, sitting: Sitting)
    ensures Contribution(Brief(kind, m + n), sitting) == Min(Contribution(Brief(kind, m), sitting) + Contribution(Brief(kind, n), sitting), 70.0)
  {
    hide *;
    BriefContribution(kind, m, sitting);
    BriefContribution(kind, n, sitting);
    BriefContribution(kind, m + n, sitting);
    var a, b, c := OccurrencesCost(kind, m), OccurrencesCost(kind, n), OccurrencesCost(kind, m + n);
    assert c == a + b && a >= 0.0 && b >= 0.0 by { Counted(kind, m, n); }
    MinAdds(a, b);
  }

  function OccurrencesCost(kind: Kind, n: nat): real { Weights(kind).0 * n as real }

  lemma Counted(kind: Kind, m: nat, n: nat)
    ensures OccurrencesCost(kind, m + n) == OccurrencesCost(kind, m) + OccurrencesCost(kind, n)
    ensures OccurrencesCost(kind, m) >= 0.0 && OccurrencesCost(kind, n) >= 0.0
  {
    hide Weights;
    var w := Weights(kind).0;
    assert (m + n) as real == m as real + n as real;
    Distributes(w, m as real, n as real);
    Signs(w, m as real);
    Signs(w, n as real);
  }

  lemma Distributes(w: real, x: real, y: real)
    ensures w * (x + y) == w * x + w * y
  {
  }

  lemma MinAdds(a: real, b: real)
    requires a >= 0.0 && b >= 0.0
    ensures Min(a + b, 70.0) == Min(Min(a, 70.0) + Min(b, 70.0), 70.0)
  {
  }

  // Events that last and are counted by their length alone.
  function Lasting(kind: Kind, durationMs: nat): Event { Event(kind, 0, Some(durationMs), false) }

  function LengthCost(kind: Kind, durationMs: nat, sitting: Sitting): real { Weights(kind).1 * Held(durationMs, sitting) }

  lemma LastingContribution(kind: Kind, durationMs: nat, sitting: Sitting)
    ensures Contribution(Lasting(kind, durationMs), sitting) == Min(LengthCost(kind, durationMs, sitting), 70.0)
  {
    hide Weights, Held;
    assert Weights(kind).0 * 0.0 == 0.0;
  }

  // Lengths add up, while they are not more than the sitting.
  lemma HeldAdds(m: nat, n: nat, sitting: Sitting)
    requires sitting.Some? && sitting.value > 0.0 ==> (m + n) as real <= 1000.0 * sitting.value
    ensures Held(m + n, sitting) == Held(m, sitting) + Held(n, sitting)
  {
    if sitting.Some? && sitting.value > 0.0 {
      var s := sitting.value;
      Quotients(m as real / 1000.0, n as real / 1000.0, s);
      AtMostAll(m + n, s);
      AtMostAll(m, s);
      AtMostAll(n, s);
      assert (m + n) as real / 1000.0 == m as real / 1000.0 + n as real / 1000.0;
    }
  }

  lemma AtMostAll(m: nat, s: real)
    requires s > 0.0 && m as real <= 1000.0 * s
    ensures m as real / 1000.0 / s <= 1.0
  {
    var x := m as real / 1000.0;
    assert x <= s;
    Signs(x / s - 1.0, s);
    assert (x / s - 1.0) * s == x - s;
  }

  lemma LengthsCount(kind: Kind, m: nat, n: nat, sitting: Sitting)
    requires Held(m + n, sitting) == Held(m, sitting) + Held(n, sitting)
    ensures LengthCost(kind, m + n, sitting) == LengthCost(kind, m, sitting) + LengthCost(kind, n, sitting)
    ensures LengthCost(kind, m, sitting) >= 0.0 && LengthCost(kind, n, sitting) >= 0.0
  {
    hide Weights, Held;
    var w := Weights(kind).1;
    HeldPositive(m, sitting);
    HeldPositive(n, sitting);
    Distributes(w, Held(m, sitting), Held(n, sitting));
    Signs(w, Held(m, sitting));
    Signs(w, Held(n, sitting));
  }

  /** Lengths add up too, while together they are no more than the sitting, or its length is not known:
      what two of one kind cost together is what they cost apart, or 70. */
  lemma DurationsAdd(kind: Kind, m: nat, n: nat, sitting: Sitting)
    requires sitting.Some? && sitting.value > 0.0 ==> (m + n) as real <= 1000.0 * sitting.value
    ensures Contribution(Lasting(kind, m + n), sitting) == Min(Contribution(Lasting(kind, m), sitting) + Contribution(Lasting(kind, n), sitting), 70.0)
  {
    hide *;
    LastingContribution(kind, m, sitting);
    LastingContribution(kind, n, sitting);
    LastingContribution(kind, m + n, sitting);
    HeldAdds(m, n, sitting);
    LengthsCount(kind, m, n, sitting);
    var a, b, c := LengthCost(kind, m, sitting), LengthCost(kind, n, sitting), LengthCost(kind, m + n, sitting);
    assert c == a + b && a >= 0.0 && b >= 0.0;
    MinAdds(a, b);
  }

  lemma ScoreOfOne(e: Event, sitting: Sitting)
    requires !e.dismissed
    ensures Score([e], false, sitting) == var n := Round(100.0 - Contribution(e, sitting)); if n < 0 then 0 else if n > 100 then 100 else n
  {
    hide Contribution;
    PenaltyOne(e, false, sitting);
  }

  // What a sitting scores on one brief event of a kind, and on one that lasts a minute.
  function ScoreOnce(kind: Kind): (int, int) {
    match kind
    case SessionStart => (100, 100)
    case SessionEnd => (100, 100)
    case HeartbeatGap => (94, 90)
    case NoFace => (97, 91)
    case MultipleFaces => (88, 78)
    case FaceMismatch => (85, 85)
    case GazeAway => (100, 98)
    case HeadPoseAway => (100, 98)
    case PhoneVisible => (96, 92)
    case TabBlur => (97, 93)
    case WindowBlur => (98, 95)
    case FullscreenExit => (98, 98)
    case Copy => (99, 99)
    case Paste => (97, 97)
    case ContextMenu => (100, 100)
    case CameraDenied => (80, 80)
    case CameraStopped => (88, 88)
    case ClockSkew => (99, 99)
    case ScreenShareDenied => (85, 85)
    case ScreenShareStopped => (90, 90)
    case MultipleDisplays => (94, 90)
  }

  /** What one event of each kind comes to, where the length of the sitting is not known. Halves go to
      the even score. */
  lemma OneEventScores(kind: Kind)
    ensures Score([Brief(kind, 1)], false, None) == ScoreOnce(kind).0
    ensures Score([Brief(kind, 1).(durationMs := Some(60000))], false, None) == ScoreOnce(kind).1
  {
    hide Round, Score, Weights, ScoreOnce, Contribution;
    var e, f := Brief(kind, 1), Brief(kind, 1).(durationMs := Some(60000));
    ScoreOfOne(e, None);
    ScoreOfOne(f, None);
    OneCosts(kind);
    OnceRounds(kind);
    Rounded(Min(Weights(kind).0, 70.0), ScoreOnce(kind).0);
    Rounded(Min(Weights(kind).0 + Weights(kind).1, 70.0), ScoreOnce(kind).1);
  }

  lemma OneCosts(kind: Kind)
    ensures Contribution(Brief(kind, 1), None) == Min(Weights(kind).0, 70.0)
    ensures Contribution(Brief(kind, 1).(durationMs := Some(60000)), None) == Min(Weights(kind).0 + Weights(kind).1, 70.0)
  {
    hide Weights;
    BriefContribution(kind, 1, None);
    assert Held(60000, None) == 1.0;
    assert Weights(kind).0 * 1.0 == Weights(kind).0 && Weights(kind).1 * 1.0 == Weights(kind).1;
  }

  // The score is the nearest to what is left of a hundred, and the even one of two.
  predicate IsRounded(cost: real, score: int) {
    && -0.5 <= 100.0 - cost - score as real <= 0.5
    && (100.0 - cost - score as real == 0.5 || 100.0 - cost - score as real == -0.5 ==> score % 2 == 0)
  }

  /** The score is what the penalty leaves of a hundred, to the nearest whole number and of two to the even
      one; a penalty past a hundred leaves nothing. */
  lemma {:induction false} ScoreIs(events: seq<Event>, includeDismissed: bool, sitting: Sitting)
    ensures var penalty, score := Penalty(events, includeDismissed, sitting), Score(events, includeDismissed, sitting);
      if penalty > 100.0 then score == 0 else IsRounded(penalty, score)
  {
    PenaltyPositive(events, includeDismissed, sitting);
  }

  lemma OnceRounds(kind: Kind)
    ensures IsRounded(Min(Weights(kind).0, 70.0), ScoreOnce(kind).0) && IsRounded(Min(Weights(kind).0 + Weights(kind).1, 70.0), ScoreOnce(kind).1)
    ensures 0 <= ScoreOnce(kind).0 <= 100 && 0 <= ScoreOnce(kind).1 <= 100
  {
  }

  lemma Rounded(cost: real, score: int)
    requires IsRounded(cost, score)
    ensures Round(100.0 - cost) == score
  {
  }
}
