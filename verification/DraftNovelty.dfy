/** No two questions of a run ask the same: what the deduper makes of a whole run. */
module DraftNovelty {
  import opened Wrappers
  import opened Generation
  import opened Drafts
  import opened DraftFacts
  import opened DraftRuns
  import opened Picking

  // --------------------------------------------------------------- one reply's stems

  /** The stems taken are those flagged, in their order, for the format asked. */
  lemma {:induction false} TakenIs(found: seq<string>, flags: seq<bool>, fmt: nat) returns (at: seq<nat>)
    requires |flags| == |found|
    ensures Picks(at, |found|, (k: nat) => k < |flags| && flags[k]) && |at| == |TakenOf(found, flags, fmt)|
    ensures forall i :: 0 <= i < |at| ==> at[i] < |found| && TakenOf(found, flags, fmt)[i] == Taken(found[at[i]], fmt)
  {
    if found == [] {
      at := [];
    } else {
      var n := |found| - 1;
      var before := TakenIs(found[..n], flags[..n], fmt);
      at := PicksNext(before, n, (k: nat) => k < n && flags[..n][k], (k: nat) => k < |flags| && flags[k]);
    }
  }

  ghost function Vectors(stems: seq<string>, vec: string -> Vector): (r: seq<Vector>)
    ensures |r| == |stems| && forall k :: 0 <= k < |r| ==> r[k] == vec(stems[k])
  {
    seq(|stems|, k requires 0 <= k < |stems| => vec(stems[k]))
  }

  ghost function StemsIn(taken: seq<Taken>): (r: seq<string>)
    ensures |r| == |taken| && forall k :: 0 <= k < |r| ==> r[k] == taken[k].stem
  {
    seq(|taken|, k requires 0 <= k < |taken| => taken[k].stem)
  }

  // No question is near an earlier one.
  ghost predicate AllNovel(taken: seq<Taken>, vec: string -> Vector, near: (Vector, Vector) -> bool) {
    forall i, j :: 0 <= i < j < |taken| ==> !near(vec(taken[j].stem), vec(taken[i].stem))
  }

  // The question is there, or one it is near.
  ghost predicate Represented(stem: string, taken: seq<Taken>, vec: string -> Vector, near: (Vector, Vector) -> bool) {
    exists i :: 0 <= i < |taken| && (taken[i].stem == stem || near(vec(stem), vec(taken[i].stem)))
  }

  lemma RepresentedOn(stem: string, taken: seq<Taken>, more: seq<Taken>, vec: string -> Vector, near: (Vector, Vector) -> bool)
    requires Represented(stem, taken, vec, near) && taken <= more
    ensures Represented(stem, more, vec, near)
  {
    var i :| 0 <= i < |taken| && (taken[i].stem == stem || near(vec(stem), vec(taken[i].stem)));
    assert more[i] == taken[i];
  }

  lemma OneNovel(before: seq<Taken>, t: Taken, vec: string -> Vector, near: (Vector, Vector) -> bool)
    requires AllNovel(before, vec, near)
    ensures var kept := Vectors(StemsIn(before), vec);
      && Vectors(StemsIn(before + [t]), vec) == kept + [vec(t.stem)]
      && Represented(t.stem, before + [t], vec, near)
      && (if Novel(kept, vec(t.stem), near) then AllNovel(before + [t], vec, near) else Represented(t.stem, before, vec, near))
  {
    var kept := Vectors(StemsIn(before), vec);
    assert (before + [t])[|before|] == t;
    if !Novel(kept, vec(t.stem), near) {
      var k :| 0 <= k < |kept| && near(vec(t.stem), kept[k]);
      assert near(vec(t.stem), vec(before[k].stem));
    }
  }

  lemma LastStem(kept: seq<Vector>, found: seq<string>, fmt: nat, vec: string -> Vector, near: (Vector, Vector) -> bool)
    requires found != []
    ensures var n := |found| - 1;
      var was, now := Vectors(found[..n], vec), Vectors(found, vec);
      var novel := Novel(KeptAfter(kept, was, near), vec(found[n]), near);
      && KeptAfter(kept, now, near) == KeptAfter(kept, was, near) + (if novel then [vec(found[n])] else [])
      && TakenOf(found, Flags(kept, now, near), fmt)
         == TakenOf(found[..n], Flags(kept, was, near), fmt) + (if novel then [Taken(found[n], fmt)] else [])
  {
    hide Novel;
    var n := |found| - 1;
    var was, now := Vectors(found[..n], vec), Vectors(found, vec);
    assert now[..n] == was;
    assert Flags(kept, now, near)[..n] == Flags(kept, was, near);
  }

  // The stems of one reply: the vectors kept stay those of the questions taken, no question is near
  // an earlier one, and each stem is taken or is near one that is.
  lemma {:induction false} TakesNovel(accepted: seq<Taken>, found: seq<string>, fmt: nat, vec: string -> Vector, near: (Vector, Vector) -> bool)
    requires AllNovel(accepted, vec, near)
    ensures var kept := Vectors(StemsIn(accepted), vec);
      var now := accepted + TakenOf(found, Flags(kept, Vectors(found, vec), near), fmt);
      && KeptAfter(kept, Vectors(found, vec), near) == Vectors(StemsIn(now), vec)
      && AllNovel(now, vec, near) && forall k :: 0 <= k < |found| ==> Represented(found[k], now, vec, near)
  {
    hide AllNovel, Represented, Novel, Flags, TakenOf, KeptAfter;
    var kept := Vectors(StemsIn(accepted), vec);
    if found == [] {
      NoStems(kept, fmt, near);
      assert accepted + [] == accepted && Vectors([], vec) == [];
    } else {
      var n := |found| - 1;
      var taken := TakenOf(found[..n], Flags(kept, Vectors(found[..n], vec), near), fmt);
      var before := accepted + taken;
      TakesNovel(accepted, found[..n], fmt, vec, near);
      LastStem(kept, found, fmt, vec, near);
      OneNovel(before, Taken(found[n], fmt), vec, near);
      var now := accepted + TakenOf(found, Flags(kept, Vectors(found, vec), near), fmt);
      assert accepted + (taken + [Taken(found[n], fmt)]) == before + [Taken(found[n], fmt)] && accepted + (taken + []) == before;
      forall k | 0 <= k < |found| ensures Represented(found[k], now, vec, near) {
        if k < n {
          assert found[..n][k] == found[k];
          RepresentedOn(found[k], before, now, vec, near);
        }
      }
    }
  }

  lemma {:induction false} NoStems(kept: seq<Vector>, fmt: nat, near: (Vector, Vector) -> bool)
    ensures Flags(kept, [], near) == [] && KeptAfter(kept, [], near) == kept && TakenOf([], [], fmt) == []
  {
  }

  // ------------------------------------------------------------------- whole runs

  // The embedder answers every call, always with the same vector for a stem.
  ghost predicate Embeds(turns: Turns, vec: string -> Vector) {
    forall k: nat, stems :: turns(k).Answered? ==> turns(k).embed(stems) == Some(Vectors(stems, vec))
  }

  // What the run has kept to tell stems by, and what it has made of those it heard.
  ghost predicate Told(plan: Plan, turns: Turns, vec: string -> Vector, c: Core) {
    && c.kept == Vectors(StemsIn(c.accepted), vec) && AllNovel(c.accepted, vec, plan.near)
    && forall k, s :: 0 <= k < |c.heard| && s in Put(c.heard[k], turns(k)) ==> Represented(s, c.accepted, vec, plan.near)
  }

  lemma JoinTells(plan: Plan, turns: Turns, vec: string -> Vector, c: Core, call: Call, d: Core, fmt: nat, turn: Turn, book: bool)
    requires Told(plan, turns, vec, c) && Embeds(turns, vec) && turn == turns(|c.heard|) && turn.Answered?
    requires fmt < |d.produced| && d.accepted == c.accepted && d.kept == c.kept && d.heard == c.heard + [call]
    ensures var found := Put(call, turn);
      var p := Join(d, fmt, found, turn.embed(found), book, plan.near);
      p.Going? ==> Told(plan, turns, vec, p.core)
  {
    hide AllNovel, Represented, Put, Stumbles, TakenOf, StemsOf, KeptAfter, Flags;
    var found := Put(call, turn);
    assert turn.embed(found) == Some(Vectors(found, vec));
    TakesNovel(c.accepted, found, fmt, vec, plan.near);
    var p := Join(d, fmt, found, turn.embed(found), book, plan.near);
    if p.Going? {
      JoinIs(d, fmt, found, vec, book, plan.near);
      forall k, s | 0 <= k < |p.core.heard| && s in Put(p.core.heard[k], turns(k)) ensures Represented(s, p.core.accepted, vec, plan.near) {
        if k < |c.heard| {
          assert p.core.heard[k] == c.heard[k];
          RepresentedOn(s, c.accepted, p.core.accepted, vec, plan.near);
        }
      }
    }
  }

  lemma {:induction false} JoinIs(d: Core, fmt: nat, found: seq<string>, vec: string -> Vector, book: bool, near: (Vector, Vector) -> bool)
    requires fmt < |d.produced| && Join(d, fmt, found, Some(Vectors(found, vec)), book, near).Going?
    ensures var e := Join(d, fmt, found, Some(Vectors(found, vec)), book, near).core;
      && e.accepted == d.accepted + TakenOf(found, Flags(d.kept, Vectors(found, vec), near), fmt)
      && e.kept == KeptAfter(d.kept, Vectors(found, vec), near) && e.heard == d.heard
  {
    hide Stumbles, StemsOf;
    assert found == [] ==> Vectors(found, vec) == [];
  }

  // A call that comes to nothing puts no stem to the embedder.
  lemma NothingTold(plan: Plan, turns: Turns, vec: string -> Vector, c: Core, d: Core)
    requires Told(plan, turns, vec, c) && d.kept == c.kept && d.accepted == c.accepted
    requires d.heard == c.heard || exists call :: d.heard == c.heard + [call] && Put(call, turns(|c.heard|)) == []
    ensures Told(plan, turns, vec, d)
  {
    hide AllNovel, Represented, Put;
    assert forall k :: 0 <= k < |c.heard| ==> d.heard[k] == c.heard[k];
  }

  lemma WriteTells(plan: Plan, turns: Turns, vec: string -> Vector, c: Core, fmt: nat, wanted: nat)
    requires Shaped(plan, c) && fmt < |plan.shares| && Told(plan, turns, vec, c) && Embeds(turns, vec)
    ensures var p := Write(plan, turns, c, fmt, wanted); p.Going? ==> Told(plan, turns, vec, p.core)
  {
    hide Told, Join, Embeds, Offered;
    var turn, call := turns(|c.heard|), Wrote(fmt, wanted);
    if Spent(plan, c) {
    } else if turn.Dead? {
      assert Put(call, turn) == [] by { DeadOffersNone(turn, wanted); }
      NothingTold(plan, turns, vec, c, Calling(c, call));
    } else {
      JoinTells(plan, turns, vec, c, call, Calling(c, call).(reached := c.reached[fmt := true]), fmt, turn, false);
    }
  }

  lemma DeadOffersNone(turn: Turn, wanted: nat)
    requires turn.Dead?
    ensures Offered(turn, wanted) == []
  {
  }

  lemma TakeBookTells(plan: Plan, turns: Turns, vec: string -> Vector, c: Core, fmt: nat, wanted: nat)
    requires Shaped(plan, c) && fmt < |plan.shares| && c.cursor <= |plan.printed| && Told(plan, turns, vec, c) && Embeds(turns, vec)
    ensures var p := TakeBook(plan, turns, c, fmt, wanted); p.Going? ==> Told(plan, turns, vec, p.core)
  {
    hide Told, Join, Embeds, Usable, FirstOf, Answering, AnyMisfit;
    var n, turn := NextBatch(plan.printed, c.cursor), turns(|c.heard|);
    if n == |plan.printed| || c.left <= 0 {
      NothingTold(plan, turns, vec, c, TakeBook(plan, turns, c, fmt, wanted).core);
    } else {
      var asked := FirstOf(Usable(plan.printed[n]), wanted);
      var call, d := Harvested(fmt, asked), c.(cursor := n + 1);
      if turn.Dead? {
        NothingTold(plan, turns, vec, c, Calling(d, call));
      } else if !AnyMisfit(turn.answers, |asked|) {
        JoinTells(plan, turns, vec, c, call, Calling(d, call), fmt, turn, true);
      }
    }
  }

  /** With an embedder that answers, a run that is not broken ends with no question near an earlier one,
      whichever calls they came from; and no sound question it heard is lost but to one it is near. */
  lemma NoTwoAlike(plan: Plan, turns: Turns, limit: int, vec: string -> Vector)
    requires Sensible(plan) && Embeds(turns, vec) && Run(plan, turns, limit).Going?
    ensures var d := Run(plan, turns, limit).core;
      && AllNovel(d.accepted, vec, plan.near)
      && forall k, s :: 0 <= k < |d.heard| && s in Put(d.heard[k], turns(k)) ==> Represented(s, d.accepted, vec, plan.near)
  {
    hide TakeBook, Write, AfterBook, Run, Put, Embeds;
    var inv := (d: Core) => Told(plan, turns, vec, d);
    forall c: Core | Asking(plan, c) && inv(c)
      ensures var p := TakeBook(plan, turns, c, |c.heard| % |plan.shares|, plan.share - |c.accepted|); p.Going? ==> inv(p.core)
    {
      TakeBookTells(plan, turns, vec, c, |c.heard| % |plan.shares|, plan.share - |c.accepted|);
    }
    forall c: Core, fmt: nat, wanted: nat | Shaped(plan, c) && fmt < |plan.shares| && inv(c)
      ensures var p := Write(plan, turns, c, fmt, wanted); p.Going? ==> inv(p.core)
    {
      WriteTells(plan, turns, vec, c, fmt, wanted);
    }
    BookKeeps(plan, turns, limit, inv);
    RunLeads(plan, turns, limit);
    RunGoesThroughBook(plan, turns, limit);
    WritingKeeps(plan, turns, limit, inv);
  }

  lemma RunGoesThroughBook(plan: Plan, turns: Turns, limit: int)
    requires Sensible(plan) && Run(plan, turns, limit).Going?
    ensures AfterBook(plan, turns, limit).Going?
  {
    hide AfterBook, Shares, Backfill, RetryOrder;
  }
}
