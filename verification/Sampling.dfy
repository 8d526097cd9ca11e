/** Choosing the passages a paper is written from: `select_chunks_by_coverage` in
    `services/assessments.py`, over exact arithmetic. */
module Sampling {
  import opened Batches
  import opened Reals
  import opened Wrappers

  type Id = nat

  datatype Passage = Passage(id: Id, chapter: Option<Id>, book: Id, tokens: nat)

  // A chapter, or a book for what is in no chapter.
  datatype Group = OfChapter(id: Id) | OfBook(id: Id)

  function GroupOf(p: Passage): Group { if p.chapter.Some? then OfChapter(p.chapter.value) else OfBook(p.book) }

  // The groups, by first passage.
  function Groups(ps: seq<Passage>): seq<Group> {
    if ps == [] then []
    else
      var before := Groups(ps[..|ps| - 1]);
      if GroupOf(ps[|ps| - 1]) in before then before else before + [GroupOf(ps[|ps| - 1])]
  }

  function Members(ps: seq<Passage>, g: Group): seq<Passage> {
    if ps == [] then []
    else if GroupOf(ps[|ps| - 1]) == g then Members(ps[..|ps| - 1], g) + [ps[|ps| - 1]]
    else Members(ps[..|ps| - 1], g)
  }

  function Tokens(ps: seq<Passage>): nat {
    if ps == [] then 0 else Tokens(ps[..|ps| - 1]) + ps[|ps| - 1].tokens
  }

  // A group's length: its tokens, or its passages when those are not counted.
  function Length(ps: seq<Passage>): (n: nat)
    ensures ps != [] ==> n > 0
  {
    if Tokens(ps) == 0 then |ps| else Tokens(ps)
  }

  // How many passages a group gives: its share by length, at least one, at most all.
  function TakeOf(group: seq<Passage>, wanted: nat, total: nat): (t: nat)
    requires total > 0
    ensures t <= |group| && (group != [] ==> t >= 1)
  {
    var share := Round((wanted * Length(group)) as real / total as real);
    var least := if share < 1 then 1 else share;
    if least < |group| then least else |group|
  }

  // Even steps through a group of n.
  function Position(i: nat, n: nat, take: nat): nat
    requires take > 0
  {
    i * n / take
  }

  lemma PositionIn(i: nat, n: nat, take: nat)
    requires i < take <= n
    ensures Position(i, n, take) < n
  {
    Quotient(i * n, take);
    Apart(i, take, n);
    Apart(n, Position(i, n, take), take);
    assert take * n == n * take;
  }

  function Spaced(group: seq<Passage>, take: nat): (r: seq<Passage>)
    requires take <= |group|
    ensures |r| == take
  {
    seq(take, i requires 0 <= i < take => (PositionIn(i, |group|, take); group[Position(i, |group|, take)]))
  }

  function PickAll(ps: seq<Passage>, groups: seq<Group>, wanted: nat, total: nat): seq<Passage>
    requires total > 0
  {
    if groups == [] then []
    else
      var group := Members(ps, groups[|groups| - 1]);
      PickAll(ps, groups[..|groups| - 1], wanted, total) + Spaced(group, TakeOf(group, wanted, total))
  }

  // Each passage once, where it first comes.
  function Unique(ps: seq<Passage>): seq<Passage> {
    if ps == [] then []
    else
      var before, last := Unique(ps[..|ps| - 1]), ps[|ps| - 1];
      if exists k :: 0 <= k < |before| && before[k].id == last.id then before else before + [last]
  }

  function Sample(ps: seq<Passage>, wanted: int): seq<Passage> {
    if ps == [] || wanted <= 0 then []
    else
      var unique := Unique(PickAll(ps, Groups(ps), wanted, Length(ps)));
      if |unique| <= wanted then unique else unique[..wanted]
  }

  // ------------------------------------------------------------------- the loops

  ghost predicate Grouped(ps: seq<Passage>, groups: map<Group, seq<Passage>>, order: seq<Group>) {
    && order == Groups(ps) && (forall g :: g in order <==> g in groups)
    && forall g :: g in groups ==> groups[g] == Members(ps, g)
  }

  lemma {:induction false} NoMembers(ps: seq<Passage>, g: Group)
    ensures g in Groups(ps) <==> Members(ps, g) != []
  {
    if ps != [] { NoMembers(ps[..|ps| - 1], g); }
  }

  lemma GroupedNext(ps: seq<Passage>, n: nat, groups: map<Group, seq<Passage>>, order: seq<Group>)
    requires n < |ps| && Grouped(ps[..n], groups, order)
    ensures var g := GroupOf(ps[n]);
      Grouped(ps[..n + 1], groups[g := (if g in groups then groups[g] else []) + [ps[n]]], if g in groups then order else order + [g])
  {
    assert ps[..n + 1][..n] == ps[..n];
    NoMembers(ps[..n], GroupOf(ps[n]));
  }

  method SelectByCoverage(ps: seq<Passage>, wanted: int) returns (sample: seq<Passage>)
    ensures sample == Sample(ps, wanted)
  {
    hide TakeOf, Spaced, Unique;
    if ps == [] || wanted <= 0 { return []; }
    var groups, order := Collect(ps);
    var total := Length(ps);
    var picked: seq<Passage> := [];
    for n := 0 to |order|
      invariant picked == PickAll(ps, order[..n], wanted, total)
    {
      assert order[..n + 1][..n] == order[..n];
      assert order[n] in order;
      var group := groups[order[n]];
      picked := picked + Spaced(group, TakeOf(group, wanted, total));
    }
    assert order[..|order|] == order;
    var unique := DropSeen(picked);
    sample := if |unique| <= wanted then unique else unique[..wanted];
  }

  method Collect(ps: seq<Passage>) returns (groups: map<Group, seq<Passage>>, order: seq<Group>)
    ensures Grouped(ps, groups, order)
  {
    groups, order := map[], [];
    assert Grouped(ps[..0], groups, order);
    hide Grouped;
    for n := 0 to |ps|
      invariant Grouped(ps[..n], groups, order)
    {
      GroupedNext(ps, n, groups, order);
      var g := GroupOf(ps[n]);
      if g !in groups { order := order + [g]; }
      groups := groups[g := (if g in groups then groups[g] else []) + [ps[n]]];
    }
    assert ps[..|ps|] == ps;
  }

  method DropSeen(picked: seq<Passage>) returns (unique: seq<Passage>)
    ensures unique == Unique(picked)
  {
    unique := [];
    var seen: set<Id> := {};
    for n := 0 to |picked|
      invariant unique == Unique(picked[..n])
      invariant forall k :: 0 <= k < |unique| ==> unique[k].id in seen
      invariant forall id :: id in seen ==> exists k :: 0 <= k < |unique| && unique[k].id == id
    {
      assert picked[..n + 1][..n] == picked[..n];
      if picked[n].id !in seen {
        ghost var was := unique;
        seen := seen + {picked[n].id};
        unique := unique + [picked[n]];
        assert unique[|was|].id == picked[n].id && forall k :: 0 <= k < |was| ==> unique[k] == was[k];
      }
    }
    assert picked[..|picked|] == picked;
  }

  // --------------------------------------------------------------------- one group

  /** Picks within a group step evenly: each is later than the last, by the step rounded down or
      up, and the first is the group's first. */
  lemma StepsAreEven(i: nat, n: nat, take: nat)
    requires i + 1 < take <= n
    ensures Position(0, n, take) == 0
    ensures 1 <= n / take <= Position(i + 1, n, take) - Position(i, n, take) <= (n + take - 1) / take
  {
    var a, b, q, r := Position(i, n, take), Position(i + 1, n, take), n / take, (n + take - 1) / take;
    Quotient(i * n, take);
    Quotient((i + 1) * n, take);
    Quotient(n, take);
    Quotient(n + take - 1, take);
    Shared(i, 1, n);
    Shared(a, q, take);
    Shared(a, r, take);
    NoMore(1, q, take);
    NoMore(a + q, b, take);
    NoMore(b, a + r, take);
  }

  lemma LastOf(n: nat, take: nat, p: nat, x: int)
    requires 0 < take <= n && x == take * n - n && p * take <= x < p * take + take
    ensures p == n - 1 <==> take == n
  {
    Shared(n, -1, take);
    if take == n {
      NoMore(n - 1, p, take);
      NoMore(p, n - 1, take);
    }
  }

  /** The group's last passage is picked only when every passage is. */
  lemma LastPickedIff(n: nat, take: nat)
    requires 0 < take <= n
    ensures Position(take - 1, n, take) == n - 1 <==> take == n
  {
    Quotient((take - 1) * n, take);
    Shared(take, -1, n);
    LastOf(n, take, Position(take - 1, n, take), (take - 1) * n);
  }

  // -------------------------------------------------------------------- the sample

  predicate Differ(ps: seq<Passage>) { forall i, j :: 0 <= i < j < |ps| ==> ps[i].id != ps[j].id }

  lemma {:induction false} MembersAre(ps: seq<Passage>, g: Group)
    requires Differ(ps)
    ensures Differ(Members(ps, g))
    ensures forall m :: m in Members(ps, g) ==> m in ps && GroupOf(m) == g
  {
    if ps != [] {
      var rest, last := ps[..|ps| - 1], ps[|ps| - 1];
      MembersAre(rest, g);
      assert ps == rest + [last];
      forall m | m in Members(rest, g) ensures m.id != last.id {
        var k :| 0 <= k < |rest| && rest[k] == m;
        assert ps[k].id != ps[|rest|].id;
      }
    }
  }

  lemma {:induction false} StepsGrow(i: nat, j: nat, n: nat, take: nat)
    requires i < j < take <= n
    ensures Position(i, n, take) < Position(j, n, take)
  {
    hide Position;
    StepsAreEven(j - 1, n, take);
    if i < j - 1 { StepsGrow(i, j - 1, n, take); }
  }

  lemma SpacedAre(group: seq<Passage>, take: nat)
    requires take <= |group| && Differ(group)
    ensures Differ(Spaced(group, take)) && forall m :: m in Spaced(group, take) ==> m in group
  {
    hide Position;
    forall i | 0 <= i < take ensures Position(i, |group|, take) < |group| { PositionIn(i, |group|, take); }
    forall i, j | 0 <= i < j < take ensures Spaced(group, take)[i].id != Spaced(group, take)[j].id {
      StepsGrow(i, j, |group|, take);
    }
  }

  lemma {:induction false} GroupsDiffer(ps: seq<Passage>)
    ensures forall i, j :: 0 <= i < j < |Groups(ps)| ==> Groups(ps)[i] != Groups(ps)[j]
  {
    if ps != [] { GroupsDiffer(ps[..|ps| - 1]); }
  }

  lemma {:induction false} PicksAre(ps: seq<Passage>, groups: seq<Group>, wanted: nat, total: nat)
    requires total > 0 && Differ(ps) && forall i, j :: 0 <= i < j < |groups| ==> groups[i] != groups[j]
    ensures Differ(PickAll(ps, groups, wanted, total))
    ensures forall m :: m in PickAll(ps, groups, wanted, total) ==> m in ps && GroupOf(m) in groups
  {
    hide Spaced, Members, TakeOf, GroupOf;
    if groups != [] {
      var rest, g := groups[..|groups| - 1], groups[|groups| - 1];
      var group := Members(ps, g);
      var mine := Spaced(group, TakeOf(group, wanted, total));
      PicksAre(ps, rest, wanted, total);
      MembersAre(ps, g);
      SpacedAre(group, TakeOf(group, wanted, total));
      var before := PickAll(ps, rest, wanted, total);
      forall i, j | 0 <= i < |before| && 0 <= j < |mine| ensures before[i].id != mine[j].id {
        assert before[i] in before && mine[j] in mine;
        Apart2(ps, before[i], mine[j]);
      }
    }
  }

  lemma Apart2(ps: seq<Passage>, a: Passage, b: Passage)
    requires Differ(ps) && a in ps && b in ps && a != b
    ensures a.id != b.id
  {
    var i :| 0 <= i < |ps| && ps[i] == a;
    var j :| 0 <= j < |ps| && ps[j] == b;
  }

  lemma {:induction false} UniqueAlready(ps: seq<Passage>)
    requires Differ(ps)
    ensures Unique(ps) == ps
  {
    if ps != [] {
      UniqueAlready(ps[..|ps| - 1]);
      assert ps == ps[..|ps| - 1] + [ps[|ps| - 1]];
    }
  }

  // What the groups would give, before the sample is cut to what is wanted.
  function Offered(ps: seq<Passage>, groups: seq<Group>, wanted: nat): seq<Passage> {
    if ps == [] then [] else PickAll(ps, groups, wanted, Length(ps))
  }

  lemma {:induction false} SampleIsCut(ps: seq<Passage>, wanted: nat)
    requires Differ(ps)
    ensures var all := Offered(ps, Groups(ps), wanted);
      Sample(ps, wanted) == if |all| <= wanted then all else all[..wanted]
  {
    hide PickAll, Unique, Groups, Length;
    if ps != [] && wanted > 0 {
      GroupsDiffer(ps);
      PicksAre(ps, Groups(ps), wanted, Length(ps));
      UniqueAlready(PickAll(ps, Groups(ps), wanted, Length(ps)));
    }
  }

  /** The sample holds passages of the material, each once and no more than wanted; it is shorter
      than that only when the groups' rounded shares come to less. */
  lemma {:induction false} SampleIsWithin(ps: seq<Passage>, wanted: nat)
    requires Differ(ps)
    ensures var s := Sample(ps, wanted);
      && Differ(s) && (forall m :: m in s ==> m in ps)
      && |s| == if |Offered(ps, Groups(ps), wanted)| <= wanted then |Offered(ps, Groups(ps), wanted)| else wanted
  {
    hide PickAll, Groups, Length, Sample;
    SampleIsCut(ps, wanted);
    if ps != [] {
      GroupsDiffer(ps);
      PicksAre(ps, Groups(ps), wanted, Length(ps));
    }
  }

  lemma {:induction false} OfferedGrows(ps: seq<Passage>, groups: seq<Group>, k: nat, wanted: nat)
    requires k <= |groups|
    ensures Offered(ps, groups[..k], wanted) <= Offered(ps, groups, wanted)
    decreases |groups| - k
  {
    hide Spaced, TakeOf, Members, Length;
    if k < |groups| {
      assert groups[..k + 1][..k] == groups[..k];
      OfferedGrows(ps, groups, k + 1, wanted);
    } else {
      assert groups[..k] == groups;
    }
  }

  /** A chapter gives the sample nothing exactly when the chapters before it fill it: each gives at
      least one passage, so with more chapters than passages wanted the last have none. */
  lemma {:induction false} ChapterServedIff(ps: seq<Passage>, wanted: nat, k: nat)
    requires Differ(ps) && wanted > 0 && k < |Groups(ps)|
    ensures (exists m :: m in Sample(ps, wanted) && GroupOf(m) == Groups(ps)[k]) <==> |Offered(ps, Groups(ps)[..k], wanted)| < wanted
    ensures |Offered(ps, Groups(ps)[..k], wanted)| >= k
  {
    hide PickAll, Groups, Length, Sample, GroupOf, Offered;
    NoGroups();
    var groups, all, g := Groups(ps), Offered(ps, Groups(ps), wanted), Groups(ps)[k];
    SampleIsCut(ps, wanted);
    var before, mine, after := OfferedSplits(ps, wanted, k);
    OfferedAtLeast(ps, groups[..k], wanted);
    if |before| < wanted {
      assert all[|before|] == mine[0];
      assert Sample(ps, wanted)[|before|] == mine[0];
    } else {
      forall m | m in Sample(ps, wanted) ensures GroupOf(m) != g {
        assert m in before;
      }
    }
  }

  lemma NoGroups()
    ensures Groups([]) == []
  {
  }

  // The offers are those of the groups before k, which hold nothing of group k, then its own.
  lemma OfferedSplits(ps: seq<Passage>, wanted: nat, k: nat) returns (before: seq<Passage>, mine: seq<Passage>, after: seq<Passage>)
    requires Differ(ps) && k < |Groups(ps)|
    ensures Offered(ps, Groups(ps), wanted) == before + mine + after && before == Offered(ps, Groups(ps)[..k], wanted)
    ensures mine != [] && GroupOf(mine[0]) == Groups(ps)[k] && forall m :: m in before ==> GroupOf(m) != Groups(ps)[k]
  {
    hide Spaced, TakeOf, Members, GroupOf, Length, Groups;
    var groups := Groups(ps);
    var g := groups[k];
    NoGroups();
    GroupsDiffer(ps);
    before := Offered(ps, groups[..k], wanted);
    var group := Members(ps, g);
    mine := Spaced(group, TakeOf(group, wanted, Length(ps)));
    assert groups[..k + 1][..k] == groups[..k];
    OfferedGrows(ps, groups, k + 1, wanted);
    after := Offered(ps, groups, wanted)[|before + mine|..];
    PicksAre(ps, groups[..k], wanted, Length(ps));
    NoMembers(ps, g);
    MembersAre(ps, g);
    SpacedAre(group, TakeOf(group, wanted, Length(ps)));
    assert mine[0] in mine;
  }

  lemma {:induction false} OfferedAtLeast(ps: seq<Passage>, groups: seq<Group>, wanted: nat)
    requires ps != [] && forall g :: g in groups ==> g in Groups(ps)
    ensures |Offered(ps, groups, wanted)| >= |groups|
  {
    hide Spaced, TakeOf, Members, Length, Groups;
    if groups != [] {
      OfferedAtLeast(ps, groups[..|groups| - 1], wanted);
      assert groups[|groups| - 1] in groups;
      NoMembers(ps, groups[|groups| - 1]);
    }
  }
}
