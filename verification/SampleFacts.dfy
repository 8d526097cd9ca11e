/** Exactly which passages a paper is written from: how they fall into groups, how many each group
    gives, which of its passages those are, and in what order. */
module SampleFacts {
  import Batches
  import opened Picking
  import opened Reals
  import opened Sampling
  import opened Wrappers

  // In the same chapter, or in no chapter of the same book.
  predicate Together(p: Passage, q: Passage) { p.chapter == q.chapter && (p.chapter.None? ==> p.book == q.book) }

  lemma TogetherIs(p: Passage, q: Passage)
    ensures GroupOf(p) == GroupOf(q) <==> Together(p, q)
  {
  }

  ghost function With(ps: seq<Passage>, p: Passage): nat -> bool { (k: nat) => k < |ps| && Together(ps[k], p) }

  ghost function Opening(ps: seq<Passage>): nat -> bool {
    (k: nat) => k < |ps| && forall j :: 0 <= j < k ==> !Together(ps[j], ps[k])
  }

  ghost function Newcomer(ps: seq<Passage>): nat -> bool { (k: nat) => k < |ps| && forall j :: 0 <= j < k ==> ps[j].id != ps[k].id }

  /** A passage's group is the passages together with it, in their order. */
  lemma {:induction false} MembersIs(ps: seq<Passage>, p: Passage) returns (at: seq<nat>)
    ensures Picks(at, |ps|, With(ps, p)) && |Members(ps, GroupOf(p))| == |at|
    ensures forall i :: 0 <= i < |at| ==> at[i] < |ps| && Members(ps, GroupOf(p))[i] == ps[at[i]]
  {
    hide Picks;
    if ps == [] {
      at := [];
      PicksNone(With(ps, p));
    } else {
      var n := |ps| - 1;
      var before := MembersIs(ps[..n], p);
      at := PicksNext(before, n, With(ps[..n], p), With(ps, p));
      TogetherIs(ps[n], p);
    }
  }

  /** The groups come in the order of their first passages. */
  lemma {:induction false} GroupsIs(ps: seq<Passage>) returns (at: seq<nat>)
    ensures Picks(at, |ps|, Opening(ps)) && |Groups(ps)| == |at|
    ensures forall i :: 0 <= i < |at| ==> at[i] < |ps| && Groups(ps)[i] == GroupOf(ps[at[i]])
  {
    hide Picks, Groups;
    if ps == [] {
      at := [];
      PicksNone(Opening(ps));
      NoGroups();
    } else {
      var n := |ps| - 1;
      var before := GroupsIs(ps[..n]);
      GroupsNext(ps, n);
      AlreadyThere(ps, n);
      at := PicksNext(before, n, Opening(ps[..n]), Opening(ps));
    }
  }

  lemma {:induction false} GroupsNext(ps: seq<Passage>, n: nat)
    requires n == |ps| - 1
    ensures Groups(ps) == if GroupOf(ps[n]) in Groups(ps[..n]) then Groups(ps[..n]) else Groups(ps[..n]) + [GroupOf(ps[n])]
  {
  }

  lemma AlreadyThere(ps: seq<Passage>, n: nat)
    requires n < |ps|
    ensures GroupOf(ps[n]) in Groups(ps[..n]) <==> exists j :: 0 <= j < n && Together(ps[j], ps[n])
  {
    var g := GroupOf(ps[n]);
    NoMembers(ps[..n], g);
    var at := MembersIs(ps[..n], ps[n]);
    if j :| 0 <= j < n && Together(ps[j], ps[n]) { assert With(ps[..n], ps[n])(j) && j in at; }
    if at != [] { assert at[0] in at && With(ps[..n], ps[n])(at[0]); }
  }

  /** Dropping passages seen before leaves each where it first comes. */
  lemma {:induction false} UniqueIs(ps: seq<Passage>) returns (at: seq<nat>)
    ensures Picks(at, |ps|, Newcomer(ps)) && |Unique(ps)| == |at|
    ensures forall i :: 0 <= i < |at| ==> at[i] < |ps| && Unique(ps)[i] == ps[at[i]]
  {
    hide Picks;
    if ps == [] {
      at := [];
      PicksNone(Newcomer(ps));
    } else {
      var n := |ps| - 1;
      var before := UniqueIs(ps[..n]);
      at := PicksNext(before, n, Newcomer(ps[..n]), Newcomer(ps));
      SeenBefore(ps, n, before);
    }
  }

  lemma SeenBefore(ps: seq<Passage>, n: nat, before: seq<nat>)
    requires n < |ps| && Picks(before, n, Newcomer(ps[..n])) && |Unique(ps[..n])| == |before|
    requires forall i :: 0 <= i < |before| ==> before[i] < n && Unique(ps[..n])[i] == ps[before[i]]
    ensures (exists k :: 0 <= k < |before| && Unique(ps[..n])[k].id == ps[n].id) <==> !Newcomer(ps)(n)
  {
    hide Unique;
    if j :| 0 <= j < n && ps[j].id == ps[n].id {
      var f := FirstWith(ps, ps[n].id, j);
      assert Newcomer(ps[..n])(f) && f in before;
      var k :| 0 <= k < |before| && before[k] == f;
      assert Unique(ps[..n])[k].id == ps[n].id;
    }
  }

  lemma FirstWith(ps: seq<Passage>, id: Id, j: nat) returns (f: nat)
    requires j < |ps| && ps[j].id == id
    ensures f <= j && ps[f].id == id && forall k :: 0 <= k < f ==> ps[k].id != id
  {
    f := 0;
    while ps[f].id != id
      invariant f <= j && forall k :: 0 <= k < f ==> ps[k].id != id
      decreases j - f
    {
      f := f + 1;
    }
  }

  // ------------------------------------------------------------------ what a group gives

  lemma {:induction false} TokensAdd(a: seq<Passage>, b: seq<Passage>)
    ensures Tokens(a + b) == Tokens(a) + Tokens(b) && forall p :: Tokens([p]) == p.tokens
  {
    forall p ensures Tokens([p]) == p.tokens { assert [p][..0] == [] && Tokens([]) == 0; }
    if b == [] {
      assert a + b == a;
    } else {
      var n := |b| - 1;
      assert (a + b)[..|a| + n] == a + b[..n];
      TokensAdd(a, b[..n]);
    }
  }

  lemma Half(a: nat, b: nat, n: int)
    requires b > 0 && -0.5 <= a as real / b as real - n as real <= 0.5
    ensures 0 - b <= 2 * a - 2 * (n * b) <= b
  {
    var x, c := a as real / b as real, b as real;
    assert x * c == a as real;
    assert (x - n as real) * c == a as real - n as real * c;
    Signs(0.5 - (x - n as real), c);
    Signs(0.5 + (x - n as real), c);
    assert (0.5 - (x - n as real)) * c == 0.5 * c - (x - n as real) * c;
    assert (0.5 + (x - n as real)) * c == 0.5 * c + (x - n as real) * c;
    assert n as real * c == (n * b) as real;
  }

  /** A group gives its share of what is wanted, to the nearest passage: the share that its length is of
      the whole, where length is counted in tokens, or in passages when none are counted. It gives one
      at least and all at most. */
  lemma {:induction false} TakeIs(group: seq<Passage>, wanted: nat, total: nat)
    requires total > 0 && group != []
    ensures var t, length := TakeOf(group, wanted, total), if Tokens(group) == 0 then |group| else Tokens(group);
      && 1 <= t <= |group|
      && (2 * (wanted * length) - 2 * (t * total) > total ==> t == |group|)
      && (2 * (t * total) - 2 * (wanted * length) > total ==> t == 1)
  {
    var length := Length(group);
    var share := Round((wanted * length) as real / total as real);
    Half(wanted * length, total, share);
    var t := TakeOf(group, wanted, total);
    Batches.Apart(t, share, total);
    Batches.Apart(share, t, total);
  }

  /** The passages a group gives are in even steps: the i-th of t stands at the place that i parts in t
      of the group come to, rounded down. */
  lemma SpacedIs(group: seq<Passage>, take: nat) returns (at: seq<nat>)
    requires 0 < take <= |group|
    ensures |at| == take && |Spaced(group, take)| == take && at[0] == 0
    ensures forall i :: 0 <= i < take ==> at[i] < |group| && Spaced(group, take)[i] == group[at[i]]
    ensures forall i :: 0 <= i < take ==> at[i] * take <= i * |group| < at[i] * take + take
  {
    at := seq(take, i requires 0 <= i < take => Position(i, |group|, take));
    forall i | 0 <= i < take ensures at[i] < |group| && at[i] * take <= i * |group| < at[i] * take + take {
      PositionIn(i, |group|, take);
      Batches.Quotient(i * |group|, take);
    }
    assert 0 * |group| == 0;
  }

  function Flat(parts: seq<seq<Passage>>): seq<Passage> {
    if parts == [] then [] else parts[0] + Flat(parts[1..])
  }

  lemma {:induction false} FlatAppend(parts: seq<seq<Passage>>, part: seq<Passage>)
    ensures Flat(parts + [part]) == Flat(parts) + part
  {
    if parts == [] {
      assert Flat([part][1..]) == [];
    } else {
      assert (parts + [part])[1..] == parts[1..] + [part];
      FlatAppend(parts[1..], part);
    }
  }

  lemma {:induction false} PickedInParts(ps: seq<Passage>, groups: seq<Group>, wanted: nat, total: nat) returns (parts: seq<seq<Passage>>)
    requires total > 0
    ensures |parts| == |groups| && PickAll(ps, groups, wanted, total) == Flat(parts)
    ensures forall i :: 0 <= i < |parts| ==> parts[i] == Spaced(Members(ps, groups[i]), TakeOf(Members(ps, groups[i]), wanted, total))
  {
    if groups == [] {
      parts := [];
    } else {
      var n := |groups| - 1;
      var before := PickedInParts(ps, groups[..n], wanted, total);
      var last := Spaced(Members(ps, groups[n]), TakeOf(Members(ps, groups[n]), wanted, total));
      parts := before + [last];
      FlatAppend(before, last);
    }
  }

  /** The sample of a material without repeats is what the groups give, the first group's first, as far
      as there is room. */
  lemma SampleIs(ps: seq<Passage>, wanted: nat) returns (parts: seq<seq<Passage>>)
    requires ps != [] && wanted > 0 && Differ(ps)
    ensures |parts| == |Groups(ps)|
    ensures forall i :: 0 <= i < |parts| ==> parts[i] == Spaced(Members(ps, Groups(ps)[i]), TakeOf(Members(ps, Groups(ps)[i]), wanted, Length(ps)))
    ensures Sample(ps, wanted) == if |Flat(parts)| <= wanted then Flat(parts) else Flat(parts)[..wanted]
  {
    hide PickAll, Sample, Members, Groups, Spaced, TakeOf;
    parts := PickedInParts(ps, Groups(ps), wanted, Length(ps));
    SampleIsCut(ps, wanted);
  }
}
