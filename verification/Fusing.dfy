/** Merging ranked hit lists: `fuse` in `rag/rank.py`. */
module Fusing {
  import opened Sorting
  import opened Wrappers

  type Id = nat

  // A retrieved passage. `page` and `distance` are missing from some.
  datatype Hit = Hit(chunk: Id, book: Id, title: string, page: Option<int>, text: string, distance: Option<real>)

  const RRF_K: nat := 60

  // What a place in a ranking is worth.
  function Share(position: nat): real { 1.0 / ((RRF_K + position + 1) as real) }

  datatype Placed = Placed(position: nat, hit: Hit)

  function PlacedOf(ranking: seq<Hit>): (r: seq<Placed>)
    ensures |r| == |ranking|
  {
    seq(|ranking|, i requires 0 <= i < |ranking| => Placed(i, ranking[i]))
  }

  // Every hit with its place, in the order the lists are read.
  function AllPlaced(rankings: seq<seq<Hit>>): seq<Placed> {
    if rankings == [] then [] else AllPlaced(rankings[..|rankings| - 1]) + PlacedOf(rankings[|rankings| - 1])
  }

  function Score(ps: seq<Placed>, id: Id): real {
    if ps == [] then 0.0
    else Score(ps[..|ps| - 1], id) + if ps[|ps| - 1].hit.chunk == id then Share(ps[|ps| - 1].position) else 0.0
  }

  // Each chunk once, by first arrival.
  function Ids(ps: seq<Placed>): seq<Id> {
    if ps == [] then []
    else
      var before := Ids(ps[..|ps| - 1]);
      if ps[|ps| - 1].hit.chunk in before then before else before + [ps[|ps| - 1].hit.chunk]
  }

  function IndexOf(ids: seq<Id>, id: Id): (k: nat)
    ensures id in ids ==> k < |ids| && ids[k] == id
  {
    if ids == [] || ids[0] == id then 0 else 1 + IndexOf(ids[1..], id)
  }

  // The hits of one chunk, in order.
  function Seen(ps: seq<Placed>, id: Id): seq<Hit> {
    if ps == [] then []
    else Seen(ps[..|ps| - 1], id) + if ps[|ps| - 1].hit.chunk == id then [ps[|ps| - 1].hit] else []
  }

  function FirstDistance(hits: seq<Hit>): Option<real> {
    if hits == [] then None
    else if FirstDistance(hits[..|hits| - 1]).Some? then FirstDistance(hits[..|hits| - 1])
    else hits[|hits| - 1].distance
  }

  // The hit kept for a chunk: its first, with the first distance any of its hits has.
  function Kept(seen: seq<Hit>): Hit
    requires seen != []
  {
    seen[0].(distance := FirstDistance(seen))
  }

  lemma {:induction false} SeenIff(ps: seq<Placed>, id: Id)
    ensures id in Ids(ps) <==> Seen(ps, id) != []
    ensures forall k :: 0 <= k < |Seen(ps, id)| ==> Seen(ps, id)[k].chunk == id
  {
    if ps != [] { SeenIff(ps[..|ps| - 1], id); }
  }

  function Merged(ps: seq<Placed>): (r: seq<Hit>)
    ensures |r| == |Ids(ps)|
  {
    seq(|Ids(ps)|, i requires 0 <= i < |Ids(ps)| => SeenIff(ps, Ids(ps)[i]); Kept(Seen(ps, Ids(ps)[i])))
  }

  // Highest score first, then first arrival.
  function RankKey(ps: seq<Placed>): Hit -> Key {
    (h: Hit) => Key(-Score(ps, h.chunk), IndexOf(Ids(ps), h.chunk))
  }

  function Fused(rankings: seq<seq<Hit>>): seq<Hit> {
    Sort(Merged(AllPlaced(rankings)), RankKey(AllPlaced(rankings)))
  }

  // ------------------------------------------------------------------- the loops

  ghost predicate Scored(ps: seq<Placed>, scores: map<Id, real>, arrival: map<Id, nat>) {
    && (forall id :: id in Ids(ps) <==> id in scores) && arrival.Keys == scores.Keys
    && (forall id :: id in scores ==> scores[id] == Score(ps, id) && arrival[id] == IndexOf(Ids(ps), id))
  }

  ghost predicate Holding(ps: seq<Placed>, merged: map<Id, Hit>) {
    && (forall id :: id in Ids(ps) <==> id in merged)
    && (forall id :: id in merged ==> Seen(ps, id) != [] && merged[id] == Kept(Seen(ps, id)))
  }

  // What the three dictionaries hold once the hits of ps are read.
  ghost predicate Tallied(ps: seq<Placed>, scores: map<Id, real>, merged: map<Id, Hit>, arrival: map<Id, nat>, ids: seq<Id>) {
    ids == Ids(ps) && Scored(ps, scores, arrival) && Holding(ps, merged)
  }

  lemma {:induction false} UnseenScoresNothing(ps: seq<Placed>, id: Id)
    requires id !in Ids(ps)
    ensures Score(ps, id) == 0.0
  {
    if ps != [] { UnseenScoresNothing(ps[..|ps| - 1], id); }
  }

  lemma {:induction false} IndexKept(ids: seq<Id>, id: Id, x: Id)
    ensures id in ids ==> IndexOf(ids + [x], id) == IndexOf(ids, id)
    ensures id !in ids ==> IndexOf(ids, id) == |ids| && IndexOf(ids + [id], id) == |ids|
  {
    if ids != [] && ids[0] != id {
      assert (ids + [x])[1..] == ids[1..] + [x] && (ids + [id])[1..] == ids[1..] + [id];
      IndexKept(ids[1..], id, x);
    }
  }

  // One hit on, for one chunk.
  lemma {:induction false} Next(ps: seq<Placed>, p: Placed, id: Id)
    ensures Score(ps + [p], id) == Score(ps, id) + (if p.hit.chunk == id then Share(p.position) else 0.0)
    ensures Seen(ps + [p], id) == if p.hit.chunk == id then Seen(ps, id) + [p.hit] else Seen(ps, id)
    ensures Ids(ps + [p]) == if p.hit.chunk in Ids(ps) then Ids(ps) else Ids(ps) + [p.hit.chunk]
  {
    assert (ps + [p])[..|ps|] == ps;
  }

  lemma KeptNext(seen: seq<Hit>, h: Hit)
    requires seen != []
    ensures Kept(seen + [h]) == if Kept(seen).distance.None? && h.distance.Some? then Kept(seen).(distance := h.distance) else Kept(seen)
  {
    assert (seen + [h])[..|seen|] == seen;
  }

  lemma KeptOne(h: Hit)
    ensures Kept([h]) == h
  {
    assert [h][..0] == [];
    assert FirstDistance([h][..0]) == None;
    assert FirstDistance([h]) == h.distance;
  }

  lemma {:induction false} ScoredNext(ps: seq<Placed>, p: Placed, scores: map<Id, real>, arrival: map<Id, nat>)
    requires Scored(ps, scores, arrival)
    ensures var id := p.hit.chunk;
      Scored(ps + [p], scores[id := (if id in scores then scores[id] else 0.0) + Share(p.position)],
             if id in scores then arrival else arrival[id := |Ids(ps)|])
  {
    hide Share, Score, Seen, Ids, IndexOf;
    var key := p.hit.chunk;
    Next(ps, p, key);
    forall id | id in scores || id == key
      ensures Score(ps + [p], id) == (if id in scores then scores[id] else 0.0) + (if id == key then Share(p.position) else 0.0)
      ensures IndexOf(Ids(ps + [p]), id) == if id in scores then arrival[id] else |Ids(ps)|
    {
      Next(ps, p, id);
      IndexKept(Ids(ps), id, key);
      if id !in scores { UnseenScoresNothing(ps, id); }
    }
  }

  lemma HoldingNext(ps: seq<Placed>, p: Placed, merged: map<Id, Hit>)
    requires Holding(ps, merged)
    ensures var id := p.hit.chunk;
      Holding(ps + [p], if id !in merged then merged[id := p.hit]
                        else if merged[id].distance.None? && p.hit.distance.Some? then merged[id := merged[id].(distance := p.hit.distance)]
                        else merged)
  {
    hide Score, Seen, Ids, IndexOf, Kept;
    var key := p.hit.chunk;
    Next(ps, p, key);
    SeenIff(ps, key);
    if key !in merged {
      assert Seen(ps + [p], key) == [p.hit];
      KeptOne(p.hit);
    } else {
      KeptNext(Seen(ps, key), p.hit);
    }
    forall id | id in merged && id != key ensures Seen(ps + [p], id) == Seen(ps, id) { Next(ps, p, id); }
  }

  lemma {:induction false} SameKeys(ps: seq<Placed>, key: Id, scores: map<Id, real>, merged: map<Id, Hit>, arrival: map<Id, nat>)
    requires Scored(ps, scores, arrival) && Holding(ps, merged)
    ensures key in merged <==> key in Ids(ps)
    ensures key in scores <==> key in Ids(ps)
  {
    hide Ids, Score, Seen, Kept, IndexOf;
  }

  method Count(ghost ps: seq<Placed>, position: nat, hit: Hit, scores0: map<Id, real>, merged0: map<Id, Hit>, arrival0: map<Id, nat>, ids0: seq<Id>)
    returns (scores: map<Id, real>, merged: map<Id, Hit>, arrival: map<Id, nat>, ids: seq<Id>)
    requires Tallied(ps, scores0, merged0, arrival0, ids0)
    ensures Tallied(ps + [Placed(position, hit)], scores, merged, arrival, ids)
  {
    hide Share, Scored, Holding, Ids, Seen, Score, IndexOf, Kept;
    scores, merged, arrival, ids := scores0, merged0, arrival0, ids0;
    var key := hit.chunk;
    ScoredNext(ps, Placed(position, hit), scores0, arrival0);
    HoldingNext(ps, Placed(position, hit), merged0);
    Next(ps, Placed(position, hit), key);
    SameKeys(ps, key, scores0, merged0, arrival0);
    scores := scores[key := (if key in scores then scores[key] else 0.0) + Share(position)];
    if key !in merged {
      merged := merged[key := hit];
      arrival := arrival[key := |ids|];
      ids := ids + [key];
    } else if merged[key].distance.None? && hit.distance.Some? {
      merged := merged[key := merged[key].(distance := hit.distance)];
    }
  }

  lemma TalliedNone()
    ensures Tallied([], map[], map[], map[], [])
  {
  }

  method Fuse(rankings: seq<seq<Hit>>) returns (r: seq<Hit>)
    ensures r == Fused(rankings)
  {
    hide Tallied, Merged;
    var scores: map<Id, real>, merged: map<Id, Hit>, arrival: map<Id, nat> := map[], map[], map[];
    var ids: seq<Id> := [];
    TalliedNone();
    for n := 0 to |rankings|
      invariant Tallied(AllPlaced(rankings[..n]), scores, merged, arrival, ids)
    {
      var ranking := rankings[n];
      ghost var before := AllPlaced(rankings[..n]);
      assert rankings[..n + 1][..n] == rankings[..n];
      assert before + PlacedOf(ranking)[..0] == before;
      for position := 0 to |ranking|
        invariant Tallied(before + PlacedOf(ranking)[..position], scores, merged, arrival, ids)
      {
        assert before + PlacedOf(ranking)[..position + 1] == before + PlacedOf(ranking)[..position] + [Placed(position, ranking[position])];
        scores, merged, arrival, ids := Count(before + PlacedOf(ranking)[..position], position, ranking[position], scores, merged, arrival, ids);
      }
      assert PlacedOf(ranking)[..|ranking|] == PlacedOf(ranking);
    }
    assert rankings[..|rankings|] == rankings;
    r := Arrange(AllPlaced(rankings), scores, merged, arrival, ids);
  }

  // The last step of `fuse`: the merged hits, sorted by score and arrival.
  method Arrange(ghost ps: seq<Placed>, scores: map<Id, real>, merged: map<Id, Hit>, arrival: map<Id, nat>, ids: seq<Id>) returns (r: seq<Hit>)
    requires Tallied(ps, scores, merged, arrival, ids)
    ensures r == Sort(Merged(ps), RankKey(ps))
  {
    hide Score, Seen, Ids, IndexOf, Sort;
    var values := seq(|ids|, i requires 0 <= i < |ids| && ids[i] in merged => merged[ids[i]]);
    var key := (h: Hit) => if h.chunk in scores && h.chunk in arrival then Key(-scores[h.chunk], arrival[h.chunk]) else Key(0.0, 0);
    assert values == Merged(ps);
    forall h | h in values ensures key(h) == RankKey(ps)(h) {
      var i :| 0 <= i < |ids| && values[i] == h;
      SeenIff(ps, ids[i]);
      assert h.chunk == ids[i];
    }
    SortSame(values, key, RankKey(ps));
    r := Sort(values, key);
  }
}
