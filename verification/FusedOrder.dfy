/** What the merging of rankings promises: one entry for each chunk, in an order both lists
    agree on before one list's word. */
module FusedOrder {
  import opened Sorting
  import opened Fusing
  import opened Reals
  import opened Wrappers

  predicate NoRepeats(ranking: seq<Hit>) {
    forall i, j :: 0 <= i < j < |ranking| ==> ranking[i].chunk != ranking[j].chunk
  }

  predicate Lists(ranking: seq<Hit>, id: Id) { exists i :: 0 <= i < |ranking| && ranking[i].chunk == id }

  // ------------------------------------------------------------------- the union

  lemma {:induction false} IdsNoRepeats(ps: seq<Placed>)
    ensures forall i, j :: 0 <= i < j < |Ids(ps)| ==> Ids(ps)[i] != Ids(ps)[j]
    ensures forall id :: id in Ids(ps) <==> exists k :: 0 <= k < |ps| && ps[k].hit.chunk == id
  {
    if ps != [] {
      var rest, last := ps[..|ps| - 1], ps[|ps| - 1];
      IdsNoRepeats(rest);
      assert ps[|ps| - 1].hit.chunk == last.hit.chunk;
      forall id | id in Ids(rest) ensures exists k :: 0 <= k < |ps| && ps[k].hit.chunk == id {
        var k :| 0 <= k < |rest| && rest[k].hit.chunk == id;
        assert ps[k].hit.chunk == id;
      }
      forall k | 0 <= k < |ps| ensures ps[k].hit.chunk in Ids(ps) {
        if k < |rest| { assert rest[k].hit.chunk in Ids(rest); }
      }
    }
  }

  lemma {:induction false} FirstDistanceIs(hits: seq<Hit>)
    ensures FirstDistance(hits).Some? <==> exists k :: 0 <= k < |hits| && hits[k].distance.Some?
    ensures FirstDistance(hits).Some? ==>
      exists k :: 0 <= k < |hits| && hits[k].distance == FirstDistance(hits) && forall j :: 0 <= j < k ==> hits[j].distance.None?
  {
    if hits != [] {
      var rest, last := hits[..|hits| - 1], hits[|hits| - 1];
      FirstDistanceIs(rest);
      if FirstDistance(rest).Some? {
        var k :| 0 <= k < |rest| && rest[k].distance == FirstDistance(rest) && forall j :: 0 <= j < k ==> rest[j].distance.None?;
        assert hits[k].distance == FirstDistance(hits) && forall j :: 0 <= j < k ==> hits[j].distance == rest[j].distance;
      } else {
        assert forall j :: 0 <= j < |rest| ==> hits[j].distance == rest[j].distance;
        if last.distance.Some? { assert hits[|hits| - 1].distance == FirstDistance(hits); }
      }
    }
  }

  // The first of the hits seen, but for its distance, which is the first that any of them has.
  ghost predicate FirstOf(h: Hit, seen: seq<Hit>) {
    && seen != [] && h == seen[0].(distance := h.distance)
    && (h.distance.Some? <==> exists k :: 0 <= k < |seen| && seen[k].distance.Some?)
    && (h.distance.Some? ==>
          exists k :: 0 <= k < |seen| && seen[k].distance == h.distance && forall j :: 0 <= j < k ==> seen[j].distance.None?)
  }

  lemma KeptIsFirst(seen: seq<Hit>)
    requires seen != []
    ensures FirstOf(Kept(seen), seen)
  {
    FirstDistanceIs(seen);
  }

  lemma SameMembers(a: seq<Hit>, b: seq<Hit>)
    requires multiset(a) == multiset(b)
    ensures forall h :: h in b <==> h in a
  {
    forall h ensures h in b <==> h in a {
      assert h in b <==> h in multiset(b);
      assert h in a <==> h in multiset(a);
    }
  }

  lemma {:induction false} PlaceDiffers(s: seq<Hit>, x: Hit, key: Hit -> Key)
    requires NoRepeats(s) && forall y :: y in s ==> y.chunk != x.chunk
    ensures NoRepeats(Place(s, x, key))
  {
    if s != [] && Before(key(x), key(s[|s| - 1])) {
      var rest, last := s[..|s| - 1], s[|s| - 1];
      PlaceDiffers(rest, x, key);
      PlaceAdds(rest, x, key);
      var p := Place(rest, x, key);
      forall i | 0 <= i < |p| ensures p[i].chunk != last.chunk {
        assert p[i] in multiset(p);
        assert p[i] == x || p[i] in multiset(rest);
        if p[i] in multiset(rest) {
          var k :| 0 <= k < |rest| && rest[k] == p[i];
          assert s[k].chunk != s[|s| - 1].chunk;
        }
      }
    }
  }

  lemma {:induction false} SortDiffers(s: seq<Hit>, key: Hit -> Key)
    requires NoRepeats(s)
    ensures NoRepeats(Sort(s, key))
  {
    if s != [] {
      var rest, last := s[..|s| - 1], s[|s| - 1];
      SortDiffers(rest, key);
      Sorts(rest, key);
      SameMembers(rest, Sort(rest, key));
      PlaceDiffers(Sort(rest, key), last, key);
    }
  }

  lemma {:induction false} FusedOnce(rankings: seq<seq<Hit>>, h: Hit)
    ensures var ps := AllPlaced(rankings);
      h in Fused(rankings) <==> Seen(ps, h.chunk) != [] && h == Kept(Seen(ps, h.chunk))
    ensures NoRepeats(Fused(rankings))
  {
    hide Sort, Seen, Ids, Kept, RankKey;
    var ps := AllPlaced(rankings);
    var merged, ids := Merged(ps), Ids(ps);
    Sorts(merged, RankKey(ps));
    IdsNoRepeats(ps);
    forall i | 0 <= i < |ids| ensures merged[i].chunk == ids[i] && Seen(ps, ids[i]) != [] && merged[i] == Kept(Seen(ps, ids[i])) {
      SeenIff(ps, ids[i]);
      KeptChunk(Seen(ps, ids[i]));
    }
    SameMembers(merged, Fused(rankings));
    SortDiffers(merged, RankKey(ps));
    SeenIff(ps, h.chunk);
    if Seen(ps, h.chunk) != [] && h == Kept(Seen(ps, h.chunk)) {
      var i :| 0 <= i < |ids| && ids[i] == h.chunk;
      assert merged[i] == h;
    }
  }

  lemma OnlyOneFirst(g: Hit, h: Hit, seen: seq<Hit>)
    requires FirstOf(g, seen) && FirstOf(h, seen)
    ensures g == h
  {
    if h.distance.Some? {
      var j :| 0 <= j < |seen| && seen[j].distance == g.distance && forall i :: 0 <= i < j ==> seen[i].distance.None?;
      var k :| 0 <= k < |seen| && seen[k].distance == h.distance && forall i :: 0 <= i < k ==> seen[i].distance.None?;
      assert j == k;
    }
  }

  lemma {:induction false} SeenWhenPlaced(ps: seq<Placed>, id: Id)
    ensures Seen(ps, id) != [] <==> exists k :: 0 <= k < |ps| && ps[k].hit.chunk == id
  {
    IdsNoRepeats(ps);
    SeenIff(ps, id);
  }

  lemma {:induction false} SeenWhenNamed(rankings: seq<seq<Hit>>, id: Id)
    ensures Seen(AllPlaced(rankings), id) != [] <==> exists r :: 0 <= r < |rankings| && Lists(rankings[r], id)
  {
    hide Seen, Ids;
    var ps := AllPlaced(rankings);
    SeenWhenPlaced(ps, id);
    if rankings != [] {
      var n := |rankings| - 1;
      var before, mine := AllPlaced(rankings[..n]), PlacedOf(rankings[n]);
      SeenWhenNamed(rankings[..n], id);
      SeenWhenPlaced(before, id);
      if Lists(rankings[n], id) {
        var k :| 0 <= k < |rankings[n]| && rankings[n][k].chunk == id;
        assert ps[|before| + k].hit.chunk == id;
      }
      if k :| 0 <= k < |before| && before[k].hit.chunk == id {
        assert ps[k].hit.chunk == id;
      }
      if k :| 0 <= k < |ps| && ps[k].hit.chunk == id {
        assert if k < |before| then before[k].hit.chunk == id else rankings[n][k - |before|].chunk == id;
      }
      assert forall r :: 0 <= r < n ==> rankings[..n][r] == rankings[r];
    }
  }

  /** Fusing lists every chunk of any ranking and no other, each exactly once: its first hit, with
      the first distance any of its hits carries, if one does. */
  lemma {:induction false} FusedIsUnion(rankings: seq<seq<Hit>>, h: Hit)
    ensures h in Fused(rankings) <==> FirstOf(h, Seen(AllPlaced(rankings), h.chunk))
    ensures (exists g :: g in Fused(rankings) && g.chunk == h.chunk) <==> exists r :: 0 <= r < |rankings| && Lists(rankings[r], h.chunk)
    ensures NoRepeats(Fused(rankings))
  {
    hide Fused, Seen, Kept, FirstOf, Lists, NoRepeats;
    var seen := Seen(AllPlaced(rankings), h.chunk);
    FusedOnce(rankings, h);
    SeenWhenNamed(rankings, h.chunk);
    if seen != [] {
      KeptIsFirst(seen);
      KeptChunk(seen);
      SeenIff(AllPlaced(rankings), h.chunk);
      FusedOnce(rankings, Kept(seen));
      assert Kept(seen).chunk == h.chunk;
      if FirstOf(h, seen) { OnlyOneFirst(h, Kept(seen), seen); }
    } else {
      NoneFirst(h);
      forall g | g in Fused(rankings) ensures g.chunk != h.chunk { FusedOnce(rankings, g); }
    }
  }

  lemma NoneFirst(h: Hit)
    ensures !FirstOf(h, [])
  {
  }

  lemma KeptChunk(seen: seq<Hit>)
    requires seen != []
    ensures Kept(seen).chunk == seen[0].chunk
  {
  }

  lemma {:induction false} IndexesNoRepeats(ids: seq<Id>, a: Id, b: Id)
    requires a in ids && b in ids && a != b
    ensures IndexOf(ids, a) != IndexOf(ids, b)
  {
    if ids[0] != a && ids[0] != b { IndexesNoRepeats(ids[1..], a, b); }
  }

  /** The result runs from the highest score down, and chunks that score the same keep the order
      in which the lists first named them. */
  lemma {:induction false} FusedByScore(rankings: seq<seq<Hit>>, i: nat, j: nat)
    requires i < j < |Fused(rankings)|
    ensures var ps, r := AllPlaced(rankings), Fused(rankings);
      || Score(ps, r[i].chunk) > Score(ps, r[j].chunk)
      || (Score(ps, r[i].chunk) == Score(ps, r[j].chunk) && IndexOf(Ids(ps), r[i].chunk) < IndexOf(Ids(ps), r[j].chunk))
  {
    hide Sort, Score, Ids, Seen, IndexOf;
    var ps, r := AllPlaced(rankings), Fused(rankings);
    Sorts(Merged(ps), RankKey(ps));
    FusedOnce(rankings, r[i]);
    FusedOnce(rankings, r[j]);
    assert r[i] in r && r[j] in r;
    SeenIff(ps, r[i].chunk);
    SeenIff(ps, r[j].chunk);
    IndexesNoRepeats(Ids(ps), r[i].chunk, r[j].chunk);
    assert !Before(RankKey(ps)(r[j]), RankKey(ps)(r[i]));
  }

  // --------------------------------------------------------------- two rankings

  // What a ranking gives a chunk: its place's share, or nothing.
  function PlaceShare(ranking: seq<Hit>, id: Id): real {
    if ranking == [] then 0.0
    else if ranking[|ranking| - 1].chunk == id then Share(|ranking| - 1)
    else PlaceShare(ranking[..|ranking| - 1], id)
  }

  lemma {:induction false} ScoreAdds(a: seq<Placed>, b: seq<Placed>, id: Id)
    ensures Score(a + b, id) == Score(a, id) + Score(b, id)
  {
    hide Share;
    if b == [] {
      assert a + b == a;
    } else {
      var rest := b[..|b| - 1];
      ScoreAdds(a, rest, id);
      assert (a + b)[..|a + b| - 1] == a + rest;
    }
  }

  lemma {:induction false} ScoreOfOne(ranking: seq<Hit>, id: Id)
    requires NoRepeats(ranking)
    ensures Score(PlacedOf(ranking), id) == PlaceShare(ranking, id)
    ensures !Lists(ranking, id) ==> PlaceShare(ranking, id) == 0.0
    ensures forall p :: 0 <= p < |ranking| && ranking[p].chunk == id ==> PlaceShare(ranking, id) == Share(p)
  {
    hide Share;
    if ranking != [] {
      var rest, last := ranking[..|ranking| - 1], ranking[|ranking| - 1];
      ScoreOfOne(rest, id);
      assert PlacedOf(ranking)[..|rest|] == PlacedOf(rest);
      if last.chunk == id {
        assert ranking[|rest|].chunk == id && forall i :: 0 <= i < |rest| ==> rest[i].chunk == ranking[i].chunk;
        assert !Lists(rest, id);
      } else if Lists(rest, id) {
        var i :| 0 <= i < |rest| && rest[i].chunk == id;
        assert ranking[i].chunk == id;
      }
    }
  }

  lemma TwoPlaced(a: seq<Hit>, b: seq<Hit>)
    ensures AllPlaced([a, b]) == PlacedOf(a) + PlacedOf(b)
  {
    assert [a, b][..1] == [a] && [a][..0] == [];
    assert AllPlaced([a]) == AllPlaced([]) + PlacedOf(a) == PlacedOf(a);
    assert AllPlaced([a, b]) == AllPlaced([a]) + PlacedOf(b);
  }

  lemma {:induction false} TwoScores(a: seq<Hit>, b: seq<Hit>, id: Id)
    requires NoRepeats(a) && NoRepeats(b)
    ensures Score(AllPlaced([a, b]), id) == PlaceShare(a, id) + PlaceShare(b, id)
  {
    TwoPlaced(a, b);
    ScoreAdds(PlacedOf(a), PlacedOf(b), id);
    ScoreOfOne(a, id);
    ScoreOfOne(b, id);
  }

  lemma Fractions(x: real, y: real)
    requires 0.0 < x <= y
    ensures 0.0 < 1.0 / y <= 1.0 / x
  {
    var u, v := 1.0 / x, 1.0 / y;
    assert u * x == 1.0 && v * y == 1.0;
    Signs(v, y);
    assert v > 0.0;
    Signs(v, y - x);
    assert v * x <= 1.0;
    Signs(u - v, x);
    assert (u - v) * x == u * x - v * x;
  }

  lemma ShareFalls(p: nat, q: nat)
    requires p <= q
    ensures 0.0 < Share(q) <= Share(p)
  {
    Fractions((RRF_K + p + 1) as real, (RRF_K + q + 1) as real);
  }

  // Two last places, of lists of n and m, are worth more than one first place: 1 / (60 + n) and
  // 1 / (60 + m) come to more than 1 / 61.
  predicate Outweighs(n: nat, m: nat) { n > 0 && m > 0 ==> (n + m + 120) * 61 > (n + 60) * (m + 60) }

  lemma OutweighsIff(n: nat, m: nat)
    requires n > 0 && m > 0
    ensures Outweighs(n, m) <==> Share(n - 1) + Share(m - 1) > Share(0)
  {
    Positive(60 + n, 60 + m);
    RealProduct(60 + n, 60 + m);
    UnitsAdd((60 + n) as real, (60 + m) as real);
    FractionsCompare(n + m + 120, (60 + n) * (60 + m), 1, 61);
  }

  // The chunks both lists have come before those only one has.
  ghost predicate AgreedFirst(a: seq<Hit>, b: seq<Hit>) {
    var r := Fused([a, b]);
    forall i, j :: 0 <= i < |r| && 0 <= j < |r| && Lists(a, r[i].chunk) && Lists(b, r[i].chunk) && !(Lists(a, r[j].chunk) && Lists(b, r[j].chunk)) ==> i < j
  }

  lemma {:induction false} BothScores(a: seq<Hit>, b: seq<Hit>, id: Id)
    requires NoRepeats(a) && NoRepeats(b) && Lists(a, id) && Lists(b, id)
    ensures Score(AllPlaced([a, b]), id) >= Share(|a| - 1) + Share(|b| - 1) && |a| > 0 && |b| > 0
  {
    TwoScores(a, b, id);
    ScoreOfOne(a, id);
    ScoreOfOne(b, id);
    var i :| 0 <= i < |a| && a[i].chunk == id;
    var j :| 0 <= j < |b| && b[j].chunk == id;
    ShareFalls(i, |a| - 1);
    ShareFalls(j, |b| - 1);
  }

  lemma {:induction false} OneScores(a: seq<Hit>, b: seq<Hit>, id: Id)
    requires NoRepeats(a) && NoRepeats(b) && !(Lists(a, id) && Lists(b, id))
    ensures Score(AllPlaced([a, b]), id) <= Share(0)
  {
    hide Share;
    TwoScores(a, b, id);
    ScoreOfOne(a, id);
    ScoreOfOne(b, id);
    if Lists(a, id) {
      var i :| 0 <= i < |a| && a[i].chunk == id;
      ShareFalls(0, i);
    } else if Lists(b, id) {
      var i :| 0 <= i < |b| && b[i].chunk == id;
      ShareFalls(0, i);
    } else {
      ShareFalls(0, 0);
    }
  }

  lemma AgreedComeFirst(a: seq<Hit>, b: seq<Hit>)
    requires NoRepeats(a) && NoRepeats(b) && Outweighs(|a|, |b|)
    ensures AgreedFirst(a, b)
  {
    hide Share, Sort, Score, Lists;
    var ps, r := AllPlaced([a, b]), Fused([a, b]);
    Sorts(Merged(ps), RankKey(ps));
    forall i, j | 0 <= i < |r| && 0 <= j < |r| && Lists(a, r[i].chunk) && Lists(b, r[i].chunk) && !(Lists(a, r[j].chunk) && Lists(b, r[j].chunk))
      ensures i < j
    {
      BothScores(a, b, r[i].chunk);
      OutweighsIff(|a|, |b|);
      OneScores(a, b, r[j].chunk);
      assert Score(ps, r[i].chunk) > Score(ps, r[j].chunk);
      assert Before(RankKey(ps)(r[i]), RankKey(ps)(r[j]));
    }
  }

  // ------------------------------------------------------------------ how far it goes

  function Filler(id: Id): Hit { Hit(id, 0, "", None, "", None) }

  function Run(n: nat, from: nat): (r: seq<Hit>)
    ensures |r| == n && forall k :: 0 <= k < n ==> r[k].chunk == from + k
  {
    if n == 0 then [] else Run(n - 1, from) + [Filler(from + n - 1)]
  }

  // n chunks of which chunk 0 comes last, the others numbered from `from`.
  function ZeroLast(n: nat, from: nat): (r: seq<Hit>)
    requires n > 0 && from > 0
    ensures |r| == n && NoRepeats(r) && r[n - 1].chunk == 0
    ensures forall k :: 0 <= k < n - 1 ==> r[k].chunk == from + k
  {
    Run(n - 1, from) + [Filler(0)]
  }

  lemma {:induction false} FirstIsFirst(ps: seq<Placed>)
    requires ps != []
    ensures Ids(ps) != [] && Ids(ps)[0] == ps[0].hit.chunk
  {
    if |ps| > 1 {
      FirstIsFirst(ps[..|ps| - 1]);
    } else {
      assert ps[..0] == [];
    }
  }

  // Where two last places are worth no more than a first place, a chunk of both lists can come
  // after one of a single list.
  lemma AgreedCanComeLater(n: nat, m: nat) returns (a: seq<Hit>, b: seq<Hit>)
    requires n > 1 && m > 1 && Share(n - 1) + Share(m - 1) <= Share(0)
    ensures |a| == n && |b| == m && NoRepeats(a) && NoRepeats(b) && !AgreedFirst(a, b)
  {
    hide Share, Sort, Score;
    a, b := ZeroLast(n, 1), ZeroLast(m, n);
    var ps, r := AllPlaced([a, b]), Fused([a, b]);
    var both, one := a[n - 1].chunk, a[0].chunk;
    assert Lists(a, both) && Lists(b, both) by { assert b[m - 1].chunk == both; }
    assert Lists(a, one) && !Lists(b, one);
    TwoScores(a, b, both);
    TwoScores(a, b, one);
    ScoreOfOne(a, both);
    ScoreOfOne(b, both);
    ScoreOfOne(a, one);
    ScoreOfOne(b, one);
    assert Score(ps, both) == Share(n - 1) + Share(m - 1) && Score(ps, one) == Share(0);
    var i := PlaceIn(a, b, both);
    var j := PlaceIn(a, b, one);
    LeadsAll(a, b);
    assert Before(RankKey(ps)(r[j]), RankKey(ps)(r[i]));
    Sorts(Merged(ps), RankKey(ps));
    assert !(i < j);
    assert r[i].chunk != r[j].chunk;
  }

  // Every chunk of either list has a place in the result.
  lemma PlaceIn(a: seq<Hit>, b: seq<Hit>, id: Id) returns (i: nat)
    requires Lists(a, id)
    ensures i < |Fused([a, b])| && Fused([a, b])[i].chunk == id
  {
    hide Sort, Score, Share, Seen, Kept;
    var ps := AllPlaced([a, b]);
    EitherSeen(a, b, id);
    SeenIff(ps, id);
    var h := Kept(Seen(ps, id));
    KeptChunk(Seen(ps, id));
    FusedOnce([a, b], h);
    i :| 0 <= i < |Fused([a, b])| && Fused([a, b])[i] == h;
  }

  lemma {:induction false} EitherSeen(a: seq<Hit>, b: seq<Hit>, id: Id)
    requires Lists(a, id)
    ensures Seen(AllPlaced([a, b]), id) != []
  {
    hide Seen, Ids;
    var ps := AllPlaced([a, b]);
    TwoPlaced(a, b);
    var k :| 0 <= k < |a| && a[k].chunk == id;
    assert ps[k].hit.chunk == id;
    IdsNoRepeats(ps);
    SeenIff(ps, id);
  }

  // The first chunk of the first list arrived before every other.
  lemma LeadsAll(a: seq<Hit>, b: seq<Hit>)
    requires a != []
    ensures forall id :: id in Ids(AllPlaced([a, b])) && id != a[0].chunk ==> IndexOf(Ids(AllPlaced([a, b])), id) > IndexOf(Ids(AllPlaced([a, b])), a[0].chunk)
    ensures forall id :: Lists(a, id) ==> id in Ids(AllPlaced([a, b]))
  {
    hide Ids;
    var ps := AllPlaced([a, b]);
    TwoPlaced(a, b);
    assert ps[0].hit == a[0];
    FirstIsFirst(ps);
    forall id | Lists(a, id) ensures id in Ids(ps) {
      EitherSeen(a, b, id);
      SeenIff(ps, id);
    }
  }

  /** For lists of n and m chunks with no repeats: whatever they hold, the chunks both have come
      before the chunks one has, exactly when two last places are worth more than one first. */
  lemma AgreementWinsIff(n: nat, m: nat)
    ensures (forall a, b | |a| == n && |b| == m && NoRepeats(a) && NoRepeats(b) :: AgreedFirst(a, b)) <==> Outweighs(n, m)
  {
    hide AgreedFirst, NoRepeats;
    if Outweighs(n, m) {
      forall a, b | |a| == n && |b| == m && NoRepeats(a) && NoRepeats(b) ensures AgreedFirst(a, b) {
        AgreedComeFirst(a, b);
      }
    } else {
      ShareFalls(0, n - 1);
      ShareFalls(0, m - 1);
      OutweighsIff(n, m);
      assert n > 1 && m > 1;
      var a, b := AgreedCanComeLater(n, m);
    }
  }

  /** Lists of up to 61 are short enough; two lists of 62 are not. */
  lemma SixtyOneIsTheLimit(n: nat, m: nat)
    ensures n <= 61 && m <= 61 ==> Outweighs(n, m)
    ensures !Outweighs(62, 62)
  {
    if 0 < n <= 61 && 0 < m <= 61 {
      ShareFalls(n - 1, 60);
      ShareFalls(m - 1, 60);
    }
  }
}
