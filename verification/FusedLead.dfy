/** Which of two chunks a merging of two rankings puts first, told by their places alone. */
module FusedLead {
  import opened Sorting
  import opened Fusing
  import opened FusedOrder
  import opened Reals
  import opened Wrappers

  // Where a ranking has a chunk.
  ghost predicate HasAt(ranking: seq<Hit>, id: Id, place: Option<nat>) {
    match place
    case None => forall i :: 0 <= i < |ranking| ==> ranking[i].chunk != id
    case Some(i) => i < |ranking| && ranking[i].chunk == id
  }

  // What two places are worth together, over what it is divided by: a place i counts for one
  // part in 61 + i.
  function Over(i: Option<nat>, j: Option<nat>): nat {
    match (i, j)
    case (Some(i), Some(j)) => i + j + 122
    case (None, None) => 0
    case _ => 1
  }

  function Under(i: Option<nat>, j: Option<nat>): (n: nat)
    ensures n > 0
  {
    var x, y := if i.Some? then 61 + i.value else 1, if j.Some? then 61 + j.value else 1;
    Positive(x, y);
    x * y
  }

  // Which of two chunks the lists named first: the first list is read before the second.
  predicate NamedFirst(i: Option<nat>, j: Option<nat>, k: Option<nat>, l: Option<nat>) {
    if i.Some? then k.None? || i.value < k.value
    else k.None? && j.Some? && l.Some? && j.value < l.value
  }

  // --------------------------------------------------------------- scores as fractions

  lemma ShareIs(i: nat)
    ensures Share(i) == 1.0 / (61 + i) as real
  {
  }

  lemma {:induction false} PlaceShareIs(ranking: seq<Hit>, id: Id, place: Option<nat>)
    requires NoRepeats(ranking) && HasAt(ranking, id, place)
    ensures PlaceShare(ranking, id) == if place.Some? then 1.0 / (61 + place.value) as real else 0.0
  {
    ScoreOfOne(ranking, id);
    if place.Some? { ShareIs(place.value); }
  }

  lemma {:induction false} ScoreIs(a: seq<Hit>, b: seq<Hit>, id: Id, i: Option<nat>, j: Option<nat>)
    requires NoRepeats(a) && NoRepeats(b) && HasAt(a, id, i) && HasAt(b, id, j)
    ensures Score(AllPlaced([a, b]), id) == Over(i, j) as real / Under(i, j) as real
  {
    hide Score, NoRepeats, HasAt, PlaceShare;
    TwoScores(a, b, id);
    PlaceShareIs(a, id, i);
    PlaceShareIs(b, id, j);
    match (i, j)
    case (Some(x), Some(y)) =>
      UnitsAdd((61 + x) as real, (61 + y) as real);
      RealProduct(61 + x, 61 + y);
    case _ =>
  }

  // -------------------------------------------------------------------- arrival

  // Where the lists first name a chunk.
  function FirstAt(ps: seq<Placed>, id: Id): (k: nat)
    ensures k <= |ps|
    ensures k < |ps| ==> ps[k].hit.chunk == id
    ensures forall m :: 0 <= m < k ==> ps[m].hit.chunk != id
  {
    if ps == [] || ps[0].hit.chunk == id then 0 else 1 + FirstAt(ps[1..], id)
  }

  lemma {:induction false} FirstAtIs(ps: seq<Placed>, id: Id, k: nat)
    requires k < |ps| && ps[k].hit.chunk == id && forall m :: 0 <= m < k ==> ps[m].hit.chunk != id
    ensures FirstAt(ps, id) == k
  {
  }

  lemma {:induction false} ArrivalIs(ps: seq<Placed>, x: Id, y: Id)
    requires x in Ids(ps) && y in Ids(ps) && x != y
    ensures IndexOf(Ids(ps), x) < IndexOf(Ids(ps), y) <==> FirstAt(ps, x) < FirstAt(ps, y)
  {
    hide FirstAt, IndexOf;
    var n := |ps| - 1;
    var rest, last := ps[..n], ps[n];
    IdsNoRepeats(rest);
    FirstAtBefore(ps, x);
    FirstAtBefore(ps, y);
    IndexKept(Ids(rest), x, last.hit.chunk);
    IndexKept(Ids(rest), y, last.hit.chunk);
    if x in Ids(rest) && y in Ids(rest) { ArrivalIs(rest, x, y); }
  }

  lemma FirstAtBefore(ps: seq<Placed>, id: Id)
    requires ps != [] && id in Ids(ps)
    ensures var rest := ps[..|ps| - 1];
      if id in Ids(rest) then FirstAt(ps, id) == FirstAt(rest, id) < |rest| else FirstAt(ps, id) == |rest|
  {
    hide Ids;
    var rest := ps[..|ps| - 1];
    IdsNoRepeats(ps);
    IdsNoRepeats(rest);
    var k := FirstAt(ps, id);
    if id in Ids(rest) {
      var m :| 0 <= m < |rest| && rest[m].hit.chunk == id;
      assert ps[m].hit.chunk == id;
      FirstAtIs(rest, id, k);
    }
  }

  lemma {:induction false} ArrivesFirst(a: seq<Hit>, b: seq<Hit>, x: Id, y: Id, i: Option<nat>, j: Option<nat>, k: Option<nat>, l: Option<nat>)
    requires NoRepeats(a) && NoRepeats(b) && x != y && (i.Some? || j.Some?) && (k.Some? || l.Some?)
    requires HasAt(a, x, i) && HasAt(b, x, j) && HasAt(a, y, k) && HasAt(b, y, l)
    ensures var ids := Ids(AllPlaced([a, b]));
      x in ids && y in ids && (IndexOf(ids, x) < IndexOf(ids, y) <==> NamedFirst(i, j, k, l))
  {
    hide Ids, IndexOf, FirstAt, AllPlaced, NoRepeats, HasAt, NamedFirst;
    var ps := AllPlaced([a, b]);
    IdsNoRepeats(ps);
    NamedAt(a, b, x, i, j);
    NamedAt(a, b, y, k, l);
    ArrivalIs(ps, x, y);
    FirstOfTwo(a, b, x, y, i, j, k, l);
  }

  lemma {:induction false} NamedAt(a: seq<Hit>, b: seq<Hit>, x: Id, i: Option<nat>, j: Option<nat>)
    requires NoRepeats(a) && NoRepeats(b) && HasAt(a, x, i) && HasAt(b, x, j) && (i.Some? || j.Some?)
    ensures var ps := AllPlaced([a, b]);
      var k := if i.Some? then i.value else |a| + j.value;
      k < |ps| && ps[k].hit.chunk == x && FirstAt(ps, x) == k
  {
    hide FirstAt;
    TwoPlaced(a, b);
    var ps := AllPlaced([a, b]);
    var k := if i.Some? then i.value else |a| + j.value;
    assert forall m :: 0 <= m < |a| ==> ps[m].hit == a[m];
    assert forall m :: |a| <= m < |a| + |b| ==> ps[m].hit == b[m - |a|];
    FirstAtIs(ps, x, k);
  }

  lemma FirstOfTwo(a: seq<Hit>, b: seq<Hit>, x: Id, y: Id, i: Option<nat>, j: Option<nat>, k: Option<nat>, l: Option<nat>)
    requires x != y && (i.Some? || j.Some?) && (k.Some? || l.Some?)
    requires HasAt(a, x, i) && HasAt(b, x, j) && HasAt(a, y, k) && HasAt(b, y, l)
    ensures NamedFirst(i, j, k, l) <==> (if i.Some? then i.value else |a| + j.value) < (if k.Some? then k.value else |a| + l.value)
  {
  }

  // ---------------------------------------------------------------------- the order

  /** Of two chunks in a merging of two lists without repeats, the one with more behind it comes first:
      in both lists at i and j a chunk has (i + j + 122) / ((61 + i)(61 + j)), and in one at i it has
      1 / (61 + i). Chunks with as much come in the order the lists named them. */
  lemma LeadsIff(a: seq<Hit>, b: seq<Hit>, x: nat, y: nat, i: Option<nat>, j: Option<nat>, k: Option<nat>, l: Option<nat>)
    requires NoRepeats(a) && NoRepeats(b)
    requires x < |Fused([a, b])| && y < |Fused([a, b])| && x != y
    requires HasAt(a, Fused([a, b])[x].chunk, i) && HasAt(b, Fused([a, b])[x].chunk, j)
    requires HasAt(a, Fused([a, b])[y].chunk, k) && HasAt(b, Fused([a, b])[y].chunk, l)
    ensures x < y <==>
      || Over(i, j) * Under(k, l) > Over(k, l) * Under(i, j)
      || (Over(i, j) * Under(k, l) == Over(k, l) * Under(i, j) && NamedFirst(i, j, k, l))
  {
    hide Fused, Score, NoRepeats, Over, Under, Ids, IndexOf, HasAt, NamedFirst;
    var ps, r := AllPlaced([a, b]), Fused([a, b]);
    var m, n := r[x].chunk, r[y].chunk;
    EachOnce(a, b, x, y);
    SomePlace(a, b, m, i, j);
    SomePlace(a, b, n, k, l);
    ScoreIs(a, b, m, i, j);
    ScoreIs(a, b, n, k, l);
    FractionsCompare(Over(i, j), Under(i, j), Over(k, l), Under(k, l));
    ArrivesFirst(a, b, m, n, i, j, k, l);
    if x < y { FusedByScore([a, b], x, y); } else { FusedByScore([a, b], y, x); }
  }

  lemma EachOnce(a: seq<Hit>, b: seq<Hit>, x: nat, y: nat)
    requires x < |Fused([a, b])| && y < |Fused([a, b])| && x != y
    ensures Fused([a, b])[x].chunk != Fused([a, b])[y].chunk
    ensures exists r :: 0 <= r < 2 && Lists([a, b][r], Fused([a, b])[x].chunk)
  {
    hide Fused, Lists;
    var r := Fused([a, b]);
    FusedIsUnion([a, b], r[x]);
    assert r[x] in r;
  }

  lemma SomePlace(a: seq<Hit>, b: seq<Hit>, id: Id, i: Option<nat>, j: Option<nat>)
    requires HasAt(a, id, i) && HasAt(b, id, j) && exists h :: h in Fused([a, b]) && h.chunk == id
    ensures i.Some? || j.Some?
  {
    hide Fused;
    var h :| h in Fused([a, b]) && h.chunk == id;
    FusedIsUnion([a, b], h);
    var r :| 0 <= r < 2 && Lists([a, b][r], id);
    assert [a, b][0] == a && [a, b][1] == b;
  }

  /** Of two chunks each named by one list alone, the one at the earlier place comes first. */
  lemma EarlierPlaceLeads(a: seq<Hit>, b: seq<Hit>, x: nat, y: nat, i: Option<nat>, j: Option<nat>, k: Option<nat>, l: Option<nat>)
    requires NoRepeats(a) && NoRepeats(b)
    requires x < |Fused([a, b])| && y < |Fused([a, b])| && x != y
    requires HasAt(a, Fused([a, b])[x].chunk, i) && HasAt(b, Fused([a, b])[x].chunk, j)
    requires HasAt(a, Fused([a, b])[y].chunk, k) && HasAt(b, Fused([a, b])[y].chunk, l)
    requires i.Some? != j.Some? && k.Some? != l.Some?
    requires (if i.Some? then i.value else j.value) < (if k.Some? then k.value else l.value)
    ensures x < y
  {
    hide Fused, NoRepeats, HasAt;
    LeadsIff(a, b, x, y, i, j, k, l);
  }
}
