/** Dropping repeated passages and spreading what is left over pages: `_overlaps`, `dedupe` and
    `spread` in `rag/rank.py`. */
module Narrowing {
  import opened Fusing
  import opened Sorting
  import opened Text
  import opened Wrappers

  const OVERLAP_WINDOW: nat := 200

  // ------------------------------------------------------------------ overlapping

  // How many characters of s from i on are not blank.
  function WordEnd(s: string, i: nat): (e: nat)
    requires i <= |s|
    ensures i <= e <= |s|
    decreases |s| - i
  {
    if i < |s| && !IsBlank(s[i]) then WordEnd(s, i + 1) else i
  }

  // `text.split()`
  function Words(s: string): seq<string>
    decreases |s|
  {
    if s == "" then []
    else if IsBlank(s[0]) then Words(s[1..])
    else [s[..WordEnd(s, 1)]] + Words(s[WordEnd(s, 1)..])
  }

  predicate Within(a: string, b: string) { exists i :: 0 <= i <= |b| && a <= b[i..] }

  // One end of a, as long as the window, is found in b.
  predicate EndWithin(a: string, b: string) {
    |a| >= OVERLAP_WINDOW && (Within(a[..OVERLAP_WINDOW], b) || Within(a[|a| - OVERLAP_WINDOW..], b))
  }

  predicate Overlaps(left: string, right: string) {
    var a, b := Join(Words(left), " "), Join(Words(right), " ");
    a != "" && b != "" && (Within(a, b) || Within(b, a) || EndWithin(a, b) || EndWithin(b, a))
  }

  /** Whether two passages overlap does not depend on which comes first, and a passage with any
      words overlaps itself. */
  lemma {:induction false} OverlapsBothWays(left: string, right: string)
    ensures Overlaps(left, right) <==> Overlaps(right, left)
    ensures Overlaps(left, left) <==> Join(Words(left), " ") != ""
  {
    var a := Join(Words(left), " ");
    assert a <= a[0..];
    assert Within(a, a);
  }

  // --------------------------------------------------------------------- dropping

  // What a kept hit rules out: its own page of its own book, and any text that overlaps it.
  predicate Repeats(kept: Hit, h: Hit) {
    (kept.book == h.book && kept.page.Some? && kept.page == h.page) || Overlaps(kept.text, h.text)
  }

  predicate AnyRepeats(kept: seq<Hit>, h: Hit) { exists k :: 0 <= k < |kept| && Repeats(kept[k], h) }

  function Deduped(hits: seq<Hit>): seq<Hit> {
    if hits == [] then []
    else
      var before := Deduped(hits[..|hits| - 1]);
      if AnyRepeats(before, hits[|hits| - 1]) then before else before + [hits[|hits| - 1]]
  }

  method Dedupe(hits: seq<Hit>) returns (kept: seq<Hit>)
    ensures kept == Deduped(hits)
  {
    hide Overlaps;
    kept := [];
    var seenPages: set<(Id, int)> := {};
    for n := 0 to |hits|
      invariant kept == Deduped(hits[..n])
      invariant forall k :: 0 <= k < |kept| && kept[k].page.Some? ==> (kept[k].book, kept[k].page.value) in seenPages
      invariant forall p :: p in seenPages ==> exists k :: 0 <= k < |kept| && kept[k].page == Some(p.1) && kept[k].book == p.0
    {
      assert hits[..n + 1][..n] == hits[..n];
      var hit := hits[n];
      var page := hit.page;
      if page.Some? && (hit.book, page.value) in seenPages {
        var p := (hit.book, page.value);
        var k :| 0 <= k < |kept| && kept[k].page == Some(p.1) && kept[k].book == p.0;
        assert Repeats(kept[k], hit);
        continue;
      }
      if exists k :: 0 <= k < |kept| && Overlaps(kept[k].text, hit.text) {
        var k :| 0 <= k < |kept| && Overlaps(kept[k].text, hit.text);
        assert Repeats(kept[k], hit);
        continue;
      }
      ghost var before, pages := kept, seenPages;
      if page.Some? { seenPages := seenPages + {(hit.book, page.value)}; }
      kept := kept + [hit];
      assert kept[|before|] == hit;
      forall p | p in seenPages ensures exists k :: 0 <= k < |kept| && kept[k].page == Some(p.1) && kept[k].book == p.0 {
        if p in pages {
          var k :| 0 <= k < |before| && before[k].page == Some(p.1) && before[k].book == p.0;
          assert kept[k] == before[k];
        }
      }
    }
    assert hits[..|hits|] == hits;
  }

  // No hit rules out a later one.
  predicate Clean(hits: seq<Hit>) { forall i, j :: 0 <= i < j < |hits| ==> !Repeats(hits[i], hits[j]) }

  lemma {:induction false} DedupedIsClean(hits: seq<Hit>)
    ensures Clean(Deduped(hits))
  {
    hide Repeats;
    if hits != [] { DedupedIsClean(hits[..|hits| - 1]); }
  }

  /** Every hit dropped repeats one kept from before it; every hit kept is there in its place. */
  lemma {:induction false} DropsHaveWitness(hits: seq<Hit>, n: nat)
    requires n < |hits|
    ensures Deduped(hits[..n]) <= Deduped(hits)
    ensures if AnyRepeats(Deduped(hits[..n]), hits[n]) then Deduped(hits[..n + 1]) == Deduped(hits[..n])
            else Deduped(hits[..n + 1]) == Deduped(hits[..n]) + [hits[n]]
  {
    hide AnyRepeats;
    assert hits[..n + 1][..n] == hits[..n];
    DedupedGrows(hits, n);
  }

  lemma {:induction false} DedupedGrows(hits: seq<Hit>, n: nat)
    requires n <= |hits|
    ensures Deduped(hits[..n]) <= Deduped(hits)
  {
    hide AnyRepeats;
    if n < |hits| {
      DedupedGrows(hits[..|hits| - 1], n);
      assert hits[..|hits| - 1][..n] == hits[..n];
    } else {
      assert hits[..n] == hits;
    }
  }

  lemma {:induction false} CleanStays(hits: seq<Hit>)
    requires Clean(hits)
    ensures Deduped(hits) == hits
  {
    hide Repeats;
    if hits != [] {
      CleanStays(hits[..|hits| - 1]);
      assert hits == hits[..|hits| - 1] + [hits[|hits| - 1]];
    }
  }

  /** Of the hits left, no two overlap and no two share a page of a book; dropping repeats again
      drops nothing, and the strongest hit always stays. */
  lemma {:induction false} DedupeTwice(hits: seq<Hit>)
    ensures Clean(Deduped(hits)) && Deduped(Deduped(hits)) == Deduped(hits)
    ensures hits != [] ==> Deduped(hits) != [] && Deduped(hits)[0] == hits[0]
  {
    DedupedIsClean(hits);
    CleanStays(Deduped(hits));
    if hits != [] {
      assert hits[..1] == [hits[0]] && [hits[0]][..0] == [];
      assert Deduped([hits[0]]) == [hits[0]];
      DedupedGrows(hits, 1);
    }
  }

  // -------------------------------------------------------------------- selections

  // Places in a sequence, from first to last.
  predicate Places(at: seq<nat>, n: nat) {
    (forall k :: 0 <= k < |at| ==> at[k] < n) && forall i, j :: 0 <= i < j < |at| ==> at[i] < at[j]
  }

  predicate Selects(all: seq<Hit>, at: seq<nat>, some: seq<Hit>) {
    Places(at, |all|) && |some| == |at| && forall k :: 0 <= k < |at| ==> some[k] == all[at[k]]
  }

  // What is left of the hits, in their order.
  ghost predicate Subsequence(some: seq<Hit>, all: seq<Hit>) { exists at :: Selects(all, at, some) }

  lemma SubsequenceChains(a: seq<Hit>, b: seq<Hit>, c: seq<Hit>)
    requires Subsequence(a, b) && Subsequence(b, c)
    ensures Subsequence(a, c)
  {
    var ab :| Selects(b, ab, a);
    var bc :| Selects(c, bc, b);
    var ac := seq(|ab|, k requires 0 <= k < |ab| => bc[ab[k]]);
    assert Selects(c, ac, a);
  }

  lemma SubsequenceSelf(a: seq<Hit>)
    ensures Subsequence(a, a)
  {
    assert Selects(a, seq(|a|, k => k), a);
  }

  lemma {:induction false} DedupedSelects(hits: seq<Hit>) returns (at: seq<nat>)
    ensures Selects(hits, at, Deduped(hits))
  {
    hide AnyRepeats;
    if hits == [] {
      at := [];
    } else {
      var rest := hits[..|hits| - 1];
      at := DedupedSelects(rest);
      if !AnyRepeats(Deduped(rest), hits[|hits| - 1]) { at := at + [|hits| - 1]; }
    }
  }

  // --------------------------------------------------------------------- spreading

  type PageKey = (Id, Option<int>)

  function KeyOf(h: Hit): PageKey { (h.book, h.page) }

  predicate KeySeen(hits: seq<Hit>, n: nat)
    requires n < |hits|
  {
    exists k :: 0 <= k < n && KeyOf(hits[k]) == KeyOf(hits[n])
  }

  // The places among the first n whose page is new there, and the others.
  function Firsts(hits: seq<Hit>, n: nat): (r: seq<nat>)
    requires n <= |hits|
    ensures Places(r, n)
  {
    if n == 0 then [] else Firsts(hits, n - 1) + if KeySeen(hits, n - 1) then [] else [n - 1]
  }

  function Others(hits: seq<Hit>, n: nat): (r: seq<nat>)
    requires n <= |hits|
    ensures Places(r, n) && |r| + |Firsts(hits, n)| == n
  {
    if n == 0 then [] else Others(hits, n - 1) + if KeySeen(hits, n - 1) then [n - 1] else []
  }

  // Python's `s[:k]`, which counts a negative k from the end.
  function UpTo<T>(s: seq<T>, k: int): seq<T> {
    if k < 0 then (if |s| + k < 0 then [] else s[..|s| + k]) else if k < |s| then s[..k] else s
  }

  function PlaceKey(i: nat): Key { Key(0.0, i) }

  // The places chosen, once there are more hits than the limit.
  function Chosen(hits: seq<Hit>, limit: int): seq<nat> {
    var firsts := Firsts(hits, |hits|);
    if 0 < limit <= |firsts| then firsts[..limit]
    else Sort(Filled(hits, limit), PlaceKey)
  }

  function At(hits: seq<Hit>, at: seq<nat>): seq<Hit>
    requires forall k :: 0 <= k < |at| ==> at[k] < |hits|
  {
    seq(|at|, k requires 0 <= k < |at| => hits[at[k]])
  }

  predicate Apart(s: seq<nat>) { forall i, j :: 0 <= i < j < |s| ==> s[i] != s[j] }

  lemma {:induction false} PlaceApart(s: seq<nat>, x: nat)
    requires x !in s && Apart(s)
    ensures Apart(Place(s, x, PlaceKey))
  {
    if s != [] && Before(PlaceKey(x), PlaceKey(s[|s| - 1])) {
      var rest, last := s[..|s| - 1], s[|s| - 1];
      PlaceApart(rest, x);
      PlaceAdds(rest, x, PlaceKey);
      var p := Place(rest, x, PlaceKey);
      forall i | 0 <= i < |p| ensures p[i] != last {
        assert p[i] in multiset(p);
        assert p[i] == x || p[i] in multiset(rest);
      }
    }
  }

  lemma {:induction false} SortedApart(s: seq<nat>)
    requires Apart(s)
    ensures Apart(Sort(s, PlaceKey)) && |Sort(s, PlaceKey)| == |s|
    ensures forall x :: x in Sort(s, PlaceKey) <==> x in s
  {
    Sorts(s, PlaceKey);
    forall x ensures x in Sort(s, PlaceKey) <==> x in s {
      assert x in Sort(s, PlaceKey) <==> x in multiset(Sort(s, PlaceKey));
      assert x in s <==> x in multiset(s);
    }
    if s != [] {
      var rest, last := s[..|s| - 1], s[|s| - 1];
      assert last !in rest && Apart(rest);
      assert Sort(s, PlaceKey) == Place(Sort(rest, PlaceKey), last, PlaceKey);
      hide Sort, Place, Apart;
      SortedApart(rest);
      PlaceApart(Sort(rest, PlaceKey), last);
    }
  }

  lemma {:induction false} SortedPlaces(some: seq<nat>, n: nat)
    requires (forall k :: 0 <= k < |some| ==> some[k] < n) && Apart(some)
    ensures Places(Sort(some, PlaceKey), n) && |Sort(some, PlaceKey)| == |some|
    ensures forall x :: x in Sort(some, PlaceKey) <==> x in some
  {
    var r := Sort(some, PlaceKey);
    SortedApart(some);
    Sorts(some, PlaceKey);
    hide Sort;
    forall i | 0 <= i < |r| ensures r[i] < n { assert r[i] in some; }
    forall i, j | 0 <= i < j < |r| ensures r[i] < r[j] { assert !Before(PlaceKey(r[j]), PlaceKey(r[i])); }
  }

  // The pages the first n hits are on.
  function KeysBelow(hits: seq<Hit>, n: nat): set<PageKey>
    requires n <= |hits|
  {
    if n == 0 then {} else KeysBelow(hits, n - 1) + {KeyOf(hits[n - 1])}
  }

  lemma {:induction false} KeysBelowAre(hits: seq<Hit>, n: nat)
    requires n <= |hits|
    ensures forall key :: key in KeysBelow(hits, n) <==> exists k :: 0 <= k < n && KeyOf(hits[k]) == key
  {
    hide KeyOf;
    if n > 0 { KeysBelowAre(hits, n - 1); }
  }

  lemma InRange(at: seq<nat>, n: nat)
    requires Places(at, n)
    ensures forall k :: 0 <= k < |at| ==> at[k] < n
  {
  }

  lemma Beyond(at: seq<nat>, n: nat)
    requires Places(at, n)
    ensures n !in at
  {
  }

  lemma {:induction false} OthersApart(hits: seq<Hit>, n: nat)
    requires n <= |hits|
    ensures forall k :: 0 <= k < n ==> (k in Firsts(hits, n) <==> !KeySeen(hits, k)) && (k in Others(hits, n) <==> KeySeen(hits, k))
  {
    hide KeySeen, KeyOf, Firsts, Others, KeysBelow, Places;
    if n > 0 {
      OthersApart(hits, n - 1);
      NextPlace(hits, n - 1);
      Beyond(Firsts(hits, n - 1), n - 1);
      Beyond(Others(hits, n - 1), n - 1);
      forall k | 0 <= k < n ensures (k in Firsts(hits, n) <==> !KeySeen(hits, k)) && (k in Others(hits, n) <==> KeySeen(hits, k)) {
        if k < n - 1 {
          assert k in Firsts(hits, n - 1) <==> !KeySeen(hits, k);
          assert k in Others(hits, n - 1) <==> KeySeen(hits, k);
        }
      }
    }
  }

  // The first hits of their pages, and what fills the room they leave.
  function Filled(hits: seq<Hit>, limit: int): seq<nat> {
    Firsts(hits, |hits|) + UpTo(Others(hits, |hits|), limit - |Firsts(hits, |hits|)|)
  }

  lemma FilledApart(hits: seq<Hit>, limit: int)
    ensures Apart(Filled(hits, limit)) && forall k :: 0 <= k < |Filled(hits, limit)| ==> Filled(hits, limit)[k] < |hits|
  {
    hide Firsts, Others, KeySeen;
    var firsts, others := Firsts(hits, |hits|), Others(hits, |hits|);
    var more := UpTo(others, limit - |firsts|);
    OthersApart(hits, |hits|);
    forall k | 0 <= k < |more| ensures more[k] !in firsts {
      assert more[k] == others[k];
      assert others[k] in others;
    }
  }

  lemma ChosenPlaces(hits: seq<Hit>, limit: int)
    ensures Places(Chosen(hits, limit), |hits|)
    ensures 0 < limit < |hits| ==> |Chosen(hits, limit)| == limit
    ensures forall k :: 0 <= k < |Chosen(hits, limit)| ==> Chosen(hits, limit)[k] < |hits|
  {
    hide Firsts, Others, KeySeen, Sort, Apart;
    if !(0 < limit <= |Firsts(hits, |hits|)|) {
      FilledApart(hits, limit);
      SortedPlaces(Filled(hits, limit), |hits|);
    }
  }

  function Spread(hits: seq<Hit>, limit: int): seq<Hit> {
    if |hits| <= limit then hits else ChosenPlaces(hits, limit); At(hits, Chosen(hits, limit))
  }

  // One hit on.
  lemma NextPlace(hits: seq<Hit>, n: nat)
    requires n < |hits|
    ensures KeySeen(hits, n) <==> KeyOf(hits[n]) in KeysBelow(hits, n)
    ensures Firsts(hits, n + 1) == if KeySeen(hits, n) then Firsts(hits, n) else Firsts(hits, n) + [n]
    ensures Others(hits, n + 1) == if KeySeen(hits, n) then Others(hits, n) + [n] else Others(hits, n)
    ensures KeysBelow(hits, n + 1) == if KeySeen(hits, n) then KeysBelow(hits, n) else KeysBelow(hits, n) + {KeyOf(hits[n])}
  {
    hide KeyOf;
    KeysBelowAre(hits, n);
  }

  lemma {:induction false} NoPlaces(hits: seq<Hit>)
    ensures Firsts(hits, 0) == [] && Others(hits, 0) == [] && KeysBelow(hits, 0) == {}
  {
  }

  method SpreadHits(hits: seq<Hit>, limit: int) returns (r: seq<Hit>)
    ensures r == Spread(hits, limit)
  {
    hide Sort, KeySeen, KeyOf, PlaceKey, Firsts, Others, KeysBelow, Places;
    if |hits| <= limit { return hits; }
    var picked: seq<nat>, deferred: seq<nat> := [], [];
    var seen: set<PageKey> := {};
    ChosenPlaces(hits, limit);
    NoPlaces(hits);
    for n := 0 to |hits|
      invariant picked == Firsts(hits, n) && deferred == Others(hits, n) && seen == KeysBelow(hits, n)
      invariant limit > 0 ==> |picked| < limit
    {
      var key := KeyOf(hits[n]);
      NextPlace(hits, n);
      if key in seen {
        deferred := deferred + [n];
        continue;
      }
      seen := seen + {key};
      picked := picked + [n];
      if |picked| == limit {
        FirstsGrow(hits, n + 1);
        InRange(picked, n + 1);
        return At(hits, picked);
      }
    }
    picked := picked + UpTo(deferred, limit - |picked|);
    r := At(hits, Sort(picked, PlaceKey));
  }

  lemma {:induction false} FirstsGrow(hits: seq<Hit>, n: nat)
    requires n <= |hits|
    ensures Firsts(hits, n) <= Firsts(hits, |hits|)
    decreases |hits| - n
  {
    hide KeySeen;
    if n < |hits| { FirstsGrow(hits, n + 1); }
  }

  // The pages of the chosen places.
  function KeysAt(hits: seq<Hit>, at: seq<nat>): (r: set<PageKey>)
    requires forall k :: 0 <= k < |at| ==> at[k] < |hits|
    ensures |r| <= |at|
  {
    if at == [] then {} else KeysAt(hits, at[..|at| - 1]) + {KeyOf(hits[at[|at| - 1]])}
  }

  lemma {:induction false} KeysAtAre(hits: seq<Hit>, at: seq<nat>)
    requires forall k :: 0 <= k < |at| ==> at[k] < |hits|
    ensures forall key :: key in KeysAt(hits, at) <==> exists k :: 0 <= k < |at| && KeyOf(hits[at[k]]) == key
  {
    hide KeyOf;
    if at != [] { KeysAtAre(hits, at[..|at| - 1]); }
  }

  lemma {:induction false} KeysAtNext(hits: seq<Hit>, n: nat)
    requires n < |hits|
    ensures KeysAt(hits, Firsts(hits, n) + [n]) == KeysAt(hits, Firsts(hits, n)) + {KeyOf(hits[n])}
  {
    hide KeyOf, KeySeen;
    assert (Firsts(hits, n) + [n])[..|Firsts(hits, n)|] == Firsts(hits, n);
  }

  lemma {:induction false} NoFirsts(hits: seq<Hit>)
    ensures Firsts(hits, 0) == [] && KeysAt(hits, []) == {} && KeysBelow(hits, 0) == {}
  {
  }

  lemma {:induction false} FirstsAreDistinct(hits: seq<Hit>, n: nat)
    requires n <= |hits|
    ensures KeysAt(hits, Firsts(hits, n)) == KeysBelow(hits, n) && |KeysBelow(hits, n)| == |Firsts(hits, n)|
  {
    hide KeyOf, KeySeen, Places, Firsts, KeysAt, KeysBelow;
    if n == 0 {
      NoFirsts(hits);
    } else {
      FirstsAreDistinct(hits, n - 1);
      NextPlace(hits, n - 1);
      if !KeySeen(hits, n - 1) { KeysAtNext(hits, n - 1); }
    }
  }

  lemma {:induction false} PrefixKeys(hits: seq<Hit>, n: nat, k: nat)
    requires n <= |hits| && k <= |Firsts(hits, n)|
    ensures |KeysAt(hits, Firsts(hits, n)[..k])| == k
  {
    hide KeyOf, KeySeen, Places;
    if n > 0 && k <= |Firsts(hits, n - 1)| {
      PrefixKeys(hits, n - 1, k);
      assert Firsts(hits, n)[..k] == Firsts(hits, n - 1)[..k];
    } else {
      FirstsAreDistinct(hits, n);
      assert Firsts(hits, n)[..k] == Firsts(hits, n);
    }
  }

  lemma {:induction false} KeysMonotone(hits: seq<Hit>, a: seq<nat>, b: seq<nat>)
    requires (forall k :: 0 <= k < |a| ==> a[k] < |hits|) && (forall k :: 0 <= k < |b| ==> b[k] < |hits|)
    requires forall x :: x in a ==> x in b
    ensures KeysAt(hits, a) <= KeysAt(hits, b)
  {
    hide KeyOf;
    KeysAtAre(hits, a);
    KeysAtAre(hits, b);
    forall key | key in KeysAt(hits, a) ensures key in KeysAt(hits, b) {
      var k :| 0 <= k < |a| && KeyOf(hits[a[k]]) == key;
      assert a[k] in b;
      var m :| 0 <= m < |b| && b[m] == a[k];
    }
  }

  lemma {:induction false} AllKeysBelow(hits: seq<Hit>, at: seq<nat>)
    requires forall k :: 0 <= k < |at| ==> at[k] < |hits|
    ensures KeysAt(hits, at) <= KeysBelow(hits, |hits|)
  {
    hide KeyOf;
    KeysAtAre(hits, at);
    KeysBelowAre(hits, |hits|);
  }

  lemma Cardinality<T>(a: set<T>, b: set<T>)
    requires a <= b
    ensures |a| <= |b|
  {
    assert b == a + (b - a);
  }

  // The choice shows as many pages as there are, or as many as fit.
  lemma {:induction false} ChosenKeys(hits: seq<Hit>, limit: int)
    requires 0 < limit < |hits|
    ensures forall k :: 0 <= k < |Chosen(hits, limit)| ==> Chosen(hits, limit)[k] < |hits|
    ensures |KeysAt(hits, Chosen(hits, limit))| >= if limit <= |Firsts(hits, |hits|)| then limit else |Firsts(hits, |hits|)|
  {
    hide KeyOf, KeySeen, Places, Firsts, Others, KeysAt, Sort;
    var firsts, others := Firsts(hits, |hits|), Others(hits, |hits|);
    ChosenPlaces(hits, limit);
    if limit <= |firsts| {
      PrefixKeys(hits, |hits|, limit);
    } else {
      FirstsAreDistinct(hits, |hits|);
      ChosenHolds(hits, limit);
      KeysMonotone(hits, firsts, Chosen(hits, limit));
      Cardinality(KeysAt(hits, firsts), KeysAt(hits, Chosen(hits, limit)));
    }
  }

  lemma {:induction false} ChosenHolds(hits: seq<Hit>, limit: int)
    requires |Firsts(hits, |hits|)| < limit < |hits|
    ensures forall x :: x in Firsts(hits, |hits|) ==> x in Chosen(hits, limit)
    ensures forall k :: 0 <= k < |Firsts(hits, |hits|)| ==> Firsts(hits, |hits|)[k] < |hits|
  {
    hide KeySeen, Firsts, Others, Sort, Apart, UpTo;
    FilledApart(hits, limit);
    SortedPlaces(Filled(hits, limit), |hits|);
  }

  /** Spreading shows as many different pages as any choice of that many hits could. */
  lemma {:induction false} SpreadShowsMost(hits: seq<Hit>, limit: int, at: seq<nat>)
    requires 0 < limit < |hits| && |at| == limit && forall k :: 0 <= k < |at| ==> at[k] < |hits|
    ensures (forall k :: 0 <= k < |Chosen(hits, limit)| ==> Chosen(hits, limit)[k] < |hits|)
         && Spread(hits, limit) == At(hits, Chosen(hits, limit))
         && |KeysAt(hits, at)| <= |KeysAt(hits, Chosen(hits, limit))|
  {
    hide KeyOf, KeySeen, Places, Firsts, Others, KeysAt, Sort, Chosen;
    ChosenPlaces(hits, limit);
    ChosenKeys(hits, limit);
    AllKeysBelow(hits, at);
    FirstsAreDistinct(hits, |hits|);
    Cardinality(KeysAt(hits, at), KeysBelow(hits, |hits|));
  }

  /** With a positive limit, spreading keeps the strongest hit, the order, and as many hits as
      there are or as the limit allows. */
  lemma SpreadKeeps(hits: seq<Hit>, limit: int)
    requires limit > 0
    ensures |Spread(hits, limit)| == if |hits| <= limit then |hits| else limit
    ensures Subsequence(Spread(hits, limit), hits)
    ensures hits != [] ==> Spread(hits, limit) != [] && Spread(hits, limit)[0] == hits[0]
  {
    hide KeyOf, KeySeen, Firsts, Others, Sort, Chosen;
    if |hits| <= limit {
      SubsequenceSelf(hits);
    } else {
      ChosenPlaces(hits, limit);
      assert Selects(hits, Chosen(hits, limit), Spread(hits, limit));
      ChosenFirst(hits, limit);
    }
  }

  lemma ChosenFirst(hits: seq<Hit>, limit: int)
    requires 0 < limit < |hits|
    ensures Chosen(hits, limit) != [] && Chosen(hits, limit)[0] == 0
  {
    hide Others, Sort, KeySeen;
    var firsts := Firsts(hits, |hits|);
    FirstsLed(hits, |hits|);
    if limit > |firsts| {
      ChosenHolds(hits, limit);
      ChosenPlaces(hits, limit);
      var c := Chosen(hits, limit);
      assert firsts[0] in c;
      var k :| 0 <= k < |c| && c[k] == 0;
      assert c[0] <= c[k];
    }
  }

  lemma {:induction false} FirstsLed(hits: seq<Hit>, n: nat)
    requires 0 < n <= |hits|
    ensures Firsts(hits, n) != [] && Firsts(hits, n)[0] == 0
  {
    if n == 1 { assert Firsts(hits, 0) == []; } else { FirstsLed(hits, n - 1); }
  }

  /** A limit that is not positive is not respected: unless there is nothing to spread, more hits
      than that come back. */
  lemma LimitHeldIff(hits: seq<Hit>, limit: int)
    ensures |Spread(hits, limit)| <= (if limit > 0 then limit else 0) <==> limit > 0 || hits == []
  {
    hide KeyOf, KeySeen, Others;
    if limit > 0 {
      SpreadKeeps(hits, limit);
    } else if hits != [] {
      ChosenPlaces(hits, limit);
      FirstsLed(hits, |hits|);
      Sorts(Filled(hits, limit), PlaceKey);
    } else {
      ChosenPlaces(hits, limit);
      assert limit < 0 ==> |Chosen(hits, limit)| == 0 by { Sorts(Filled(hits, limit), PlaceKey); }
    }
  }
}
