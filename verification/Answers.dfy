/** Exactly which chunks and which words an answer is made from. */
module Answers {
  import opened Picking
  import opened Retrieval
  import opened Scoping
  import opened Sorting
  import opened Wrappers

  // ------------------------------------------------------------------- which words

  // A word long enough to be probed, where it first comes.
  predicate Probed(words: seq<string>, k: nat) { k < |words| && |words[k]| >= 3 && forall j :: 0 <= j < k ==> words[j] != words[k] }

  ghost function Probing(words: seq<string>): nat -> bool { (k: nat) => Probed(words, k) }

  lemma {:induction false} ProbesAre(words: seq<string>) returns (at: seq<nat>, all: seq<nat>)
    ensures Picks(all, |words|, Probing(words)) && at == all[..if |all| < 24 then |all| else 24]
    ensures |Probes(words)| == |at| && forall i :: 0 <= i < |at| ==> at[i] < |words| && Probes(words)[i] == words[at[i]]
  {
    hide Picks;
    if words == [] {
      at, all := [], [];
      PicksNone(Probing(words));
    } else {
      var n := |words| - 1;
      var atBefore, allBefore := ProbesAre(words[..n]);
      PicksMembers(allBefore, n, Probing(words[..n]));
      all := PicksNext(allBefore, n, Probing(words[..n]), Probing(words));
      at := all[..if |all| < 24 then |all| else 24];
      NextProbe(words, n, allBefore);
    }
  }

  lemma {:induction false} NextProbe(words: seq<string>, n: nat, all: seq<nat>)
    requires n == |words| - 1 && Picks(all, n, Probing(words[..n]))
    requires |Probes(words[..n])| == if |all| < 24 then |all| else 24
    requires forall i :: 0 <= i < |Probes(words[..n])| ==> all[i] < n && Probes(words[..n])[i] == words[..n][all[i]]
    ensures Probes(words) == Probes(words[..n]) + if |all| < 24 && Probed(words, n) then [words[n]] else []
  {
    hide Probed, Picks;
    var before := Probes(words[..n]);
    if |all| < 24 { ProbedIff(words, n, all, before); }
  }

  lemma ProbedIff(words: seq<string>, n: nat, all: seq<nat>, before: seq<string>)
    requires n == |words| - 1 && Picks(all, n, Probing(words[..n])) && |before| == |all|
    requires forall i :: 0 <= i < |all| ==> all[i] < n && before[i] == words[..n][all[i]]
    ensures Probed(words, n) <==> |words[n]| >= 3 && words[n] !in before
  {
    if |words[n]| >= 3 { SoonerProbed(words, n, all, before); }
  }

  // With room for more, a long word is probed already exactly when it came before.
  lemma SoonerProbed(words: seq<string>, n: nat, all: seq<nat>, before: seq<string>)
    requires n < |words| && |words[n]| >= 3 && Picks(all, n, Probing(words[..n])) && |before| == |all|
    requires forall i :: 0 <= i < |all| ==> all[i] < n && before[i] == words[all[i]]
    ensures words[n] in before <==> exists j :: 0 <= j < n && words[j] == words[n]
  {
    if j :| 0 <= j < n && words[j] == words[n] {
      var f := FirstAt(words, words[n], j);
      assert Probed(words[..n], f) && f in all;
      var i :| 0 <= i < |all| && all[i] == f;
      assert before[i] == words[n];
    }
  }

  lemma FirstAt(words: seq<string>, w: string, j: nat) returns (f: nat)
    requires j < |words| && words[j] == w
    ensures f <= j && words[f] == w && forall k :: 0 <= k < f ==> words[k] != w
  {
    f := 0;
    while words[f] != w
      invariant f <= j && forall k :: 0 <= k < f ==> words[k] != w
      decreases j - f
    {
      f := f + 1;
    }
  }

  /** The words probed are the first twenty-four that are three characters long or longer, each where it
      first comes. */
  lemma ProbesIs(words: seq<string>) returns (at: seq<nat>)
    ensures Picks(at, |words|, (k: nat) => Probed(words, k) && |Earlier(k, Probing(words))| < 24)
    ensures |Probes(words)| == |at| && forall i :: 0 <= i < |at| ==> at[i] < |words| && Probes(words)[i] == words[at[i]]
  {
    var all;
    at, all := ProbesAre(words);
    forall k: nat ensures k in at <==> k < |words| && Probed(words, k) && |Earlier(k, Probing(words))| < 24 {
      AmongFirst(all, |words|, Probing(words), |at|, k);
      if |all| < 24 && k < |words| && Probed(words, k) {
        FewerEarlier(k, |words|, Probing(words));
        CountAll(all, |words|, Probing(words));
      }
    }
  }

  // Where a word stands among those that tell, within the spread of the rarest.
  ghost predicate Selected(words: seq<string>, count: string -> nat, cap: nat, k: nat) {
    k < |words| && 0 < count(words[k]) <= cap
    && forall j :: 0 <= j < |words| && 0 < count(words[j]) <= cap ==> count(words[k]) <= 3 || count(words[k]) <= 3 * count(words[j])
  }

  // Fewer chunks have it, or as many and it comes sooner in the question.
  predicate Rarer(words: seq<string>, count: string -> nat, j: nat, k: nat)
    requires j < |words| && k < |words|
  {
    count(words[j]) < count(words[k]) || (count(words[j]) == count(words[k]) && j < k)
  }

  ghost function RarerThan(words: seq<string>, count: string -> nat, cap: nat, k: nat): set<nat>
    requires k < |words|
  {
    set j: nat | j < |words| && Selected(words, count, cap, j) && Rarer(words, count, j, k)
  }

  // Terms in the order of their places.
  predicate InPlace(terms: seq<Term>) { forall i, j :: 0 <= i < j < |terms| ==> terms[i].place < terms[j].place }

  lemma {:induction false} PresentPlaces(words: seq<string>, count: string -> nat, cap: nat)
    ensures forall t :: t in Present(words, count, cap) <==>
      t.place < |words| && t.word == words[t.place] && t.found == count(t.word) && 0 < t.found <= cap
    ensures InPlace(Present(words, count, cap))
  {
    if words != [] {
      var n := |words| - 1;
      PresentPlaces(words[..n], count, cap);
      var before := Present(words[..n], count, cap);
      assert forall i :: 0 <= i < |before| ==> before[i] in before;
      assert forall t :: t in Present(words, count, cap) <==> t in before || (t == Term(words[n], count(words[n]), n) && 0 < count(words[n]) <= cap);
    }
  }

  // The places of terms that pass, once they are put in order: each once, and just those selected.
  lemma {:induction false} OrderedPlaces(words: seq<string>, count: string -> nat, cap: nat)
    requires Present(words, count, cap) != []
    ensures var s := Ordered(words, count, cap);
      && (forall i :: 0 <= i < |s| ==> s[i].place < |words| && s[i] == Term(words[s[i].place], count(words[s[i].place]), s[i].place))
      && (forall k: nat :: Selected(words, count, cap, k) <==> exists i :: 0 <= i < |s| && s[i].place == k)
      && (forall i, j :: 0 <= i < j < |s| ==> s[i].place != s[j].place && Rarer(words, count, s[i].place, s[j].place))
  {
    hide Present, Rare, Rarest, Ordered, InOrder, Selected;
    var s := Ordered(words, count, cap);
    OrderedAsRare(words, count, cap);
    assert forall i :: 0 <= i < |s| ==> s[i] in s;
    forall k: nat ensures Selected(words, count, cap, k) <==> exists i :: 0 <= i < |s| && s[i].place == k {
      SelectedIsRare(words, count, cap, k);
    }
    forall i, j | 0 <= i < j < |s| ensures Rarer(words, count, s[i].place, s[j].place) { InOrderAt(s, i, j); }
  }

  lemma {:induction false} OrderedAsRare(words: seq<string>, count: string -> nat, cap: nat)
    requires Present(words, count, cap) != []
    ensures var present, s := Present(words, count, cap), Ordered(words, count, cap);
      && (forall t :: t in s <==> t in Rare(present, Spread(Rarest(present)))) && InOrder(s, TermKey)
      && (forall t :: t in s ==> t.place < |words| && t == Term(words[t.place], count(words[t.place]), t.place))
      && forall i, j :: 0 <= i < j < |s| ==> s[i].place != s[j].place
  {
    hide Present, Rare, Rarest, Sort, InOrder;
    var present, s := Present(words, count, cap), Ordered(words, count, cap);
    var rare := Rare(present, Spread(Rarest(present)));
    PresentPlaces(words, count, cap);
    RareAre(present, Spread(Rarest(present)));
    RareApart(present, Spread(Rarest(present)));
    Sorts(rare, TermKey);
    SortedPlacesApart(rare, s);
    forall t ensures t in s <==> t in rare { assert t in s <==> t in multiset(s); assert t in rare <==> t in multiset(rare); }
  }

  lemma InOrderAt(s: seq<Term>, i: nat, j: nat)
    requires InOrder(s, TermKey) && i < j < |s| && s[i].place != s[j].place
    ensures s[i].found < s[j].found || (s[i].found == s[j].found && s[i].place < s[j].place)
  {
    assert !Before(TermKey(s[j]), TermKey(s[i]));
  }

  lemma {:induction false} SelectedIsRare(words: seq<string>, count: string -> nat, cap: nat, k: nat)
    requires Present(words, count, cap) != []
    ensures var present := Present(words, count, cap);
      Selected(words, count, cap, k)
      <==> k < |words| && Term(words[k], count(words[k]), k) in Rare(present, Spread(Rarest(present)))
  {
    hide Present, Rare, Rarest;
    var present := Present(words, count, cap);
    PresentPlaces(words, count, cap);
    RarestIs(present);
    RareAre(present, Spread(Rarest(present)));
    var least :| least in present && least.found == Rarest(present);
    forall j | 0 <= j < |words| && 0 < count(words[j]) <= cap ensures Rarest(present) <= count(words[j]) {
      assert Term(words[j], count(words[j]), j) in present;
    }
    assert 0 < count(words[least.place]) <= cap;
  }

  lemma {:induction false} RareApart(terms: seq<Term>, most: nat)
    requires InPlace(terms)
    ensures InPlace(Rare(terms, most))
  {
    if terms != [] {
      var n := |terms| - 1;
      RareApart(terms[..n], most);
      RareAre(terms[..n], most);
      var before := Rare(terms[..n], most);
      forall i | 0 <= i < |before| ensures before[i].place < terms[n].place {
        assert before[i] in before;
        var k :| 0 <= k < n && terms[..n][k] == before[i];
      }
    }
  }

  // Terms at different places stay at different places.
  lemma SortedPlacesApart(a: seq<Term>, s: seq<Term>)
    requires multiset(a) == multiset(s) && InPlace(a)
    ensures forall i, j :: 0 <= i < j < |s| ==> s[i].place != s[j].place
  {
    forall i, j | 0 <= i < j < |s| ensures s[i].place != s[j].place {
      if s[i].place == s[j].place {
        assert s[i] in multiset(a) && s[j] in multiset(a);
        var x, y :| 0 <= x < |a| && 0 <= y < |a| && a[x] == s[i] && a[y] == s[j];
        assert x == y;
        TwiceThere(s, i, j);
        OnceThere(a, x);
      }
    }
  }

  lemma TwiceThere(s: seq<Term>, i: nat, j: nat)
    requires i < j < |s| && s[i] == s[j]
    ensures multiset(s)[s[i]] >= 2
  {
    assert s == s[..i] + [s[i]] + s[i + 1..j] + [s[j]] + s[j + 1..];
  }

  lemma OnceThere(a: seq<Term>, x: nat)
    requires x < |a| && InPlace(a)
    ensures multiset(a)[a[x]] == 1
  {
    assert a == a[..x] + [a[x]] + a[x + 1..];
    assert a[x] !in a[..x] && a[x] !in a[x + 1..];
  }

  // The places of the first so many, as a set.
  ghost function PlacesOf(s: seq<Term>, n: nat): set<nat>
    requires n <= |s|
  {
    set i | 0 <= i < n :: s[i].place
  }

  lemma {:induction false} PlacesCount(s: seq<Term>, n: nat)
    requires n <= |s| && forall i, j :: 0 <= i < j < |s| ==> s[i].place != s[j].place
    ensures |PlacesOf(s, n)| == n
  {
    if n == 0 {
      assert PlacesOf(s, 0) == {};
    } else {
      PlacesCount(s, n - 1);
      forall p: nat ensures p in PlacesOf(s, n) <==> p in PlacesOf(s, n - 1) || p == s[n - 1].place {
        if p in PlacesOf(s, n) {
          var i :| 0 <= i < n && s[i].place == p;
          if i < n - 1 { assert s[i].place in PlacesOf(s, n - 1); }
        }
      }
      assert PlacesOf(s, n) == PlacesOf(s, n - 1) + {s[n - 1].place};
    }
  }

  /** Which of the question's words are significant: of those that tell, found by no more than three
      chunks or no more than three times as many as any other, the four that fewest chunks have. */
  lemma ChosenIff(words: seq<string>, count: string -> nat, cap: nat, k: nat)
    requires k < |words|
    ensures Term(words[k], count(words[k]), k) in Chosen(words, count, cap)
       <==> Selected(words, count, cap, k) && |RarerThan(words, count, cap, k)| < 4
  {
    hide Present, Ordered, Selected, Rarer;
    var present := Present(words, count, cap);
    if present == [] {
      NonePresent(words, count, cap, k);
    } else {
      var s := Ordered(words, count, cap);
      assert Chosen(words, count, cap) == s[..if |s| <= 4 then |s| else 4] by { ChosenIsCut(words, count, cap); }
      OrderedPlaces(words, count, cap);
      if Selected(words, count, cap, k) {
        var i :| 0 <= i < |s| && s[i].place == k;
        RankIs(words, count, cap, s, i);
        assert i < 4 ==> Chosen(words, count, cap)[i] == s[i];
      }
    }
  }

  lemma {:induction false} ChosenIsCut(words: seq<string>, count: string -> nat, cap: nat)
    requires Present(words, count, cap) != []
    ensures var s := Ordered(words, count, cap); Chosen(words, count, cap) == s[..if |s| <= 4 then |s| else 4]
  {
  }

  lemma {:induction false} NonePresent(words: seq<string>, count: string -> nat, cap: nat, k: nat)
    requires Present(words, count, cap) == []
    ensures Chosen(words, count, cap) == [] && !Selected(words, count, cap, k)
  {
    hide Present;
    PresentPlaces(words, count, cap);
    assert k < |words| ==> Term(words[k], count(words[k]), k) !in Present(words, count, cap);
  }

  lemma RankIs(words: seq<string>, count: string -> nat, cap: nat, s: seq<Term>, i: nat)
    requires i < |s| && forall j :: 0 <= j < |s| ==> s[j].place < |words|
    requires forall k: nat :: Selected(words, count, cap, k) <==> exists j :: 0 <= j < |s| && s[j].place == k
    requires forall j, l :: 0 <= j < l < |s| ==> s[j].place != s[l].place && Rarer(words, count, s[j].place, s[l].place)
    ensures |RarerThan(words, count, cap, s[i].place)| == i
  {
    hide Selected;
    forall j: nat ensures j in RarerThan(words, count, cap, s[i].place) <==> j in PlacesOf(s, i) {
      if j in RarerThan(words, count, cap, s[i].place) {
        var l :| 0 <= l < |s| && s[l].place == j;
        assert l < i;
      }
    }
    assert RarerThan(words, count, cap, s[i].place) == PlacesOf(s, i);
    PlacesCount(s, i);
  }

  // ------------------------------------------------------------------ which chunks

  // What a question may be answered from: what the caller may read, of the named books if any is named.
  predicate InReach(caller: Id, books: seq<Id>, r: Row) { MayRead(caller, r) && (books == [] || r.book in books) }

  lemma InReachIs(caller: Id, books: seq<Id>, r: Row)
    ensures InReach(caller, books, r) <==> Visible(caller, r) && Named(books, r)
  {
  }

  // The places of the rows that pass.
  ghost function Where(rows: seq<Row>, p: Row -> bool): set<nat> { set k: nat | k < |rows| && p(rows[k]) }

  lemma {:induction false} FilterSize(rows: seq<Row>, p: Row -> bool)
    ensures |Filter(rows, p)| == |Where(rows, p)|
  {
    if rows == [] {
      assert Where(rows, p) == {};
    } else {
      var n := |rows| - 1;
      FilterSize(rows[..n], p);
      assert n !in Where(rows[..n], p);
      assert Where(rows, p) == if p(rows[n]) then Where(rows[..n], p) + {n} else Where(rows[..n], p);
    }
  }

  lemma SameWhere(rows: seq<Row>, p: Row -> bool, q: Row -> bool)
    requires forall r :: p(r) <==> q(r)
    ensures Where(rows, p) == Where(rows, q)
  {
  }

  ghost function Readable(caller: Id, books: seq<Id>): Row -> bool { (r: Row) => InReach(caller, books, r) }

  ghost function Has(engine: Engine, caller: Id, books: seq<Id>, w: string): Row -> bool {
    (r: Row) => InReach(caller, books, r) && engine.matches(r.text, w)
  }

  /** A word's count is that of the chunks in reach that have it. */
  lemma FrequencyIs(engine: Engine, db: Database, caller: Id, books: seq<Id>, w: string)
    ensures Frequency(engine, db, caller, books, w) == |Where(db.rows, Has(engine, caller, books, w))|
  {
    var p, q := Mentions(engine, caller, books, w), Has(engine, caller, books, w);
    FilterSize(db.rows, p);
    forall r ensures p(r) <==> q(r) { InReachIs(caller, books, r); }
    SameWhere(db.rows, p, q);
  }

  /** A word is too common to tell past one in fifty of the chunks in reach: past three at least, and
      past four hundred at most. */
  lemma CapIs(db: Database, caller: Id, books: seq<Id>)
    ensures var n, cap := |Where(db.rows, Readable(caller, books))|, SelectivityCap(db, caller, books);
      3 <= cap <= 400 && (cap > 3 ==> 50 * cap <= n) && (cap < 400 ==> n < 50 * (cap + 1))
  {
    hide Filter;
    var p, q := Reachable(caller, books), Readable(caller, books);
    FilterSize(db.rows, p);
    forall r ensures p(r) <==> q(r) { InReachIs(caller, books, r); }
    SameWhere(db.rows, p, q);
  }

  // Both are embedded, and the one is nearer the question, or as near with a lower id.
  predicate Closer(engine: Engine, a: Row, b: Row) {
    && a.embedding.Some? && b.embedding.Some?
    && (engine.near(a.embedding.value) < engine.near(b.embedding.value)
        || (engine.near(a.embedding.value) == engine.near(b.embedding.value) && a.id < b.id))
  }

  // A search's candidates, and those of them closer than a row.
  ghost function Candidates(caller: Id, books: seq<Id>): Row -> bool { (r: Row) => InReach(caller, books, r) && r.embedding.Some? }

  ghost function Corroborating(engine: Engine, caller: Id, books: seq<Id>, terms: seq<string>): Row -> bool {
    (r: Row) => InReach(caller, books, r) && r.embedding.Some? && engine.matchesAny(r.text, terms)
  }

  ghost function CloserOf(engine: Engine, p: Row -> bool, r: Row): Row -> bool { (x: Row) => p(x) && Closer(engine, x, r) }

  // The row is a candidate within the ceiling, and fewer candidates are closer than the search takes.
  ghost predicate Found(engine: Engine, db: Database, candidate: Row -> bool, k: nat, ceiling: real, r: Row) {
    && r in db.rows && candidate(r) && r.embedding.Some? && engine.near(r.embedding.value) <= ceiling
    && |Where(db.rows, CloserOf(engine, candidate, r))| < k
  }

  lemma RankIsWhere(engine: Engine, rows: seq<Row>, p: Row -> bool, q: Row -> bool, r: Row)
    requires (forall x :: p(x) <==> q(x)) && (forall x :: p(x) ==> x.embedding.Some?) && p(r)
    ensures Rank(engine, rows, p, r) == |Where(rows, CloserOf(engine, q, r))|
  {
    hide Filter;
    var nearer := Nearer(engine, r);
    var both := (x: Row) => p(x) && nearer(x);
    assert Filter(Filter(rows, p), nearer) == Filter(rows, both) by { FilterBoth(rows, nearer, p, both); }
    FilterSize(rows, both);
    forall x ensures both(x) <==> CloserOf(engine, q, r)(x) {
      if p(x) { assert Before(Nearness(engine)(x), Nearness(engine)(r)) <==> Closer(engine, x, r); }
    }
    SameWhere(rows, both, CloserOf(engine, q, r));
  }

  /** The first tier returns a chunk exactly when it is embedded, in reach and within the ceiling, and
      fewer of such chunks are closer than the search takes. */
  lemma SearchIff(engine: Engine, db: Database, caller: Id, books: seq<Id>, limits: Limits, r: Row)
    requires Keyed(db.rows)
    ensures r in SearchChunks(engine, db, caller, books, limits)
       <==> Found(engine, db, Candidates(caller, books), limits.topK, limits.maxDistance, r)
  {
    hide Nearest, Keyed, Rank, Where;
    var p, q := Searchable(caller, books), Candidates(caller, books);
    InNearestIff(engine, db.rows, p, limits.topK, limits.maxDistance, r);
    forall x ensures p(x) <==> q(x) { InReachIs(caller, books, x); }
    if p(r) { RankIsWhere(engine, db.rows, p, q, r); }
  }

  /** The second tier does so of those that have one of the words, within its own ceiling. */
  lemma CorroboratedIff(engine: Engine, db: Database, caller: Id, books: seq<Id>, terms: seq<string>, limits: Limits, r: Row)
    requires Keyed(db.rows)
    ensures r in Corroborated(engine, db, caller, books, terms, limits)
       <==> terms != [] && Found(engine, db, Corroborating(engine, caller, books, terms), limits.topK, limits.salvageDistance, r)
  {
    hide Nearest, Keyed, Rank, Where;
    var p, q := Naming(engine, caller, books, terms), Corroborating(engine, caller, books, terms);
    InNearestIff(engine, db.rows, p, limits.topK, limits.salvageDistance, r);
    forall x ensures p(x) <==> q(x) { InReachIs(caller, books, x); }
    if p(r) { RankIsWhere(engine, db.rows, p, q, r); }
  }

  // A search's rows run from the closest on.
  lemma NearestRun(engine: Engine, rows: seq<Row>, p: Row -> bool, k: nat, ceiling: real)
    ensures InOrder(Nearest(engine, rows, p, k, ceiling), Nearness(engine))
  {
    hide Filter, Sort;
    var picked := Filter(rows, p);
    Sorts(picked, Nearness(engine));
    OrderedPrefix(Sort(picked, Nearness(engine)), Take(Sort(picked, Nearness(engine)), k), engine);
    FilterInOrder(Take(Sort(picked, Nearness(engine)), k), (r: Row) => Distance(engine, r) <= ceiling, Nearness(engine));
  }

  /** An answer: the first tier's chunks when it has any, unmarked; otherwise the second tier's, marked
      and with the words that found them. Each comes with its distance and its book's title, the
      closest first. */
  lemma AnswerIs(engine: Engine, db: Database, caller: Id, books: seq<Id>, words: seq<string>, limits: Limits, i: nat)
    requires i < |Retrieved(engine, db, caller, books, words, limits)|
    ensures var hits, h := Retrieved(engine, db, caller, books, words, limits), Retrieved(engine, db, caller, books, words, limits)[i];
      var strict, terms := SearchChunks(engine, db, caller, books, limits), SignificantTerms(engine, db, caller, books, words);
      && h.loose == (strict == []) && h.terms == (if strict == [] then terms else [])
      && RowsOf(hits) == (if strict == [] then Corroborated(engine, db, caller, books, terms, limits) else strict)
      && h.row.embedding.Some? && h.distance == engine.near(h.row.embedding.value)
      && (h.row.book in db.titles ==> h.title == db.titles[h.row.book]) && (h.row.book !in db.titles ==> h.title == "Untitled")
      && forall j :: i < j < |hits| ==> !Closer(engine, hits[j].row, h.row)
  {
    hide Nearest, SignificantTerms;
    var hits := Retrieved(engine, db, caller, books, words, limits);
    var strict, terms := SearchChunks(engine, db, caller, books, limits), SignificantTerms(engine, db, caller, books, words);
    AnswerRows(engine, db, caller, books, words, limits);
    assert hits[i] in hits;
    HitsAreInScope(engine, db, caller, books, words, limits, hits[i]);
    NearestRun(engine, db.rows, Searchable(caller, books), limits.topK, limits.maxDistance);
    NearestRun(engine, db.rows, Naming(engine, caller, books, terms), limits.topK, limits.salvageDistance);
    forall j | i < j < |hits| ensures !Closer(engine, hits[j].row, hits[i].row) {
      assert RowsOf(hits)[j] == hits[j].row && RowsOf(hits)[i] == hits[i].row;
      assert !Before(Nearness(engine)(RowsOf(hits)[j]), Nearness(engine)(RowsOf(hits)[i]));
    }
  }
}
