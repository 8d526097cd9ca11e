/** What a caller's answers can and cannot depend on. */
module Scoping {
  import opened Retrieval
  import opened Sorting
  import opened Wrappers

  // ---------------------------------------------------------------------- filtering

  lemma {:induction false} FilterCounts(rows: seq<Row>, p: Row -> bool, x: Row)
    ensures multiset(Filter(rows, p))[x] == if p(x) then multiset(rows)[x] else 0
  {
    if rows != [] {
      var rest, last := rows[..|rows| - 1], rows[|rows| - 1];
      FilterCounts(rest, p, x);
      assert rows == rest + [last];
      assert multiset(rows) == multiset(rest) + multiset{last};
    }
  }

  lemma {:induction false} FilterSame(a: seq<Row>, b: seq<Row>, p: Row -> bool)
    requires multiset(a) == multiset(b)
    ensures multiset(Filter(a, p)) == multiset(Filter(b, p)) && |Filter(a, p)| == |Filter(b, p)|
  {
    forall x ensures multiset(Filter(a, p))[x] == multiset(Filter(b, p))[x] {
      FilterCounts(a, p, x);
      FilterCounts(b, p, x);
    }
    assert multiset(Filter(a, p)) == multiset(Filter(b, p));
    assert |multiset(Filter(a, p))| == |multiset(Filter(b, p))|;
  }

  lemma {:induction false} FilterWithin(rows: seq<Row>, p: Row -> bool, q: Row -> bool)
    requires forall r :: p(r) ==> q(r)
    ensures Filter(Filter(rows, q), p) == Filter(rows, p)
  {
    if rows != [] {
      var rest, last := rows[..|rows| - 1], rows[|rows| - 1];
      FilterWithin(rest, p, q);
      if q(last) { assert (Filter(rest, q) + [last])[..|Filter(rest, q)|] == Filter(rest, q); }
    }
  }

  lemma {:induction false} FilterMembers(rows: seq<Row>, p: Row -> bool)
    ensures forall r :: r in Filter(rows, p) <==> r in rows && p(r)
  {
    if rows != [] {
      var rest, last := rows[..|rows| - 1], rows[|rows| - 1];
      FilterMembers(rest, p);
      assert rows == rest + [last];
    }
  }

  lemma {:induction false} FilterAdds(a: seq<Row>, b: seq<Row>, p: Row -> bool)
    ensures Filter(a + b, p) == Filter(a, p) + Filter(b, p)
  {
    if b == [] {
      assert a + b == a;
    } else {
      FilterAdds(a, b[..|b| - 1], p);
      assert (a + b)[..|a + b| - 1] == a + b[..|b| - 1];
    }
  }

  // A primary key: rows with one id are one row.
  predicate Keyed(rows: seq<Row>) { forall i, j :: 0 <= i < |rows| && 0 <= j < |rows| && rows[i].id == rows[j].id ==> rows[i] == rows[j] }

  lemma SameRows(a: seq<Row>, b: seq<Row>)
    requires multiset(a) == multiset(b)
    ensures forall x :: x in a <==> x in b
  {
    forall x ensures x in a <==> x in b {
      assert x in a <==> x in multiset(a);
      assert x in b <==> x in multiset(b);
    }
  }

  // Nothing in an ordering comes after its last.
  lemma LastIsLast(a: seq<Row>, engine: Engine, x: Row)
    requires InOrder(a, Nearness(engine)) && x in a
    ensures a[|a| - 1] == x || !Before(Nearness(engine)(a[|a| - 1]), Nearness(engine)(x))
  {
    var i :| 0 <= i < |a| && a[i] == x;
  }

  lemma SameLast(a: seq<Row>, b: seq<Row>, engine: Engine)
    requires a != [] && b != [] && (forall x :: x in a <==> x in b) && Keyed(a)
    requires InOrder(a, Nearness(engine)) && InOrder(b, Nearness(engine))
    ensures a[|a| - 1] == b[|b| - 1]
  {
    hide InOrder;
    var x, y := a[|a| - 1], b[|b| - 1];
    assert x in a && y in b;
    LastIsLast(a, engine, y);
    LastIsLast(b, engine, x);
    var j :| 0 <= j < |a| && a[j] == y;
    assert x.id == y.id;
  }

  lemma KeyedPrefix(a: seq<Row>, b: seq<Row>)
    requires Keyed(a) && b <= a
    ensures Keyed(b)
  {
  }

  lemma OrderedPrefix(a: seq<Row>, b: seq<Row>, engine: Engine)
    requires InOrder(a, Nearness(engine)) && b <= a
    ensures InOrder(b, Nearness(engine))
  {
    hide Nearness, Before;
  }

  lemma Peeled(a: seq<Row>, engine: Engine)
    requires a != [] && Keyed(a) && InOrder(a, Nearness(engine))
    ensures multiset(a[..|a| - 1]) == multiset(a) - multiset{a[|a| - 1]}
    ensures Keyed(a[..|a| - 1]) && InOrder(a[..|a| - 1], Nearness(engine))
  {
    var rest := a[..|a| - 1];
    KeyedPrefix(a, rest);
    OrderedPrefix(a, rest, engine);
    hide *;
    assert a == rest + [a[|a| - 1]];
  }

  lemma SameLength(a: seq<Row>, b: seq<Row>)
    requires multiset(a) == multiset(b)
    ensures |a| == |b|
  {
    assert |multiset(a)| == |a| && |multiset(b)| == |b|;
  }

  // Two orderings of the same rows by distance and id are one.
  lemma {:induction false} OrderIsUnique(a: seq<Row>, b: seq<Row>, engine: Engine)
    requires multiset(a) == multiset(b) && Keyed(a) && Keyed(b) && InOrder(a, Nearness(engine)) && InOrder(b, Nearness(engine))
    ensures a == b
    decreases |a|
  {
    hide *;
    SameLength(a, b);
    if a != [] {
      SameRows(a, b);
      SameLast(a, b, engine);
      Peeled(a, engine);
      Peeled(b, engine);
      var ra, rb := a[..|a| - 1], b[..|b| - 1];
      assert multiset(ra) == multiset(rb);
      OrderIsUnique(ra, rb, engine);
      assert a == ra + [a[|a| - 1]] && b == rb + [b[|b| - 1]];
    }
  }

  lemma {:induction false} SortUnique(a: seq<Row>, b: seq<Row>, engine: Engine)
    requires multiset(a) == multiset(b) && Keyed(a) && Keyed(b)
    ensures Sort(a, Nearness(engine)) == Sort(b, Nearness(engine))
  {
    hide Sort, Nearness, InOrder;
    Sorts(a, Nearness(engine));
    Sorts(b, Nearness(engine));
    SortedKeyed(a, engine);
    SortedKeyed(b, engine);
    OrderIsUnique(Sort(a, Nearness(engine)), Sort(b, Nearness(engine)), engine);
  }

  lemma {:induction false} SortedKeyed(a: seq<Row>, engine: Engine)
    requires Keyed(a)
    ensures Keyed(Sort(a, Nearness(engine)))
  {
    hide Sort;
    Sorts(a, Nearness(engine));
    var s := Sort(a, Nearness(engine));
    SameRows(a, s);
    forall i, j | 0 <= i < |s| && 0 <= j < |s| && s[i].id == s[j].id ensures s[i] == s[j] {
      assert s[i] in a && s[j] in a;
    }
  }

  lemma {:induction false} FilterKeyed(rows: seq<Row>, p: Row -> bool)
    requires Keyed(rows)
    ensures Keyed(Filter(rows, p))
  {
    hide Filter;
    FilterMembers(rows, p);
    var f := Filter(rows, p);
    forall i, j | 0 <= i < |f| && 0 <= j < |f| && f[i].id == f[j].id ensures f[i] == f[j] {
      assert f[i] in rows && f[j] in rows;
    }
  }

  // --------------------------------------------------------------- non-interference

  // What a caller may read: what is shared, and their own.
  predicate MayRead(caller: Id, r: Row) { r.scope == Canon || r.owner == caller }

  function Sees(caller: Id): Row -> bool { (r: Row) => MayRead(caller, r) }

  // Two databases with the same chunks for the caller to see, and the same titles for them.
  predicate Agree(a: Database, b: Database, caller: Id) {
    && Keyed(a.rows) && Keyed(b.rows)
    && multiset(Filter(a.rows, Sees(caller))) == multiset(Filter(b.rows, Sees(caller)))
    && forall k :: 0 <= k < |a.rows| && MayRead(caller, a.rows[k]) ==>
         (a.rows[k].book in a.titles <==> a.rows[k].book in b.titles)
         && (a.rows[k].book in a.titles ==> a.titles[a.rows[k].book] == b.titles[a.rows[k].book])
  }

  // A selection that keeps to what the caller sees is the same in both.
  lemma SelectionAgrees(a: Database, b: Database, caller: Id, p: Row -> bool)
    requires Agree(a, b, caller) && forall r :: p(r) ==> MayRead(caller, r)
    ensures multiset(Filter(a.rows, p)) == multiset(Filter(b.rows, p)) && |Filter(a.rows, p)| == |Filter(b.rows, p)|
  {
    hide Filter, MayRead;
    FilterWithin(a.rows, p, Sees(caller));
    FilterWithin(b.rows, p, Sees(caller));
    FilterSame(Filter(a.rows, Sees(caller)), Filter(b.rows, Sees(caller)), p);
  }

  lemma NearestAgrees(engine: Engine, a: Database, b: Database, caller: Id, p: Row -> bool, k: nat, ceiling: real)
    requires Agree(a, b, caller) && forall r :: p(r) ==> MayRead(caller, r)
    ensures Nearest(engine, a.rows, p, k, ceiling) == Nearest(engine, b.rows, p, k, ceiling)
  {
    hide Filter, MayRead, Sort, Take, Nearness;
    SelectionAgrees(a, b, caller, p);
    FilterKeyed(a.rows, p);
    FilterKeyed(b.rows, p);
    SortUnique(Filter(a.rows, p), Filter(b.rows, p), engine);
  }

  lemma {:induction false} PresentSame(words: seq<string>, f: string -> nat, g: string -> nat, cap: nat)
    requires forall w :: f(w) == g(w)
    ensures Present(words, f, cap) == Present(words, g, cap)
  {
    if words != [] { PresentSame(words[..|words| - 1], f, g, cap); }
  }

  lemma MentionsAreRead(engine: Engine, caller: Id, books: seq<Id>, w: string)
    ensures forall r :: Mentions(engine, caller, books, w)(r) ==> MayRead(caller, r)
  {
    forall r | Mentions(engine, caller, books, w)(r) ensures MayRead(caller, r) { assert Visible(caller, r); }
  }

  /** Which of the question's words count as significant is settled by what the caller can see. */
  lemma TermsAgree(engine: Engine, a: Database, b: Database, caller: Id, books: seq<Id>, words: seq<string>)
    requires Agree(a, b, caller)
    ensures SignificantTerms(engine, a, caller, books, words) == SignificantTerms(engine, b, caller, books, words)
  {
    hide Filter, Agree, Probes, Present, WordsOf;
    forall w ensures Counts(engine, a, caller, books)(w) == Counts(engine, b, caller, books)(w) {
      MentionsAreRead(engine, caller, books, w);
      SelectionAgrees(a, b, caller, Mentions(engine, caller, books, w));
    }
    SelectionAgrees(a, b, caller, Reachable(caller, books));
    PresentSame(Probes(words), Counts(engine, a, caller, books), Counts(engine, b, caller, books), SelectivityCap(a, caller, books));
  }

  lemma NearestMembers(engine: Engine, rows: seq<Row>, p: Row -> bool, k: nat, ceiling: real, r: Row)
    requires r in Nearest(engine, rows, p, k, ceiling)
    ensures r in rows && p(r) && Distance(engine, r) <= ceiling
  {
    hide Filter, Sort;
    var picked, key := Filter(rows, p), Nearness(engine);
    FilterMembers(rows, p);
    Sorts(picked, key);
    SameRows(picked, Sort(picked, key));
    FilterMembers(Take(Sort(picked, key), k), (x: Row) => Distance(engine, x) <= ceiling);
    assert r in Sort(picked, key);
  }

  lemma EnrichAgrees(engine: Engine, a: Database, b: Database, caller: Id, rows: seq<Row>, loose: bool, terms: seq<string>)
    requires Agree(a, b, caller) && forall r :: r in rows ==> r in a.rows && MayRead(caller, r)
    ensures Enrich(engine, a, rows, loose, terms) == Enrich(engine, b, rows, loose, terms)
  {
    hide Filter, MayRead;
    forall i | 0 <= i < |rows|
      ensures Enrich(engine, a, rows, loose, terms)[i] == Enrich(engine, b, rows, loose, terms)[i]
    {
      assert rows[i] in rows;
      var k :| 0 <= k < |a.rows| && a.rows[k] == rows[i];
    }
  }

  /** What a caller gets back for a question depends on nothing but the shared chunks and the
      caller's own: over any two databases alike in those, both tiers answer alike, the word
      counts that open the second tier included. */
  lemma OthersBooksDoNotMatter(engine: Engine, a: Database, b: Database, caller: Id, books: seq<Id>, words: seq<string>, limits: Limits)
    requires Agree(a, b, caller)
    ensures Retrieved(engine, a, caller, books, words, limits) == Retrieved(engine, b, caller, books, words, limits)
  {
    hide Agree, Nearest, Enrich, SignificantTerms;
    var p := Searchable(caller, books);
    NearestAgrees(engine, a, b, caller, p, limits.topK, limits.maxDistance);
    var hits := SearchChunks(engine, a, caller, books, limits);
    forall r | r in hits ensures r in a.rows && MayRead(caller, r) {
      NearestMembers(engine, a.rows, p, limits.topK, limits.maxDistance, r);
    }
    EnrichAgrees(engine, a, b, caller, hits, false, []);
    TermsAgree(engine, a, b, caller, books, words);
    var terms := SignificantTerms(engine, a, caller, books, words);
    var q := Naming(engine, caller, books, terms);
    NearestAgrees(engine, a, b, caller, q, limits.topK, limits.salvageDistance);
    var found := Corroborated(engine, a, caller, books, terms, limits);
    forall r | r in found ensures r in a.rows && MayRead(caller, r) {
      NearestMembers(engine, a.rows, q, limits.topK, limits.salvageDistance, r);
    }
    EnrichAgrees(engine, a, b, caller, found, true, terms);
  }

  /** Every chunk that comes back is stored, may be read by the caller, is of a named book when
      any is named, has been embedded, and is within the ceiling of its tier. */
  lemma HitsAreInScope(engine: Engine, db: Database, caller: Id, books: seq<Id>, words: seq<string>, limits: Limits, h: Found)
    requires h in Retrieved(engine, db, caller, books, words, limits)
    ensures h.row in db.rows && MayRead(caller, h.row) && (books == [] || h.row.book in books) && h.row.embedding.Some?
    ensures h.distance == Distance(engine, h.row) <= if h.loose then limits.salvageDistance else limits.maxDistance
  {
    hide Nearest, SignificantTerms, Distance;
    var strict := SearchChunks(engine, db, caller, books, limits);
    if strict != [] {
      assert h.row in strict;
      NearestMembers(engine, db.rows, Searchable(caller, books), limits.topK, limits.maxDistance, h.row);
    } else {
      var terms := SignificantTerms(engine, db, caller, books, words);
      var found := Corroborated(engine, db, caller, books, terms, limits);
      assert h.row in found;
      NearestMembers(engine, db.rows, Naming(engine, caller, books, terms), limits.topK, limits.salvageDistance, h.row);
    }
  }

  // ---------------------------------------------------------------------- narrowing

  lemma {:induction false} FilterBoth(rows: seq<Row>, p: Row -> bool, q: Row -> bool, both: Row -> bool)
    requires forall r :: both(r) <==> p(r) && q(r)
    ensures Filter(Filter(rows, q), p) == Filter(rows, both)
  {
    if rows != [] {
      var rest, last := rows[..|rows| - 1], rows[|rows| - 1];
      FilterBoth(rest, p, q, both);
      if q(last) { assert (Filter(rest, q) + [last])[..|Filter(rest, q)|] == Filter(rest, q); }
    }
  }

  lemma {:induction false} FilterInOrder(rows: seq<Row>, p: Row -> bool, key: Row -> Key)
    requires InOrder(rows, key)
    ensures InOrder(Filter(rows, p), key)
  {
    if rows != [] {
      var rest, last := rows[..|rows| - 1], rows[|rows| - 1];
      FilterInOrder(rest, p, key);
      FilterMembers(rest, p);
      var f := Filter(rest, p);
      forall i | 0 <= i < |f| ensures !Before(key(last), key(f[i])) {
        assert f[i] in rest;
        var k :| 0 <= k < |rest| && rest[k] == f[i];
        assert rows[k] == f[i];
      }
    }
  }

  // Filtering an ordering orders what is filtered.
  lemma {:induction false} FilterSorted(rows: seq<Row>, p: Row -> bool, engine: Engine)
    requires Keyed(rows)
    ensures Filter(Sort(rows, Nearness(engine)), p) == Sort(Filter(rows, p), Nearness(engine))
  {
    hide Filter, Sort, InOrder, Nearness, Keyed;
    var key := Nearness(engine);
    Sorts(rows, key);
    FilterInOrder(Sort(rows, key), p, key);
    Sorts(Filter(rows, p), key);
    FilterSame(rows, Sort(rows, key), p);
    FilterKeyed(rows, p);
    SortedKeyed(rows, engine);
    FilterKeyed(Sort(rows, key), p);
    SortedKeyed(Filter(rows, p), engine);
    OrderIsUnique(Filter(Sort(rows, key), p), Sort(Filter(rows, p), key), engine);
  }

  function NamedIn(books: seq<Id>): Row -> bool { (r: Row) => Named(books, r) }

  /** When the candidates are no more than the search takes, naming books leaves just the hits of
      those books. */
  lemma NarrowingSubtracts(engine: Engine, db: Database, caller: Id, books: seq<Id>, limits: Limits)
    requires Keyed(db.rows) && |Filter(db.rows, Searchable(caller, []))| <= limits.topK
    ensures SearchChunks(engine, db, caller, books, limits) == Filter(SearchChunks(engine, db, caller, [], limits), NamedIn(books))
  {
    hide Filter, Sort, Keyed, Nearness, Distance;
    var all, some, key := Filter(db.rows, Searchable(caller, [])), Filter(db.rows, Searchable(caller, books)), Nearness(engine);
    var close, named := (r: Row) => Distance(engine, r) <= limits.maxDistance, NamedIn(books);
    FilterBoth(db.rows, named, Searchable(caller, []), Searchable(caller, books));
    FilterFewer(all, named);
    Sorts(all, key);
    Sorts(some, key);
    FilterKeyed(db.rows, Searchable(caller, []));
    FilterSorted(all, named, engine);
    FilterBoth(Sort(all, key), close, named, (r: Row) => close(r) && named(r));
    FilterBoth(Sort(all, key), named, close, (r: Row) => close(r) && named(r));
    assert SearchChunks(engine, db, caller, books, limits) == Filter(Sort(some, key), close);
    assert SearchChunks(engine, db, caller, [], limits) == Filter(Sort(all, key), close);
  }

  lemma {:induction false} FilterFewer(rows: seq<Row>, p: Row -> bool)
    ensures |Filter(rows, p)| <= |rows|
  {
    if rows != [] { FilterFewer(rows[..|rows| - 1], p); }
  }

  /** Past that, naming a book can bring in a chunk the wider search left out: it makes room. */
  lemma NarrowingCanAdd(engine: Engine, caller: Id, words: seq<string>) returns (db: Database, limits: Limits, r: Row)
    requires engine.near([0.0]) == 0.0 && engine.near([1.0]) == 0.5
    ensures r in SearchChunks(engine, db, caller, [2], limits) && r !in SearchChunks(engine, db, caller, [], limits)
    ensures !Subtracts(engine, db, caller, [2], words, limits)
  {
    hide Filter, Sort, Take;
    var first := Row(1, 1, Canon, 0, "", Some([0.0]));
    r := Row(2, 2, Canon, 0, "", Some([1.0]));
    db, limits := Database([first, r], map[]), Limits(1, 1.0, 1.0);
    FilterTwo(first, r, Searchable(caller, [2]));
    FilterTwo(first, r, Searchable(caller, []));
    SortTwo(first, r, Nearness(engine));
    assert Filter(db.rows, Searchable(caller, [2])) == [r];
    assert Filter(db.rows, Searchable(caller, [])) == [first, r];
    assert Sort([first, r], Nearness(engine)) == [first, r];
    TakeOne(first, r);
    var close := (x: Row) => Distance(engine, x) <= limits.maxDistance;
    FilterOne(r, close);
    FilterOne(first, close);
    assert SearchChunks(engine, db, caller, [2], limits) == Filter([r], close);
    assert SearchChunks(engine, db, caller, [], limits) == Filter([first], close);
    hide SearchChunks, Retrieved, Subtracts;
    SubtractsRows(engine, db, caller, [2], words, limits);
    assert RowsFor(engine, db, caller, [2], words, limits) == [r] && RowsFor(engine, db, caller, [], words, limits) == [first];
    assert r in [r];
  }

  /** And so can naming a book whose chunks the first tier passes over: it empties that tier, and the
      second finds one by the question's word. However much the search takes. */
  lemma NarrowingCanOpenTheSecondTier(engine: Engine, caller: Id, word: string, topK: nat) returns (db: Database, limits: Limits, r: Row)
    requires engine.near([0.0]) == 0.0 && engine.near([1.0]) == 0.5 && topK >= 2
    requires |word| >= MIN_TERM_CHARS && engine.matches(word, word) && engine.matchesAny(word, [word])
    ensures limits.topK == topK && |Filter(db.rows, Searchable(caller, []))| <= topK
    ensures RowsFor(engine, db, caller, [2], [word], limits) == [r] && r !in RowsFor(engine, db, caller, [], [word], limits)
    ensures !Subtracts(engine, db, caller, [2], [word], limits)
  {
    hide Filter, Sort, Take, Retrieved, Subtracts, SignificantTerms;
    var first := Row(1, 1, Canon, 0, word, Some([0.0]));
    r := Row(2, 2, Canon, 0, word, Some([1.0]));
    db, limits := Database([first, r], map[]), Limits(topK, 0.3, 0.6);
    var key := Nearness(engine);
    FilterTwo(first, r, Searchable(caller, [2]));
    FilterTwo(first, r, Searchable(caller, []));
    FilterTwo(first, r, Naming(engine, caller, [2], [word]));
    SortTwo(first, r, key);
    assert Filter(db.rows, Searchable(caller, [2])) == [r];
    assert Filter(db.rows, Searchable(caller, [])) == [first, r];
    assert Filter(db.rows, Naming(engine, caller, [2], [word])) == [r];
    assert Sort([first, r], key) == [first, r];
    TakeAll(first, r, topK);
    var near, loose := (x: Row) => Distance(engine, x) <= limits.maxDistance, (x: Row) => Distance(engine, x) <= limits.salvageDistance;
    FilterOne(r, near);
    FilterOne(r, loose);
    FilterTwo(first, r, near);
    assert SearchChunks(engine, db, caller, [2], limits) == Filter([r], near) == [];
    assert SearchChunks(engine, db, caller, [], limits) == Filter([first, r], near) == [first] + [];
    OneTelling(engine, db, caller, first, r, word);
    assert Corroborated(engine, db, caller, [2], [word], limits) == Filter([r], loose) == [r];
    SubtractsRows(engine, db, caller, [2], [word], limits);
    assert r in RowsFor(engine, db, caller, [2], [word], limits);
  }

  lemma TakeAll(a: Row, b: Row, k: nat)
    requires k >= 2
    ensures Take([a, b], k) == [a, b] && Take([b], k) == [b]
  {
  }

  // The one word of the question is found in the one chunk of book 2, and so is significant.
  lemma OneTelling(engine: Engine, db: Database, caller: Id, first: Row, r: Row, word: string)
    requires db.rows == [first, r] && first.book == 1 && r.book == 2 && r.scope == Canon && engine.matches(r.text, word)
    requires |word| >= MIN_TERM_CHARS
    ensures SignificantTerms(engine, db, caller, [2], [word]) == [word]
  {
    hide Filter, Chosen, Probes;
    FilterTwo(first, r, Mentions(engine, caller, [2], word));
    FilterTwo(first, r, Reachable(caller, [2]));
    assert Filter(db.rows, Mentions(engine, caller, [2], word)) == [r] && Filter(db.rows, Reachable(caller, [2])) == [r];
    ProbesOne(word);
    ChosenOne(word, Counts(engine, db, caller, [2]));
  }

  lemma ProbesOne(word: string)
    requires |word| >= MIN_TERM_CHARS
    ensures Probes([word]) == [word]
  {
    assert [word][..0] == [];
    assert Probes([word][..0]) == [];
  }

  lemma ChosenOne(word: string, count: string -> nat)
    requires count(word) == 1
    ensures Chosen([word], count, MIN_SELECTIVE) == [Term(word, 1, 0)]
  {
    hide Present, Rare, Sort;
    var t := Term(word, 1, 0);
    PresentOne(word, count);
    RareOne(t);
    SortOne(t);
  }

  lemma PresentOne(word: string, count: string -> nat)
    requires count(word) == 1
    ensures Present([word], count, MIN_SELECTIVE) == [Term(word, 1, 0)]
  {
    assert [word][..0] == [] && Present([word][..0], count, MIN_SELECTIVE) == [];
  }

  lemma RareOne(t: Term)
    requires t.found == 1
    ensures Rare([t], Spread(1)) == [t]
  {
    assert [t][..0] == [] && Rare([t][..0], Spread(1)) == [];
  }

  lemma SortOne(t: Term)
    ensures Sort([t], TermKey) == [t]
  {
    assert [t][..0] == [] && Sort([t][..0], TermKey) == [];
  }

  lemma TakeOne(a: Row, b: Row)
    ensures Take([a, b], 1) == [a] && Take([b], 1) == [b]
  {
  }

  lemma FilterOne(a: Row, p: Row -> bool)
    ensures Filter([a], p) == if p(a) then [a] else []
  {
    assert [a][..0] == [];
  }

  lemma FilterTwo(a: Row, b: Row, p: Row -> bool)
    ensures Filter([a, b], p) == (if p(a) then [a] else []) + (if p(b) then [b] else [])
  {
    FilterOne(a, p);
    assert [a, b][..1] == [a];
  }

  lemma SortTwo(a: Row, b: Row, key: Row -> Key)
    ensures Sort([a], key) == [a] && Sort([b], key) == [b]
    ensures !Before(key(b), key(a)) ==> Sort([a, b], key) == [a, b]
  {
    assert [a, b][..1] == [a] && [a][..0] == [] && [b][..0] == [];
  }

  // How many of the rows that pass come before r.
  function Rank(engine: Engine, rows: seq<Row>, p: Row -> bool, r: Row): nat { |Filter(Filter(rows, p), Nearer(engine, r))| }

  function Nearer(engine: Engine, r: Row): Row -> bool { (x: Row) => Before(Nearness(engine)(x), Nearness(engine)(r)) }

  lemma {:induction false} FilterAll(rows: seq<Row>, p: Row -> bool)
    requires forall k :: 0 <= k < |rows| ==> p(rows[k])
    ensures Filter(rows, p) == rows
  {
    if rows != [] { FilterAll(rows[..|rows| - 1], p); }
  }

  lemma {:induction false} FilterNone(rows: seq<Row>, p: Row -> bool)
    requires forall k :: 0 <= k < |rows| ==> !p(rows[k])
    ensures Filter(rows, p) == []
  {
    if rows != [] { FilterNone(rows[..|rows| - 1], p); }
  }

  lemma FirstPlace(rows: seq<Row>, r: Row) returns (i: nat)
    requires r in rows
    ensures i < |rows| && rows[i] == r && r !in rows[..i]
  {
    i := 0;
    while rows[i] != r
      invariant i < |rows| && r !in rows[..i] && r in rows
      decreases |rows| - i
    {
      assert rows == rows[..i] + rows[i..];
      i := i + 1;
    }
  }

  lemma BeforeIsNearer(s: seq<Row>, i: nat, engine: Engine)
    requires i < |s| && Keyed(s) && InOrder(s, Nearness(engine)) && s[i] !in s[..i]
    ensures forall k :: 0 <= k < i ==> Nearer(engine, s[i])(s[..i][k])
    ensures forall k :: 0 <= k < |s| - i ==> !Nearer(engine, s[i])(s[i..][k])
  {
    hide Distance;
    forall k | 0 <= k < i ensures Nearer(engine, s[i])(s[..i][k]) {
      assert s[..i][k] == s[k];
      assert !Before(Nearness(engine)(s[i]), Nearness(engine)(s[k]));
      assert s[k].id != s[i].id;
    }
    forall k | 0 <= k < |s| - i ensures !Nearer(engine, s[i])(s[i..][k]) {
      assert s[i..][k] == s[i + k];
      if k > 0 { assert !Before(Nearness(engine)(s[i + k]), Nearness(engine)(s[i])); }
    }
  }

  // A row's first place in an ordering is how many rows come before it.
  lemma PlaceIsRank(s: seq<Row>, r: Row, engine: Engine) returns (i: nat)
    requires r in s && Keyed(s) && InOrder(s, Nearness(engine))
    ensures i == |Filter(s, Nearer(engine, r))| < |s| && s[i] == r && r !in s[..i]
  {
    hide *;
    i := FirstPlace(s, r);
    BeforeIsNearer(s, i, engine);
    assert s[i] == r;
    FilterAll(s[..i], Nearer(engine, r));
    FilterNone(s[i..], Nearer(engine, r));
    FilterAdds(s[..i], s[i..], Nearer(engine, r));
    assert s == s[..i] + s[i..];
  }

  /** A search returns a row exactly when it is stored, passes, is close enough, and fewer rows that
      pass come before it than the search takes. */
  lemma InNearestIff(engine: Engine, rows: seq<Row>, p: Row -> bool, k: nat, ceiling: real, r: Row)
    requires Keyed(rows)
    ensures r in Nearest(engine, rows, p, k, ceiling) <==> r in rows && p(r) && Distance(engine, r) <= ceiling && Rank(engine, rows, p, r) < k
  {
    hide Filter, Sort, Keyed, InOrder, Nearness, Before, Distance;
    var picked, key := Filter(rows, p), Nearness(engine);
    var s, close := Sort(picked, key), (x: Row) => Distance(engine, x) <= ceiling;
    FilterMembers(rows, p);
    FilterKeyed(rows, p);
    Sorts(picked, key);
    SameRows(picked, s);
    SortedKeyed(picked, engine);
    FilterMembers(Take(s, k), close);
    FilterSame(picked, s, Nearer(engine, r));
    if r in s {
      var i := PlaceIsRank(s, r, engine);
      if i < k {
        assert Take(s, k)[i] == r;
      } else {
        assert forall j :: 0 <= j < k ==> s[..i][j] == s[j];
      }
    } else {
      assert r !in Take(s, k);
    }
  }

  // Every chunk returned for the named books is returned without naming them.
  predicate Subtracts(engine: Engine, db: Database, caller: Id, books: seq<Id>, words: seq<string>, limits: Limits) {
    var some, all := Retrieved(engine, db, caller, books, words, limits), Retrieved(engine, db, caller, [], words, limits);
    forall h :: h in some ==> exists g :: g in all && g.row == h.row
  }

  // What a search returns, told of stored rows.
  predicate Reached(engine: Engine, rows: seq<Row>, p: Row -> bool, k: nat, ceiling: real, r: Row) {
    r in rows && p(r) && Distance(engine, r) <= ceiling && Rank(engine, rows, p, r) < k
  }

  // Some stored row passes and is close enough, and a search takes any.
  predicate ReachesSome(engine: Engine, rows: seq<Row>, p: Row -> bool, k: nat, ceiling: real) {
    k > 0 && exists r :: r in rows && p(r) && Distance(engine, r) <= ceiling
  }

  // Where the named books have a chunk for the first tier, each one it takes stays among the first
  // of all books. Where they have none, each one the second tier takes must be found there by the
  // wider question too: no book has one for the first tier, the words significant in all of them
  // find it, and it stays among the first they find.
  predicate LeavesRoom(engine: Engine, db: Database, caller: Id, books: seq<Id>, words: seq<string>, limits: Limits) {
    var own, all := Searchable(caller, books), Searchable(caller, []);
    var mine, terms := SignificantTerms(engine, db, caller, books, words), SignificantTerms(engine, db, caller, [], words);
    if ReachesSome(engine, db.rows, own, limits.topK, limits.maxDistance) then
      forall r :: r in db.rows && Reached(engine, db.rows, own, limits.topK, limits.maxDistance, r) ==>
        Rank(engine, db.rows, all, r) < limits.topK
    else
      forall r :: r in db.rows && mine != [] && Reached(engine, db.rows, Naming(engine, caller, books, mine), limits.topK, limits.salvageDistance, r) ==>
        && !ReachesSome(engine, db.rows, all, limits.topK, limits.maxDistance)
        && terms != [] && engine.matchesAny(r.text, terms)
        && Rank(engine, db.rows, Naming(engine, caller, [], terms), r) < limits.topK
  }

  function RowsOf(found: seq<Found>): (r: seq<Row>)
    ensures |r| == |found|
  {
    seq(|found|, i requires 0 <= i < |found| => found[i].row)
  }

  // The rows of an answer: the first tier's, or else the second's.
  function RowsFor(engine: Engine, db: Database, caller: Id, books: seq<Id>, words: seq<string>, limits: Limits): seq<Row> {
    var strict := SearchChunks(engine, db, caller, books, limits);
    if strict != [] then strict
    else Corroborated(engine, db, caller, books, SignificantTerms(engine, db, caller, books, words), limits)
  }

  lemma AnswerRows(engine: Engine, db: Database, caller: Id, books: seq<Id>, words: seq<string>, limits: Limits)
    ensures RowsOf(Retrieved(engine, db, caller, books, words, limits)) == RowsFor(engine, db, caller, books, words, limits)
  {
    hide Nearest, SignificantTerms, Distance;
  }

  lemma SubtractsRows(engine: Engine, db: Database, caller: Id, books: seq<Id>, words: seq<string>, limits: Limits)
    ensures Subtracts(engine, db, caller, books, words, limits)
       <==> forall r :: r in RowsFor(engine, db, caller, books, words, limits) ==> r in RowsFor(engine, db, caller, [], words, limits)
  {
    hide Retrieved, RowsFor;
    var some, all := Retrieved(engine, db, caller, books, words, limits), Retrieved(engine, db, caller, [], words, limits);
    AnswerRows(engine, db, caller, books, words, limits);
    AnswerRows(engine, db, caller, [], words, limits);
    if Subtracts(engine, db, caller, books, words, limits) {
      forall r | r in RowsOf(some) ensures r in RowsOf(all) {
        RowIn(some, r);
        var h :| h in some && h.row == r;
        RowIn(all, r);
      }
    }
    if forall r :: r in RowsOf(some) ==> r in RowsOf(all) {
      forall h | h in some ensures exists g :: g in all && g.row == h.row {
        RowIn(some, h.row);
        RowIn(all, h.row);
      }
    }
  }

  lemma RowIn(found: seq<Found>, r: Row)
    ensures r in RowsOf(found) <==> exists h :: h in found && h.row == r
  {
    if r in RowsOf(found) {
      var i :| 0 <= i < |found| && RowsOf(found)[i] == r;
      assert found[i] in found && found[i].row == r;
    }
    if h :| h in found && h.row == r {
      var i :| 0 <= i < |found| && found[i] == h;
      assert RowsOf(found)[i] == r;
    }
  }

  // The nearest of the rows that pass has none before it.
  lemma SomeNearest(engine: Engine, rows: seq<Row>, p: Row -> bool, k: nat, ceiling: real, r: Row)
    requires Keyed(rows) && r in rows && p(r) && Distance(engine, r) <= ceiling && k > 0
    ensures Nearest(engine, rows, p, k, ceiling) != []
  {
    hide Filter, Sort, Keyed;
    var picked, key := Filter(rows, p), Nearness(engine);
    var s, close := Sort(picked, key), (x: Row) => Distance(engine, x) <= ceiling;
    FilterMembers(rows, p);
    Sorts(picked, key);
    SameRows(picked, s);
    assert r in s;
    var i :| 0 <= i < |s| && s[i] == r;
    assert i > 0 ==> !Before(key(s[i]), key(s[0]));
    assert Take(s, k)[0] == s[0] && close(s[0]);
    FilterMembers(Take(s, k), close);
    assert s[0] in Filter(Take(s, k), close);
  }

  lemma NearestKept(engine: Engine, rows: seq<Row>, p: Row -> bool, k: nat, ceiling: real)
    ensures Nearest(engine, rows, p, k, ceiling) != [] ==> k > 0
  {
    hide Sort;
  }

  // A search comes back with something exactly when there is something to come back with.
  lemma SomeReturnedIff(engine: Engine, rows: seq<Row>, p: Row -> bool, k: nat, ceiling: real)
    requires Keyed(rows)
    ensures Nearest(engine, rows, p, k, ceiling) != [] <==> ReachesSome(engine, rows, p, k, ceiling)
  {
    hide Nearest, Keyed, Distance;
    var found := Nearest(engine, rows, p, k, ceiling);
    NearestKept(engine, rows, p, k, ceiling);
    if found != [] {
      assert found[0] in found;
      NearestMembers(engine, rows, p, k, ceiling, found[0]);
    }
    if ReachesSome(engine, rows, p, k, ceiling) {
      var r :| r in rows && p(r) && Distance(engine, r) <= ceiling;
      SomeNearest(engine, rows, p, k, ceiling, r);
    }
  }

  /** Naming books only takes away from an answer exactly when it leaves room: no chunk it returns is
      one a full search would have left out, and it does not empty the first tier so that the
      second answers instead with what the first would have passed over. */
  lemma NarrowingSubtractsIff(engine: Engine, db: Database, caller: Id, books: seq<Id>, words: seq<string>, limits: Limits)
    requires Keyed(db.rows)
    ensures Subtracts(engine, db, caller, books, words, limits) <==> LeavesRoom(engine, db, caller, books, words, limits)
  {
    hide Nearest, SignificantTerms, Subtracts, Keyed, Distance, Visible, Rank, ReachesSome;
    SubtractsRows(engine, db, caller, books, words, limits);
    SomeReturnedIff(engine, db.rows, Searchable(caller, books), limits.topK, limits.maxDistance);
    if SearchChunks(engine, db, caller, books, limits) != [] {
      StrictSubtractsIff(engine, db, caller, books, words, limits);
    } else {
      LooseSubtractsIff(engine, db, caller, books, words, limits);
    }
  }

  lemma StrictSubtractsIff(engine: Engine, db: Database, caller: Id, books: seq<Id>, words: seq<string>, limits: Limits)
    requires Keyed(db.rows) && SearchChunks(engine, db, caller, books, limits) != []
    ensures var own, all := Searchable(caller, books), Searchable(caller, []);
      (forall r :: r in RowsFor(engine, db, caller, books, words, limits) ==> r in RowsFor(engine, db, caller, [], words, limits))
      <==> (forall r :: r in db.rows && Reached(engine, db.rows, own, limits.topK, limits.maxDistance, r) ==>
              Rank(engine, db.rows, all, r) < limits.topK)
  {
    hide Nearest, SignificantTerms, Keyed, Distance, Visible, Rank, Reached;
    var own, all := Searchable(caller, books), Searchable(caller, []);
    var strict, wide := SearchChunks(engine, db, caller, books, limits), SearchChunks(engine, db, caller, [], limits);
    assert strict[0] in strict;
    forall r
      ensures r in strict <==> r in db.rows && Reached(engine, db.rows, own, limits.topK, limits.maxDistance, r)
      ensures r in strict ==> (r in wide <==> Rank(engine, db.rows, all, r) < limits.topK) && wide != []
    {
      StrictRow(engine, db, caller, books, limits, r);
    }
    assert RowsFor(engine, db, caller, books, words, limits) == strict && RowsFor(engine, db, caller, [], words, limits) == wide;
  }

  // One row of the first tier, with the books named and without.
  lemma StrictRow(engine: Engine, db: Database, caller: Id, books: seq<Id>, limits: Limits, r: Row)
    requires Keyed(db.rows)
    ensures var strict, wide := SearchChunks(engine, db, caller, books, limits), SearchChunks(engine, db, caller, [], limits);
      && (r in strict <==> r in db.rows && Reached(engine, db.rows, Searchable(caller, books), limits.topK, limits.maxDistance, r))
      && (r in strict ==> (r in wide <==> Rank(engine, db.rows, Searchable(caller, []), r) < limits.topK) && wide != [])
  {
    hide Nearest, Keyed, Distance, Visible, Rank;
    InNearestIff(engine, db.rows, Searchable(caller, books), limits.topK, limits.maxDistance, r);
    InNearestIff(engine, db.rows, Searchable(caller, []), limits.topK, limits.maxDistance, r);
    if r in SearchChunks(engine, db, caller, books, limits) {
      NearestKept(engine, db.rows, Searchable(caller, books), limits.topK, limits.maxDistance);
      SomeNearest(engine, db.rows, Searchable(caller, []), limits.topK, limits.maxDistance, r);
    }
  }

  lemma LooseSubtractsIff(engine: Engine, db: Database, caller: Id, books: seq<Id>, words: seq<string>, limits: Limits)
    requires Keyed(db.rows) && SearchChunks(engine, db, caller, books, limits) == []
    ensures var mine, terms := SignificantTerms(engine, db, caller, books, words), SignificantTerms(engine, db, caller, [], words);
      (forall r :: r in RowsFor(engine, db, caller, books, words, limits) ==> r in RowsFor(engine, db, caller, [], words, limits))
      <==> (forall r :: r in db.rows && mine != [] && Reached(engine, db.rows, Naming(engine, caller, books, mine), limits.topK, limits.salvageDistance, r) ==>
              && !ReachesSome(engine, db.rows, Searchable(caller, []), limits.topK, limits.maxDistance)
              && terms != [] && engine.matchesAny(r.text, terms)
              && Rank(engine, db.rows, Naming(engine, caller, [], terms), r) < limits.topK)
  {
    hide Nearest, SignificantTerms, Keyed, Distance, Visible, Rank, Reached, ReachesSome;
    var mine, terms := SignificantTerms(engine, db, caller, books, words), SignificantTerms(engine, db, caller, [], words);
    var found := Corroborated(engine, db, caller, books, mine, limits);
    var strict, wide := SearchChunks(engine, db, caller, [], limits), Corroborated(engine, db, caller, [], terms, limits);
    SomeReturnedIff(engine, db.rows, Searchable(caller, []), limits.topK, limits.maxDistance);
    forall r
      ensures r in found <==> r in db.rows && mine != [] && Reached(engine, db.rows, Naming(engine, caller, books, mine), limits.topK, limits.salvageDistance, r)
      ensures r in found ==> r !in strict
      ensures r in found && terms != [] ==> (r in wide <==> engine.matchesAny(r.text, terms) && Rank(engine, db.rows, Naming(engine, caller, [], terms), r) < limits.topK)
    {
      FoundRow(engine, db, caller, books, mine, limits, r);
      if r in found { WiderRow(engine, db, caller, books, mine, terms, limits, r); }
    }
    assert RowsFor(engine, db, caller, books, words, limits) == found;
    assert RowsFor(engine, db, caller, [], words, limits) == if strict != [] then strict else wide;
  }

  lemma FoundRow(engine: Engine, db: Database, caller: Id, books: seq<Id>, terms: seq<string>, limits: Limits, r: Row)
    requires Keyed(db.rows)
    ensures r in Corroborated(engine, db, caller, books, terms, limits)
       <==> r in db.rows && terms != [] && Reached(engine, db.rows, Naming(engine, caller, books, terms), limits.topK, limits.salvageDistance, r)
  {
    hide Nearest, Keyed, Distance, Visible, Rank;
    InNearestIff(engine, db.rows, Naming(engine, caller, books, terms), limits.topK, limits.salvageDistance, r);
  }

  lemma WiderRow(engine: Engine, db: Database, caller: Id, books: seq<Id>, mine: seq<string>, terms: seq<string>, limits: Limits, r: Row)
    requires Keyed(db.rows) && SearchChunks(engine, db, caller, books, limits) == []
    requires r in Corroborated(engine, db, caller, books, mine, limits)
    ensures r !in SearchChunks(engine, db, caller, [], limits)
    ensures terms != [] ==> (r in Corroborated(engine, db, caller, [], terms, limits)
       <==> engine.matchesAny(r.text, terms) && Rank(engine, db.rows, Naming(engine, caller, [], terms), r) < limits.topK)
  {
    hide Nearest, Keyed, Distance, Visible, Rank;
    LooseRow(engine, db, caller, books, mine, limits, r);
    InNearestIff(engine, db.rows, Naming(engine, caller, [], terms), limits.topK, limits.salvageDistance, r);
  }

  // A row the second tier finds once the first is empty is too far for the first, and near enough
  // for the second, whatever books are named.
  lemma LooseRow(engine: Engine, db: Database, caller: Id, books: seq<Id>, terms: seq<string>, limits: Limits, r: Row)
    requires Keyed(db.rows) && SearchChunks(engine, db, caller, books, limits) == []
    requires r in Corroborated(engine, db, caller, books, terms, limits)
    ensures r in db.rows && Visible(caller, r) && r.embedding.Some? && Distance(engine, r) <= limits.salvageDistance
    ensures r !in SearchChunks(engine, db, caller, [], limits)
  {
    hide Nearest, Keyed, Distance, Visible;
    NearestMembers(engine, db.rows, Naming(engine, caller, books, terms), limits.topK, limits.salvageDistance, r);
    NearestKept(engine, db.rows, Naming(engine, caller, books, terms), limits.topK, limits.salvageDistance);
    if Distance(engine, r) <= limits.maxDistance {
      SomeNearest(engine, db.rows, Searchable(caller, books), limits.topK, limits.maxDistance, r);
    }
    if r in SearchChunks(engine, db, caller, [], limits) {
      NearestMembers(engine, db.rows, Searchable(caller, []), limits.topK, limits.maxDistance, r);
    }
  }

  // ------------------------------------------------------------------ significant terms

  // A word of the question found somewhere, but not in too many places.
  predicate Telling(words: seq<string>, count: string -> nat, cap: nat, w: string) { w in words && 0 < count(w) <= cap }

  lemma {:induction false} PresentAre(words: seq<string>, count: string -> nat, cap: nat)
    ensures forall t :: t in Present(words, count, cap) ==> Telling(words, count, cap, t.word) && t.found == count(t.word)
    ensures forall w :: Telling(words, count, cap, w) ==> exists t :: t in Present(words, count, cap) && t.word == w
  {
    if words != [] {
      var rest, last := words[..|words| - 1], words[|words| - 1];
      PresentAre(rest, count, cap);
      assert words == rest + [last];
      forall w | Telling(words, count, cap, w) ensures exists t :: t in Present(words, count, cap) && t.word == w {
        if w in rest {
          assert Telling(rest, count, cap, w);
          var t :| t in Present(rest, count, cap) && t.word == w;
          assert t in Present(words, count, cap);
        } else {
          assert Term(w, count(w), |rest|) in Present(words, count, cap);
        }
      }
    }
  }

  lemma {:induction false} RarestIs(terms: seq<Term>)
    requires terms != []
    ensures forall t :: t in terms ==> Rarest(terms) <= t.found
    ensures exists t :: t in terms && t.found == Rarest(terms)
  {
    if |terms| == 1 {
      assert terms[0] in terms;
    } else {
      var rest, last := terms[..|terms| - 1], terms[|terms| - 1];
      RarestIs(rest);
      assert terms == rest + [last];
      var t :| t in rest && t.found == Rarest(rest);
      assert t in terms && last in terms;
    }
  }

  lemma {:induction false} RareAre(terms: seq<Term>, most: nat)
    ensures forall t :: t in Rare(terms, most) <==> t in terms && t.found <= most
  {
    if terms != [] {
      RareAre(terms[..|terms| - 1], most);
      assert terms == terms[..|terms| - 1] + [terms[|terms| - 1]];
    }
  }

  // The rarest words, in order, before they are cut to four.
  function Ordered(words: seq<string>, count: string -> nat, cap: nat): seq<Term>
    requires Present(words, count, cap) != []
  {
    Sort(Rare(Present(words, count, cap), Spread(Rarest(Present(words, count, cap)))), TermKey)
  }

  lemma {:induction false} OrderedAre(words: seq<string>, count: string -> nat, cap: nat)
    requires Present(words, count, cap) != []
    ensures var present, ordered := Present(words, count, cap), Ordered(words, count, cap);
      && ordered != [] && InOrder(ordered, TermKey) && ordered[0].found <= Rarest(present)
      && forall t :: t in ordered ==> t in present && t.found <= Spread(Rarest(present))
  {
    hide Present, Rare, Rarest, Sort;
    var present := Present(words, count, cap);
    RarestIs(present);
    var rare := Rare(present, Spread(Rarest(present)));
    RareAre(present, Spread(Rarest(present)));
    var ordered := Ordered(words, count, cap);
    Sorts(rare, TermKey);
    forall t ensures t in ordered <==> t in rare {
      assert t in ordered <==> t in multiset(ordered);
      assert t in rare <==> t in multiset(rare);
    }
    var least :| least in present && least.found == Rarest(present);
    assert least in ordered;
    var k :| 0 <= k < |ordered| && ordered[k] == least;
    LeadsOrdered(ordered, k);
  }

  /** No word is kept exactly when the question has none that tells. */
  lemma NoTermsIff(words: seq<string>, count: string -> nat, cap: nat)
    ensures Chosen(words, count, cap) == [] <==> forall w :: w in words ==> !Telling(words, count, cap, w)
  {
    hide Present, Rare, Rarest, Sort;
    var present := Present(words, count, cap);
    PresentAre(words, count, cap);
    if present != [] {
      OrderedAre(words, count, cap);
      assert present[0] in present;
      assert present[0].word in words;
    }
  }

  /** At most four words are kept, each telling and no more than three times as common as any other
      that tells, the rarest of all first. */
  lemma SignificantTermsTell(words: seq<string>, count: string -> nat, cap: nat, w: string, i: nat)
    requires i < |Chosen(words, count, cap)|
    ensures var r := Chosen(words, count, cap);
      && |r| <= MAX_TERMS_KEPT
      && Telling(words, count, cap, r[i].word) && r[i].found == count(r[i].word)
      && (Telling(words, count, cap, w) ==> r[0].found <= count(w) && r[i].found <= Spread(count(w)))
      && forall j :: 0 <= j < i ==> r[j].found <= r[i].found
  {
    hide Present, Rare, Rarest, Sort, Telling, Spread, InOrder;
    var present := Present(words, count, cap);
    OrderedAre(words, count, cap);
    var ordered := Ordered(words, count, cap);
    LeadsOrdered(ordered, 0);
    SelectedTell(words, count, cap, w, ordered);
  }

  lemma LeadsOrdered(ordered: seq<Term>, k: nat)
    requires k < |ordered| && InOrder(ordered, TermKey)
    ensures ordered[0].found <= ordered[k].found
    ensures forall i, j :: 0 <= j < i < |ordered| ==> ordered[j].found <= ordered[i].found
  {
    forall i, j | 0 <= j < i < |ordered| ensures ordered[j].found <= ordered[i].found {
      assert !Before(TermKey(ordered[i]), TermKey(ordered[j]));
    }
  }

  lemma {:induction false} SelectedTell(words: seq<string>, count: string -> nat, cap: nat, w: string, ordered: seq<Term>)
    requires var present := Present(words, count, cap);
      && present != [] && ordered != []
      && (forall t :: t in ordered ==> t in present && t.found <= Spread(Rarest(present)))
      && ordered[0].found <= Rarest(present)
    ensures forall i :: 0 <= i < |ordered| ==>
      && Telling(words, count, cap, ordered[i].word) && ordered[i].found == count(ordered[i].word)
      && (Telling(words, count, cap, w) ==> ordered[0].found <= count(w) && ordered[i].found <= Spread(count(w)))
  {
    hide Present, Rarest, Telling;
    var present := Present(words, count, cap);
    PresentAre(words, count, cap);
    RarestIs(present);
    if Telling(words, count, cap, w) {
      var t :| t in present && t.word == w;
      assert Rarest(present) <= count(w);
    }
    forall i | 0 <= i < |ordered|
      ensures Telling(words, count, cap, ordered[i].word) && ordered[i].found == count(ordered[i].word)
      ensures ordered[i].found <= Spread(Rarest(present))
    {
      assert ordered[i] in ordered;
    }
  }
}
