/** What a question may read: the scoped searches of `rag/retrieve.py` and the two tiers of
    `retrieve_for` in `services/chat.py`, over exact search. Distances, the matching of words and
    the splitting of the question into words are parameters; chunks at one distance come in the
    order of their ids. */
module Retrieval {
  import opened Sorting
  import opened Wrappers

  type Id = nat
  type Vector = seq<real>

  datatype Scope = Canon | Personal

  datatype Row = Row(id: Id, book: Id, scope: Scope, owner: Id, text: string, embedding: Option<Vector>)

  // Chunks in whatever order they are stored, and the titles of books.
  datatype Database = Database(rows: seq<Row>, titles: map<Id, string>)

  datatype Found = Found(row: Row, title: string, distance: real, loose: bool, terms: seq<string>)

  // What the search engine computes: the question's distance from a passage, and whether a
  // text has a word, or any of some words.
  datatype Engine = Engine(near: Vector -> real, matches: (string, string) -> bool, matchesAny: (string, seq<string>) -> bool)

  datatype Limits = Limits(topK: nat, maxDistance: real, salvageDistance: real)

  // `build_retrieval_filter`
  predicate Visible(caller: Id, r: Row) { r.scope == Canon || (r.scope == Personal && r.owner == caller) }

  // No books named is no narrowing.
  predicate Named(books: seq<Id>, r: Row) { books == [] || r.book in books }

  function Filter(rows: seq<Row>, p: Row -> bool): seq<Row> {
    if rows == [] then []
    else if p(rows[|rows| - 1]) then Filter(rows[..|rows| - 1], p) + [rows[|rows| - 1]]
    else Filter(rows[..|rows| - 1], p)
  }

  function Distance(engine: Engine, r: Row): real {
    if r.embedding.Some? then engine.near(r.embedding.value) else 0.0
  }

  function Nearness(engine: Engine): Row -> Key { (r: Row) => Key(Distance(engine, r), r.id) }

  function Take(rows: seq<Row>, k: nat): seq<Row> { if k < |rows| then rows[..k] else rows }

  // The rows that pass, nearest first, the first k of them, and of those the ones close enough.
  function Nearest(engine: Engine, rows: seq<Row>, p: Row -> bool, k: nat, ceiling: real): seq<Row> {
    Filter(Take(Sort(Filter(rows, p), Nearness(engine)), k), (r: Row) => Distance(engine, r) <= ceiling)
  }

  function Reachable(caller: Id, books: seq<Id>): Row -> bool { (r: Row) => Visible(caller, r) && Named(books, r) }

  function Searchable(caller: Id, books: seq<Id>): Row -> bool {
    (r: Row) => Visible(caller, r) && Named(books, r) && r.embedding.Some?
  }

  // `search_chunks`
  function SearchChunks(engine: Engine, db: Database, caller: Id, books: seq<Id>, limits: Limits): seq<Row> {
    Nearest(engine, db.rows, Searchable(caller, books), limits.topK, limits.maxDistance)
  }

  // --------------------------------------------------------------- significant terms

  const MIN_TERM_CHARS: nat := 3
  const MAX_TERMS_PROBED: nat := 24
  const MIN_SELECTIVE: nat := 3
  const RARITY_SPREAD: nat := 3
  const MAX_TERMS_KEPT: nat := 4
  const CORPUS_SAMPLE: nat := 20000

  // The words probed: long enough, each once, up to the limit.
  function Probes(words: seq<string>): (r: seq<string>)
    ensures |r| <= MAX_TERMS_PROBED
    ensures forall i, j :: 0 <= i < j < |r| ==> r[i] != r[j]
    ensures forall i :: 0 <= i < |r| ==> |r[i]| >= MIN_TERM_CHARS && r[i] in words
  {
    if words == [] then []
    else
      var before, w := Probes(words[..|words| - 1]), words[|words| - 1];
      if |before| >= MAX_TERMS_PROBED || |w| < MIN_TERM_CHARS || w in before then before else before + [w]
  }

  method ProbeWords(words: seq<string>) returns (seen: seq<string>)
    ensures seen == Probes(words)
  {
    seen := [];
    for n := 0 to |words|
      invariant seen == Probes(words[..n]) && |seen| < MAX_TERMS_PROBED
    {
      assert words[..n + 1][..n] == words[..n];
      if |words[n]| >= MIN_TERM_CHARS && words[n] !in seen { seen := seen + [words[n]]; }
      if |seen| >= MAX_TERMS_PROBED {
        ProbesStop(words, n + 1);
        return;
      }
    }
    assert words[..|words|] == words;
  }

  lemma {:induction false} ProbesStop(words: seq<string>, n: nat)
    requires n <= |words| && |Probes(words[..n])| >= MAX_TERMS_PROBED
    ensures Probes(words) == Probes(words[..n])
    decreases |words| - n
  {
    if n < |words| {
      assert words[..n + 1][..n] == words[..n];
      ProbesStop(words, n + 1);
    } else {
      assert words[..n] == words;
    }
  }

  function Mentions(engine: Engine, caller: Id, books: seq<Id>, word: string): Row -> bool {
    (r: Row) => Visible(caller, r) && Named(books, r) && engine.matches(r.text, word)
  }

  // In how many reachable chunks a word is found.
  function Frequency(engine: Engine, db: Database, caller: Id, books: seq<Id>, word: string): nat {
    |Filter(db.rows, Mentions(engine, caller, books, word))|
  }

  // `_selectivity_cap`
  function SelectivityCap(db: Database, caller: Id, books: seq<Id>): (cap: nat)
    ensures MIN_SELECTIVE <= cap <= CORPUS_SAMPLE / 50
    ensures var reachable := |Filter(db.rows, Reachable(caller, books))|;
      && (cap > MIN_SELECTIVE ==> 50 * cap <= reachable)
      && (cap < CORPUS_SAMPLE / 50 ==> reachable < 50 * (cap + 1))
  {
    var reachable := |Filter(db.rows, Reachable(caller, books))|;
    var total := if reachable < CORPUS_SAMPLE then reachable else CORPUS_SAMPLE;
    if total / 50 < MIN_SELECTIVE then MIN_SELECTIVE else total / 50
  }

  datatype Term = Term(word: string, found: nat, place: nat)

  // The words found, and not too often, with their counts and places.
  function Present(words: seq<string>, count: string -> nat, cap: nat): seq<Term> {
    if words == [] then []
    else
      var n := |words| - 1;
      Present(words[..n], count, cap) + if 0 < count(words[n]) <= cap then [Term(words[n], count(words[n]), n)] else []
  }

  function Rarest(terms: seq<Term>): nat
    requires terms != []
  {
    if |terms| == 1 then terms[0].found
    else
      var before := Rarest(terms[..|terms| - 1]);
      if terms[|terms| - 1].found < before then terms[|terms| - 1].found else before
  }

  function Rare(terms: seq<Term>, most: nat): seq<Term> {
    if terms == [] then []
    else Rare(terms[..|terms| - 1], most) + if terms[|terms| - 1].found <= most then [terms[|terms| - 1]] else []
  }

  function TermKey(t: Term): Key { Key(t.found as real, t.place) }

  function WordsOf(terms: seq<Term>): seq<string> { seq(|terms|, i requires 0 <= i < |terms| => terms[i].word) }

  // The most common a term may be and still be kept.
  function Spread(rarest: nat): nat { if rarest * RARITY_SPREAD < MIN_SELECTIVE then MIN_SELECTIVE else rarest * RARITY_SPREAD }

  function Chosen(words: seq<string>, count: string -> nat, cap: nat): seq<Term> {
    var present := Present(words, count, cap);
    if present == [] then []
    else
      var ordered := Sort(Rare(present, Spread(Rarest(present))), TermKey);
      if |ordered| <= MAX_TERMS_KEPT then ordered else ordered[..MAX_TERMS_KEPT]
  }

  function Counts(engine: Engine, db: Database, caller: Id, books: seq<Id>): string -> nat {
    (word: string) => Frequency(engine, db, caller, books, word)
  }

  // `significant_terms`, from the question's words on
  function SignificantTerms(engine: Engine, db: Database, caller: Id, books: seq<Id>, words: seq<string>): seq<string> {
    WordsOf(Chosen(Probes(words), Counts(engine, db, caller, books), SelectivityCap(db, caller, books)))
  }

  // ------------------------------------------------------------------------- the tiers

  function Naming(engine: Engine, caller: Id, books: seq<Id>, terms: seq<string>): Row -> bool {
    (r: Row) => Visible(caller, r) && Named(books, r) && r.embedding.Some? && engine.matchesAny(r.text, terms)
  }

  // `search_chunks_corroborated`
  function Corroborated(engine: Engine, db: Database, caller: Id, books: seq<Id>, terms: seq<string>, limits: Limits): seq<Row> {
    if terms == [] then []
    else
      Nearest(engine, db.rows, Naming(engine, caller, books, terms), limits.topK, limits.salvageDistance)
  }

  // `_enrich`, and the marks `_salvage` adds
  function Enrich(engine: Engine, db: Database, rows: seq<Row>, loose: bool, terms: seq<string>): seq<Found> {
    seq(|rows|, i requires 0 <= i < |rows| =>
      Found(rows[i], if rows[i].book in db.titles then db.titles[rows[i].book] else "Untitled", Distance(engine, rows[i]), loose, terms))
  }

  function Salvaged(engine: Engine, db: Database, caller: Id, books: seq<Id>, words: seq<string>, limits: Limits): seq<Found> {
    var terms := SignificantTerms(engine, db, caller, books, words);
    Enrich(engine, db, Corroborated(engine, db, caller, books, terms, limits), true, terms)
  }

  // `retrieve_for`
  function Retrieved(engine: Engine, db: Database, caller: Id, books: seq<Id>, words: seq<string>, limits: Limits): seq<Found> {
    var hits := SearchChunks(engine, db, caller, books, limits);
    if hits != [] then Enrich(engine, db, hits, false, []) else Salvaged(engine, db, caller, books, words, limits)
  }

  method RetrieveFor(engine: Engine, db: Database, caller: Id, books: seq<Id>, words: seq<string>, limits: Limits) returns (hits: seq<Found>)
    ensures hits == Retrieved(engine, db, caller, books, words, limits)
  {
    hide Nearest;
    var strict := SearchChunks(engine, db, caller, books, limits);
    if strict != [] { return Enrich(engine, db, strict, false, []); }
    var probes := ProbeWords(words);
    var terms := WordsOf(Chosen(probes, Counts(engine, db, caller, books), SelectivityCap(db, caller, books)));
    if terms == [] { return []; }
    var found := Corroborated(engine, db, caller, books, terms, limits);
    if found == [] { return []; }
    hits := Enrich(engine, db, found, false, []);
    for n := 0 to |hits|
      invariant |hits| == |found|
      invariant forall k :: 0 <= k < n ==> hits[k] == Enrich(engine, db, found, true, terms)[k]
      invariant forall k :: n <= k < |hits| ==> hits[k] == Enrich(engine, db, found, false, [])[k]
    {
      hits := hits[n := hits[n].(loose := true, terms := terms)];
    }
    assert hits == Enrich(engine, db, found, true, terms);
  }
}
