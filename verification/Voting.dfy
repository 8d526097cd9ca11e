/** Which book the evidence points at: `vote`, `route` and `narrow` in `rag/rank.py`. */
module Voting {
  import opened Fusing
  import opened Narrowing
  import opened Sorting
  import opened Wrappers

  const RANK_DECAY: real := 0.85
  const DOMINANCE: real := 0.62
  const MIN_CHUNKS: nat := 3
  const UNSCORED_SIMILARITY: real := 0.65

  datatype BookVote = BookVote(book: Id, title: string, chunks: nat, score: real, share: real)

  function Decay(rank: nat): (d: real)
    ensures d > 0.0
  {
    if rank == 0 then 1.0 else Decay(rank - 1) * RANK_DECAY
  }

  function Similarity(h: Hit): (s: real)
    ensures s >= 0.0
  {
    match h.distance
    case None => UNSCORED_SIMILARITY
    case Some(d) => if 1.0 - d > 0.0 then 1.0 - d else 0.0
  }

  function Weight(h: Hit, rank: nat): (w: real)
    ensures w >= 0.0
  {
    Similarity(h) * Decay(rank)
  }

  function Sum(s: seq<real>): real { if s == [] then 0.0 else Sum(s[..|s| - 1]) + s[|s| - 1] }

  // A book's hits' weights, in order.
  function Evidence(hits: seq<Hit>, book: Id): seq<real> {
    if hits == [] then []
    else
      var n := |hits| - 1;
      if hits[n].book == book then Evidence(hits[..n], book) + [Weight(hits[n], n)] else Evidence(hits[..n], book)
  }

  // The books, by first hit.
  function Books(hits: seq<Hit>): seq<Id> {
    if hits == [] then []
    else
      var before := Books(hits[..|hits| - 1]);
      if hits[|hits| - 1].book in before then before else before + [hits[|hits| - 1].book]
  }

  // The title of a book's first hit.
  function TitleOf(hits: seq<Hit>, book: Id): string {
    if hits == [] then ""
    else if hits[0].book == book then hits[0].title
    else TitleOf(hits[1..], book)
  }

  function Collected(hits: seq<Hit>, books: seq<Id>): real {
    if books == [] then 0.0 else Collected(hits, books[..|books| - 1]) + Sum(Evidence(hits, books[|books| - 1]))
  }

  // All the evidence; 1 when there is none.
  function Grand(hits: seq<Hit>): real {
    if Collected(hits, Books(hits)) == 0.0 then 1.0 else Collected(hits, Books(hits))
  }

  function VoteFor(hits: seq<Hit>, book: Id, grand: real): BookVote
    requires grand != 0.0
  {
    var evidence := Evidence(hits, book);
    BookVote(book, TitleOf(hits, book), |evidence|, Sum(evidence), Sum(evidence) / grand)
  }

  function Unsorted(hits: seq<Hit>, books: seq<Id>, grand: real): (r: seq<BookVote>)
    requires grand != 0.0
    ensures |r| == |books|
  {
    if books == [] then [] else Unsorted(hits, books[..|books| - 1], grand) + [VoteFor(hits, books[|books| - 1], grand)]
  }

  function VoteKey(books: seq<Id>): BookVote -> Key { (v: BookVote) => Key(-v.score, IndexOf(books, v.book)) }

  // Strongest first; books that tie keep the order of their first hits.
  function Votes(hits: seq<Hit>): seq<BookVote> { Sort(Unsorted(hits, Books(hits), Grand(hits)), VoteKey(Books(hits))) }

  // ------------------------------------------------------------------- the loops

  ghost predicate Counted(hits: seq<Hit>, totals: map<Id, seq<real>>, titles: map<Id, string>, books: seq<Id>) {
    && books == Books(hits) && (forall b :: b in books <==> b in totals) && totals.Keys == titles.Keys
    && forall b :: b in totals ==> totals[b] == Evidence(hits, b) && titles[b] == TitleOf(hits, b)
  }

  lemma {:induction false} TitleKept(hits: seq<Hit>, h: Hit, book: Id)
    ensures TitleOf(hits + [h], book) == if book in Books(hits) || h.book != book then TitleOf(hits, book) else h.title
  {
    BooksAre(hits);
    TitleAppend(hits, h, book);
  }

  lemma {:induction false} TitleAppend(hits: seq<Hit>, h: Hit, book: Id)
    ensures TitleOf(hits + [h], book) == if (exists k :: 0 <= k < |hits| && hits[k].book == book) || h.book != book then TitleOf(hits, book) else h.title
  {
    if hits == [] {
      assert [] + [h] == [h] && [h][1..] == [];
    } else {
      var rest := hits[1..];
      assert (hits + [h])[1..] == rest + [h];
      TitleAppend(rest, h, book);
      assert hits[0].book != book ==> forall k :: 0 < k < |hits| ==> hits[k] == rest[k - 1];
      if hits[0].book != book && exists k :: 0 <= k < |hits| && hits[k].book == book {
        var k :| 0 <= k < |hits| && hits[k].book == book;
        assert rest[k - 1].book == book;
      }
    }
  }

  lemma {:induction false} BooksAre(hits: seq<Hit>)
    ensures forall b :: b in Books(hits) <==> exists k :: 0 <= k < |hits| && hits[k].book == b
  {
    if hits != [] {
      var rest := hits[..|hits| - 1];
      BooksAre(rest);
      forall b ensures b in Books(hits) <==> exists k :: 0 <= k < |hits| && hits[k].book == b {
        if b in Books(rest) {
          var k :| 0 <= k < |rest| && rest[k].book == b;
          assert hits[k].book == b;
        }
        if k :| 0 <= k < |hits| && hits[k].book == b {
          if k < |rest| { assert rest[k].book == b; }
        }
        if b == hits[|hits| - 1].book { assert hits[|hits| - 1].book == b; }
      }
    }
  }

  lemma {:induction false} NextEvidence(hits: seq<Hit>, n: nat, b: Id)
    requires n < |hits|
    ensures Evidence(hits[..n + 1], b) == if hits[n].book == b then Evidence(hits[..n], b) + [Weight(hits[n], n)] else Evidence(hits[..n], b)
    ensures Books(hits[..n + 1]) == if hits[n].book in Books(hits[..n]) then Books(hits[..n]) else Books(hits[..n]) + [hits[n].book]
    ensures TitleOf(hits[..n + 1], b) == if b in Books(hits[..n]) || hits[n].book != b then TitleOf(hits[..n], b) else hits[n].title
  {
    hide Weight;
    assert hits[..n + 1][..n] == hits[..n];
    assert hits[..n + 1] == hits[..n] + [hits[n]];
    TitleKept(hits[..n], hits[n], b);
  }

  lemma {:induction false} NoEvidence(hits: seq<Hit>, b: Id)
    requires b !in Books(hits)
    ensures Evidence(hits, b) == []
  {
    if hits != [] { NoEvidence(hits[..|hits| - 1], b); }
  }

  lemma CountedNext(hits: seq<Hit>, rank: nat, totals: map<Id, seq<real>>, titles: map<Id, string>, books: seq<Id>)
    requires rank < |hits| && Counted(hits[..rank], totals, titles, books)
    ensures var h := hits[rank];
      Counted(hits[..rank + 1], totals[h.book := (if h.book in totals then totals[h.book] else []) + [Weight(h, rank)]],
              if h.book in titles then titles else titles[h.book := h.title],
              if h.book in titles then books else books + [h.book])
    ensures hits[rank].book in titles <==> hits[rank].book in totals
  {
    hide Evidence, Books, TitleOf, Weight;
    var h := hits[rank];
    NextEvidence(hits, rank, h.book);
    if h.book !in totals { NoEvidence(hits[..rank], h.book); }
    forall b | b in totals && b != h.book
      ensures totals[b] == Evidence(hits[..rank + 1], b) && titles[b] == TitleOf(hits[..rank + 1], b)
    {
      NextEvidence(hits, rank, b);
    }
  }

  method Tally(hits: seq<Hit>) returns (totals: map<Id, seq<real>>, titles: map<Id, string>, books: seq<Id>)
    ensures Counted(hits, totals, titles, books)
  {
    totals, titles, books := map[], map[], [];
    assert Counted(hits[..0], totals, titles, books);
    hide Counted, Weight;
    for rank := 0 to |hits|
      invariant Counted(hits[..rank], totals, titles, books)
    {
      var hit := hits[rank];
      CountedNext(hits, rank, totals, titles, books);
      totals := totals[hit.book := (if hit.book in totals then totals[hit.book] else []) + [Weight(hit, rank)]];
      if hit.book !in titles {
        titles := titles[hit.book := hit.title];
        books := books + [hit.book];
      }
    }
    assert hits[..|hits|] == hits;
  }

  method Vote(hits: seq<Hit>) returns (votes: seq<BookVote>)
    ensures votes == Votes(hits)
  {
    hide Evidence, Books, TitleOf, Sort, Sum;
    var totals, titles, books := Tally(hits);
    var grand: real := 0.0;
    for n := 0 to |books|
      invariant grand == Collected(hits, books[..n])
    {
      assert books[..n + 1][..n] == books[..n];
      assert books[n] in books;
      grand := grand + Sum(totals[books[n]]);
    }
    assert books[..|books|] == books;
    if grand == 0.0 { grand := 1.0; }
    votes := Ballots(hits, totals, titles, books, grand);
    votes := Sort(votes, VoteKey(books));
  }

  method Ballots(ghost hits: seq<Hit>, totals: map<Id, seq<real>>, titles: map<Id, string>, books: seq<Id>, grand: real) returns (votes: seq<BookVote>)
    requires grand != 0.0 && Counted(hits, totals, titles, books)
    ensures votes == Unsorted(hits, books, grand)
  {
    hide Evidence, Books, TitleOf, Sum;
    votes := [];
    for n := 0 to |books|
      invariant votes == Unsorted(hits, books[..n], grand)
    {
      assert books[..n + 1][..n] == books[..n];
      var b := books[n];
      assert b in books;
      votes := votes + [BookVote(b, titles[b], |totals[b]|, Sum(totals[b]), Sum(totals[b]) / grand)];
    }
    assert books[..|books|] == books;
  }

  // ------------------------------------------------------------------ what a vote says

  function ShareSum(votes: seq<BookVote>): real {
    if votes == [] then 0.0 else ShareSum(votes[..|votes| - 1]) + votes[|votes| - 1].share
  }

  function ChunkSum(votes: seq<BookVote>): nat {
    if votes == [] then 0 else ChunkSum(votes[..|votes| - 1]) + votes[|votes| - 1].chunks
  }

  lemma {:induction false} SumsAppend(votes: seq<BookVote>, v: BookVote)
    ensures ShareSum(votes + [v]) == ShareSum(votes) + v.share && ChunkSum(votes + [v]) == ChunkSum(votes) + v.chunks
  {
    assert (votes + [v])[..|votes|] == votes;
  }

  lemma {:induction false} PlaceSums(votes: seq<BookVote>, v: BookVote, key: BookVote -> Key)
    ensures ShareSum(Place(votes, v, key)) == ShareSum(votes) + v.share
    ensures ChunkSum(Place(votes, v, key)) == ChunkSum(votes) + v.chunks
  {
    hide ShareSum, ChunkSum;
    SumsAppend(votes, v);
    if votes != [] && Before(key(v), key(votes[|votes| - 1])) {
      var rest, last := votes[..|votes| - 1], votes[|votes| - 1];
      PlaceSums(rest, v, key);
      SumsAppend(Place(rest, v, key), last);
      SumsAppend(rest, last);
      assert rest + [last] == votes;
    }
  }

  lemma {:induction false} SortSums(votes: seq<BookVote>, key: BookVote -> Key)
    ensures ShareSum(Sort(votes, key)) == ShareSum(votes) && ChunkSum(Sort(votes, key)) == ChunkSum(votes)
  {
    if votes != [] {
      SortSums(votes[..|votes| - 1], key);
      PlaceSums(Sort(votes[..|votes| - 1], key), votes[|votes| - 1], key);
    }
  }

  lemma Quotients(a: real, b: real, c: real)
    requires c != 0.0
    ensures a / c + b / c == (a + b) / c && c / c == 1.0 && 0.0 / c == 0.0
  {
  }

  lemma UnsortedNext(hits: seq<Hit>, books: seq<Id>, grand: real)
    requires grand != 0.0 && books != []
    ensures var rest, v := books[..|books| - 1], VoteFor(hits, books[|books| - 1], grand);
      && ShareSum(Unsorted(hits, books, grand)) == ShareSum(Unsorted(hits, rest, grand)) + v.share
      && ChunkSum(Unsorted(hits, books, grand)) == ChunkSum(Unsorted(hits, rest, grand)) + v.chunks
  {
    hide VoteFor, ShareSum, ChunkSum;
    SumsAppend(Unsorted(hits, books[..|books| - 1], grand), VoteFor(hits, books[|books| - 1], grand));
  }

  lemma {:induction false} UnsortedShares(hits: seq<Hit>, books: seq<Id>, grand: real)
    requires grand != 0.0
    ensures ShareSum(Unsorted(hits, books, grand)) == Collected(hits, books) / grand
  {
    hide Evidence, Sum, TitleOf;
    if books == [] {
      Quotients(0.0, 0.0, grand);
    } else {
      hide Unsorted, ShareSum;
      var rest, last := books[..|books| - 1], books[|books| - 1];
      UnsortedNext(hits, books, grand);
      UnsortedShares(hits, rest, grand);
      Quotients(Collected(hits, rest), Sum(Evidence(hits, last)), grand);
    }
  }

  lemma {:induction false} SumPositive(hits: seq<Hit>, b: Id)
    ensures Sum(Evidence(hits, b)) >= 0.0
  {
    hide Weight;
    if hits != [] {
      var n := |hits| - 1;
      SumPositive(hits[..n], b);
      assert Weight(hits[n], n) >= 0.0;
      SumAppend(Evidence(hits[..n], b), Weight(hits[n], n));
    }
  }

  lemma {:induction false} SumAppend(s: seq<real>, x: real)
    ensures Sum(s + [x]) == Sum(s) + x
  {
    assert (s + [x])[..|s|] == s;
  }

  lemma {:induction false} CollectedPositive(hits: seq<Hit>, books: seq<Id>)
    ensures Collected(hits, books) >= 0.0
  {
    hide Evidence, Sum;
    if books != [] {
      CollectedPositive(hits, books[..|books| - 1]);
      SumPositive(hits, books[|books| - 1]);
    }
  }

  // How many of the hits are from one of the books.
  function CountIn(hits: seq<Hit>, books: seq<Id>): nat {
    if books == [] then 0 else CountIn(hits, books[..|books| - 1]) + |Evidence(hits, books[|books| - 1])|
  }

  lemma {:induction false} UnsortedChunks(hits: seq<Hit>, books: seq<Id>, grand: real)
    requires grand != 0.0
    ensures ChunkSum(Unsorted(hits, books, grand)) == CountIn(hits, books)
  {
    hide Evidence, Sum, TitleOf;
    if books != [] {
      UnsortedChunks(hits, books[..|books| - 1], grand);
      SumsAppend(Unsorted(hits, books[..|books| - 1], grand), VoteFor(hits, books[|books| - 1], grand));
    }
  }

  lemma {:induction false} CountNext(hits: seq<Hit>, n: nat, books: seq<Id>)
    requires n < |hits| && forall i, j :: 0 <= i < j < |books| ==> books[i] != books[j]
    ensures CountIn(hits[..n + 1], books) == CountIn(hits[..n], books) + if hits[n].book in books then 1 else 0
  {
    hide Evidence, Weight;
    if books != [] {
      var rest, last := books[..|books| - 1], books[|books| - 1];
      CountNext(hits, n, rest);
      NextEvidence(hits, n, last);
      assert hits[n].book in books <==> hits[n].book in rest || hits[n].book == last;
    }
  }

  lemma {:induction false} BooksDiffer(hits: seq<Hit>)
    ensures forall i, j :: 0 <= i < j < |Books(hits)| ==> Books(hits)[i] != Books(hits)[j]
  {
    if hits != [] { BooksDiffer(hits[..|hits| - 1]); }
  }

  lemma {:induction false} CountAppend(hits: seq<Hit>, books: seq<Id>, b: Id)
    ensures CountIn(hits, books + [b]) == CountIn(hits, books) + |Evidence(hits, b)|
  {
    assert (books + [b])[..|books|] == books;
  }

  lemma NothingCounted(hits: seq<Hit>)
    ensures CountIn(hits[..0], Books(hits[..0])) == 0
  {
  }

  lemma {:induction false} EveryHitCounted(hits: seq<Hit>, n: nat)
    requires n <= |hits|
    ensures CountIn(hits[..n], Books(hits[..n])) == n
  {
    hide *;
    if n == 0 {
      NothingCounted(hits);
    } else {
      var before, b := Books(hits[..n - 1]), hits[n - 1].book;
      EveryHitCounted(hits, n - 1);
      BooksDiffer(hits[..n - 1]);
      NextEvidence(hits, n - 1, b);
      CountNext(hits, n - 1, before);
      if b !in before {
        NoEvidence(hits[..n - 1], b);
        CountAppend(hits[..n], before, b);
      }
    }
  }

  /** The votes share out all the evidence: their shares come to 1 whenever there is any, and
      every hit is counted for one book. */
  lemma {:induction false} SharesAddUp(hits: seq<Hit>)
    ensures ShareSum(Votes(hits)) == if Collected(hits, Books(hits)) > 0.0 then 1.0 else 0.0
    ensures ChunkSum(Votes(hits)) == |hits|
  {
    hide Evidence, Sum, Books, TitleOf, CountIn, Sort, Collected, Unsorted, ShareSum, ChunkSum, VoteFor, InOrder;
    var books, grand := Books(hits), Grand(hits);
    SortSums(Unsorted(hits, books, grand), VoteKey(books));
    UnsortedShares(hits, books, grand);
    UnsortedChunks(hits, books, grand);
    CollectedPositive(hits, books);
    Quotients(0.0, 0.0, grand);
    EveryHitCounted(hits, |hits|);
    assert hits[..|hits|] == hits;
  }

  /** Every vote is one of the books', for what its own hits weigh; no share is negative. */
  lemma {:induction false} VotesAreBooks(hits: seq<Hit>, v: BookVote)
    requires v in Votes(hits)
    ensures v.book in Books(hits) && v == VoteFor(hits, v.book, Grand(hits)) && v.share >= 0.0
  {
    hide Evidence, Sum, Books, TitleOf, CountIn, Sort, Collected, Unsorted, ShareSum, ChunkSum, VoteFor, InOrder;
    var books, grand := Books(hits), Grand(hits);
    var unsorted := Unsorted(hits, books, grand);
    Sorts(unsorted, VoteKey(books));
    assert v in multiset(Votes(hits));
    CollectedPositive(hits, books);
    VoteOf(hits, books, grand, v);
  }

  lemma {:induction false} VoteOf(hits: seq<Hit>, books: seq<Id>, grand: real, v: BookVote)
    requires grand > 0.0 && v in Unsorted(hits, books, grand)
    ensures v.book in books && v == VoteFor(hits, v.book, grand) && v.share >= 0.0
  {
    hide Evidence, Sum, TitleOf;
    var rest, last := books[..|books| - 1], books[|books| - 1];
    if v in Unsorted(hits, rest, grand) {
      VoteOf(hits, rest, grand, v);
    } else {
      SumPositive(hits, last);
      assert last in books;
      Quotient(Sum(Evidence(hits, last)), grand);
    }
  }

  lemma Quotient(x: real, y: real)
    requires x >= 0.0 && y > 0.0
    ensures x / y >= 0.0
  {
  }

  /** The votes run from the strongest book down; books with equal scores keep the order of their
      first hits. */
  lemma {:induction false} VotesRanked(hits: seq<Hit>, i: nat, j: nat)
    requires i < j < |Votes(hits)|
    ensures var votes, books := Votes(hits), Books(hits);
      || votes[i].score > votes[j].score
      || (votes[i].score == votes[j].score && IndexOf(books, votes[i].book) <= IndexOf(books, votes[j].book))
  {
    hide Evidence, Sum, Books, TitleOf, Sort, Collected, Unsorted, IndexOf;
    var books := Books(hits);
    Sorts(Unsorted(hits, books, Grand(hits)), VoteKey(books));
    assert !Before(VoteKey(books)(Votes(hits)[j]), VoteKey(books)(Votes(hits)[i]));
  }

  lemma {:induction false} TwoShares(votes: seq<BookVote>, i: nat, j: nat)
    requires i < j < |votes| && forall k :: 0 <= k < |votes| ==> votes[k].share >= 0.0
    ensures votes[i].share + votes[j].share <= ShareSum(votes)
  {
    if j < |votes| - 1 {
      TwoShares(votes[..|votes| - 1], i, j);
    } else {
      OneShare(votes[..j], i);
    }
  }

  lemma {:induction false} OneShare(votes: seq<BookVote>, i: nat)
    requires i < |votes| && forall k :: 0 <= k < |votes| ==> votes[k].share >= 0.0
    ensures 0.0 <= votes[i].share <= ShareSum(votes)
  {
    var rest := votes[..|votes| - 1];
    if i < |rest| {
      OneShare(rest, i);
    } else if rest != [] {
      OneShare(rest, 0);
    }
  }

  /** At most one book reaches the share at which it counts as the source. */
  lemma OneDominates(hits: seq<Hit>, i: nat, j: nat)
    requires i < j < |Votes(hits)| && Votes(hits)[i].share >= DOMINANCE
    ensures Votes(hits)[j].share < DOMINANCE
  {
    hide Votes, ShareSum, ChunkSum, Collected, Books, VoteFor, Grand;
    var votes := Votes(hits);
    SharesAddUp(hits);
    forall k | 0 <= k < |votes| ensures votes[k].share >= 0.0 {
      assert votes[k] in votes;
      VotesAreBooks(hits, votes[k]);
    }
    TwoShares(votes, i, j);
  }

  // ------------------------------------------------------------------------- routing

  // The books routed to: the strongest, and the next when that one does not dominate.
  function Winners(votes: seq<BookVote>, dominance: real): set<Id>
    requires votes != []
  {
    if votes[0].share < dominance && |votes| > 1 then {votes[0].book, votes[1].book} else {votes[0].book}
  }

  function From(hits: seq<Hit>, books: set<Id>): seq<Hit> {
    if hits == [] then []
    else From(hits[..|hits| - 1], books) + if hits[|hits| - 1].book in books then [hits[|hits| - 1]] else []
  }

  method Route(hits: seq<Hit>, dominance: real) returns (routed: seq<Hit>, votes: seq<BookVote>)
    ensures votes == Votes(hits) && routed == Routed(hits, dominance)
  {
    hide Votes;
    votes := Vote(hits);
    if |hits| <= MIN_CHUNKS { return hits, votes; }
    if votes == [] { return hits, votes; }
    var chosen := {votes[0].book};
    if votes[0].share < dominance && |votes| > 1 { chosen := chosen + {votes[1].book}; }
    assert chosen == Winners(votes, dominance);
    var narrowed := From(hits, chosen);
    routed := if |narrowed| < MIN_CHUNKS then hits else narrowed;
  }

  function Routed(hits: seq<Hit>, dominance: real): seq<Hit> {
    var votes := Votes(hits);
    if |hits| <= MIN_CHUNKS || votes == [] then hits
    else
      var narrowed := From(hits, Winners(votes, dominance));
      if |narrowed| < MIN_CHUNKS then hits else narrowed
  }

  lemma {:induction false} FromSelects(hits: seq<Hit>, books: set<Id>) returns (at: seq<nat>)
    ensures Selects(hits, at, From(hits, books))
    ensures forall h :: h in From(hits, books) <==> h in hits && h.book in books
  {
    if hits == [] {
      at := [];
    } else {
      var rest, last := hits[..|hits| - 1], hits[|hits| - 1];
      at := FromSelects(rest, books);
      assert hits == rest + [last];
      if last.book in books { at := at + [|rest|]; }
    }
  }

  // A book routed to: the strongest, or the next when the strongest has less than the share that
  // settles it.
  predicate Leads(votes: seq<BookVote>, dominance: real, book: Id) {
    (|votes| > 0 && book == votes[0].book) || (|votes| > 1 && votes[0].share < dominance && book == votes[1].book)
  }

  /** Routing only discards: what is left keeps its order, is at least three hits when there were
      three, and when anything is discarded it is every hit of the books that lost. */
  lemma RouteDiscards(hits: seq<Hit>, dominance: real)
    ensures var r := Routed(hits, dominance);
      && Subsequence(r, hits)
      && |r| >= (if |hits| < MIN_CHUNKS then |hits| else MIN_CHUNKS)
      && (r != hits ==> Votes(hits) != [] && forall h :: h in r <==> h in hits && Leads(Votes(hits), dominance, h.book))
  {
    hide Votes, From, Selects;
    SubsequenceSelf(hits);
    if Votes(hits) != [] {
      var at := FromSelects(hits, Winners(Votes(hits), dominance));
    }
  }

  // ----------------------------------------------------------------------- narrowing

  method Narrow(hits: seq<Hit>, limit: int) returns (r: seq<Hit>, votes: seq<BookVote>)
    ensures r == Spread(Routed(Deduped(hits), DOMINANCE), limit) && votes == Votes(Deduped(hits))
  {
    var deduped := Dedupe(hits);
    var routed;
    routed, votes := Route(deduped, DOMINANCE);
    r := SpreadHits(routed, limit);
  }

  /** The whole pipeline only discards, keeping order: at most `limit` hits are left, none
      repeating another, and at least three when the limit and the hits that differ allow it. */
  lemma {:induction false} NarrowDiscards(hits: seq<Hit>, limit: int)
    requires limit > 0
    ensures var r, deduped := Spread(Routed(Deduped(hits), DOMINANCE), limit), Deduped(hits);
      && Subsequence(r, hits) && Clean(r) && |r| <= limit
      && |r| >= Least(limit, Least(MIN_CHUNKS, |deduped|))
  {
    hide Deduped, Routed, Spread, Selects, Repeats;
    var deduped := Deduped(hits);
    var routed := Routed(deduped, DOMINANCE);
    var at := DedupedSelects(hits);
    assert Subsequence(deduped, hits);
    RouteDiscards(deduped, DOMINANCE);
    SpreadKeeps(routed, limit);
    SubsequenceChains(Spread(routed, limit), routed, deduped);
    SubsequenceChains(Spread(routed, limit), deduped, hits);
    DedupedIsClean(hits);
    CleanPart(Spread(routed, limit), deduped);
  }

  function Least(a: int, b: int): int { if a < b then a else b }

  lemma CleanPart(some: seq<Hit>, all: seq<Hit>)
    requires Subsequence(some, all) && Clean(all)
    ensures Clean(some)
  {
    hide Repeats;
    var at :| Selects(all, at, some);
  }
}
