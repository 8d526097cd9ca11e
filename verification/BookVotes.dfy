/** What a book's vote weighs, told without the sums the code makes: each hit counts for its likeness,
    and a list counts for its first hit and 0.85 of the rest. */
module BookVotes {
  import opened Fusing
  import opened FusedOrder
  import opened Narrowing
  import opened Picking
  import opened Sorting
  import opened Voting
  import opened Wrappers

  function Likeness(h: Hit): real {
    if h.distance.None? then 0.65 else if h.distance.value > 1.0 then 0.0 else 1.0 - h.distance.value
  }

  function Strength(hits: seq<Hit>, book: Id): real {
    if hits == [] then 0.0 else (if hits[0].book == book then Likeness(hits[0]) else 0.0) + 0.85 * Strength(hits[1..], book)
  }

  lemma {:induction false} StrengthAppend(hits: seq<Hit>, h: Hit, book: Id)
    ensures Strength(hits + [h], book) == Strength(hits, book) + if h.book == book then Likeness(h) * Decay(|hits|) else 0.0
  {
    if hits == [] {
      assert Strength([h][1..], book) == 0.0;
    } else {
      assert (hits + [h])[1..] == hits[1..] + [h];
      StrengthAppend(hits[1..], h, book);
      Rescaled(Strength(hits[1..], book), Likeness(h), Decay(|hits| - 1));
    }
  }

  lemma Rescaled(x: real, like: real, d: real)
    ensures 0.85 * (x + like * d) == 0.85 * x + like * (d * 0.85)
    ensures 0.85 * (x + 0.0) == 0.85 * x
  {
    assert 0.85 * (like * d) == like * (d * 0.85);
  }

  // The places of a book's hits.
  ghost function HitsOf(hits: seq<Hit>, book: Id): set<nat> { set k: nat | k < |hits| && hits[k].book == book }

  lemma OneMoreHit(hits: seq<Hit>, book: Id)
    requires hits != []
    ensures var n := |hits| - 1;
      |HitsOf(hits, book)| == |HitsOf(hits[..n], book)| + if hits[n].book == book then 1 else 0
  {
    var n := |hits| - 1;
    assert n !in HitsOf(hits[..n], book);
    assert HitsOf(hits, book) == if hits[n].book == book then HitsOf(hits[..n], book) + {n} else HitsOf(hits[..n], book);
  }

  lemma {:induction false} OneMoreWeight(hits: seq<Hit>, book: Id)
    requires hits != []
    ensures var n := |hits| - 1;
      && Sum(Evidence(hits, book)) == Sum(Evidence(hits[..n], book)) + (if hits[n].book == book then Weight(hits[n], n) else 0.0)
      && |Evidence(hits, book)| == |Evidence(hits[..n], book)| + if hits[n].book == book then 1 else 0
  {
    hide Weight, Sum;
    var n := |hits| - 1;
    SumAppend(Evidence(hits[..n], book), Weight(hits[n], n));
  }

  lemma {:induction false} EvidenceIs(hits: seq<Hit>, book: Id)
    ensures Sum(Evidence(hits, book)) == Strength(hits, book) && |Evidence(hits, book)| == |HitsOf(hits, book)|
  {
    hide Decay, Strength, Sum, Evidence, HitsOf, Similarity, Likeness;
    if hits == [] {
      NoStrength(book);
    } else {
      var n := |hits| - 1;
      EvidenceIs(hits[..n], book);
      OneMoreHit(hits, book);
      OneMoreWeight(hits, book);
      assert hits == hits[..n] + [hits[n]];
      StrengthAppend(hits[..n], hits[n], book);
      LikenessIs(hits[n]);
    }
  }

  lemma LikenessIs(h: Hit)
    ensures Similarity(h) == Likeness(h)
  {
  }

  lemma {:induction false} NoStrength(book: Id)
    ensures Strength([], book) == 0.0 == Sum(Evidence([], book)) && Evidence([], book) == [] && HitsOf([], book) == {}
  {
  }

  // The first hit of a book.
  ghost predicate FirstOfBook(hits: seq<Hit>, book: Id, f: nat) {
    f < |hits| && hits[f].book == book && forall k :: 0 <= k < f ==> hits[k].book != book
  }

  lemma {:induction false} TitleIs(hits: seq<Hit>, book: Id, f: nat)
    requires FirstOfBook(hits, book, f)
    ensures TitleOf(hits, book) == hits[f].title
  {
    if f > 0 { TitleIs(hits[1..], book, f - 1); }
  }

  // The books' order is that of their first hits.
  lemma {:induction false} BooksArrive(hits: seq<Hit>, a: Id, b: Id, f: nat, g: nat)
    requires FirstOfBook(hits, a, f) && FirstOfBook(hits, b, g)
    ensures a in Books(hits) && b in Books(hits) && (IndexOf(Books(hits), a) < IndexOf(Books(hits), b) <==> f < g)
  {
    hide IndexOf;
    var n := |hits| - 1;
    BooksAre(hits[..n]);
    BooksAre(hits);
    var before := Books(hits[..n]);
    assert forall k :: 0 <= k < n ==> hits[..n][k] == hits[k];
    IndexKept(before, a, hits[n].book);
    IndexKept(before, b, hits[n].book);
    if f < n && g < n { BooksArrive(hits[..n], a, b, f, g); }
    assert f < n ==> a in before;
    assert g < n ==> b in before;
    assert f == n ==> a !in before;
    assert g == n ==> b !in before;
  }

  // Shares are as the scores.
  lemma SharesInProportion(x: real, y: real, g: real)
    requires g != 0.0
    ensures x / g * y == y / g * x
  {
  }

  lemma ProportionOf(u: BookVote, v: BookVote, g: real)
    requires g != 0.0 && u.share == u.score / g && v.share == v.score / g
    ensures u.share * v.score == v.share * u.score
  {
    SharesInProportion(u.score, v.score, g);
  }

  /** A vote carries its book's strength, how many hits it has and the title of the first; and any two
      votes' shares are as their strengths. */
  lemma {:induction false} VoteReads(hits: seq<Hit>, v: BookVote, f: nat, u: BookVote)
    requires v in Votes(hits) && u in Votes(hits) && FirstOfBook(hits, v.book, f)
    ensures v.score == Strength(hits, v.book) && v.chunks == |HitsOf(hits, v.book)| && v.title == hits[f].title
    ensures u.share * v.score == v.share * u.score
  {
    hide Votes, Evidence, Sum, TitleOf, Strength, HitsOf, Books, Collected;
    VotesAreBooks(hits, v);
    VotesAreBooks(hits, u);
    EvidenceIs(hits, v.book);
    TitleIs(hits, v.book, f);
    ProportionOf(u, v, Grand(hits));
  }

  /** The votes run from the strongest book down, and books as strong as each other
      stand in the order of their first hits. */
  lemma {:induction false} StrongestFirst(hits: seq<Hit>, i: nat, j: nat, f: nat, g: nat)
    requires i < j < |Votes(hits)|
    requires FirstOfBook(hits, Votes(hits)[i].book, f) && FirstOfBook(hits, Votes(hits)[j].book, g)
    ensures var x, y := Strength(hits, Votes(hits)[i].book), Strength(hits, Votes(hits)[j].book);
      x > y || (x == y && f <= g)
  {
    hide Votes, Evidence, Sum, TitleOf, Strength, HitsOf, Books, Collected, IndexOf;
    var u, v := Votes(hits)[i], Votes(hits)[j];
    VoteReads(hits, u, f, v);
    VoteReads(hits, v, g, u);
    VotesRanked(hits, i, j);
    if g < f { BooksArrive(hits, v.book, u.book, g, f); }
  }

  /** Routing keeps, in their order, just the hits of the books that lead, when there are more than
      three hits and at least three of those; and otherwise every hit. */
  lemma RoutedIs(hits: seq<Hit>, dominance: real) returns (at: seq<nat>)
    ensures Picks(at, |hits|, (k: nat) => k < |hits| && Leads(Votes(hits), dominance, hits[k].book))
    ensures if |hits| > 3 && |at| >= 3 then Selects(hits, at, Routed(hits, dominance)) else Routed(hits, dominance) == hits
  {
    hide Votes, From;
    var votes := Votes(hits);
    if votes == [] {
      NoVotes(hits);
      at := [];
    } else {
      at := FromIs(hits, votes, dominance);
    }
  }

  lemma NoVotes(hits: seq<Hit>)
    requires Votes(hits) == []
    ensures hits == []
  {
    hide Votes;
    SharesAddUp(hits);
  }

  lemma {:induction false} FromIs(hits: seq<Hit>, votes: seq<BookVote>, dominance: real) returns (at: seq<nat>)
    requires votes != []
    ensures Picks(at, |hits|, (k: nat) => k < |hits| && Leads(votes, dominance, hits[k].book))
    ensures Selects(hits, at, From(hits, Winners(votes, dominance)))
  {
    hide Leads;
    var keep := (k: nat) => k < |hits| && Leads(votes, dominance, hits[k].book);
    if hits == [] {
      at := [];
    } else {
      var n := |hits| - 1;
      var before := FromIs(hits[..n], votes, dominance);
      at := PicksNext(before, n, (k: nat) => k < n && Leads(votes, dominance, hits[..n][k].book), keep);
      LeadsIsWinner(votes, dominance, hits[n].book);
    }
  }

  lemma LeadsIsWinner(votes: seq<BookVote>, dominance: real, book: Id)
    requires votes != []
    ensures book in Winners(votes, dominance) <==> Leads(votes, dominance, book)
  {
  }
}
