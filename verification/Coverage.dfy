/** What of a page reaches the index: where its paragraphs begin and end, which of them are kept, and
    that each one kept stands in a chunk of its chapter. */
module Coverage {
  import opened Text
  import opened Chunking
  import opened ChunkFacts

  // ------------------------------------------------------------ where paragraphs end

  // From a newline at i to just past a later one, with nothing but white space between them.
  predicate BreakAt(s: string, i: nat, e: nat) {
    i + 1 < e <= |s| && s[i] == '\n' && s[e - 1] == '\n' && forall k :: i <= k < e ==> IsBlank(s[k])
  }

  ghost predicate Breaks(s: string, i: nat) { exists e: nat :: BreakAt(s, i, e) }

  // The breaks of a text: each as long as it can be, and none begins between two of them.
  ghost predicate AreBreaks(s: string, start: nat, breaks: seq<(nat, nat)>) {
    && (forall k :: 0 <= k < |breaks| ==> BreakAt(s, breaks[k].0, breaks[k].1))
    && (forall k, e: nat :: 0 <= k < |breaks| && BreakAt(s, breaks[k].0, e) ==> e <= breaks[k].1)
    && (forall k :: 0 <= k <= |breaks| ==> From(start, breaks, k) <= To(s, breaks, k))
    && (forall k, i: nat :: 0 <= k <= |breaks| && From(start, breaks, k) <= i < To(s, breaks, k) ==> !Breaks(s, i))
  }

  // Where the k-th paragraph begins and ends.
  function From(start: nat, breaks: seq<(nat, nat)>, k: int): int
    requires 0 <= k <= |breaks|
  {
    if k == 0 then start else breaks[k - 1].1
  }

  function To(s: string, breaks: seq<(nat, nat)>, k: int): int
    requires 0 <= k <= |breaks|
  {
    if k == |breaks| then |s| else breaks[k].0
  }

  lemma {:induction false} LastNewline(s: string, i: nat, j: nat)
    requires i <= j <= |s|
    ensures var e := PastLastNewline(s, i, j);
      && (e > i ==> s[e - 1] == '\n') && forall k :: e <= k < j ==> s[k] != '\n'
    decreases j
  {
    if i < j && s[j - 1] != '\n' { LastNewline(s, i, j - 1); }
  }

  lemma {:induction false} PastBlanks(s: string, i: nat)
    requires i <= |s|
    ensures SkipBlanks(s, i) < |s| ==> !IsBlank(s[SkipBlanks(s, i)])
    decreases |s| - i
  {
    if i < |s| && IsBlank(s[i]) { PastBlanks(s, i + 1); }
  }

  // The break that the code finds at a newline, if it finds one, is the longest there is.
  lemma {:induction false} BreakFound(s: string, i: nat)
    requires i < |s| && s[i] == '\n'
    ensures var e := PastLastNewline(s, i + 1, SkipBlanks(s, i + 1));
      if e > i + 1 then BreakAt(s, i, e) && forall f: nat :: BreakAt(s, i, f) ==> f <= e else !Breaks(s, i)
  {
    hide PastLastNewline, SkipBlanks;
    var j := SkipBlanks(s, i + 1);
    var e := PastLastNewline(s, i + 1, j);
    LastNewline(s, i + 1, j);
    PastBlanks(s, i + 1);
    forall f: nat | BreakAt(s, i, f) ensures f <= e && e > i + 1 {
      assert f <= j;
      assert s[f - 1] == '\n';
    }
  }

  lemma {:induction false} SplitIs(s: string, start: nat, i: nat) returns (breaks: seq<(nat, nat)>)
    requires start <= i <= |s| && forall j: nat :: start <= j < i ==> !Breaks(s, j)
    ensures |SplitFrom(s, start, i)| == |breaks| + 1 && AreBreaks(s, start, breaks)
    ensures forall k :: 0 <= k <= |breaks| ==> SplitFrom(s, start, i)[k] == s[From(start, breaks, k)..To(s, breaks, k)]
    decreases |s| - i
  {
    hide PastLastNewline, SkipBlanks, BreakAt, Breaks;
    if i == |s| {
      breaks := [];
    } else {
      var e := PastLastNewline(s, i + 1, SkipBlanks(s, i + 1));
      if s[i] == '\n' { BreakFound(s, i); }
      if s[i] == '\n' && e > i + 1 {
        var rest := SplitIs(s, e, e);
        breaks := [(i, e)] + rest;
        BreaksOn(s, start, i, e, rest);
        assert SplitFrom(s, start, i) == [s[start..i]] + SplitFrom(s, e, e);
      } else {
        NoBreakWithout(s, i);
        breaks := SplitIs(s, start, i + 1);
      }
    }
  }

  lemma NoBreakWithout(s: string, i: nat)
    ensures i < |s| && s[i] != '\n' ==> !Breaks(s, i)
  {
  }

  lemma BreaksOn(s: string, start: nat, i: nat, e: nat, rest: seq<(nat, nat)>)
    requires start <= i < e <= |s| && BreakAt(s, i, e) && (forall f: nat :: BreakAt(s, i, f) ==> f <= e)
    requires (forall j: nat :: start <= j < i ==> !Breaks(s, j)) && AreBreaks(s, e, rest)
    ensures AreBreaks(s, start, [(i, e)] + rest)
    ensures forall k :: 0 < k <= |rest| + 1 ==>
      From(start, [(i, e)] + rest, k) == From(e, rest, k - 1) && To(s, [(i, e)] + rest, k) == To(s, rest, k - 1)
  {
    hide BreakAt, Breaks;
    var all := [(i, e)] + rest;
    forall k | 0 < k <= |rest| + 1 ensures From(start, all, k) == From(e, rest, k - 1) && To(s, all, k) == To(s, rest, k - 1) {}
    forall k, f: nat | 0 <= k < |all| && BreakAt(s, all[k].0, f) ensures f <= all[k].1 { if k > 0 { assert all[k] == rest[k - 1]; } }
    forall k, j: nat | 0 <= k <= |all| && From(start, all, k) <= j < To(s, all, k) ensures !Breaks(s, j) {}
  }

  /** A text's paragraphs are what stands between its breaks: from a newline to the last newline that
      only white space parts from it. No break begins inside a paragraph, and each runs as far as it
      can. */
  lemma ParagraphsAre(s: string) returns (breaks: seq<(nat, nat)>)
    ensures |Paragraphs(s)| == |breaks| + 1 && AreBreaks(s, 0, breaks)
    ensures forall k :: 0 <= k <= |breaks| ==> Paragraphs(s)[k] == s[From(0, breaks, k)..To(s, breaks, k)]
  {
    hide SplitFrom, AreBreaks;
    breaks := SplitIs(s, 0, 0);
  }

  // ---------------------------------------------------------------- which are kept

  // Where a text has letters.
  ghost function LetterPlaces(s: string, alpha: char -> bool): set<nat> {
    set k: nat | k < |s| && alpha(s[k])
  }

  lemma {:induction false} LettersAre(s: string, alpha: char -> bool)
    ensures Letters(s, alpha) == |LetterPlaces(s, alpha)|
  {
    if s == [] {
      assert LetterPlaces(s, alpha) == {};
    } else {
      LettersAre(s[1..], alpha);
      LettersNext(s, alpha);
    }
  }

  lemma LettersNext(s: string, alpha: char -> bool)
    requires s != []
    ensures |LetterPlaces(s, alpha)| == |LetterPlaces(s[1..], alpha)| + if alpha(s[0]) then 1 else 0
  {
    var rest := LetterPlaces(s[1..], alpha);
    var later := Shifted(rest);
    ShiftKeepsSize(rest);
    var all := LetterPlaces(s, alpha);
    assert 0 !in later && (0 in all <==> alpha(s[0]));
    forall k: nat | k > 0 ensures k in all <==> k in later {
      assert k < |s| ==> s[1..][k - 1] == s[k];
      assert k - 1 in rest <==> k - 1 < |s| - 1 && alpha(s[1..][k - 1]);
    }
    assert all == if alpha(s[0]) then later + {0} else later;
  }

  ghost function Shifted(places: set<nat>): (r: set<nat>)
    ensures forall k: nat :: k in r <==> k > 0 && k - 1 in places
  {
    set k: nat | k in places :: k + 1
  }

  lemma {:induction false} ShiftKeepsSize(places: set<nat>)
    ensures |Shifted(places)| == |places|
  {
    if places == {} {
      assert Shifted(places) == {};
    } else {
      var k: nat :| k in places;
      ShiftKeepsSize(places - {k});
      assert Shifted(places) == Shifted(places - {k}) + {k + 1};
    }
  }

  // At least twenty characters, and at least as many letters as other characters.
  ghost predicate Reads(s: string, alpha: char -> bool) {
    |s| >= 20 && |LetterPlaces(s, alpha)| >= |s| - |LetterPlaces(s, alpha)|
  }

  /** What a page keeps are exactly its paragraphs that read, stripped of white space. */
  lemma {:induction false} KeptIff(page: int, parts: seq<string>, alpha: char -> bool, u: Unit)
    ensures u in KeptOf(page, parts, alpha)
       <==> u.page == page && exists k :: 0 <= k < |parts| && u.text == Strip(parts[k]) && Reads(u.text, alpha)
  {
    hide Strip, Letters, LetterPlaces;
    if parts != [] {
      var n := |parts| - 1;
      var rest := parts[..n];
      KeptIff(page, rest, alpha, u);
      LettersAre(Strip(parts[n]), alpha);
      assert forall k :: 0 <= k < n ==> rest[k] == parts[k];
      assert WorthKeeping(Strip(parts[n]), alpha) <==> Reads(Strip(parts[n]), alpha);
    }
  }

  lemma {:induction false} UnitsIff(byPage: map<int, string>, from: int, until: int, alpha: char -> bool, u: Unit)
    ensures u in UnitsOf(byPage, from, until, alpha)
       <==> from <= u.page < until && u in KeptOf(u.page, Paragraphs(PageText(byPage, u.page)), alpha)
    decreases until - from
  {
    hide KeptOf, Paragraphs, PageText;
    if from < until { UnitsIff(byPage, from, until - 1, alpha, u); }
  }

  // --------------------------------------------------------------- where they stand

  // A chunk of the chapter holds the paragraph whole, among others joined by blank lines.
  ghost predicate StandsWhole(chunks: seq<Chunk>, chapter: nat, u: Unit) {
    exists c, us: seq<Unit> :: 0 <= c < |chunks| && u in us && chunks[c].chapter == chapter && chunks[c].text == Joined(us)
  }

  // Chunks of the chapter that follow one another, all on the paragraph's page, spell it.
  ghost predicate StandsCut(chunks: seq<Chunk>, chapter: nat, u: Unit) {
    exists c, e :: 0 <= c < e <= |chunks| && Concat(Texts(chunks[c..e])) == u.text
      && forall k :: c <= k < e ==> chunks[k].chapter == chapter && chunks[k].page == u.page
  }

  lemma {:induction false} InADraft(drafts: seq<Draft>, u: Unit) returns (d: nat)
    requires u in Stripped(drafts)
    ensures d < |drafts| && u in Own(drafts[d])
  {
    var n := |drafts| - 1;
    if u in Own(drafts[n]) { d := n; } else { d := InADraft(drafts[..n], u); }
  }

  // A draft's chunks stand together.
  lemma {:induction false} RenderedTogether(drafts: seq<Draft>, chapter: nat, from: nat, d: nat) returns (at: nat)
    requires d < |drafts|
    ensures at + |RenderOne(drafts[d], chapter, from + at)| <= |Render(drafts, chapter, from)|
    ensures Render(drafts, chapter, from)[at..at + |RenderOne(drafts[d], chapter, from + at)|] == RenderOne(drafts[d], chapter, from + at)
  {
    hide RenderOne;
    var n := |drafts| - 1;
    if d == n {
      at := |Render(drafts[..n], chapter, from)|;
    } else {
      at := RenderedTogether(drafts[..n], chapter, from, d);
      assert drafts[..n][d] == drafts[d];
    }
  }

  lemma StandsInOne(d: Draft, chapter: nat, from: nat, u: Unit, maxTokens: nat)
    requires maxTokens > 0 && u in Own(d) && Cut(d, maxTokens) && (d.Packed? ==> d.carried < |d.units|) && u.text != []
    ensures var own := RenderOne(d, chapter, from);
      StandsWhole(own, chapter, u) || StandsCut(own, chapter, u)
  {
    hide Joined, Split, Estimate, Concat, Texts;
    var own := RenderOne(d, chapter, from);
    match d
    case Packed(carried, units) =>
      assert u in units && own[0].text == Joined(units);
      assert StandsWhole(own, chapter, u);
    case Pieces(v, pieces) =>
      PiecesSpell(d, chapter, from, maxTokens);
      assert own[0..|own|] == own;
      assert StandsCut(own, chapter, u);
  }

  lemma PiecesSpell(d: Draft, chapter: nat, from: nat, maxTokens: nat)
    requires maxTokens > 0 && d.Pieces? && Cut(d, maxTokens) && d.unit.text != []
    ensures var own := RenderOne(d, chapter, from);
      own != [] && Concat(Texts(own)) == d.unit.text
  {
    hide Estimate;
    PieceTexts(d.unit, d.pieces, chapter, from, RenderOne(d, chapter, from));
    SplitRejoins(d.unit.text, maxTokens * CHARS_PER_TOKEN);
  }

  // What stands in some of the chunks stands in all of them.
  lemma StandsOn(some: seq<Chunk>, all: seq<Chunk>, at: nat, chapter: nat, u: Unit)
    requires at + |some| <= |all| && all[at..at + |some|] == some
    requires StandsWhole(some, chapter, u) || StandsCut(some, chapter, u)
    ensures StandsWhole(all, chapter, u) || StandsCut(all, chapter, u)
  {
    hide Joined, Concat, Texts;
    assert forall k :: 0 <= k < |some| ==> some[k] == all[at + k];
    if StandsWhole(some, chapter, u) {
      var c, us: seq<Unit> :| 0 <= c < |some| && u in us && some[c].chapter == chapter && some[c].text == Joined(us);
      assert all[at + c].text == Joined(us);
    } else {
      var c, e :| 0 <= c < e <= |some| && Concat(Texts(some[c..e])) == u.text && forall k :: c <= k < e ==> some[k].chapter == chapter && some[k].page == u.page;
      assert all[at + c..at + e] == some[c..e];
      assert forall k :: at + c <= k < at + e ==> all[k] == some[k - at];
      assert 0 <= at + c < at + e <= |all|;
    }
  }

  lemma {:induction false} StandsInChapter(units: seq<Unit>, chapter: nat, from: nat, u: Unit, maxTokens: nat, overlap: nat)
    requires maxTokens > 0 && u in units && u.text != []
    ensures var chunks := Render(DraftsOf(units, maxTokens, overlap), chapter, from);
      StandsWhole(chunks, chapter, u) || StandsCut(chunks, chapter, u)
  {
    hide DraftsOf, Render, RenderOne, Stripped, Own, StandsWhole, StandsCut, FollowsAll, Tokens, Split, Estimate;
    var drafts := DraftsOf(units, maxTokens, overlap);
    DraftsConserve(units, maxTokens, overlap);
    var d := InADraft(drafts, u);
    var at := RenderedTogether(drafts, chapter, from, d);
    assert SoundAt(drafts, d, maxTokens, overlap);
    StandsInOne(drafts[d], chapter, from + at, u, maxTokens);
    StandsOn(RenderOne(drafts[d], chapter, from + at), Render(drafts, chapter, from), at, chapter, u);
  }

  lemma {:induction false} StandsInBook(chapters: seq<Chapter>, byPage: map<int, string>, maxTokens: nat, overlap: nat, alpha: char -> bool, h: nat, u: Unit)
    requires maxTokens > 0 && h < |chapters| && u in ChapterUnits(chapters[h], byPage, alpha) && u.text != []
    ensures var chunks := ChunksOf(chapters, byPage, maxTokens, overlap, alpha);
      StandsWhole(chunks, chapters[h].index, u) || StandsCut(chunks, chapters[h].index, u)
  {
    hide Render, DraftsOf, UnitsOf, StandsWhole, StandsCut;
    var n := |chapters| - 1;
    var before, all := ChunksOf(chapters[..n], byPage, maxTokens, overlap, alpha), ChunksOf(chapters, byPage, maxTokens, overlap, alpha);
    if h == n {
      var units := ChapterUnits(chapters[h], byPage, alpha);
      var mine := Render(DraftsOf(units, maxTokens, overlap), chapters[h].index, |before|);
      StandsInChapter(units, chapters[h].index, |before|, u, maxTokens, overlap);
      assert all[|before|..|before| + |mine|] == mine;
      StandsOn(mine, all, |before|, chapters[h].index, u);
    } else {
      StandsInBook(chapters[..n], byPage, maxTokens, overlap, alpha, h, u);
      assert chapters[..n][h] == chapters[h] && all[0..|before|] == before;
      StandsOn(before, all, 0, chapters[h].index, u);
    }
  }

  // Of two pages with one number, the later stands.
  lemma {:induction false} LastPageStands(pages: seq<Page>, n: nat)
    requires n < |pages| && forall m :: n < m < |pages| ==> pages[m].number != pages[n].number
    ensures pages[n].number in ByPage(pages) && ByPage(pages)[pages[n].number] == pages[n].text
  {
    if n < |pages| - 1 { LastPageStands(pages[..|pages| - 1], n); }
  }

  /** Every paragraph that reads, of every page under a chapter, is in the chapter's chunks: whole, or
      in pieces one after another. */
  lemma {:induction false} ParagraphIsIndexed(chapters: seq<Chapter>, pages: seq<Page>, maxTokens: nat, overlap: nat, alpha: char -> bool, h: nat, n: nat, k: nat)
    requires maxTokens > 0 && n < |pages| && forall m :: n < m < |pages| ==> pages[m].number != pages[n].number
    requires h < |chapters| && chapters[h].pageStart <= pages[n].number <= chapters[h].pageEnd
    requires k < |Paragraphs(pages[n].text)| && Reads(Strip(Paragraphs(pages[n].text)[k]), alpha)
    ensures var chunks, u := ChunksOf(chapters, ByPage(pages), maxTokens, overlap, alpha), Unit(pages[n].number, Strip(Paragraphs(pages[n].text)[k]));
      StandsWhole(chunks, chapters[h].index, u) || StandsCut(chunks, chapters[h].index, u)
  {
    hide Paragraphs, Strip, KeptOf, ChunksOf, StandsWhole, StandsCut, LetterPlaces, UnitsOf, ByPage;
    var page, byPage := pages[n].number, ByPage(pages);
    LastPageStands(pages, n);
    var u := Unit(page, Strip(Paragraphs(byPage[page])[k]));
    KeptIff(page, Paragraphs(byPage[page]), alpha, u);
    UnitsIff(byPage, chapters[h].pageStart, chapters[h].pageEnd + 1, alpha, u);
    StandsInBook(chapters, byPage, maxTokens, overlap, alpha, h, u);
  }
}
