/** A book's chapters: `detect_chapters` in `rag/chunk.py` over the pages and parts of
    `Pages`, and what a book combined from an archive keeps. */
module Books {
  import opened Chunking
  import opened Pages
  import opened Wrappers

  // ------------------------------------------------------------ combined archives

  // Parts that follow one another from page 1 to page n.
  predicate Tiled(parts: seq<Part>, n: int) {
    if parts == [] then n == 0
    else
      var last := parts[|parts| - 1];
      last.pageStart <= last.pageEnd == n && Tiled(parts[..|parts| - 1], last.pageStart - 1)
  }

  // What the readers promise: pages numbered from 1, and for a PDF as many as it says it has.
  predicate WellPaged(m: Member) {
    m.text.Some? ==> Numbered(m.text.value) && (m.format == Some(Pdf) && m.extent.Some? ==> |m.text.value| == m.extent.value.count)
  }

  function TextsOf(pages: seq<Page>): seq<string> { seq(|pages|, i requires 0 <= i < |pages| => pages[i].text) }

  // The text of every document among the members, page after page.
  function AllPages(members: seq<Member>): seq<string> {
    if members == [] then []
    else
      var m := members[|members| - 1];
      AllPages(members[..|members| - 1]) + if IsDocument(m) && m.text.Some? then TextsOf(m.text.value) else []
  }

  function Unpacked(members: seq<Member>): nat {
    if members == [] then 0 else Unpacked(members[..|members| - 1]) + Size(members[|members| - 1].blocks)
  }

  predicate Combined(s: Scan, members: seq<Member>, cap: nat) {
    && Numbered(s.pages) && |s.pages| == s.offset
    && Tiled(s.parts, s.offset)
    && TextsOf(s.pages) == AllPages(members)
    && s.remaining == cap - Unpacked(members)
  }

  lemma IncludeCombines(s: Scan, m: Member, before: seq<Member>, cap: nat)
    requires Combined(s, before, cap) && WellPaged(m) && Size(m.blocks) <= s.remaining
    requires ScanOne(s, m, true).Found?
    ensures Combined(ScanOne(s, m, true).scan, before + [m], cap)
  {
    hide Size;
    var members, next := before + [m], ScanOne(s, m, true).scan;
    assert members[..|before|] == before;
    if IsDocument(m) {
      var r := Read(m, true).value;
      assert r.pages == m.text.value && r.count == |r.pages|;
      if r.count == 0 {
        assert TextsOf(r.pages) == [];
      } else {
        assert next.parts[..|s.parts|] == s.parts;
        assert TextsOf(next.pages) == TextsOf(s.pages) + TextsOf(r.pages);
      }
    }
  }

  lemma {:induction false} ScanCombines(members: seq<Member>, cap: nat)
    requires forall k :: 0 <= k < |members| ==> WellPaged(members[k])
    requires ScanAll(members, true, cap).Found?
    ensures ScanAll(members, true, cap).scan.remaining >= 0
    ensures Combined(ScanAll(members, true, cap).scan, members, cap)
  {
    if members == [] {
    } else {
      hide WellPaged, Combined, IsDocument, Read, Include, Size;
      var n := |members| - 1;
      ScanCombines(members[..n], cap);
      Subtracted(ScanAll(members[..n], true, cap).scan, members[n], true);
      IncludeCombines(ScanAll(members[..n], true, cap).scan, members[n], members[..n], cap);
      assert members[..n] + [members[n]] == members;
    }
  }

  lemma Subtracted(s: Scan, m: Member, withText: bool)
    ensures var r := ScanOne(s, m, withText);
      if s.remaining < Size(m.blocks) then r == Rejected(TooBig) else r.Found? ==> r.scan.remaining == s.remaining - Size(m.blocks) >= 0
  {
    hide Size;
  }

  /** An archive that reads becomes one book: its pages are numbered 1 to N with no gap and
      spell the members' pages in reading order, its parts follow one another from 1 to N, and
      what was unpacked is within the cap. */
  lemma {:induction false} ArchiveIsOneBook(members: seq<Member>, cap: nat)
    requires forall k :: 0 <= k < |members| ==> WellPaged(members[k])
    requires Book(members, true, cap).Found?
    ensures var s := Book(members, true, cap).scan;
      && Numbered(s.pages) && Tiled(s.parts, |s.pages|) && s.parts != []
      && TextsOf(s.pages) == AllPages(members)
      && Unpacked(members) <= cap
  {
    hide WellPaged, ScanAll;
    ScanCombines(members, cap);
  }

  lemma {:induction false} PassesAgree(members: seq<Member>, cap: nat)
    requires ScanAll(members, true, cap).Found?
    ensures ScanAll(members, false, cap).Found?
    ensures var a, b := ScanAll(members, true, cap).scan, ScanAll(members, false, cap).scan;
      a.parts == b.parts && a.offset == b.offset && a.remaining == b.remaining && b.pages == []
  {
    hide Size;
    if members != [] { PassesAgree(members[..|members| - 1], cap); }
  }

  /** Whenever an archive reads, the pass that leaves the text out finds the same parts. */
  lemma OutlinePassAgrees(members: seq<Member>, cap: nat)
    requires Book(members, true, cap).Found?
    ensures Book(members, false, cap).Found?
    ensures Book(members, false, cap).scan.parts == Book(members, true, cap).scan.parts
  {
    PassesAgree(members, cap);
  }

  // --------------------------------------------------------------------- chapters

  // `_chapters_from_tops`: where each chapter starts and ends.
  function SpanAt(tops: seq<Top>, lastPage: int, i: nat): (c: Chapter)
    requires i < |tops|
  {
    var end := if i + 1 < |tops| then tops[i + 1].page - 1 else lastPage;
    Chapter(i, tops[i].title, tops[i].page, if end > tops[i].page then end else tops[i].page)
  }

  function FromTops(tops: seq<Top>, lastPage: int): seq<Chapter> {
    if |tops| < 2 then [] else seq(|tops|, i requires 0 <= i < |tops| => SpanAt(tops, lastPage, i))
  }

  method ChaptersFromTops(tops: seq<Top>, lastPage: int) returns (chapters: seq<Chapter>)
    ensures chapters == FromTops(tops, lastPage) && |chapters| == if |tops| < 2 then 0 else |tops|
    ensures forall i :: 0 <= i < |chapters| ==>
      chapters[i].index == i && chapters[i].title == tops[i].title && chapters[i].pageStart == tops[i].page <= chapters[i].pageEnd
  {
    chapters := [];
    if |tops| < 2 { return; }
    for i := 0 to |tops|
      invariant chapters == FromTops(tops, lastPage)[..i]
    {
      var end := lastPage;
      if i + 1 < |tops| { end := tops[i + 1].page - 1; }
      chapters := chapters + [Chapter(i, tops[i].title, tops[i].page, if end > tops[i].page then end else tops[i].page)];
    }
  }

  function LastPage(pages: seq<Page>): int { if pages == [] then 1 else pages[|pages| - 1].number }

  // `detect_chapters`, given the tops an outline or the parts give: the whole book is one
  // chapter when they make none.
  function Detect(tops: seq<Top>, pages: seq<Page>): seq<Chapter> {
    var chapters := FromTops(tops, LastPage(pages));
    if chapters == [] then [Chapter(0, "Full document", 1, LastPage(pages))] else chapters
  }

  predicate Holds(c: Chapter, page: int) { c.pageStart <= page <= c.pageEnd }

  predicate Increasing(tops: seq<Top>) { forall i, j :: 0 <= i < j < |tops| ==> tops[i].page < tops[j].page }

  // As `Increasing`, where two may start on one page.
  predicate Rising(tops: seq<Top>) { forall i, j :: 0 <= i < j < |tops| ==> tops[i].page <= tops[j].page }

  predicate StartsBy(tops: seq<Top>, lastPage: int) { forall i :: 0 <= i < |tops| ==> tops[i].page <= lastPage }

  ghost predicate NoPageTwice(chapters: seq<Chapter>) {
    forall i, j, p :: 0 <= i < j < |chapters| && Holds(chapters[i], p) ==> !Holds(chapters[j], p)
  }

  // From a chapter that starts by page p, some chapter at or after it holds p.
  lemma {:induction false} HolderFrom(tops: seq<Top>, lastPage: int, i: nat, p: int) returns (h: nat)
    requires |tops| >= 2 && i < |tops| && tops[i].page <= p <= lastPage
    ensures i <= h < |tops| && Holds(FromTops(tops, lastPage)[h], p)
    decreases |tops| - i
  {
    h := i;
    if i + 1 < |tops| && tops[i + 1].page <= p { h := HolderFrom(tops, lastPage, i + 1, p); }
  }

  lemma NextStarts(tops: seq<Top>)
    ensures (forall i :: 0 <= i < |tops| - 1 ==> tops[i].page < tops[i + 1].page) ==> Increasing(tops)
  {
    if forall i :: 0 <= i < |tops| - 1 ==> tops[i].page < tops[i + 1].page {
      forall i, j | 0 <= i < j < |tops| ensures tops[i].page < tops[j].page { StartsBefore(tops, i, j); }
    }
  }

  lemma {:induction false} StartsBefore(tops: seq<Top>, i: nat, j: nat)
    requires i < j < |tops| && forall k :: 0 <= k < |tops| - 1 ==> tops[k].page < tops[k + 1].page
    ensures tops[i].page < tops[j].page
    decreases j
  {
    assert tops[j - 1].page < tops[j - 1 + 1].page;
    if i < j - 1 { StartsBefore(tops, i, j - 1); }
  }

  /** No page is read under two chapters exactly when the chapters' starts strictly increase: two
      that start together, or one out of order, put a page under both. */
  lemma NoPageTwiceIff(tops: seq<Top>, lastPage: int)
    requires |tops| >= 2 && StartsBy(tops, lastPage)
    ensures NoPageTwice(FromTops(tops, lastPage)) <==> Increasing(tops)
  {
    var chapters := FromTops(tops, lastPage);
    NextStarts(tops);
    if !Increasing(tops) {
      var i :| 0 <= i < |tops| - 1 && tops[i].page >= tops[i + 1].page;
      var h := HolderFrom(tops, lastPage, i + 1, tops[i].page);
      assert Holds(chapters[i], tops[i].page) && Holds(chapters[h], tops[i].page);
    } else {
      forall i, j, p | 0 <= i < j < |chapters| && Holds(chapters[i], p) ensures !Holds(chapters[j], p) {
        assert tops[i].page < tops[i + 1].page && (i + 1 < j ==> tops[i + 1].page < tops[j].page);
      }
    }
  }

  /** A page of the book is under a chapter exactly when some chapter starts at or before it; pages
      before every start are under none, and so are never searched. With fewer than two starts no
      page is left out. */
  lemma PagesUnderAChapter(tops: seq<Top>, pages: seq<Page>, p: int)
    requires StartsBy(tops, LastPage(pages))
    ensures (exists c :: c in Detect(tops, pages) && Holds(c, p))
       <==> p <= LastPage(pages) && if |tops| < 2 then 1 <= p else exists i :: 0 <= i < |tops| && tops[i].page <= p
  {
    var chapters := Detect(tops, pages);
    if |tops| < 2 {
      assert chapters[0] in chapters;
    } else if i :| p <= LastPage(pages) && 0 <= i < |tops| && tops[i].page <= p {
      var h := HolderFrom(tops, LastPage(pages), i, p);
      assert chapters[h] in chapters;
    } else {
      forall i | 0 <= i < |tops| ensures !Holds(chapters[i], p) {
        assert i + 1 < |tops| ==> tops[i + 1].page <= LastPage(pages);
      }
    }
  }

  // ------------------------------------------------------------------------ seams

  // The chapter starts a part gives: its own outline's, when that names at least two.
  function PartTops(part: Part, titleOf: Part -> string): (r: seq<Top>)
    ensures r != []
  {
    if |part.outline| >= 2 then part.outline else [Top(titleOf(part), part.pageStart)]
  }

  function PartsTops(parts: seq<Part>, titleOf: Part -> string): seq<Top> {
    if parts == [] then [] else PartsTops(parts[..|parts| - 1], titleOf) + PartTops(parts[|parts| - 1], titleOf)
  }

  function InBook(tops: seq<Top>, lastPage: int): seq<Top> {
    if tops == [] then []
    else
      var last := tops[|tops| - 1];
      InBook(tops[..|tops| - 1], lastPage) + if 1 <= last.page <= lastPage then [last] else []
  }

  // `_chapters_from_zip_parts`, up to the chapters themselves
  method TopsFromParts(parts: seq<Part>, lastPage: int, titleOf: Part -> string) returns (tops: seq<Top>)
    ensures tops == InBook(PartsTops(parts, titleOf), lastPage)
  {
    var all: seq<Top> := [];
    for k := 0 to |parts|
      invariant all == PartsTops(parts[..k], titleOf)
    {
      assert parts[..k + 1][..k] == parts[..k];
      all := all + PartTops(parts[k], titleOf);
    }
    assert parts[..|parts|] == parts;
    tops := InBook(all, lastPage);
  }

  // An outline that stays inside its part and never goes back.
  predicate Orderly(part: Part) {
    Rising(part.outline) && forall i :: 0 <= i < |part.outline| ==> part.pageStart <= part.outline[i].page <= part.pageEnd
  }

  // The part's first chapter starts on its first page.
  predicate Led(part: Part) { |part.outline| < 2 || part.outline[0].page == part.pageStart }

  lemma {:induction false} TopsInOrder(parts: seq<Part>, n: int, titleOf: Part -> string)
    requires Tiled(parts, n) && forall k :: 0 <= k < |parts| ==> Orderly(parts[k])
    ensures Rising(PartsTops(parts, titleOf))
    ensures forall i :: 0 <= i < |PartsTops(parts, titleOf)| ==> 1 <= PartsTops(parts, titleOf)[i].page <= n
    ensures n >= 0
  {
    if parts != [] {
      var k := |parts| - 1;
      TopsInOrder(parts[..k], parts[k].pageStart - 1, titleOf);
      assert Orderly(parts[k]);
    }
  }

  lemma {:induction false} InBookNext(tops: seq<Top>, lastPage: int)
    requires tops != [] && 1 <= tops[|tops| - 1].page <= lastPage
    ensures InBook(tops, lastPage) == InBook(tops[..|tops| - 1], lastPage) + [tops[|tops| - 1]]
  {
  }

  lemma {:induction false} AllInBook(tops: seq<Top>, lastPage: int)
    requires forall i :: 0 <= i < |tops| ==> 1 <= tops[i].page <= lastPage
    ensures InBook(tops, lastPage) == tops
  {
    if tops == [] {
    } else {
      var rest, last := tops[..|tops| - 1], tops[|tops| - 1];
      AllInBook(rest, lastPage);
      InBookNext(tops, lastPage);
      hide InBook;
      assert tops == rest + [last];
    }
  }

  predicate Starts(tops: seq<Top>, p: int) { exists i :: 0 <= i < |tops| && tops[i].page == p }

  // Chapter c runs across the seam before page p.
  predicate Straddles(c: Chapter, p: int) { c.pageStart < p <= c.pageEnd }

  // A start before page p that the next one, if there is one, lies past.
  predicate SteppedOver(tops: seq<Top>, p: int) {
    exists i :: 0 <= i < |tops| && tops[i].page < p && (i + 1 < |tops| ==> p < tops[i + 1].page)
  }

  lemma SeamStraddledIff(tops: seq<Top>, lastPage: int, p: int)
    requires |tops| >= 2 && p <= lastPage
    ensures (exists c :: c in FromTops(tops, lastPage) && Straddles(c, p)) <==> SteppedOver(tops, p)
  {
    var chapters := FromTops(tops, lastPage);
    if SteppedOver(tops, p) {
      var i :| 0 <= i < |tops| && tops[i].page < p && (i + 1 < |tops| ==> p < tops[i + 1].page);
      assert chapters[i] in chapters && Straddles(chapters[i], p);
    }
    forall c | c in chapters && Straddles(c, p) ensures SteppedOver(tops, p) {
      var i :| 0 <= i < |chapters| && chapters[i] == c;
      assert c == SpanAt(tops, lastPage, i);
    }
  }

  // Starts that never go back step over a page past the first exactly when none is on it.
  lemma SteppedOverIff(tops: seq<Top>, p: int)
    requires Rising(tops) && tops != [] && tops[0].page < p
    ensures SteppedOver(tops, p) <==> !Starts(tops, p)
  {
    var i := 0;
    while i + 1 < |tops| && tops[i + 1].page < p
      invariant i < |tops| && tops[i].page < p
    {
      i := i + 1;
    }
    if Starts(tops, p) {
      var k :| 0 <= k < |tops| && tops[k].page == p;
      forall j | 0 <= j < |tops| && tops[j].page < p ensures j + 1 < |tops| && tops[j + 1].page <= p {
        assert j + 1 < k ==> tops[j + 1].page <= tops[k].page;
      }
    } else {
      assert i + 1 < |tops| ==> tops[i + 1].page != p;
    }
  }

  // Whether a page is a start, when tops are added past it.
  lemma StartsAppend(before: seq<Top>, mine: seq<Top>, p: int)
    ensures Starts(before + mine, p) <==> Starts(before, p) || Starts(mine, p)
  {
    var tops := before + mine;
    if Starts(before, p) {
      var i :| 0 <= i < |before| && before[i].page == p;
      assert tops[i].page == p;
    }
    if Starts(mine, p) {
      var i :| 0 <= i < |mine| && mine[i].page == p;
      assert tops[|before| + i].page == p;
    }
    if Starts(tops, p) {
      var i :| 0 <= i < |tops| && tops[i].page == p;
      assert if i < |before| then before[i].page == p else mine[i - |before|].page == p;
    }
  }

  lemma OwnStart(part: Part, titleOf: Part -> string, p: int)
    requires Orderly(part) && part.pageStart <= part.pageEnd
    ensures p < part.pageStart ==> !Starts(PartTops(part, titleOf), p)
    ensures Starts(PartTops(part, titleOf), part.pageStart) <==> Led(part)
    ensures PartTops(part, titleOf)[0].page >= part.pageStart
  {
    var tops := PartTops(part, titleOf);
    if Led(part) { assert tops[0].page == part.pageStart; }
  }

  lemma AllBefore(tops: seq<Top>, p: int)
    requires forall i :: 0 <= i < |tops| ==> tops[i].page < p
    ensures !Starts(tops, p)
  {
  }

  // A part's first page starts a chapter exactly when the part is led by one.
  lemma {:induction false} SeamStartsIff(parts: seq<Part>, n: int, k: nat, titleOf: Part -> string)
    requires Tiled(parts, n) && (forall i :: 0 <= i < |parts| ==> Orderly(parts[i])) && k < |parts|
    ensures Starts(PartsTops(parts, titleOf), parts[k].pageStart) <==> Led(parts[k])
    ensures parts[k].pageStart <= n
    ensures k > 0 ==> PartsTops(parts, titleOf) != [] && PartsTops(parts, titleOf)[0].page < parts[k].pageStart
  {
    hide Starts, Led, Rising, PartTops;
    var m := |parts| - 1;
    var rest, last, p := parts[..m], parts[m], parts[k].pageStart;
    var before, mine := PartsTops(rest, titleOf), PartTops(last, titleOf);
    assert PartsTops(parts, titleOf) == before + mine;
    hide PartsTops, Orderly;
    TopsInOrder(rest, last.pageStart - 1, titleOf);
    assert Orderly(last);
    StartsAppend(before, mine, p);
    OwnStart(last, titleOf, p);
    if k == m {
      if k > 0 { TopsSome(rest, titleOf); }
      AllBefore(before, p);
    } else {
      SeamStartsIff(rest, last.pageStart - 1, k, titleOf);
    }
  }

  lemma {:induction false} TopsSome(parts: seq<Part>, titleOf: Part -> string)
    requires parts != []
    ensures PartsTops(parts, titleOf) != []
  {
  }

  lemma {:induction false} TiledWithin(parts: seq<Part>, n: int, k: nat)
    requires Tiled(parts, n) && k < |parts|
    ensures parts[k].pageStart <= n
  {
    if k < |parts| - 1 { TiledWithin(parts[..|parts| - 1], parts[|parts| - 1].pageStart - 1, k); }
  }

  /** Whatever the outlines say, entries that go back or lie outside their file included: no chapter
      runs across two of the uploaded files exactly when the starts step over no file's first page. */
  lemma {:induction false} SeamsSteppedOverIff(parts: seq<Part>, n: int, titleOf: Part -> string)
    requires Tiled(parts, n) && |InBook(PartsTops(parts, titleOf), n)| >= 2
    ensures var tops := InBook(PartsTops(parts, titleOf), n);
      (forall c, k :: c in FromTops(tops, n) && 0 < k < |parts| ==> !Straddles(c, parts[k].pageStart))
      <==> (forall k :: 0 < k < |parts| ==> !SteppedOver(tops, parts[k].pageStart))
  {
    hide FromTops, Straddles, SteppedOver, InBook, PartsTops, Tiled;
    var tops := InBook(PartsTops(parts, titleOf), n);
    forall k | 0 < k < |parts|
      ensures (exists c :: c in FromTops(tops, n) && Straddles(c, parts[k].pageStart)) <==> SteppedOver(tops, parts[k].pageStart)
    {
      TiledWithin(parts, n, k);
      SeamStraddledIff(tops, n, parts[k].pageStart);
    }
  }

  /** Outlines that stay in their file and never go back: no chapter runs across two of the uploaded
      files exactly when every file after the first that brings its own outline has its first entry
      on its own first page. */
  lemma {:induction false} SeamsKeptIff(parts: seq<Part>, n: int, titleOf: Part -> string)
    requires Tiled(parts, n) && (forall k :: 0 <= k < |parts| ==> Orderly(parts[k]))
    requires |InBook(PartsTops(parts, titleOf), n)| >= 2
    ensures (forall c, k :: c in FromTops(InBook(PartsTops(parts, titleOf), n), n) && 0 < k < |parts| ==> !Straddles(c, parts[k].pageStart))
       <==> (forall k :: 0 < k < |parts| ==> Led(parts[k]))
  {
    hide FromTops, Straddles, Led, Starts, Tiled, SteppedOver;
    var tops := PartsTops(parts, titleOf);
    TopsInOrder(parts, n, titleOf);
    AllInBook(tops, n);
    SeamsSteppedOverIff(parts, n, titleOf);
    forall k | 0 < k < |parts| ensures SteppedOver(tops, parts[k].pageStart) <==> !Led(parts[k]) {
      SeamStartsIff(parts, n, k, titleOf);
      SteppedOverIff(tops, parts[k].pageStart);
    }
  }
}
