/** Packing a chapter's paragraphs into chunks: `chunk_pages` and its helpers in
    `rag/chunk.py`. Which characters are letters is a parameter. */
module Chunking {
  import opened Text

  datatype Page = Page(number: int, text: string)

  datatype Chapter = Chapter(index: nat, title: string, pageStart: int, pageEnd: int)

  datatype Chunk = Chunk(index: nat, chapter: nat, page: int, text: string, tokens: nat)

  // A paragraph and the page it is on.
  datatype Unit = Unit(page: int, text: string)

  const MIN_CHARS: nat := 20

  // `chunk_token_budget`: four fifths of what the embedder reads, at most.
  function TokenBudget(chunkTokens: int, embeddingMax: nat): (b: nat)
    ensures b >= 1
    ensures b == 1 || (b <= chunkTokens && b * 5 <= embeddingMax * 4)
    ensures b >= chunkTokens || b * 5 + 5 > embeddingMax * 4
  {
    var ceiling := embeddingMax * 4 / 5;
    var least := if chunkTokens < ceiling then chunkTokens else ceiling;
    if least < 1 then 1 else least
  }

  // What is carried over at most: a third of the budget.
  function Overlap(overlapTokens: nat, maxTokens: nat): (r: nat)
    ensures r <= overlapTokens && 3 * r <= maxTokens && (r == overlapTokens || 3 * r + 3 > maxTokens)
  {
    if overlapTokens < maxTokens / 3 then overlapTokens else maxTokens / 3
  }

  // ---------------------------------------------------------------- paragraphs

  // Just past the last newline before j, or i when there is none.
  function PastLastNewline(s: string, i: nat, j: nat): (e: nat)
    requires i <= j <= |s|
    ensures i <= e <= j
    decreases j
  {
    if i < j then if s[j - 1] == '\n' then j else PastLastNewline(s, i, j - 1) else i
  }

  // Splitting on a newline, white space and a newline, each break as long as it can be.
  function SplitFrom(s: string, start: nat, i: nat): seq<string>
    requires start <= i <= |s|
    decreases |s| - i
  {
    if i == |s| then [s[start..]]
    else if s[i] == '\n' && PastLastNewline(s, i + 1, SkipBlanks(s, i + 1)) > i + 1 then
      var e := PastLastNewline(s, i + 1, SkipBlanks(s, i + 1));
      [s[start..i]] + SplitFrom(s, e, e)
    else SplitFrom(s, start, i + 1)
  }

  function Paragraphs(s: string): seq<string> { SplitFrom(s, 0, 0) }

  // What is printed: everything but the white space.
  function Ink(s: string): string {
    if s == [] then [] else (if IsBlank(s[0]) then [] else [s[0]]) + Ink(s[1..])
  }

  function InkOf(parts: seq<string>): string {
    if parts == [] then [] else Ink(parts[0]) + InkOf(parts[1..])
  }

  lemma {:induction false} InkJoin(a: string, b: string)
    ensures Ink(a + b) == Ink(a) + Ink(b)
  {
    if a == [] {
      assert a + b == b;
    } else {
      assert (a + b)[1..] == a[1..] + b;
      InkJoin(a[1..], b);
    }
  }

  lemma {:induction false} InkOfBlank(s: string)
    requires forall k :: 0 <= k < |s| ==> IsBlank(s[k])
    ensures Ink(s) == []
  {
    if s != [] { InkOfBlank(s[1..]); }
  }

  lemma {:induction false} BreakHasNoInk(s: string, i: nat)
    requires i < |s| && s[i] == '\n'
    ensures Ink(s[i..PastLastNewline(s, i + 1, SkipBlanks(s, i + 1))]) == []
  {
    hide Ink, PastLastNewline, SkipBlanks;
    var e := PastLastNewline(s, i + 1, SkipBlanks(s, i + 1));
    assert forall k :: i < k < e ==> IsBlank(s[k]);
    InkOfBlank(s[i..e]);
  }

  lemma {:induction false} SplitKeepsInk(s: string, start: nat, i: nat)
    requires start <= i <= |s|
    ensures InkOf(SplitFrom(s, start, i)) == Ink(s[start..])
    decreases |s| - i
  {
    hide Ink, PastLastNewline, SkipBlanks;
    if i < |s| {
      var e := PastLastNewline(s, i + 1, SkipBlanks(s, i + 1));
      if s[i] == '\n' && e > i + 1 {
        SplitKeepsInk(s, e, e);
        assert s[start..] == s[start..i] + (s[i..e] + s[e..]);
        InkJoin(s[start..i], s[i..e] + s[e..]);
        InkJoin(s[i..e], s[e..]);
        BreakHasNoInk(s, i);
        assert SplitFrom(s, start, i)[1..] == SplitFrom(s, e, e);
      } else {
        SplitKeepsInk(s, start, i + 1);
      }
    } else {
      assert SplitFrom(s, start, i)[1..] == [];
    }
  }

  lemma {:induction false} LStripKeepsInk(s: string)
    ensures Ink(LStrip(s)) == Ink(s)
  {
    if s != [] && IsBlank(s[0]) { LStripKeepsInk(s[1..]); }
  }

  lemma {:induction false} StripKeepsInk(s: string)
    ensures Ink(Strip(s)) == Ink(s)
  {
    var t := LStrip(s);
    LStripKeepsInk(s);
    var r := RStrip(t);
    assert t == r + t[|r|..];
    InkJoin(r, t[|r|..]);
    InkOfBlank(t[|r|..]);
  }

  /** Paragraphing loses nothing but white space. */
  lemma {:induction false} ParagraphsKeepInk(s: string)
    ensures InkOf(Paragraphs(s)) == Ink(s)
  {
    SplitKeepsInk(s, 0, 0);
    assert s[0..] == s;
  }

  function Letters(s: string, alpha: char -> bool): nat {
    if s == [] then 0 else (if alpha(s[0]) then 1 else 0) + Letters(s[1..], alpha)
  }

  predicate WorthKeeping(s: string, alpha: char -> bool) {
    |s| >= MIN_CHARS && 2 * Letters(s, alpha) >= |s|
  }

  // The paragraphs of a page that are kept, in order.
  function KeptOf(page: int, parts: seq<string>, alpha: char -> bool): (r: seq<Unit>)
    ensures forall k :: 0 <= k < |r| ==> r[k].page == page && |r[k].text| >= MIN_CHARS
  {
    if parts == [] then []
    else
      var last := |parts| - 1;
      var cleaned := Strip(parts[last]);
      KeptOf(page, parts[..last], alpha) + (if WorthKeeping(cleaned, alpha) then [Unit(page, cleaned)] else [])
  }

  function TextsOf(units: seq<Unit>): seq<string> {
    seq(|units|, k requires 0 <= k < |units| => units[k].text)
  }

  // Every paragraph that is not kept is blank.
  predicate DropsBlanksOnly(parts: seq<string>, alpha: char -> bool) {
    forall k :: 0 <= k < |parts| ==> WorthKeeping(Strip(parts[k]), alpha) || Strip(parts[k]) == ""
  }

  lemma {:induction false} InkOfAppend(parts: seq<string>, more: seq<string>)
    ensures InkOf(parts + more) == InkOf(parts) + InkOf(more)
  {
    if parts == [] {
      assert parts + more == more;
    } else {
      assert (parts + more)[1..] == parts[1..] + more;
      InkOfAppend(parts[1..], more);
    }
  }

  lemma {:induction false} InkOfOne(part: string)
    ensures InkOf([part]) == Ink(part)
  {
    assert [part][1..] == [];
  }

  lemma DropsNone(alpha: char -> bool)
    ensures DropsBlanksOnly([], alpha)
  {
  }

  lemma DropsNext(rest: seq<string>, last: string, alpha: char -> bool)
    ensures DropsBlanksOnly(rest + [last], alpha)
       <==> DropsBlanksOnly(rest, alpha) && (WorthKeeping(Strip(last), alpha) || Strip(last) == "")
  {
    hide Strip, WorthKeeping;
    var parts := rest + [last];
    assert parts[|rest|] == last && forall k :: 0 <= k < |rest| ==> parts[k] == rest[k];
  }

  lemma {:induction false} KeptInk(page: int, parts: seq<string>, alpha: char -> bool)
    ensures var kept := InkOf(TextsOf(KeptOf(page, parts, alpha)));
      if DropsBlanksOnly(parts, alpha) then kept == InkOf(parts) else |kept| < |InkOf(parts)|
  {
    hide Ink, InkOf, Strip, WorthKeeping, DropsBlanksOnly;
    if parts != [] {
      var rest, last := parts[..|parts| - 1], parts[|parts| - 1];
      var before, cleaned := KeptOf(page, rest, alpha), Strip(last);
      KeptInk(page, rest, alpha);
      InkOfAppend(rest, [last]);
      InkOfOne(last);
      StripKeepsInk(last);
      InkOfOne(cleaned);
      NoInkIff(cleaned);
      assert parts == rest + [last];
      InkOfAppend(TextsOf(before), [cleaned]);
      assert WorthKeeping(cleaned, alpha) ==> TextsOf(before + [Unit(page, cleaned)]) == TextsOf(before) + [cleaned];
      assert before + [] == before;
      DropsNext(rest, last, alpha);
    } else {
      DropsNone(alpha);
      assert TextsOf(KeptOf(page, parts, alpha)) == parts;
    }
  }

  lemma {:induction false} NoInkIff(s: string)
    requires s != [] ==> !IsBlank(s[0])
    ensures Ink(s) == [] <==> s == []
  {
  }

  /** What is kept of a page prints all that the page prints exactly when every paragraph left
      out is blank. */
  lemma {:induction false} PageKeptWholeIff(page: int, text: string, alpha: char -> bool)
    ensures InkOf(TextsOf(KeptOf(page, Paragraphs(text), alpha))) == Ink(text) <==> DropsBlanksOnly(Paragraphs(text), alpha)
  {
    hide *;
    ParagraphsKeepInk(text);
    KeptInk(page, Paragraphs(text), alpha);
  }

  function PageText(byPage: map<int, string>, number: int): string {
    if number in byPage then byPage[number] else ""
  }

  // The units of the pages from `from` to just before `until`.
  function UnitsOf(byPage: map<int, string>, from: int, until: int, alpha: char -> bool): (r: seq<Unit>)
    ensures forall k :: 0 <= k < |r| ==> from <= r[k].page < until && |r[k].text| >= MIN_CHARS
    decreases until - from
  {
    if from >= until then []
    else UnitsOf(byPage, from, until - 1, alpha) + KeptOf(until - 1, Paragraphs(PageText(byPage, until - 1)), alpha)
  }

  function ByPage(pages: seq<Page>): map<int, string> {
    if pages == [] then map[] else ByPage(pages[..|pages| - 1])[pages[|pages| - 1].number := pages[|pages| - 1].text]
  }

  // ------------------------------------------------------------------- packing

  // What is emitted: a buffer whose first `carried` paragraphs were carried over from the
  // one before, or the pieces of a paragraph too large to pack.
  datatype Draft = Packed(carried: nat, units: seq<Unit>) | Pieces(unit: Unit, pieces: seq<string>)

  datatype Packing = Packing(drafts: seq<Draft>, buffer: seq<Unit>, carried: nat)

  function Tokens(units: seq<Unit>): nat {
    if units == [] then 0 else Tokens(units[..|units| - 1]) + Estimate(units[|units| - 1].text)
  }

  // How many trailing paragraphs fit in the room for overlap.
  function TailCount(buffer: seq<Unit>, room: nat): (k: nat)
    ensures k <= |buffer|
  {
    if buffer == [] || Estimate(buffer[|buffer| - 1].text) > room then 0
    else 1 + TailCount(buffer[..|buffer| - 1], room - Estimate(buffer[|buffer| - 1].text))
  }

  // `_split_oversized`
  function Split(text: string, limit: nat): (r: seq<string>)
    requires limit > 0
    decreases |text|
  {
    if text == [] then [] else if |text| <= limit then [text] else [text[..limit]] + Split(text[limit..], limit)
  }

  function Flushed(p: Packing): seq<Draft> {
    if p.buffer == [] then p.drafts else p.drafts + [Packed(p.carried, p.buffer)]
  }

  function Add(p: Packing, u: Unit, maxTokens: nat, overlap: nat): Packing
    requires maxTokens > 0
  {
    if Estimate(u.text) > maxTokens then
      Packing(Flushed(p) + [Pieces(u, Split(u.text, maxTokens * CHARS_PER_TOKEN))], [], 0)
    else if p.buffer != [] && Tokens(p.buffer) + Estimate(u.text) > maxTokens then
      var k := TailCount(p.buffer, overlap);
      Packing(Flushed(p), p.buffer[|p.buffer| - k..] + [u], k)
    else Packing(p.drafts, p.buffer + [u], p.carried)
  }

  function Pack(units: seq<Unit>, maxTokens: nat, overlap: nat): Packing
    requires maxTokens > 0
  {
    if units == [] then Packing([], [], 0)
    else Add(Pack(units[..|units| - 1], maxTokens, overlap), units[|units| - 1], maxTokens, overlap)
  }

  function DraftsOf(units: seq<Unit>, maxTokens: nat, overlap: nat): seq<Draft>
    requires maxTokens > 0
  {
    Flushed(Pack(units, maxTokens, overlap))
  }

  // ------------------------------------------------------------------ rendering

  function Joined(units: seq<Unit>): string {
    if units == [] then ""
    else if |units| == 1 then units[0].text
    else Joined(units[..|units| - 1]) + "\n\n" + units[|units| - 1].text
  }

  function Made(index: nat, chapter: nat, page: int, text: string): Chunk {
    Chunk(index, chapter, page, text, Estimate(text))
  }

  function RenderOne(d: Draft, chapter: nat, from: nat): seq<Chunk> {
    match d
    case Packed(_, units) => if units == [] then [] else [Made(from, chapter, units[0].page, Joined(units))]
    case Pieces(u, pieces) => seq(|pieces|, k requires 0 <= k < |pieces| => Made(from + k, chapter, u.page, pieces[k]))
  }

  function Render(drafts: seq<Draft>, chapter: nat, from: nat): seq<Chunk> {
    if drafts == [] then []
    else
      var before := Render(drafts[..|drafts| - 1], chapter, from);
      before + RenderOne(drafts[|drafts| - 1], chapter, from + |before|)
  }

  function ChunksOf(chapters: seq<Chapter>, byPage: map<int, string>, maxTokens: nat, overlap: nat, alpha: char -> bool): seq<Chunk>
    requires maxTokens > 0
  {
    if chapters == [] then []
    else
      var chapter := chapters[|chapters| - 1];
      var before := ChunksOf(chapters[..|chapters| - 1], byPage, maxTokens, overlap, alpha);
      before + Render(DraftsOf(UnitsOf(byPage, chapter.pageStart, chapter.pageEnd + 1, alpha), maxTokens, overlap), chapter.index, |before|)
  }

  // ------------------------------------------------------------------ the loops

  method CarryTail(buffer: seq<Unit>, overlap: nat) returns (carried: seq<Unit>, carriedTokens: nat)
    ensures carried == buffer[|buffer| - TailCount(buffer, overlap)..] && carriedTokens == Tokens(carried)
  {
    hide Estimate;
    carried, carriedTokens := [], 0;
    var i := |buffer|;
    assert buffer[..i] == buffer;
    while i > 0
      invariant 0 <= i <= |buffer| && carried == buffer[i..]
      invariant carriedTokens == Tokens(carried) <= overlap
      invariant TailCount(buffer, overlap) == |carried| + TailCount(buffer[..i], overlap - carriedTokens)
    {
      var unit := buffer[i - 1];
      assert buffer[..i][..i - 1] == buffer[..i - 1];
      if carriedTokens + Estimate(unit.text) > overlap {
        return;
      }
      TokensPrepend(unit, carried);
      carried, carriedTokens := [unit] + carried, carriedTokens + Estimate(unit.text);
      i := i - 1;
    }
  }

  lemma {:induction false} TokensPrepend(u: Unit, units: seq<Unit>)
    ensures Tokens([u] + units) == Estimate(u.text) + Tokens(units)
  {
    if units == [] {
      assert [u] + units == [u];
    } else {
      assert ([u] + units)[..|units|] == [u] + units[..|units| - 1];
      TokensPrepend(u, units[..|units| - 1]);
    }
  }

  lemma {:induction false} TokensAppend(units: seq<Unit>, u: Unit)
    ensures Tokens(units + [u]) == Tokens(units) + Estimate(u.text)
  {
    assert (units + [u])[..|units|] == units;
  }

  lemma {:induction false} PackNone(maxTokens: nat, overlap: nat)
    requires maxTokens > 0
    ensures Pack([], maxTokens, overlap) == Packing([], [], 0) && Tokens([]) == 0
  {
  }

  lemma {:induction false} PackNext(units: seq<Unit>, n: nat, maxTokens: nat, overlap: nat)
    requires maxTokens > 0 && n < |units|
    ensures Pack(units[..n + 1], maxTokens, overlap) == Add(Pack(units[..n], maxTokens, overlap), units[n], maxTokens, overlap)
  {
    assert units[..n + 1][..n] == units[..n];
  }

  lemma {:induction false} RenderAppend(drafts: seq<Draft>, d: Draft, chapter: nat, from: nat)
    ensures Render(drafts + [d], chapter, from)
         == Render(drafts, chapter, from) + RenderOne(d, chapter, from + |Render(drafts, chapter, from)|)
  {
    hide RenderOne;
    assert (drafts + [d])[..|drafts|] == drafts;
  }

  method ChunkPages(pages: seq<Page>, chapters: seq<Chapter>, maxTokens: nat, overlap: nat, alpha: char -> bool)
    returns (chunks: seq<Chunk>)
    requires maxTokens > 0
    ensures chunks == ChunksOf(chapters, ByPage(pages), maxTokens, overlap, alpha)
  {
    var byPage := ByPage(pages);
    chunks := [];
    for c := 0 to |chapters|
      invariant chunks == ChunksOf(chapters[..c], byPage, maxTokens, overlap, alpha)
    {
      assert chapters[..c + 1][..c] == chapters[..c];
      var units := CollectUnits(chapters[c], byPage, alpha);
      chunks := PackChapter(chapters[c], units, chunks, maxTokens, overlap);
    }
    assert chapters[..|chapters|] == chapters;
  }

  method CollectUnits(chapter: Chapter, byPage: map<int, string>, alpha: char -> bool) returns (units: seq<Unit>)
    ensures units == UnitsOf(byPage, chapter.pageStart, chapter.pageEnd + 1, alpha)
  {
    hide Paragraphs, PageText, KeptOf;
    units := [];
    var number := chapter.pageStart;
    while number <= chapter.pageEnd
      invariant number <= chapter.pageStart || number <= chapter.pageEnd + 1
      invariant units == UnitsOf(byPage, chapter.pageStart, number, alpha)
    {
      units := KeepParagraphs(units, number, PageText(byPage, number), alpha);
      number := number + 1;
    }
  }

  lemma {:induction false} KeptNone(page: int, alpha: char -> bool)
    ensures KeptOf(page, [], alpha) == []
  {
  }

  lemma {:induction false} KeptNext(page: int, parts: seq<string>, k: nat, alpha: char -> bool)
    requires k < |parts|
    ensures KeptOf(page, parts[..k + 1], alpha)
         == KeptOf(page, parts[..k], alpha) + if WorthKeeping(Strip(parts[k]), alpha) then [Unit(page, Strip(parts[k]))] else []
  {
    hide Strip, WorthKeeping;
    assert parts[..k + 1][..k] == parts[..k];
  }

  method KeepParagraphs(before: seq<Unit>, number: int, text: string, alpha: char -> bool) returns (units: seq<Unit>)
    ensures units == before + KeptOf(number, Paragraphs(text), alpha)
  {
    hide Paragraphs, Strip, WorthKeeping, KeptOf;
    var parts := Paragraphs(text);
    units := before;
    KeptNone(number, alpha);
    for k := 0 to |parts|
      invariant units == before + KeptOf(number, parts[..k], alpha)
    {
      KeptNext(number, parts, k, alpha);
      var cleaned := Strip(parts[k]);
      if WorthKeeping(cleaned, alpha) {
        units := units + [Unit(number, cleaned)];
      }
    }
    assert parts[..|parts|] == parts;
  }

  method EmitBuffer(before: seq<Chunk>, chapter: nat, buffer: seq<Unit>, ghost from: nat, ghost drafts: seq<Draft>, ghost carried: nat)
    returns (chunks: seq<Chunk>)
    requires |before| == from + |Render(drafts, chapter, from)| && before[from..] == Render(drafts, chapter, from)
    ensures buffer == [] ==> chunks == before
    ensures buffer != [] ==> chunks == before[..from] + Render(drafts + [Packed(carried, buffer)], chapter, from)
  {
    hide Estimate, Joined, Render;
    chunks := before;
    if buffer != [] {
      RenderAppend(drafts, Packed(carried, buffer), chapter, from);
      chunks := chunks + [Made(|chunks|, chapter, buffer[0].page, Joined(buffer))];
    }
  }

  method PackChapter(chapter: Chapter, units: seq<Unit>, before: seq<Chunk>, maxTokens: nat, overlap: nat) returns (chunks: seq<Chunk>)
    requires maxTokens > 0
    ensures chunks == before + Render(DraftsOf(units, maxTokens, overlap), chapter.index, |before|)
  {
    hide Render, RenderOne, Estimate, Joined, Split, TailCount, Made, Tokens, Pack;
    chunks := before;
    var buffer: seq<Unit> := [];
    var tokens := 0;
    ghost var p := Packing([], [], 0);
    RenderNone(chapter.index, |before|);
    PackNone(maxTokens, overlap);
    for n := 0 to |units|
      invariant p == Pack(units[..n], maxTokens, overlap)
      invariant buffer == p.buffer && tokens == Tokens(buffer)
      invariant chunks == before + Render(p.drafts, chapter.index, |before|)
    {
      PackNext(units, n, maxTokens, overlap);
      var unit := units[n];
      if Estimate(unit.text) > maxTokens {
        chunks := EmitBuffer(chunks, chapter.index, buffer, |before|, p.drafts, p.carried);
        RenderAppend(Flushed(p), Pieces(unit, Split(unit.text, maxTokens * CHARS_PER_TOKEN)), chapter.index, |before|);
        chunks := EmitPieces(chunks, chapter.index, unit, maxTokens);
        buffer, tokens := [], 0;
      } else {
        if buffer != [] && tokens + Estimate(unit.text) > maxTokens {
          chunks := EmitBuffer(chunks, chapter.index, buffer, |before|, p.drafts, p.carried);
          buffer, tokens := CarryTail(buffer, overlap);
        }
        TokensAppend(buffer, unit);
        buffer, tokens := buffer + [unit], tokens + Estimate(unit.text);
      }
      p := Add(p, unit, maxTokens, overlap);
    }
    assert units[..|units|] == units;
    chunks := EmitBuffer(chunks, chapter.index, buffer, |before|, p.drafts, p.carried);
  }

  lemma {:induction false} RenderNone(chapter: nat, from: nat)
    ensures Render([], chapter, from) == []
  {
  }

  method EmitPieces(before: seq<Chunk>, chapter: nat, unit: Unit, maxTokens: nat) returns (chunks: seq<Chunk>)
    requires maxTokens > 0
    ensures chunks == before + RenderOne(Pieces(unit, Split(unit.text, maxTokens * CHARS_PER_TOKEN)), chapter, |before|)
  {
    var pieces := Split(unit.text, maxTokens * CHARS_PER_TOKEN);
    chunks := before;
    for k := 0 to |pieces|
      invariant chunks == before + RenderOne(Pieces(unit, pieces), chapter, |before|)[..k]
    {
      chunks := chunks + [Made(|chunks|, chapter, unit.page, pieces[k])];
    }
  }
}
