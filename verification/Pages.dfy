/** Books as numbered pages: the readers in `rag/parse.py` that make up their own pages, and
    the combining of an archive's members into one book. What each member's foreign reader
    reports is given; members come in reading order. */
module Pages {
  import opened Chunking
  import opened Text
  import opened Wrappers

  const PAGE_CHARS: nat := 3000

  // Pages 1 to n, in order.
  predicate Numbered(pages: seq<Page>) { forall k :: 0 <= k < |pages| ==> pages[k].number == k + 1 }

  // ----------------------------------------------------------------- plain text

  // `_parse_text`: a page at every multiple of PAGE_CHARS below the length, at least one.
  function TextPages(content: string): (r: seq<Page>) {
    var longest := if |content| == 0 then 1 else |content|;
    seq((longest + PAGE_CHARS - 1) / PAGE_CHARS, i requires 0 <= i < (longest + PAGE_CHARS - 1) / PAGE_CHARS =>
      Page(i + 1, content[i * PAGE_CHARS..if (i + 1) * PAGE_CHARS < |content| then (i + 1) * PAGE_CHARS else |content|]))
  }

  function AllText(pages: seq<Page>): string {
    if pages == [] then "" else AllText(pages[..|pages| - 1]) + pages[|pages| - 1].text
  }

  lemma {:induction false} TextUpTo(content: string, n: nat)
    requires n <= |TextPages(content)|
    ensures AllText(TextPages(content)[..n]) == content[..if n * PAGE_CHARS < |content| then n * PAGE_CHARS else |content|]
  {
    if n > 0 {
      TextUpTo(content, n - 1);
      assert TextPages(content)[..n][..n - 1] == TextPages(content)[..n - 1];
    }
  }

  /** A text file is cut into numbered pages that put back together are the file; an empty file
      is one empty page, so it still counts as a document. */
  lemma TextPagesRestore(content: string)
    ensures AllText(TextPages(content)) == content
    ensures Numbered(TextPages(content)) && TextPages(content) != []
    ensures forall k :: 0 <= k < |TextPages(content)| ==> |TextPages(content)[k].text| <= PAGE_CHARS
    ensures forall k :: 0 <= k < |TextPages(content)| - 1 ==> |TextPages(content)[k].text| == PAGE_CHARS
  {
    var pages := TextPages(content);
    TextUpTo(content, |pages|);
    assert pages[..|pages|] == pages;
  }

  // ----------------------------------------------------------------------- docx

  function Chars(paragraphs: seq<string>): nat {
    if paragraphs == [] then 0 else Chars(paragraphs[..|paragraphs| - 1]) + |paragraphs[|paragraphs| - 1]|
  }

  datatype Grouping = Grouping(full: seq<seq<string>>, buffer: seq<string>)

  function AddTo(g: Grouping, paragraph: string): Grouping {
    var buffer := g.buffer + [paragraph];
    if Chars(buffer) >= PAGE_CHARS then Grouping(g.full + [buffer], []) else Grouping(g.full, buffer)
  }

  function Group(paragraphs: seq<string>): Grouping {
    if paragraphs == [] then Grouping([], [])
    else AddTo(Group(paragraphs[..|paragraphs| - 1]), paragraphs[|paragraphs| - 1])
  }

  function Groups(paragraphs: seq<string>): seq<seq<string>> {
    var g := Group(paragraphs);
    if g.buffer == [] then g.full else g.full + [g.buffer]
  }

  function PagesOf(groups: seq<seq<string>>): seq<Page> {
    seq(|groups|, i requires 0 <= i < |groups| => Page(i + 1, Join(groups[i], "\n\n")))
  }

  // `_parse_docx`, over the paragraphs that are not blank
  method ParseDocx(paragraphs: seq<string>) returns (pages: seq<Page>)
    ensures pages == PagesOf(Groups(paragraphs))
  {
    hide Chars, Join;
    pages := [];
    var buffer: seq<string> := [];
    for n := 0 to |paragraphs|
      invariant buffer == Group(paragraphs[..n]).buffer && pages == PagesOf(Group(paragraphs[..n]).full)
    {
      assert paragraphs[..n + 1][..n] == paragraphs[..n];
      buffer := buffer + [paragraphs[n]];
      if Chars(buffer) >= PAGE_CHARS {
        pages := pages + [Page(|pages| + 1, Join(buffer, "\n\n"))];
        buffer := [];
      }
    }
    assert paragraphs[..|paragraphs|] == paragraphs;
    if buffer != [] {
      pages := pages + [Page(|pages| + 1, Join(buffer, "\n\n"))];
    }
  }

  function Flat(groups: seq<seq<string>>): seq<string> {
    if groups == [] then [] else Flat(groups[..|groups| - 1]) + groups[|groups| - 1]
  }

  // A page is closed by the very paragraph that fills it.
  predicate JustFull(group: seq<string>) {
    group != [] && Chars(group[..|group| - 1]) < PAGE_CHARS <= Chars(group)
  }

  lemma {:induction false} FlatAppend(groups: seq<seq<string>>, group: seq<string>)
    ensures Flat(groups + [group]) == Flat(groups) + group
  {
    assert (groups + [group])[..|groups|] == groups;
  }

  predicate Grouped(g: Grouping, paragraphs: seq<string>) {
    && Flat(g.full) + g.buffer == paragraphs
    && Chars(g.buffer) < PAGE_CHARS
    && forall k :: 0 <= k < |g.full| ==> JustFull(g.full[k])
  }

  lemma AddKeeps(g: Grouping, paragraphs: seq<string>, paragraph: string)
    requires Grouped(g, paragraphs)
    ensures Grouped(AddTo(g, paragraph), paragraphs + [paragraph])
  {
    hide Chars, Flat, JustFull;
    var buffer := g.buffer + [paragraph];
    if Chars(buffer) >= PAGE_CHARS {
      Closes(g.buffer, paragraph);
      FlatAppend(g.full, buffer);
      NoChars();
    }
  }

  lemma GroupedNone()
    ensures Group([]) == Grouping([], []) && Grouped(Group([]), [])
  {
    hide Join, JustFull;
  }

  lemma {:induction false} GroupNext(before: seq<string>, paragraph: string)
    ensures Group(before + [paragraph]) == AddTo(Group(before), paragraph)
  {
    hide AddTo;
    assert (before + [paragraph])[..|before|] == before;
  }

  lemma {:induction false} GroupKeeps(paragraphs: seq<string>)
    ensures Grouped(Group(paragraphs), paragraphs)
  {
    hide *;
    if paragraphs == [] {
      GroupedNone();
    } else {
      var rest, last := paragraphs[..|paragraphs| - 1], paragraphs[|paragraphs| - 1];
      GroupKeeps(rest);
      GroupNext(rest, last);
      AddKeeps(Group(rest), rest, last);
      assert rest + [last] == paragraphs;
    }
  }

  lemma {:induction false} Closes(buffer: seq<string>, paragraph: string)
    requires Chars(buffer) < PAGE_CHARS <= Chars(buffer + [paragraph])
    ensures JustFull(buffer + [paragraph])
  {
    assert (buffer + [paragraph])[..|buffer|] == buffer;
  }

  lemma NoChars()
    ensures Chars([]) == 0
  {
  }

  /** Made-up pages hold every paragraph once, in order; each page but the last is closed by the
      first paragraph that brings it to PAGE_CHARS. */
  lemma DocxPagesKeep(paragraphs: seq<string>)
    ensures var gs := Groups(paragraphs);
      && Flat(gs) == paragraphs && Numbered(PagesOf(gs))
      && (forall k :: 0 <= k < |gs| - 1 ==> JustFull(gs[k]))
      && (gs != [] ==> gs[|gs| - 1] != [])
      && |PagesOf(gs)| == |gs| && forall k :: 0 <= k < |gs| ==> PagesOf(gs)[k].text == Join(gs[k], "\n\n")
  {
    GroupKeeps(paragraphs);
    var g := Group(paragraphs);
    assert forall k :: 0 <= k < |g.full| ==> g.full[k] != [];
    hide Flat, Chars, JustFull, Join;
    FlatAppend(g.full, g.buffer);
    if g.buffer == [] { assert Flat(g.full) + g.buffer == Flat(g.full); }
  }

  // -------------------------------------------------------------------- archives

  datatype Format = Pdf | Docx | Pptx | Plain | Markdown | Archive

  datatype Top = Top(title: string, page: int)

  datatype Part = Part(title: string, pageStart: int, pageEnd: int, outline: seq<Top>)

  datatype Extent = Extent(count: nat, tops: seq<Top>)

  // One candidate member: the sizes of the blocks it unpacks to, the format its bytes show,
  // and what the readers make of it; None where a reader fails.
  datatype Member = Member(name: string, title: string, blocks: seq<nat>, format: Option<Format>, extent: Option<Extent>, text: Option<seq<Page>>)

  datatype Fault = TooBig | Unreadable(name: string) | NoDocuments

  datatype Scan = Scan(pages: seq<Page>, parts: seq<Part>, offset: nat, remaining: int)

  datatype Scanned = Found(scan: Scan) | Rejected(fault: Fault)

  function Size(blocks: seq<nat>): nat {
    if blocks == [] then 0 else Size(blocks[..|blocks| - 1]) + blocks[|blocks| - 1]
  }

  datatype Reading = Reading(count: nat, tops: seq<Top>, pages: seq<Page>)

  predicate IsDocument(m: Member) { m.format.Some? && m.format.value != Archive }

  // What one pass reads of a document: a PDF's text only when text is wanted.
  function Read(m: Member, withText: bool): Option<Reading> {
    if m.format == Some(Pdf) then
      if m.extent.None? || (withText && m.text.None?) then None
      else Some(Reading(m.extent.value.count, m.extent.value.tops, if withText then m.text.value else []))
    else if m.text.None? then None
    else Some(Reading(|m.text.value|, [], m.text.value))
  }

  function Shifted(pages: seq<Page>, offset: nat): seq<Page> {
    seq(|pages|, i requires 0 <= i < |pages| => Page(offset + pages[i].number, pages[i].text))
  }

  function ShiftedTops(tops: seq<Top>, offset: nat): seq<Top> {
    seq(|tops|, i requires 0 <= i < |tops| => Top(tops[i].title, offset + tops[i].page))
  }

  function Include(s: Scan, m: Member, r: Reading, withText: bool): Scan {
    if r.count == 0 then s
    else Scan(if withText then s.pages + Shifted(r.pages, s.offset) else s.pages,
              s.parts + [Part(m.title, s.offset + 1, s.offset + r.count, ShiftedTops(r.tops, s.offset))],
              s.offset + r.count, s.remaining)
  }

  function ScanOne(s: Scan, m: Member, withText: bool): Scanned {
    var left := s.(remaining := s.remaining - Size(m.blocks));
    if left.remaining < 0 then Rejected(TooBig)
    else if !IsDocument(m) then Found(left)
    else if Read(m, withText).None? then Rejected(Unreadable(m.name))
    else Found(Include(left, m, Read(m, withText).value, withText))
  }

  function ScanAll(members: seq<Member>, withText: bool, cap: nat): Scanned {
    if members == [] then Found(Scan([], [], 0, cap))
    else
      var before := ScanAll(members[..|members| - 1], withText, cap);
      if before.Rejected? then before else ScanOne(before.scan, members[|members| - 1], withText)
  }

  function Book(members: seq<Member>, withText: bool, cap: nat): Scanned {
    var all := ScanAll(members, withText, cap);
    if all.Found? && all.scan.parts == [] then Rejected(NoDocuments) else all
  }

  // `_scan_zip`, from the walk over the members on
  method ScanZip(members: seq<Member>, withText: bool, cap: nat) returns (r: Scanned, held: nat)
    ensures r == Book(members, withText, cap)
    ensures held <= cap
  {
    hide Read, Size;
    var pages: seq<Page> := [];
    var parts: seq<Part> := [];
    var offset: nat, remaining := 0, cap;
    held := 0;
    for n := 0 to |members|
      invariant ScanAll(members[..n], withText, cap) == Found(Scan(pages, parts, offset, remaining))
      invariant remaining >= 0 && held == cap - remaining
    {
      PassedOn(members, n, withText, cap);
      var m := members[n];
      var over;
      over, remaining, held := Unpack(m.blocks, cap, remaining, held);
      if over { return Rejected(TooBig), held; }
      if !IsDocument(m) { continue; }
      var read := Read(m, withText);
      if read.None? { return Rejected(Unreadable(m.name)), held; }
      if read.value.count == 0 { continue; }
      if withText {
        pages := pages + Shifted(read.value.pages, offset);
      }
      parts := parts + [Part(m.title, offset + 1, offset + read.value.count, ShiftedTops(read.value.tops, offset))];
      offset := offset + read.value.count;
    }
    assert members[..|members|] == members;
    r := if parts == [] then Rejected(NoDocuments) else Found(Scan(pages, parts, offset, remaining));
  }

  // Reads one member a block at a time, giving up at the first block past the cap.
  method Unpack(blocks: seq<nat>, cap: nat, room: int, heldBefore: nat) returns (over: bool, remaining: int, held: nat)
    requires 0 <= room && heldBefore == cap - room
    ensures over <==> room < Size(blocks)
    ensures held <= cap && (!over ==> remaining == room - Size(blocks) && held == cap - remaining)
  {
    remaining, held, over := room, heldBefore, false;
    for k := 0 to |blocks|
      invariant 0 <= remaining == room - Size(blocks[..k]) && held == cap - remaining && !over
    {
      assert blocks[..k + 1][..k] == blocks[..k];
      remaining := remaining - blocks[k];
      if remaining < 0 {
        SizeGrows(blocks, k + 1);
        return true, remaining, held;
      }
      held := held + blocks[k];
    }
    assert blocks[..|blocks|] == blocks;
  }

  lemma {:induction false} SizeGrows(blocks: seq<nat>, k: nat)
    requires k <= |blocks|
    ensures Size(blocks[..k]) <= Size(blocks)
    decreases |blocks| - k
  {
    if k < |blocks| {
      SizeGrows(blocks, k + 1);
      assert blocks[..k + 1][..k] == blocks[..k];
    } else {
      assert blocks[..k] == blocks;
    }
  }

  // One member on: the walk goes through it, and if it stops there, it stops.
  lemma {:induction false} PassedOn(members: seq<Member>, n: nat, withText: bool, cap: nat)
    requires n < |members| && ScanAll(members[..n], withText, cap).Found?
    ensures var s := ScanAll(members[..n], withText, cap).scan;
      ScanAll(members[..n + 1], withText, cap) == ScanOne(s, members[n], withText)
    ensures ScanAll(members[..n + 1], withText, cap).Rejected? ==> ScanAll(members, withText, cap) == ScanAll(members[..n + 1], withText, cap)
  {
    assert members[..n + 1][..n] == members[..n];
    if ScanAll(members[..n + 1], withText, cap).Rejected? { StaysRefused(members, n + 1, withText, cap); }
  }

  lemma {:induction false} StaysRefused(members: seq<Member>, n: nat, withText: bool, cap: nat)
    requires n <= |members| && ScanAll(members[..n], withText, cap).Rejected?
    ensures ScanAll(members, withText, cap) == ScanAll(members[..n], withText, cap)
    decreases |members| - n
  {
    if n < |members| {
      assert members[..n + 1][..n] == members[..n];
      StaysRefused(members, n + 1, withText, cap);
    } else {
      assert members[..n] == members;
    }
  }
}
