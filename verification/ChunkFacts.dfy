/** What the packing of a chapter keeps and how large its chunks can be. */
module ChunkFacts {
  import opened Chunking
  import opened Text

  // --------------------------------------------------------------- conservation

  // The paragraphs a draft holds beyond those it carried over.
  function Own(d: Draft): seq<Unit> {
    match d
    case Packed(carried, units) => if carried <= |units| then units[carried..] else []
    case Pieces(u, _) => [u]
  }

  function Stripped(drafts: seq<Draft>): seq<Unit> {
    if drafts == [] then [] else Stripped(drafts[..|drafts| - 1]) + Own(drafts[|drafts| - 1])
  }

  lemma {:induction false} StrippedAppend(drafts: seq<Draft>, d: Draft)
    ensures Stripped(drafts + [d]) == Stripped(drafts) + Own(d)
  {
    assert (drafts + [d])[..|drafts|] == drafts;
  }

  // A paragraph too large to pack is cut up alone.
  predicate Cut(d: Draft, maxTokens: nat)
    requires maxTokens > 0
  {
    d.Pieces? ==> Estimate(d.unit.text) > maxTokens && d.pieces == Split(d.unit.text, maxTokens * CHARS_PER_TOKEN)
  }

  // A packed buffer opens with what fits of the overlap, and holds something new.
  predicate Bounded(carried: nat, units: seq<Unit>, maxTokens: nat, overlap: nat) {
    && carried < |units|
    && Tokens(units[..carried]) <= overlap
    && Tokens(units) <= maxTokens + overlap
    && (carried == 0 ==> Tokens(units) <= maxTokens)
  }

  // Consecutive buffers: the first was closed because the next paragraph did not fit, and as
  // many of its last paragraphs as fit the overlap were carried into the second.
  predicate Follows(prev: Draft, carried: nat, units: seq<Unit>, maxTokens: nat, overlap: nat) {
    if prev.Pieces? then carried == 0
    else
      && carried == TailCount(prev.units, overlap) && carried < |units|
      && units[..carried] == prev.units[|prev.units| - carried..]
      && Tokens(prev.units) + Estimate(units[carried].text) > maxTokens
  }

  predicate FollowsAll(drafts: seq<Draft>, carried: nat, units: seq<Unit>, maxTokens: nat, overlap: nat) {
    if drafts == [] then carried == 0 else Follows(drafts[|drafts| - 1], carried, units, maxTokens, overlap)
  }

  predicate SoundAt(drafts: seq<Draft>, k: nat, maxTokens: nat, overlap: nat)
    requires maxTokens > 0 && k < |drafts|
  {
    match drafts[k]
    case Packed(carried, units) => Bounded(carried, units, maxTokens, overlap) && FollowsAll(drafts[..k], carried, units, maxTokens, overlap)
    case Pieces(_, _) => Cut(drafts[k], maxTokens)
  }

  predicate Sound(drafts: seq<Draft>, maxTokens: nat, overlap: nat)
    requires maxTokens > 0
  {
    forall k :: 0 <= k < |drafts| ==> SoundAt(drafts, k, maxTokens, overlap)
  }

  lemma SoundAppend(drafts: seq<Draft>, d: Draft, maxTokens: nat, overlap: nat)
    requires maxTokens > 0 && Sound(drafts, maxTokens, overlap)
    requires SoundAt(drafts + [d], |drafts|, maxTokens, overlap)
    ensures Sound(drafts + [d], maxTokens, overlap)
  {
    hide Bounded, FollowsAll, Cut;
    forall k | 0 <= k < |drafts| + 1 ensures SoundAt(drafts + [d], k, maxTokens, overlap) {
      if k < |drafts| {
        assert (drafts + [d])[..k] == drafts[..k];
        assert SoundAt(drafts, k, maxTokens, overlap);
      }
    }
  }

  // What packing keeps between paragraphs.
  predicate Packs(p: Packing, units: seq<Unit>, maxTokens: nat, overlap: nat)
    requires maxTokens > 0
  {
    && Sound(p.drafts, maxTokens, overlap)
    && p.carried <= |p.buffer|
    && Stripped(p.drafts) + p.buffer[p.carried..] == units
    && if p.buffer == [] then p.drafts == [] || p.drafts[|p.drafts| - 1].Pieces?
       else Bounded(p.carried, p.buffer, maxTokens, overlap) && FollowsAll(p.drafts, p.carried, p.buffer, maxTokens, overlap)
  }

  lemma FlushKeeps(p: Packing, units: seq<Unit>, maxTokens: nat, overlap: nat)
    requires maxTokens > 0 && Packs(p, units, maxTokens, overlap)
    ensures Sound(Flushed(p), maxTokens, overlap) && Stripped(Flushed(p)) == units
  {
    hide Bounded, FollowsAll, Stripped;
    if p.buffer != [] {
      var d := Packed(p.carried, p.buffer);
      assert (p.drafts + [d])[..|p.drafts|] == p.drafts;
      SoundAppend(p.drafts, d, maxTokens, overlap);
      StrippedAppend(p.drafts, d);
    }
  }

  lemma {:induction false} TailFits(buffer: seq<Unit>, room: nat)
    ensures Tokens(buffer[|buffer| - TailCount(buffer, room)..]) <= room
  {
    if buffer != [] && Estimate(buffer[|buffer| - 1].text) <= room {
      var rest := buffer[..|buffer| - 1];
      var left := room - Estimate(buffer[|buffer| - 1].text);
      TailFits(rest, left);
      assert buffer[|buffer| - TailCount(buffer, room)..] == rest[|rest| - TailCount(rest, left)..] + [buffer[|buffer| - 1]];
      TokensAppend(rest[|rest| - TailCount(rest, left)..], buffer[|buffer| - 1]);
    }
  }

  // One paragraph more would not fit the room.
  lemma {:induction false} TailIsMost(buffer: seq<Unit>, room: nat)
    ensures var k := TailCount(buffer, room); k < |buffer| ==> Tokens(buffer[|buffer| - k - 1..]) > room
  {
    hide Tokens, Estimate;
    if buffer != [] {
      var n := |buffer| - 1;
      var last, rest := buffer[n], buffer[..n];
      if Estimate(last.text) <= room {
        var k := TailCount(rest, room - Estimate(last.text));
        TailIsMost(rest, room - Estimate(last.text));
        if k < n {
          assert buffer[n - k - 1..] == rest[n - k - 1..] + [last];
          TokensAppend(rest[n - k - 1..], last);
        }
      } else {
        assert buffer[n..] == [] + [last];
        TokensAppend([], last);
      }
    }
  }

  lemma CarryKeeps(p: Packing, u: Unit, units: seq<Unit>, maxTokens: nat, overlap: nat)
    requires maxTokens > 0 && Packs(p, units, maxTokens, overlap)
    requires p.buffer != [] && Estimate(u.text) <= maxTokens < Tokens(p.buffer) + Estimate(u.text)
    ensures Packs(Add(p, u, maxTokens, overlap), units + [u], maxTokens, overlap)
  {
    hide Sound, Stripped, Tokens, Split, Estimate, TailCount;
    FlushKeeps(p, units, maxTokens, overlap);
    var q := Add(p, u, maxTokens, overlap);
    TailFits(p.buffer, overlap);
    var tail := p.buffer[|p.buffer| - q.carried..];
    assert q.buffer[..q.carried] == tail && q.buffer[q.carried..] == [u] && q.buffer[q.carried] == u;
    TokensAppend(tail, u);
    NoTokens();
    assert q.carried == 0 ==> tail == [];
  }

  lemma AddKeeps(p: Packing, u: Unit, units: seq<Unit>, maxTokens: nat, overlap: nat)
    requires maxTokens > 0 && Packs(p, units, maxTokens, overlap)
    ensures Packs(Add(p, u, maxTokens, overlap), units + [u], maxTokens, overlap)
  {
    hide Sound, Stripped, Tokens, Split, Estimate, TailCount;
    var q := Add(p, u, maxTokens, overlap);
    if Estimate(u.text) > maxTokens {
      FlushKeeps(p, units, maxTokens, overlap);
      var d := Pieces(u, Split(u.text, maxTokens * CHARS_PER_TOKEN));
      SoundAppend(Flushed(p), d, maxTokens, overlap);
      StrippedAppend(Flushed(p), d);
    } else if p.buffer != [] && Tokens(p.buffer) + Estimate(u.text) > maxTokens {
      CarryKeeps(p, u, units, maxTokens, overlap);
    } else {
      TokensAppend(p.buffer, u);
      if p.buffer == [] {
        NoTokens();
        assert [u][0..] == [u] && p.buffer + [u] == [u] && [u][..0] == [];
      } else {
        assert q.buffer[q.carried..] == p.buffer[p.carried..] + [u];
        assert q.buffer[..q.carried] == p.buffer[..p.carried];
        assert q.buffer[q.carried] == p.buffer[p.carried];
      }
    }
  }

  lemma NoTokens()
    ensures Tokens([]) == 0
  {
  }

  lemma {:induction false} PacksNone(maxTokens: nat, overlap: nat)
    requires maxTokens > 0
    ensures Packs(Pack([], maxTokens, overlap), [], maxTokens, overlap)
  {
  }

  lemma SoundEach(drafts: seq<Draft>, k: nat, maxTokens: nat, overlap: nat)
    requires maxTokens > 0 && k < |drafts| && Sound(drafts, maxTokens, overlap)
    ensures SoundAt(drafts, k, maxTokens, overlap)
  {
  }

  lemma {:induction false} PackPacks(units: seq<Unit>, maxTokens: nat, overlap: nat)
    requires maxTokens > 0
    ensures Packs(Pack(units, maxTokens, overlap), units, maxTokens, overlap)
  {
    hide Sound, Bounded, FollowsAll, Add, Stripped;
    if units == [] {
      PacksNone(maxTokens, overlap);
    } else {
      var n := |units| - 1;
      PackPacks(units[..n], maxTokens, overlap);
      AddKeeps(Pack(units[..n], maxTokens, overlap), units[n], units[..n], maxTokens, overlap);
      assert units[..n] + [units[n]] == units;
    }
  }

  /** Taking each chunk's carried paragraphs away leaves exactly the chapter's kept paragraphs,
      in order; every packed chunk holds one that no earlier chunk holds, opens with the most
      of its predecessor's end that fits the overlap, and was closed only because the next
      paragraph did not fit. */
  lemma DraftsConserve(units: seq<Unit>, maxTokens: nat, overlap: nat)
    requires maxTokens > 0
    ensures Stripped(DraftsOf(units, maxTokens, overlap)) == units
    ensures Sound(DraftsOf(units, maxTokens, overlap), maxTokens, overlap)
  {
    hide Sound, Stripped, Packs;
    PackPacks(units, maxTokens, overlap);
    FlushKeeps(Pack(units, maxTokens, overlap), units, maxTokens, overlap);
  }

  // ------------------------------------------------------------- text given back

  function Concat(pieces: seq<string>): string {
    if pieces == [] then "" else pieces[0] + Concat(pieces[1..])
  }

  /** An oversized paragraph is cut into full pieces and one last, perhaps shorter one, and
      nothing of it is lost. */
  lemma {:induction false} SplitRejoins(text: string, limit: nat)
    requires limit > 0
    ensures Concat(Split(text, limit)) == text
    decreases |text|
  {
    if |text| > limit {
      SplitRejoins(text[limit..], limit);
      ConcatCons(text[..limit], Split(text[limit..], limit));
      assert text == text[..limit] + text[limit..];
    } else if text != [] {
      ConcatCons(text, []);
      assert [text] + [] == [text];
    }
  }

  lemma {:induction false} ConcatCons(first: string, rest: seq<string>)
    ensures Concat([first] + rest) == first + Concat(rest)
  {
    assert ([first] + rest)[1..] == rest;
  }

  lemma {:induction false} SplitSizes(text: string, limit: nat, k: nat)
    requires limit > 0 && k < |Split(text, limit)|
    ensures 0 < |Split(text, limit)[k]| <= limit
    ensures k < |Split(text, limit)| - 1 ==> |Split(text, limit)[k]| == limit
    decreases |text|
  {
    if |text| > limit && k > 0 { SplitSizes(text[limit..], limit, k - 1); }
  }

  lemma {:induction false} JoinedAppend(a: seq<Unit>, u: Unit)
    requires a != []
    ensures Joined(a + [u]) == Joined(a) + "\n\n" + u.text
  {
    assert (a + [u])[..|a|] == a;
  }

  lemma {:induction false} JoinedSplits(a: seq<Unit>, b: seq<Unit>)
    requires a != [] && b != []
    ensures Joined(a + b) == Joined(a) + "\n\n" + Joined(b)
  {
    hide Joined;
    var n := |b| - 1;
    if n == 0 {
      assert a + b == a + [b[0]] && b == [b[0]];
      JoinedAppend(a, b[0]);
      JoinedOne(b[0]);
    } else {
      JoinedSplits(a, b[..n]);
      JoinedAppend(a + b[..n], b[n]);
      JoinedAppend(b[..n], b[n]);
      assert a + b == a + b[..n] + [b[n]] && b == b[..n] + [b[n]];
      assert Joined(a) + "\n\n" + Joined(b[..n]) + "\n\n" + b[n].text == Joined(a) + "\n\n" + (Joined(b[..n]) + "\n\n" + b[n].text);
    }
  }

  function Texts(chunks: seq<Chunk>): seq<string> {
    if chunks == [] then [] else [chunks[0].text] + Texts(chunks[1..])
  }

  // A draft's chunks put back together, without the carried text that opens them.
  function OwnText(d: Draft, chunks: seq<Chunk>): string {
    match d
    case Packed(carried, units) =>
      var text := Concat(Texts(chunks));
      var opening := if carried == 0 || carried > |units| then 0 else |Joined(units[..carried])| + 2;
      if opening <= |text| then text[opening..] else ""
    case Pieces(_, _) => Concat(Texts(chunks))
  }

  function Reassembled(drafts: seq<Draft>, chapter: nat, from: nat): string {
    if drafts == [] then ""
    else
      var n := |drafts| - 1;
      var own := OwnText(drafts[n], RenderOne(drafts[n], chapter, from + |Render(drafts[..n], chapter, from)|));
      if n == 0 then own else Reassembled(drafts[..n], chapter, from) + "\n\n" + own
  }

  lemma {:induction false} PieceTexts(u: Unit, pieces: seq<string>, chapter: nat, from: nat, chunks: seq<Chunk>)
    requires |chunks| == |pieces| && forall k :: 0 <= k < |pieces| ==> chunks[k].text == pieces[k]
    ensures Texts(chunks) == pieces
  {
    if pieces != [] { PieceTexts(u, pieces[1..], chapter, from, chunks[1..]); }
  }

  lemma OwnTextIsOwn(d: Draft, chapter: nat, from: nat, maxTokens: nat)
    requires maxTokens > 0 && Cut(d, maxTokens) && (d.Packed? ==> d.carried < |d.units|)
    ensures OwnText(d, RenderOne(d, chapter, from)) == Joined(Own(d))
  {
    hide Split, Joined, Estimate;
    var chunks := RenderOne(d, chapter, from);
    match d
    case Packed(carried, units) =>
      assert chunks[1..] == [];
      assert Concat(Texts(chunks)) == Joined(units) by { assert [Joined(units)][1..] == []; }
      assert carried > 0 ==> units == units[..carried] + units[carried..];
      if carried > 0 { JoinedSplits(units[..carried], units[carried..]); }
    case Pieces(u, pieces) =>
      PieceTexts(u, pieces, chapter, from, chunks);
      SplitRejoins(u.text, maxTokens * CHARS_PER_TOKEN);
      JoinedOne(u);
  }

  lemma JoinedOne(u: Unit)
    ensures Joined([u]) == u.text
  {
  }

  lemma SoundBefore(drafts: seq<Draft>, maxTokens: nat, overlap: nat)
    requires maxTokens > 0 && drafts != [] && Sound(drafts, maxTokens, overlap)
    ensures Sound(drafts[..|drafts| - 1], maxTokens, overlap)
    ensures var d := drafts[|drafts| - 1]; Cut(d, maxTokens) && (d.Packed? ==> d.carried < |d.units|)
  {
    hide FollowsAll, Tokens, Split;
    var n := |drafts| - 1;
    forall k | 0 <= k < n ensures SoundAt(drafts[..n], k, maxTokens, overlap) {
      assert SoundAt(drafts, k, maxTokens, overlap) && drafts[..n][..k] == drafts[..k];
    }
    assert SoundAt(drafts, n, maxTokens, overlap);
  }

  lemma {:induction false} ReassembledIsJoined(drafts: seq<Draft>, chapter: nat, from: nat, maxTokens: nat, overlap: nat)
    requires maxTokens > 0 && Sound(drafts, maxTokens, overlap)
    ensures Reassembled(drafts, chapter, from) == Joined(Stripped(drafts))
    ensures drafts != [] ==> Stripped(drafts) != []
  {
    hide Joined, FollowsAll, OwnText, RenderOne, Render, Split, Tokens;
    if drafts != [] {
      var n := |drafts| - 1;
      var from' := from + |Render(drafts[..n], chapter, from)|;
      SoundBefore(drafts, maxTokens, overlap);
      hide Sound, SoundAt, Cut;
      ReassembledIsJoined(drafts[..n], chapter, from, maxTokens, overlap);
      OwnTextIsOwn(drafts[n], chapter, from', maxTokens);
      if n > 0 { JoinedSplits(Stripped(drafts[..n]), Own(drafts[n])); }
      else { assert Stripped(drafts[..n]) + Own(drafts[n]) == Own(drafts[n]); }
    } else {
      JoinedNone();
    }
  }

  lemma JoinedNone()
    ensures Joined([]) == ""
  {
  }

  /** Strip from each chunk the text it carried over, run the pieces of cut paragraphs back
      together, and a chapter's chunks spell its kept paragraphs. */
  lemma {:induction false} ChapterTextRestored(units: seq<Unit>, chapter: nat, from: nat, maxTokens: nat, overlap: nat)
    requires maxTokens > 0
    ensures Reassembled(DraftsOf(units, maxTokens, overlap), chapter, from) == Joined(units)
  {
    hide *;
    DraftsConserve(units, maxTokens, overlap);
    ReassembledIsJoined(DraftsOf(units, maxTokens, overlap), chapter, from, maxTokens, overlap);
  }

  // ---------------------------------------------------------------------- bounds

  predicate Kept(units: seq<Unit>) { forall k :: 0 <= k < |units| ==> |units[k].text| >= MIN_CHARS }

  lemma {:induction false} JoinedLength(units: seq<Unit>)
    requires units != [] && Kept(units)
    ensures |Joined(units)| <= 4 * Tokens(units) + 5 * |units| - 2 && 5 * |units| <= Tokens(units)
  {
    var n := |units| - 1;
    if n == 0 {
      assert units[..0] == [];
    } else {
      JoinedLength(units[..n]);
    }
  }

  /** The token count stored for a packed chunk, from the summed estimates of its paragraphs:
      the joins and the rounding of each paragraph add at most a quarter. */
  lemma {:induction false} StoredCount(units: seq<Unit>)
    requires units != [] && Kept(units)
    ensures Estimate(Joined(units)) <= (5 * Tokens(units) - 2) / 4
  {
    hide Joined, Tokens;
    JoinedLength(units);
  }

  lemma {:induction false} PieceCount(text: string, maxTokens: nat, k: nat)
    requires maxTokens > 0 && k < |Split(text, maxTokens * CHARS_PER_TOKEN)|
    ensures Estimate(Split(text, maxTokens * CHARS_PER_TOKEN)[k]) <= maxTokens
  {
    hide Split;
    SplitSizes(text, maxTokens * CHARS_PER_TOKEN, k);
  }

  // The most a chunk's stored count can be.
  function Ceiling(maxTokens: nat, overlap: nat): int { (5 * (maxTokens + overlap) - 2) / 4 }

  predicate Drawn(a: seq<Unit>, from: seq<Unit>) { forall k :: 0 <= k < |a| ==> a[k] in from }

  lemma {:induction false} OwnDrawn(drafts: seq<Draft>, k: nat)
    requires k < |drafts|
    ensures Drawn(Own(drafts[k]), Stripped(drafts))
  {
    if k < |drafts| - 1 { OwnDrawn(drafts[..|drafts| - 1], k); }
  }

  // Every paragraph of a packed draft is one of the chapter's.
  lemma {:induction false} UnitsDrawn(drafts: seq<Draft>, k: nat, maxTokens: nat, overlap: nat)
    requires maxTokens > 0 && Sound(drafts, maxTokens, overlap) && k < |drafts| && drafts[k].Packed?
    ensures Drawn(drafts[k].units, Stripped(drafts))
    decreases k
  {
    hide Stripped, Tokens, TailCount;
    OwnDrawn(drafts, k);
    var carried, units := drafts[k].carried, drafts[k].units;
    assert SoundAt(drafts, k, maxTokens, overlap);
    assert k > 0 ==> drafts[..k][k - 1] == drafts[k - 1];
    if k > 0 && drafts[k - 1].Packed? { UnitsDrawn(drafts, k - 1, maxTokens, overlap); }
    forall i | 0 <= i < |units| ensures units[i] in Stripped(drafts) {
      if i < carried {
        var prev := drafts[k - 1].units;
        assert units[i] == units[..carried][i] == prev[|prev| - carried..][i] == prev[|prev| - carried + i];
      } else {
        assert units[i] == Own(drafts[k])[i - carried];
      }
    }
  }

  lemma {:induction false} RenderedFrom(drafts: seq<Draft>, chapter: nat, from: nat, k: nat) returns (d: nat, i: nat, at: nat)
    requires k < |Render(drafts, chapter, from)|
    ensures d < |drafts| && i < |RenderOne(drafts[d], chapter, at)| && from + k == at + i
    ensures Render(drafts, chapter, from)[k] == RenderOne(drafts[d], chapter, at)[i]
  {
    hide RenderOne;
    var n := |drafts| - 1;
    var before := Render(drafts[..n], chapter, from);
    if k < |before| {
      d, i, at := RenderedFrom(drafts[..n], chapter, from, k);
    } else {
      d, i, at := n, k - |before|, from + |before|;
    }
  }

  // Whole paragraphs joined, the first of them on the chunk's page.
  ghost predicate OfWholes(c: Chunk, units: seq<Unit>) {
    exists us: seq<Unit> :: us != [] && Drawn(us, units) && us[0].page == c.page && c.text == Joined(us)
  }

  // A stretch of one paragraph, on the chunk's page.
  ghost predicate OfOne(c: Chunk, units: seq<Unit>) {
    exists u, from, to :: u in units && u.page == c.page && 0 <= from < to <= |u.text| && c.text == u.text[from..to]
  }

  // A chunk of one chapter: numbered in place, made of the chapter's paragraphs, within the ceiling.
  ghost predicate ChunkFits(c: Chunk, index: nat, chapter: nat, units: seq<Unit>, maxTokens: nat, overlap: nat) {
    && c.index == index && c.chapter == chapter && c.tokens == Estimate(c.text)
    && (OfWholes(c, units) || OfOne(c, units))
    && (c.tokens <= Ceiling(maxTokens, overlap) || c.tokens <= maxTokens)
  }

  lemma {:induction false} PieceStands(text: string, limit: nat, k: nat) returns (from: nat)
    requires limit > 0 && k < |Split(text, limit)|
    ensures from + |Split(text, limit)[k]| <= |text| && Split(text, limit)[k] == text[from..from + |Split(text, limit)[k]|]
    decreases |text|
  {
    from := 0;
    if |text| > limit && k > 0 {
      var rest := PieceStands(text[limit..], limit, k - 1);
      from := limit + rest;
    }
  }

  lemma {:induction false} DraftChunksFit(drafts: seq<Draft>, d: nat, chapter: nat, at: nat, i: nat, maxTokens: nat, overlap: nat)
    requires maxTokens > 0 && Sound(drafts, maxTokens, overlap) && Kept(Stripped(drafts))
    requires d < |drafts| && i < |RenderOne(drafts[d], chapter, at)|
    ensures ChunkFits(RenderOne(drafts[d], chapter, at)[i], at + i, chapter, Stripped(drafts), maxTokens, overlap)
  {
    hide Stripped, Tokens, Estimate, Split, Joined, FollowsAll, Sound;
    SoundEach(drafts, d, maxTokens, overlap);
    match drafts[d]
    case Packed(carried, units) =>
      UnitsDrawn(drafts, d, maxTokens, overlap);
      assert OfWholes(RenderOne(drafts[d], chapter, at)[i], Stripped(drafts));
      StoredCount(units);
    case Pieces(u, pieces) =>
      OwnDrawn(drafts, d);
      assert Own(drafts[d])[0] == u;
      PieceCount(u.text, maxTokens, i);
      SplitSizes(u.text, maxTokens * CHARS_PER_TOKEN, i);
      var from := PieceStands(u.text, maxTokens * CHARS_PER_TOKEN, i);
      var to := from + |pieces[i]|;
      assert u in Stripped(drafts) && pieces[i] == u.text[from..to];
  }

  lemma {:induction false} ChapterChunksFit(units: seq<Unit>, chapter: nat, from: nat, k: nat, maxTokens: nat, overlap: nat)
    requires maxTokens > 0 && Kept(units)
    requires k < |Render(DraftsOf(units, maxTokens, overlap), chapter, from)|
    ensures ChunkFits(Render(DraftsOf(units, maxTokens, overlap), chapter, from)[k], from + k, chapter, units, maxTokens, overlap)
  {
    hide *;
    DraftsConserve(units, maxTokens, overlap);
    var drafts := DraftsOf(units, maxTokens, overlap);
    var d, i, at := RenderedFrom(drafts, chapter, from, k);
    DraftChunksFit(drafts, d, chapter, at, i, maxTokens, overlap);
  }

  // The paragraphs of a chapter, all on its pages.
  function ChapterUnits(chapter: Chapter, byPage: map<int, string>, alpha: char -> bool): (r: seq<Unit>)
    ensures forall u :: u in r ==> chapter.pageStart <= u.page <= chapter.pageEnd
  {
    UnitsOf(byPage, chapter.pageStart, chapter.pageEnd + 1, alpha)
  }

  ghost predicate InChapter(c: Chunk, chapter: Chapter, byPage: map<int, string>, alpha: char -> bool) {
    && c.chapter == chapter.index && chapter.pageStart <= c.page <= chapter.pageEnd
    && (OfWholes(c, ChapterUnits(chapter, byPage, alpha)) || OfOne(c, ChapterUnits(chapter, byPage, alpha)))
  }

  lemma FitsIsInChapter(c: Chunk, index: nat, chapter: Chapter, byPage: map<int, string>, alpha: char -> bool, maxTokens: nat, overlap: nat)
    requires ChunkFits(c, index, chapter.index, ChapterUnits(chapter, byPage, alpha), maxTokens, overlap)
    ensures InChapter(c, chapter, byPage, alpha)
  {
    var units := ChapterUnits(chapter, byPage, alpha);
    if OfWholes(c, units) {
      var us: seq<Unit> :| us != [] && Drawn(us, units) && us[0].page == c.page && c.text == Joined(us);
      assert us[0] in units;
    }
  }

  /** Over a whole book: chunks are numbered in order with no gap, each is whole paragraphs of one
      chapter joined or a stretch of one, all from that chapter's pages, and none is stored with
      more than the ceiling. */
  lemma {:induction false} BookChunks(chapters: seq<Chapter>, byPage: map<int, string>, maxTokens: nat, overlap: nat, alpha: char -> bool, k: nat)
    requires maxTokens > 0 && k < |ChunksOf(chapters, byPage, maxTokens, overlap, alpha)|
    ensures var c := ChunksOf(chapters, byPage, maxTokens, overlap, alpha)[k];
      && c.index == k && c.tokens == Estimate(c.text)
      && (exists h :: h in chapters && InChapter(c, h, byPage, alpha))
      && (c.tokens <= Ceiling(maxTokens, overlap) || c.tokens <= maxTokens)
  {
    hide Render, DraftsOf, UnitsOf, Estimate, InChapter, OfWholes, OfOne;
    var n := |chapters| - 1;
    var chapter := chapters[n];
    var before := ChunksOf(chapters[..n], byPage, maxTokens, overlap, alpha);
    if k < |before| {
      BookChunks(chapters[..n], byPage, maxTokens, overlap, alpha, k);
    } else {
      var units := ChapterUnits(chapter, byPage, alpha);
      ChapterChunksFit(units, chapter.index, |before|, k - |before|, maxTokens, overlap);
      FitsIsInChapter(ChunksOf(chapters, byPage, maxTokens, overlap, alpha)[k], k, chapter, byPage, alpha, maxTokens, overlap);
    }
  }

  /** With the shipped settings (320 and 64 against an embedder that reads 512) no chunk is
      ever stored with more than 479 tokens. */
  lemma {:induction false} ShippedSettingsFit(chapters: seq<Chapter>, byPage: map<int, string>, alpha: char -> bool, k: nat)
    requires k < |ChunksOf(chapters, byPage, TokenBudget(320, 512), Overlap(64, TokenBudget(320, 512)), alpha)|
    ensures ChunksOf(chapters, byPage, TokenBudget(320, 512), Overlap(64, TokenBudget(320, 512)), alpha)[k].tokens <= 479
  {
    hide ChunksOf, Estimate;
    BookChunks(chapters, byPage, TokenBudget(320, 512), Overlap(64, TokenBudget(320, 512)), alpha, k);
  }

  // --------------------------------------------------------------- how tight it is

  // No packed chunk's paragraphs add up to more than the budget.
  predicate WithinBudget(drafts: seq<Draft>, maxTokens: nat) {
    forall k :: 0 <= k < |drafts| && drafts[k].Packed? ==> Tokens(drafts[k].units) <= maxTokens
  }

  function Filled(n: nat): (s: string)
    ensures |s| == n
  {
    seq(n, _ => 'a')
  }

  function ShortThenLong(overlap: nat, maxTokens: nat): (r: seq<Unit>)
    requires overlap >= 5 && maxTokens >= 5
    ensures Kept(r) && |r| == 2 && Estimate(r[0].text) == overlap && Estimate(r[1].text) == maxTokens
  {
    [Unit(1, Filled(4 * overlap)), Unit(1, Filled(4 * maxTokens))]
  }

  /** The bound is met: a paragraph of just the overlap, then one of just the budget, make one
      chunk holding both. The chunk before it holds nothing else. */
  lemma OverlapIsSpent(overlap: nat, maxTokens: nat)
    requires 5 <= overlap <= maxTokens
    ensures var us := ShortThenLong(overlap, maxTokens);
      DraftsOf(us, maxTokens, overlap) == [Packed(0, us[..1]), Packed(1, us)] && Tokens(us) == maxTokens + overlap
  {
    hide Estimate, Pack, Tokens, TailCount, ShortThenLong, Split;
    var us := ShortThenLong(overlap, maxTokens);
    var a, b := us[0], us[1];
    PackNone(maxTokens, overlap);
    PackNext(us, 0, maxTokens, overlap);
    PackNext(us, 1, maxTokens, overlap);
    assert us[..0] == [] && us[..2] == us && us[..1] == [a] && [a] + [b] == us && [] + [a] == [a];
    assert Pack([a], maxTokens, overlap) == Packing([], [a], 0);
    TokensAppend([], a);
    TokensAppend([a], b);
    WholeChunkCarriedIff([a], overlap);
    assert [a][0..] == [a];
  }

  /** The budget alone bounds every packed chunk exactly when the overlap is too small to carry
      any paragraph: under 5 tokens, the estimate of the shortest paragraph kept. */
  lemma BudgetIsCeilingIff(overlap: nat, maxTokens: nat)
    requires maxTokens > 0 && overlap <= maxTokens / 3
    ensures (forall units | Kept(units) :: WithinBudget(DraftsOf(units, maxTokens, overlap), maxTokens)) <==> overlap < 5
  {
    hide DraftsOf, Sound, Stripped, Tokens, TailCount, Estimate;
    if overlap < 5 {
      forall units | Kept(units) ensures WithinBudget(DraftsOf(units, maxTokens, overlap), maxTokens) {
        var drafts := DraftsOf(units, maxTokens, overlap);
        DraftsConserve(units, maxTokens, overlap);
        forall k | 0 <= k < |drafts| && drafts[k].Packed? ensures Tokens(drafts[k].units) <= maxTokens {
          NothingCarried(drafts, k, maxTokens, overlap);
        }
      }
    } else {
      var us := ShortThenLong(overlap, maxTokens);
      OverlapIsSpent(overlap, maxTokens);
      assert DraftsOf(us, maxTokens, overlap)[1] == Packed(1, us);
      assert !WithinBudget(DraftsOf(us, maxTokens, overlap), maxTokens);
    }
  }

  lemma {:induction false} NothingCarried(drafts: seq<Draft>, k: nat, maxTokens: nat, overlap: nat)
    requires maxTokens > 0 && overlap < 5 && Sound(drafts, maxTokens, overlap) && Kept(Stripped(drafts))
    requires k < |drafts| && drafts[k].Packed?
    ensures Tokens(drafts[k].units) <= maxTokens
  {
    hide Stripped, Tokens, TailCount;
    assert SoundAt(drafts, k, maxTokens, overlap);
    var carried, units := drafts[k].carried, drafts[k].units;
    UnitsDrawn(drafts, k, maxTokens, overlap);
    if carried > 0 {
      assert units[..carried][0] == units[0] && units[0] in Stripped(drafts);
      SomeTokens(units[..carried]);
    }
  }

  lemma {:induction false} SomeTokens(units: seq<Unit>)
    requires units != []
    ensures Tokens(units) >= Estimate(units[0].text)
  {
    if |units| > 1 { SomeTokens(units[..|units| - 1]); }
  }

  /** A whole chunk is repeated inside the next exactly when all its paragraphs together fit
      the overlap; keeping the overlap under a third of the budget does not prevent it. */
  lemma {:induction false} WholeChunkCarriedIff(buffer: seq<Unit>, overlap: nat)
    ensures TailCount(buffer, overlap) == |buffer| <==> Tokens(buffer) <= overlap
  {
    if buffer != [] {
      var last := buffer[|buffer| - 1];
      if Estimate(last.text) <= overlap { WholeChunkCarriedIff(buffer[..|buffer| - 1], overlap - Estimate(last.text)); }
    }
  }
}
