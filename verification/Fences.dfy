/** Replies inside a markdown fence: what `_unfenced` in `services/assessments.py` takes out of them,
    closed or cut short. */
module Fences {
  import opened Json
  import opened JsonWindow
  import opened Salvage
  import opened CutReply
  import opened Text
  import opened Wrappers

  const FENCE := "```"

  predicate AllBlank(s: string) { forall k :: 0 <= k < |s| ==> IsBlank(s[k]) }

  // A fence with or without the name of the language.
  predicate IsTag(tag: string) { tag == "" || tag == "json" }

  // All that stands before a fenced reply.
  function Opening(lead: string, tag: string, blanks: string): string { lead + FENCE + tag + blanks }

  lemma OpeningLength(lead: string, tag: string, blanks: string)
    requires IsTag(tag)
    ensures |Opening(lead, tag, blanks)| == |lead| + 3 + |tag| + |blanks| && |tag| == if tag == "json" then 4 else 0
  {
  }

  // ------------------------------------------------------------- finding fences

  predicate FenceAt(s: string, k: nat) { k + 3 <= |s| && s[k] == '`' && s[k + 1] == '`' && s[k + 2] == '`' }

  lemma {:induction false} FenceIs(s: string, from: nat, k: nat)
    requires from <= k && FenceAt(s, k) && forall j: nat :: from <= j < k ==> !FenceAt(s, j)
    ensures FindFence(s, from) == k
    decreases k - from
  {
    if from < k {
      assert !FenceAt(s, from);
      FenceIs(s, from + 1, k);
    }
  }

  lemma {:induction false} NoFenceIff(s: string, from: nat)
    ensures FindFence(s, from) == -1 <==> forall j: nat :: from <= j ==> !FenceAt(s, j)
    decreases |s| - from
  {
    if from + 3 <= |s| {
      NoFenceIff(s, from + 1);
      assert FenceAt(s, from) <==> s[from] == '`' && s[from + 1] == '`' && s[from + 2] == '`';
    }
  }

  lemma {:induction false} FenceAfter(p: string, x: string, f: nat)
    ensures FindFence(p + x, |p| + f) == if FindFence(x, f) < 0 then -1 else |p| + FindFence(x, f)
    decreases |x| - f
  {
    if f + 3 <= |x| {
      assert (p + x)[|p| + f] == x[f] && (p + x)[|p| + f + 1] == x[f + 1] && (p + x)[|p| + f + 2] == x[f + 2];
      FenceAfter(p, x, f + 1);
    }
  }

  // The first fence of a reply is the one that opens it, and the block starts with the reply.
  lemma {:induction false} OpensAt(lead: string, tag: string, blanks: string, x: string)
    requires '`' !in lead && IsTag(tag) && AllBlank(blanks) && x != [] && x[0] == '{'
    ensures var text := Opening(lead, tag, blanks) + x;
      && FindFence(text, 0) == |lead|
      && Matches(text, |lead| + 3, "json") == (tag == "json")
      && SkipBlanks(text, |lead| + 3 + |tag|) == |Opening(lead, tag, blanks)|
  {
    hide FindFence, SkipBlanks;
    var text, p := Opening(lead, tag, blanks) + x, |lead| + 3;
    assert forall k :: 0 <= k < |lead| ==> text[k] == lead[k];
    assert text[|lead|] == '`' && text[|lead| + 1] == '`' && text[|lead| + 2] == '`';
    FenceIs(text, 0, |lead|);
    if tag == "json" {
      assert text[p..p + 4] == "json";
    } else {
      assert text[p] == (blanks + x)[0];
      if p + 4 <= |text| && text[p..p + 4] == "json" { assert text[p..p + 4][0] == 'j'; }
    }
    BlanksSkipped(text, p + |tag|, |Opening(lead, tag, blanks)|);
  }

  lemma {:induction false} BlanksSkipped(s: string, i: nat, j: nat)
    requires i <= j < |s| && !IsBlank(s[j]) && forall k :: i <= k < j ==> IsBlank(s[k])
    ensures SkipBlanks(s, i) == j
    decreases j - i
  {
    if i < j { BlanksSkipped(s, i + 1, j); }
  }

  lemma SliceAfter(p: string, x: string, i: nat, j: nat)
    requires i <= j <= |x|
    ensures (p + x)[|p| + i..|p| + j] == x[i..j]
  {
    assert forall k :: i <= k < j ==> (p + x)[|p| + k] == x[k];
  }

  // ------------------------------------------------------------------ stripping

  lemma {:induction false} LStripFront(lead: string, rest: string)
    requires rest != [] && !IsBlank(rest[0])
    ensures LStrip(lead + rest) == LStrip(lead) + rest
    ensures forall c :: c !in lead ==> c !in LStrip(lead)
  {
    if lead == [] {
      assert lead + rest == rest;
    } else {
      assert (lead + rest)[1..] == lead[1..] + rest;
      LStripFront(lead[1..], rest);
    }
  }

  lemma {:induction false} RStripBack(front: string, s: string)
    requires front != [] && !IsBlank(front[|front| - 1])
    ensures RStrip(front + s) == front + RStrip(s)
  {
    if s == [] {
      assert front + s == front;
    } else {
      assert (front + s)[..|front + s| - 1] == front + s[..|s| - 1];
      RStripBack(front, s[..|s| - 1]);
    }
  }

  // A text that starts with ink keeps its start.
  lemma {:induction false} RStripStarts(s: string)
    requires s != [] && !IsBlank(s[0])
    ensures RStrip(s) != [] && RStrip(s)[0] == s[0]
  {
    RStripBack(s[..1], s[1..]);
    assert s == s[..1] + s[1..];
  }

  lemma {:induction false} RStripBlank(s: string)
    requires AllBlank(s)
    ensures RStrip(s) == []
  {
  }

  lemma {:induction false} RStripPast(p: string, x: string)
    requires x != [] && !IsBlank(x[0])
    ensures RStrip(p + x) == p + RStrip(x)
  {
    if IsBlank(x[|x| - 1]) {
      assert (p + x)[..|p + x| - 1] == p + x[..|x| - 1];
      RStripPast(p, x[..|x| - 1]);
    }
  }

  lemma {:induction false} StripOpened(lead: string, tag: string, blanks: string, x: string)
    requires x != [] && x[0] == '{'
    ensures Strip(Opening(lead, tag, blanks) + x) == Opening(LStrip(lead), tag, blanks) + RStrip(x)
    ensures forall c :: c !in lead ==> c !in LStrip(lead)
  {
    hide LStrip, RStrip;
    var rest := FENCE + tag + blanks + x;
    assert Opening(lead, tag, blanks) + x == lead + rest;
    LStripFront(lead, rest);
    assert LStrip(lead) + rest == Opening(LStrip(lead), tag, blanks) + x;
    RStripPast(Opening(LStrip(lead), tag, blanks), x);
  }

  lemma UnfencedFrom(raw: string, open: nat, start: nat)
    requires FindFence(Strip(raw), 0) == open && open + 3 <= |Strip(raw)|
    requires start == SkipBlanks(Strip(raw), if Matches(Strip(raw), open + 3, "json") then open + 7 else open + 3)
    ensures start <= |Strip(raw)|
    ensures var text, close := Strip(raw), FindFence(Strip(raw), start);
      Unfenced(raw) == if close < 0 then text else Strip(text[start..close])
  {
    hide Strip, FindFence, SkipBlanks;
  }

  lemma BraceIsInk()
    ensures !IsBlank('{')
  {
  }

  /** What is taken out of a reply that opens a fence: what stands between it and the next fence,
      stripped; or, when no other follows, all of it. */
  lemma {:induction false} OpenedIs(lead: string, tag: string, blanks: string, x: string)
    requires '`' !in lead && IsTag(tag) && AllBlank(blanks) && x != [] && x[0] == '{'
    ensures RStrip(x) != [] && RStrip(x)[0] == '{' && '`' !in LStrip(lead)
    ensures var close := FindFence(RStrip(x), 0);
      Unfenced(Opening(lead, tag, blanks) + x)
      == if close < 0 then Opening(LStrip(lead), tag, blanks) + RStrip(x) else Strip(RStrip(x)[..close])
  {
    hide *;
    assert !IsBlank(x[0]) by { BraceIsInk(); }
    StripOpened(lead, tag, blanks, x);
    RStripStarts(x);
    var before, y := Opening(LStrip(lead), tag, blanks), RStrip(x);
    OpensAt(LStrip(lead), tag, blanks, y);
    OpeningLength(LStrip(lead), tag, blanks);
    UnfencedFrom(Opening(lead, tag, blanks) + x, |LStrip(lead)|, |before|);
    FenceAfter(before, y, 0);
    var close := FindFence(y, 0);
    if close >= 0 { SliceAfter(before, y, 0, close); }
  }

  // ------------------------------------------------------- reading past an opening

  lemma {:induction false} FindAfter(p: string, x: string, c: char, f: nat)
    ensures Find(p + x, c, |p| + f) == if Find(x, c, f) < 0 then -1 else |p| + Find(x, c, f)
    decreases |x| - f
  {
    if f < |x| {
      assert (p + x)[|p| + f] == x[f];
      FindAfter(p, x, c, f + 1);
    }
  }

  lemma {:induction false} FindPast(p: string, x: string, c: char, f: nat)
    requires c !in p && f <= |p|
    ensures Find(p + x, c, f) == Find(p + x, c, |p|)
    decreases |p| - f
  {
    if f < |p| {
      assert (p + x)[f] == p[f];
      FindPast(p, x, c, f + 1);
    }
  }

  lemma {:induction false} RFindAfter(p: string, x: string, c: char)
    ensures RFind(p + x, c) == if RFind(x, c) >= 0 then |p| + RFind(x, c) else RFind(p, c)
  {
    if x == [] {
      assert p + x == p;
    } else {
      assert (p + x)[..|p + x| - 1] == p + x[..|x| - 1];
      RFindAfter(p, x[..|x| - 1], c);
    }
  }

  lemma {:induction false} BetweenAfter(p: string, x: string, o: char, c: char)
    requires o !in p
    ensures ReplyBetween(p + x, Find(p + x, o, 0), RFind(p + x, c)) == ReplyBetween(x, Find(x, o, 0), RFind(x, c))
  {
    hide Loads, Find, RFind;
    FindPast(p, x, o, 0);
    FindAfter(p, x, o, 0);
    RFindAfter(p, x, c);
    var i, j := Find(x, o, 0), RFind(x, c);
    if 0 <= i < j { SliceAfter(p, x, i, j + 1); }
  }

  // A value decodes after an opening as it does without.
  lemma ScanAfter(p: string, x: string, i: nat)
    requires i < |x| && x[i] == '{'
    ensures ScanValue(p + x, |p| + i)
         == match ScanValue(x, i) case Fail => Fail case Done(v, end) => Done(v, |p| + end)
  {
    hide ScanValue, Agree;
    var n := |p|;
    assert (p + x)[n..n + |x|] == x && x[0..|x|] == x && (p + x)[n + i] == x[i];
    if ScanValue(x, i).Done? {
      AgreeIfEqual(x, p + x, n, 0, |x|);
      ValueCarries(x, p + x, n, 0, |x|, i);
    }
    if ScanValue(p + x, n + i).Done? {
      AgreeIfEqual(p + x, x, -n, n, n + |x|);
      ValueCarries(p + x, x, -n, n, n + |x|, n + i);
    }
  }

  lemma {:induction false} ObjectsAfter(p: string, x: string, f: nat)
    requires f <= |x|
    ensures ObjectsFrom(p + x, |p| + f) == ObjectsFrom(x, f)
    decreases |x| - f
  {
    hide ScanValue, Find, ObjectsFrom;
    FindAfter(p, x, '{', f);
    ObjectsFromNext(p + x, |p| + f);
    ObjectsFromNext(x, f);
    var i := Find(x, '{', f);
    if i >= 0 {
      ObjectsFromBrace(x, i);
      ObjectsFromBrace(p + x, |p| + i);
      ScanAfter(p, x, i);
      ObjectsFromNext(x, i + 1);
      ObjectsFromNext(p + x, |p| + i + 1);
      ObjectsAfter(p, x, i + 1);
      if ScanValue(x, i).Done? {
        var end := ScanValue(x, i).end;
        ObjectsFromNext(x, end);
        ObjectsFromNext(p + x, |p| + end);
        ObjectsAfter(p, x, end);
      }
    }
  }

  /** An opening with no brace or bracket in it changes nothing of what is read after it. */
  lemma ReadAfter(p: string, x: string)
    requires '{' !in p && '[' !in p
    ensures WholeReply(p + x) == WholeReply(x) && Salvaged(p + x) == Salvaged(x)
  {
    hide ReplyBetween, ObjectsFrom, Find, RFind;
    BetweenAfter(p, x, '{', '}');
    BetweenAfter(p, x, '[', ']');
    FindPast(p, x, '{', 0);
    ObjectsFromNext(p + x, 0);
    ObjectsFromNext(p + x, |p|);
    ObjectsAfter(p, x, 0);
  }

  // ------------------------------------------------------------- the reply, closed

  lemma ReplyEnds(d: string, items: seq<Value>)
    requires IsReply(d, items)
    ensures |d| > 1 && d[0] == '{' && d[|d| - 1] == '}'
  {
    hide ScanObject, ScanKey, ScanArray;
    var (a, e) := ListSpan(d, items);
  }

  // A fence in two texts joined is in the first, runs out of it, or is in the second.
  lemma FenceSplit(d: string, y: string, j: nat)
    requires d != []
    ensures FenceAt(d + y, j) ==> FenceAt(d, j) || (j < |d| && d[|d| - 1] == '`') || (j >= |d| && FenceAt(y, j - |d|))
  {
    var s := d + y;
    if FenceAt(s, j) {
      assert s[|d| - 1] == d[|d| - 1];
      assert j >= |d| ==> s[j] == y[j - |d|] && s[j + 1] == y[j + 1 - |d|] && s[j + 2] == y[j + 2 - |d|];
    }
  }

  // The first fence after a reply with none of its own is the one put there.
  lemma {:induction false} ClosesAt(d: string, after: string, tail: string)
    requires d != [] && d[|d| - 1] != '`' && FindFence(d, 0) == -1 && AllBlank(after)
    ensures FindFence(d + after + FENCE + tail, 0) == |d| + |after|
  {
    hide FindFence;
    var s, k := d + after + FENCE + tail, |d| + |after|;
    NoFenceIff(d, 0);
    assert s[k] == '`' && s[k + 1] == '`' && s[k + 2] == '`';
    var y := after + FENCE + tail;
    assert s == d + y;
    forall j: nat | j < k ensures !FenceAt(s, j) {
      FenceSplit(d, y, j);
      assert |d| <= j ==> y[j - |d|] == after[j - |d|];
    }
    FenceIs(s, 0, k);
  }

  lemma {:induction false} ClosedIs(d: string, items: seq<Value>, lead: string, tag: string, blanks: string, after: string, tail: string)
    requires IsReply(d, items) && FindFence(d, 0) == -1 && '`' !in lead && IsTag(tag) && AllBlank(blanks) && AllBlank(after)
    ensures Unfenced(Opening(lead, tag, blanks) + (d + after + FENCE + tail)) == d
  {
    hide IsReply, FindFence, LStrip, RStrip, Opening, Unfenced;
    ReplyEnds(d, items);
    var front := d + after + FENCE;
    OpenedIs(lead, tag, blanks, front + tail);
    RStripBack(front, tail);
    ClosesAt(d, after, RStrip(tail));
    assert (front + RStrip(tail))[..|d| + |after|] == d + after;
    assert [] + (d + after) == d + after;
    LStripLead([], d + after);
    RStripBack(d, after);
    RStripBlank(after);
  }

  /** A reply in a fence that is closed, after any words without a back quote and before any words at
      all, is read as if it stood alone: all its questions are handed on. */
  lemma {:induction false} FencedReplyIsRead(d: string, items: seq<Value>, lead: string, tag: string, blanks: string, after: string, tail: string)
    requires IsReply(d, items) && FindFence(d, 0) == -1
    requires '`' !in lead && IsTag(tag) && AllBlank(blanks) && AllBlank(after)
    ensures RawItems(lead + FENCE + tag + blanks + d + after + FENCE + tail) == items
  {
    hide IsReply, Unfenced, WholeReply, Salvaged;
    assert lead + FENCE + tag + blanks + d + after + FENCE + tail == Opening(lead, tag, blanks) + (d + after + FENCE + tail);
    ClosedIs(d, items, lead, tag, blanks, after, tail);
    WholeUnwraps(d, items);
  }

  // ----------------------------------------------------------- the reply, cut short

  // Stripping and unfencing bring in no character.
  lemma NothingToRead(raw: string)
    requires '{' !in raw && '[' !in raw
    ensures RawItems(raw) == []
  {
    hide Strip, FindFence, SkipBlanks, Find, ScanValue;
    var text := Unfenced(raw);
    UnfencedWithin(raw, '{');
    UnfencedWithin(raw, '[');
    assert Find(text, '{', 0) == -1 && Find(text, '[', 0) == -1;
  }

  lemma {:induction false} LStripWithin(s: string, c: char)
    requires c !in s
    ensures c !in LStrip(s)
  {
    if s != [] { LStripWithin(s[1..], c); }
  }

  lemma StripWithin(s: string, c: char)
    requires c !in s
    ensures c !in Strip(s)
  {
    LStripWithin(s, c);
  }

  lemma UnfencedWithin(raw: string, c: char)
    requires c !in raw
    ensures c !in Unfenced(raw)
  {
    hide Strip, FindFence, SkipBlanks;
    var text := Strip(raw);
    StripWithin(raw, c);
    var open := FindFence(text, 0);
    if open >= 0 {
      var start := SkipBlanks(text, if Matches(text, open + 3, "json") then open + 7 else open + 3);
      var close := FindFence(text, start);
      if close >= 0 { StripWithin(text[start..close], c); }
    }
  }

  // Cut inside the reply.
  lemma {:induction false} CutInside(d: string, items: seq<Value>, lead: string, tag: string, blanks: string, k: nat)
    requires IsReply(d, items) && FindFence(d, 0) == -1 && 0 < k <= |d|
    requires forall k :: 0 <= k < |items| ==> IsQuestion(items[k])
    requires '`' !in lead && '{' !in lead && '[' !in lead && IsTag(tag) && AllBlank(blanks)
    ensures RawItems(Opening(lead, tag, blanks) + d[..k]) == Before(ReplySpans(d, items), k)
  {
    hide IsReply, IsQuestion, FindFence, LStrip, RStrip, Unfenced, WholeReply, Salvaged, ReplySpans, Opening;
    ReplyEnds(d, items);
    OpenedIs(lead, tag, blanks, d[..k]);
    StripOpened(lead, tag, blanks, d[..k]);
    CutEnd(d, k);
    var c := |RStrip(d[..k])|;
    NoFenceInPrefix(d, c, 0);
    OpeningClear(LStrip(lead), tag, blanks);
    ReadAfter(Opening(LStrip(lead), tag, blanks), d[..c]);
    ItemsOfCut(d, items, c);
    BlankEnds(d, items, c, k);
  }

  // A text cut and then stripped is the text cut a little earlier.
  lemma CutEnd(d: string, k: nat)
    requires k <= |d|
    ensures var c := |RStrip(d[..k])|;
      c <= k && RStrip(d[..k]) == d[..c] && forall j :: c <= j < k ==> IsBlank(d[j])
  {
    hide RStrip;
    var r := RStrip(d[..k]);
    assert r == d[..k][..|r|] == d[..|r|];
    forall j | |r| <= j < k ensures IsBlank(d[j]) {
      assert d[..k][j] == d[j];
    }
  }

  lemma {:induction false} BlankEnds(d: string, items: seq<Value>, c: nat, k: nat)
    requires IsReply(d, items) && c <= k <= |d|
    requires forall j :: c <= j < k ==> IsBlank(d[j])
    requires forall k :: 0 <= k < |items| ==> IsQuestion(items[k])
    ensures Before(ReplySpans(d, items), c) == Before(ReplySpans(d, items), k)
  {
    hide ScanObject, ScanElements, IsQuestion, IsBlank;
    var (a, e) := ListSpan(d, items);
    if d[SkipSpace(d, a + 1)] != ']' { BlankEndsNothing(d, SkipSpace(d, a + 1), c, k); }
  }

  lemma OpeningClear(lead: string, tag: string, blanks: string)
    requires '{' !in lead && '[' !in lead && IsTag(tag) && AllBlank(blanks)
    ensures '{' !in Opening(lead, tag, blanks) && '[' !in Opening(lead, tag, blanks)
  {
  }

  // Cut after the reply, before its fence is closed.
  lemma {:induction false} CutBetween(d: string, items: seq<Value>, lead: string, tag: string, blanks: string, after: string, k: nat)
    requires IsReply(d, items) && FindFence(d, 0) == -1 && AllBlank(after) && k < |after| + 3
    requires '`' !in lead && '{' !in lead && '[' !in lead && IsTag(tag) && AllBlank(blanks)
    ensures RawItems(Opening(lead, tag, blanks) + (d + (after + FENCE)[..k])) == items
  {
    hide IsReply, FindFence, LStrip, RStrip, Unfenced, WholeReply, Salvaged, Opening;
    ReplyEnds(d, items);
    var y := (after + FENCE)[..k];
    OpenedIs(lead, tag, blanks, d + y);
    StripOpened(lead, tag, blanks, d + y);
    RStripBack(d, y);
    var z := RStrip(y);
    assert z == y[..|z|];
    NotClosed(d, after, z);
    OpeningClear(LStrip(lead), tag, blanks);
    ReadAfter(Opening(LStrip(lead), tag, blanks), d + z);
    WholeBefore(d, items, z);
  }

  lemma {:induction false} NotClosed(d: string, after: string, z: string)
    requires d != [] && d[|d| - 1] != '`' && FindFence(d, 0) == -1 && AllBlank(after)
    requires |z| < |after| + 3 && z <= after + FENCE
    ensures FindFence(d + z, 0) == -1 && '}' !in z
  {
    hide FindFence;
    NoFenceIff(d, 0);
    var s := d + z;
    assert forall j :: 0 <= j < |z| ==> z[j] == (after + FENCE)[j];
    forall j: nat ensures !FenceAt(s, j) {
      FenceSplit(d, z, j);
      assert |d| <= j < |d| + |after| && j < |s| ==> z[j - |d|] == after[j - |d|];
    }
    NoFenceIff(s, 0);
  }

  // Words without a brace after a whole reply do not keep it from being read whole.
  lemma WholeBefore(d: string, items: seq<Value>, z: string)
    requires IsReply(d, items) && '}' !in z
    ensures WholeReply(d + z) == Some(items)
  {
    hide Loads, ScanObject, RFind;
    ReplyEnds(d, items);
    RFindAfter(d, z, '}');
    assert RFind(z, '}') < 0 && (d + z)[0] == '{';
    LastBrace(d);
    assert (d + z)[0..|d|] == d && d[0..|d|] == d;
    ObjectAtBrace(d, 0);
    LoadsExactly(d, 0, |d|);
    ListCertain(d, items);
  }

  lemma {:induction false} LastBrace(d: string)
    requires d != [] && d[|d| - 1] == '}'
    ensures RFind(d, '}') == |d| - 1
  {
  }

  /** The same reply cut at any character, be it before the reply, inside it, or before or after the
      fence that closes it: exactly the questions complete before the cut are handed on. */
  lemma {:induction false} FencedCutReply(d: string, items: seq<Value>, lead: string, tag: string, blanks: string, after: string, tail: string, cut: nat)
    requires IsReply(d, items) && FindFence(d, 0) == -1
    requires forall k :: 0 <= k < |items| ==> IsQuestion(items[k])
    requires '`' !in lead && '{' !in lead && '[' !in lead && IsTag(tag) && AllBlank(blanks) && AllBlank(after)
    requires var raw := lead + FENCE + tag + blanks + d + after + FENCE + tail; cut <= |raw|
    ensures var raw, start := lead + FENCE + tag + blanks + d + after + FENCE + tail, |lead + FENCE + tag + blanks|;
      RawItems(raw[..cut]) == Before(ReplySpans(d, items), if cut < start then 0 else cut - start)
  {
    hide IsReply, IsQuestion, RawItems, ReplySpans, FindFence, Before;
    var raw, p := lead + FENCE + tag + blanks + d + after + FENCE + tail, Opening(lead, tag, blanks);
    var x := d + after + FENCE + tail;
    assert raw == p + x;
    ListWithin(d, items);
    if cut <= |p| {
      OpeningClear(lead, tag, blanks);
      assert raw[..cut] == p[..cut];
      NothingToRead(raw[..cut]);
      NoneBefore(d, items);
    } else if cut <= |p| + |d| {
      assert raw[..cut] == p + d[..cut - |p|];
      CutInside(d, items, lead, tag, blanks, cut - |p|);
    } else if cut < |p| + |d| + |after| + 3 {
      var k := cut - |p| - |d|;
      assert raw[..cut] == p + (d + (after + FENCE)[..k]);
      CutBetween(d, items, lead, tag, blanks, after, k);
      ListItems(d, items, cut - |p|);
    } else {
      var k := cut - |p| - |d| - |after| - 3;
      assert raw[..cut] == lead + FENCE + tag + blanks + d + after + FENCE + tail[..k];
      FencedReplyIsRead(d, items, lead, tag, blanks, after, tail[..k]);
      ListItems(d, items, cut - |p|);
    }
  }

  lemma NoneBefore(d: string, items: seq<Value>)
    requires IsReply(d, items)
    ensures Before(ReplySpans(d, items), 0) == []
  {
    hide ScanObject, ScanElements, ScanValue, ScanKey, SpansFrom;
    var (a, e) := ListSpan(d, items);
    var w := SkipSpace(d, a + 1);
    if d[w] != ']' {
      ElementsUnfold(d, w);
      SpansLieAfter(d, w, 0);
    }
  }
}
