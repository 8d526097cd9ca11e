/** What becomes of each file of an uploaded archive: `_scan_zip` in `rag/parse.py`, told file by file. */
module Parts {
  import opened Books
  import opened Chunking
  import opened Pages
  import opened Picking
  import opened Wrappers

  // The reader makes something of the file: of a PDF its extent, and its text when that is wanted.
  predicate Legible(m: Member, withText: bool) {
    if m.format == Some(Pdf) then m.extent.Some? && (withText ==> m.text.Some?) else m.text.Some?
  }

  // A file in a format for documents, an archive inside the archive apart.
  predicate Counts(m: Member) { m.format != None && m.format != Some(Archive) }

  predicate HasPages(m: Member) {
    Counts(m) && if m.format == Some(Pdf) then m.extent.Some? && m.extent.value.count > 0 else m.text.Some? && m.text.value != []
  }

  ghost function WithPages(members: seq<Member>): nat -> bool { (k: nat) => k < |members| && HasPages(members[k]) }

  lemma {:induction false} WalksIff(members: seq<Member>, withText: bool, cap: nat)
    ensures var all := ScanAll(members, withText, cap);
      && (all.Found? <==> Unpacked(members) <= cap && forall k :: 0 <= k < |members| && Counts(members[k]) ==> Legible(members[k], withText))
      && (all.Found? ==> all.scan.remaining == cap - Unpacked(members) && (all.scan.parts == [] <==> forall k :: 0 <= k < |members| ==> !HasPages(members[k])))
  {
    hide Size, Unpacked;
    if members == [] {
      assert Unpacked([]) == 0 by { NothingUnpacked(); }
    } else {
      var n := |members| - 1;
      WalksIff(members[..n], withText, cap);
      assert forall k :: 0 <= k < n ==> members[..n][k] == members[k];
      UnpackedNext(members);
    }
  }

  lemma NothingUnpacked()
    ensures Unpacked([]) == 0
  {
  }

  lemma {:induction false} UnpackedNext(members: seq<Member>)
    requires members != []
    ensures Unpacked(members) == Unpacked(members[..|members| - 1]) + Size(members[|members| - 1].blocks)
  {
  }

  /** An archive reads exactly when its files unpack to no more than the cap, every document in it can be
      read, and one of them has a page. */
  lemma {:induction false} ArchiveReadsIff(members: seq<Member>, withText: bool, cap: nat)
    ensures Book(members, withText, cap).Found?
       <==> Unpacked(members) <= cap && (forall k :: 0 <= k < |members| && Counts(members[k]) ==> Legible(members[k], withText))
            && exists k :: 0 <= k < |members| && HasPages(members[k])
  {
    hide ScanAll, Unpacked;
    WalksIff(members, withText, cap);
  }

  // The part stands for the file: its title, its pages where the file's come in the book, and each
  // entry of its outline on the page of the book that the file's entry is on.
  ghost predicate StandsFor(s: Scan, part: Part, m: Member) {
    && m.text.Some? && part.title == m.title && 1 <= part.pageStart && part.pageEnd == part.pageStart + |m.text.value| - 1 <= |s.pages|
    && (forall n :: 0 <= n < |m.text.value| ==> s.pages[part.pageStart - 1 + n].text == m.text.value[n].text)
    && if m.format == Some(Pdf) then m.extent.Some? && OutlineMoved(part, m.extent.value.tops) else part.outline == []
  }

  predicate OutlineMoved(part: Part, tops: seq<Top>) {
    |part.outline| == |tops| && forall i :: 0 <= i < |tops| ==> part.outline[i] == Top(tops[i].title, part.pageStart - 1 + tops[i].page)
  }

  lemma StandsOn(s: Scan, t: Scan, part: Part, m: Member)
    requires StandsFor(s, part, m) && s.pages <= t.pages
    ensures StandsFor(t, part, m)
  {
    assert forall n :: 0 <= n < |s.pages| ==> t.pages[n] == s.pages[n];
  }

  lemma NewPart(s: Scan, m: Member)
    requires WellPaged(m) && |s.pages| == s.offset && ScanOne(s, m, true).Found?
    ensures var t := ScanOne(s, m, true).scan;
      && s.pages <= t.pages && s.parts <= t.parts && |t.pages| == t.offset
      && if HasPages(m) then |t.parts| == |s.parts| + 1 && StandsFor(t, t.parts[|s.parts|], m) else t.parts == s.parts
  {
    hide Size;
    var t := ScanOne(s, m, true).scan;
    if HasPages(m) {
      var part := t.parts[|s.parts|];
      assert forall n :: 0 <= n < |m.text.value| ==> t.pages[part.pageStart - 1 + n].text == m.text.value[n].text;
    }
  }

  lemma {:induction false} PartsStand(members: seq<Member>, cap: nat) returns (at: seq<nat>)
    requires (forall k :: 0 <= k < |members| ==> WellPaged(members[k])) && ScanAll(members, true, cap).Found?
    ensures var s := ScanAll(members, true, cap).scan;
      && Picks(at, |members|, WithPages(members)) && |s.parts| == |at| && |s.pages| == s.offset
      && forall i :: 0 <= i < |at| ==> at[i] < |members| && StandsFor(s, s.parts[i], members[at[i]])
  {
    hide Picks, StandsFor, WellPaged, HasPages, ScanOne;
    if members == [] {
      at := [];
      PicksNone(WithPages(members));
    } else {
      var n := |members| - 1;
      var before := PartsStand(members[..n], cap);
      at := PicksNext(before, n, WithPages(members[..n]), WithPages(members));
      var s, t := ScanAll(members[..n], true, cap).scan, ScanAll(members, true, cap).scan;
      NewPart(s, members[n]);
      forall i | 0 <= i < |at| ensures at[i] < |members| && StandsFor(t, t.parts[i], members[at[i]]) {
        if i < |before| {
          assert t.parts[i] == s.parts[i];
          StandsOn(s, t, s.parts[i], members[..n][before[i]]);
        }
      }
    }
  }

  /** The parts of the book are the files that have pages, in their order, each standing for its file. */
  lemma PartsAreFiles(members: seq<Member>, cap: nat) returns (at: seq<nat>)
    requires (forall k :: 0 <= k < |members| ==> WellPaged(members[k])) && Book(members, true, cap).Found?
    ensures var s := Book(members, true, cap).scan;
      && Picks(at, |members|, WithPages(members)) && |s.parts| == |at|
      && forall i :: 0 <= i < |at| ==> at[i] < |members| && StandsFor(s, s.parts[i], members[at[i]])
  {
    hide ScanAll, Picks, StandsFor, WellPaged;
    at := PartsStand(members, cap);
  }
}
