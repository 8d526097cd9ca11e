/** Exactly which hits the narrowing leaves: when two passages overlap, which of them repeats which,
    and which hits are spread over the pages. */
module NarrowFacts {
  import opened Fusing
  import opened Narrowing
  import opened Picking
  import opened Sorting
  import opened Text
  import opened Wrappers

  // ------------------------------------------------------------------ overlapping

  // The spans of a text's words from a place on: they hold all that is not blank and nothing that is,
  // and something blank parts each two.
  ghost predicate AreWords(s: string, from: nat, spans: seq<(nat, nat)>) {
    && (forall i :: 0 <= i < |spans| ==> from <= spans[i].0 < spans[i].1 <= |s|)
    && (forall i, k :: 0 <= i < |spans| && spans[i].0 <= k < spans[i].1 ==> !IsBlank(s[k]))
    && (forall i, j :: 0 <= i < j < |spans| ==> spans[i].1 < spans[j].0)
    && (forall k :: from <= k < |s| && !IsBlank(s[k]) ==> exists i :: 0 <= i < |spans| && spans[i].0 <= k < spans[i].1)
  }

  lemma {:induction false} WordEndIs(s: string, i: nat)
    requires i <= |s|
    ensures forall k :: i <= k < WordEnd(s, i) ==> !IsBlank(s[k])
    ensures WordEnd(s, i) < |s| ==> IsBlank(s[WordEnd(s, i)])
    decreases |s| - i
  {
    if i < |s| && !IsBlank(s[i]) { WordEndIs(s, i + 1); }
  }

  lemma {:induction false} WordsFrom(s: string, from: nat) returns (spans: seq<(nat, nat)>)
    requires from <= |s|
    ensures AreWords(s, from, spans) && |Words(s[from..])| == |spans|
    ensures forall i :: 0 <= i < |spans| ==> spans[i].0 <= spans[i].1 <= |s| && Words(s[from..])[i] == s[spans[i].0..spans[i].1]
    decreases |s| - from
  {
    hide IsBlank, Words, AreWords;
    NextWord(s, from);
    if from == |s| {
      spans := [];
      NoWords(s, from);
    } else if IsBlank(s[from]) {
      spans := WordsFrom(s, from + 1);
      BlankSkipped(s, from, spans);
    } else {
      var end := from + WordEnd(s[from..], 1);
      var rest := WordsFrom(s, end);
      spans := [(from, end)] + rest;
      WordsOn(s, from, end, rest);
    }
  }

  // The split's next step, told by places.
  lemma NextWord(s: string, from: nat)
    requires from <= |s|
    ensures from == |s| ==> Words(s[from..]) == []
    ensures from < |s| && IsBlank(s[from]) ==> Words(s[from..]) == Words(s[from + 1..])
    ensures from < |s| && !IsBlank(s[from]) ==>
      var end := from + WordEnd(s[from..], 1);
      && from < end <= |s| && Words(s[from..]) == [s[from..end]] + Words(s[end..])
      && (forall k :: from <= k < end ==> !IsBlank(s[k])) && (end < |s| ==> IsBlank(s[end]))
  {
    hide IsBlank;
    var t := s[from..];
    if from < |s| {
      assert t[0] == s[from] && t[1..] == s[from + 1..];
      var length := WordEnd(t, 1);
      WordEndIs(t, 1);
      assert t[length..] == s[from + length..] && t[..length] == s[from..from + length];
      assert forall k :: from <= k < |s| ==> s[k] == t[k - from];
    }
  }

  lemma NoWords(s: string, from: nat)
    requires from == |s|
    ensures AreWords(s, from, [])
  {
  }

  lemma BlankSkipped(s: string, from: nat, spans: seq<(nat, nat)>)
    requires from < |s| && IsBlank(s[from]) && AreWords(s, from + 1, spans)
    ensures AreWords(s, from, spans)
  {
    hide IsBlank;
  }

  lemma WordsOn(s: string, from: nat, end: nat, rest: seq<(nat, nat)>)
    requires from < end <= |s| && AreWords(s, end, rest)
    requires (forall k :: from <= k < end ==> !IsBlank(s[k])) && (end < |s| ==> IsBlank(s[end]))
    ensures AreWords(s, from, [(from, end)] + rest)
  {
    hide IsBlank;
    var spans := [(from, end)] + rest;
    assert forall i :: 0 < i < |spans| ==> spans[i] == rest[i - 1];
    forall k | from <= k < |s| && !IsBlank(s[k]) ensures exists i :: 0 <= i < |spans| && spans[i].0 <= k < spans[i].1 {
      if k < end {
        assert spans[0].0 <= k < spans[0].1;
      } else {
        var i :| 0 <= i < |rest| && rest[i].0 <= k < rest[i].1;
        assert spans[i + 1] == rest[i];
      }
    }
  }

  /** A text's words are its longest stretches without white space, in order. */
  lemma WordsAre(s: string) returns (spans: seq<(nat, nat)>)
    ensures AreWords(s, 0, spans) && |Words(s)| == |spans|
    ensures forall i :: 0 <= i < |spans| ==> spans[i].0 <= spans[i].1 <= |s| && Words(s)[i] == s[spans[i].0..spans[i].1]
  {
    hide AreWords, Words;
    assert s[0..] == s;
    spans := WordsFrom(s, 0);
  }

  // The characters of a stand together in b.
  ghost predicate Inside(a: string, b: string) { exists i :: OccursAt(a, b, i) }

  predicate OccursAt(a: string, b: string, i: int) { 0 <= i <= |b| - |a| && b[i..i + |a|] == a }

  lemma WithinIs(a: string, b: string)
    ensures Within(a, b) <==> Inside(a, b)
  {
    if Within(a, b) {
      var i :| 0 <= i <= |b| && a <= b[i..];
      assert OccursAt(a, b, i);
    }
    if Inside(a, b) {
      var i :| OccursAt(a, b, i);
      assert b[i..][..|a|] == a;
    }
  }

  // The one has the other, or two hundred characters of an end of it.
  ghost predicate HasEnd(a: string, b: string) {
    Inside(a, b) || (|a| >= 200 && (Inside(a[..200], b) || Inside(a[|a| - 200..], b)))
  }

  /** Two passages overlap exactly when, with single spaces for white space, neither is empty and one
      has the whole of the other or either end of it, two hundred characters long. */
  lemma {:induction false} OverlapsIff(left: string, right: string)
    ensures var a, b := Join(Words(left), " "), Join(Words(right), " ");
      Overlaps(left, right) <==> a != "" && b != "" && (HasEnd(a, b) || HasEnd(b, a))
  {
    hide Join, Words, Within, Inside;
    var a, b := Join(Words(left), " "), Join(Words(right), " ");
    WithinIs(a, b);
    WithinIs(b, a);
    if |a| >= 200 {
      WithinIs(a[..200], b);
      WithinIs(a[|a| - 200..], b);
    }
    if |b| >= 200 {
      WithinIs(b[..200], a);
      WithinIs(b[|b| - 200..], a);
    }
  }

  // --------------------------------------------------------------------- dropping

  // The same page of the same book, or the same words.
  predicate Alike(g: Hit, h: Hit) {
    (g.page != None && g.page == h.page && g.book == h.book) || Overlaps(g.text, h.text)
  }

  // The hit is alike none of those at the places before it.
  ghost predicate Stays(hits: seq<Hit>, at: seq<nat>, n: nat)
    requires n < |hits|
  {
    forall i :: 0 <= i < |at| && at[i] < n ==> !Alike(hits[at[i]], hits[n])
  }

  /** Of the hits, in their order, just those stay that are not alike any that stayed before them. */
  lemma {:induction false} DedupedIs(hits: seq<Hit>) returns (at: seq<nat>)
    ensures Selects(hits, at, Deduped(hits))
    ensures forall n :: 0 <= n < |hits| ==> (n in at <==> Stays(hits, at, n))
  {
    hide Stays, AnyRepeats, Deduped;
    if hits == [] {
      NoneDeduped();
      at := [];
    } else {
      var n := |hits| - 1;
      var before := DedupedIs(hits[..n]);
      at := before + if Stays(hits, before, n) then [n] else [];
      DedupedNext(hits, n);
      RepeatsIs(Deduped(hits[..n]), before, hits, n);
      forall m | 0 <= m < |hits| ensures m in at <==> Stays(hits, at, m) { StaysOn(hits, before, at, m); }
    }
  }

  lemma NoneDeduped()
    ensures Deduped([]) == []
  {
  }

  lemma {:induction false} DedupedNext(hits: seq<Hit>, n: nat)
    requires n == |hits| - 1
    ensures Deduped(hits) == Deduped(hits[..n]) + if AnyRepeats(Deduped(hits[..n]), hits[n]) then [] else [hits[n]]
  {
  }

  lemma RepeatsIs(kept: seq<Hit>, before: seq<nat>, hits: seq<Hit>, n: nat)
    requires n < |hits| && |kept| == |before| && forall i :: 0 <= i < |kept| ==> before[i] < n && kept[i] == hits[before[i]]
    ensures AnyRepeats(kept, hits[n]) <==> !Stays(hits, before, n)
  {
    hide Overlaps;
    if !Stays(hits, before, n) {
      var i :| 0 <= i < |before| && before[i] < n && Alike(hits[before[i]], hits[n]);
      assert Repeats(kept[i], hits[n]);
    }
  }

  lemma StaysOn(hits: seq<Hit>, before: seq<nat>, at: seq<nat>, m: nat)
    requires m < |hits| && var n := |hits| - 1;
      (forall i :: 0 <= i < |before| ==> before[i] < n) && (at == before || at == before + [n])
    ensures Stays(hits, at, m) <==> Stays(hits, before, m)
    ensures m < |hits| - 1 ==> (Stays(hits, before, m) <==> Stays(hits[..|hits| - 1], before, m)) && (m in at <==> m in before)
  {
    hide Alike;
    assert forall i :: 0 <= i < |before| ==> at[i] == before[i];
  }

  // --------------------------------------------------------------------- spreading

  // The hit is the first of its page of its book.
  ghost predicate NewPage(hits: seq<Hit>, k: nat) {
    k < |hits| && forall j :: 0 <= j < k ==> hits[j].page != hits[k].page || hits[j].book != hits[k].book
  }

  ghost predicate OldPage(hits: seq<Hit>, k: nat) { k < |hits| && !NewPage(hits, k) }

  ghost function News(hits: seq<Hit>): nat -> bool { (k: nat) => NewPage(hits, k) }

  ghost function Olds(hits: seq<Hit>): nat -> bool { (k: nat) => OldPage(hits, k) }

  lemma {:induction false} FirstsAre(hits: seq<Hit>, n: nat)
    requires n <= |hits|
    ensures Picks(Firsts(hits, n), n, News(hits))
  {
    hide Picks;
    if n == 0 {
      PicksNone(News(hits));
    } else {
      FirstsAre(hits, n - 1);
      SeenIs(hits, n - 1);
      var at := PicksNext(Firsts(hits, n - 1), n - 1, News(hits), News(hits));
    }
  }

  lemma {:induction false} OthersAre(hits: seq<Hit>, n: nat)
    requires n <= |hits|
    ensures Picks(Others(hits, n), n, Olds(hits))
  {
    hide Picks;
    if n == 0 {
      PicksNone(Olds(hits));
    } else {
      OthersAre(hits, n - 1);
      SeenIs(hits, n - 1);
      var at := PicksNext(Others(hits, n - 1), n - 1, Olds(hits), Olds(hits));
    }
  }

  lemma SeenIs(hits: seq<Hit>, n: nat)
    requires n < |hits|
    ensures KeySeen(hits, n) <==> !NewPage(hits, n)
  {
  }

  // A hit is spread: the first of its page among as many as fit, or another among those that fill the
  // room left.
  ghost predicate Placed(hits: seq<Hit>, limit: nat, k: nat) {
    var pages := Earlier(|hits|, News(hits));
    if NewPage(hits, k) then |Earlier(k, News(hits))| < limit
    else k < |hits| && |pages| < limit && |Earlier(k, Olds(hits))| < limit - |pages|
  }

  /** More hits than the limit are spread so, in their order: the first hits of as many pages as fit;
      then, if there is room, the earliest of the others. */
  lemma SpreadIs(hits: seq<Hit>, limit: int) returns (at: seq<nat>)
    requires 0 < limit < |hits|
    ensures Picks(at, |hits|, (k: nat) => Placed(hits, limit, k)) && Selects(hits, at, Spread(hits, limit))
  {
    hide Firsts, Others, Sort, NewPage, OldPage, Apart, Earlier, Picks;
    ChosenPlaces(hits, limit);
    at := Chosen(hits, limit);
    forall k: nat ensures k in at <==> k < |hits| && Placed(hits, limit, k) { ChosenIff(hits, limit, k); }
    assert Picks(at, |hits|, (k: nat) => Placed(hits, limit, k)) by { ArePicks(at, hits, limit); }
  }

  lemma ArePicks(at: seq<nat>, hits: seq<Hit>, limit: int)
    requires limit > 0 && Places(at, |hits|) && forall k: nat :: k in at <==> k < |hits| && Placed(hits, limit, k)
    ensures Picks(at, |hits|, (k: nat) => Placed(hits, limit, k))
  {
    hide Placed;
  }

  lemma ChosenIff(hits: seq<Hit>, limit: int, k: nat)
    requires 0 < limit < |hits|
    ensures k in Chosen(hits, limit) <==> k < |hits| && Placed(hits, limit, k)
  {
    hide Firsts, Others, Sort, NewPage, Apart, Earlier, Picks;
    var n, firsts, others := |hits|, Firsts(hits, |hits|), Others(hits, |hits|);
    FirstsAre(hits, n);
    OthersAre(hits, n);
    CountAll(firsts, n, News(hits));
    CountAll(others, n, Olds(hits));
    if k < n && NewPage(hits, k) { FewerEarlier(k, n, News(hits)); }
    if k < n && OldPage(hits, k) { FewerEarlier(k, n, Olds(hits)); }
    if limit <= |firsts| {
      AmongFirst(firsts, n, News(hits), limit, k);
    } else {
      var m := limit - |firsts|;
      FilledApart(hits, limit);
      SortedApart(Filled(hits, limit));
      AmongFirst(firsts, n, News(hits), |firsts|, k);
      assert firsts[..|firsts|] == firsts;
      AmongFirst(others, n, Olds(hits), if m < |others| then m else |others|, k);
      assert UpTo(others, m) == others[..if m < |others| then m else |others|];
    }
  }
}
