/** Cutting a passage down to the sentences that answer: `excerpt` in `rag/trim.py`. How text
    splits into sentences and into words are parameters. */
module Excerpt {
  import opened Text

  // `_score`: how many of the question's terms a sentence has.
  function Score(words: set<string>, terms: set<string>): nat { |terms * words| }

  lemma ScoreCounts(words: set<string>, terms: set<string>)
    ensures Score(words, terms) == |set t | t in terms && t in words|
  {
    assert (set t | t in terms && t in words) == terms * words;
  }

  function Total(xs: seq<nat>, start: nat, end: nat): nat
    requires start <= end <= |xs|
    decreases end
  {
    if start == end then 0 else Total(xs, start, end - 1) + xs[end - 1]
  }

  // A run the budget allows: one sentence, or several that cost no more.
  predicate Fits(costs: seq<nat>, start: nat, end: nat, maxTokens: nat)
    requires start < end <= |costs|
  {
    end == start + 1 || Total(costs, start, end) <= maxTokens
  }

  datatype Window = Window(start: nat, end: nat)

  // a is chosen over b: it scores more, or as much from an earlier start, or an earlier end.
  predicate Beats(scores: seq<nat>, a: Window, b: Window)
    requires a.start < a.end <= |scores| && b.start < b.end <= |scores|
  {
    var sa, sb := Total(scores, a.start, a.end), Total(scores, b.start, b.end);
    sa > sb || (sa == sb && (a.start < b.start || (a.start == b.start && a.end <= b.end)))
  }

  // The windows looked at before the one at (start, end).
  predicate Sooner(start: nat, end: nat, w: Window) { w.start < start || (w.start == start && w.end < end) }

  ghost predicate BestOf(costs: seq<nat>, scores: seq<nat>, maxTokens: nat, best: Window, start: nat, end: nat)
    requires |costs| == |scores|
  {
    && best.start < best.end <= |costs| && Fits(costs, best.start, best.end, maxTokens) && Sooner(start, end, best)
    && forall w: Window :: w.start < w.end <= |costs| && Sooner(start, end, w) && Fits(costs, w.start, w.end, maxTokens) ==> Beats(scores, best, w)
  }

  // The window search's answer: it fits, and beats every window that does.
  ghost predicate Best(costs: seq<nat>, scores: seq<nat>, maxTokens: nat, best: Window)
    requires |costs| == |scores|
  {
    && best.start < best.end <= |costs| && Fits(costs, best.start, best.end, maxTokens)
    && forall w: Window :: w.start < w.end <= |costs| && Fits(costs, w.start, w.end, maxTokens) ==> Beats(scores, best, w)
  }

  lemma {:induction false} TotalGrows(xs: seq<nat>, start: nat, end: nat, further: nat)
    requires start <= end <= further <= |xs|
    ensures Total(xs, start, end) <= Total(xs, start, further)
    decreases further
  {
    if end < further { TotalGrows(xs, start, end, further - 1); }
  }

  method Search(costs: seq<nat>, scores: seq<nat>, maxTokens: nat) returns (best: Window)
    requires |costs| == |scores| && costs != []
    ensures Best(costs, scores, maxTokens, best)
  {
    hide Beats, Fits;
    var bestScore: int := -1;
    best := Window(0, 0);
    for start := 0 to |costs|
      invariant start == 0 ==> bestScore == -1
      invariant start > 0 ==> BestOf(costs, scores, maxTokens, best, start, 0) && bestScore == Total(scores, best.start, best.end)
    {
      bestScore, best := SearchFrom(costs, scores, maxTokens, start, bestScore, best);
    }
  }

  // The inner loop: the windows that begin at `start`.
  method SearchFrom(costs: seq<nat>, scores: seq<nat>, maxTokens: nat, start: nat, bestScore0: int, best0: Window) returns (bestScore: int, best: Window)
    requires |costs| == |scores| && start < |costs|
    requires start == 0 ==> bestScore0 == -1
    requires start > 0 ==> BestOf(costs, scores, maxTokens, best0, start, 0) && bestScore0 == Total(scores, best0.start, best0.end)
    ensures BestOf(costs, scores, maxTokens, best, start + 1, 0) && bestScore == Total(scores, best.start, best.end)
  {
    bestScore, best := bestScore0, best0;
    var totalCost, totalScore := 0, 0;
    var end := start;
    while end < |costs|
      invariant start <= end <= |costs|
      invariant totalCost == Total(costs, start, end) && totalScore == Total(scores, start, end)
      invariant bestScore == -1 <==> start == 0 && end == 0
      invariant bestScore != -1 ==> BestOf(costs, scores, maxTokens, best, start, end + 1) && bestScore == Total(scores, best.start, best.end)
    {
      totalCost := totalCost + costs[end];
      if totalCost > maxTokens && end > start {
        NoneFurther(costs, scores, maxTokens, best, start, end);
        return;
      }
      totalScore := totalScore + scores[end];
      ghost var was := best;
      if totalScore > bestScore {
        best, bestScore := Window(start, end + 1), totalScore;
      }
      Considered(costs, scores, maxTokens, was, best, start, end);
      end := end + 1;
    }
    NoneLeft(costs, scores, maxTokens, best, start);
  }

  // Past the first window that is too dear, none from the same start fits.
  lemma NoneFurther(costs: seq<nat>, scores: seq<nat>, maxTokens: nat, best: Window, start: nat, end: nat)
    requires |costs| == |scores| && start < end < |costs| && Total(costs, start, end + 1) > maxTokens
    requires BestOf(costs, scores, maxTokens, best, start, end + 1)
    ensures BestOf(costs, scores, maxTokens, best, start + 1, 0)
  {
    hide Beats;
    forall w: Window | w.start < w.end <= |costs| && Sooner(start + 1, 0, w) && Fits(costs, w.start, w.end, maxTokens) ensures Beats(scores, best, w) {
      if w.start == start && w.end > end { TotalGrows(costs, start, end + 1, w.end); }
    }
  }

  lemma NoneLeft(costs: seq<nat>, scores: seq<nat>, maxTokens: nat, best: Window, start: nat)
    requires |costs| == |scores| && start < |costs|
    requires BestOf(costs, scores, maxTokens, best, start, |costs| + 1)
    ensures BestOf(costs, scores, maxTokens, best, start + 1, 0)
  {
    hide Beats, Fits;
  }

  // One more window looked at: the new best is it, or the old one.
  lemma Considered(costs: seq<nat>, scores: seq<nat>, maxTokens: nat, was: Window, best: Window, start: nat, end: nat)
    requires |costs| == |scores| && start <= end < |costs| && Fits(costs, start, end + 1, maxTokens)
    requires !(start == 0 && end == 0) ==> BestOf(costs, scores, maxTokens, was, start, end + 1)
    requires start == 0 && end == 0 ==> best == Window(0, 1)
    requires !(start == 0 && end == 0) ==> best == if Total(scores, start, end + 1) > Total(scores, was.start, was.end) then Window(start, end + 1) else was
    ensures BestOf(costs, scores, maxTokens, best, start, end + 2)
  {
    hide Total, Fits;
    forall w: Window | w.start < w.end <= |costs| && Sooner(start, end + 2, w) && Fits(costs, w.start, w.end, maxTokens) ensures Beats(scores, best, w) {
      if w == Window(start, end + 1) {
      } else {
        assert Sooner(start, end + 1, w);
      }
    }
  }

  // -------------------------------------------------------------------- the excerpt

  const ELLIPSIS := "\U{2026}"

  // `s.rsplit(" ", 1)[0]`
  function BeforeLastSpace(s: string): (r: string)
    ensures r <= s && (r == s || s[|r|] == ' ')
  {
    LastSpace(s, |s|, s)
  }

  function LastSpace(s: string, n: nat, otherwise: string): (r: string)
    requires n <= |s| && otherwise <= s && (otherwise == s || s[|otherwise|] == ' ')
    ensures r <= s && (r == s || s[|r|] == ' ')
  {
    if n == 0 then otherwise else if s[n - 1] == ' ' then s[..n - 1] else LastSpace(s, n - 1, otherwise)
  }

  function HeadOf(text: string, maxTokens: nat): string {
    var limit := if maxTokens * CHARS_PER_TOKEN < |text| then maxTokens * CHARS_PER_TOKEN else |text|;
    var head := RStrip(BeforeLastSpace(text[..limit]));
    if head != "" then head + " " + ELLIPSIS else text[..limit]
  }

  function Costs(sentences: seq<string>): (r: seq<nat>)
    ensures |r| == |sentences|
  {
    seq(|sentences|, i requires 0 <= i < |sentences| => Estimate(sentences[i]))
  }

  function Scores(sentences: seq<string>, terms: set<string>, words: string -> set<string>): (r: seq<nat>)
    ensures |r| == |sentences|
  {
    seq(|sentences|, i requires 0 <= i < |sentences| => Score(words(sentences[i]), terms))
  }

  function Rendered(text: string, sentences: seq<string>, w: Window): string
    requires w.start < w.end <= |sentences|
  {
    if w.start == 0 && w.end == |sentences| then text
    else
      (if w.start > 0 then ELLIPSIS + " " else "") + Join(sentences[w.start..w.end], " ")
      + (if w.end < |sentences| then " " + ELLIPSIS else "")
  }

  // What an excerpt is: the passage itself when it is inside the budget, its head when it has
  // no second sentence, and otherwise the best window.
  ghost predicate IsExcerpt(r: string, text: string, sentences: seq<string>, terms: set<string>, words: string -> set<string>, maxTokens: int) {
    if maxTokens <= 0 || Estimate(text) <= maxTokens then r == text
    else if |sentences| <= 1 then r == HeadOf(text, maxTokens)
    else exists w: Window :: Best(Costs(sentences), Scores(sentences, terms, words), maxTokens, w) && r == Rendered(text, sentences, w)
  }

  method Cut(text: string, terms: set<string>, maxTokens: int, split: string -> seq<string>, words: string -> set<string>) returns (r: string)
    ensures IsExcerpt(r, text, split(text), terms, words, maxTokens)
  {
    if maxTokens <= 0 || Estimate(text) <= maxTokens { return text; }
    var sentences := split(text);
    if |sentences| <= 1 { return HeadOf(text, maxTokens); }
    hide Rendered, Costs, Scores, Estimate;
    var best := Search(Costs(sentences), Scores(sentences, terms, words), maxTokens);
    r := Rendered(text, sentences, best);
  }

  /** A passage with no second sentence is cut inside the budget: at the last space within it, if there
      is one, with white space before that trimmed and the cut marked; where that leaves nothing, it is
      cut at the budget. */
  lemma HeadIsWithin(text: string, maxTokens: nat) returns (n: nat, m: nat)
    requires maxTokens > 0 && Estimate(text) > maxTokens
    ensures n <= m <= maxTokens * CHARS_PER_TOKEN < |text| && forall k :: n <= k < m ==> IsBlank(text[k])
    ensures if m < maxTokens * CHARS_PER_TOKEN then text[m] == ' ' && forall k :: m < k < maxTokens * CHARS_PER_TOKEN ==> text[k] != ' '
            else forall k :: 0 <= k < m ==> text[k] != ' '
    ensures HeadOf(text, maxTokens) == if n > 0 then text[..n] + " " + ELLIPSIS else text[..maxTokens * CHARS_PER_TOKEN]
    ensures n > 0 ==> !IsBlank(text[n - 1])
  {
    hide BeforeLastSpace, RStrip;
    var cut := text[..maxTokens * CHARS_PER_TOKEN];
    var before := BeforeLastSpace(cut);
    BeforeIs(cut);
    m := |before|;
    n := |RStrip(before)|;
    assert before == text[..m] && RStrip(before) == text[..n];
  }

  lemma BeforeIs(s: string)
    ensures var r := BeforeLastSpace(s);
      r <= s && if r == s then forall k :: 0 <= k < |s| ==> s[k] != ' ' else s[|r|] == ' ' && forall k :: |r| < k < |s| ==> s[k] != ' '
  {
    hide LastSpace;
    LastSpaceIs(s, |s|, s);
  }

  lemma {:induction false} LastSpaceIs(s: string, n: nat, otherwise: string)
    requires n <= |s| && otherwise == s && forall k :: n <= k < |s| ==> s[k] != ' '
    ensures var r := LastSpace(s, n, otherwise);
      if r == s then forall k :: 0 <= k < |s| ==> s[k] != ' ' else s[|r|] == ' ' && forall k :: |r| < k < |s| ==> s[k] != ' '
  {
    if n > 0 && s[n - 1] != ' ' { LastSpaceIs(s, n - 1, otherwise); }
  }

  /** The window is settled by the passage and the question: no two answer the search. */
  lemma BestIsUnique(costs: seq<nat>, scores: seq<nat>, maxTokens: nat, a: Window, b: Window)
    requires |costs| == |scores| && Best(costs, scores, maxTokens, a) && Best(costs, scores, maxTokens, b)
    ensures a == b
  {
    hide Total;
    assert Beats(scores, a, b) && Beats(scores, b, a);
  }

  // A last sentence that scores nothing is better left out.
  lemma ShorterWins(costs: seq<nat>, scores: seq<nat>, maxTokens: nat, w: Window)
    requires |costs| == |scores| && w.start + 1 < w.end <= |costs| && Fits(costs, w.start, w.end, maxTokens) && scores[w.end - 1] == 0
    ensures Fits(costs, w.start, w.end - 1, maxTokens) && !Beats(scores, w, Window(w.start, w.end - 1))
  {
  }

  /** The window ends on a sentence that shares a term with the question; when no sentence does,
      it is the passage's first sentence alone, whatever else would fit. */
  lemma EndsOnAMatch(costs: seq<nat>, scores: seq<nat>, maxTokens: nat, w: Window)
    requires |costs| == |scores| && Best(costs, scores, maxTokens, w)
    ensures scores[w.end - 1] > 0 || w == Window(0, 1)
    ensures (forall k :: 0 <= k < |scores| ==> scores[k] == 0) ==> w == Window(0, 1)
  {
    if scores[w.end - 1] == 0 {
      if w.end > w.start + 1 {
        ShorterWins(costs, scores, maxTokens, w);
      } else {
        assert Total(scores, w.start, w.end - 1) == 0 && Total(scores, w.start, w.end) == 0;
        assert Fits(costs, 0, 1, maxTokens);
        assert Beats(scores, w, Window(0, 1));
      }
    }
  }

  lemma {:induction false} SpacedLength(sentences: seq<string>, start: nat, end: nat)
    requires start < end <= |sentences|
    ensures |Join(sentences[start..end], " ")| <= 4 * Total(Costs(sentences), start, end) + 4 * (end - start) - 1
    ensures end - start <= Total(Costs(sentences), start, end)
    decreases end
  {
    if end == start + 1 {
      assert sentences[start..end] == [sentences[start]];
    } else {
      SpacedLength(sentences, start, end - 1);
      assert sentences[start..end][..end - 1 - start] == sentences[start..end - 1];
    }
  }

  // ------------------------------------------------------- what is handed on measures

  function Lengths(sentences: seq<string>): (r: seq<nat>)
    ensures |r| == |sentences|
  {
    seq(|sentences|, i requires 0 <= i < |sentences| => |sentences[i]|)
  }

  predicate IsWhole(sentences: seq<string>, w: Window) { w.start == 0 && w.end == |sentences| }

  // The characters of a window handed on: its sentences', one for each join, two for each ellipsis.
  function Characters(sentences: seq<string>, w: Window): nat
    requires w.start < w.end <= |sentences|
  {
    Total(Lengths(sentences), w.start, w.end) + (w.end - w.start - 1)
    + (if w.start > 0 then 2 else 0) + (if w.end < |sentences| then 2 else 0)
  }

  lemma {:induction false} JoinedLength(sentences: seq<string>, start: nat, end: nat)
    requires start < end <= |sentences|
    ensures |Join(sentences[start..end], " ")| == Total(Lengths(sentences), start, end) + (end - start - 1)
    decreases end
  {
    if end == start + 1 {
      assert sentences[start..end] == [sentences[start]];
      assert Total(Lengths(sentences), start, start) == 0;
    } else {
      JoinedLength(sentences, start, end - 1);
      assert sentences[start..end][..end - 1 - start] == sentences[start..end - 1];
    }
  }

  lemma RenderedLength(text: string, sentences: seq<string>, w: Window)
    requires w.start < w.end <= |sentences| && !IsWhole(sentences, w)
    ensures |Rendered(text, sentences, w)| == Characters(sentences, w)
  {
    hide Join, Total, Lengths;
    JoinedLength(sentences, w.start, w.end);
  }

  // Where the k-th sentence begins among those joined from `start` on.
  function Offset(sentences: seq<string>, start: nat, k: nat): nat
    requires start <= k <= |sentences|
  {
    Total(Lengths(sentences), start, k) + (k - start)
  }

  lemma {:induction false} JoinedAt(sentences: seq<string>, start: nat, end: nat, k: nat)
    requires start <= k < end <= |sentences|
    ensures var r, at := Join(sentences[start..end], " "), Offset(sentences, start, k);
      k - start <= at && at + |sentences[k]| <= |r| && r[at..at + |sentences[k]|] == sentences[k] && (k > start ==> r[at - 1] == ' ')
    decreases end
  {
    var parts := sentences[start..end];
    JoinedLength(sentences, start, end);
    if end > start + 1 {
      var rest := sentences[start..end - 1];
      assert parts[..|parts| - 1] == rest && parts[|parts| - 1] == sentences[end - 1];
      assert Join(parts, " ") == Join(rest, " ") + " " + sentences[end - 1];
      JoinedLength(sentences, start, end - 1);
      if k < end - 1 { JoinedAt(sentences, start, end - 1, k); }
    }
  }

  /** What is handed on of part of a passage: its sentences in their order, a space before each but the
      first, opened by an ellipsis when something comes before them and closed by one when something
      comes after. */
  lemma RenderedReads(text: string, sentences: seq<string>, w: Window, k: nat)
    requires w.start <= k < w.end <= |sentences| && !IsWhole(sentences, w)
    ensures var r := Rendered(text, sentences, w);
      var at := (if w.start > 0 then 2 else 0) + Offset(sentences, w.start, k);
      && |r| == Characters(sentences, w) && at + |sentences[k]| <= |r| && r[at..at + |sentences[k]|] == sentences[k]
      && (k > w.start ==> r[at - 1] == ' ')
      && (w.start > 0 ==> r[..2] == ELLIPSIS + " ") && (w.end < |sentences| ==> r[|r| - 2..] == " " + ELLIPSIS)
  {
    hide Join, Total, Offset, Characters, Lengths, Estimate;
    RenderedLength(text, sentences, w);
    JoinedAt(sentences, w.start, w.end, k);
    var front, back := if w.start > 0 then ELLIPSIS + " " else "", if w.end < |sentences| then " " + ELLIPSIS else "";
    Within(front, Join(sentences[w.start..w.end], " "), back, Offset(sentences, w.start, k), sentences[k]);
  }

  lemma Within(front: string, joined: string, back: string, at: nat, part: string)
    requires at + |part| <= |joined| && joined[at..at + |part|] == part
    ensures var r := front + joined + back;
      && r[|front| + at..|front| + at + |part|] == part && (at > 0 ==> r[|front| + at - 1] == joined[at - 1])
      && r[..|front|] == front && r[|r| - |back|..] == back
  {
    var r := front + joined + back;
    assert r[|front|..|front| + |joined|] == joined;
    assert r[|front| + at..|front| + at + |part|] == joined[at..at + |part|];
  }

  /** Of a passage over the budget, what the search hands on is inside it exactly when the window is
      not the whole passage and its characters, joins and ellipses counted, come to no more. */
  lemma WithinBudgetIff(text: string, sentences: seq<string>, w: Window, maxTokens: nat)
    requires w.start < w.end <= |sentences| && Estimate(text) > maxTokens > 0
    ensures Estimate(Rendered(text, sentences, w)) <= maxTokens
       <==> !IsWhole(sentences, w) && Characters(sentences, w) < CHARS_PER_TOKEN * (maxTokens + 1)
  {
    hide Characters;
    if !IsWhole(sentences, w) {
      hide Rendered;
      RenderedLength(text, sentences, w);
    }
  }

  /** The search charges neither rounding nor joins nor ellipses: part of a passage can measure up to
      a token more for each sentence than it was charged. Several sentences so come to at most
      twice the budget; when they leave a token for each, they are inside it. */
  lemma ExcerptMeasures(text: string, sentences: seq<string>, w: Window, maxTokens: nat)
    requires w.start < w.end <= |sentences| && !IsWhole(sentences, w)
    requires Fits(Costs(sentences), w.start, w.end, maxTokens)
    ensures var cost, r := Total(Costs(sentences), w.start, w.end), Estimate(Rendered(text, sentences, w));
      && r <= cost + (w.end - w.start)
      && (w.end > w.start + 1 ==> r <= 2 * maxTokens)
      && (cost + (w.end - w.start) <= maxTokens ==> r <= maxTokens)
  {
    hide Join, Costs, Total;
    SpacedLength(sentences, w.start, w.end);
  }

  // A sentence over and over, between two others.
  function Between(edge: string, sentence: string, n: nat): (r: seq<string>)
    ensures |r| == n + 2 && r[0] == edge && r[n + 1] == edge && forall k :: 0 < k <= n ==> r[k] == sentence
  {
    [edge] + seq(n, _ => sentence) + [edge]
  }

  // A middle of n that score one each.
  function MiddleScores(n: nat): (r: seq<nat>)
    ensures |r| == n + 2 && r[0] == 0 && r[n + 1] == 0 && forall k :: 0 < k <= n ==> r[k] == 1
  {
    [0] + seq(n, _ => 1) + [0]
  }

  lemma {:induction false} EqualTotals(xs: seq<nat>, x: nat, start: nat, end: nat)
    requires start <= end <= |xs| && forall k :: start <= k < end ==> xs[k] == x
    ensures Total(xs, start, end) == x * (end - start)
    decreases end
  {
    if start < end {
      EqualTotals(xs, x, start, end - 1);
      assert x * (end - start) == x * (end - 1 - start) + x;
    }
  }

  // At most one for each sentence, and one less for each end that reaches past the middle.
  lemma {:induction false} MiddleTotals(n: nat, start: nat, end: nat)
    requires start <= end <= n + 2
    ensures Total(MiddleScores(n), start, end) <= end - start
    ensures start < end && (start == 0 || end == n + 2) ==> Total(MiddleScores(n), start, end) < end - start
    decreases end
  {
    if start < end { MiddleTotals(n, start, end - 1); }
  }

  /** Twice the budget is reached, whatever the budget: that many sentences of seven characters that
      share a term with the question, cut from between two that share none, cost the budget and
      measure two tokens each. */
  lemma TwiceTheBudgetIsReached(maxTokens: nat, edge: string, sentence: string, terms: set<string>, words: string -> set<string>)
    requires maxTokens > 0 && |sentence| == |edge| == 7 && Score(words(sentence), terms) == 1 && Score(words(edge), terms) == 0
    ensures var sentences := Between(edge, sentence, maxTokens);
      var r := Rendered(Join(sentences, " "), sentences, Window(1, maxTokens + 1));
      IsExcerpt(r, Join(sentences, " "), sentences, terms, words, maxTokens) && Estimate(r) == 2 * maxTokens
  {
    hide Total, Join, Rendered, Between, MiddleScores, Score, Fits, Beats;
    var n, sentences, w := maxTokens, Between(edge, sentence, maxTokens), Window(1, maxTokens + 1);
    assert sentences[0..|sentences|] == sentences;
    JoinedLength(sentences, 0, |sentences|);
    EqualTotals(Lengths(sentences), 7, 0, |sentences|);
    EqualTotals(Lengths(sentences), 7, 1, n + 1);
    assert Scores(sentences, terms, words) == MiddleScores(n);
    MiddleIsBest(Costs(sentences), n);
    RenderedLength(Join(sentences, " "), sentences, w);
    assert Best(Costs(sentences), Scores(sentences, terms, words), n, w);
  }

  lemma MiddleIsBest(costs: seq<nat>, n: nat)
    requires n > 0 && |costs| == n + 2 && forall k :: 0 <= k < n + 2 ==> costs[k] == 1
    ensures Best(costs, MiddleScores(n), n, Window(1, n + 1))
  {
    hide Total, MiddleScores;
    var scores, w := MiddleScores(n), Window(1, n + 1);
    EqualTotals(costs, 1, 1, n + 1);
    EqualTotals(scores, 1, 1, n + 1);
    forall v: Window | v.start < v.end <= n + 2 && Fits(costs, v.start, v.end, n) ensures Beats(scores, w, v) {
      EqualTotals(costs, 1, v.start, v.end);
      MiddleTotals(n, v.start, v.end);
    }
  }

  /** One sentence has no bound at all: whatever the budget, a first sentence that alone shares a term
      with the question is handed on however long it is. */
  lemma OneSentenceIsUnbounded(maxTokens: nat, first: string, second: string, terms: set<string>, words: string -> set<string>)
    requires maxTokens > 0 && Estimate(Join([first, second], " ")) > maxTokens
    requires Score(words(first), terms) > 0 && Score(words(second), terms) == 0
    ensures var r := Rendered(Join([first, second], " "), [first, second], Window(0, 1));
      IsExcerpt(r, Join([first, second], " "), [first, second], terms, words, maxTokens) && |r| == |first| + 2
  {
    hide Score;
    var sentences, w := [first, second], Window(0, 1);
    var costs, scores := Costs(sentences), Scores(sentences, terms, words);
    assert Total(scores, 0, 1) == scores[0] && Total(scores, 0, 2) == scores[0] && Total(scores, 1, 2) == 0;
    forall v: Window | v.start < v.end <= 2 && Fits(costs, v.start, v.end, maxTokens) ensures Beats(scores, w, v) {
      assert v == Window(0, 1) || v == Window(0, 2) || v == Window(1, 2);
    }
    assert sentences[0..1] == [first];
    assert Best(costs, scores, maxTokens, w);
  }

  lemma {:induction false} TotalSplits(xs: seq<nat>, start: nat, mid: nat, end: nat)
    requires start <= mid <= end <= |xs|
    ensures Total(xs, start, end) == Total(xs, start, mid) + Total(xs, mid, end)
    decreases end
  {
    if mid < end { TotalSplits(xs, start, mid, end - 1); }
  }

  /** Of several sentences the best window is all of them exactly when they fit together and the last
      shares a term with the question. */
  lemma {:induction false} WholeIsBestIff(costs: seq<nat>, scores: seq<nat>, maxTokens: nat)
    requires |costs| == |scores| >= 2
    ensures Best(costs, scores, maxTokens, Window(0, |costs|)) <==> Total(costs, 0, |costs|) <= maxTokens && scores[|costs| - 1] > 0
  {
    hide Total;
    var n, w := |costs|, Window(0, |costs|);
    if Best(costs, scores, maxTokens, w) {
      EndsOnAMatch(costs, scores, maxTokens, w);
    } else if Total(costs, 0, n) <= maxTokens && scores[n - 1] > 0 {
      forall v: Window | v.start < v.end <= n && Fits(costs, v.start, v.end, maxTokens) ensures Beats(scores, w, v) {
        TotalSplits(scores, 0, v.start, n);
        TotalSplits(scores, v.start, v.end, n);
        if v.end < n { LastCounts(scores, v.end); }
      }
    }
  }

  lemma {:induction false} LastCounts(scores: seq<nat>, start: nat)
    requires start < |scores| && scores[|scores| - 1] > 0
    ensures Total(scores, start, |scores|) > 0
  {
  }

  /** And then the passage is handed on as it is, however long: the white space between sentences is
      charged nothing. A passage over the budget comes back untouched exactly so. */
  lemma {:induction false} WholePassageIsUnbounded(text: string, sentences: seq<string>, terms: set<string>, words: string -> set<string>, maxTokens: nat)
    requires |sentences| >= 2 && Estimate(text) > maxTokens > 0
    requires Total(Costs(sentences), 0, |sentences|) <= maxTokens && Score(words(sentences[|sentences| - 1]), terms) > 0
    ensures forall r :: IsExcerpt(r, text, sentences, terms, words, maxTokens) <==> r == text
  {
    hide Total, Score;
    var costs, scores, w := Costs(sentences), Scores(sentences, terms, words), Window(0, |sentences|);
    WholeIsBestIff(costs, scores, maxTokens);
    assert Best(costs, scores, maxTokens, w) && Rendered(text, sentences, w) == text;
    forall v: Window | Best(costs, scores, maxTokens, v) ensures v == w { BestIsUnique(costs, scores, maxTokens, v, w); }
  }
}
