/** The one builder every question row goes through: `build_question_fields` and its key
    helpers in `services/assessments.py`. Case mapping is a parameter. */
module Questions {
  import opened Text
  import opened Wrappers
  import opened Grading

  datatype Choice = Choice(key: string, text: string)

  // The columns a multiple-choice question fills. `points` is the Decimal handed in.
  datatype Fields = Fields(stem: string, options: seq<Choice>, correct: string, points: real)

  datatype Casing = Casing(upper: string -> string, lower: string -> string)

  const ALPHABET := "ABCDEFGH"
  const MIN_OPTIONS := 3
  const MAX_OPTIONS := 5
  const MIN_STEM := 20
  const DEFAULT_POINTS := 1.0

  function KeyAt(k: nat): (key: string)
    requires k < |ALPHABET|
    ensures |key| == 1 && !IsBlank(key[0])
  {
    [ALPHABET[k]]
  }

  lemma KeysDiffer(i: nat, j: nat)
    requires i < |ALPHABET| && j < |ALPHABET| && KeyAt(i) == KeyAt(j)
    ensures i == j
  {
    assert KeyAt(i)[0] == KeyAt(j)[0];
  }

  // The label a list gives an option, or "" for none.
  function Label(option: Choice, upper: string -> string): string { Folded(option.key, upper) }

  // The label an option answers to: its own, or for want of one its position's key.
  function Answers(options: seq<Choice>, k: nat, upper: string -> string): string
    requires k < |options| && k < |ALPHABET|
  {
    if Label(options[k], upper) != "" then Label(options[k], upper) else KeyAt(k)
  }

  predicate BannedText(lowered: string) {
    || lowered == "all of the above" || lowered == "none of the above"
    || lowered == "both a and b" || lowered == "all of these"
  }

  function LoweredText(option: Choice, casing: Casing): string { casing.lower(Strip(option.text)) }

  predicate UsableKeys(options: seq<Choice>, upper: string -> string) {
    forall i, j :: 0 <= i < j < |options| && Label(options[i], upper) != "" ==> Label(options[i], upper) != Label(options[j], upper)
  }

  predicate DistinctTexts(options: seq<Choice>, casing: Casing) {
    && (forall k :: 0 <= k < |options| ==> LoweredText(options[k], casing) != "")
    && (forall i, j :: 0 <= i < j < |options| ==> LoweredText(options[i], casing) != LoweredText(options[j], casing))
  }

  function Canonical(options: seq<Choice>): (r: seq<Choice>)
    requires |options| <= |ALPHABET|
    ensures |r| == |options|
    ensures forall k :: 0 <= k < |r| ==> r[k] == Choice(KeyAt(k), Strip(options[k].text))
  {
    seq(|options|, k requires 0 <= k < |options| => Choice(KeyAt(k), Strip(options[k].text)))
  }

  // The first of the options from k on that answers to a key, or their number.
  function FirstAnswering(options: seq<Choice>, key: string, k: nat, upper: string -> string): (j: nat)
    requires k <= |options| <= |ALPHABET|
    ensures k <= j <= |options|
    ensures j < |options| ==> Answers(options, j, upper) == key
    ensures forall i :: k <= i < j ==> Answers(options, i, upper) != key
    decreases |options| - k
  {
    if k == |options| || Answers(options, k, upper) == key then k else FirstAnswering(options, key, k + 1, upper)
  }

  // The options past the alphabet are not looked at.
  function Looked(options: seq<Choice>): (r: seq<Choice>)
    ensures |r| <= |ALPHABET|
  {
    if |options| <= |ALPHABET| then options else options[..|ALPHABET|]
  }

  function Build(stem: string, options: seq<Choice>, correct: Option<string>, points: Option<real>, casing: Casing): Outcome<Fields> {
    var text := Strip(stem);
    if |text| < MIN_STEM then Refused(ValidationFailed)
    else if !UsableKeys(options, casing.upper) then Refused(ValidationFailed)
    else
      var looked := Looked(options);
      var chosen := Canonical(looked);
      if !(MIN_OPTIONS <= |chosen| <= MAX_OPTIONS) then Refused(ValidationFailed)
      else if !DistinctTexts(chosen, casing) then Refused(ValidationFailed)
      else if exists k :: 0 <= k < |chosen| && BannedText(LoweredText(chosen[k], casing)) then Refused(ValidationFailed)
      else if correct.None? then Refused(ValidationFailed)
      else
        var j := FirstAnswering(looked, Folded(correct.value, casing.upper), 0, casing.upper);
        if j == |looked| then Refused(ValidationFailed)
        else Ok(Fields(text, chosen, KeyAt(j), if points.Some? then points.value else DEFAULT_POINTS))
  }

  // -------------------------------------------------------------- the loops

  // The map from old keys to new, once the first n options have been entered.
  ghost predicate RemapsFirst(remap: map<string, string>, looked: seq<Choice>, n: nat, upper: string -> string)
    requires n <= |looked| <= |ALPHABET|
  {
    && (forall key :: key in remap <==> FirstAnswering(looked, key, 0, upper) < n)
    && (forall key :: key in remap ==> remap[key] == KeyAt(FirstAnswering(looked, key, 0, upper)))
  }

  lemma RemapGrows(remap: map<string, string>, looked: seq<Choice>, n: nat, upper: string -> string)
    requires n < |looked| <= |ALPHABET| && RemapsFirst(remap, looked, n, upper)
    ensures var key := Answers(looked, n, upper);
      RemapsFirst(if key in remap then remap else remap[key := KeyAt(n)], looked, n + 1, upper)
  {
    hide Answers, KeyAt;
  }

  // `_canonical_choices`: the renumbered list, and old key to new, first come first kept.
  method CanonicalChoices(items: seq<Choice>, upper: string -> string)
    returns (canonical: seq<Choice>, remap: map<string, string>)
    ensures canonical == Canonical(Looked(items))
    ensures RemapsFirst(remap, Looked(items), |Looked(items)|, upper)
  {
    hide FirstAnswering, RemapsFirst, Strip, KeyAt;
    canonical, remap := [], map[];
    ghost var looked := Looked(items);
    RemapEmpty(looked, upper);
    var position := 0;
    while position < |items|
      invariant position <= |looked|
      invariant canonical == Canonical(looked[..position])
      invariant RemapsFirst(remap, looked, position, upper)
    {
      if position >= |ALPHABET| {
        break;
      }
      var item := items[position];
      assert item == looked[position];
      var newKey := KeyAt(position);
      var oldKey := Folded(item.key, upper);
      var key := if oldKey != "" then oldKey else newKey;
      RemapGrows(remap, looked, position, upper);
      if key !in remap {
        remap := remap[key := newKey];
      }
      canonical := canonical + [Choice(newKey, Strip(item.text))];
      position := position + 1;
    }
    assert looked[..position] == looked;
  }

  lemma RemapEmpty(looked: seq<Choice>, upper: string -> string)
    requires |looked| <= |ALPHABET|
    ensures RemapsFirst(map[], looked, 0, upper)
  {
  }

  method BuildQuestionFields(stem: string, options: seq<Choice>, correct: Option<string>, points: Option<real>, casing: Casing)
    returns (r: Outcome<Fields>)
    ensures r == Build(stem, options, correct, points, casing)
  {
    hide Looked, FirstAnswering, DistinctTexts, LoweredText, BannedText, Strip, Folded, UsableKeys, Canonical, KeyAt;
    var text := Strip(stem);
    if |text| < MIN_STEM || !UsableKeys(options, casing.upper) {
      return Refused(ValidationFailed);
    }
    var chosen, remap := CanonicalChoices(options, casing.upper);
    if !(MIN_OPTIONS <= |chosen| <= MAX_OPTIONS) || !DistinctTexts(chosen, casing) {
      return Refused(ValidationFailed);
    }
    if exists k :: 0 <= k < |chosen| && BannedText(LoweredText(chosen[k], casing)) {
      return Refused(ValidationFailed);
    }
    if correct.None? || Folded(correct.value, casing.upper) !in remap {
      return Refused(ValidationFailed);
    }
    r := Ok(Fields(text, chosen, remap[Folded(correct.value, casing.upper)], if points.Some? then points.value else DEFAULT_POINTS));
  }

  // -------------------------------------------------------------- the meaning

  // The keys we assign are their own upper case, as they are under any real case mapping.
  ghost predicate FixesKeys(upper: string -> string) {
    forall k :: 0 <= k < |ALPHABET| ==> upper(KeyAt(k)) == KeyAt(k)
  }

  lemma KeyFolds(k: nat, upper: string -> string)
    requires k < |ALPHABET| && FixesKeys(upper)
    ensures Folded(KeyAt(k), upper) == KeyAt(k)
  {
    assert Strip(KeyAt(k)) == KeyAt(k);
  }

  // A key a writer gives by name: the label of option j.
  ghost predicate Names(options: seq<Choice>, j: nat, key: string, upper: string -> string) {
    j < |options| && Label(options[j], upper) == Folded(key, upper) != ""
  }

  // An unlabelled option before j whose position's key is the label of j.
  ghost predicate Shadowed(options: seq<Choice>, j: nat, upper: string -> string)
    requires j < |options| <= |ALPHABET|
  {
    exists i :: 0 <= i < j && Label(options[i], upper) == "" && KeyAt(i) == Label(options[j], upper)
  }

  lemma {:induction false} AcceptedIsLooked(stem: string, options: seq<Choice>, correct: Option<string>, points: Option<real>, casing: Casing)
    requires Build(stem, options, correct, points, casing).Ok?
    ensures MIN_OPTIONS <= |options| <= MAX_OPTIONS && Looked(options) == options
    ensures correct.Some? && UsableKeys(options, casing.upper)
    ensures var j := FirstAnswering(options, Folded(correct.value, casing.upper), 0, casing.upper);
      && j < |options|
      && Build(stem, options, correct, points, casing).value
         == Fields(Strip(stem), Canonical(options), KeyAt(j), if points.Some? then points.value else DEFAULT_POINTS)
  {
    hide FirstAnswering, DistinctTexts, UsableKeys, LoweredText, BannedText, Canonical, KeyAt, Strip, Folded;
  }

  // What an option answers to: its label, or for want of one the letter of its place.
  ghost predicate AnswersTo(options: seq<Choice>, k: nat, key: string, upper: string -> string) {
    k < |options| && k < 8 && (key == upper(Strip(options[k].key)) != "" || (upper(Strip(options[k].key)) == "" && key == ["ABCDEFGH"[k]]))
  }

  // The first option that answers to the key.
  ghost predicate AnswersFirst(options: seq<Choice>, k: nat, key: string, upper: string -> string) {
    AnswersTo(options, k, key, upper) && forall i :: 0 <= i < k ==> !AnswersTo(options, i, key, upper)
  }

  // No two options have one label.
  ghost predicate LabelsDiffer(options: seq<Choice>, upper: string -> string) {
    forall i, j :: 0 <= i < j < |options| && upper(Strip(options[i].key)) != "" ==> upper(Strip(options[i].key)) != upper(Strip(options[j].key))
  }

  // The texts in their order, under fresh letters.
  ghost predicate Relettered(options: seq<Choice>, stored: seq<Choice>) {
    |stored| == |options| <= 8 && forall k :: 0 <= k < |options| ==> stored[k] == Choice(["ABCDEFGH"[k]], Strip(options[k].text))
  }

  ghost predicate Buildable(stem: string, options: seq<Choice>, key: string, casing: Casing) {
    && |Strip(stem)| >= 20 && 3 <= |options| <= 5 && LabelsDiffer(options, casing.upper) && Sayable(options, casing)
    && exists k: nat :: AnswersFirst(options, k, key, casing.upper)
  }

  ghost predicate BuiltAs(f: Fields, stem: string, options: seq<Choice>, key: string, points: Option<real>, casing: Casing) {
    && f.stem == Strip(stem) && f.points == (if points.Some? then points.value else 1.0) && Relettered(options, f.options)
    && exists k: nat :: AnswersFirst(options, k, key, casing.upper) && k < |f.options| && f.correct == f.options[k].key
  }

  /** A question is built exactly when its stem has twenty characters, it has three to five options, no
      two with one label, none blank, no two alike, none of the four stock phrases, and its key is what
      some option answers to. It then has the stem, the texts under fresh letters, the letter of the
      first option that answers to the key, and the points given, or one. */
  lemma BuiltIff(stem: string, options: seq<Choice>, correct: Option<string>, points: Option<real>, casing: Casing)
    ensures Build(stem, options, correct, points, casing).Ok?
       <==> correct.Some? && Buildable(stem, options, casing.upper(Strip(correct.value)), casing)
    ensures forall f :: Build(stem, options, correct, points, casing) == Ok(f) && correct.Some? ==>
      BuiltAs(f, stem, options, casing.upper(Strip(correct.value)), points, casing)
  {
    hide Strip, BannedText, Sayable, AnswersFirst, UsableKeys, LabelsDiffer, DistinctTexts, FirstAnswering;
    LabelsAre(options, casing.upper);
    if |options| <= 5 {
      SayableIs(options, casing);
      if correct.Some? { FirstIs(options, Folded(correct.value, casing.upper), casing.upper); }
    }
  }

  lemma LabelsAre(options: seq<Choice>, upper: string -> string)
    ensures UsableKeys(options, upper) <==> LabelsDiffer(options, upper)
  {
    hide Strip;
  }

  lemma {:induction false} FirstIs(options: seq<Choice>, key: string, upper: string -> string)
    requires |options| <= |ALPHABET|
    ensures var j := FirstAnswering(options, key, 0, upper);
      && (j < |options| ==> AnswersFirst(options, j, key, upper) && KeyAt(j) == ["ABCDEFGH"[j]])
      && forall k: nat :: AnswersFirst(options, k, key, upper) ==> k == j < |options|
  {
    hide Strip, FirstAnswering;
    forall k: nat | k < |options| ensures AnswersTo(options, k, key, upper) <==> Answers(options, k, upper) == key {}
  }

  predicate Stock(text: string) { text in ["all of the above", "none of the above", "both a and b", "all of these"] }

  // Each option says something, no two the same, and none a stock phrase.
  ghost predicate Sayable(options: seq<Choice>, casing: Casing) {
    && (forall k :: 0 <= k < |options| ==> Said(options[k], casing) != "" && !Stock(Said(options[k], casing)))
    && (forall i, j :: 0 <= i < j < |options| ==> Said(options[i], casing) != Said(options[j], casing))
  }

  // What is stored of an option's text, in lower case; text is stripped when it is stored and again
  // when it is compared.
  function Said(option: Choice, casing: Casing): string { casing.lower(Strip(option.text)) }

  lemma SayableIs(options: seq<Choice>, casing: Casing)
    requires |options| <= |ALPHABET|
    ensures var chosen := Canonical(options);
      Sayable(options, casing) <==> DistinctTexts(chosen, casing) && !exists k :: 0 <= k < |chosen| && BannedText(LoweredText(chosen[k], casing))
  {
    hide Strip;
    var chosen := Canonical(options);
    forall k | 0 <= k < |options| ensures LoweredText(chosen[k], casing) == Said(options[k], casing) { StripTwice(options[k].text); }
    assert forall t: string :: Stock(t) <==> BannedText(t);
  }

  lemma {:induction false} FirstIsNamed(options: seq<Choice>, j: nat, upper: string -> string)
    requires j < |options| <= |ALPHABET| && UsableKeys(options, upper) && Label(options[j], upper) != ""
    ensures FirstAnswering(options, Label(options[j], upper), 0, upper) == j <==> !Shadowed(options, j, upper)
  {
    hide FirstAnswering, Label, KeyAt;
    var name := Label(options[j], upper);
    var first := FirstAnswering(options, name, 0, upper);
    assert Answers(options, j, upper) == name;
    if Shadowed(options, j, upper) {
      var i :| 0 <= i < j && Label(options[i], upper) == "" && KeyAt(i) == name;
      assert Answers(options, i, upper) == name;
    }
    if first < j { assert Label(options[first], upper) == "" && KeyAt(first) == name; }
  }

  /** When a label names an option, the stored key is that option's exactly when no
      unlabelled option before it sits at the position the label is the key of. */
  lemma NamedKeyKept(stem: string, options: seq<Choice>, key: string, points: Option<real>, casing: Casing, j: nat)
    requires Build(stem, options, Some(key), points, casing).Ok?
    requires Names(options, j, key, casing.upper)
    ensures |options| <= |ALPHABET|
    ensures Build(stem, options, Some(key), points, casing).value.correct == KeyAt(j)
      <==> !Shadowed(options, j, casing.upper)
  {
    hide Build, Shadowed, FirstAnswering, KeyAt, Canonical, UsableKeys;
    AcceptedIsLooked(stem, options, Some(key), points, casing);
    FirstIsNamed(options, j, casing.upper);
    var first := FirstAnswering(options, Folded(key, casing.upper), 0, casing.upper);
    if KeyAt(first) == KeyAt(j) { KeysDiffer(first, j); }
  }

  /** A list labelled in part can be marked against the wrong text. Whatever three texts
      are labelled "", "A" and "B", a writer who names "A" means the second, and the first
      is stored. */
  lemma PartLabelledMisleads(stem: string, options: seq<Choice>, points: Option<real>, casing: Casing)
    requires |options| == 3 && FixesKeys(casing.upper) && |Strip(stem)| >= MIN_STEM
    requires Label(options[0], casing.upper) == "" && Label(options[1], casing.upper) == KeyAt(0) && Label(options[2], casing.upper) == KeyAt(1)
    requires DistinctTexts(Canonical(options), casing)
    requires forall k :: 0 <= k < 3 ==> !BannedText(LoweredText(Canonical(options)[k], casing))
    ensures Build(stem, options, Some(KeyAt(0)), points, casing).Ok?
    ensures Names(options, 1, KeyAt(0), casing.upper)
    ensures Build(stem, options, Some(KeyAt(0)), points, casing).value.correct == KeyAt(0) != KeyAt(1)
  {
    hide Label, LoweredText, DistinctTexts, BannedText, Strip;
    KeyFolds(0, casing.upper);
    assert KeyAt(0)[0] != KeyAt(1)[0];
    assert UsableKeys(options, casing.upper);
    assert Answers(options, 0, casing.upper) == KeyAt(0);
  }

  /** With labels on every option or on none, the stored key points at the text the writer
      meant: the option labelled so, or the one at that position. */
  lemma StoredKeyPointsAtText(stem: string, options: seq<Choice>, key: string, points: Option<real>, casing: Casing) returns (j: nat)
    requires Build(stem, options, Some(key), points, casing).Ok?
    requires (forall k :: 0 <= k < |options| ==> Label(options[k], casing.upper) != "")
          || (forall k :: 0 <= k < |options| ==> Label(options[k], casing.upper) == "")
    ensures j < |options| <= |ALPHABET|
    ensures var f := Build(stem, options, Some(key), points, casing).value;
      && f.correct == KeyAt(j) == f.options[j].key
      && f.options[j].text == Strip(options[j].text)
      && |f.options| == |options|
    ensures if Label(options[0], casing.upper) != "" then Names(options, j, key, casing.upper)
            else Folded(key, casing.upper) == KeyAt(j)
  {
    hide Build;
    AcceptedIsLooked(stem, options, Some(key), points, casing);
    j := FirstAnswering(options, Folded(key, casing.upper), 0, casing.upper);
    assert Answers(options, j, casing.upper) == Folded(key, casing.upper);
  }

  /** Building again from what was stored stores the same. */
  lemma RebuildIsSame(stem: string, options: seq<Choice>, correct: Option<string>, points: Option<real>, casing: Casing)
    requires Build(stem, options, correct, points, casing).Ok? && FixesKeys(casing.upper)
    ensures var f := Build(stem, options, correct, points, casing).value;
      Build(f.stem, f.options, Some(f.correct), Some(f.points), casing) == Ok(f)
  {
    AcceptedIsLooked(stem, options, correct, points, casing);
    var f := Build(stem, options, correct, points, casing).value;
    var n := |options|;
    StripTwice(stem);
    forall k | 0 <= k < n
      ensures Label(f.options[k], casing.upper) == KeyAt(k)
      ensures Answers(f.options, k, casing.upper) == KeyAt(k)
      ensures Strip(f.options[k].text) == f.options[k].text
    {
      KeyFolds(k, casing.upper);
      StripTwice(options[k].text);
    }
    forall i, j | 0 <= i < j < n
      ensures Label(f.options[i], casing.upper) != Label(f.options[j], casing.upper)
    {
      if KeyAt(i) == KeyAt(j) { KeysDiffer(i, j); }
    }
    assert Canonical(f.options) == f.options;
    var j := FirstAnswering(options, Folded(correct.value, casing.upper), 0, casing.upper);
    KeyFolds(j, casing.upper);
    var again := FirstAnswering(f.options, KeyAt(j), 0, casing.upper);
    KeysDiffer(again, j);
  }

  /** Of the keys a sitter can pick, exactly the stored one earns the points. */
  lemma OneKeyEarnsPoints(stem: string, options: seq<Choice>, correct: Option<string>, points: Option<real>, casing: Casing,
                          q: Question, k: nat)
    requires Build(stem, options, correct, points, casing).Ok? && FixesKeys(casing.upper)
    requires var f := Build(stem, options, correct, points, casing).value;
      q.correct == Some(f.correct) && k < |f.options|
    ensures var f := Build(stem, options, correct, points, casing).value;
      GradeMcq(q, Some(f.options[k].key), casing.upper) == if f.options[k].key == f.correct then q.points else 0
  {
    hide Build;
    AcceptedIsLooked(stem, options, correct, points, casing);
    var j := FirstAnswering(options, Folded(correct.value, casing.upper), 0, casing.upper);
    KeyFolds(j, casing.upper);
    KeyFolds(k, casing.upper);
  }
}
