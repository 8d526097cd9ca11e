/** Taking a model's reply apart: `_unfenced`, `_whole_reply`, `_salvage_objects`,
    `_salvage` and `parse_generated` of `services/assessments.py`. */
module Salvage {
  import opened Json
  import opened JsonQuotes
  import opened Picking
  import opened Text
  import opened Wrappers

  // ------------------------------------------------------------ text helpers

  // `text.find(c, from)`
  function Find(s: string, c: char, from: nat): (r: int)
    ensures r == -1 || (from <= r < |s| && s[r] == c)
    decreases |s| - from
  {
    if from >= |s| then -1 else if s[from] == c then from else Find(s, c, from + 1)
  }

  lemma {:induction false} FindIsFirst(s: string, c: char, from: nat)
    ensures forall k :: from <= k < (if Find(s, c, from) < 0 then |s| else Find(s, c, from)) ==> s[k] != c
    decreases |s| - from
  {
    if from < |s| && s[from] != c { FindIsFirst(s, c, from + 1); }
  }

  lemma {:induction false} FindHere(s: string, c: char, i: nat)
    requires i < |s| && s[i] == c
    ensures Find(s, c, i) == i
  {
  }

  // `text.rfind(c)`
  function RFind(s: string, c: char): (r: int)
    ensures -1 <= r < |s|
    ensures r >= 0 ==> s[r] == c
  {
    if s == [] then -1 else if s[|s| - 1] == c then |s| - 1 else RFind(s[..|s| - 1], c)
  }

  lemma {:induction false} RFindIsLast(s: string, c: char)
    ensures forall k :: RFind(s, c) < k < |s| ==> s[k] != c
  {
    if s != [] && s[|s| - 1] != c {
      RFindIsLast(s[..|s| - 1], c);
      assert forall k :: 0 <= k < |s| - 1 ==> s[k] == s[..|s| - 1][k];
    }
  }

  function FindFence(s: string, from: nat): (r: int)
    ensures r == -1 || from <= r <= |s| - 3
    decreases |s| - from
  {
    if from + 3 > |s| then -1
    else if s[from] == '`' && s[from + 1] == '`' && s[from + 2] == '`' then from
    else FindFence(s, from + 1)
  }

  // The reply stripped, or the first fenced block in it, stripped.
  function Unfenced(raw: string): string {
    var text := Strip(raw);
    var open := FindFence(text, 0);
    if open < 0 then text
    else
      var inner := if Matches(text, open + 3, "json") then open + 7 else open + 3;
      var start := SkipBlanks(text, inner);
      var close := FindFence(text, start);
      if close < 0 then text else Strip(text[start..close])
  }

  // ----------------------------------------------------------- the happy path

  // What one opener and closer yield: the list they delimit, if they delimit one.
  function ReplyBetween(text: string, opener: int, closer: int): Option<seq<Value>>
    requires -1 <= opener < |text| && -1 <= closer < |text|
  {
    if opener == -1 || closer <= opener then None
    else
      match Loads(text[opener..closer + 1])
      case Fail => None
      case Done(payload, _) =>
        match payload
        case Arr(items) => Some(items)
        case Obj(members) =>
          (match Lookup(members, QUESTIONS)
           case Arr(items) => Some(items)
           case Obj(question) => Some([Obj(question)])
           case _ => None)
        case _ => None
  }

  // `_whole_reply`: braces first, then brackets; None when neither decodes to questions.
  function WholeReply(text: string): Option<seq<Value>> {
    var braces := ReplyBetween(text, Find(text, '{', 0), RFind(text, '}'));
    if braces.Some? then braces
    else ReplyBetween(text, Find(text, '[', 0), RFind(text, ']'))
  }

  // ------------------------------------------------------------------ salvage

  // The objects a decoder finds from `from` on, stepping over each brace that fails.
  function ObjectsFrom(text: string, from: nat): seq<Value>
    decreases |text| - from
  {
    var i := Find(text, '{', from);
    if i < 0 then []
    else
      match ScanValue(text, i)
      case Fail => ObjectsFrom(text, i + 1)
      case Done(value, end) => (if value.Obj? then [value] else []) + ObjectsFrom(text, end)
  }

  // What is found from the next brace on, -1 standing for no brace.
  function ObjectsAt(text: string, i: int): seq<Value> {
    if i < 0 then [] else ObjectsFrom(text, i)
  }

  lemma {:induction false} ObjectsFromNext(text: string, from: nat)
    ensures ObjectsFrom(text, from) == ObjectsAt(text, Find(text, '{', from))
  {
    hide ScanValue, Find;
    var i := Find(text, '{', from);
    if i >= 0 { FindHere(text, '{', i); }
  }

  lemma ObjectsFromBrace(text: string, i: nat)
    requires i < |text| && text[i] == '{'
    ensures ObjectsAt(text, i) == ObjectsFrom(text, i)
    ensures ObjectsFrom(text, i) ==
      match ScanValue(text, i)
      case Fail => ObjectsAt(text, Find(text, '{', i + 1))
      case Done(value, end) => (if value.Obj? then [value] else []) + ObjectsAt(text, Find(text, '{', end))
  {
    hide ScanValue, Find;
    FindHere(text, '{', i);
    match ScanValue(text, i)
    case Fail => ObjectsFromNext(text, i + 1);
    case Done(_, end) => ObjectsFromNext(text, end);
  }

  method SalvageObjects(text: string) returns (found: seq<Value>)
    ensures found == ObjectsFrom(text, 0)
  {
    hide *;
    found := [];
    var index := Find(text, '{', 0);
    ObjectsFromNext(text, 0);
    ghost var rest := ObjectsAt(text, index);
    while index != -1
      invariant -1 <= index < |text|
      invariant index >= 0 ==> text[index] == '{'
      invariant rest == ObjectsAt(text, index)
      invariant ObjectsFrom(text, 0) == found + rest
      decreases if index < 0 then 0 else |text| - index
    {
      ObjectsFromBrace(text, index);
      var decoded := ScanValue(text, index);
      if decoded.Fail? {
        index := Find(text, '{', index + 1);
      } else {
        if decoded.value.Obj? {
          found := found + [decoded.value];
        }
        index := Find(text, '{', decoded.end);
      }
      rest := ObjectsAt(text, index);
    }
    NoneLeft(text);
  }

  lemma NoneLeft(text: string)
    ensures ObjectsAt(text, -1) == []
  {
  }

  function OnlyObjects(items: seq<Value>): seq<Value> {
    if items == [] then [] else (if items[0].Obj? then [items[0]] else []) + OnlyObjects(items[1..])
  }

  // What one decoded object contributes: the questions it wraps, or itself if it has a stem.
  function Kept(v: Value): seq<Value> {
    if !v.Obj? then []
    else
      var wrapped := Lookup(v.members, QUESTIONS);
      if wrapped.Arr? then OnlyObjects(wrapped.items)
      else if Truthy(Lookup(v.members, STEM)) then [v]
      else []
  }

  function KeptOf(values: seq<Value>): seq<Value> {
    if values == [] then [] else Kept(values[0]) + KeptOf(values[1..])
  }

  function Salvaged(text: string): seq<Value> { KeptOf(ObjectsFrom(text, 0)) }

  lemma {:induction false} KeptOfSplit(a: seq<Value>, b: seq<Value>)
    ensures KeptOf(a + b) == KeptOf(a) + KeptOf(b)
  {
    hide Kept;
    if a == [] {
      assert a + b == b;
    } else {
      assert (a + b)[1..] == a[1..] + b;
      KeptOfSplit(a[1..], b);
    }
  }

  lemma KeptOfNone()
    ensures KeptOf([]) == []
  {
  }

  lemma KeptOfNext(values: seq<Value>, k: nat)
    requires k < |values|
    ensures KeptOf(values[..k + 1]) == KeptOf(values[..k]) + Kept(values[k])
  {
    hide Kept;
    var one := [values[k]];
    assert values[..k + 1] == values[..k] + one;
    KeptOfSplit(values[..k], one);
    assert one[1..] == [] && KeptOf(one) == Kept(values[k]) + [];
  }

  method SalvageReply(text: string) returns (found: seq<Value>)
    ensures found == Salvaged(text)
  {
    hide KeptOf, OnlyObjects, Truthy, Lookup;
    var values := SalvageObjects(text);
    found := [];
    KeptOfNone();
    for k := 0 to |values|
      invariant found == KeptOf(values[..k])
    {
      KeptOfNext(values, k);
      var v := values[k];
      if v.Obj? && Lookup(v.members, QUESTIONS).Arr? {
        found := found + OnlyObjects(Lookup(v.members, QUESTIONS).items);
      } else if v.Obj? && Truthy(Lookup(v.members, STEM)) {
        found := found + [v];
      }
    }
    assert values[..|values|] == values;
  }

  // The items handed on to the reply contract.
  function RawItems(raw: string): seq<Value> {
    var text := Unfenced(raw);
    var whole := WholeReply(text);
    if whole.Some? then whole.value else Salvaged(text)
  }

  function Fitting(items: seq<Value>, fits: Value -> bool): seq<Value> {
    if items == [] then []
    else
      var last := |items| - 1;
      Fitting(items[..last], fits) + (if fits(items[last]) then [items[last]] else [])
  }

  /** The contract keeps the items that fit it, in their order. */
  lemma {:induction false} FittingIs(items: seq<Value>, fits: Value -> bool) returns (at: seq<nat>)
    ensures Picks(at, |items|, (k: nat) => k < |items| && fits(items[k])) && |Fitting(items, fits)| == |at|
    ensures forall i :: 0 <= i < |at| ==> at[i] < |items| && Fitting(items, fits)[i] == items[at[i]]
  {
    var keep := (k: nat) => k < |items| && fits(items[k]);
    if items == [] {
      at := [];
    } else {
      var n := |items| - 1;
      var before := FittingIs(items[..n], fits);
      at := PicksNext(before, n, (k: nat) => k < n && fits(items[..n][k]), keep);
    }
  }

  // `parse_generated`, with the reply contract as a parameter. None is its ValueError.
  method ParseGenerated(raw: string, fits: Value -> bool) returns (r: Option<seq<Value>>)
    ensures r == if Fitting(RawItems(raw), fits) == [] then None else Some(Fitting(RawItems(raw), fits))
  {
    hide Unfenced, WholeReply, Salvaged;
    var text := Unfenced(raw);
    var whole := WholeReply(text);
    var rawItems;
    if whole.Some? {
      rawItems := whole.value;
    } else {
      rawItems := SalvageReply(text);
    }
    if rawItems == [] {
      return None;
    }
    var items := [];
    for k := 0 to |rawItems|
      invariant items == Fitting(rawItems[..k], fits)
    {
      assert rawItems[..k + 1][..k] == rawItems[..k];
      if fits(rawItems[k]) {
        items := items + [rawItems[k]];
      }
    }
    assert rawItems[..|rawItems|] == rawItems;
    r := if items == [] then None else Some(items);
  }
}
