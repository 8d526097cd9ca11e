/** Replies in other shapes: one question sent without the object and list it was asked in, and objects
    one after another. What `_whole_reply` and `_salvage` of `services/assessments.py` make of them. */
module LoneReply {
  import opened Json
  import opened Salvage
  import opened CutReply
  import opened Fences
  import opened JsonQuotes
  import opened Picking
  import opened Text
  import opened Wrappers

  // The text is one object, with a stem and no list or object under "questions".
  ghost predicate IsLone(d: string, v: Value) {
    && d != [] && d[0] == '{' && ScanObject(d, 0) == Done(v, |d|)
    && Truthy(Lookup(v.members, STEM)) && !Lookup(v.members, QUESTIONS).Arr? && !Lookup(v.members, QUESTIONS).Obj?
  }

  lemma {:induction false} LoneShape(d: string, v: Value)
    requires IsLone(d, v)
    ensures d != [] && d[0] == '{' && d[|d| - 1] == '}' && RFind(d, '}') == |d| - 1
  {
    hide ScanObject;
    ObjectCloses(d, 0);
    RFindIsLast(d, '}');
  }

  lemma {:induction false} LoneIsWhole(d: string, v: Value)
    requires IsLone(d, v)
    ensures ReplyBetween(d, Find(d, '{', 0), RFind(d, '}')) == None
    ensures Salvaged(d) == [v]
  {
    hide ScanObject, Loads, Lookup, Truthy;
    ObjectAtBrace(d, 0);
    FindHere(d, '{', 0);
    LoadsExactly(d, 0, |d|);
    LoneShape(d, v);
    assert d[0..|d|] == d;
    assert ObjectsFrom(d, 0) == [v] + ObjectsFrom(d, |d|);
    assert ObjectsFrom(d, |d|) == [];
    assert KeptOf([v]) == Kept(v) + KeptOf([v][1..]);
  }

  lemma {:induction false} LoneUnfenced(d: string)
    requires d != [] && d[0] == '{' && d[|d| - 1] == '}' && FindFence(d, 0) == -1
    ensures Unfenced(d) == d
  {
    hide FindFence;
    assert LStrip(d) == d && RStrip(d) == d;
  }

  /** One question sent alone is handed on as itself only if it holds no list that takes all its
      brackets: otherwise that list is taken for the reply. */
  lemma {:induction false} LoneQuestion(d: string, v: Value)
    requires IsLone(d, v) && FindFence(d, 0) == -1
    ensures var list := ReplyBetween(d, Find(d, '[', 0), RFind(d, ']'));
      RawItems(d) == if list.Some? then list.value else [v]
  {
    hide IsLone, ReplyBetween, Unfenced, Salvaged;
    LoneShape(d, v);
    LoneUnfenced(d);
    LoneIsWhole(d, v);
  }

  /** So a question whose one list is its options is lost: its options are handed on in its place. */
  lemma {:induction false} LoneQuestionLost(d: string, v: Value, a: nat, options: seq<Value>)
    requires IsLone(d, v) && FindFence(d, 0) == -1
    requires a < |d| && d[a] == '[' && (forall k :: 0 <= k < a ==> d[k] != '[')
    requires ScanArray(d, a).Done? && ScanArray(d, a).value == Arr(options)
    requires forall k :: ScanArray(d, a).end <= k < |d| ==> d[k] != ']'
    ensures RawItems(d) == options
  {
    hide IsLone, RawItems, Loads, ScanArray;
    var e := ScanArray(d, a).end;
    ListCloses(d, a, e);
    ArrayAtBracket(d, a);
    LoadsExactly(d, a, e);
    FindIsFirst(d, '[', 0);
    RFindIsLast(d, ']');
    FindFrom(d, '[', a, 0);
    assert RFind(d, ']') == e - 1 by { LastFound(d, ']', e - 1); }
    LoneQuestion(d, v);
  }

  lemma {:induction false} FindFrom(d: string, c: char, a: nat, from: nat)
    requires from <= a < |d| && d[a] == c && forall k :: from <= k < a ==> d[k] != c
    ensures Find(d, c, from) == a
    decreases a - from
  {
    if from < a { FindFrom(d, c, a, from + 1); }
  }

  lemma {:induction false} LastFound(d: string, c: char, z: nat)
    requires z < |d| && d[z] == c && forall k :: z < k < |d| ==> d[k] != c
    ensures RFind(d, c) == z
  {
    if z < |d| - 1 { LastFound(d[..|d| - 1], c, z); }
  }

  /** One with no list in it is handed on whole. */
  lemma {:induction false} LoneQuestionKept(d: string, v: Value)
    requires IsLone(d, v) && FindFence(d, 0) == -1 && forall k :: 0 <= k < |d| ==> d[k] != '['
    ensures RawItems(d) == [v]
  {
    hide IsLone, RawItems, Loads;
    LoneQuestion(d, v);
  }

  // ------------------------------------------------------------ one after another

  lemma {:induction false} OnlyObjectsNext(items: seq<Value>, v: Value)
    ensures OnlyObjects(items + [v]) == OnlyObjects(items) + if v.Obj? then [v] else []
  {
    if items != [] {
      assert (items + [v])[1..] == items[1..] + [v];
      OnlyObjectsNext(items[1..], v);
    }
  }

  /** Of a wrapper's list the objects are taken out, in their order. */
  lemma {:induction false} ObjectsAre(items: seq<Value>) returns (at: seq<nat>)
    ensures Picks(at, |items|, (k: nat) => k < |items| && items[k].Obj?) && |OnlyObjects(items)| == |at|
    ensures forall i :: 0 <= i < |at| ==> at[i] < |items| && OnlyObjects(items)[i] == items[at[i]]
  {
    hide OnlyObjects;
    var keep := (k: nat) => k < |items| && items[k].Obj?;
    if items == [] {
      at := [];
      assert OnlyObjects([]) == [] by { NoObjects(); }
    } else {
      var n := |items| - 1;
      var before := ObjectsAre(items[..n]);
      at := PicksNext(before, n, (k: nat) => k < n && items[..n][k].Obj?, keep);
      assert items == items[..n] + [items[n]];
      OnlyObjectsNext(items[..n], items[n]);
    }
  }

  lemma {:induction false} NoObjects()
    ensures OnlyObjects([]) == []
  {
  }

  lemma {:induction false} DecodedFirst(d: string, v: Value, x: string)
    requires d != [] && d[0] == '{' && ScanObject(d, 0) == Done(v, |d|)
    ensures ScanValue(d + x, 0) == Done(v, |d|)
  {
    hide ScanObject, ScanValue;
    ObjectAtBrace(d, 0);
    assert (d + x)[..|d|] == d;
    DecodesInWhole(d + x, |d|, 0);
  }

  lemma {:induction false} ObjectFirst(text: string, v: Value, end: nat)
    requires text != [] && text[0] == '{' && ScanValue(text, 0) == Done(v, end) && v.Obj? && end <= |text|
    ensures ObjectsFrom(text, 0) == [v] + ObjectsFrom(text, end)
  {
    hide ScanValue, ObjectsFrom;
    ObjectsFromBrace(text, 0);
    ObjectsFromNext(text, 0);
    ObjectsFromNext(text, end);
  }

  lemma {:induction false} KeptOfFirst(v: Value, rest: seq<Value>)
    ensures KeptOf([v] + rest) == Kept(v) + KeptOf(rest)
  {
    hide Kept;
    assert ([v] + rest)[1..] == rest;
  }

  // Salvage takes an object that opens the text for what it is, and goes on after it.
  lemma {:induction false} OpensWith(d: string, v: Value, x: string)
    requires d != [] && d[0] == '{' && ScanObject(d, 0) == Done(v, |d|) && v.Obj?
    ensures Salvaged(d + x) == Kept(v) + Salvaged(x)
  {
    hide ScanObject, ScanValue, Kept, KeptOf, ObjectsFrom;
    DecodedFirst(d, v, x);
    ObjectFirst(d + x, v, |d|);
    ObjectsAfter(d, x, 0);
    KeptOfFirst(v, ObjectsFrom(x, 0));
  }

  /** What salvage finds of replies one after another is what it finds of each: all the objects of a
      complete reply's list, and then what the rest of the text holds. */
  lemma {:induction false} RepliesInARow(d: string, items: seq<Value>, x: string)
    requires IsReply(d, items)
    ensures Salvaged(d + x) == OnlyObjects(items) + Salvaged(x)
  {
    hide ScanObject, OnlyObjects, Salvaged;
    OpensWith(d, Obj([Member(QUESTIONS, Arr(items))]), x);
  }

  /** And of questions one after another, each that is complete. */
  lemma {:induction false} QuestionsInARow(d: string, v: Value, x: string)
    requires IsLone(d, v)
    ensures Salvaged(d + x) == [v] + Salvaged(x)
  {
    hide ScanObject, Salvaged, Lookup, Truthy;
    OpensWith(d, v, x);
  }
}
