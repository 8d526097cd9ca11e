/** The reply cut short. `{"questions": [q1, ..., qn]}`, printed any way JSON allows and cut
    at any character, yields exactly the questions that were complete before the cut. */
module CutReply {
  import opened Json
  import opened JsonWindow
  import opened JsonQuotes
  import opened Salvage
  import opened Text
  import opened Wrappers

  lemma ElementsUnfold(d: string, i: nat)
    requires i <= |d| && ScanElements(d, i).Done?
    ensures ScanValue(d, i).Done?
    ensures var e := SkipSpace(d, ScanValue(d, i).end);
      && e < |d|
      && (d[e] == ']' ==> ScanElements(d, i) == Done([ScanValue(d, i).value], e + 1))
      && (d[e] != ']' ==>
            && d[e] == ','
            && ScanElements(d, SkipSpace(d, e + 1)).Done?
            && ScanElements(d, i) == Done([ScanValue(d, i).value] + ScanElements(d, SkipSpace(d, e + 1)).value,
                                          ScanElements(d, SkipSpace(d, e + 1)).end))
  {
    hide ScanValue;
  }

  lemma {:induction false} LoneMember(d: string, j: nat)
    requires j <= |d| && ScanMembers(d, j).Done? && |ScanMembers(d, j).value| == 1
    ensures ScanMember(d, j).Done? && ScanMember(d, j).end + 1 == ScanMembers(d, j).end
    ensures ScanMembers(d, j).value == [ScanMember(d, j).value]
    ensures d[ScanMember(d, j).end] == '}'
  {
    hide ScanMember;
    if d[ScanMember(d, j).end] != '}' { SomeMember(d, SkipSpace(d, ScanMember(d, j).end + 1)); }
  }

  lemma {:induction false} SomeMember(d: string, j: nat)
    requires j <= |d| && ScanMembers(d, j).Done?
    ensures |ScanMembers(d, j).value| > 0
  {
    hide ScanMember;
  }

  datatype Span = Span(start: nat, end: nat, item: Value)

  // The elements of the array being scanned at i, and where each lies.
  ghost function SpansFrom(d: string, i: nat): (r: seq<Span>)
    requires i <= |d| && ScanElements(d, i).Done?
    decreases |d| - i
  {
    ElementsUnfold(d, i);
    var v := ScanValue(d, i);
    var e := SkipSpace(d, v.end);
    [Span(i, v.end, v.value)] + if d[e] == ',' then SpansFrom(d, SkipSpace(d, e + 1)) else []
  }

  // A complete reply: one object, one key, one list.
  ghost predicate IsReply(d: string, items: seq<Value>) {
    d != [] && d[0] == '{' && ScanObject(d, 0) == Done(Obj([Member(QUESTIONS, Arr(items))]), |d|)
  }

  // The list of a complete reply opens at a and ends at e.
  ghost predicate ListLies(d: string, items: seq<Value>, a: nat, e: nat) {
    && 0 < a < e < |d|
    && ScanKey(d, SkipSpace(d, 1)) == Done(QUESTIONS, a)
    && d[a] == '['
    && ScanArray(d, a) == Done(Arr(items), e)
    && SkipSpace(d, e) == |d| - 1
    && d[|d| - 1] == '}'
  }

  ghost function ReplySpans(d: string, items: seq<Value>): seq<Span>
    requires IsReply(d, items)
  {
    var (a, _) := ListSpan(d, items);
    var w := SkipSpace(d, a + 1);
    if d[w] == ']' then [] else SpansFrom(d, w)
  }

  ghost function ListSpan(d: string, items: seq<Value>): (r: (nat, nat))
    requires IsReply(d, items)
    ensures ListLies(d, items, r.0, r.1)
    ensures SkipSpace(d, r.0 + 1) < |d|
    ensures d[SkipSpace(d, r.0 + 1)] != ']' ==> ScanElements(d, SkipSpace(d, r.0 + 1)).Done?
  {
    hide ScanElements;
    ReplyShape(d, items);
    var a := ScanKey(d, SkipSpace(d, 1)).end;
    (a, ScanArray(d, a).end)
  }

  // The items of the spans that end by the cut.
  ghost function Before(spans: seq<Span>, cut: nat): seq<Value> {
    if spans == [] then []
    else (if spans[0].end <= cut then [spans[0].item] else []) + Before(spans[1..], cut)
  }

  // A question as the reply contract has it: a stem, no wrapper key of its own, and no
  // object nested in it that carries either marker key.
  predicate IsQuestion(v: Value) {
    && v.Obj?
    && Truthy(Lookup(v.members, STEM))
    && !Lookup(v.members, QUESTIONS).Arr?
    && forall k :: 0 <= k < |v.members| ==> Clean(v.members[k].value)
  }

  lemma {:induction false} ReplyShape(d: string, items: seq<Value>)
    requires IsReply(d, items)
    ensures var key := ScanKey(d, SkipSpace(d, 1));
      && key.Done?
      && key.end < |d|
      && ScanArray(d, key.end).Done?
      && ListLies(d, items, key.end, ScanArray(d, key.end).end)
  {
    hide ScanMembers, ScanArray, ScanKey;
    LoneMember(d, SkipSpace(d, 1));
  }

  // ------------------------------------------------------- texts cut short

  // A value decoded in the text kept is the value decoded there in the whole.
  lemma {:induction false} DecodesInWhole(d: string, c: nat, i: nat)
    requires c <= |d| && i < c && Opens(d[i]) && ScanValue(d[..c], i).Done?
    ensures ScanValue(d, i) == ScanValue(d[..c], i)
  {
    AgreeIfEqual(d[..c], d, 0, 0, c);
    ValueCarries(d[..c], d, 0, 0, c, i);
  }

  // And a value of the whole that ends by the cut survives it.
  lemma {:induction false} DecodesInCut(d: string, c: nat, i: nat)
    requires c <= |d| && i < c && Opens(d[i]) && ScanValue(d, i).Done? && ScanValue(d, i).end <= c
    ensures ScanValue(d[..c], i) == ScanValue(d, i)
  {
    AgreeIfEqual(d, d[..c], 0, 0, c);
    ValueCarries(d, d[..c], 0, 0, c, i);
  }

  // No proper prefix of a document decodes from its opening brace or bracket.
  lemma {:induction false} PrefixNeverDecodes(d: string, c: nat, i: nat)
    requires i < c <= |d| && Opens(d[i]) && ScanValue(d, i).Done? && c < ScanValue(d, i).end
    ensures ScanValue(d[..c], i).Fail?
  {
    if ScanValue(d[..c], i).Done? { DecodesInWhole(d, c, i); }
  }

  // The same of a slice loaded on its own: all of the value, or nothing.
  lemma {:induction false} SliceLoads(d: string, a: nat, b: nat)
    requires a < b <= |d| && (d[a] == '{' || d[a] == '[') && ScanValue(d, a).Done?
    requires Loads(d[a..b]).Done?
    ensures Loads(d[a..b]).value == ScanValue(d, a).value && ScanValue(d, a).end <= b
  {
    hide ScanValue;
    var p := d[a..b];
    assert p[0] == d[a] && SkipSpace(p, 0) == 0;
    AgreeIfEqual(p, d, a, 0, |p|);
    ValueCarries(p, d, a, 0, |p|, 0);
  }

  // ------------------------------------------------------- the partial item

  // Past the opening of an item the cut leaves unfinished, salvage finds nothing to keep.
  lemma {:induction false} InsideNothingKept(d: string, c: nat, i: nat, from: nat)
    requires i < from && i < c < |d| && d[i] == '{' && ScanObject(d, i).Done? && c < ScanObject(d, i).end
    requires forall k :: 0 <= k < |ScanObject(d, i).value.members| ==> Clean(ScanObject(d, i).value.members[k].value)
    ensures KeptOf(ObjectsFrom(d[..c], from)) == []
    decreases c - from
  {
    hide ScanValue, ScanObject, Find, Clean;
    var text := d[..c];
    var j := Find(text, '{', from);
    if j >= 0 {
      match ScanValue(text, j)
      case Fail => InsideNothingKept(d, c, i, j + 1);
      case Done(v, e) =>
        DecodesInWhole(d, c, j);
        ObjectAtBrace(d, j);
        InnerBraceHarmless(d, i, j);
        HarmlessNotKept(v);
        InsideNothingKept(d, c, i, e);
        assert ObjectsFrom(text, from) == [v] + ObjectsFrom(text, e);
    }
  }

  lemma {:induction false} ObjectAtBrace(d: string, j: nat)
    requires j < |d| && d[j] == '{'
    ensures ScanValue(d, j) == ScanObject(d, j)
  {
  }

  lemma {:induction false} LookupAbsent(members: seq<Member>, key: Codes)
    requires !HasKey(members, key)
    ensures Lookup(members, key) == Null
  {
  }

  lemma HarmlessNotKept(v: Value)
    requires v.Obj? && Harmless(v.members)
    ensures Kept(v) == []
  {
    LookupAbsent(v.members, STEM);
    LookupAbsent(v.members, QUESTIONS);
  }

  // ------------------------------------------------------- the items in turn

  ghost predicate NoBrace(d: string, a: nat, b: nat)
    requires b <= |d|
  {
    forall k :: a <= k < b ==> d[k] != '{'
  }

  lemma {:induction false} NoBraceInSpace(d: string, a: nat)
    requires a <= |d|
    ensures forall k :: a <= k < SkipSpace(d, a) ==> IsSpace(d[k])
    ensures NoBrace(d, a, SkipSpace(d, a))
    decreases |d| - a
  {
    if a < |d| && IsSpace(d[a]) { NoBraceInSpace(d, a + 1); }
  }

  lemma {:induction false} FindSkips(d: string, c: nat, f: nat, i: nat)
    requires c <= |d| && f <= i <= |d| && NoBrace(d, f, i) && i < |d| && d[i] == '{'
    ensures Find(d[..c], '{', f) == if i < c then i else -1
  {
    var j := Find(d[..c], '{', f);
    FindIsFirst(d[..c], '{', f);
    if j >= 0 { assert d[..c][j] == d[j]; }
    if i < c { assert d[..c][i] == d[i]; }
  }

  lemma {:induction false} BeforeFirst(spans: seq<Span>, cut: nat)
    requires spans != []
    ensures Before(spans, cut) == (if spans[0].end <= cut then [spans[0].item] else []) + Before(spans[1..], cut)
    ensures spans[1..] == [] ==> Before(spans[1..], cut) == []
  {
  }

  // The first span of a list, and the spans of the rest.
  lemma SpansNext(d: string, i: nat)
    requires i <= |d| && ScanElements(d, i).Done?
    ensures ScanValue(d, i).Done? && SkipSpace(d, ScanValue(d, i).end) < |d|
    ensures var v, e := ScanValue(d, i), SkipSpace(d, ScanValue(d, i).end);
      && SpansFrom(d, i) != [] && SpansFrom(d, i)[0] == Span(i, v.end, v.value)
      && (d[e] == ',' ==> ScanElements(d, SkipSpace(d, e + 1)).Done? && SpansFrom(d, i)[1..] == SpansFrom(d, SkipSpace(d, e + 1)))
      && (d[e] != ',' ==> SpansFrom(d, i)[1..] == [])
  {
    hide ScanValue, ScanElements;
    ElementsUnfold(d, i);
  }

  lemma {:induction false} SpansLieAfter(d: string, i: nat, cut: nat)
    requires i <= |d| && ScanElements(d, i).Done? && ScanValue(d, i).Done? && cut < ScanValue(d, i).end
    ensures Before(SpansFrom(d, i), cut) == []
    decreases |d| - i
  {
    hide ScanValue, ScanElements, SpansFrom, Before;
    SpansNext(d, i);
    BeforeFirst(SpansFrom(d, i), cut);
    var e := SkipSpace(d, ScanValue(d, i).end);
    if d[e] == ',' {
      var g := SkipSpace(d, e + 1);
      ElementsUnfold(d, g);
      SpansLieAfter(d, g, cut);
    }
  }

  lemma {:induction false} SpansEndBefore(d: string, i: nat, cut: nat)
    requires i <= |d| && ScanElements(d, i).Done? && ScanElements(d, i).end <= cut
    ensures Before(SpansFrom(d, i), cut) == ScanElements(d, i).value
    decreases |d| - i
  {
    hide ScanValue, ScanElements;
    ElementsUnfold(d, i);
    var e := SkipSpace(d, ScanValue(d, i).end);
    if d[e] == ',' {
      var g := SkipSpace(d, e + 1);
      SpansEndBefore(d, g, cut);
      assert SpansFrom(d, i)[1..] == SpansFrom(d, g);
    } else {
      assert SpansFrom(d, i)[1..] == [];
    }
  }

  lemma {:induction false} PartialNotKept(d: string, c: nat, i: nat)
    requires i < c < |d| && ScanValue(d, i).Done? && IsQuestion(ScanValue(d, i).value) && c < ScanValue(d, i).end
    ensures KeptOf(ObjectsFrom(d[..c], i)) == []
  {
    hide ScanValue, ScanObject, Find, IsQuestion, Clean;
    QuestionOpens(d, i);
    FindSkips(d, c, i, i);
    PrefixNeverDecodes(d, c, i);
    QuestionClean(d, i);
    InsideNothingKept(d, c, i, i + 1);
  }

  // From just before an item, salvage keeps that item if it is complete, and so on.
  lemma {:induction false} SalvageItems(d: string, c: nat, f: nat, i: nat)
    requires c < |d| && f <= i <= |d| && ScanElements(d, i).Done? && NoBrace(d, f, i)
    requires forall k :: 0 <= k < |ScanElements(d, i).value| ==> IsQuestion(ScanElements(d, i).value[k])
    requires NoBrace(d, ScanElements(d, i).end, |d|)
    ensures KeptOf(ObjectsFrom(d[..c], f)) == Before(SpansFrom(d, i), c)
    decreases |d| - i
  {
    hide ScanValue, ScanElements, ScanObject, Find, IsQuestion, Clean;
    ElementsUnfold(d, i);
    var item, e := ScanValue(d, i).value, ScanValue(d, i).end;
    assert ScanElements(d, i).value[0] == item;
    assert IsQuestion(item);
    QuestionOpens(d, i);
    FindSkips(d, c, f, i);
    FindSkips(d, c, i, i);
    ObjectsFromNext(d[..c], f);
    if c < e {
      SpansLieAfter(d, i, c);
      if i < c { PartialNotKept(d, c, i); }
    } else {
      DecodesInCut(d, c, i);
      QuestionKept(item);
      SalvageNext(d, c, i);
    }
  }

  // What follows a complete item: the next one, or the end of the list.
  lemma {:induction false} SalvageNext(d: string, c: nat, i: nat)
    requires c < |d| && i <= |d| && ScanElements(d, i).Done? && ScanValue(d, i).Done? && ScanValue(d, i).end <= c
    requires forall k :: 0 <= k < |ScanElements(d, i).value| ==> IsQuestion(ScanElements(d, i).value[k])
    requires NoBrace(d, ScanElements(d, i).end, |d|)
    ensures [ScanValue(d, i).value] + KeptOf(ObjectsFrom(d[..c], ScanValue(d, i).end)) == Before(SpansFrom(d, i), c)
    decreases |d| - i, 0
  {
    hide ScanValue, ScanElements, ScanObject, Find, IsQuestion, SpansFrom, Before, ObjectsFrom, KeptOf;
    ElementsUnfold(d, i);
    SpansNext(d, i);
    BeforeFirst(SpansFrom(d, i), c);
    var end := ScanValue(d, i).end;
    var e := SkipSpace(d, end);
    NoBraceInSpace(d, end);
    if d[e] == ',' {
      var g := SkipSpace(d, e + 1);
      NoBraceInSpace(d, e + 1);
      var rest := ScanElements(d, g).value;
      forall k | 0 <= k < |rest| ensures IsQuestion(rest[k]) {
        assert ScanElements(d, i).value[k + 1] == rest[k];
      }
      SalvageItems(d, c, end, g);
    } else {
      assert NoBrace(d, end, |d|);
      NothingLeft(d, c, end);
      KeptOfNone();
    }
  }

  lemma {:induction false} NothingLeft(d: string, c: nat, f: nat)
    requires c <= |d| && f <= |d| && NoBrace(d, f, |d|)
    ensures ObjectsFrom(d[..c], f) == []
  {
    hide ScanValue;
    forall k | f <= k < c ensures d[..c][k] != '{' {
      assert d[..c][k] == d[k];
    }
  }

  lemma {:induction false} QuestionOpens(d: string, i: nat)
    requires i <= |d| && ScanValue(d, i).Done? && IsQuestion(ScanValue(d, i).value)
    ensures i < |d| && d[i] == '{' && ScanObject(d, i) == ScanValue(d, i)
  {
    hide ScanObject, ScanArray, Clean;
  }

  lemma {:induction false} QuestionClean(d: string, i: nat)
    requires i < |d| && ScanObject(d, i).Done? && IsQuestion(ScanObject(d, i).value)
    ensures forall k :: 0 <= k < |ScanObject(d, i).value.members| ==> Clean(ScanObject(d, i).value.members[k].value)
  {
    hide ScanObject, Clean;
  }

  lemma QuestionKept(v: Value)
    requires IsQuestion(v)
    ensures Kept(v) == [v]
  {
  }

  // ------------------------------------------------------- before the items

  // A brace or bracket written in a string is one of the characters it spells.
  lemma {:induction false} WrittenMeansSpelt(d: string, i: nat, k: nat)
    requires i <= k < |d| && ScanString(d, i).Done? && k < ScanString(d, i).end - 1
    requires d[k] == '{' || d[k] == '['
    ensures d[k] as int in ScanString(d, i).value
    decreases |d| - i
  {
    var u := ScanUnit(d, i);
    if k >= u.end { WrittenMeansSpelt(d, u.end, k); }
  }

  // Between the opening brace and the list there is no other brace and no bracket.
  lemma WrapperPrefix(d: string, items: seq<Value>, a: nat, e: nat)
    requires ListLies(d, items, a, e)
    ensures forall k :: 1 <= k < a ==> d[k] != '{' && d[k] != '['
  {
    hide ScanArray, ScanKey;
    SpaceOnly(d, 1);
    KeyHasNoBrace(d, SkipSpace(d, 1));
  }

  lemma KeyHasNoBrace(d: string, j: nat)
    requires j <= |d| && ScanKey(d, j).Done? && ScanKey(d, j).value == QUESTIONS
    ensures forall k :: j <= k < ScanKey(d, j).end ==> d[k] != '{' && d[k] != '['
  {
    hide IsSpace, ScanString;
    var q := ScanString(d, j + 1).end;
    var b := SkipSpace(d, q);
    SpaceOnly(d, q);
    SpaceOnly(d, b + 1);
    forall k | j + 1 <= k < q - 1
      ensures d[k] != '{' && d[k] != '['
    {
      if d[k] == '{' || d[k] == '[' { WrittenMeansSpelt(d, j + 1, k); }
    }
  }

  lemma {:induction false} SpaceOnly(d: string, a: nat)
    requires a <= |d|
    ensures forall k :: a <= k < SkipSpace(d, a) ==> d[k] != '{' && d[k] != '['
    decreases |d| - a
  {
    if a < |d| && IsSpace(d[a]) { SpaceOnly(d, a + 1); }
  }

  // ------------------------------------------------------- the whole text

  // A text that starts as the reply does and stops short of its end has no whole object.
  lemma BracesFail(d: string, items: seq<Value>, c: nat)
    requires IsReply(d, items) && c < |d|
    ensures ReplyBetween(d[..c], Find(d[..c], '{', 0), RFind(d[..c], '}')).None?
  {
    hide ScanObject, Loads, ScanValue;
    var z := RFind(d[..c], '}');
    if c > 0 { assert d[..c][0] == '{'; }
    if 0 < z {
      FindHere(d[..c], '{', 0);
      assert d[..c][0..z + 1] == d[0..z + 1];
    }
    if 0 < z && Loads(d[0..z + 1]).Done? {
      ObjectAtBrace(d, 0);
      SliceLoads(d, 0, z + 1);
    }
  }

  lemma {:induction false} ArrayAtBracket(d: string, a: nat)
    requires a < |d| && d[a] == '['
    ensures ScanValue(d, a) == ScanArray(d, a)
  {
  }

  // Its brackets delimit the list if the list was complete, and otherwise nothing.
  lemma BracketsGiveList(d: string, items: seq<Value>, a: nat, e: nat, c: nat)
    requires IsReply(d, items) && ListLies(d, items, a, e) && c < |d|
    ensures ReplyBetween(d[..c], Find(d[..c], '[', 0), RFind(d[..c], ']')) == if e <= c then Some(items) else None
  {
    hide ScanObject, ScanArray, Loads, ScanValue, ScanKey;
    WrapperPrefix(d, items, a, e);
    var text := d[..c];
    forall k | 0 <= k < c ensures text[k] == d[k] {}
    var o, z := Find(text, '[', 0), RFind(text, ']');
    FindIsFirst(text, '[', 0);
    RFindIsLast(text, ']');
    assert o == if a < c then a else -1;
    if a < c && a < z {
      assert text[a..z + 1] == d[a..z + 1];
      ArrayAtBracket(d, a);
      if Loads(d[a..z + 1]).Done? { SliceLoads(d, a, z + 1); }
    }
    if e <= c {
      ListCloses(d, a, e);
      NoBraceInSpace(d, e);
      assert text[e - 1] == ']';
      assert z == e - 1;
      ArrayAtBracket(d, a);
      LoadsExactly(d, a, e);
    }
  }

  lemma {:induction false} ListCloses(d: string, a: nat, e: nat)
    requires a < |d| && ScanArray(d, a).Done? && ScanArray(d, a).end == e
    ensures a + 1 < e && d[e - 1] == ']'
  {
    hide ScanElements;
    var j := SkipSpace(d, a + 1);
    if d[j] != ']' { ElementsClose(d, j); }
  }

  lemma {:induction false} ElementsClose(d: string, j: nat)
    requires j <= |d| && ScanElements(d, j).Done?
    ensures d[ScanElements(d, j).end - 1] == ']'
    decreases |d| - j
  {
    hide ScanElements, ScanValue;
    ElementsUnfold(d, j);
    var e := SkipSpace(d, ScanValue(d, j).end);
    if d[e] != ']' { ElementsClose(d, SkipSpace(d, e + 1)); }
  }

  // A complete value sliced out exactly loads as itself.
  lemma {:induction false} LoadsExactly(d: string, a: nat, e: nat)
    requires a < e <= |d| && (d[a] == '[' || d[a] == '{') && ScanValue(d, a).Done? && ScanValue(d, a).end == e
    ensures Loads(d[a..e]) == Done(ScanValue(d, a).value, e - a)
  {
    hide ScanValue;
    var p := d[a..e];
    assert p[0] == d[a] && SkipSpace(p, 0) == 0;
    var back: int := -(a as int);
    AgreeIfEqual(d, p, back, a, e);
    ValueCarries(d, p, back, a, e, a);
  }

  lemma WholeUnwraps(d: string, items: seq<Value>)
    requires IsReply(d, items)
    ensures WholeReply(d) == Some(items)
  {
    hide ScanObject, ScanValue, Loads;
    ObjectAtBrace(d, 0);
    LoadsExactly(d, 0, |d|);
    assert d[0..|d|] == d;
    ListCertain(d, items);
  }

  lemma {:induction false} ListCertain(d: string, items: seq<Value>)
    requires IsReply(d, items)
    ensures RFind(d, '}') == |d| - 1 > 0
  {
    hide ScanObject;
    RFindIsLast(d, '}');
    var (a, e) := ListSpan(d, items);
  }

  // ------------------------------------------------------- white space and fences

  lemma {:induction false} NoFenceInPrefix(d: string, c: nat, from: nat)
    requires c <= |d| && FindFence(d, from) == -1
    ensures FindFence(d[..c], from) == -1
    decreases |d| - from
  {
    if from + 3 <= c { NoFenceInPrefix(d, c, from + 1); }
  }

  lemma {:induction false} LStripLead(lead: string, rest: string)
    requires forall k :: 0 <= k < |lead| ==> IsBlank(lead[k])
    requires rest == [] || !IsBlank(rest[0])
    ensures LStrip(lead + rest) == rest
  {
    if lead == [] {
      assert lead + rest == rest;
    } else {
      assert (lead + rest)[1..] == lead[1..] + rest;
      LStripLead(lead[1..], rest);
    }
  }

  lemma {:induction false} MembersClose(d: string, j: nat)
    requires j <= |d| && ScanMembers(d, j).Done?
    ensures d[ScanMembers(d, j).end - 1] == '}'
    decreases |d| - j
  {
    hide ScanMember;
    var e := ScanMember(d, j).end;
    if d[e] != '}' { MembersClose(d, SkipSpace(d, e + 1)); }
  }

  lemma {:induction false} ObjectCloses(d: string, i: nat)
    requires i < |d| && ScanObject(d, i).Done?
    ensures d[ScanObject(d, i).end - 1] == '}'
  {
    hide ScanMembers;
    var j := SkipSpace(d, i + 1);
    if d[j] != '}' { MembersClose(d, j); }
  }

  // Stripping white space off the end of a cut text completes no question and loses none.
  lemma {:induction false} BlankEndsNothing(d: string, i: nat, c: nat, cut: nat)
    requires c <= cut <= |d| && i <= |d| && ScanElements(d, i).Done?
    requires forall k :: c <= k < cut ==> IsBlank(d[k])
    requires forall k :: 0 <= k < |ScanElements(d, i).value| ==> IsQuestion(ScanElements(d, i).value[k])
    ensures Before(SpansFrom(d, i), c) == Before(SpansFrom(d, i), cut)
    decreases |d| - i
  {
    hide ScanValue, ScanElements, ScanObject, IsQuestion, SpansFrom, Before;
    ElementsUnfold(d, i);
    SpansNext(d, i);
    BeforeFirst(SpansFrom(d, i), c);
    BeforeFirst(SpansFrom(d, i), cut);
    var end := ScanValue(d, i).end;
    var e := SkipSpace(d, end);
    assert ScanElements(d, i).value[0] == ScanValue(d, i).value;
    QuestionOpens(d, i);
    ObjectCloses(d, i);
    if d[e] == ',' {
      var g := SkipSpace(d, e + 1);
      var rest := ScanElements(d, g).value;
      forall k | 0 <= k < |rest| ensures IsQuestion(rest[k]) {
        assert ScanElements(d, i).value[k + 1] == rest[k];
      }
      BlankEndsNothing(d, g, c, cut);
    }
  }

  // ------------------------------------------------------- the theorem

  lemma {:induction false} ListItems(d: string, items: seq<Value>, cut: nat)
    requires IsReply(d, items) && ListSpan(d, items).1 <= cut
    ensures Before(ReplySpans(d, items), cut) == items
  {
    hide ScanElements, ScanKey;
    var (a, e) := ListSpan(d, items);
    var w := SkipSpace(d, a + 1);
    if d[w] != ']' { SpansEndBefore(d, w, cut); }
  }

  // The reply's own brace opens nothing that decodes.
  lemma {:induction false} WrapperCutOff(d: string, items: seq<Value>, c: nat)
    requires IsReply(d, items) && c < |d|
    ensures ObjectsFrom(d[..c], 0) == ObjectsFrom(d[..c], 1)
    ensures KeptOf([]) == [] && Before([], c) == []
  {
    hide ScanObject, ScanValue, Find;
    FindSkips(d, c, 0, 0);
    if c > 0 {
      ObjectAtBrace(d, 0);
      PrefixNeverDecodes(d, c, 0);
    }
  }

  lemma {:induction false} SalvageOfCut(d: string, items: seq<Value>, c: nat)
    requires IsReply(d, items) && c < |d|
    requires forall k :: 0 <= k < |items| ==> IsQuestion(items[k])
    ensures Salvaged(d[..c]) == Before(ReplySpans(d, items), c)
  {
    hide ScanObject, ScanElements, ScanValue, ScanKey, Find, IsQuestion;
    var (a, e) := ListSpan(d, items);
    var w := SkipSpace(d, a + 1);
    WrapperPrefix(d, items, a, e);
    NoBraceInSpace(d, a + 1);
    NoBraceInSpace(d, e);
    hide IsReply, ObjectsFrom, KeptOf, SpansFrom, Before;
    WrapperCutOff(d, items, c);
    if d[w] == ']' {
      NothingLeft(d, c, 1);
    } else {
      SalvageItems(d, c, 1, w);
    }
  }

  // What unfencing leaves of the cut text: the same text, cut a little earlier.
  lemma CutText(d: string, lead: string, cut: nat) returns (c: nat)
    requires d != [] && d[0] == '{' && FindFence(d, 0) == -1 && cut <= |d|
    requires forall k :: 0 <= k < |lead| ==> IsBlank(lead[k])
    ensures c <= cut && Unfenced(lead + d[..cut]) == d[..c]
    ensures forall k :: c <= k < cut ==> IsBlank(d[k])
  {
    hide FindFence;
    LStripLead(lead, d[..cut]);
    var text := RStrip(d[..cut]);
    c := |text|;
    assert text == d[..cut][..c] == d[..c];
    NoFenceInPrefix(d, c, 0);
    forall k | c <= k < cut ensures IsBlank(d[k]) {
      assert d[..cut][k] == d[k];
    }
  }

  lemma {:induction false} ItemsOfCut(d: string, items: seq<Value>, c: nat)
    requires IsReply(d, items) && c <= |d|
    requires forall k :: 0 <= k < |items| ==> IsQuestion(items[k])
    ensures var whole := WholeReply(d[..c]);
      (if whole.Some? then whole.value else Salvaged(d[..c])) == Before(ReplySpans(d, items), c)
  {
    hide IsReply, ReplyBetween, Salvaged, IsQuestion, ReplySpans;
    var (a, e) := ListSpan(d, items);
    if c == |d| {
      assert d[..c] == d;
      WholeUnwraps(d, items);
      ListItems(d, items, c);
    } else {
      BracesFail(d, items, c);
      BracketsGiveList(d, items, a, e, c);
      if e <= c {
        ListItems(d, items, c);
      } else {
        SalvageOfCut(d, items, c);
      }
    }
  }

  lemma {:induction false} ItemsOfPadded(d: string, items: seq<Value>, lead: string, cut: nat)
    requires IsReply(d, items) && FindFence(d, 0) == -1 && cut <= |d|
    requires forall k :: 0 <= k < |items| ==> IsQuestion(items[k])
    requires forall k :: 0 <= k < |lead| ==> IsBlank(lead[k])
    ensures RawItems(lead + d[..cut]) == Before(ReplySpans(d, items), cut)
  {
    hide ScanObject, ScanElements, Unfenced, WholeReply, Salvaged, IsQuestion, IsBlank;
    var c := CutText(d, lead, cut);
    ItemsOfCut(d, items, c);
    var (a, e) := ListSpan(d, items);
    if d[SkipSpace(d, a + 1)] != ']' { BlankEndsNothing(d, SkipSpace(d, a + 1), c, cut); }
  }

  lemma {:induction false} RStripTrail(s: string, trail: string)
    requires forall k :: 0 <= k < |trail| ==> IsBlank(trail[k])
    ensures RStrip(s + trail) == RStrip(s)
  {
    if trail == [] {
      assert s + trail == s;
    } else {
      var n := |trail| - 1;
      assert (s + trail)[..|s + trail| - 1] == s + trail[..n];
      RStripTrail(s, trail[..n]);
    }
  }

  // White space around a reply is stripped before anything reads it.
  lemma TrailStripped(d: string, lead: string, trail: string)
    requires d != [] && d[0] == '{'
    requires forall k :: 0 <= k < |lead| ==> IsBlank(lead[k])
    requires forall k :: 0 <= k < |trail| ==> IsBlank(trail[k])
    ensures RawItems(lead + (d + trail)) == RawItems(lead + d)
  {
    hide RStrip, WholeReply, Salvaged;
    LStripLead(lead, d + trail);
    LStripLead(lead, d);
    RStripTrail(d, trail);
  }

  /** The reply `{"questions": [q1, ..., qn]}`, in any layout and with any escapes, with no
      fence in it, padded with any white space and cut at any character: the items handed to
      the reply contract are exactly the questions complete before the cut. */
  lemma {:induction false} CutReplyYieldsCompleted(d: string, items: seq<Value>, lead: string, trail: string, cut: nat)
    requires IsReply(d, items) && FindFence(d, 0) == -1 && cut <= |d + trail|
    requires forall k :: 0 <= k < |items| ==> IsQuestion(items[k])
    requires forall k :: 0 <= k < |lead| ==> IsBlank(lead[k])
    requires forall k :: 0 <= k < |trail| ==> IsBlank(trail[k])
    ensures RawItems(lead + (d + trail)[..cut]) == Before(ReplySpans(d, items), cut)
  {
    hide IsReply, IsQuestion, RawItems, ReplySpans, FindFence, IsBlank;
    if cut <= |d| {
      assert (d + trail)[..cut] == d[..cut];
      ItemsOfPadded(d, items, lead, cut);
    } else {
      var after := trail[..cut - |d|];
      assert (d + trail)[..cut] == d + after && d[..|d|] == d;
      StartsWithBrace(d, items);
      TrailStripped(d, lead, after);
      ItemsOfPadded(d, items, lead, |d|);
      ListWithin(d, items);
      ListItems(d, items, |d|);
      ListItems(d, items, cut);
    }
  }

  lemma StartsWithBrace(d: string, items: seq<Value>)
    requires IsReply(d, items)
    ensures d != [] && d[0] == '{'
  {
  }

  lemma ListWithin(d: string, items: seq<Value>)
    requires IsReply(d, items)
    ensures ListSpan(d, items).1 <= |d|
  {
  }

  // The spans the theorem counts are the list's own items, each decoded where it lies.
  lemma {:induction false} SpansAreItems(d: string, items: seq<Value>)
    requires IsReply(d, items)
    ensures Before(ReplySpans(d, items), |d|) == items
    ensures forall k :: 0 <= k < |ReplySpans(d, items)| ==>
              var s := ReplySpans(d, items)[k];
              s.start < s.end <= |d| && ScanValue(d, s.start) == Done(s.item, s.end)
  {
    hide ScanValue, ScanElements, ScanKey;
    var (a, e) := ListSpan(d, items);
    var w := SkipSpace(d, a + 1);
    ListItems(d, items, |d|);
    if d[w] != ']' { SpansDecode(d, w); }
  }

  lemma {:induction false} SpansDecode(d: string, i: nat)
    requires i <= |d| && ScanElements(d, i).Done?
    ensures forall k :: 0 <= k < |SpansFrom(d, i)| ==>
              var s := SpansFrom(d, i)[k];
              s.start < s.end <= |d| && ScanValue(d, s.start) == Done(s.item, s.end)
    decreases |d| - i
  {
    hide ScanValue, ScanElements;
    ElementsUnfold(d, i);
    var e := SkipSpace(d, ScanValue(d, i).end);
    if d[e] == ',' { SpansDecode(d, SkipSpace(d, e + 1)); }
  }
}
