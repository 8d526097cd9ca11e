/** Where the quotes fall. Starting a decoder at a brace that is not the opening brace of
    an item either starts it at an object nested in the item, or inside one of the item's
    strings, where every quote it meets is read the wrong way round. Both are harmless: a
    nested object carries neither marker key by assumption, and a key read inside out is
    made of the punctuation between two strings, which cannot spell `stem` or `questions`. */
module JsonQuotes {
  import opened Json

  const STEM: Codes := CodesOf("stem")
  const QUESTIONS: Codes := CodesOf("questions")

  // An object that salvage passes over: neither a question nor a wrapper of questions.
  predicate Harmless(members: seq<Member>) {
    !HasKey(members, STEM) && !HasKey(members, QUESTIONS)
  }

  // Every object in the value, at any depth, is harmless.
  predicate Clean(v: Value) {
    match v
    case Arr(items) => forall k :: 0 <= k < |items| ==> Clean(items[k])
    case Obj(members) => Harmless(members) && forall k :: 0 <= k < |members| ==> Clean(members[k].value)
    case _ => true
  }

  datatype Lex = Outside | Inside | Escaped

  function Next(state: Lex, c: char): Lex {
    match state
    case Outside => if c == '"' then Inside else Outside
    case Inside => if c == '"' then Outside else if c == '\\' then Escaped else Inside
    case Escaped => Inside
  }

  // Reading from o, whether character k falls inside a string.
  function LexAt(s: string, o: nat, k: nat): Lex
    requires o <= k <= |s|
    decreases k
  {
    if k == o then Outside else Next(LexAt(s, o, k - 1), s[k - 1])
  }

  ghost predicate HarmlessAt(s: string, k: nat)
    requires k < |s|
  {
    var r := ScanObject(s, k);
    r.Done? ==> Harmless(r.value.members)
  }

  // What a well-formed document shows of each of its characters.
  ghost predicate Fine(s: string, o: nat, k: nat)
    requires o <= k < |s|
  {
    match LexAt(s, o, k)
    case Outside => s[k] != 'm' && s[k] != 'q' && s[k] != '\\' && (s[k] == '{' ==> HarmlessAt(s, k))
    case Inside => true
    case Escaped => s[k] != '{'
  }

  ghost predicate AllFine(s: string, o: nat, a: nat, b: nat)
    requires o <= a && b <= |s|
  {
    forall k :: a <= k < b ==> Fine(s, o, k)
  }

  ghost predicate Tidy(s: string, o: nat, a: nat, b: nat) {
    && o <= a <= b <= |s|
    && LexAt(s, o, a) == Outside
    && LexAt(s, o, b) == Outside
    && AllFine(s, o, a, b)
  }

  // --------------------------------------------------- reading the right way

  predicate Plain(c: char) { c != '"' && c != '{' && c != 'm' && c != 'q' && c != '\\' }

  // A run of plain characters neither opens nor closes a string.
  lemma {:induction false} PlainRun(s: string, o: nat, a: nat, b: nat)
    requires o <= a <= b <= |s| && LexAt(s, o, a) != Escaped
    requires forall k :: a <= k < b ==> Plain(s[k])
    ensures LexAt(s, o, b) == LexAt(s, o, a)
    ensures AllFine(s, o, a, b)
    decreases b - a
  {
    if a < b {
      assert LexAt(s, o, a + 1) == LexAt(s, o, a);
      assert Fine(s, o, a);
      PlainRun(s, o, a + 1, b);
    }
  }

  lemma {:induction false} SpacesPlain(s: string, i: nat)
    requires i <= |s|
    ensures forall k :: i <= k < SkipSpace(s, i) ==> Plain(s[k])
    decreases |s| - i
  {
    if i < |s| && IsSpace(s[i]) { SpacesPlain(s, i + 1); }
  }

  lemma {:induction false} DigitsPlain(s: string, i: nat)
    requires i <= |s|
    ensures forall k :: i <= k < SkipDigits(s, i) ==> Plain(s[k])
    decreases |s| - i
  {
    if i < |s| && IsDigit(s[i]) { DigitsPlain(s, i + 1); }
  }

  lemma NumberPlain(s: string, i: nat)
    requires i < |s|
    ensures forall k :: i <= k < ScanNumber(s, i) ==> Plain(s[k])
  {
    hide SkipDigits;
    var a := if s[i] == '-' then i + 1 else i;
    if a < |s| && IsDigit(s[a]) {
      DigitsPlain(s, a);
      var b := WholeEnd(s, a);
      if b + 1 < |s| { DigitsPlain(s, b + 1); }
      var c := FractionEnd(s, b);
      if c + 1 < |s| { DigitsPlain(s, c + 1); }
      if c + 2 < |s| { DigitsPlain(s, c + 2); }
    }
  }

  lemma AtomPlain(s: string, i: nat)
    requires i < |s| && ScanAtom(s, i).Done?
    ensures forall k :: i <= k < ScanAtom(s, i).end ==> Plain(s[k])
  {
    NumberPlain(s, i);
    if ScanNumber(s, i) == i {
      var e := ScanWord(s, i).end;
      forall k | i <= k < e
        ensures Plain(s[k])
      {
        assert s[k] == s[i..e][k - i];
      }
    }
  }

  // A string read from inside ends outside.
  lemma {:induction false} StringFine(s: string, o: nat, i: nat)
    requires o <= i <= |s| && LexAt(s, o, i) == Inside && ScanString(s, i).Done?
    ensures LexAt(s, o, ScanString(s, i).end) == Outside
    ensures AllFine(s, o, i, ScanString(s, i).end)
    decreases |s| - i
  {
    assert Fine(s, o, i);
    if s[i] == '"' {
      assert LexAt(s, o, i + 1) == Outside;
    } else {
      var j := ScanUnit(s, i).end;
      UnitFine(s, o, i);
      StringFine(s, o, j);
    }
  }

  lemma {:induction false} UnitFine(s: string, o: nat, i: nat)
    requires o <= i < |s| && LexAt(s, o, i) == Inside && s[i] != '"' && ScanUnit(s, i).Done?
    ensures LexAt(s, o, ScanUnit(s, i).end) == Inside
    ensures AllFine(s, o, i, ScanUnit(s, i).end)
  {
    assert LexAt(s, o, i + 1) == if s[i] == '\\' then Escaped else Inside;
    if s[i] == '\\' {
      assert LexAt(s, o, i + 2) == Inside;
      if s[i + 1] == 'u' { PlainRun(s, o, i + 2, i + 6); }
    }
  }

  lemma {:induction false} SpaceTidy(s: string, o: nat, a: nat)
    requires o <= a <= |s| && LexAt(s, o, a) == Outside
    ensures Tidy(s, o, a, SkipSpace(s, a))
  {
    SpacesPlain(s, a);
    PlainRun(s, o, a, SkipSpace(s, a));
  }

  // One punctuation mark outside any string, and the space after it.
  lemma {:induction false} MarkTidy(s: string, o: nat, a: nat)
    requires o <= a < |s| && LexAt(s, o, a) == Outside && Plain(s[a])
    ensures Tidy(s, o, a, a + 1) && Tidy(s, o, a, SkipSpace(s, a + 1))
  {
    PlainRun(s, o, a, a + 1);
    SpaceTidy(s, o, a + 1);
  }

  lemma {:induction false} QuotedTidy(s: string, o: nat, a: nat)
    requires o <= a < |s| && LexAt(s, o, a) == Outside && s[a] == '"' && ScanString(s, a + 1).Done?
    ensures Tidy(s, o, a, ScanString(s, a + 1).end)
  {
    assert LexAt(s, o, a + 1) == Inside;
    assert Fine(s, o, a);
    StringFine(s, o, a + 1);
  }

  lemma {:induction false} KeyTidy(s: string, o: nat, i: nat)
    requires o <= i <= |s| && LexAt(s, o, i) == Outside && ScanKey(s, i).Done?
    ensures Tidy(s, o, i, ScanKey(s, i).end)
  {
    QuotedTidy(s, o, i);
    var a := ScanString(s, i + 1).end;
    SpaceTidy(s, o, a);
    MarkTidy(s, o, SkipSpace(s, a));
  }

  lemma {:induction false} ValueTidy(s: string, o: nat, i: nat)
    requires o <= i <= |s| && LexAt(s, o, i) == Outside
    requires ScanValue(s, i).Done? && Clean(ScanValue(s, i).value)
    ensures Tidy(s, o, i, ScanValue(s, i).end)
    decreases |s| - i, 1
  {
    hide Harmless;
    if s[i] == '"' {
      QuotedTidy(s, o, i);
    } else if s[i] == '{' {
      ObjectTidy(s, o, i);
    } else if s[i] == '[' {
      ArrayTidy(s, o, i);
    } else {
      AtomPlain(s, i);
      PlainRun(s, o, i, ScanAtom(s, i).end);
    }
  }

  lemma {:induction false} ObjectTidy(s: string, o: nat, i: nat)
    requires o <= i < |s| && LexAt(s, o, i) == Outside && s[i] == '{'
    requires ScanObject(s, i).Done? && Clean(ScanObject(s, i).value)
    ensures Tidy(s, o, i, ScanObject(s, i).end)
    decreases |s| - i, 0
  {
    hide Harmless, ScanMembers;
    assert Fine(s, o, i);
    ObjectRestTidy(s, o, i);
  }

  // All of an object but its opening brace, given that what it holds is clean.
  lemma {:induction false} ObjectRestTidy(s: string, o: nat, i: nat)
    requires o <= i < |s| && LexAt(s, o, i) == Outside && s[i] == '{'
    requires ScanObject(s, i).Done?
    requires forall k :: 0 <= k < |ScanObject(s, i).value.members| ==> Clean(ScanObject(s, i).value.members[k].value)
    ensures Tidy(s, o, i + 1, ScanObject(s, i).end)
    decreases |s| - i - 1, 4
  {
    hide Harmless, ScanMembers;
    assert LexAt(s, o, i + 1) == Outside;
    SpaceTidy(s, o, i + 1);
    var j := SkipSpace(s, i + 1);
    if s[j] == '}' {
      MarkTidy(s, o, j);
    } else {
      MembersTidy(s, o, j);
    }
  }

  lemma {:induction false} ArrayTidy(s: string, o: nat, i: nat)
    requires o <= i < |s| && LexAt(s, o, i) == Outside && s[i] == '['
    requires ScanArray(s, i).Done? && Clean(ScanArray(s, i).value)
    ensures Tidy(s, o, i, ScanArray(s, i).end)
    decreases |s| - i, 0
  {
    hide Harmless, ScanElements;
    MarkTidy(s, o, i);
    var j := SkipSpace(s, i + 1);
    if s[j] == ']' {
      MarkTidy(s, o, j);
    } else {
      ElementsTidy(s, o, j);
    }
  }

  lemma {:induction false} MembersTidy(s: string, o: nat, i: nat)
    requires o <= i <= |s| && LexAt(s, o, i) == Outside && ScanMembers(s, i).Done?
    requires forall k :: 0 <= k < |ScanMembers(s, i).value| ==> Clean(ScanMembers(s, i).value[k].value)
    ensures Tidy(s, o, i, ScanMembers(s, i).end)
    decreases |s| - i, 3
  {
    hide Harmless, ScanMember;
    assert Clean(ScanMembers(s, i).value[0].value);
    var d := ScanMember(s, i).end;
    MemberTidy(s, o, i);
    MarkTidy(s, o, d);
    if s[d] != '}' {
      var j := SkipSpace(s, d + 1);
      var rest := ScanMembers(s, j).value;
      forall k | 0 <= k < |rest| ensures Clean(rest[k].value) {
        assert ScanMembers(s, i).value[k + 1] == rest[k];
      }
      MembersTidy(s, o, j);
    }
  }

  lemma {:induction false} MemberTidy(s: string, o: nat, i: nat)
    requires o <= i <= |s| && LexAt(s, o, i) == Outside
    requires ScanMember(s, i).Done? && Clean(ScanMember(s, i).value.value)
    ensures Tidy(s, o, i, ScanMember(s, i).end)
    decreases |s| - i, 2
  {
    hide Harmless, ScanValue, ScanKey;
    KeyTidy(s, o, i);
    var v := ScanKey(s, i).end;
    ValueTidy(s, o, v);
    SpaceTidy(s, o, ScanValue(s, v).end);
  }

  lemma {:induction false} ElementsTidy(s: string, o: nat, i: nat)
    requires o <= i <= |s| && LexAt(s, o, i) == Outside && ScanElements(s, i).Done?
    requires forall k :: 0 <= k < |ScanElements(s, i).value| ==> Clean(ScanElements(s, i).value[k])
    ensures Tidy(s, o, i, ScanElements(s, i).end)
    decreases |s| - i, 3
  {
    hide Harmless, ScanElement;
    assert Clean(ScanElements(s, i).value[0]);
    var d := ScanElement(s, i).end;
    ElementTidy(s, o, i);
    MarkTidy(s, o, d);
    if s[d] != ']' {
      var j := SkipSpace(s, d + 1);
      var rest := ScanElements(s, j).value;
      forall k | 0 <= k < |rest| ensures Clean(rest[k]) {
        assert ScanElements(s, i).value[k + 1] == rest[k];
      }
      ElementsTidy(s, o, j);
    }
  }

  lemma {:induction false} ElementTidy(s: string, o: nat, i: nat)
    requires o <= i <= |s| && LexAt(s, o, i) == Outside
    requires ScanElement(s, i).Done? && Clean(ScanElement(s, i).value)
    ensures Tidy(s, o, i, ScanElement(s, i).end)
    decreases |s| - i, 2
  {
    hide Harmless, ScanValue;
    ValueTidy(s, o, i);
    SpaceTidy(s, o, ScanValue(s, i).end);
  }

  // --------------------------------------------------- reading inside out

  // From outside, what a decoder takes for a string runs to where the next one opens.
  lemma {:induction false} StringInverted(s: string, o: nat, i: nat)
    requires o <= i <= |s| && LexAt(s, o, i) == Outside && ScanString(s, i).Done?
    requires AllFine(s, o, i, ScanString(s, i).end)
    ensures LexAt(s, o, ScanString(s, i).end) == Inside
    ensures 'm' as int !in ScanString(s, i).value && 'q' as int !in ScanString(s, i).value
    decreases |s| - i
  {
    assert Fine(s, o, i);
    assert LexAt(s, o, i + 1) == if s[i] == '"' then Inside else Outside;
    if s[i] != '"' { StringInverted(s, o, i + 1); }
  }

  lemma {:induction false} PlainInverted(s: string, o: nat, i: nat, j: nat)
    requires o <= i <= j <= |s| && LexAt(s, o, i) == Inside
    requires forall k :: i <= k < j ==> Plain(s[k])
    ensures LexAt(s, o, j) == Inside
  {
    PlainRun(s, o, i, j);
  }

  lemma MarkInverted(s: string, o: nat, a: nat)
    requires o <= a < |s| && LexAt(s, o, a) == Inside && s[a] != '"' && s[a] != '\\'
    ensures LexAt(s, o, a + 1) == Inside && LexAt(s, o, SkipSpace(s, a + 1)) == Inside
  {
    assert LexAt(s, o, a + 1) == Inside;
    SpacesPlain(s, a + 1);
    PlainInverted(s, o, a + 1, SkipSpace(s, a + 1));
  }

  lemma {:induction false} SpaceInverted(s: string, o: nat, a: nat)
    requires o <= a <= |s| && LexAt(s, o, a) == Inside
    ensures LexAt(s, o, SkipSpace(s, a)) == Inside
  {
    SpacesPlain(s, a);
    PlainInverted(s, o, a, SkipSpace(s, a));
  }

  lemma QuotedInverted(s: string, o: nat, i: nat)
    requires o <= i < |s| && LexAt(s, o, i) == Inside && s[i] == '"' && ScanString(s, i + 1).Done?
    requires AllFine(s, o, i, ScanString(s, i + 1).end)
    ensures LexAt(s, o, ScanString(s, i + 1).end) == Inside
    ensures 'm' as int !in ScanString(s, i + 1).value && 'q' as int !in ScanString(s, i + 1).value
  {
    assert LexAt(s, o, i + 1) == Outside;
    StringInverted(s, o, i + 1);
  }

  lemma {:induction false} KeyInverted(s: string, o: nat, i: nat)
    requires o <= i <= |s| && LexAt(s, o, i) == Inside && ScanKey(s, i).Done?
    requires AllFine(s, o, i, ScanKey(s, i).end)
    ensures LexAt(s, o, ScanKey(s, i).end) == Inside
    ensures 'm' as int !in ScanKey(s, i).value && 'q' as int !in ScanKey(s, i).value
  {
    QuotedInverted(s, o, i);
    var a := ScanString(s, i + 1).end;
    SpaceInverted(s, o, a);
    MarkInverted(s, o, SkipSpace(s, a));
  }

  lemma {:induction false} ValueInverted(s: string, o: nat, i: nat)
    requires o <= i <= |s| && LexAt(s, o, i) == Inside && ScanValue(s, i).Done?
    requires AllFine(s, o, i, ScanValue(s, i).end)
    ensures LexAt(s, o, ScanValue(s, i).end) == Inside
    decreases |s| - i, 1
  {
    if s[i] == '"' {
      QuotedInverted(s, o, i);
    } else if s[i] == '{' {
      ObjectInverted(s, o, i);
    } else if s[i] == '[' {
      ArrayInverted(s, o, i);
    } else {
      AtomPlain(s, i);
      PlainInverted(s, o, i, ScanAtom(s, i).end);
    }
  }

  // An object decoded from inside a string has no key that spells either marker.
  lemma {:induction false} ObjectInverted(s: string, o: nat, i: nat)
    requires o <= i < |s| && LexAt(s, o, i) == Inside && s[i] == '{' && ScanObject(s, i).Done?
    requires AllFine(s, o, i, ScanObject(s, i).end)
    ensures LexAt(s, o, ScanObject(s, i).end) == Inside
    ensures Harmless(ScanObject(s, i).value.members)
    decreases |s| - i, 0
  {
    hide ScanMembers;
    MarkInverted(s, o, i);
    var j := SkipSpace(s, i + 1);
    if s[j] == '}' {
      MarkInverted(s, o, j);
    } else {
      MembersInverted(s, o, j);
      assert STEM[3] == 'm' as int && QUESTIONS[0] == 'q' as int;
    }
  }

  lemma {:induction false} ArrayInverted(s: string, o: nat, i: nat)
    requires o <= i < |s| && LexAt(s, o, i) == Inside && s[i] == '[' && ScanArray(s, i).Done?
    requires AllFine(s, o, i, ScanArray(s, i).end)
    ensures LexAt(s, o, ScanArray(s, i).end) == Inside
    decreases |s| - i, 0
  {
    hide ScanElements;
    MarkInverted(s, o, i);
    var j := SkipSpace(s, i + 1);
    if s[j] == ']' {
      MarkInverted(s, o, j);
    } else {
      ElementsInverted(s, o, j);
    }
  }

  lemma {:induction false} MembersInverted(s: string, o: nat, i: nat)
    requires o <= i <= |s| && LexAt(s, o, i) == Inside && ScanMembers(s, i).Done?
    requires AllFine(s, o, i, ScanMembers(s, i).end)
    ensures LexAt(s, o, ScanMembers(s, i).end) == Inside
    ensures forall k :: 0 <= k < |ScanMembers(s, i).value| ==>
              'm' as int !in ScanMembers(s, i).value[k].key && 'q' as int !in ScanMembers(s, i).value[k].key
    decreases |s| - i, 3
  {
    hide ScanMember;
    var d := ScanMember(s, i).end;
    MemberInverted(s, o, i);
    MarkInverted(s, o, d);
    if s[d] != '}' { MembersInverted(s, o, SkipSpace(s, d + 1)); }
  }

  lemma {:induction false} MemberInverted(s: string, o: nat, i: nat)
    requires o <= i <= |s| && LexAt(s, o, i) == Inside && ScanMember(s, i).Done?
    requires AllFine(s, o, i, ScanMember(s, i).end)
    ensures LexAt(s, o, ScanMember(s, i).end) == Inside
    ensures 'm' as int !in ScanMember(s, i).value.key && 'q' as int !in ScanMember(s, i).value.key
    decreases |s| - i, 2
  {
    hide ScanValue, ScanKey;
    KeyInverted(s, o, i);
    var v := ScanKey(s, i).end;
    ValueInverted(s, o, v);
    SpaceInverted(s, o, ScanValue(s, v).end);
  }

  lemma {:induction false} ElementsInverted(s: string, o: nat, i: nat)
    requires o <= i <= |s| && LexAt(s, o, i) == Inside && ScanElements(s, i).Done?
    requires AllFine(s, o, i, ScanElements(s, i).end)
    ensures LexAt(s, o, ScanElements(s, i).end) == Inside
    decreases |s| - i, 3
  {
    hide ScanElement;
    var d := ScanElement(s, i).end;
    ElementInverted(s, o, i);
    MarkInverted(s, o, d);
    if s[d] != ']' { ElementsInverted(s, o, SkipSpace(s, d + 1)); }
  }

  lemma {:induction false} ElementInverted(s: string, o: nat, i: nat)
    requires o <= i <= |s| && LexAt(s, o, i) == Inside && ScanElement(s, i).Done?
    requires AllFine(s, o, i, ScanElement(s, i).end)
    ensures LexAt(s, o, ScanElement(s, i).end) == Inside
    decreases |s| - i, 2
  {
    hide ScanValue;
    ValueInverted(s, o, i);
    SpaceInverted(s, o, ScanValue(s, i).end);
  }

  // ------------------------------------------------------------- together

  // Every object a decoder can start inside an item, wherever it starts, is harmless.
  lemma {:induction false} InnerBraceHarmless(s: string, i: nat, j: nat)
    requires i < |s| && s[i] == '{' && ScanObject(s, i).Done?
    requires forall k :: 0 <= k < |ScanObject(s, i).value.members| ==> Clean(ScanObject(s, i).value.members[k].value)
    requires i < j < ScanObject(s, i).end && s[j] == '{'
    requires ScanObject(s, j).Done? && ScanObject(s, j).end <= ScanObject(s, i).end
    ensures Harmless(ScanObject(s, j).value.members)
  {
    hide Harmless, ScanObject;
    ObjectRestTidy(s, i, i);
    assert Fine(s, i, j);
    if LexAt(s, i, j) == Inside { ObjectInverted(s, i, j); }
  }
}
