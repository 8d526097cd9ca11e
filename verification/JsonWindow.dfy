/** The decoder reads nothing beyond the value it returns. So a value decoded inside one
    text is decoded, at the matching place, inside any other text that agrees with the
    first on the characters read. This is what makes cutting a reply short predictable. */
module JsonWindow {
  import opened Json

  // Characters lo up to n of p are the characters d places further on in t. Stated one
  // character at a time, so that each is brought up only where it is read.
  ghost predicate Agree(p: string, t: string, d: int, lo: nat, n: nat) {
    && lo <= n <= |p| && 0 <= lo + d && n + d <= |t|
    && (n == lo || (p[n - 1] == t[n - 1 + d] && Agree(p, t, d, lo, n - 1)))
  }

  lemma {:induction false} At(p: string, t: string, d: int, lo: nat, n: nat, k: nat)
    requires Agree(p, t, d, lo, n) && lo <= k < n
    ensures n <= |p| && 0 <= lo + d && n + d <= |t| && p[k] == t[k + d]
    decreases n
  {
    if k < n - 1 { At(p, t, d, lo, n - 1, k); }
  }

  lemma {:induction false} AgreeIfEqual(p: string, t: string, d: int, lo: nat, n: nat)
    requires lo <= n <= |p| && 0 <= lo + d && n + d <= |t| && p[lo..n] == t[lo + d..n + d]
    ensures Agree(p, t, d, lo, n)
    decreases n
  {
    if lo < n {
      var a, b := p[lo..n], t[lo + d..n + d];
      assert p[n - 1] == a[n - 1 - lo] && t[n - 1 + d] == b[n - 1 - lo];
      assert p[lo..n - 1] == a[..n - 1 - lo] && t[lo + d..n - 1 + d] == b[..n - 1 - lo];
      AgreeIfEqual(p, t, d, lo, n - 1);
    }
  }

  // What may follow a value inside a document. A number ends only where it cannot go on.
  predicate IsStop(c: char) { IsSpace(c) || c == ',' || c == ']' || c == '}' }

  predicate Opens(c: char) { c == '"' || c == '{' || c == '[' }

  lemma {:induction false} SpaceCarries(p: string, t: string, d: int, lo: nat, n: nat, i: nat)
    requires Agree(p, t, d, lo, n) && lo <= i <= n && SkipSpace(p, i) < n
    ensures SkipSpace(t, i + d) == SkipSpace(p, i) + d
    ensures p[SkipSpace(p, i)] == t[SkipSpace(p, i) + d]
    decreases n - i
  {
    At(p, t, d, lo, n, i);
    if IsSpace(p[i]) { SpaceCarries(p, t, d, lo, n, i + 1); }
  }

  lemma {:induction false} DigitsCarry(p: string, t: string, d: int, lo: nat, n: nat, i: nat)
    requires Agree(p, t, d, lo, n) && lo <= i <= n && SkipDigits(p, i) < n
    ensures SkipDigits(t, i + d) == SkipDigits(p, i) + d
    decreases n - i
  {
    At(p, t, d, lo, n, i);
    if IsDigit(p[i]) { DigitsCarry(p, t, d, lo, n, i + 1); }
  }

  lemma {:induction false} UnitCarries(p: string, t: string, d: int, lo: nat, n: nat, i: nat)
    requires Agree(p, t, d, lo, n) && lo <= i < n && ScanUnit(p, i).Done? && ScanUnit(p, i).end <= n
    ensures ScanUnit(t, i + d) == Done(ScanUnit(p, i).value, ScanUnit(p, i).end + d)
  {
    At(p, t, d, lo, n, i);
    if p[i] == '\\' {
      At(p, t, d, lo, n, i + 1);
      if p[i + 1] == 'u' {
        At(p, t, d, lo, n, i + 2);
        At(p, t, d, lo, n, i + 3);
        At(p, t, d, lo, n, i + 4);
        At(p, t, d, lo, n, i + 5);
      }
    }
  }

  lemma {:induction false} StringCarries(p: string, t: string, d: int, lo: nat, n: nat, i: nat)
    requires Agree(p, t, d, lo, n) && lo <= i <= n
    requires ScanString(p, i).Done? && ScanString(p, i).end <= n
    ensures ScanString(t, i + d) == Done(ScanString(p, i).value, ScanString(p, i).end + d)
    decreases n - i
  {
    At(p, t, d, lo, n, i);
    if p[i] != '"' {
      UnitCarries(p, t, d, lo, n, i);
      StringCarries(p, t, d, lo, n, ScanUnit(p, i).end);
    }
  }

  lemma {:induction false} SliceCarries(p: string, t: string, d: int, lo: nat, n: nat, i: nat, j: nat)
    requires Agree(p, t, d, lo, n) && lo <= i <= j <= n
    ensures p[i..j] == t[i + d..j + d]
  {
    forall k | 0 <= k < j - i
      ensures p[i..j][k] == t[i + d..j + d][k]
    {
      At(p, t, d, lo, n, i + k);
    }
  }

  lemma {:induction false} ExponentCarries(p: string, t: string, d: int, lo: nat, n: nat, c: nat)
    requires Agree(p, t, d, lo, n) && lo <= c <= n
    requires ExponentEnd(p, c) < n && IsStop(p[ExponentEnd(p, c)])
    ensures ExponentEnd(t, c + d) == ExponentEnd(p, c) + d
  {
    At(p, t, d, lo, n, c);
    if p[c] == 'e' || p[c] == 'E' {
      At(p, t, d, lo, n, c + 1);
      var f := if p[c + 1] == '-' || p[c + 1] == '+' then c + 2 else c + 1;
      At(p, t, d, lo, n, f);
      DigitsCarry(p, t, d, lo, n, f);
    }
  }

  lemma {:induction false} FractionCarries(p: string, t: string, d: int, lo: nat, n: nat, b: nat)
    requires Agree(p, t, d, lo, n) && lo <= b <= n
    requires FractionEnd(p, b) < n && p[FractionEnd(p, b)] != '.'
    ensures FractionEnd(t, b + d) == FractionEnd(p, b) + d
  {
    At(p, t, d, lo, n, b);
    if p[b] == '.' {
      At(p, t, d, lo, n, b + 1);
      DigitsCarry(p, t, d, lo, n, b + 1);
    }
  }

  lemma {:induction false} NumberCarries(p: string, t: string, d: int, lo: nat, n: nat, i: nat)
    requires Agree(p, t, d, lo, n) && lo <= i < n
    requires i < ScanNumber(p, i) < n && IsStop(p[ScanNumber(p, i)])
    ensures ScanNumber(t, i + d) == ScanNumber(p, i) + d
  {
    hide Agree, SkipDigits, ExponentEnd, FractionEnd, WholeEnd;
    At(p, t, d, lo, n, i);
    var a := if p[i] == '-' then i + 1 else i;
    At(p, t, d, lo, n, a);
    var b := WholeEnd(p, a);
    var c := FractionEnd(p, b);
    ExponentCarries(p, t, d, lo, n, c);
    NoPointLeft(p, c);
    FractionCarries(p, t, d, lo, n, b);
    WholeCarries(p, t, d, lo, n, a);
  }

  // A number that stops has no decimal point where its fraction ends.
  lemma NoPointLeft(p: string, c: nat)
    requires c <= |p| && ExponentEnd(p, c) < |p| && IsStop(p[ExponentEnd(p, c)])
    ensures c < |p| && p[c] != '.'
  {
    hide SkipDigits;
  }

  lemma {:induction false} WholeCarries(p: string, t: string, d: int, lo: nat, n: nat, a: nat)
    requires Agree(p, t, d, lo, n) && lo <= a < n && WholeEnd(p, a) < n
    ensures WholeEnd(t, a + d) == WholeEnd(p, a) + d
  {
    At(p, t, d, lo, n, a);
    if p[a] != '0' { DigitsCarry(p, t, d, lo, n, a); }
  }

  lemma {:induction false} NoNumberCarries(p: string, t: string, d: int, lo: nat, n: nat, i: nat)
    requires Agree(p, t, d, lo, n) && lo <= i && i + 1 < n && ScanNumber(p, i) == i
    ensures ScanNumber(t, i + d) == i + d
  {
    At(p, t, d, lo, n, i);
    At(p, t, d, lo, n, i + 1);
  }

  lemma {:induction false} WordCarries(p: string, t: string, d: int, lo: nat, n: nat, i: nat)
    requires Agree(p, t, d, lo, n) && lo <= i < n
    requires ScanWord(p, i).Done? && ScanWord(p, i).end <= n
    ensures ScanWord(t, i + d) == Done(ScanWord(p, i).value, ScanWord(p, i).end + d)
  {
    At(p, t, d, lo, n, i);
    SliceCarries(p, t, d, lo, n, i, ScanWord(p, i).end);
  }

  lemma {:induction false} AtomCarries(p: string, t: string, d: int, lo: nat, n: nat, i: nat)
    requires Agree(p, t, d, lo, n) && lo <= i < n
    requires ScanAtom(p, i).Done? && ScanAtom(p, i).end < n && IsStop(p[ScanAtom(p, i).end])
    ensures ScanAtom(t, i + d) == Done(ScanAtom(p, i).value, ScanAtom(p, i).end + d)
  {
    var j := ScanNumber(p, i);
    if i < j {
      NumberCarries(p, t, d, lo, n, i);
      SliceCarries(p, t, d, lo, n, i, j);
    } else {
      NoNumberCarries(p, t, d, lo, n, i);
      WordCarries(p, t, d, lo, n, i);
    }
  }

  // The carry lemma. A value that opens with a quote, brace or bracket marks its own end;
  // any other must be seen to stop.
  lemma {:induction false} ValueCarries(p: string, t: string, d: int, lo: nat, n: nat, i: nat)
    requires Agree(p, t, d, lo, n) && lo <= i <= n
    requires ScanValue(p, i).Done? && ScanValue(p, i).end <= n
    requires Opens(p[i]) || (ScanValue(p, i).end < n && IsStop(p[ScanValue(p, i).end]))
    ensures ScanValue(t, i + d) == Done(ScanValue(p, i).value, ScanValue(p, i).end + d)
    decreases n - i, 1
  {
    At(p, t, d, lo, n, i);
    if p[i] == '"' {
      StringCarries(p, t, d, lo, n, i + 1);
    } else if p[i] == '{' {
      ObjectCarries(p, t, d, lo, n, i);
    } else if p[i] == '[' {
      ArrayCarries(p, t, d, lo, n, i);
    } else {
      AtomCarries(p, t, d, lo, n, i);
    }
  }

  lemma {:induction false} ObjectCarries(p: string, t: string, d: int, lo: nat, n: nat, i: nat)
    requires Agree(p, t, d, lo, n) && lo <= i < n
    requires ScanObject(p, i).Done? && ScanObject(p, i).end <= n
    ensures ScanObject(t, i + d) == Done(ScanObject(p, i).value, ScanObject(p, i).end + d)
    decreases n - i, 0
  {
    hide ScanMembers, ScanMember, ScanValue;
    var j := SkipSpace(p, i + 1);
    SpaceCarries(p, t, d, lo, n, i + 1);
    if p[j] != '}' { MembersCarry(p, t, d, lo, n, j); }
  }

  lemma {:induction false} ArrayCarries(p: string, t: string, d: int, lo: nat, n: nat, i: nat)
    requires Agree(p, t, d, lo, n) && lo <= i < n
    requires ScanArray(p, i).Done? && ScanArray(p, i).end <= n
    ensures ScanArray(t, i + d) == Done(ScanArray(p, i).value, ScanArray(p, i).end + d)
    decreases n - i, 0
  {
    hide ScanElements, ScanElement, ScanValue;
    var j := SkipSpace(p, i + 1);
    SpaceCarries(p, t, d, lo, n, i + 1);
    if p[j] != ']' { ElementsCarry(p, t, d, lo, n, j); }
  }

  lemma {:induction false} KeyCarries(p: string, t: string, d: int, lo: nat, n: nat, i: nat)
    requires Agree(p, t, d, lo, n) && lo <= i <= n
    requires ScanKey(p, i).Done? && ScanKey(p, i).end < n
    ensures ScanKey(t, i + d) == Done(ScanKey(p, i).value, ScanKey(p, i).end + d)
  {
    hide ScanString, SkipSpace, Agree;
    At(p, t, d, lo, n, i);
    var a := ScanString(p, i + 1).end;
    StringCarries(p, t, d, lo, n, i + 1);
    SpaceCarries(p, t, d, lo, n, a);
    SpaceCarries(p, t, d, lo, n, SkipSpace(p, a) + 1);
  }

  lemma {:induction false} MemberCarries(p: string, t: string, d: int, lo: nat, n: nat, i: nat)
    requires Agree(p, t, d, lo, n) && lo <= i <= n
    requires ScanMember(p, i).Done? && ScanMember(p, i).end < n && IsStop(p[ScanMember(p, i).end])
    ensures ScanMember(t, i + d) == Done(ScanMember(p, i).value, ScanMember(p, i).end + d)
    decreases n - i, 2
  {
    hide ScanKey, ScanValue;
    var v := ScanKey(p, i).end;
    KeyCarries(p, t, d, lo, n, i);
    ValueCarries(p, t, d, lo, n, v);
    SpaceCarries(p, t, d, lo, n, ScanValue(p, v).end);
  }

  lemma {:induction false} MembersCarry(p: string, t: string, d: int, lo: nat, n: nat, i: nat)
    requires Agree(p, t, d, lo, n) && lo <= i <= n
    requires ScanMembers(p, i).Done? && ScanMembers(p, i).end <= n
    ensures ScanMembers(t, i + d) == Done(ScanMembers(p, i).value, ScanMembers(p, i).end + d)
    decreases n - i, 3
  {
    hide ScanMember, ScanValue, ScanObject, ScanArray, SkipSpace, Agree;
    var e := ScanMember(p, i).end;
    MemberCarries(p, t, d, lo, n, i);
    At(p, t, d, lo, n, e);
    if p[e] != '}' {
      SpaceCarries(p, t, d, lo, n, e + 1);
      MembersCarry(p, t, d, lo, n, SkipSpace(p, e + 1));
    }
  }

  lemma {:induction false} ElementCarries(p: string, t: string, d: int, lo: nat, n: nat, i: nat)
    requires Agree(p, t, d, lo, n) && lo <= i <= n
    requires ScanElement(p, i).Done? && ScanElement(p, i).end < n && IsStop(p[ScanElement(p, i).end])
    ensures ScanElement(t, i + d) == Done(ScanElement(p, i).value, ScanElement(p, i).end + d)
    decreases n - i, 2
  {
    ValueCarries(p, t, d, lo, n, i);
    SpaceCarries(p, t, d, lo, n, ScanValue(p, i).end);
  }

  lemma {:induction false} ElementsCarry(p: string, t: string, d: int, lo: nat, n: nat, i: nat)
    requires Agree(p, t, d, lo, n) && lo <= i <= n
    requires ScanElements(p, i).Done? && ScanElements(p, i).end <= n
    ensures ScanElements(t, i + d) == Done(ScanElements(p, i).value, ScanElements(p, i).end + d)
    decreases n - i, 3
  {
    hide ScanElement, ScanValue, ScanObject, ScanArray, SkipSpace, Agree;
    var e := ScanElement(p, i).end;
    ElementCarries(p, t, d, lo, n, i);
    At(p, t, d, lo, n, e);
    if p[e] != ']' {
      SpaceCarries(p, t, d, lo, n, e + 1);
      ElementsCarry(p, t, d, lo, n, SkipSpace(p, e + 1));
    }
  }
}
