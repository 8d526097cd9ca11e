/** JSON as RFC 8259 writes it, and that the decoder reads all of it: a text spelled with the grammar's
    own tokens, escapes and white space decodes to what it says. */
module JsonText {
  import opened Json
  import opened Salvage
  import opened CutReply
  import opened Wrappers

  // ------------------------------------------------------------------ the grammar

  // A character of a string, as section 7 lets it be written: itself, by a short escape, or by the
  // four hexadecimal digits of its code.
  datatype Unit = Plain(c: char) | Short(c: char) | Coded(high: nat, second: nat, third: nat, low: nat, capital: bool)

  // A number, as section 6 has it: the digits of its whole part, of its fraction and of its exponent.
  datatype Figure = Figure(minus: bool, whole: string, fraction: string, mark: string, exponent: string)

  // A value written out, white space and all. White space after an item or a member is its own.
  datatype Doc =
    | NullWord | TrueWord | FalseWord
    | Digits(figure: Figure)
    | Quoted(units: seq<Unit>)
    | NoItems(gap: string) | Listed(gap: string, items: Items)
    | NoMembers(gap: string) | Keyed(gap: string, members: Members)

  datatype Items = LastItem(value: Doc, after: string) | Item(value: Doc, after: string, gap: string, rest: Items)

  datatype Members =
    | LastPair(key: seq<Unit>, before: string, colon: string, value: Doc, after: string)
    | Pair(key: seq<Unit>, before: string, colon: string, value: Doc, after: string, gap: string, rest: Members)

  predicate Space(s: string) { forall k :: 0 <= k < |s| ==> s[k] == ' ' || s[k] == '\t' || s[k] == '\n' || s[k] == '\r' }

  predicate Ten(c: char) { '0' <= c <= '9' }

  predicate Tens(s: string) { forall k :: 0 <= k < |s| ==> Ten(s[k]) }

  predicate ProperUnit(u: Unit) {
    match u
    case Plain(c) => c >= ' ' && c != '"' && c != '\\'
    case Short(c) => c == '"' || c == '\\' || c == '/' || c == 'b' || c == 'f' || c == 'n' || c == 'r' || c == 't'
    case Coded(a, b, c, d, _) => a < 16 && b < 16 && c < 16 && d < 16
  }

  predicate ProperFigure(f: Figure) {
    && f.whole != "" && Tens(f.whole) && (f.whole[0] == '0' ==> |f.whole| == 1) && Tens(f.fraction) && Tens(f.exponent)
    && (f.exponent == "" <==> f.mark == "")
    && (f.mark == "" || f.mark == "e" || f.mark == "E" || f.mark == "e+" || f.mark == "E+" || f.mark == "e-" || f.mark == "E-")
  }

  predicate ProperUnits(units: seq<Unit>) { forall k :: 0 <= k < |units| ==> ProperUnit(units[k]) }

  predicate Proper(d: Doc) {
    match d
    case Digits(f) => ProperFigure(f)
    case Quoted(units) => ProperUnits(units)
    case NoItems(gap) => Space(gap)
    case Listed(gap, items) => Space(gap) && ProperItems(items)
    case NoMembers(gap) => Space(gap)
    case Keyed(gap, members) => Space(gap) && ProperMembers(members)
    case _ => true
  }

  predicate ProperItems(items: Items) {
    Proper(items.value) && Space(items.after) && (items.Item? ==> Space(items.gap) && ProperItems(items.rest))
  }

  predicate ProperMembers(m: Members) {
    && ProperUnits(m.key) && Space(m.before) && Space(m.colon) && Proper(m.value) && Space(m.after)
    && (m.Pair? ==> Space(m.gap) && ProperMembers(m.rest))
  }

  // ------------------------------------------------------------------ how it is written

  function HexDigit(n: nat, capital: bool): char
    requires n < 16
  {
    if n < 10 then "0123456789"[n] else if capital then "ABCDEF"[n - 10] else "abcdef"[n - 10]
  }

  function UnitText(u: Unit): string
    requires ProperUnit(u)
  {
    match u
    case Plain(c) => [c]
    case Short(c) => ['\\', c]
    case Coded(a, b, c, d, up) => ['\\', 'u', HexDigit(a, up), HexDigit(b, up), HexDigit(c, up), HexDigit(d, up)]
  }

  // With the closing quote.
  function UnitsText(units: seq<Unit>): string
    requires ProperUnits(units)
  {
    if units == [] then "\"" else UnitText(units[0]) + UnitsText(units[1..])
  }

  function FractionText(w: string): string { if w == "" then "" else "." + w }

  function FigureText(f: Figure): string {
    (if f.minus then "-" else "") + f.whole + FractionText(f.fraction) + (f.mark + f.exponent)
  }

  function Written(d: Doc): string
    requires Proper(d)
  {
    match d
    case NullWord => "null"
    case TrueWord => "true"
    case FalseWord => "false"
    case Digits(f) => FigureText(f)
    case Quoted(units) => "\"" + UnitsText(units)
    case NoItems(gap) => "[" + gap + "]"
    case Listed(gap, items) => "[" + gap + ItemsText(items)
    case NoMembers(gap) => "{" + gap + "}"
    case Keyed(gap, members) => "{" + gap + MembersText(members)
  }

  // With the closing bracket.
  function ItemsText(items: Items): string
    requires ProperItems(items)
  {
    Written(items.value) + (items.after + if items.Item? then "," + items.gap + ItemsText(items.rest) else "]")
  }

  function PairText(m: Members): string
    requires ProperMembers(m)
  {
    "\"" + UnitsText(m.key) + m.before + ":" + m.colon
  }

  // With the closing brace.
  function MembersText(m: Members): string
    requires ProperMembers(m)
  {
    PairText(m) + (Written(m.value) + (m.after + if m.Pair? then "," + m.gap + MembersText(m.rest) else "}"))
  }

  // --------------------------------------------------------------------- what it says

  function UnitCode(u: Unit): int {
    match u
    case Plain(c) => c as int
    case Short(c) => (if c == 'b' then 8 else if c == 't' then 9 else if c == 'n' then 10 else if c == 'f' then 12 else if c == 'r' then 13 else c as int)
    case Coded(a, b, c, d, _) => ((a * 16 + b) * 16 + c) * 16 + d
  }

  function UnitsCodes(units: seq<Unit>): (r: Codes)
    ensures |r| == |units| && forall k :: 0 <= k < |r| ==> r[k] == UnitCode(units[k])
  {
    if units == [] then [] else [UnitCode(units[0])] + UnitsCodes(units[1..])
  }

  function Meant(d: Doc): Value {
    match d
    case NullWord => Null
    case TrueWord => Bool(true)
    case FalseWord => Bool(false)
    case Digits(f) => Number(FigureText(f))
    case Quoted(units) => Str(UnitsCodes(units))
    case NoItems(_) => Arr([])
    case Listed(_, items) => Arr(ItemsMeant(items))
    case NoMembers(_) => Obj([])
    case Keyed(_, members) => Obj(MembersMeant(members))
  }

  function ItemsMeant(items: Items): (r: seq<Value>) {
    [Meant(items.value)] + if items.Item? then ItemsMeant(items.rest) else []
  }

  function MembersMeant(m: Members): seq<Member> {
    [Member(UnitsCodes(m.key), Meant(m.value))] + if m.Pair? then MembersMeant(m.rest) else []
  }

  // --------------------------------------------------------------------- reading it

  // The text stands at i.
  predicate At(s: string, i: nat, w: string) { i + |w| <= |s| && s[i..i + |w|] == w }

  lemma AtSplits(s: string, i: nat, a: string, b: string)
    requires At(s, i, a + b)
    ensures At(s, i, a) && At(s, i + |a|, b)
    ensures i + |a| + |b| <= |s|
  {
    assert s[i..i + |a|] == (a + b)[..|a|];
    assert s[i + |a|..i + |a| + |b|] == (a + b)[|a|..];
  }

  lemma AtChar(s: string, i: nat, w: string)
    requires At(s, i, w) && w != ""
    ensures i + |w| <= |s| && s[i] == w[0]
  {
    assert s[i..i + |w|][0] == w[0];
  }

  // Past white space that something else follows.
  lemma {:induction false} SpaceSkipped(s: string, i: nat, gap: string)
    requires Space(gap) && At(s, i, gap) && i + |gap| < |s| && !IsSpace(s[i + |gap|])
    ensures SkipSpace(s, i) == i + |gap|
    decreases |gap|
  {
    hide At;
    if gap != "" {
      assert gap[..1] + gap[1..] == gap;
      AtSplits(s, i, gap[..1], gap[1..]);
      AtChar(s, i, gap);
      SpaceSkipped(s, i + 1, gap[1..]);
    }
  }

  lemma HexReads(n: nat, capital: bool)
    requires n < 16
    ensures IsHex(HexDigit(n, capital)) && HexValue(HexDigit(n, capital)) == n
  {
  }

  lemma UnitReads(s: string, i: nat, u: Unit)
    requires ProperUnit(u) && At(s, i, UnitText(u))
    ensures i < |s| && s[i] != '"' && ScanUnit(s, i) == Done(UnitCode(u), i + |UnitText(u)|)
  {
    hide IsHex, HexValue, HexDigit;
    var w := UnitText(u);
    assert s[i..i + |w|][0] == w[0];
    match u
    case Plain(_) =>
    case Short(c) => assert s[i..i + 2][1] == c;
    case Coded(a, b, c, d, up) =>
      assert s[i..i + 6][1] == 'u' && s[i..i + 6][2] == HexDigit(a, up) && s[i..i + 6][3] == HexDigit(b, up);
      assert s[i..i + 6][4] == HexDigit(c, up) && s[i..i + 6][5] == HexDigit(d, up);
      HexReads(a, up);
      HexReads(b, up);
      HexReads(c, up);
      HexReads(d, up);
  }

  lemma {:induction false} StringReads(s: string, i: nat, units: seq<Unit>)
    requires ProperUnits(units) && At(s, i, UnitsText(units))
    ensures i <= |s| && ScanString(s, i) == Done(UnitsCodes(units), i + |UnitsText(units)|)
    decreases |units|
  {
    hide ScanUnit, UnitText, UnitCode, At, ProperUnit;
    AtChar(s, i, UnitsText(units)) by { Quotes(units); }
    if units != [] {
      AtSplits(s, i, UnitText(units[0]), UnitsText(units[1..]));
      UnitReads(s, i, units[0]);
      StringReads(s, i + |UnitText(units[0])|, units[1..]);
    }
  }

  lemma {:induction false} Quotes(units: seq<Unit>)
    requires ProperUnits(units)
    ensures UnitsText(units) != "" && (units == [] ==> UnitsText(units) == "\"")
  {
  }

  // What may follow a value: nothing, white space, or the mark that parts it from the next.
  predicate Ends(s: string, j: nat) { j >= |s| || IsSpace(s[j]) || s[j] == ',' || s[j] == ']' || s[j] == '}' }

  lemma {:induction false} DigitsRead(s: string, i: nat, w: string)
    requires Tens(w) && At(s, i, w) && (i + |w| < |s| ==> !Ten(s[i + |w|]))
    ensures i <= |s| && SkipDigits(s, i) == i + |w|
    decreases |w|
  {
    hide At;
    assert i <= |s| by { AtWithin(s, i, w); }
    if w != "" {
      assert w[..1] + w[1..] == w;
      AtSplits(s, i, w[..1], w[1..]);
      AtChar(s, i, w);
      DigitsRead(s, i + 1, w[1..]);
    }
  }

  lemma AtWithin(s: string, i: nat, w: string)
    requires At(s, i, w)
    ensures i + |w| <= |s|
  {
  }

  lemma WholeReads(s: string, a: nat, w: string)
    requires w != "" && Tens(w) && (w[0] == '0' ==> |w| == 1) && At(s, a, w) && (a + |w| < |s| ==> !Ten(s[a + |w|]))
    ensures a < |s| && IsDigit(s[a]) && WholeEnd(s, a) == a + |w|
  {
    hide At;
    AtChar(s, a, w);
    DigitsRead(s, a, w);
  }

  lemma FractionReads(s: string, b: nat, w: string)
    requires Tens(w) && At(s, b, FractionText(w))
    requires b + |FractionText(w)| < |s| ==> !Ten(s[b + |FractionText(w)|]) && s[b + |FractionText(w)|] != '.'
    ensures b <= |s| && FractionEnd(s, b) == b + |FractionText(w)|
    ensures b < |s| ==> !Ten(s[b])
  {
    hide At;
    AtWithin(s, b, FractionText(w));
    if w != "" {
      AtSplits(s, b, ".", w);
      AtChar(s, b, ".");
      AtChar(s, b + 1, w);
      DigitsRead(s, b + 1, w);
    }
  }

  // Past an exponent's mark and sign.
  lemma MarkReads(s: string, c: nat, mark: string, e: char)
    requires mark == "e" || mark == "E" || mark == "e+" || mark == "E+" || mark == "e-" || mark == "E-"
    requires At(s, c, mark) && c + |mark| < |s| && s[c + |mark|] == e && Ten(e)
    ensures (s[c] == 'e' || s[c] == 'E') && |mark| == if c + 1 < |s| && (s[c + 1] == '-' || s[c + 1] == '+') then 2 else 1
  {
    assert s[c..c + |mark|][0] == mark[0];
    if |mark| == 2 { assert s[c..c + 2][1] == mark[1]; }
  }

  lemma ExponentReads(s: string, c: nat, f: Figure)
    requires ProperFigure(f) && At(s, c, f.mark + f.exponent) && Ends(s, c + |f.mark + f.exponent|)
    ensures c <= |s| && ExponentEnd(s, c) == c + |f.mark + f.exponent|
    ensures c < |s| ==> !Ten(s[c]) && s[c] != '.'
  {
    hide At;
    AtWithin(s, c, f.mark + f.exponent);
    if f.mark != "" {
      AtSplits(s, c, f.mark, f.exponent);
      AtChar(s, c + |f.mark|, f.exponent);
      MarkReads(s, c, f.mark, f.exponent[0]);
      DigitsRead(s, c + |f.mark|, f.exponent);
    }
  }

  lemma FigureParts(s: string, i: nat, f: Figure)
    requires At(s, i, FigureText(f))
    ensures var a := i + if f.minus then 1 else 0;
      && At(s, a, f.whole) && At(s, a + |f.whole|, FractionText(f.fraction)) && At(s, a + |f.whole| + |FractionText(f.fraction)|, f.mark + f.exponent)
      && a + |f.whole| + |FractionText(f.fraction)| + |f.mark + f.exponent| == i + |FigureText(f)| <= |s| && (f.minus ==> s[i] == '-')
  {
    hide At, FractionText;
    var minus := if f.minus then "-" else "";
    AtSplits(s, i, minus + f.whole + FractionText(f.fraction), f.mark + f.exponent);
    AtSplits(s, i, minus + f.whole, FractionText(f.fraction));
    AtSplits(s, i, minus, f.whole);
    if f.minus { AtChar(s, i, minus); }
  }

  lemma FigureReads(s: string, i: nat, f: Figure)
    requires ProperFigure(f) && At(s, i, FigureText(f)) && Ends(s, i + |FigureText(f)|)
    ensures i < |s| && ScanNumber(s, i) == i + |FigureText(f)|
  {
    hide WholeEnd, FractionEnd, ExponentEnd, At, Ends, Tens, FractionText, FigureText;
    FigureParts(s, i, f);
    var a := i + if f.minus then 1 else 0;
    ExponentReads(s, a + |f.whole| + |FractionText(f.fraction)|, f);
    FractionReads(s, a + |f.whole|, f.fraction);
    WholeReads(s, a, f.whole);
  }

  // How a written value begins.
  lemma {:induction false} Begins(d: Doc)
    requires Proper(d)
    ensures var w := Written(d); w != "" && !IsSpace(w[0]) && w[0] != ']' && w[0] != '}'
    ensures d.Digits? ==> Written(d)[0] != '"' && Written(d)[0] != '{' && Written(d)[0] != '['
  {
    hide ItemsText, MembersText, UnitsText;
    if d.Digits? {
      assert Written(d)[0] == if d.figure.minus then '-' else d.figure.whole[0];
    }
  }

  lemma {:induction false} AfterValue(s: string, e: nat, after: string, tail: string)
    requires Space(after) && At(s, e, after + tail) && tail != "" && (tail[0] == ',' || tail[0] == ']' || tail[0] == '}')
    ensures Ends(s, e) && e + |after| < |s| && SkipSpace(s, e) == e + |after| && At(s, e + |after|, tail) && s[e + |after|] == tail[0]
  {
    hide At;
    AtSplits(s, e, after, tail);
    AtChar(s, e + |after|, tail);
    SpaceSkipped(s, e, after);
    if after != "" { AtChar(s, e, after); }
  }

  lemma MarksAreInk()
    ensures !IsSpace('"') && !IsSpace(']') && !IsSpace('}')
  {
  }

  // Past an opening and the white space after it.
  lemma PastGap(s: string, i: nat, open: string, gap: string, rest: string)
    requires Space(gap) && At(s, i, open + gap + rest) && |open| == 1 && rest != "" && !IsSpace(rest[0])
    ensures i + 1 + |gap| < |s| && s[i] == open[0] && SkipSpace(s, i + 1) == i + 1 + |gap| && At(s, i + 1 + |gap|, rest) && s[i + 1 + |gap|] == rest[0]
  {
    hide At;
    AtSplits(s, i, open + gap, rest);
    AtSplits(s, i, open, gap);
    AtChar(s, i, open);
    AtChar(s, i + 1 + |gap|, rest);
    SpaceSkipped(s, i + 1, gap);
  }

  lemma {:induction false} ItemsBegin(items: Items)
    requires ProperItems(items)
    ensures var w := ItemsText(items); w != "" && !IsSpace(w[0]) && w[0] != ']'
  {
    hide Written, IsSpace;
    Begins(items.value);
    assert ItemsText(items)[0] == Written(items.value)[0];
  }

  lemma {:induction false} PairsBegin(m: Members)
    requires ProperMembers(m)
    ensures MembersText(m) != "" && MembersText(m)[0] == '"'
  {
    hide Written, UnitsText;
    assert PairText(m)[0] == '"';
  }

  lemma {:induction false} WordReads(s: string, i: nat, d: Doc)
    requires (d.NullWord? || d.TrueWord? || d.FalseWord?) && At(s, i, Written(d))
    ensures i < |s| && ScanValue(s, i) == Done(Meant(d), i + |Written(d)|)
  {
    AtChar(s, i, Written(d));
    assert Matches(s, i, Written(d));
  }

  /** Whatever the grammar writes, the decoder reads as what it says, and stops where it ends. */
  lemma {:induction false} Reads(s: string, i: nat, d: Doc)
    requires Proper(d) && At(s, i, Written(d)) && Ends(s, i + |Written(d)|)
    ensures i <= |s| && ScanValue(s, i) == Done(Meant(d), i + |Written(d)|)
    decreases d
  {
    hide ScanString, ScanElements, ScanMembers, ScanNumber, UnitsText, FigureText, ItemsText, MembersText, Ends, IsSpace, At, ScanWord;
    MarksAreInk();
    Begins(d);
    AtChar(s, i, Written(d));
    match d
    case Digits(f) => FigureReads(s, i, f); FigureValue(s, i, f);
    case Quoted(units) =>
      AtSplits(s, i, "\"", UnitsText(units));
      StringReads(s, i + 1, units);
    case NoItems(gap) => PastGap(s, i, "[", gap, "]");
    case NoMembers(gap) => PastGap(s, i, "{", gap, "}");
    case Listed(gap, items) =>
      ItemsBegin(items);
      PastGap(s, i, "[", gap, ItemsText(items));
      ItemsRead(s, i + 1 + |gap|, items);
    case Keyed(gap, members) =>
      PairsBegin(members);
      PastGap(s, i, "{", gap, MembersText(members));
      MembersRead(s, i + 1 + |gap|, members);
    case _ => WordReads(s, i, d);
  }

  lemma FigureValue(s: string, i: nat, f: Figure)
    requires ProperFigure(f) && At(s, i, FigureText(f)) && i < |s| && ScanNumber(s, i) == i + |FigureText(f)|
    ensures ScanAtom(s, i) == Done(Number(FigureText(f)), i + |FigureText(f)|)
  {
    hide ScanNumber;
    assert |FigureText(f)| > 0;
  }

  // The decoder's steps through a list and through an object's members.
  lemma {:induction false} LastElement(s: string, i: nat, v: Value, e: nat)
    requires i <= |s| && e <= |s| && ScanValue(s, i) == Done(v, e) && SkipSpace(s, e) < |s| && s[SkipSpace(s, e)] == ']'
    ensures ScanElements(s, i) == Done([v], SkipSpace(s, e) + 1)
  {
    hide ScanValue, SkipSpace;
  }

  lemma NextElement(s: string, i: nat, v: Value, e: nat, rest: seq<Value>, end: nat)
    requires i <= |s| && e <= |s| && ScanValue(s, i) == Done(v, e) && SkipSpace(s, e) < |s| && s[SkipSpace(s, e)] == ','
    requires ScanElements(s, SkipSpace(s, SkipSpace(s, e) + 1)) == Done(rest, end)
    ensures ScanElements(s, i) == Done([v] + rest, end)
  {
    hide ScanValue, SkipSpace;
  }

  lemma {:induction false} LastMember(s: string, i: nat, key: Codes, at: nat, v: Value, e: nat)
    requires i <= |s| && at <= |s| && e <= |s| && ScanKey(s, i) == Done(key, at) && ScanValue(s, at) == Done(v, e)
    requires SkipSpace(s, e) < |s| && s[SkipSpace(s, e)] == '}'
    ensures ScanMembers(s, i) == Done([Member(key, v)], SkipSpace(s, e) + 1)
  {
    hide ScanKey, ScanValue, SkipSpace;
  }

  lemma NextMember(s: string, i: nat, key: Codes, at: nat, v: Value, e: nat, rest: seq<Member>, end: nat)
    requires i <= |s| && at <= |s| && e <= |s| && ScanKey(s, i) == Done(key, at) && ScanValue(s, at) == Done(v, e)
    requires SkipSpace(s, e) < |s| && s[SkipSpace(s, e)] == ','
    requires ScanMembers(s, SkipSpace(s, SkipSpace(s, e) + 1)) == Done(rest, end)
    ensures ScanMembers(s, i) == Done([Member(key, v)] + rest, end)
  {
    hide ScanKey, ScanValue, SkipSpace;
  }

  lemma {:induction false} ItemsRead(s: string, i: nat, items: Items)
    requires ProperItems(items) && At(s, i, ItemsText(items))
    ensures i <= |s| && ScanElements(s, i) == Done(ItemsMeant(items), i + |ItemsText(items)|)
    decreases items
  {
    hide ScanValue, ScanElements, Written, Meant, Ends, At, SkipSpace, IsSpace, Space;
    var tail := if items.Item? then "," + items.gap + ItemsText(items.rest) else "]";
    var e := i + |Written(items.value)|;
    var n := e + |items.after|;
    AtSplits(s, i, Written(items.value), items.after + tail);
    AfterValue(s, e, items.after, tail);
    Reads(s, i, items.value);
    if items.Item? {
      ItemsBegin(items.rest);
      PastGap(s, n, ",", items.gap, ItemsText(items.rest));
      ItemsRead(s, n + 1 + |items.gap|, items.rest);
      NextElement(s, i, Meant(items.value), e, ItemsMeant(items.rest), n + 1 + |items.gap| + |ItemsText(items.rest)|);
    } else {
      LastElement(s, i, Meant(items.value), e);
      assert ItemsMeant(items) == [Meant(items.value)];
    }
  }

  lemma {:induction false} PairParts(s: string, i: nat, m: Members)
    requires ProperMembers(m) && At(s, i, PairText(m))
    ensures var a := i + 1 + |UnitsText(m.key)|;
      && At(s, i + 1, UnitsText(m.key)) && At(s, a, m.before) && At(s, a + |m.before| + 1, m.colon)
      && i + |PairText(m)| == a + |m.before| + 1 + |m.colon| <= |s| && s[i] == '"' && s[a + |m.before|] == ':'
  {
    hide UnitsText, At, Space;
    var quoted, v := "\"" + UnitsText(m.key), i + |PairText(m)|;
    AtSplits(s, i, quoted + m.before + ":", m.colon);
    AtSplits(s, i, quoted + m.before, ":");
    AtSplits(s, i, quoted, m.before);
    AtSplits(s, i, "\"", UnitsText(m.key));
    AtChar(s, i, "\"");
    AtChar(s, v - |m.colon| - 1, ":");
  }

  lemma {:induction false} PairReads(s: string, i: nat, m: Members)
    requires ProperMembers(m) && At(s, i, PairText(m)) && At(s, i + |PairText(m)|, Written(m.value))
    ensures i + |PairText(m)| <= |s| && ScanKey(s, i) == Done(UnitsCodes(m.key), i + |PairText(m)|)
  {
    hide ScanString, UnitsText, Written, At, SkipSpace, Space, IsSpace, PairText;
    PairParts(s, i, m);
    var a, v := i + 1 + |UnitsText(m.key)|, i + |PairText(m)|;
    Begins(m.value);
    AtChar(s, v, Written(m.value));
    StringReads(s, i + 1, m.key);
    ColonIsInk();
    SpaceSkipped(s, a, m.before);
    SpaceSkipped(s, v - |m.colon|, m.colon);
  }

  lemma ColonIsInk()
    ensures !IsSpace(':')
  {
  }

  function MembersTail(m: Members): string
    requires ProperMembers(m)
  {
    if m.Pair? then "," + m.gap + MembersText(m.rest) else "}"
  }

  lemma {:induction false} MemberParts(s: string, i: nat, m: Members)
    requires ProperMembers(m) && At(s, i, MembersText(m))
    ensures var v := i + |PairText(m)|;
      && At(s, i, PairText(m)) && At(s, v, Written(m.value)) && At(s, v + |Written(m.value)|, m.after + MembersTail(m))
      && v + |Written(m.value)| + |m.after| + |MembersTail(m)| == i + |MembersText(m)| <= |s|
  {
    hide Written, PairText, At, MembersTail;
    var value, tail := Written(m.value), MembersTail(m);
    assert MembersText(m) == (PairText(m) + value) + (m.after + tail) by { TextParts(m); }
    AtSplits(s, i, PairText(m) + value, m.after + tail);
    AtSplits(s, i, PairText(m), value);
  }

  lemma {:induction false} TextParts(m: Members)
    requires ProperMembers(m)
    ensures MembersText(m) == (PairText(m) + Written(m.value)) + (m.after + MembersTail(m))
  {
    hide Written, PairText;
    assert PairText(m) + (Written(m.value) + (m.after + MembersTail(m))) == (PairText(m) + Written(m.value)) + (m.after + MembersTail(m));
  }

  // One pair, up to what follows it.
  lemma {:induction false} MemberReads(s: string, i: nat, m: Members)
    requires ProperMembers(m) && At(s, i, MembersText(m))
    ensures var v := i + |PairText(m)|;
      var e := v + |Written(m.value)|;
      && i <= v <= e <= |s| && ScanKey(s, i) == Done(UnitsCodes(m.key), v) && ScanValue(s, v) == Done(Meant(m.value), e)
      && SkipSpace(s, e) == e + |m.after| < |s| && s[e + |m.after|] == (if m.Pair? then ',' else '}') && At(s, e + |m.after|, MembersTail(m))
      && e + |m.after| + |MembersTail(m)| == i + |MembersText(m)|
    decreases m, 0
  {
    hide ScanValue, ScanKey, Written, Meant, Ends, PairText, At, SkipSpace, IsSpace, Space, MembersText;
    MemberParts(s, i, m);
    PairReads(s, i, m);
    AfterValue(s, i + |PairText(m)| + |Written(m.value)|, m.after, MembersTail(m));
    Reads(s, i + |PairText(m)|, m.value);
  }

  lemma {:induction false} MembersRead(s: string, i: nat, m: Members)
    requires ProperMembers(m) && At(s, i, MembersText(m))
    ensures i <= |s| && ScanMembers(s, i) == Done(MembersMeant(m), i + |MembersText(m)|)
    decreases m, 1
  {
    hide ScanValue, ScanMembers, ScanKey, Written, Meant, PairText, At, SkipSpace, IsSpace, Space, MembersText;
    MemberReads(s, i, m);
    var v := i + |PairText(m)|;
    var e := v + |Written(m.value)|;
    if m.Pair? {
      MarksAreInk();
      PairsBegin(m.rest);
      PastGap(s, e + |m.after|, ",", m.gap, MembersText(m.rest));
      MembersRead(s, e + |m.after| + 1 + |m.gap|, m.rest);
      NextMember(s, i, UnitsCodes(m.key), v, Meant(m.value), e, MembersMeant(m.rest), i + |MembersText(m)|);
    } else {
      LastMember(s, i, UnitsCodes(m.key), v, Meant(m.value), e);
      assert MembersMeant(m) == [Member(UnitsCodes(m.key), Meant(m.value))];
    }
  }

  // --------------------------------------------------------------------- a reply in full

  /** A text that the grammar writes, and that says an object with the one key "questions" and a list, is
      a complete reply with just the items it says. */
  lemma {:induction false} WrittenReplyIsReply(d: Doc, items: seq<Value>)
    requires Proper(d) && Meant(d) == Obj([Member(CodesOf("questions"), Arr(items))])
    ensures IsReply(Written(d), items)
  {
    hide ScanMembers, MembersText, MembersMeant, ScanElements;
    assert Written(d)[0..|Written(d)|] == Written(d);
    Reads(Written(d), 0, d);
    assert Written(d)[0] == '{';
  }
}
