/** A JSON decoder with the behaviour of Python's `json.JSONDecoder.raw_decode`, which
    the reply readers in `services/assessments.py` walk a model's reply with.

    A decoded string is the sequence of code points its characters and escapes spell;
    a `\u` surrogate pair is left as its two halves, which no comparison made here can see.
    Object members keep every pair in order; `Lookup` takes the last, as a dict does. */
module Json {

  type Codes = seq<int>

  datatype Value =
    | Null
    | Bool(truth: bool)
    | Number(literal: string)
    | NonFinite
    | Str(codes: Codes)
    | Arr(items: seq<Value>)
    | Obj(members: seq<Member>)

  datatype Member = Member(key: Codes, value: Value)

  // What a scan found and where it stopped.
  datatype Scan<+T> = Fail | Done(value: T, end: nat)

  function CodesOf(s: string): (r: Codes)
    ensures |r| == |s| && forall k :: 0 <= k < |s| ==> r[k] == s[k] as int
  {
    seq(|s|, k requires 0 <= k < |s| => s[k] as int)
  }

  // ------------------------------------------------------------------ tokens

  predicate IsSpace(c: char) { c == ' ' || c == '\t' || c == '\n' || c == '\r' }

  predicate IsDigit(c: char) { '0' <= c <= '9' }

  predicate IsHex(c: char) { IsDigit(c) || 'a' <= c <= 'f' || 'A' <= c <= 'F' }

  function HexValue(c: char): (v: int)
    requires IsHex(c)
  {
    if IsDigit(c) then c as int - '0' as int
    else if 'a' <= c <= 'f' then c as int - 'a' as int + 10
    else c as int - 'A' as int + 10
  }

  function SkipSpace(s: string, i: nat): (j: nat)
    requires i <= |s|
    ensures i <= j <= |s|
    ensures j < |s| ==> !IsSpace(s[j])
    decreases |s| - i
  {
    if i < |s| && IsSpace(s[i]) then SkipSpace(s, i + 1) else i
  }

  function SkipDigits(s: string, i: nat): (j: nat)
    requires i <= |s|
    ensures i <= j <= |s|
    ensures i < |s| && IsDigit(s[i]) ==> i < j
    decreases |s| - i
  {
    if i < |s| && IsDigit(s[i]) then SkipDigits(s, i + 1) else i
  }

  // The text of a two-character escape, or None.
  function SimpleEscape(c: char): (r: int)
  {
    match c
    case '"' => 34
    case '\\' => 92
    case '/' => 47
    case 'b' => 8
    case 'f' => 12
    case 'n' => 10
    case 'r' => 13
    case 't' => 9
    case _ => -1
  }

  // One character of a string, or one escape, and where the next begins.
  function ScanUnit(s: string, i: nat): (r: Scan<int>)
    requires i < |s|
    ensures r.Done? ==> i < r.end <= |s|
  {
    if s[i] != '\\' then
      if s[i] < ' ' then Fail else Done(s[i] as int, i + 1)
    else if i + 1 == |s| then Fail
    else if s[i + 1] != 'u' then
      if SimpleEscape(s[i + 1]) >= 0 then Done(SimpleEscape(s[i + 1]), i + 2) else Fail
    else if i + 6 <= |s| && IsHex(s[i + 2]) && IsHex(s[i + 3]) && IsHex(s[i + 4]) && IsHex(s[i + 5]) then
      Done(4096 * HexValue(s[i + 2]) + 256 * HexValue(s[i + 3]) + 16 * HexValue(s[i + 4]) + HexValue(s[i + 5]), i + 6)
    else Fail
  }

  // From just after the opening quote; `end` is just after the closing one.
  function ScanString(s: string, i: nat): (r: Scan<Codes>)
    requires i <= |s|
    ensures r.Done? ==> i < r.end <= |s| && s[r.end - 1] == '"'
    decreases |s| - i
  {
    if i == |s| then Fail
    else if s[i] == '"' then Done([], i + 1)
    else
      match ScanUnit(s, i)
      case Fail => Fail
      case Done(code, j) =>
        match ScanString(s, j)
        case Fail => Fail
        case Done(codes, end) => Done([code] + codes, end)
  }

  // The whole part, fraction and exponent of a number, one boundary at a time.
  function WholeEnd(s: string, a: nat): (b: nat)
    requires a < |s|
    ensures a <= b <= |s|
  {
    if s[a] == '0' then a + 1 else SkipDigits(s, a)
  }

  function FractionEnd(s: string, b: nat): (c: nat)
    requires b <= |s|
    ensures b <= c <= |s|
  {
    if b + 1 < |s| && s[b] == '.' && IsDigit(s[b + 1]) then SkipDigits(s, b + 1) else b
  }

  function ExponentEnd(s: string, c: nat): (e: nat)
    requires c <= |s|
    ensures c <= e <= |s|
  {
    if c < |s| && (s[c] == 'e' || s[c] == 'E') then
      var d := if c + 1 < |s| && (s[c + 1] == '-' || s[c + 1] == '+') then c + 2 else c + 1;
      if d < |s| && IsDigit(s[d]) then SkipDigits(s, d) else c
    else c
  }

  // Where a number starting at i ends, or i when none does.
  function ScanNumber(s: string, i: nat): (j: nat)
    requires i < |s|
    ensures i <= j <= |s|
  {
    var a := if s[i] == '-' then i + 1 else i;
    if a < |s| && IsDigit(s[a]) then ExponentEnd(s, FractionEnd(s, WholeEnd(s, a))) else i
  }

  predicate Matches(s: string, i: nat, word: string) {
    i + |word| <= |s| && s[i..i + |word|] == word
  }

  // The literals, told apart by their first character.
  function ScanWord(s: string, i: nat): (r: Scan<Value>)
    requires i < |s|
    ensures r.Done? ==> i < r.end <= |s|
  {
    match s[i]
    case 'n' => if Matches(s, i, "null") then Done(Null, i + 4) else Fail
    case 't' => if Matches(s, i, "true") then Done(Bool(true), i + 4) else Fail
    case 'f' => if Matches(s, i, "false") then Done(Bool(false), i + 5) else Fail
    case 'N' => if Matches(s, i, "NaN") then Done(NonFinite, i + 3) else Fail
    case 'I' => if Matches(s, i, "Infinity") then Done(NonFinite, i + 8) else Fail
    case '-' => if Matches(s, i, "-Infinity") then Done(NonFinite, i + 9) else Fail
    case _ => Fail
  }

  // A literal or a number: a value whose first character opens nothing.
  function ScanAtom(s: string, i: nat): (r: Scan<Value>)
    requires i < |s|
    ensures r.Done? ==> i < r.end <= |s|
  {
    var j := ScanNumber(s, i);
    if i < j then Done(Number(s[i..j]), j) else ScanWord(s, i)
  }

  // ------------------------------------------------------------------ values

  // `raw_decode(s, i)`: the value starting exactly at i, and where it ends.
  function ScanValue(s: string, i: nat): (r: Scan<Value>)
    requires i <= |s|
    ensures r.Done? ==> i < r.end <= |s|
    decreases |s| - i, 1
  {
    if i == |s| then Fail
    else if s[i] == '"' then
      match ScanString(s, i + 1)
      case Fail => Fail
      case Done(codes, end) => Done(Str(codes), end)
    else if s[i] == '{' then ScanObject(s, i)
    else if s[i] == '[' then ScanArray(s, i)
    else ScanAtom(s, i)
  }

  function ScanObject(s: string, i: nat): (r: Scan<Value>)
    requires i < |s|
    ensures r.Done? ==> i < r.end <= |s| && r.value.Obj?
    decreases |s| - i, 0
  {
    var j := SkipSpace(s, i + 1);
    if j < |s| && s[j] == '}' then Done(Obj([]), j + 1)
    else
      match ScanMembers(s, j)
      case Fail => Fail
      case Done(members, end) => Done(Obj(members), end)
  }

  function ScanArray(s: string, i: nat): (r: Scan<Value>)
    requires i < |s|
    ensures r.Done? ==> i < r.end <= |s| && r.value.Arr?
    decreases |s| - i, 0
  {
    var j := SkipSpace(s, i + 1);
    if j < |s| && s[j] == ']' then Done(Arr([]), j + 1)
    else
      match ScanElements(s, j)
      case Fail => Fail
      case Done(items, end) => Done(Arr(items), end)
  }

  // A key and its colon, with the white space up to the value.
  function ScanKey(s: string, i: nat): (r: Scan<Codes>)
    requires i <= |s|
    ensures r.Done? ==> i < r.end <= |s|
  {
    if i == |s| || s[i] != '"' then Fail
    else
      match ScanString(s, i + 1)
      case Fail => Fail
      case Done(key, a) =>
        var b := SkipSpace(s, a);
        if b == |s| || s[b] != ':' then Fail else Done(key, SkipSpace(s, b + 1))
  }

  // One `key : value`, with the white space up to what follows it.
  function ScanMember(s: string, i: nat): (r: Scan<Member>)
    requires i <= |s|
    ensures r.Done? ==> i < r.end <= |s|
    decreases |s| - i, 2
  {
    match ScanKey(s, i)
    case Fail => Fail
    case Done(key, v) =>
      match ScanValue(s, v)
      case Fail => Fail
      case Done(value, c) => Done(Member(key, value), SkipSpace(s, c))
  }

  // At the opening quote of a key; `end` is just after the closing brace.
  function ScanMembers(s: string, i: nat): (r: Scan<seq<Member>>)
    requires i <= |s|
    ensures r.Done? ==> i < r.end <= |s|
    decreases |s| - i, 3
  {
    match ScanMember(s, i)
    case Fail => Fail
    case Done(member, d) =>
      if d == |s| then Fail
      else if s[d] == '}' then Done([member], d + 1)
      else if s[d] != ',' then Fail
      else
        match ScanMembers(s, SkipSpace(s, d + 1))
        case Fail => Fail
        case Done(rest, end) => Done([member] + rest, end)
  }

  // One array element, with the white space up to what follows it.
  function ScanElement(s: string, i: nat): (r: Scan<Value>)
    requires i <= |s|
    ensures r.Done? ==> i < r.end <= |s|
    decreases |s| - i, 2
  {
    match ScanValue(s, i)
    case Fail => Fail
    case Done(value, c) => Done(value, SkipSpace(s, c))
  }

  // At an element; `end` is just after the closing bracket.
  function ScanElements(s: string, i: nat): (r: Scan<seq<Value>>)
    requires i <= |s|
    ensures r.Done? ==> i < r.end <= |s|
    decreases |s| - i, 3
  {
    match ScanElement(s, i)
    case Fail => Fail
    case Done(value, d) =>
      if d == |s| then Fail
      else if s[d] == ']' then Done([value], d + 1)
      else if s[d] != ',' then Fail
      else
        match ScanElements(s, SkipSpace(s, d + 1))
        case Fail => Fail
        case Done(rest, end) => Done([value] + rest, end)
  }

  // `json.loads`: one value, with nothing but white space around it.
  function Loads(s: string): (r: Scan<Value>)
    ensures r.Done? ==> r.end == |s|
  {
    match ScanValue(s, SkipSpace(s, 0))
    case Fail => Fail
    case Done(value, end) => if SkipSpace(s, end) == |s| then Done(value, |s|) else Fail
  }

  // ------------------------------------------------------------ reading dicts

  // `value.get(key)` on a dict: the last member of that name.
  function Lookup(members: seq<Member>, key: Codes): (r: Value)
    ensures r != Null ==> exists k :: 0 <= k < |members| && members[k] == Member(key, r)
  {
    if members == [] then Null
    else if members[|members| - 1].key == key then members[|members| - 1].value
    else Lookup(members[..|members| - 1], key)
  }

  /** Of members of one name the last is the one that counts. */
  lemma {:induction false} LookupIsLast(members: seq<Member>, key: Codes, k: nat)
    requires k < |members| && members[k].key == key && forall j :: k < j < |members| ==> members[j].key != key
    ensures Lookup(members, key) == members[k].value
  {
    if k < |members| - 1 { LookupIsLast(members[..|members| - 1], key, k); }
  }

  predicate HasKey(members: seq<Member>, key: Codes) {
    exists k :: 0 <= k < |members| && members[k].key == key
  }

  // Python truthiness. A number is false when its mantissa has no digit but zero.
  predicate Truthy(v: Value) {
    match v
    case Null => false
    case Bool(b) => b
    case Number(text) => NonZero(text)
    case NonFinite => true
    case Str(codes) => codes != []
    case Arr(items) => items != []
    case Obj(members) => members != []
  }

  predicate NonZero(text: string) {
    text != [] && text[0] != 'e' && text[0] != 'E' && ('1' <= text[0] <= '9' || NonZero(text[1..]))
  }

  // A digit that is not zero, before any exponent.
  lemma {:induction false} NonZeroIff(text: string)
    ensures NonZero(text)
       <==> exists k :: 0 <= k < |text| && '1' <= text[k] <= '9' && forall j :: 0 <= j < k ==> text[j] != 'e' && text[j] != 'E'
  {
    if text != [] {
      NonZeroIff(text[1..]);
      assert forall k :: 0 < k < |text| ==> text[k] == text[1..][k - 1];
      if NonZero(text) && !('1' <= text[0] <= '9') {
        var k :| 0 <= k < |text| - 1 && '1' <= text[1..][k] <= '9' && forall j :: 0 <= j < k ==> text[1..][j] != 'e' && text[1..][j] != 'E';
        assert '1' <= text[k + 1] <= '9';
      }
      if k :| 0 < k < |text| && '1' <= text[k] <= '9' && forall j :: 0 <= j < k ==> text[j] != 'e' && text[j] != 'E' {
        assert '1' <= text[1..][k - 1] <= '9';
      }
    }
  }
}
