/** Python's string helpers, as far as the services use them. */
module Text {

  // `str.isspace` on one character.
  predicate IsBlank(c: char) {
    || '\t' <= c <= '\r' || '\U{1C}' <= c <= ' ' || c == '\U{85}' || c == '\U{A0}' || c == '\U{1680}'
    || '\U{2000}' <= c <= '\U{200A}' || c == '\U{2028}' || c == '\U{2029}' || c == '\U{202F}'
    || c == '\U{205F}' || c == '\U{3000}'
  }

  // Past the white space that starts at i.
  function SkipBlanks(s: string, i: nat): (j: nat)
    requires i <= |s|
    ensures i <= j <= |s| && forall k :: i <= k < j ==> IsBlank(s[k])
    decreases |s| - i
  {
    if i < |s| && IsBlank(s[i]) then SkipBlanks(s, i + 1) else i
  }

  function LStrip(s: string): (r: string)
    ensures r != [] ==> !IsBlank(r[0])
  {
    if s != [] && IsBlank(s[0]) then LStrip(s[1..]) else s
  }

  function RStrip(s: string): (r: string)
    ensures r <= s
    ensures r != [] ==> !IsBlank(r[|r| - 1])
    ensures forall k :: |r| <= k < |s| ==> IsBlank(s[k])
  {
    if s != [] && IsBlank(s[|s| - 1]) then RStrip(s[..|s| - 1]) else s
  }

  // `str.strip()`
  function Strip(s: string): (r: string)
    ensures r != [] ==> !IsBlank(r[0]) && !IsBlank(r[|r| - 1])
  {
    RStrip(LStrip(s))
  }

  lemma StripTwice(s: string)
    ensures Strip(Strip(s)) == Strip(s)
  {
  }

  /** Stripping cuts white space off both ends and nothing else. */
  lemma StripIs(s: string) returns (from: nat, to: nat)
    ensures from <= to <= |s| && Strip(s) == s[from..to]
    ensures (forall k :: 0 <= k < from ==> IsBlank(s[k])) && forall k :: to <= k < |s| ==> IsBlank(s[k])
  {
    from := LStripIs(s);
    to := from + |Strip(s)|;
  }

  lemma {:induction false} LStripIs(s: string) returns (from: nat)
    ensures from <= |s| && LStrip(s) == s[from..] && forall k :: 0 <= k < from ==> IsBlank(s[k])
  {
    from := 0;
    if s != [] && IsBlank(s[0]) {
      var rest := LStripIs(s[1..]);
      from := rest + 1;
      assert forall k :: 0 < k < from ==> s[k] == s[1..][k - 1];
    }
  }

  // `sep.join(parts)`
  function Join(parts: seq<string>, sep: string): string {
    if parts == [] then ""
    else if |parts| == 1 then parts[0]
    else Join(parts[..|parts| - 1], sep) + sep + parts[|parts| - 1]
  }

  lemma {:induction false} JoinNext(parts: seq<string>, last: string, sep: string)
    requires parts != []
    ensures Join(parts + [last], sep) == Join(parts, sep) + sep + last
  {
    assert (parts + [last])[..|parts|] == parts;
  }

  lemma {:induction false} JoinOne(part: string, sep: string)
    ensures Join([part], sep) == part && Join([], sep) == ""
  {
  }

  /** Joining keeps the parts in their order, with the separator between each two. */
  lemma {:induction false} JoinSplits(a: seq<string>, b: seq<string>, sep: string)
    requires a != [] && b != []
    ensures Join(a + b, sep) == Join(a, sep) + sep + Join(b, sep)
  {
    hide Join;
    var n := |b| - 1;
    assert a + b == (a + b[..n]) + [b[n]] && b == b[..n] + [b[n]];
    JoinNext(a + b[..n], b[n], sep);
    if n > 0 {
      JoinSplits(a, b[..n], sep);
      JoinNext(b[..n], b[n], sep);
      Regroup(Join(a, sep), sep, Join(b[..n], sep), b[n]);
    } else {
      assert b[..n] == [] && a + [] == a;
      JoinOne(b[n], sep);
    }
  }

  lemma Regroup(x: string, sep: string, y: string, z: string)
    ensures (x + sep + y) + sep + z == x + sep + (y + sep + z)
  {
  }

  const CHARS_PER_TOKEN: nat := 4

  // A text's tokens, near enough: a quarter of its characters, at least one.
  function Estimate(text: string): (t: nat)
    ensures t >= 1 && |text| < 4 * t + 4 && (t == 1 || 4 * t <= |text|)
  {
    if |text| / CHARS_PER_TOKEN < 1 then 1 else |text| / CHARS_PER_TOKEN
  }
}
