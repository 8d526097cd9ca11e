/** Python's `sorted` with a key: smallest key first. The keys the ranking code uses never tie,
    or break their ties by position, which is what a stable sort does. */
module Sorting {

  datatype Key = Key(major: real, minor: int)

  predicate Before(a: Key, b: Key) { a.major < b.major || (a.major == b.major && a.minor < b.minor) }

  function Place<T>(s: seq<T>, x: T, key: T -> Key): seq<T> {
    if s != [] && Before(key(x), key(s[|s| - 1])) then Place(s[..|s| - 1], x, key) + [s[|s| - 1]] else s + [x]
  }

  function Sort<T>(s: seq<T>, key: T -> Key): seq<T> {
    if s == [] then [] else Place(Sort(s[..|s| - 1], key), s[|s| - 1], key)
  }

  predicate InOrder<T>(s: seq<T>, key: T -> Key) {
    forall i, j :: 0 <= i < j < |s| ==> !Before(key(s[j]), key(s[i]))
  }

  lemma {:induction false} PlaceAdds<T>(s: seq<T>, x: T, key: T -> Key)
    ensures multiset(Place(s, x, key)) == multiset(s) + multiset{x}
  {
    if s != [] && Before(key(x), key(s[|s| - 1])) {
      PlaceAdds(s[..|s| - 1], x, key);
      assert s == s[..|s| - 1] + [s[|s| - 1]];
    }
  }

  lemma {:induction false} PlaceOrders<T>(s: seq<T>, x: T, key: T -> Key)
    requires InOrder(s, key)
    ensures InOrder(Place(s, x, key), key)
  {
    if s != [] && Before(key(x), key(s[|s| - 1])) {
      var rest, last := s[..|s| - 1], s[|s| - 1];
      PlaceOrders(rest, x, key);
      PlaceAdds(rest, x, key);
      var p := Place(rest, x, key);
      forall i | 0 <= i < |p| ensures !Before(key(last), key(p[i])) {
        assert p[i] in multiset(p);
        assert p[i] == x || p[i] in multiset(rest);
        if p[i] in multiset(rest) {
          var k :| 0 <= k < |rest| && rest[k] == p[i];
          assert s[k] == p[i];
        }
      }
    }
  }

  /** Sorting rearranges and puts in order. */
  lemma {:induction false} Sorts<T>(s: seq<T>, key: T -> Key)
    ensures multiset(Sort(s, key)) == multiset(s) && |Sort(s, key)| == |s|
    ensures InOrder(Sort(s, key), key)
  {
    if s != [] {
      var rest, last := s[..|s| - 1], s[|s| - 1];
      Sorts(rest, key);
      PlaceAdds(Sort(rest, key), last, key);
      PlaceOrders(Sort(rest, key), last, key);
      assert s == rest + [last];
      assert |multiset(Sort(s, key))| == |multiset(s)|;
    }
  }

  // Only the keys of the elements themselves matter.
  lemma {:induction false} SortSame<T>(s: seq<T>, a: T -> Key, b: T -> Key)
    requires forall x :: x in s ==> a(x) == b(x)
    ensures Sort(s, a) == Sort(s, b)
  {
    if s != [] {
      var rest, last := s[..|s| - 1], s[|s| - 1];
      SortSame(rest, a, b);
      Sorts(rest, a);
      forall x | x in Sort(rest, a) ensures a(x) == b(x) {
        assert x in multiset(Sort(rest, a));
        assert x in rest;
      }
      PlaceSame(Sort(rest, a), last, a, b);
    }
  }

  lemma {:induction false} PlaceSame<T>(s: seq<T>, x: T, a: T -> Key, b: T -> Key)
    requires a(x) == b(x) && forall y :: y in s ==> a(y) == b(y)
    ensures Place(s, x, a) == Place(s, x, b)
  {
    if s != [] {
      assert s[|s| - 1] in s;
      PlaceSame(s[..|s| - 1], x, a, b);
    }
  }
}
