/** Ascending sort on a string key. It stands for the two sorts the program relies
    on: the document store's `sort("date", 1)` and Python's `sorted()` on the
    date keys of a chart. Neither promises an order among equal keys, so the
    contract is only "ascending, and a permutation of the input". */
module Sorting {
  import opened Text

  ghost predicate SortedBy<T>(s: seq<T>, key: T -> string) {
    forall i, j :: 0 <= i < j < |s| ==> LexLe(key(s[i]), key(s[j]))
  }

  lemma SortedCons<T>(h: T, s: seq<T>, key: T -> string)
    requires SortedBy(s, key)
    requires forall y :: y in s ==> LexLe(key(h), key(y))
    ensures SortedBy([h] + s, key)
  {
  }

  function Insert<T>(x: T, s: seq<T>, key: T -> string): (r: seq<T>)
    requires SortedBy(s, key)
    ensures SortedBy(r, key)
    ensures multiset(r) == multiset(s) + multiset{x}
  {
    if s == [] then [x]
    else if LexLe(key(x), key(s[0])) then
      forall y | y in s ensures LexLe(key(x), key(y)) {
        var j :| 0 <= j < |s| && s[j] == y;
        if j > 0 { LexLeTransitive(key(x), key(s[0]), key(s[j])); }
      }
      SortedCons(x, s, key);
      [x] + s
    else
      var r' := Insert(x, s[1..], key);
      LexLeTotal(key(x), key(s[0]));
      assert s == [s[0]] + s[1..];
      forall y | y in r' ensures LexLe(key(s[0]), key(y)) {
        assert y in multiset(r');
        if y != x {
          assert y in s[1..];
        }
      }
      SortedCons(s[0], r', key);
      [s[0]] + r'
  }

  function SortBy<T>(s: seq<T>, key: T -> string): (r: seq<T>)
    ensures SortedBy(r, key)
    ensures multiset(r) == multiset(s)
  {
    if s == [] then []
    else
      assert s == [s[0]] + s[1..];
      Insert(s[0], SortBy(s[1..], key), key)
  }
}
