/** `DataFrame.sort_values` over a row type, by a key of cells. pandas does not
    promise a stable sort for one column, so only "ascending and a permutation"
    is stated; the insertion sort below is one of the orders pandas may return. */
module Sorting {
  import opened Order

  ghost predicate SortedBy<T>(s: seq<T>, key: T -> seq<Cell>)
  {
    forall i, j :: 0 <= i < j < |s| ==> KeyLe(key(s[i]), key(s[j]))
  }

  /** `x` inserted before the first row it does not sort after. */
  function InsertBy<T>(x: T, s: seq<T>, key: T -> seq<Cell>): (r: seq<T>)
    requires SortedBy(s, key)
    ensures SortedBy(r, key)
    ensures multiset(r) == multiset(s) + multiset{x}
  {
    if s == [] then [x]
    else if KeyLe(key(x), key(s[0])) then
      PrependSorted(x, s, key);
      [x] + s
    else
      var rest := InsertBy(x, s[1..], key);
      assert s == [s[0]] + s[1..];
      KeyLeTotal(key(x), key(s[0]));
      PrependSmallest(s[0], s[1..], x, rest, key);
      [s[0]] + rest
  }

  /** A row at most the first of a sorted sequence can go in front of it. */
  lemma PrependSorted<T>(x: T, s: seq<T>, key: T -> seq<Cell>)
    requires SortedBy(s, key) && s != [] && KeyLe(key(x), key(s[0]))
    ensures SortedBy([x] + s, key)
  {
    forall j | 0 < j < |s| {
      KeyLeTransitive(key(x), key(s[0]), key(s[j]));
    }
  }

  /** A row at most every row of `tail` and at most `x` can go in front of a
      sorted permutation of `tail` with `x`. */
  lemma PrependSmallest<T>(y: T, tail: seq<T>, x: T, rest: seq<T>, key: T -> seq<Cell>)
    requires SortedBy([y] + tail, key) && SortedBy(rest, key)
    requires multiset(rest) == multiset(tail) + multiset{x}
    requires KeyLe(key(y), key(x))
    ensures SortedBy([y] + rest, key)
  {
    forall j | 0 <= j < |rest| ensures KeyLe(key(y), key(rest[j])) {
      assert rest[j] in multiset(rest);
      if rest[j] != x {
        assert rest[j] in multiset(tail);
        var k :| 0 <= k < |tail| && tail[k] == rest[j];
        assert ([y] + tail)[0] == y && ([y] + tail)[k + 1] == rest[j];
      }
    }
  }

  /** The rows of `s`, reordered ascending by `key`. */
  function SortBy<T>(s: seq<T>, key: T -> seq<Cell>): (r: seq<T>)
    ensures SortedBy(r, key)
    ensures multiset(r) == multiset(s)
  {
    if s == [] then []
    else
      assert s == [s[0]] + s[1..];
      InsertBy(s[0], SortBy(s[1..], key), key)
  }
}
