/** Array.prototype.sort with a comparator that orders by a key in descending
    order. Since ES2019 the sort is stable, so the model is a stable insertion
    sort. Keys are pairs compared lexicographically, which covers both the
    single-key comparators (`(a, b) => key(b) - key(a)`, with a constant second
    component) and the two-level one of the tournament standings. */
module Sorting {

  type Key = (int, int)

  /** `a` may precede `b` in a descending order. */
  predicate AtLeast(a: Key, b: Key) {
    a.0 > b.0 || (a.0 == b.0 && a.1 >= b.1)
  }

  predicate Descending<T>(s: seq<T>, key: T -> Key) {
    forall i, j :: 0 <= i < j < |s| ==> AtLeast(key(s[i]), key(s[j]))
  }

  /** The elements of `s` whose key is `k`, in their order in `s`. */
  function WithKey<T>(s: seq<T>, key: T -> Key, k: Key): seq<T> {
    if s == [] then []
    else WithKey(s[..|s| - 1], key, k) + (if key(s[|s| - 1]) == k then [s[|s| - 1]] else [])
  }

  /** Inserts `x` after every element whose key is at least its own. */
  function Insert<T>(x: T, s: seq<T>, key: T -> Key): seq<T> {
    if s == [] || AtLeast(key(s[|s| - 1]), key(x)) then s + [x]
    else Insert(x, s[..|s| - 1], key) + [s[|s| - 1]]
  }

  /** Stable sort by descending key. */
  function SortDesc<T>(s: seq<T>, key: T -> Key): seq<T> {
    if s == [] then [] else Insert(s[|s| - 1], SortDesc(s[..|s| - 1], key), key)
  }

  lemma {:induction false} InsertPermutes<T>(x: T, s: seq<T>, key: T -> Key)
    ensures multiset(Insert(x, s, key)) == multiset(s) + multiset{x}
  {
    if s == [] || AtLeast(key(s[|s| - 1]), key(x)) {
    } else {
      var init := s[..|s| - 1];
      InsertPermutes(x, init, key);
      assert s == init + [s[|s| - 1]];
    }
  }

  lemma {:induction false} InsertKeepsDescending<T>(x: T, s: seq<T>, key: T -> Key)
    requires Descending(s, key)
    ensures Descending(Insert(x, s, key), key)
    ensures Insert(x, s, key) != [] && Insert(x, s, key)[0] == (if s == [] then x else if AtLeast(key(s[0]), key(x)) then s[0] else x)
  {
    if s == [] || AtLeast(key(s[|s| - 1]), key(x)) {
      if s != [] {
        assert AtLeast(key(s[0]), key(s[|s| - 1]));
      }
    } else {
      var init, last := s[..|s| - 1], s[|s| - 1];
      InsertKeepsDescending(x, init, key);
      var r := Insert(x, init, key);
      InsertPermutes(x, init, key);
      forall y | y in multiset(r) ensures AtLeast(key(y), key(last)) {
        if y == x {
        } else {
          assert y in multiset(init);
          var i :| 0 <= i < |init| && init[i] == y;
          assert s[i] == y;
        }
      }
      forall i | 0 <= i < |r| ensures AtLeast(key(r[i]), key(last)) {
        assert r[i] in multiset(r);
      }
      AppendLeast(r, last, key);
      if init != [] {
        assert s[0] == init[0];
      }
    }
  }

  /** Appending an element whose key is at most every key keeps the order. */
  lemma AppendLeast<T>(s: seq<T>, x: T, key: T -> Key)
    requires Descending(s, key)
    requires forall i :: 0 <= i < |s| ==> AtLeast(key(s[i]), key(x))
    ensures Descending(s + [x], key)
  {
    var t := s + [x];
    forall i, j | 0 <= i < j < |t| ensures AtLeast(key(t[i]), key(t[j])) {
      assert t[i] == s[i];
      if j < |s| {
        assert t[j] == s[j];
      }
    }
  }

  lemma {:induction false} InsertKeepsTies<T>(x: T, s: seq<T>, key: T -> Key, k: Key)
    ensures WithKey(Insert(x, s, key), key, k) == WithKey(s, key, k) + (if key(x) == k then [x] else [])
  {
    if s == [] || AtLeast(key(s[|s| - 1]), key(x)) {
      assert (s + [x])[..|s + [x]| - 1] == s;
    } else {
      var init, last := s[..|s| - 1], s[|s| - 1];
      InsertKeepsTies(x, init, key, k);
      var r := Insert(x, init, key);
      assert (r + [last])[..|r + [last]| - 1] == r;
      assert !(key(x) == k && key(last) == k);
    }
  }

  /** The sorted sequence is a permutation of the input. */
  lemma {:induction false} SortPermutes<T>(s: seq<T>, key: T -> Key)
    ensures multiset(SortDesc(s, key)) == multiset(s)
    ensures |SortDesc(s, key)| == |s|
  {
    if s != [] {
      var init := s[..|s| - 1];
      SortPermutes(init, key);
      InsertPermutes(s[|s| - 1], SortDesc(init, key), key);
      assert s == init + [s[|s| - 1]];
    }
  }

  /** The sorted sequence is in descending key order. */
  lemma {:induction false} SortIsDescending<T>(s: seq<T>, key: T -> Key)
    ensures Descending(SortDesc(s, key), key)
  {
    if s != [] {
      SortIsDescending(s[..|s| - 1], key);
      InsertKeepsDescending(s[|s| - 1], SortDesc(s[..|s| - 1], key), key);
    }
  }

  /** Stability: elements with equal keys keep their relative input order. */
  lemma {:induction false} SortIsStable<T>(s: seq<T>, key: T -> Key, k: Key)
    ensures WithKey(SortDesc(s, key), key, k) == WithKey(s, key, k)
  {
    if s != [] {
      SortIsStable(s[..|s| - 1], key, k);
      InsertKeepsTies(s[|s| - 1], SortDesc(s[..|s| - 1], key), key, k);
    }
  }

  /** When every key is the same, sorting changes nothing. */
  lemma {:induction false} SortOfTies<T>(s: seq<T>, key: T -> Key, k: Key)
    requires forall i :: 0 <= i < |s| ==> key(s[i]) == k
    ensures SortDesc(s, key) == s
  {
    SortIsStable(s, key, k);
    SortPermutes(s, key);
    var r := SortDesc(s, key);
    forall i | 0 <= i < |r| ensures key(r[i]) == k {
      assert r[i] in multiset(r);
      var j :| 0 <= j < |s| && s[j] == r[i];
    }
    AllWithKey(s, key, k);
    AllWithKey(r, key, k);
  }

  lemma {:induction false} AllWithKey<T>(s: seq<T>, key: T -> Key, k: Key)
    requires forall i :: 0 <= i < |s| ==> key(s[i]) == k
    ensures WithKey(s, key, k) == s
  {
    if s != [] {
      AllWithKey(s[..|s| - 1], key, k);
    }
  }
}
