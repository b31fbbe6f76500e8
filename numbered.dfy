/** JavaScript objects whose keys are small positive integers, as the birthday
    registry and the shop catalogue keep them (`data.birthdays[guild]`,
    `data.shop[guild]`). Integer keys are enumerated in ascending numeric
    order by Object.keys, Object.values and Object.entries, whatever the
    order of insertion. Both commands add under `count + 1` and renumber
    after a removal, which keeps the keys exactly 1..n. */
module Numbered {
  import opened Common

  /** The smallest element of a non-empty finite set of integers. */
  function Least(s: set<int>): (k: int)
    requires s != {}
    ensures k in s && forall j :: j in s ==> k <= j
  {
    LeastExists(s);
    var k :| k in s && forall j :: j in s ==> k <= j;
    k
  }

  lemma NoElementIsEmpty(s: set<int>)
    ensures (forall y :: y !in s) ==> s == {}
  {
    if forall y :: y !in s {
      assert forall y :: y in s <==> y in {};
    }
  }

  lemma {:induction false} LeastExists(s: set<int>)
    requires s != {}
    ensures exists k :: k in s && forall j :: j in s ==> k <= j
    decreases |s|
  {
    NoElementIsEmpty(s);
    var x :| x in s;
    if s == {x} {
      assert forall j :: j in s ==> x <= j;
    } else {
      var t := s - {x};
      LeastExists(t);
      var k :| k in t && forall j :: j in t ==> k <= j;
      var least := if x < k then x else k;
      forall j | j in s ensures least <= j {
        if j != x {
          assert j in t;
        }
      }
      assert least in s;
    }
  }

  predicate Increasing(r: seq<int>) {
    forall i, j :: 0 <= i < j < |r| ==> r[i] < r[j]
  }

  /** The keys in enumeration order. */
  function KeyOrder(s: set<int>): (r: seq<int>)
    ensures |r| == |s|
    ensures forall i :: 0 <= i < |r| ==> r[i] in s
    decreases s
  {
    if s == {} then []
    else
      var k := Least(s);
      var rest := KeyOrder(s - {k});
      [k] + rest
  }

  /** The key order lists every key once, in increasing order. */
  lemma {:induction false} KeyOrderEnumerates(s: set<int>)
    ensures forall k :: k in KeyOrder(s) <==> k in s
    ensures Increasing(KeyOrder(s))
    decreases s
  {
    if s != {} {
      var k := Least(s);
      KeyOrderEnumerates(s - {k});
      KeyOrderUnfold(s);
      LeastFirst(s, k, KeyOrder(s - {k}));
    }
  }

  /** The least key followed by an increasing enumeration of the others is
      an increasing enumeration of all of them. */
  lemma LeastFirst(s: set<int>, k: int, rest: seq<int>)
    requires k in s && forall j :: j in s ==> k <= j
    requires |rest| == |s - {k}| && Increasing(rest)
    requires forall x :: x in rest <==> x in s - {k}
    ensures |[k] + rest| == |s|
    ensures forall x :: x in [k] + rest <==> x in s
    ensures Increasing([k] + rest)
  {
    var r := [k] + rest;
    forall i, j | 0 <= i < j < |r| ensures r[i] < r[j] {
      assert r[j] == rest[j - 1] && rest[j - 1] in rest;
      if i > 0 {
        assert r[i] == rest[i - 1];
      }
    }
  }

  /** An element below or equal to all the others is the least. */
  lemma LeastIs(s: set<int>, h: int)
    requires h in s && forall j :: j in s ==> h <= j
    ensures Least(s) == h
  {
  }

  lemma KeyOrderUnfold(s: set<int>)
    requires s != {}
    ensures KeyOrder(s) == [Least(s)] + KeyOrder(s - {Least(s)})
  {
  }

  /** The first element of an increasing enumeration is the least one, and
      the rest enumerate the others. */
  lemma {:induction false} HeadAndTail(r: seq<int>, s: set<int>)
    requires r != [] && Increasing(r)
    requires forall k :: k in r <==> k in s
    ensures r[0] in s && forall j :: j in s ==> r[0] <= j
    ensures forall k :: k in r[1..] <==> k in s - {r[0]}
    ensures Increasing(r[1..])
  {
    assert forall i :: 0 <= i < |r| - 1 ==> r[1..][i] == r[i + 1];
    assert r[0] in r;
    forall j | j in s ensures r[0] <= j {
      var i :| 0 <= i < |r| && r[i] == j;
    }
    forall k ensures k in r[1..] <==> k in s - {r[0]} {
      if k in s - {r[0]} {
        var i :| 0 <= i < |r| && r[i] == k;
        assert r[1..][i - 1] == k;
      }
      if k in r[1..] {
        var i :| 0 <= i < |r[1..]| && r[1..][i] == k;
        assert r[i + 1] == k;
      }
    }
  }

  /** An increasing enumeration of a set is its key order. */
  lemma {:induction false} KeyOrderUnique(r: seq<int>, s: set<int>)
    requires Increasing(r)
    requires forall k :: k in r <==> k in s
    ensures r == KeyOrder(s)
    decreases |r|
  {
    if r == [] {
      NoElementIsEmpty(s);
    } else {
      var h := r[0];
      HeadAndTail(r, s);
      LeastIs(s, h);
      KeyOrderUnique(r[1..], s - {h});
      KeyOrderUnfold(s);
      assert r == [h] + r[1..];
    }
  }

  /** No key is listed twice. */
  lemma KeyOrderDistinct(s: set<int>, i: nat, j: nat)
    requires i < |KeyOrder(s)| && j < |KeyOrder(s)| && i != j
    ensures KeyOrder(s)[i] != KeyOrder(s)[j]
  {
    KeyOrderEnumerates(s);
  }

  /** `Object.values(o)`. */
  function Values<V>(m: map<int, V>): (r: seq<V>)
    ensures |r| == |m|
    ensures forall i :: 0 <= i < |r| ==> KeyOrder(m.Keys)[i] in m && r[i] == m[KeyOrder(m.Keys)[i]]
  {
    var ks := KeyOrder(m.Keys);
    KeysOf(m, ks);
    seq(|ks|, i requires 0 <= i < |ks| => m[ks[i]])
  }

  /** The enumeration of a map's keys has one key per entry, each a key. */
  lemma KeysOf<V>(m: map<int, V>, ks: seq<int>)
    requires ks == KeyOrder(m.Keys)
    ensures |ks| == |m|
    ensures forall i :: 0 <= i < |ks| ==> ks[i] in m
  {
    assert |m.Keys| == |m|;
    forall i | 0 <= i < |ks| ensures ks[i] in m {
      assert ks[i] in ks;
    }
  }

  /** Every key is one of 1..n and every one of 1..n is a key. */
  predicate Contiguous<V>(m: map<int, V>) {
    (forall k :: k in m ==> 1 <= k <= |m|) && (forall k :: 1 <= k <= |m| ==> k in m)
  }

  /** `Object.keys(o).length + 1`: the id a new entry is stored under. */
  function NextId<V>(m: map<int, V>): (id: int)
    ensures Contiguous(m) ==> id !in m
  {
    |m| + 1
  }

  /** The object a forEach over `items` builds: item i under key i + 1. */
  function Renumbered<V>(items: seq<V>): (r: map<int, V>)
    ensures |r| == |items|
    ensures forall k :: k in r <==> 1 <= k <= |items|
    ensures forall k :: 1 <= k <= |items| ==> r[k] == items[k - 1]
  {
    if items == [] then map[]
    else
      var r := Renumbered(items[..|items| - 1]);
      assert |items| !in r;
      r[|items| := items[|items| - 1]]
  }

  /** The keys 1..n in order. */
  lemma {:induction false} ContiguousKeyOrder<V>(m: map<int, V>)
    requires Contiguous(m)
    ensures forall i :: 0 <= i < |m| ==> KeyOrder(m.Keys)[i] == i + 1
  {
    var ks := seq(|m|, i requires 0 <= i < |m| => i + 1);
    forall k ensures k in ks <==> k in m.Keys {
      if 1 <= k <= |m| {
        assert ks[k - 1] == k;
      }
    }
    KeyOrderUnique(ks, m.Keys);
  }

  /** Renumbering keeps the values and their order. */
  lemma RenumberedValues<V>(items: seq<V>)
    ensures Contiguous(Renumbered(items))
    ensures Values(Renumbered(items)) == items
  {
    var r := Renumbered(items);
    ContiguousKeyOrder(r);
  }

  /** Storing under NextId in a contiguous object appends the value and keeps
      the keys contiguous. */
  lemma {:induction false} AddAppends<V>(m: map<int, V>, v: V)
    requires Contiguous(m)
    ensures Contiguous(m[NextId(m) := v])
    ensures Values(m[NextId(m) := v]) == Values(m) + [v]
  {
    var m' := m[NextId(m) := v];
    AddKeepsContiguous(m, v);
    ContiguousValues(m);
    ContiguousValues(m');
    var a, b := Values(m'), Values(m) + [v];
    forall i | 0 <= i < |a| ensures a[i] == b[i] {
      if i < |m| {
        assert a[i] == m'[i + 1] == m[i + 1];
      }
    }
  }

  lemma AddKeepsContiguous<V>(m: map<int, V>, v: V)
    requires Contiguous(m)
    ensures |m[NextId(m) := v]| == |m| + 1
    ensures Contiguous(m[NextId(m) := v])
  {
    assert NextId(m) !in m;
  }

  /** In an object with keys 1..n the i-th value is the one under i + 1. */
  lemma ContiguousValues<V>(m: map<int, V>)
    requires Contiguous(m)
    ensures forall i :: 0 <= i < |m| ==> Values(m)[i] == m[i + 1]
  {
    ContiguousKeyOrder(m);
  }

  /** Overwriting the i-th key replaces the i-th value in place. */
  lemma {:induction false} OverwriteAt<V>(m: map<int, V>, ks: seq<int>, i: nat, v: V)
    requires ks == KeyOrder(m.Keys) && i < |ks|
    ensures m[ks[i] := v].Keys == m.Keys
    ensures Contiguous(m) ==> Contiguous(m[ks[i] := v])
    ensures Values(m[ks[i] := v]) == Values(m)[i := v]
  {
    var k := ks[i];
    assert k in m;
    assert m[k := v].Keys == m.Keys;
    var a, b := Values(m[k := v]), Values(m)[i := v];
    forall j | 0 <= j < |ks| && j != i ensures ks[j] != k {
      KeyOrderDistinct(m.Keys, i, j);
    }
    forall j | 0 <= j < |ks| ensures a[j] == b[j] {
    }
  }

  /** Taking one key out of an increasing sequence leaves an increasing
      enumeration of the other keys. */
  lemma {:induction false} RemoveAtKeyOrder(ks: seq<int>, s: set<int>, i: nat)
    requires i < |ks| && Increasing(ks)
    requires forall x :: x in ks <==> x in s
    ensures RemoveAt(ks, i) == KeyOrder(s - {ks[i]})
  {
    var rest := RemoveAt(ks, i);
    forall a, b | 0 <= a < b < |rest| ensures rest[a] < rest[b] {
      var a' := if a < i then a else a + 1;
      var b' := if b < i then b else b + 1;
      assert rest[a] == ks[a'] && rest[b] == ks[b'];
    }
    forall x ensures x in rest <==> x in s - {ks[i]} {
      if x in s - {ks[i]} {
        var j :| 0 <= j < |ks| && ks[j] == x;
        if j < i { assert rest[j] == x; } else { assert j > i && rest[j - 1] == x; }
      }
      if x in rest {
        var j :| 0 <= j < |rest| && rest[j] == x;
        if j < i { assert ks[j] == x; } else { assert ks[j + 1] == x; }
      }
    }
    KeyOrderUnique(rest, s - {ks[i]});
  }

  lemma DeletedKeyOrder<V>(m: map<int, V>, ks: seq<int>, i: nat)
    requires ks == KeyOrder(m.Keys) && i < |ks|
    ensures KeyOrder((m - {ks[i]}).Keys) == RemoveAt(ks, i)
  {
    KeyOrderEnumerates(m.Keys);
    RemoveAtKeyOrder(ks, m.Keys, i);
    assert (m - {ks[i]}).Keys == m.Keys - {ks[i]};
  }

  lemma DeletedValueAt<V>(m: map<int, V>, ks: seq<int>, i: nat, j: nat)
    requires ks == KeyOrder(m.Keys) && i < |ks| && j < |ks| - 1
    requires KeyOrder((m - {ks[i]}).Keys) == RemoveAt(ks, i)
    ensures Values(m - {ks[i]})[j] == Values(m)[if j < i then j else j + 1]
  {
    var j' := if j < i then j else j + 1;
    var rest := KeyOrder((m - {ks[i]}).Keys);
    assert rest[j] == ks[j'];
  }

  /** Deleting the i-th key drops the i-th value and keeps the others in
      order. */
  lemma {:induction false} DeleteAt<V>(m: map<int, V>, ks: seq<int>, i: nat)
    requires ks == KeyOrder(m.Keys) && i < |ks|
    ensures Values(m - {ks[i]}) == RemoveAt(Values(m), i)
  {
    DeletedKeyOrder(m, ks, i);
    var a, b := Values(m - {ks[i]}), RemoveAt(Values(m), i);
    forall j | 0 <= j < |a| ensures a[j] == b[j] {
      DeletedValueAt(m, ks, i, j);
    }
  }

  /** Deleting a key drops its value and keeps the others in order; `i` is
      the key's position in enumeration order. */
  lemma DeleteKeepsOrder<V>(m: map<int, V>, k: int) returns (i: nat)
    requires k in m
    ensures i < |m| && KeyOrder(m.Keys)[i] == k
    ensures Values(m - {k}) == RemoveAt(Values(m), i)
  {
    var ks := KeyOrder(m.Keys);
    KeyOrderEnumerates(m.Keys);
    i :| i < |ks| && ks[i] == k;
    DeleteAt(m, ks, i);
  }

  /** Deleting key `id` and renumbering what is left, as both remove commands
      do. */
  function Removed<V>(m: map<int, V>, id: int): map<int, V>
    requires id in m
  {
    Renumbered(Values(m - {id}))
  }

  /** After a removal the keys are 1..n - 1 and the remaining values keep their
      order; in a contiguous object the removed value was the id-th. */
  lemma RemovedProperties<V>(m: map<int, V>, id: int) returns (i: nat)
    requires id in m
    ensures Contiguous(Removed(m, id)) && |Removed(m, id)| == |m| - 1
    ensures i < |m| && KeyOrder(m.Keys)[i] == id
    ensures Values(Removed(m, id)) == RemoveAt(Values(m), i)
    ensures Contiguous(m) ==> i == id - 1
  {
    i := DeleteKeepsOrder(m, id);
    RenumberedValues(Values(m - {id}));
    if Contiguous(m) {
      ContiguousKeyOrder(m);
    }
  }

  /** Every object of a collection has the keys 1..n. */
  ghost predicate AllContiguous<K, V>(objects: map<K, map<int, V>>) {
    forall k :: k in objects ==> Contiguous(objects[k])
  }

  lemma StillContiguous<K, V>(objects: map<K, map<int, V>>, k: K, m: map<int, V>)
    requires AllContiguous(objects) && Contiguous(m)
    ensures AllContiguous(objects[k := m])
  {
  }

  /** In an object with keys 1..n, removing key `id` takes out exactly the
      id-th value; the others keep their order under the keys 1..n - 1. */
  lemma RemovedFromContiguous<V>(m: map<int, V>, id: int)
    requires Contiguous(m) && id in m
    ensures Contiguous(Removed(m, id))
    ensures Values(Removed(m, id)) == RemoveAt(Values(m), id - 1)
    ensures Values(m)[id - 1] == m[id]
  {
    var i := RemovedProperties(m, id);
  }

  /** `items.forEach((item, index) => o[index + 1] = item)` on a fresh
      object. */
  method Renumber<V>(items: seq<V>) returns (r: map<int, V>)
    ensures r == Renumbered(items)
  {
    r := map[];
    for i := 0 to |items|
      invariant r == Renumbered(items[..i])
    {
      assert items[..i + 1][..i] == items[..i];
      r := r[i + 1 := items[i]];
    }
    assert items[..|items|] == items;
  }
}
