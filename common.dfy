/** Shared vocabulary: optional values (JavaScript's null/undefined), identifiers
    and the few array operations the bot's handlers use (indexOf, splice(i, 1)). */
module Common {

  /** A value that may be absent: `null` or `undefined` in the JavaScript source. */
  datatype Option<T> = None | Some(value: T)

  /** The colour of one letter of a scored guess: grey/red, yellow, green. */
  datatype Tile = Miss | Present | Hit

  /** Discord snowflakes and other opaque string keys. Every id the bot stores
      is a non-empty string, so JavaScript's truthiness test on an id is the
      same as asking whether it is present. */
  type UserId = string
  type GuildId = string
  type ChannelId = string

  /** Array.prototype.indexOf: the first position holding x, or -1. */
  function IndexOf<T(==)>(s: seq<T>, x: T): (r: int)
    ensures -1 <= r < |s|
    ensures r == -1 <==> x !in s
    ensures r >= 0 ==> s[r] == x && x !in s[..r]
  {
    if s == [] then -1
    else if s[0] == x then 0
    else
      var r := IndexOf(s[1..], x);
      assert r >= 0 ==> s[1..][..r] == s[1..r + 1];
      if r == -1 then -1 else r + 1
  }

  /** Array.prototype.splice(i, 1) seen on values: the sequence without position i. */
  function RemoveAt<T>(s: seq<T>, i: nat): (r: seq<T>)
    requires i < |s|
    ensures |r| == |s| - 1
    ensures forall k :: 0 <= k < i ==> r[k] == s[k]
    ensures forall k :: i <= k < |r| ==> r[k] == s[k + 1]
  {
    s[..i] + s[i + 1..]
  }

  predicate NoDuplicates<T(==)>(s: seq<T>) {
    forall i, j :: 0 <= i < j < |s| ==> s[i] != s[j]
  }

  /** Removing one element keeps a duplicate-free sequence duplicate-free and
      drops exactly that element. */
  lemma RemoveAtNoDuplicates<T>(s: seq<T>, i: nat)
    requires i < |s| && NoDuplicates(s)
    ensures NoDuplicates(RemoveAt(s, i))
    ensures s[i] !in RemoveAt(s, i)
    ensures forall y :: y in RemoveAt(s, i) <==> y in s && y != s[i]
  {
    var r := RemoveAt(s, i);
    forall y | y in s && y != s[i] ensures y in r {
      var k :| 0 <= k < |s| && s[k] == y;
      if k < i { assert r[k] == y; } else { assert r[k - 1] == y; }
    }
  }

  function Max(a: int, b: int): int { if a >= b then a else b }
  function Min(a: int, b: int): int { if a <= b then a else b }

  /** A JavaScript object with string keys that are not array indices: its
      entries in insertion order. Writing an existing key keeps its position;
      writing a new key appends it; `delete` removes it. */
  type Entries<V> = seq<(string, V)>

  predicate UniqueKeys<V>(e: Entries<V>) {
    forall i, j :: 0 <= i < j < |e| ==> e[i].0 != e[j].0
  }

  function Lookup<V>(e: Entries<V>, k: string): (r: Option<V>)
    ensures r.Some? <==> exists i :: 0 <= i < |e| && e[i].0 == k
    ensures r.Some? && UniqueKeys(e) ==> forall i :: 0 <= i < |e| && e[i].0 == k ==> e[i].1 == r.value
  {
    if e == [] then None
    else if e[|e| - 1].0 == k then Some(e[|e| - 1].1)
    else
      var r := Lookup(e[..|e| - 1], k);
      assert forall i :: 0 <= i < |e| - 1 ==> e[..|e| - 1][i] == e[i];
      r
  }

  /** `obj[k] = v`. */
  function Put<V>(e: Entries<V>, k: string, v: V): (r: Entries<V>)
    ensures |r| == if Lookup(e, k).Some? then |e| else |e| + 1
    ensures Lookup(e, k).Some? ==> forall i :: 0 <= i < |e| ==> r[i] == (if e[i].0 == k then (k, v) else e[i])
    ensures Lookup(e, k).None? ==> r == e + [(k, v)]
  {
    if Lookup(e, k).Some? then seq(|e|, i requires 0 <= i < |e| => if e[i].0 == k then (k, v) else e[i])
    else e + [(k, v)]
  }

  lemma PutProperties<V>(e: Entries<V>, k: string, v: V)
    requires UniqueKeys(e)
    ensures UniqueKeys(Put(e, k, v))
    ensures Lookup(Put(e, k, v), k) == Some(v)
    ensures forall k' :: k' != k ==> Lookup(Put(e, k, v), k') == Lookup(e, k')
  {
    var r := Put(e, k, v);
    forall k' | k' != k ensures Lookup(r, k') == Lookup(e, k') {
      if Lookup(e, k').Some? {
        var i :| 0 <= i < |e| && e[i].0 == k';
        assert r[i] == e[i];
      }
      if Lookup(r, k').Some? {
        var i :| 0 <= i < |r| && r[i].0 == k';
        if i < |e| { assert e[i] == r[i]; }
      }
    }
    if Lookup(e, k).Some? {
      var i :| 0 <= i < |e| && e[i].0 == k;
      assert r[i] == (k, v);
    } else {
      assert r[|e|] == (k, v);
    }
  }
}
