/** PHP arrays with string keys, as used by the controller: an ordered
    sequence of entries whose keys are kept in insertion order. Assigning to a
    present key replaces its value where it stands; assigning to a new key
    appends it. */
module OrderedMaps {
  import opened Wrappers

  type Assoc<K, V> = seq<(K, V)>

  /** No element occurs twice. */
  predicate Distinct<T(==)>(s: seq<T>) {
    forall i, j :: 0 <= i < j < |s| ==> s[i] != s[j]
  }

  /** The keys, in order (`array_keys`). */
  function Keys<K, V>(m: Assoc<K, V>): (ks: seq<K>)
    ensures |ks| == |m|
    ensures forall i :: 0 <= i < |m| ==> ks[i] == m[i].0
  {
    if m == [] then [] else [m[0].0] + Keys(m[1..])
  }

  /** Every key occurs once: the shape of every PHP array. */
  predicate Unique<K(==), V>(m: Assoc<K, V>) {
    Distinct(Keys(m))
  }

  /** The value stored under `k` (`$m[$k] ?? null`). */
  function Get<K(==), V>(m: Assoc<K, V>, k: K): (r: Option<V>)
    ensures r.Some? <==> k in Keys(m)
    ensures r.Some? ==> (k, r.value) in m
  {
    if m == [] then None
    else if m[0].0 == k then Some(m[0].1)
    else Get(m[1..], k)
  }

  /** The position of a key the map holds. */
  lemma {:induction false} KeyIndex<K, V>(m: Assoc<K, V>, k: K) returns (i: nat)
    requires k in Keys(m)
    ensures i < |m| && m[i].0 == k
  {
    var ks := Keys(m);
    i :| 0 <= i < |ks| && ks[i] == k;
  }

  /** `$m[$k] = $v`: overwrite in place when `k` is present, append otherwise. */
  function Put<K(==,!new), V>(m: Assoc<K, V>, k: K, v: V): (r: Assoc<K, V>)
    ensures Keys(r) == if k in Keys(m) then Keys(m) else Keys(m) + [k]
    ensures Unique(m) ==> Unique(r)
  {
    if m == [] then [(k, v)]
    else
      assert m == [m[0]] + m[1..];
      if m[0].0 == k then
        PutFront(m[0], m[1..], v);
        [(k, v)] + m[1..]
      else
        var rest := Put(m[1..], k, v);
        PutBehind(m[0], m[1..], rest, k);
        [m[0]] + rest
  }

  /** The base case of `Put`: replacing the value of the front entry. */
  lemma PutFront<K, V>(e: (K, V), tail: Assoc<K, V>, v: V)
    ensures Keys([(e.0, v)] + tail) == Keys([e] + tail)
    ensures Unique([e] + tail) ==> Unique([(e.0, v)] + tail)
  {
    KeysCons(e, tail);
    KeysCons((e.0, v), tail);
  }

  /** The induction step of `Put` past a front entry with another key. */
  lemma PutBehind<K, V>(e: (K, V), tail: Assoc<K, V>, rest: Assoc<K, V>, k: K)
    requires e.0 != k
    requires Keys(rest) == if k in Keys(tail) then Keys(tail) else Keys(tail) + [k]
    requires Unique(tail) ==> Unique(rest)
    ensures Keys([e] + rest) ==
            if k in Keys([e] + tail) then Keys([e] + tail) else Keys([e] + tail) + [k]
    ensures Unique([e] + tail) ==> Unique([e] + rest)
  {
    KeysCons(e, tail);
    KeysCons(e, rest);
    if k !in Keys(tail) {
      assert [e.0] + (Keys(tail) + [k]) == ([e.0] + Keys(tail)) + [k];
    }
    if Unique([e] + tail) {
      UniqueTail(e, tail);
      assert e.0 !in Keys(rest);
      UniqueFront(e, rest);
    }
  }

  /** The keys of a map with one entry in front. */
  lemma KeysCons<K, V>(e: (K, V), m: Assoc<K, V>)
    ensures Keys([e] + m) == [e.0] + Keys(m)
  {
    assert ([e] + m)[1..] == m;
  }

  /** Looking a key up in a map with one entry in front. */
  lemma GetCons<K, V>(e: (K, V), m: Assoc<K, V>, k: K)
    ensures Get([e] + m, k) == if e.0 == k then Some(e.1) else Get(m, k)
  {
    assert ([e] + m)[1..] == m;
  }

  /** Putting an entry with a fresh key in front of a map with unique keys
      keeps the keys unique. */
  lemma UniqueFront<K, V>(e: (K, V), m: Assoc<K, V>)
    requires e.0 !in Keys(m) && Unique(m)
    ensures Unique([e] + m)
  {
    KeysCons(e, m);
    var ks, ms := Keys([e] + m), Keys(m);
    forall i, j | 0 <= i < j < |ks| ensures ks[i] != ks[j] {
      if i > 0 {
        assert ks[i] == ms[i - 1] && ks[j] == ms[j - 1];
      } else {
        assert ks[j] == ms[j - 1];
      }
    }
  }

  /** Behind the front entry of a map with unique keys: unique keys, and
      none of them the front key. */
  lemma UniqueTail<K, V>(e: (K, V), m: Assoc<K, V>)
    requires Unique([e] + m)
    ensures e.0 !in Keys(m) && Unique(m)
  {
    KeysCons(e, m);
    var ks, ms := Keys([e] + m), Keys(m);
    forall i, j | 0 <= i < j < |ms| ensures ms[i] != ms[j] {
      assert ks[i + 1] != ks[j + 1];
    }
    forall i | 0 <= i < |ms| ensures ms[i] != e.0 {
      assert ks[0] != ks[i + 1];
    }
  }

  /** Reading back after `Put`: the written key holds the new value, every
      other key keeps its old one. */
  lemma {:induction false} PutGet<K(!new), V>(m: Assoc<K, V>, k: K, v: V, j: K)
    ensures Get(Put(m, k, v), j) == if j == k then Some(v) else Get(m, j)
  {
    if m != [] {
      var tail := m[1..];
      assert m == [m[0]] + tail;
      GetCons(m[0], tail, j);
      if m[0].0 == k {
        GetCons((k, v), tail, j);
      } else {
        PutGet(tail, k, v, j);
        GetCons(m[0], Put(tail, k, v), j);
      }
    }
  }

  /** Every key other than the written one keeps its value. */
  lemma PutGetOthers<K(!new), V>(m: Assoc<K, V>, k: K, v: V)
    ensures forall j :: j != k ==> Get(Put(m, k, v), j) == Get(m, j)
  {
    forall j | j != k ensures Get(Put(m, k, v), j) == Get(m, j) {
      PutGet(m, k, v, j);
    }
  }

  /** The value of the last entry of `ps` with key `k`. */
  function GetLast<K(==), V>(ps: Assoc<K, V>, k: K): (r: Option<V>)
    ensures r.Some? <==> k in Keys(ps)
  {
    if ps == [] then None
    else
      KeysOfLast(ps);
      if ps[|ps| - 1].0 == k then Some(ps[|ps| - 1].1)
      else GetLast(ps[..|ps| - 1], k)
  }

  /** Assign every entry of `ps` to `m`, first to last (a `foreach` of
      assignments, or `array_merge` with string keys). */
  function PutAll<K(==,!new), V>(m: Assoc<K, V>, ps: Assoc<K, V>): (r: Assoc<K, V>)
    ensures forall k :: k in Keys(r) <==> k in Keys(m) || k in Keys(ps)
    ensures |m| <= |r| && Keys(r)[..|m|] == Keys(m)
    ensures Unique(m) ==> Unique(r)
  {
    if ps == [] then m
    else
      var init, last := ps[..|ps| - 1], ps[|ps| - 1];
      KeysOfLast(ps);
      var prev := PutAll(m, init);
      var r := Put(prev, last.0, last.1);
      PrefixOfPrefix(Keys(r), Keys(prev), Keys(m));
      r
  }

  /** A prefix of a prefix is a prefix. */
  lemma PrefixOfPrefix<T>(a: seq<T>, b: seq<T>, c: seq<T>)
    requires |b| <= |a| && a[..|b|] == b
    requires |c| <= |b| && b[..|c|] == c
    ensures a[..|c|] == c
  {
    assert a[..|c|] == a[..|b|][..|c|];
  }

  /** The keys of a non-empty map are the keys of all but its last entry,
      then the last key. */
  lemma KeysOfLast<K, V>(ps: Assoc<K, V>)
    requires ps != []
    ensures Keys(ps) == Keys(ps[..|ps| - 1]) + [ps[|ps| - 1].0]
  {
    var init := ps[..|ps| - 1];
    var a, b := Keys(ps), Keys(init) + [ps[|ps| - 1].0];
    forall i | 0 <= i < |a| ensures a[i] == b[i] {
      if i < |init| {
        assert b[i] == Keys(init)[i] == init[i].0;
      }
    }
  }

  /** The last writer wins: after `PutAll`, a key holds its last value in
      `ps`, and keys `ps` does not mention keep their value in `m`. */
  lemma {:induction false} PutAllGet<K(!new), V>(m: Assoc<K, V>, ps: Assoc<K, V>, k: K)
    ensures Get(PutAll(m, ps), k) == if k in Keys(ps) then GetLast(ps, k) else Get(m, k)
    decreases |ps|
  {
    if ps != [] {
      var init, last := ps[..|ps| - 1], ps[|ps| - 1];
      PutAllGet(m, init, k);
      KeysOfLast(ps);
      PutGet(PutAll(m, init), last.0, last.1, k);
    }
  }

  /** Assigning `ps` to an empty map: every key holds its last value in `ps`. */
  lemma PutAllGetAll<K(!new), V>(ps: Assoc<K, V>)
    ensures forall k :: Get(PutAll([], ps), k) == GetLast(ps, k)
  {
    forall k ensures Get(PutAll([], ps), k) == GetLast(ps, k) {
      PutAllGet([], ps, k);
    }
  }

  /** Assigning entries whose keys are new and pairwise distinct just
      appends them: the result is `m + ps`. */
  lemma {:induction false} PutAllFresh<K(!new), V>(m: Assoc<K, V>, ps: Assoc<K, V>)
    requires Distinct(Keys(m + ps))
    ensures PutAll(m, ps) == m + ps
    decreases |ps|
  {
    if ps != [] {
      var init, last := ps[..|ps| - 1], ps[|ps| - 1];
      assert ps == init + [last];
      assert m + ps == (m + init) + [last];
      DistinctWithoutLast(m + ps);
      PutAllFresh(m, init);
      PutAppend(m + init, last.0, last.1);
    }
  }

  /** Dropping the last entry of a map with distinct keys leaves distinct
      keys, none of them the dropped key. */
  lemma DistinctWithoutLast<K, V>(m: Assoc<K, V>)
    requires m != [] && Distinct(Keys(m))
    ensures Distinct(Keys(m[..|m| - 1]))
    ensures m[|m| - 1].0 !in Keys(m[..|m| - 1])
  {
    var ks, init := Keys(m), Keys(m[..|m| - 1]);
    KeysOfLast(m);
    forall i, j | 0 <= i < j < |init| ensures init[i] != init[j] {
      assert init[i] == ks[i] && init[j] == ks[j];
    }
    forall i | 0 <= i < |init| ensures init[i] != ks[|m| - 1] {
      assert init[i] == ks[i];
    }
  }

  /** `Put` of a key the map does not hold appends it. */
  lemma {:induction false} PutAppend<K(!new), V>(m: Assoc<K, V>, k: K, v: V)
    requires k !in Keys(m)
    ensures Put(m, k, v) == m + [(k, v)]
  {
    if m != [] {
      KeysCons(m[0], m[1..]);
      assert [m[0]] + m[1..] == m;
      PutAppend(m[1..], k, v);
      ConsAppend(m[0], m[1..], (k, v));
    }
  }

  lemma ConsAppend<T>(x: T, s: seq<T>, y: T)
    ensures [x] + (s + [y]) == ([x] + s) + [y]
  {
  }

  /** A sequence with no repeated element has as many elements as its set. */
  lemma {:induction false} DistinctCardinality<T>(s: seq<T>)
    requires Distinct(s)
    ensures |set x | x in s| == |s|
  {
    if s != [] {
      var tail := s[1..];
      DistinctCardinality(tail);
      assert (set x | x in s) == (set x | x in tail) + {s[0]};
      assert s[0] !in tail;
    }
  }

  /** With unique keys, the entry at position `i` is what a lookup finds,
      whether it searches from the front or from the back. */
  lemma {:induction false} UniqueGet<K(!new), V>(m: Assoc<K, V>, i: nat)
    requires Unique(m) && i < |m|
    ensures Get(m, m[i].0) == Some(m[i].1)
  {
    if i > 0 {
      assert Keys(m)[0] != Keys(m)[i];
      assert Unique(m[1..]) by {
        forall a, b | 0 <= a < b < |m[1..]| ensures Keys(m[1..])[a] != Keys(m[1..])[b] {
          assert Keys(m)[a + 1] != Keys(m)[b + 1];
        }
      }
      UniqueGet(m[1..], i - 1);
    }
  }

  lemma {:induction false} UniqueGetLast<K(!new), V>(m: Assoc<K, V>, i: nat)
    requires Unique(m) && i < |m|
    ensures GetLast(m, m[i].0) == Some(m[i].1)
    decreases |m|
  {
    if i < |m| - 1 {
      assert Keys(m)[i] != Keys(m)[|m| - 1];
      DistinctWithoutLast(m);
      UniqueGetLast(m[..|m| - 1], i);
    }
  }
}
