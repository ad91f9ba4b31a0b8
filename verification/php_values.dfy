/** The slice of PHP's value model the controller depends on: request and
    configuration values, and the loose "emptiness" that `empty()` and
    `array_filter()` test. */
module PhpValues {
  import opened Wrappers
  import opened OrderedMaps

  /** A PHP value as it reaches the controller from a request or the
      configuration. Floats and objects are not modelled. */
  datatype Value =
    | Null
    | Bool(b: bool)
    | Int(i: int)
    | Str(s: string)
    | Arr(items: seq<Value>)

  /** PHP's loose falsiness, as tested by `empty()` and by `array_filter()`
      without a callback: null, false, 0, "", "0" and the empty array. */
  predicate IsFalsy(v: Value) {
    match v
    case Null => true
    case Bool(b) => !b
    case Int(i) => i == 0
    case Str(s) => s == "" || s == "0"
    case Arr(items) => items == []
  }

  /** `empty($d) ? null : $d`: an empty value is reported as null. */
  function OrNull(v: Value): (r: Value)
    ensures r == Null <==> IsFalsy(v)
    ensures r != Null ==> r == v
  {
    if IsFalsy(v) then Null else v
  }

  /** `array_filter($m)`: drop every entry whose value is falsy, keeping keys
      and order. */
  function ArrayFilter<K(!new)>(m: Assoc<K, Value>): (r: Assoc<K, Value>)
    ensures |r| <= |m|
    ensures forall i :: 0 <= i < |r| ==> !IsFalsy(r[i].1)
    ensures forall e :: e in r <==> e in m && !IsFalsy(e.1)
  {
    if m == [] then []
    else if IsFalsy(m[0].1) then ArrayFilter(m[1..])
    else [m[0]] + ArrayFilter(m[1..])
  }

  /** Filtering distributes over concatenation, so surviving entries keep
      their relative order. */
  lemma {:induction false} ArrayFilterAppend<K(!new)>(a: Assoc<K, Value>, b: Assoc<K, Value>)
    ensures ArrayFilter(a + b) == ArrayFilter(a) + ArrayFilter(b)
  {
    if a != [] {
      assert (a + b)[1..] == a[1..] + b;
      ArrayFilterAppend(a[1..], b);
    } else {
      assert a + b == b;
    }
  }

  /** Where a kept entry came from: every entry of the filtered map is an
      entry of the original. */
  lemma {:induction false} ArrayFilterOrigin<K(!new)>(m: Assoc<K, Value>, i: nat) returns (j: nat)
    requires i < |ArrayFilter(m)|
    ensures j < |m| && m[j] == ArrayFilter(m)[i]
  {
    if IsFalsy(m[0].1) {
      j := ArrayFilterOrigin(m[1..], i);
      j := j + 1;
    } else if i == 0 {
      j := 0;
    } else {
      j := ArrayFilterOrigin(m[1..], i - 1);
      j := j + 1;
    }
  }

  /** Where a truthy entry went: it occurs in the filtered map. */
  lemma {:induction false} ArrayFilterKeeps<K(!new)>(m: Assoc<K, Value>, j: nat) returns (i: nat)
    requires j < |m| && !IsFalsy(m[j].1)
    ensures i < |ArrayFilter(m)| && ArrayFilter(m)[i] == m[j]
  {
    if j == 0 {
      i := 0;
    } else if IsFalsy(m[0].1) {
      i := ArrayFilterKeeps(m[1..], j - 1);
    } else {
      i := ArrayFilterKeeps(m[1..], j - 1);
      i := i + 1;
    }
  }

  /** Looking up a key after filtering: present with its value exactly when
      it was present with a truthy value. Filtering keeps keys unique. */
  lemma {:induction false} ArrayFilterGet<K(!new)>(m: Assoc<K, Value>, k: K)
    requires Unique(m)
    ensures Unique(ArrayFilter(m))
    ensures Get(ArrayFilter(m), k) ==
              match Get(m, k)
              case Some(v) => if IsFalsy(v) then None else Some(v)
              case None => None
  {
    if m != [] {
      assert Keys(m) == [m[0].0] + Keys(m[1..]);
      assert Unique(m[1..]) by {
        forall i, j | 0 <= i < j < |m[1..]| ensures Keys(m[1..])[i] != Keys(m[1..])[j] {
          assert Keys(m)[i + 1] != Keys(m)[j + 1];
        }
      }
      ArrayFilterGet(m[1..], k);
      var rest := ArrayFilter(m[1..]);
      assert m[0].0 !in Keys(m[1..]);
      forall i | 0 <= i < |rest| ensures rest[i].0 != m[0].0 {
        assert rest[i] in m[1..];
      }
    }
  }
}
