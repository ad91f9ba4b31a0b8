/** Turning validated request data into console parameters: empty values are
    dropped, option names become `--name` flags, argument names stay as they
    are, and `--no-ansi` is always forced in. */
module Marshal {
  import opened Wrappers
  import opened OrderedMaps
  import opened PhpValues

  type Params = Assoc<string, Value>

  const NoAnsi := "--no-ansi"

  /** The parameter key for a data key: `--key` when it names an option.
      The key changes exactly for option names, and always ends with the
      data key. */
  function FlagKey(key: string, optionKeys: seq<string>): (r: string)
    ensures r == key <==> key !in optionKeys
    ensures |key| <= |r| && r[|r| - |key|..] == key
  {
    if key in optionKeys then "--" + key else key
  }

  /** Every entry re-keyed by `FlagKey`, values untouched. */
  function Flagged(data: Assoc<string, Value>, optionKeys: seq<string>): (ps: Params)
    ensures |ps| == |data|
    ensures forall i :: 0 <= i < |data| ==>
              ps[i].0 == FlagKey(data[i].0, optionKeys) && ps[i].1 == data[i].1
  {
    seq(|data|, i requires 0 <= i < |data| => (FlagKey(data[i].0, optionKeys), data[i].1))
  }

  /** The marshaling in the controller's run action: filter out falsy values,
      write each surviving value under its flag key, then write `--no-ansi`
      with the empty string. Whatever the input, `--no-ansi` is present once,
      mapped to the empty string. */
  function MarshalParams(data: Assoc<string, Value>, optionKeys: seq<string>): (params: Params)
    ensures Unique(params)
    ensures Get(params, NoAnsi) == Some(Str(""))
  {
    var body := PutAll([], Flagged(ArrayFilter(data), optionKeys));
    assert Unique<string, Value>([]);
    PutGet(body, NoAnsi, Str(""), NoAnsi);
    Put(body, NoAnsi, Str(""))
  }

  /** The parameter keys are `--no-ansi` and the flag keys of the truthy
      data entries, nothing else. */
  lemma MarshalKeys(data: Assoc<string, Value>, optionKeys: seq<string>, k: string)
    ensures k in Keys(MarshalParams(data, optionKeys)) <==>
              k == NoAnsi ||
              exists i :: 0 <= i < |data| && !IsFalsy(data[i].1) && FlagKey(data[i].0, optionKeys) == k
  {
    var written := Flagged(ArrayFilter(data), optionKeys);
    assert k in Keys(MarshalParams(data, optionKeys)) <==> k == NoAnsi || k in Keys(written);
    if k in Keys(written) {
      var j := WrittenKeyFromData(data, optionKeys, k);
    }
    if exists i :: 0 <= i < |data| && !IsFalsy(data[i].1) && FlagKey(data[i].0, optionKeys) == k {
      var i :| 0 <= i < |data| && !IsFalsy(data[i].1) && FlagKey(data[i].0, optionKeys) == k;
      DataKeyWritten(data, optionKeys, i);
    }
  }

  lemma WrittenKeyFromData(data: Assoc<string, Value>, optionKeys: seq<string>, k: string) returns (j: nat)
    requires k in Keys(Flagged(ArrayFilter(data), optionKeys))
    ensures j < |data| && !IsFalsy(data[j].1) && FlagKey(data[j].0, optionKeys) == k
  {
    var kept := ArrayFilter(data);
    var written := Flagged(kept, optionKeys);
    var i := KeyIndex(written, k);
    j := ArrayFilterOrigin(data, i);
    assert written[i].0 == FlagKey(kept[i].0, optionKeys);
  }

  lemma DataKeyWritten(data: Assoc<string, Value>, optionKeys: seq<string>, j: nat)
    requires j < |data| && !IsFalsy(data[j].1)
    ensures FlagKey(data[j].0, optionKeys) in Keys(Flagged(ArrayFilter(data), optionKeys))
  {
    var kept := ArrayFilter(data);
    var i := ArrayFilterKeeps(data, j);
    assert Keys(Flagged(kept, optionKeys))[i] == FlagKey(data[j].0, optionKeys);
  }

  /** Every parameter other than `--no-ansi` carries, unaltered, the value of
      a truthy data entry whose flag key it is. */
  lemma MarshalValues(data: Assoc<string, Value>, optionKeys: seq<string>, i: nat)
    requires i < |MarshalParams(data, optionKeys)|
    requires MarshalParams(data, optionKeys)[i].0 != NoAnsi
    ensures exists j :: 0 <= j < |data| && !IsFalsy(data[j].1) &&
              FlagKey(data[j].0, optionKeys) == MarshalParams(data, optionKeys)[i].0 &&
              data[j].1 == MarshalParams(data, optionKeys)[i].1
  {
    var params := MarshalParams(data, optionKeys);
    var kept := ArrayFilter(data);
    var written := Flagged(kept, optionKeys);
    var body := PutAll([], written);
    var k := params[i].0;
    UniqueGet(params, i);
    PutGet(body, NoAnsi, Str(""), k);
    PutAllGet([], written, k);
    var w := GetLastEntry(written, k);
    assert kept[w] in data;
    var m :| 0 <= m < |data| && data[m] == kept[w];
    assert !IsFalsy(data[m].1);
  }

  /** The entry that `GetLast` reads: the last one with key `k`. */
  lemma {:induction false} GetLastEntry<K(!new), V>(ps: Assoc<K, V>, k: K) returns (w: nat)
    requires k in Keys(ps)
    ensures w < |ps| && ps[w].0 == k && GetLast(ps, k) == Some(ps[w].1)
    decreases |ps|
  {
    KeysOfLast(ps);
    if ps[|ps| - 1].0 == k {
      w := |ps| - 1;
    } else {
      w := GetLastEntry(ps[..|ps| - 1], k);
    }
  }

  /** A key that already starts with `--`. */
  predicate IsFlag(key: string) {
    |key| >= 2 && key[0] == '-' && key[1] == '-'
  }

  /** No data key starts with `--`: true of every validated field, since the
      fields are argument and option names. */
  predicate PlainKeys(data: Assoc<string, Value>) {
    forall i :: 0 <= i < |data| ==> !IsFlag(data[i].0)
  }

  /** Flag-prefixing cannot merge two distinct plain keys into one. */
  lemma FlagKeyInjective(a: string, b: string, optionKeys: seq<string>)
    requires !IsFlag(a) && !IsFlag(b)
    requires a != b
    ensures FlagKey(a, optionKeys) != FlagKey(b, optionKeys)
  {
    if a in optionKeys && b in optionKeys {
      assert ("--" + a)[2..] == a && ("--" + b)[2..] == b;
    } else if a in optionKeys {
      assert IsFlag("--" + a);
    } else if b in optionKeys {
      assert IsFlag("--" + b);
    }
  }

  /** For well-behaved data (distinct keys, none already a flag, no option
      called `no-ansi`) the parameters are exactly the truthy entries in
      their original order, option keys prefixed, then `--no-ansi`. */
  lemma MarshalShape(data: Assoc<string, Value>, optionKeys: seq<string>)
    requires Unique(data) && PlainKeys(data)
    requires "no-ansi" !in optionKeys
    ensures MarshalParams(data, optionKeys) ==
              Flagged(ArrayFilter(data), optionKeys) + [(NoAnsi, Str(""))]
  {
    var written := Flagged(ArrayFilter(data), optionKeys);
    FlaggedFresh(data, optionKeys);
    assert [] + written == written;
    PutAllFresh([], written);
    PutAppend(written, NoAnsi, Str(""));
  }

  /** Under the same conditions the flag keys are distinct and none is
      `--no-ansi`. */
  lemma FlaggedFresh(data: Assoc<string, Value>, optionKeys: seq<string>)
    requires Unique(data) && PlainKeys(data)
    requires "no-ansi" !in optionKeys
    ensures Distinct(Keys(Flagged(ArrayFilter(data), optionKeys)))
    ensures NoAnsi !in Keys(Flagged(ArrayFilter(data), optionKeys))
  {
    var kept := ArrayFilter(data);
    assert Unique(kept) by {
      if |kept| > 0 { ArrayFilterGet(data, kept[0].0); }
      else { assert Unique<string, Value>([]); }
    }
    assert PlainKeys(kept) by {
      forall i | 0 <= i < |kept| ensures !IsFlag(kept[i].0) {
        assert kept[i] in data;
      }
    }
    FlaggedDistinct(kept, optionKeys);
    NoAnsiAbsent(kept, optionKeys);
  }

  lemma FlaggedDistinct(kept: Assoc<string, Value>, optionKeys: seq<string>)
    requires Unique(kept) && PlainKeys(kept)
    ensures Distinct(Keys(Flagged(kept, optionKeys)))
  {
    var ws := Keys(Flagged(kept, optionKeys));
    forall i, j | 0 <= i < j < |ws| ensures ws[i] != ws[j] {
      FlaggedApart(kept, optionKeys, i, j);
    }
  }

  lemma FlaggedApart(kept: Assoc<string, Value>, optionKeys: seq<string>, i: nat, j: nat)
    requires Unique(kept) && PlainKeys(kept) && i < j < |kept|
    ensures Keys(Flagged(kept, optionKeys))[i] != Keys(Flagged(kept, optionKeys))[j]
  {
    assert Keys(kept)[i] != Keys(kept)[j];
    FlagKeyInjective(kept[i].0, kept[j].0, optionKeys);
  }

  lemma NoAnsiAbsent(kept: Assoc<string, Value>, optionKeys: seq<string>)
    requires PlainKeys(kept)
    requires "no-ansi" !in optionKeys
    ensures NoAnsi !in Keys(Flagged(kept, optionKeys))
  {
    var written := Flagged(kept, optionKeys);
    forall i | 0 <= i < |written| ensures written[i].0 != NoAnsi {
      FlagKeyNotNoAnsi(kept[i].0, optionKeys);
    }
  }

  /** No plain key is flagged to `--no-ansi` unless it is the option `no-ansi`. */
  lemma FlagKeyNotNoAnsi(key: string, optionKeys: seq<string>)
    requires !IsFlag(key)
    requires "no-ansi" !in optionKeys
    ensures FlagKey(key, optionKeys) != NoAnsi
  {
    if key in optionKeys {
      assert key != "no-ansi";
      assert ("--" + key)[2..] == key;
      assert NoAnsi[2..] == "no-ansi";
    } else {
      assert IsFlag(NoAnsi);
    }
  }
}
