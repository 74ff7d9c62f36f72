/**
 A plain JavaScript object used as a dictionary from string keys to numbers,
 as `const balances = {}` is. Besides the key/value mapping it keeps the order
 in which keys were first assigned, since that is the order
 `Object.entries` reports them in (for keys that are not array indices).
 */
module JsObject {

  import opened JsNumber

  type Key = string

  datatype Dict = Dict(keys: seq<Key>, values: map<Key, Num>)

  /** No key listed twice. */
  ghost predicate Distinct(ks: seq<Key>)
  {
    |ks| == 0 || (ks[|ks| - 1] !in ks[..|ks| - 1] && Distinct(ks[..|ks| - 1]))
  }

  /** `Distinct` means no two positions hold the same key. */
  lemma {:induction false} DistinctAt(ks: seq<Key>, a: int, b: int)
    requires Distinct(ks)
    requires 0 <= a < b < |ks|
    ensures ks[a] != ks[b]
  {
    var init := ks[..|ks| - 1];
    if b < |ks| - 1 {
      DistinctAt(init, a, b);
    } else {
      assert ks[a] == init[a];
    }
  }

  /** The keys a list names. */
  function KeySet(ks: seq<Key>): set<Key>
  {
    if |ks| == 0 then {} else KeySet(ks[..|ks| - 1]) + {ks[|ks| - 1]}
  }

  lemma {:induction false} InKeySet(ks: seq<Key>, k: Key)
    ensures k in KeySet(ks) <==> k in ks
  {
    if |ks| > 0 {
      InKeySet(ks[..|ks| - 1], k);
      assert ks == ks[..|ks| - 1] + [ks[|ks| - 1]];
    }
  }

  /** Each key listed once, and exactly the keys that have a value. */
  ghost predicate Valid(d: Dict)
  {
    && Distinct(d.keys)
    && d.values.Keys == KeySet(d.keys)
  }

  /** `{}` */
  const Empty: Dict := Dict([], map[])

  /** `d[k]` read as an operand of `+` or `-`: a missing key reads as
      `undefined`, which turns the sum into `NaN`. */
  function Get(d: Dict, k: Key): (v: Num)
    ensures Valid(d) && k in d.keys ==> k in d.values && v == d.values[k]
    ensures Valid(d) && k !in d.keys ==> v == NaN
  {
    InKeySet(d.keys, k);
    if k in d.values then d.values[k] else NaN
  }

  /** `d[k] = v`: an existing key keeps its place, a new key goes last. */
  function Set(d: Dict, k: Key, v: Num): (r: Dict)
    ensures Valid(d) ==> Valid(r)
    ensures r.values == d.values[k := v]
    ensures k in d.values ==> r.keys == d.keys
    ensures k !in d.values ==> r.keys == d.keys + [k]
  {
    if k in d.values then Dict(d.keys, d.values[k := v])
    else
      InKeySet(d.keys, k);
      assert (d.keys + [k])[..|d.keys|] == d.keys;
      Dict(d.keys + [k], d.values[k := v])
  }

  /** `d[k] += n`: an existing key keeps its place and gains `n`; a new key
      goes last and holds `NaN`, since it read as `undefined`. */
  function AddTo(d: Dict, k: Key, n: int): (r: Dict)
    ensures Valid(d) ==> Valid(r)
    ensures k in d.values ==> r.keys == d.keys && k in r.values && r.values[k] == Plus(d.values[k], n)
    ensures k !in d.values ==> r.keys == d.keys + [k] && k in r.values && r.values[k] == NaN
  {
    Set(d, k, Plus(Get(d, k), n))
  }

  /** The sum of the values of `ks` in `m`; a key `m` lacks reads as `NaN`. */
  function SumOf(ks: seq<Key>, m: map<Key, Num>): Num
  {
    if |ks| == 0 then Cents(0)
    else Add(SumOf(ks[..|ks| - 1], m), if ks[|ks| - 1] in m then m[ks[|ks| - 1]] else NaN)
  }

  /** The sum of all the values of `d`: `NaN` as soon as one of them is. */
  function Total(d: Dict): Num
  {
    SumOf(d.keys, d.values)
  }

  /** Adding `n` to the value of one key of `ks` adds `n` to their sum;
      changing a key outside `ks` leaves the sum alone. */
  lemma {:induction false} SumOfUpdate(ks: seq<Key>, m: map<Key, Num>, k: Key, n: int)
    requires Distinct(ks)
    requires k in m
    ensures k in ks ==> SumOf(ks, m[k := Plus(m[k], n)]) == Plus(SumOf(ks, m), n)
    ensures k !in ks ==> SumOf(ks, m[k := Plus(m[k], n)]) == SumOf(ks, m)
  {
    if |ks| > 0 {
      var init := ks[..|ks| - 1];
      SumOfUpdate(init, m, k, n);
    }
  }

  /** `d[k] += n` on a key `d` holds raises the total by `n`. */
  lemma TotalAddTo(d: Dict, k: Key, n: int)
    requires Valid(d)
    requires k in d.values
    ensures Valid(AddTo(d, k, n))
    ensures Total(AddTo(d, k, n)) == Plus(Total(d), n)
  {
    InKeySet(d.keys, k);
    SumOfUpdate(d.keys, d.values, k, n);
  }

}
