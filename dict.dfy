/**
 * A plain JavaScript object with string keys, as the widget uses them for
 * EXIF data, field mappings and the set of fields to update: an ordered list
 * of entries in insertion order, which is the order `Object.entries` and
 * `Object.keys` report. Assigning to a key that is already there replaces its
 * value in place; assigning to a new key appends an entry.
 */
module Dict {
  import opened Wrappers

  type Dict<V> = seq<(string, V)>

  /** `Object.keys(d)`. */
  function Keys<V>(d: Dict<V>): (ks: seq<string>)
    ensures |ks| == |d|
    ensures forall i :: 0 <= i < |d| ==> ks[i] == d[i].0
  {
    if d == [] then [] else [d[0].0] + Keys(d[1..])
  }

  /** No key occurs twice. */
  predicate Distinct<V>(d: Dict<V>)
  {
    forall i, j :: 0 <= i < j < |d| ==> d[i].0 != d[j].0
  }

  /** `d[k]`, with `None` for `undefined`. */
  function Get<V>(d: Dict<V>, k: string): (r: Option<V>)
    ensures r.Some? <==> k in Keys(d)
  {
    if d == [] then None
    else if d[0].0 == k then Some(d[0].1)
    else Get(d[1..], k)
  }

  /**
   * The assignment `d[k] = v`: an existing key keeps its position and a new
   * key comes last. What the keys then hold is stated by `PutGet`.
   */
  function Put<V>(d: Dict<V>, k: string, v: V): (r: Dict<V>)
    ensures Keys(r) == if k in Keys(d) then Keys(d) else Keys(d) + [k]
  {
    if d == [] then [(k, v)]
    else if d[0].0 == k then
      var r := [(k, v)] + d[1..];
      assert Keys(r) == Keys(d) by { assert Keys(r)[1..] == Keys(d[1..]) == Keys(d)[1..]; }
      r
    else
      var t := Put(d[1..], k, v);
      assert Keys([d[0]] + t) == [d[0].0] + Keys(t) by { assert ([d[0]] + t)[1..] == t; }
      [d[0]] + t
  }

  /** After `d[k] = v`, `k` holds `v` and every other key holds what it held. */
  lemma {:induction false} PutGet<V>(d: Dict<V>, k: string, v: V)
    ensures Get(Put(d, k, v), k) == Some(v)
    ensures forall k' :: k' != k ==> Get(Put(d, k, v), k') == Get(d, k')
  {
    if d != [] && d[0].0 != k {
      PutGet(d[1..], k, v);
      assert Put(d, k, v)[1..] == Put(d[1..], k, v);
    }
  }

  /** Assignment never duplicates a key. */
  lemma PutDistinct<V>(d: Dict<V>, k: string, v: V)
    requires Distinct(d)
    ensures Distinct(Put(d, k, v))
  {
    var r := Put(d, k, v);
    forall i, j | 0 <= i < j < |r| ensures r[i].0 != r[j].0 {
      assert r[i].0 == Keys(r)[i] && r[j].0 == Keys(r)[j];
      if j == |d| { assert Keys(r)[i] == d[i].0; }
    }
  }
}
