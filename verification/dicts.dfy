/** Python dicts as insertion-ordered association lists: a key keeps the
    position of its first insertion and the value of its last. */
module Dicts {
  import opened Wrappers
  import opened Text
  import opened Sorting

  type Dict<K, V> = seq<(K, V)>

  function Keys<K, V>(d: Dict<K, V>): (r: seq<K>)
    ensures |r| == |d|
    ensures forall i :: 0 <= i < |d| ==> r[i] == d[i].0
  {
    seq(|d|, i requires 0 <= i < |d| => d[i].0)
  }

  predicate WellFormed<K(==), V>(d: Dict<K, V>) { NoDuplicates(Keys(d)) }

  /** `d.get(k)` */
  function Get<K(==), V>(d: Dict<K, V>, k: K): (r: Option<V>)
    ensures r.None? <==> k !in Keys(d)
    ensures r.Some? ==> exists i :: 0 <= i < |d| && d[i] == (k, r.value)
    decreases |d|
  {
    if |d| == 0 then None
    else if d[0].0 == k then Some(d[0].1)
    else
      assert Keys(d) == [d[0].0] + Keys(d[1..]);
      var r := Get(d[1..], k);
      assert r.Some? ==> exists i :: 0 <= i < |d[1..]| && d[1..][i] == (k, r.value);
      r
  }

  /** `d[k] = v` */
  function Put<K(==), V>(d: Dict<K, V>, k: K, v: V): (r: Dict<K, V>)
    ensures Keys(r) == if k in Keys(d) then Keys(d) else Keys(d) + [k]
    ensures forall i :: 0 <= i < |r| ==> r[i] in d || r[i] == (k, v)
    decreases |d|
  {
    if |d| == 0 then [(k, v)]
    else if d[0].0 == k then [(k, v)] + d[1..]
    else
      assert Keys(d) == [d[0].0] + Keys(d[1..]);
      var r := [d[0]] + Put(d[1..], k, v);
      assert Keys(r) == [d[0].0] + Keys(Put(d[1..], k, v));
      r
  }

  /** After `d[k] = v`, `k` maps to `v` and every other key is unchanged. */
  lemma {:induction false} PutGet<K, V>(d: Dict<K, V>, k: K, v: V, k2: K)
    ensures Get(Put(d, k, v), k2) == if k2 == k then Some(v) else Get(d, k2)
    decreases |d|
  {
    if |d| > 0 && d[0].0 != k {
      PutGet(d[1..], k, v, k2);
      assert Put(d, k, v)[1..] == Put(d[1..], k, v);
    } else if |d| > 0 {
      assert Put(d, k, v)[1..] == d[1..];
      if k2 != k {
        assert Get(d, k2) == Get(d[1..], k2);
      }
    }
  }

  lemma PutWellFormed<K, V>(d: Dict<K, V>, k: K, v: V)
    requires WellFormed(d)
    ensures WellFormed(Put(d, k, v))
  {
  }

  /** The value of the last pair with key `k`. */
  function LastValue<K(==), V>(ps: seq<(K, V)>, k: K): Option<V>
    decreases |ps|
  {
    if |ps| == 0 then None
    else if ps[|ps| - 1].0 == k then Some(ps[|ps| - 1].1)
    else LastValue(ps[..|ps| - 1], k)
  }

  /** `{k: v for (k, v) in ps}` */
  function FromPairs<K(==), V>(ps: seq<(K, V)>): (r: Dict<K, V>)
    ensures WellFormed(r)
    ensures Keys(r) == Distinct(Keys(ps))
    ensures forall i :: 0 <= i < |r| ==> r[i] in ps
    decreases |ps|
  {
    if |ps| == 0 then []
    else
      var init := ps[..|ps| - 1];
      var d := FromPairs(init);
      ButLast(ps);
      FromPairsStep(init, ps[|ps| - 1], d);
      Put(d, ps[|ps| - 1].0, ps[|ps| - 1].1)
  }

  /** Adding one pair to the dict built from the pairs before it. */
  lemma FromPairsStep<K, V>(init: seq<(K, V)>, p: (K, V), d: Dict<K, V>)
    requires WellFormed(d) && Keys(d) == Distinct(Keys(init))
    requires forall i :: 0 <= i < |d| ==> d[i] in init
    ensures var r := Put(d, p.0, p.1);
            WellFormed(r) && Keys(r) == Distinct(Keys(init + [p]))
            && forall i :: 0 <= i < |r| ==> r[i] in init + [p]
  {
    var ps := init + [p];
    PutWellFormed(d, p.0, p.1);
    assert ps[..|ps| - 1] == init;
    KeysSnoc(ps);
    DistinctSnoc(Keys(ps));
    var r := Put(d, p.0, p.1);
    forall i | 0 <= i < |r| ensures r[i] in ps {
      if r[i] != p {
        assert r[i] in init;
      }
    }
  }

  lemma KeysSnoc<K, V>(ps: seq<(K, V)>)
    requires |ps| > 0
    ensures Keys(ps)[..|ps| - 1] == Keys(ps[..|ps| - 1])
    ensures Keys(ps)[|ps| - 1] == ps[|ps| - 1].0
  {
  }

  /** Each key of a dict built from pairs holds the value of its last pair. */
  lemma {:induction false} FromPairsGet<K, V>(ps: seq<(K, V)>, k: K)
    ensures Get(FromPairs(ps), k) == LastValue(ps, k)
    decreases |ps|
  {
    if |ps| > 0 {
      var init := ps[..|ps| - 1];
      FromPairsGet(init, k);
      PutGet(FromPairs(init), ps[|ps| - 1].0, ps[|ps| - 1].1, k);
    }
  }
}
