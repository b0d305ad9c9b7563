/** Python dictionaries as the modelled code uses them: a mapping whose
    iteration order is the order in which keys were first inserted.
 */
module OrderedDicts {

  import opened Results

  /** The items of a dict, in iteration order. */
  type Dict<K, V> = seq<(K, V)>

  function Keys<K, V>(d: Dict<K, V>): (ks: seq<K>)
    ensures |ks| == |d|
    ensures forall i :: 0 <= i < |d| ==> ks[i] == d[i].0
  {
    if |d| == 0 then [] else [d[0].0] + Keys(d[1..])
  }

  /** Every well-formed dict has pairwise distinct keys. */
  predicate DistinctKeys<K(==), V>(d: Dict<K, V>)
  {
    forall i, j :: 0 <= i < j < |d| ==> d[i].0 != d[j].0
  }

  /** `d.get(k)` */
  function Get<K(==), V>(d: Dict<K, V>, k: K): (r: Option<V>)
    ensures r.Some? <==> k in Keys(d)
  {
    if |d| == 0 then None
    else if d[0].0 == k then Some(d[0].1)
    else Get(d[1..], k)
  }

  /** Looking up in a dict with one more item in front. */
  lemma GetCons<K, V>(k: K, v: V, d: Dict<K, V>, k': K)
    ensures Get([(k, v)] + d, k') == if k == k' then Some(v) else Get(d, k')
  {
    assert ([(k, v)] + d)[1..] == d;
  }

  /** The first key of a dict with distinct keys does not recur. */
  lemma FirstKeyUnique<K, V>(d: Dict<K, V>)
    requires |d| > 0 && DistinctKeys(d)
    ensures DistinctKeys(d[1..]) && d[0].0 !in Keys(d[1..])
  {
    forall j | 0 <= j < |d| - 1
      ensures Keys(d[1..])[j] != d[0].0
    {
      assert d[1..][j] == d[j + 1];
    }
  }

  /** In a dict with distinct keys, every item is what its key looks up. */
  lemma {:induction false} GetAt<K, V>(d: Dict<K, V>, i: nat)
    requires DistinctKeys(d) && i < |d|
    ensures Get(d, d[i].0) == Some(d[i].1)
  {
    if i > 0 {
      FirstKeyUnique(d);
      assert d[1..][i - 1] == d[i];
      GetAt(d[1..], i - 1);
    }
  }

  /** `d[k] = v`: an existing key keeps its place, a new key goes last. */
  function Put<K(==), V>(d: Dict<K, V>, k: K, v: V): Dict<K, V>
  {
    if |d| == 0 then [(k, v)]
    else if d[0].0 == k then [(k, v)] + d[1..]
    else [d[0]] + Put(d[1..], k, v)
  }

  lemma {:induction false} PutGet<K, V>(d: Dict<K, V>, k: K, v: V, k': K)
    ensures Get(Put(d, k, v), k') == if k' == k then Some(v) else Get(d, k')
  {
    if |d| > 0 && d[0].0 != k {
      PutGet(d[1..], k, v, k');
      assert ([d[0]] + Put(d[1..], k, v))[1..] == Put(d[1..], k, v);
    } else if |d| > 0 {
      assert ([(k, v)] + d[1..])[1..] == d[1..];
    }
  }

  lemma {:induction false} PutKeys<K, V>(d: Dict<K, V>, k: K, v: V)
    ensures Keys(Put(d, k, v)) == if k in Keys(d) then Keys(d) else Keys(d) + [k]
  {
    if |d| > 0 && d[0].0 != k {
      PutKeys(d[1..], k, v);
      assert ([d[0]] + Put(d[1..], k, v))[1..] == Put(d[1..], k, v);
    } else if |d| > 0 {
      assert ([(k, v)] + d[1..])[1..] == d[1..];
    }
  }

  lemma {:induction false} PutDistinct<K, V>(d: Dict<K, V>, k: K, v: V)
    requires DistinctKeys(d)
    ensures DistinctKeys(Put(d, k, v))
  {
    PutKeys(d, k, v);
    var r := Put(d, k, v);
    forall i, j | 0 <= i < j < |r|
      ensures r[i].0 != r[j].0
    {
      assert Keys(r)[i] == r[i].0 && Keys(r)[j] == r[j].0;
      if k !in Keys(d) {
        assert j < |d| ==> Keys(d)[i] == d[i].0 && Keys(d)[j] == d[j].0;
      } else {
        assert Keys(d)[i] == d[i].0 && Keys(d)[j] == d[j].0;
      }
    }
  }

  /** The value of the last pair in `ps` whose key is `k`: what
      `{k: v for k, v in ps}` keeps for `k`. */
  function LastValue<K(==), V>(ps: seq<(K, V)>, k: K): Option<V>
  {
    if |ps| == 0 then None
    else if ps[|ps| - 1].0 == k then Some(ps[|ps| - 1].1)
    else LastValue(ps[..|ps| - 1], k)
  }

  /** A key listed in the pairs has a last value. */
  lemma {:induction false} LastValueSome<K, V>(ps: seq<(K, V)>, k: K, v: V)
    requires (k, v) in ps
    ensures LastValue(ps, k).Some?
  {
    var n := |ps| - 1;
    if ps[n].0 != k {
      assert (k, v) in ps[..n] by {
        var i :| 0 <= i < |ps| && ps[i] == (k, v);
        assert i < n && ps[..n][i] == ps[i];
      }
      LastValueSome(ps[..n], k, v);
    }
  }

  /** No pair has the key, so nothing is its last value. */
  lemma {:induction false} LastValueAbsent<K, V>(ps: seq<(K, V)>, k: K)
    requires forall i :: 0 <= i < |ps| ==> ps[i].0 != k
    ensures LastValue(ps, k).None?
  {
    if |ps| > 0 {
      var n := |ps| - 1;
      assert forall i :: 0 <= i < n ==> ps[..n][i] == ps[i];
      LastValueAbsent(ps[..n], k);
    }
  }

  /** With distinct keys, the last value of a key is its only value. */
  lemma {:induction false} LastValueAt<K, V>(ps: seq<(K, V)>, i: nat)
    requires DistinctKeys(ps) && i < |ps|
    ensures LastValue(ps, ps[i].0) == Some(ps[i].1)
  {
    var n := |ps| - 1;
    if i < n {
      assert DistinctKeys(ps[..n]) by {
        forall a, b | 0 <= a < b < n ensures ps[..n][a].0 != ps[..n][b].0 {
          assert ps[..n][a] == ps[a] && ps[..n][b] == ps[b];
        }
      }
      assert ps[..n][i] == ps[i];
      LastValueAt(ps[..n], i);
    }
  }

  /** A dict comprehension `{k: v for (k, v) in ps}`. */
  function FromPairs<K(==,!new), V>(ps: seq<(K, V)>): (d: Dict<K, V>)
    ensures DistinctKeys(d)
    ensures forall k :: Get(d, k) == LastValue(ps, k)
  {
    if |ps| == 0 then []
    else
      var prefix := FromPairs(ps[..|ps| - 1]);
      var (k, v) := ps[|ps| - 1];
      PutDistinct(prefix, k, v);
      forall k' ensures Get(Put(prefix, k, v), k') == LastValue(ps, k') {
        PutGet(prefix, k, v, k');
      }
      Put(prefix, k, v)
  }

  /** A dict comprehension is empty exactly when it ranges over no pair. */
  lemma FromPairsEmpty<K(!new), V>(ps: seq<(K, V)>)
    ensures |FromPairs(ps)| == 0 <==> |ps| == 0
  {
    if |ps| > 0 {
      LastValueSome(ps, ps[0].0, ps[0].1);
      assert Get(FromPairs(ps), ps[0].0).Some?;
    }
  }

  /** `{k: f(v) for k, v in d.items() if len(f(v)) > 0}`: the loop that
      rewrites every value and skips the keys left empty. */
  function MapNonEmpty<K, V>(d: Dict<K, seq<V>>, f: seq<V> -> seq<V>): (r: Dict<K, seq<V>>)
    ensures |r| <= |d|
    ensures forall i :: 0 <= i < |r| ==> |r[i].1| > 0
  {
    if |d| == 0 then []
    else
      var v := f(d[0].1);
      (if |v| == 0 then [] else [(d[0].0, v)]) + MapNonEmpty(d[1..], f)
  }

  lemma {:induction false} MapNonEmptyGet<K, V>(d: Dict<K, seq<V>>, f: seq<V> -> seq<V>, k: K)
    requires DistinctKeys(d)
    ensures Get(d, k).None? ==> Get(MapNonEmpty(d, f), k).None?
    ensures Get(d, k).Some? && |f(Get(d, k).value)| == 0 ==> Get(MapNonEmpty(d, f), k).None?
    ensures Get(d, k).Some? && |f(Get(d, k).value)| > 0 ==> Get(MapNonEmpty(d, f), k) == Some(f(Get(d, k).value))
  {
    if |d| > 0 {
      var rest := d[1..];
      var tail := MapNonEmpty(rest, f);
      var v := f(d[0].1);
      FirstKeyUnique(d);
      MapNonEmptyGet(rest, f, k);
      if |v| == 0 {
        assert MapNonEmpty(d, f) == tail;
      } else {
        GetCons(d[0].0, v, tail, k);
      }
      if d[0].0 == k {
        assert Get(rest, k).None?;
      }
    }
  }
}
