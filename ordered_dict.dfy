/**
  A Python dict as the exporter uses it: keys are kept in the order of their
  first insertion, `d[k] = v` replaces the value in place when `k` is already
  there and appends a new entry otherwise, and iteration follows that order.
 */
module OrderedDict {
  import opened Wrappers

  /** The entries of a dict, in insertion order. */
  type Dict<K, V> = seq<(K, V)>

  predicate Distinct<K(==)>(s: seq<K>)
  {
    forall i, j :: 0 <= i < j < |s| ==> s[i] != s[j]
  }

  function Keys<K, V>(d: Dict<K, V>): seq<K>
  {
    seq(|d|, i requires 0 <= i < |d| => d[i].0)
  }

  /** The position of the first occurrence of k in ks. */
  function IndexOf<K(==)>(ks: seq<K>, k: K): (r: Option<nat>)
    ensures r.None? <==> k !in ks
    ensures r.Some? ==> r.value < |ks| && ks[r.value] == k
    ensures r.Some? ==> forall j :: 0 <= j < r.value ==> ks[j] != k
  {
    if ks == [] then None
    else if ks[0] == k then Some(0)
    else match IndexOf(ks[1..], k)
      case None => None
      case Some(i) => Some(i + 1)
  }

  lemma {:induction false} IndexOfAppend<K>(ks: seq<K>, x: K, k: K)
    requires k != x || k in ks
    ensures IndexOf(ks + [x], k) == IndexOf(ks, k)
    decreases |ks|
  {
    if ks != [] && ks[0] != k {
      assert (ks + [x])[1..] == ks[1..] + [x];
      IndexOfAppend(ks[1..], x, k);
    }
  }

  /** Python's d.get(k): the value stored under k, if any. */
  function Get<K(==), V>(d: Dict<K, V>, k: K): (r: Option<V>)
    ensures r.None? <==> k !in Keys(d)
    ensures r.Some? ==> (k, r.value) in d
  {
    match IndexOf(Keys(d), k)
    case None => None
    case Some(i) => Some(d[i].1)
  }

  /** In a dict with distinct keys, the value found under an entry's key is that entry's value. */
  lemma GetAt<K, V>(d: Dict<K, V>, m: nat)
    requires Distinct(Keys(d)) && m < |d|
    ensures Get(d, d[m].0) == Some(d[m].1)
  {
    assert Keys(d)[m] == d[m].0;
  }

  /** Python's `d[k] = v`. */
  function Put<K(==,!new), V>(d: Dict<K, V>, k: K, v: V): (r: Dict<K, V>)
    ensures Keys(r) == if k in Keys(d) then Keys(d) else Keys(d) + [k]
    ensures Get(r, k) == Some(v)
    ensures forall k' :: k' != k ==> Get(r, k') == Get(d, k')
    ensures Distinct(Keys(d)) ==> Distinct(Keys(r))
  {
    match IndexOf(Keys(d), k)
    case Some(i) =>
      var r := d[i := (k, v)];
      assert Keys(r) == Keys(d);
      r
    case None =>
      var r := d + [(k, v)];
      assert Keys(r) == Keys(d) + [k];
      forall k' | k' != k ensures Get(r, k') == Get(d, k') {
        if k' in Keys(d) { IndexOfAppend(Keys(d), k, k'); }
      }
      r
  }

  /** The distinct elements of s, in the order of their first occurrence. */
  function Dedup<K(==,!new)>(s: seq<K>): (r: seq<K>)
    ensures Distinct(r)
    ensures forall x :: x in r <==> x in s
  {
    if s == [] then []
    else
      var p := Dedup(s[..|s| - 1]);
      assert s == s[..|s| - 1] + [s[|s| - 1]];
      if s[|s| - 1] in p then p else p + [s[|s| - 1]]
  }

  lemma IndexOfPrefix<K>(s: seq<K>, n: nat, x: K)
    requires n <= |s| && x in s[..n]
    ensures IndexOf(s, x) == IndexOf(s[..n], x)
  {
    assert forall m :: 0 <= m < n ==> s[..n][m] == s[m];
  }

  /**
    Dedup keeps the order of first occurrence: an element listed earlier in the
    result first occurs earlier in s.
   */
  lemma {:induction false} DedupOrder<K(!new)>(s: seq<K>, i: nat, j: nat)
    requires i < j < |Dedup(s)|
    ensures IndexOf(s, Dedup(s)[i]).value < IndexOf(s, Dedup(s)[j]).value
    decreases |s|
  {
    var n := |s| - 1;
    var p := Dedup(s[..n]);
    var r := Dedup(s);
    assert r[i] in s[..n] by {
      assert i < |p|;
      assert r[i] == p[i];
    }
    IndexOfPrefix(s, n, r[i]);
    if j < |p| {
      DedupOrder(s[..n], i, j);
      IndexOfPrefix(s, n, r[j]);
    } else {
      assert r[j] == s[n] && s[n] !in s[..n];
    }
  }
}
