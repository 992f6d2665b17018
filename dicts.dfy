/** Python dict semantics. An insertion-ordered dict (the form a YAML mapping
    is written in) is a sequence of entries; assigning to an existing key
    keeps the key where it first appeared. A lookup table built with
    `{k: v for k, v in zip(keys, values)}` is a Dafny map in which a later
    pair overrides an earlier one with the same key. */
module Dicts {
  import opened Values

  type Entries<K, V> = seq<(K, V)>

  function KeysOf<K, V>(m: Entries<K, V>): (ks: seq<K>)
    ensures |ks| == |m| && forall i :: 0 <= i < |m| ==> ks[i] == m[i].0
  {
    seq(|m|, i requires 0 <= i < |m| => m[i].0)
  }

  /** No key appears twice, as in every Python dict. */
  predicate DistinctKeys<K(==), V>(m: Entries<K, V>) {
    forall i, j :: 0 <= i < j < |m| ==> m[i].0 != m[j].0
  }

  /** The position of key `k`, if any. */
  function Find<K(==), V>(m: Entries<K, V>, k: K): (r: Option<nat>)
    ensures r.Some? ==> r.value < |m| && m[r.value].0 == k && forall j :: 0 <= j < r.value ==> m[j].0 != k
    ensures r.None? <==> forall j :: 0 <= j < |m| ==> m[j].0 != k
    decreases |m|
  {
    if m == [] then None
    else if m[|m| - 1].0 == k && Find(m[..|m| - 1], k).None? then Some(|m| - 1)
    else Find(m[..|m| - 1], k)
  }

  /** `m.get(k)` */
  function Get<K(==), V>(m: Entries<K, V>, k: K): Option<V> {
    match Find(m, k)
    case Some(i) => Some(m[i].1)
    case None => None
  }

  /** `m[k] = v` */
  function Put<K(==), V>(m: Entries<K, V>, k: K, v: V): Entries<K, V> {
    match Find(m, k)
    case Some(i) => m[i := (k, v)]
    case None => m + [(k, v)]
  }

  /** An existing key keeps its place and a new one goes last. */
  lemma PutKeys<K(!new), V>(m: Entries<K, V>, k: K, v: V)
    ensures DistinctKeys(m) ==> DistinctKeys(Put(m, k, v))
    ensures Find(m, k).Some? ==> KeysOf(Put(m, k, v)) == KeysOf(m)
    ensures Find(m, k).None? ==> KeysOf(Put(m, k, v)) == KeysOf(m) + [k]
  {
  }

  /** Only `k`'s value changes. */
  lemma PutGet<K(!new), V>(m: Entries<K, V>, k: K, v: V)
    ensures Get(Put(m, k, v), k) == Some(v)
    ensures forall k' :: k' != k ==> Get(Put(m, k, v), k') == Get(m, k')
  {
    match Find(m, k)
    case Some(i) =>
      var r := m[i := (k, v)];
      assert forall j :: 0 <= j < |r| ==> r[j].0 == m[j].0;
      FindSameKeys(m, r);
    case None =>
      FindExtended(m, k, v);
  }

  lemma {:induction false} FindSameKeys<K, V>(m: Entries<K, V>, r: Entries<K, V>)
    requires |m| == |r| && forall j :: 0 <= j < |r| ==> r[j].0 == m[j].0
    ensures forall k :: Find(r, k) == Find(m, k)
    decreases |m|
  {
    if m != [] {
      FindSameKeys(m[..|m| - 1], r[..|r| - 1]);
    }
  }

  lemma FindExtended<K, V>(m: Entries<K, V>, k: K, v: V)
    requires Find(m, k).None?
    ensures Find(m + [(k, v)], k) == Some(|m|)
    ensures forall k' :: k' != k ==> Find(m + [(k, v)], k') == Find(m, k')
  {
    assert (m + [(k, v)])[..|m|] == m;
  }

  /** The dict built by assigning the pairs in order: `for k, v in ps: d[k] = v`. */
  function FromPairs<K(==,!new), V>(ps: seq<(K, V)>): (r: Entries<K, V>)
    ensures DistinctKeys(r)
    decreases |ps|
  {
    if ps == [] then []
    else
      var n := |ps| - 1;
      PutKeys(FromPairs(ps[..n]), ps[n].0, ps[n].1);
      Put(FromPairs(ps[..n]), ps[n].0, ps[n].1)
  }

  /** Assigning the pairs one more step. */
  lemma FromPairsSnoc<K(!new), V>(ps: seq<(K, V)>, k: K, v: V)
    ensures FromPairs(ps + [(k, v)]) == Put(FromPairs(ps), k, v)
  {
    assert (ps + [(k, v)])[..|ps|] == ps;
  }

  /** Pairs with distinct keys make a dict of exactly those entries, in order. */
  lemma {:induction false} FromPairsDistinct<K(!new), V>(ps: seq<(K, V)>)
    requires DistinctKeys(ps)
    ensures FromPairs(ps) == ps
    decreases |ps|
  {
    if ps != [] {
      var n := |ps| - 1;
      assert DistinctKeys(ps[..n]);
      FromPairsDistinct(ps[..n]);
      assert Find(ps[..n], ps[n].0).None?;
      assert ps == ps[..n] + [ps[n]];
    }
  }

  /** In a dict with distinct keys each key is found where it stands. */
  lemma FindDistinct<K, V>(m: Entries<K, V>, i: nat)
    requires DistinctKeys(m) && i < |m|
    ensures Find(m, m[i].0) == Some(i)
  {
  }

  /** The value of the last pair with key `k`. */
  function LastValue<K(==), V>(ps: seq<(K, V)>, k: K): (r: Option<V>)
    ensures r.None? <==> forall i :: 0 <= i < |ps| ==> ps[i].0 != k
    ensures r.Some? ==> exists i :: 0 <= i < |ps| && ps[i] == (k, r.value) && forall j :: i < j < |ps| ==> ps[j].0 != k
    decreases |ps|
  {
    if ps == [] then None
    else if ps[|ps| - 1].0 == k then Some(ps[|ps| - 1].1)
    else LastValue(ps[..|ps| - 1], k)
  }

  /** When no later pair repeats the key, the pair's value is the last value. */
  lemma {:induction false} LastValueAt<K, V>(ps: seq<(K, V)>, i: nat)
    requires i < |ps| && forall j :: i < j < |ps| ==> ps[j].0 != ps[i].0
    ensures LastValue(ps, ps[i].0) == Some(ps[i].1)
    decreases |ps|
  {
    if i < |ps| - 1 {
      LastValueAt(ps[..|ps| - 1], i);
    }
  }

  /** Assigning pairs in order leaves every key with its last value. */
  lemma {:induction false} FromPairsGet<K(!new), V>(ps: seq<(K, V)>, k: K)
    ensures Get(FromPairs(ps), k) == LastValue(ps, k)
    decreases |ps|
  {
    if ps != [] {
      var n := |ps| - 1;
      FromPairsGet(ps[..n], k);
      PutGet(FromPairs(ps[..n]), ps[n].0, ps[n].1);
    }
  }

  /** The dict's keys are exactly the pairs' keys. */
  lemma FromPairsKeys<K(!new), V>(ps: seq<(K, V)>)
    ensures forall k :: Find(FromPairs(ps), k).Some? <==> exists i :: 0 <= i < |ps| && ps[i].0 == k
  {
    forall k ensures Find(FromPairs(ps), k).Some? <==> LastValue(ps, k).Some? {
      FromPairsGet(ps, k);
    }
  }

  /** `{k: v for k, v in ps}`: a later pair overrides an earlier one. */
  function LastWins<K(==,!new), V>(ps: seq<(K, V)>): (r: map<K, V>)
    ensures forall k :: k in r <==> LastValue(ps, k).Some?
    ensures forall k :: k in r ==> LastValue(ps, k) == Some(r[k])
    decreases |ps|
  {
    if ps == [] then map[] else LastWins(ps[..|ps| - 1])[ps[|ps| - 1].0 := ps[|ps| - 1].1]
  }

  /** With no two pairs sharing a key, every pair survives as it is. */
  lemma LastWinsUnique<K(!new), V>(ps: seq<(K, V)>, i: nat)
    requires i < |ps| && forall a, b :: 0 <= a < b < |ps| ==> ps[a].0 != ps[b].0
    ensures ps[i].0 in LastWins(ps) && LastWins(ps)[ps[i].0] == ps[i].1
  {
    LastValueAt(ps, i);
  }

  /** With distinct values, a lookup table built from pairs maps distinct
      keys to distinct values. */
  lemma LastWinsInjective<K(!new), V>(ps: seq<(K, V)>, a: K, b: K)
    requires forall x, y :: 0 <= x < y < |ps| ==> ps[x].1 != ps[y].1
    requires a in LastWins(ps) && b in LastWins(ps) && a != b
    ensures LastWins(ps)[a] != LastWins(ps)[b]
  {
    var x :| 0 <= x < |ps| && ps[x] == (a, LastWins(ps)[a]) && forall j :: x < j < |ps| ==> ps[j].0 != a;
    var y :| 0 <= y < |ps| && ps[y] == (b, LastWins(ps)[b]) && forall j :: y < j < |ps| ==> ps[j].0 != b;
  }

  /** A lookup table and the one built from the swapped pairs: the value a
      key maps to comes from one of the pairs, and with distinct values it
      maps back to the key. */
  lemma LastWinsBack<K(!new), V(!new)>(ps: seq<(K, V)>, qs: seq<(V, K)>, k: K)
    requires |qs| == |ps| && forall i :: 0 <= i < |ps| ==> qs[i] == (ps[i].1, ps[i].0)
    requires k in LastWins(ps)
    ensures exists i :: 0 <= i < |ps| && ps[i] == (k, LastWins(ps)[k])
    ensures (forall a, b :: 0 <= a < b < |ps| ==> ps[a].1 != ps[b].1) ==>
              LastWins(ps)[k] in LastWins(qs) && LastWins(qs)[LastWins(ps)[k]] == k
  {
    var i :| 0 <= i < |ps| && ps[i] == (k, LastWins(ps)[k]) && forall j :: i < j < |ps| ==> ps[j].0 != k;
    if forall a, b :: 0 <= a < b < |ps| ==> ps[a].1 != ps[b].1 {
      LastWinsUnique(qs, i);
    }
  }
}
