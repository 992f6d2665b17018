/** Sequence facts the codec's round trips rest on: mapping, selecting the
    pairs with a given key, and regrouping pairs key by key. */
module Seqs {

  /** `[f(x) for x in xs]` */
  function Map<A, B>(xs: seq<A>, f: A -> B): (r: seq<B>)
    ensures |r| == |xs| && forall i :: 0 <= i < |xs| ==> r[i] == f(xs[i])
  {
    seq(|xs|, i requires 0 <= i < |xs| => f(xs[i]))
  }

  lemma MapAppend<A, B>(xs: seq<A>, ys: seq<A>, f: A -> B)
    ensures Map(xs + ys, f) == Map(xs, f) + Map(ys, f)
  {
  }

  /** Taking out the k-th element takes one copy of it out of the multiset. */
  lemma RemoveAt<A>(ys: seq<A>, k: nat)
    requires k < |ys|
    ensures multiset(ys) == multiset(ys[..k] + ys[k + 1..]) + multiset{ys[k]}
  {
    assert ys == ys[..k] + [ys[k]] + ys[k + 1..];
  }

  lemma Cancel<A>(p: multiset<A>, q: multiset<A>, x: A)
    requires p + multiset{x} == q + multiset{x}
    ensures p == q
  {
    forall y ensures p[y] == q[y] {
      assert (p + multiset{x})[y] == (q + multiset{x})[y];
    }
  }

  /** Mapping a slice is slicing the mapped sequence. */
  lemma MapSlice<A, B>(xs: seq<A>, f: A -> B, i: nat, j: nat)
    requires i <= j <= |xs|
    ensures Map(xs[i..j], f) == Map(xs, f)[i..j]
  {
  }

  /** Taking out the k-th element before mapping takes its image out of the multiset. */
  lemma MapRemoveAt<A, B>(ys: seq<A>, k: nat, f: A -> B)
    requires k < |ys|
    ensures multiset(Map(ys, f)) == multiset(Map(ys[..k] + ys[k + 1..], f)) + multiset{f(ys[k])}
  {
    var front, back := ys[..k], ys[k + 1..];
    assert ys == front + [ys[k]] + back;
    MapAppend(front + [ys[k]], back, f);
    MapAppend(front, [ys[k]], f);
    MapAppend(front, back, f);
    assert Map([ys[k]], f) == [f(ys[k])];
  }

  lemma MapFirst<A, B>(xs: seq<A>, f: A -> B)
    requires xs != []
    ensures multiset(Map(xs, f)) == multiset(Map(xs[1..], f)) + multiset{f(xs[0])}
  {
    assert xs == [xs[0]] + xs[1..];
    MapAppend([xs[0]], xs[1..], f);
    assert Map([xs[0]], f) == [f(xs[0])];
  }

  /** The first element of `xs` sits somewhere in `ys`, and the rest match. */
  lemma PickOut<A>(xs: seq<A>, ys: seq<A>) returns (k: nat)
    requires xs != [] && multiset(xs) == multiset(ys)
    ensures k < |ys| && ys[k] == xs[0] && multiset(xs[1..]) == multiset(ys[..k] + ys[k + 1..])
  {
    assert xs[0] in multiset(ys) by { assert xs[0] in multiset(xs); }
    k :| 0 <= k < |ys| && ys[k] == xs[0];
    RemoveAt(ys, k);
    assert xs == [xs[0]] + xs[1..];
    Cancel(multiset(xs[1..]), multiset(ys[..k] + ys[k + 1..]), xs[0]);
  }

  /** Mapping two orderings of the same elements gives two orderings of the same images. */
  lemma {:induction false} MapMultiset<A, B>(xs: seq<A>, ys: seq<A>, f: A -> B)
    requires multiset(xs) == multiset(ys)
    ensures multiset(Map(xs, f)) == multiset(Map(ys, f))
    decreases |xs|
  {
    if xs == [] {
      assert |ys| == |multiset(ys)| == 0;
    } else {
      var k := PickOut(xs, ys);
      MapMultiset(xs[1..], ys[..k] + ys[k + 1..], f);
      MapRemoveAt(ys, k, f);
      MapFirst(xs, f);
    }
  }

  /** The pairs with key `k`, in order. */
  function Select<K(==), V>(ps: seq<(K, V)>, k: K): (r: seq<(K, V)>)
    ensures forall i :: 0 <= i < |r| ==> r[i].0 == k
    decreases |ps|
  {
    if ps == [] then []
    else Select(ps[..|ps| - 1], k) + (if ps[|ps| - 1].0 == k then [ps[|ps| - 1]] else [])
  }

  /** The pairs whose key is one of `ks`, in order. */
  function SelectIn<K(==), V>(ps: seq<(K, V)>, ks: seq<K>): seq<(K, V)>
    decreases |ps|
  {
    if ps == [] then []
    else SelectIn(ps[..|ps| - 1], ks) + (if ps[|ps| - 1].0 in ks then [ps[|ps| - 1]] else [])
  }

  lemma {:induction false} SelectInAll<K, V>(ps: seq<(K, V)>, ks: seq<K>)
    requires forall i :: 0 <= i < |ps| ==> ps[i].0 in ks
    ensures SelectIn(ps, ks) == ps
    decreases |ps|
  {
    if ps != [] {
      SelectInAll(ps[..|ps| - 1], ks);
    }
  }

  /** Selecting one more key adds the pairs with that key. */
  lemma {:induction false} SelectSplit<K, V>(ps: seq<(K, V)>, ks: seq<K>, k: K)
    requires k !in ks
    ensures multiset(SelectIn(ps, ks + [k])) == multiset(SelectIn(ps, ks)) + multiset(Select(ps, k))
    decreases |ps|
  {
    if ps != [] {
      SelectSplit(ps[..|ps| - 1], ks, k);
    }
  }

  /** The pairs regrouped key by key: those with `ks[0]` first, and so on. */
  function GroupedBy<K(==), V>(ks: seq<K>, ps: seq<(K, V)>): seq<(K, V)>
    decreases |ks|
  {
    if ks == [] then [] else GroupedBy(ks[..|ks| - 1], ps) + Select(ps, ks[|ks| - 1])
  }

  lemma {:induction false} SelectNone<K, V>(ps: seq<(K, V)>)
    ensures SelectIn(ps, []) == []
    decreases |ps|
  {
    if ps != [] {
      SelectNone(ps[..|ps| - 1]);
    }
  }

  /** Regrouping by distinct keys loses and duplicates nothing. */
  lemma {:induction false} GroupedByMultiset<K, V>(ks: seq<K>, ps: seq<(K, V)>)
    requires forall i, j :: 0 <= i < j < |ks| ==> ks[i] != ks[j]
    ensures multiset(GroupedBy(ks, ps)) == multiset(SelectIn(ps, ks))
    decreases |ks|
  {
    if ks == [] {
      SelectNone(ps);
    } else {
      var n := |ks| - 1;
      GroupedByMultiset(ks[..n], ps);
      assert ks == ks[..n] + [ks[n]];
      SelectSplit(ps, ks[..n], ks[n]);
    }
  }

  /** Total number of records over all entries. */
  function TotalLength<K, R>(resp: seq<(K, seq<R>)>): nat
    decreases |resp|
  {
    if resp == [] then 0 else TotalLength(resp[..|resp| - 1]) + |resp[|resp| - 1].1|
  }

  /** The inner lists one after the other; the keys play no part. */
  function Flatten<K, R>(resp: seq<(K, seq<R>)>): (r: seq<R>)
    ensures |r| == TotalLength(resp)
    decreases |resp|
  {
    if resp == [] then [] else Flatten(resp[..|resp| - 1]) + resp[|resp| - 1].1
  }

  /** The j-th record of the i-th entry comes after every record of the
      entries before it. */
  lemma {:induction false} FlattenAt<K, R>(resp: seq<(K, seq<R>)>, i: nat, j: nat)
    requires i < |resp| && j < |resp[i].1|
    ensures TotalLength(resp[..i]) + j < |Flatten(resp)|
    ensures Flatten(resp)[TotalLength(resp[..i]) + j] == resp[i].1[j]
    decreases |resp|
  {
    var n := |resp|;
    if i == n - 1 {
      assert resp[..i] == resp[..n - 1];
    } else {
      assert resp[..n - 1][..i] == resp[..i];
      FlattenAt(resp[..n - 1], i, j);
    }
  }

  /** Two listings with the same inner lists flatten alike, whatever their keys. */
  lemma {:induction false} FlattenIgnoresKeys<K, R>(resp: seq<(K, seq<R>)>, other: seq<(K, seq<R>)>)
    requires |resp| == |other| && forall i :: 0 <= i < |resp| ==> resp[i].1 == other[i].1
    ensures Flatten(resp) == Flatten(other)
    decreases |resp|
  {
    if resp != [] {
      FlattenIgnoresKeys(resp[..|resp| - 1], other[..|other| - 1]);
    }
  }
}
