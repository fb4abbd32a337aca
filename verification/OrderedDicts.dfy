/**
 Insertion-ordered dictionaries as far as the limiters use them:
 assignment followed by moving the key to the end, dropping the oldest key, assigning to
 a key without moving it, and removing a key.
 */
module OrderedDicts {

  /** `keys` lists the keys of `vals`, oldest first. */
  datatype OrderedDict<K(==,!new), V> = OrderedDict(keys: seq<K>, vals: map<K, V>) {

    ghost predicate Valid() {
      && (forall k :: k in keys <==> k in vals)
      && (forall i, j :: 0 <= i < j < |keys| ==> keys[i] != keys[j])
    }

    function Get(k: K, default: V): V {
      if k in vals then vals[k] else default
    }

    /** `d[k] = v` followed by `d.move_to_end(k)`. */
    function PutLast(k: K, v: V): OrderedDict<K, V> {
      OrderedDict(Without(keys, k) + [k], vals[k := v])
    }

    /** `d[k] = v` for a key already present: the order does not change. */
    function Put(k: K, v: V): OrderedDict<K, V>
      requires k in vals
    {
      OrderedDict(keys, vals[k := v])
    }

    /** `d.pop(k, None)`. */
    function Pop(k: K): OrderedDict<K, V> {
      OrderedDict(Without(keys, k), vals - {k})
    }

    /** `d.popitem(last=False)`. */
    function PopFirst(): OrderedDict<K, V>
      requires keys != []
    {
      OrderedDict(keys[1..], vals - {keys[0]})
    }
  }

  function Empty<K(==,!new), V>(): OrderedDict<K, V> {
    OrderedDict([], map[])
  }

  function Without<K(==,!new)>(keys: seq<K>, k: K): seq<K> {
    if keys == [] then []
    else if keys[0] == k then Without(keys[1..], k)
    else [keys[0]] + Without(keys[1..], k)
  }

  /** Every key has a smaller rank than the keys after it. */
  ghost predicate RankedBy<K(!new)>(keys: seq<K>, rank: map<K, nat>) {
    && (forall k :: k in keys ==> k in rank)
    && (forall i, j :: 0 <= i < j < |keys| ==> rank[keys[i]] < rank[keys[j]])
  }

  lemma {:induction false} WithoutKeepsOthers<K(!new)>(keys: seq<K>, k: K)
    ensures forall x :: x in Without(keys, k) <==> x in keys && x != k
    ensures k !in keys ==> Without(keys, k) == keys
  {
    if keys != [] {
      WithoutKeepsOthers(keys[1..], k);
      assert keys == [keys[0]] + keys[1..];
    }
  }

  lemma {:induction false} WithoutKeepsRanks<K(!new)>(keys: seq<K>, k: K, rank: map<K, nat>)
    requires RankedBy(keys, rank)
    ensures RankedBy(Without(keys, k), rank)
  {
    if keys != [] {
      WithoutKeepsRanks(keys[1..], k, rank);
      WithoutKeepsOthers(keys[1..], k);
      var rest := Without(keys[1..], k);
      forall j | 0 <= j < |rest|
        ensures rank[keys[0]] < rank[rest[j]]
      {
        assert rest[j] in keys[1..];
      }
    }
  }

  lemma {:induction false} WithoutLength<K(!new)>(keys: seq<K>, k: K)
    requires forall i, j :: 0 <= i < j < |keys| ==> keys[i] != keys[j]
    ensures |Without(keys, k)| == |keys| - if k in keys then 1 else 0
    ensures forall i, j :: 0 <= i < j < |Without(keys, k)| ==> Without(keys, k)[i] != Without(keys, k)[j]
  {
    if keys != [] {
      var rest := Without(keys[1..], k);
      WithoutLength(keys[1..], k);
      WithoutKeepsOthers(keys[1..], k);
      forall j | 0 <= j < |rest|
        ensures rest[j] != keys[0]
      {
        assert rest[j] in rest;
      }
    }
  }

  lemma PutLastValid<K(!new), V>(d: OrderedDict<K, V>, k: K, v: V)
    requires d.Valid()
    ensures d.PutLast(k, v).Valid()
    ensures |d.PutLast(k, v).keys| == |d.keys| + if k in d.vals then 0 else 1
  {
    WithoutKeepsOthers(d.keys, k);
    WithoutLength(d.keys, k);
  }

  /** Moving `k` to the end keeps the order ranked when `k` receives the highest rank. */
  lemma PutLastRanked<K(!new)>(keys: seq<K>, k: K, rank: map<K, nat>, r: nat)
    requires RankedBy(keys, rank)
    requires forall x :: x in keys ==> rank[x] < r
    ensures RankedBy(Without(keys, k) + [k], rank[k := r])
  {
    WithoutKeepsRanks(keys, k, rank);
    WithoutKeepsOthers(keys, k);
    var rest := Without(keys, k);
    forall j | 0 <= j < |rest|
      ensures rest[j] != k && rank[rest[j]] < r
    {
      assert rest[j] in rest;
    }
  }

  lemma RankedTail<K(!new)>(keys: seq<K>, rank: map<K, nat>)
    requires keys != [] && RankedBy(keys, rank)
    ensures RankedBy(keys[1..], rank)
  {
  }

  lemma FirstIsLowest<K(!new)>(keys: seq<K>, rank: map<K, nat>, k: K)
    requires keys != [] && RankedBy(keys, rank) && k in keys[1..]
    ensures rank[keys[0]] < rank[k]
  {
    var i :| 0 <= i < |keys[1..]| && keys[1..][i] == k;
    assert keys[i + 1] == k;
  }

  lemma PopValid<K(!new), V>(d: OrderedDict<K, V>, k: K)
    requires d.Valid()
    ensures d.Pop(k).Valid()
  {
    WithoutKeepsOthers(d.keys, k);
    WithoutLength(d.keys, k);
  }

  lemma PopFirstValid<K(!new), V>(d: OrderedDict<K, V>)
    requires d.Valid() && d.keys != []
    ensures d.PopFirst().Valid()
  {
    forall k
      ensures k in d.keys[1..] <==> k in d.vals && k != d.keys[0]
    {
      if k in d.keys && k != d.keys[0] {
        var i :| 0 <= i < |d.keys| && d.keys[i] == k;
        assert d.keys[1..][i - 1] == k;
      }
    }
  }

  /** Distinct keys are as many as the set they form. */
  lemma {:induction false} DistinctKeysCount<K(!new)>(keys: seq<K>, ks: set<K>)
    requires forall i, j :: 0 <= i < j < |keys| ==> keys[i] != keys[j]
    requires forall k :: k in keys <==> k in ks
    ensures |keys| == |ks|
  {
    if keys == [] {
      assert ks == {};
    } else {
      assert keys[0] in keys;
      forall k
        ensures k in keys[1..] <==> k in ks - {keys[0]}
      {
        if k in ks - {keys[0]} {
          var i :| 0 <= i < |keys| && keys[i] == k;
          assert keys[1..][i - 1] == k;
        }
      }
      DistinctKeysCount(keys[1..], ks - {keys[0]});
    }
  }
}
