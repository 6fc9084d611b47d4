/** The count tables of a model. A JS object used as a dictionary is an association list in
    insertion order: assigning to a new key appends it, assigning to an old key updates it in
    place. */
module Tables {
  /** Token (or bigram key) to count. */
  type Counts = seq<(string, nat)>

  function Keys<V>(t: seq<(string, V)>): (ks: seq<string>)
    ensures |ks| == |t| && forall i :: 0 <= i < |t| ==> ks[i] == t[i].0
  {
    if t == [] then [] else [t[0].0] + Keys(t[1..])
  }

  predicate HasKey<V>(t: seq<(string, V)>, k: string) {
    k in Keys(t)
  }

  predicate DistinctKeys<V>(t: seq<(string, V)>) {
    forall i, j :: 0 <= i < j < |t| ==> t[i].0 != t[j].0
  }

  /** `t[k]`, or `absent` when `k` is not a key. */
  function Get<V>(t: seq<(string, V)>, k: string, absent: V): V {
    if t == [] then absent else if t[0].0 == k then t[0].1 else Get(t[1..], k, absent)
  }

  /** `t[k] = v`. */
  function Put<V>(t: seq<(string, V)>, k: string, v: V): seq<(string, V)> {
    if t == [] then [(k, v)]
    else if t[0].0 == k then [(k, v)] + t[1..]
    else [t[0]] + Put(t[1..], k, v)
  }

  /** Increment the count of `k`, a missing key starting at 1; counts are never 0, so a
      missing key and a falsy entry are the same thing. */
  function Bump(t: Counts, k: string): Counts {
    Put(t, k, Get(t, k, 0) + 1)
  }

  /** Sum of the counts. */
  function Total(t: Counts): nat {
    if t == [] then 0 else t[0].1 + Total(t[1..])
  }

  /** Every count is at least 1. */
  predicate Positive(t: Counts) {
    forall i :: 0 <= i < |t| ==> t[i].1 >= 1
  }

  lemma {:induction false} GetAbsent<V>(t: seq<(string, V)>, k: string, absent: V)
    requires !HasKey(t, k)
    ensures Get(t, k, absent) == absent
    decreases |t|
  {
    if t != [] {
      assert Keys(t) == [t[0].0] + Keys(t[1..]);
      GetAbsent(t[1..], k, absent);
    }
  }

  /** A key that is present is read from the first entry that has it. */
  lemma {:induction false} GetPresent<V>(t: seq<(string, V)>, k: string, absent: V, i: nat)
    requires DistinctKeys(t) && i < |t| && t[i].0 == k
    ensures Get(t, k, absent) == t[i].1
    decreases |t|
  {
    if i > 0 {
      GetPresent(t[1..], k, absent, i - 1);
    }
  }

  /** Reading back after `t[k] = v`. */
  lemma {:induction false} GetPut<V>(t: seq<(string, V)>, k: string, v: V, j: string, absent: V)
    ensures Get(Put(t, k, v), j, absent) == if j == k then v else Get(t, j, absent)
    decreases |t|
  {
    if t != [] && t[0].0 != k {
      GetPut(t[1..], k, v, j, absent);
    }
  }

  /** `t[k] = v` keeps the keys in insertion order: an old key stays where it is, a new one is
      appended. */
  lemma {:induction false} PutKeys<V>(t: seq<(string, V)>, k: string, v: V)
    ensures Keys(Put(t, k, v)) == if HasKey(t, k) then Keys(t) else Keys(t) + [k]
    decreases |t|
  {
    if t != [] {
      assert Keys(t) == [t[0].0] + Keys(t[1..]);
      if t[0].0 != k {
        PutKeys(t[1..], k, v);
        assert Keys(Put(t, k, v)) == [t[0].0] + Keys(Put(t[1..], k, v));
      } else {
        assert Keys(Put(t, k, v)) == [k] + Keys(t[1..]);
      }
    }
  }

  lemma PutHasKey<V>(t: seq<(string, V)>, k: string, v: V, j: string)
    ensures HasKey(Put(t, k, v), j) <==> HasKey(t, j) || j == k
  {
    PutKeys(t, k, v);
  }

  /** Every entry after `t[k] = v` is the new one or an old one. */
  lemma {:induction false} PutIn<V>(t: seq<(string, V)>, k: string, v: V)
    ensures forall e :: e in Put(t, k, v) ==> e == (k, v) || e in t
    decreases |t|
  {
    if t != [] && t[0].0 != k {
      PutIn(t[1..], k, v);
      assert forall e :: e in Put(t, k, v) ==> e == t[0] || e in Put(t[1..], k, v);
    }
  }

  /** A read gives the default or the value of an entry. */
  lemma {:induction false} GetIn<V>(t: seq<(string, V)>, k: string, absent: V)
    ensures Get(t, k, absent) == absent || (k, Get(t, k, absent)) in t
    decreases |t|
  {
    if t != [] && t[0].0 != k {
      GetIn(t[1..], k, absent);
    }
  }

  /** A count never exceeds the total. */
  lemma {:induction false} GetAtMostTotal(t: Counts, k: string)
    ensures Get<nat>(t, k, 0) <= Total(t)
    decreases |t|
  {
    if t != [] {
      GetAtMostTotal(t[1..], k);
    }
  }

  /** `t[k] = v` keeps the keys distinct. */
  lemma PutDistinct<V>(t: seq<(string, V)>, k: string, v: V)
    requires DistinctKeys(t)
    ensures DistinctKeys(Put(t, k, v))
  {
    PutKeys(t, k, v);
    var ks := Keys(Put(t, k, v));
    assert forall i :: 0 <= i < |Put(t, k, v)| ==> Put(t, k, v)[i].0 == ks[i];
    if !HasKey(t, k) {
      assert forall i :: 0 <= i < |t| ==> Keys(t)[i] != k;
    }
  }

  /** `t[k] = v` changes the total by the difference between the new and the old count. */
  lemma {:induction false} PutTotal(t: Counts, k: string, v: nat)
    ensures Total(Put(t, k, v)) == Total(t) - Get(t, k, 0) + v
    decreases |t|
  {
    if t != [] && t[0].0 != k {
      PutTotal(t[1..], k, v);
    }
  }

  lemma {:induction false} PutPositive(t: Counts, k: string, v: nat)
    requires Positive(t) && v >= 1
    ensures Positive(Put(t, k, v))
    decreases |t|
  {
    if t != [] {
      var r := Put(t, k, v);
      if t[0].0 == k {
        assert r == [(k, v)] + t[1..];
        forall i | 1 <= i < |r|
          ensures r[i].1 >= 1
        {
          assert r[i] == t[i];
        }
      } else {
        var q := Put(t[1..], k, v);
        PutPositive(t[1..], k, v);
        assert r == [t[0]] + q;
        forall i | 1 <= i < |r|
          ensures r[i].1 >= 1
        {
          assert r[i] == q[i - 1];
        }
      }
    }
  }

  /** Bumping `k` adds one to its count and touches no other count. */
  lemma BumpGet(t: Counts, k: string, j: string)
    ensures Get(Bump(t, k), j, 0) == Get(t, j, 0) + (if j == k then 1 else 0)
  {
    GetPut(t, k, Get(t, k, 0) + 1, j, 0);
  }

  /** Bumping adds one to the total and keeps the counts positive and the keys distinct. */
  lemma BumpInvariants(t: Counts, k: string)
    ensures Total(Bump(t, k)) == Total(t) + 1
    ensures Positive(t) ==> Positive(Bump(t, k))
    ensures DistinctKeys(t) ==> DistinctKeys(Bump(t, k))
    ensures Keys(Bump(t, k)) == if HasKey(t, k) then Keys(t) else Keys(t) + [k]
  {
    var v := Get(t, k, 0) + 1;
    PutTotal(t, k, v);
    if Positive(t) {
      PutPositive(t, k, v);
    }
    if DistinctKeys(t) {
      PutDistinct(t, k, v);
    }
    PutKeys(t, k, v);
  }

  /** The total of two tables one after the other. */
  lemma {:induction false} TotalAppend(a: Counts, b: Counts)
    ensures Total(a + b) == Total(a) + Total(b)
    decreases |a|
  {
    if a != [] {
      assert (a + b)[0] == a[0] && (a + b)[1..] == a[1..] + b;
      TotalAppend(a[1..], b);
    } else {
      assert a + b == b;
    }
  }
}
