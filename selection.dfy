/** Weighted selection over count tables: the running-total loops of the generators. A draw
    `Math.random()` is a supplied real `u` in `[0, 1)`, so the scanned value is `u * total`. */
module Selection {
  import opened Tables

  /** Sum of the first `i` counts. */
  function Prefix(t: Counts, i: nat): nat
    requires i <= |t|
  {
    Total(t[..i])
  }

  lemma PrefixStep(t: Counts, i: nat)
    requires i < |t|
    ensures Prefix(t, i + 1) == Prefix(t, i) + t[i].1
  {
    assert t[..i + 1] == t[..i] + [t[i]];
    TotalAppend(t[..i], [t[i]]);
  }

  lemma PrefixAll(t: Counts)
    ensures Prefix(t, |t|) == Total(t)
  {
    assert t[..|t|] == t;
  }

  lemma {:induction false} PrefixMonotone(t: Counts, i: nat, j: nat)
    requires i <= j <= |t|
    ensures Prefix(t, i) <= Prefix(t, j)
    decreases j - i
  {
    if i < j {
      PrefixStep(t, j - 1);
      PrefixMonotone(t, i, j - 1);
    }
  }

  lemma PrefixTail(t: Counts, i: nat)
    requires i < |t|
    ensures Prefix(t, i + 1) == t[0].1 + Prefix(t[1..], i)
  {
    assert t[..i + 1] == [t[0]] + t[1..][..i];
    TotalAppend([t[0]], t[1..][..i]);
  }

  /** Every running sum before entry `i` stays below `r`. */
  predicate Below(t: Counts, r: real, i: nat)
    requires i <= |t|
  {
    forall j :: 0 < j <= i ==> (Prefix(t, j) as real) < r
  }

  /** The entry the draw value `r` lands in, found as the scan finds it: subtract each count
      until what is left is at most the current one. */
  function Pick(t: Counts, r: real): (i: nat)
    requires t != [] && r <= Total(t) as real
    ensures i < |t|
    decreases |t|
  {
    if r <= t[0].1 as real then 0
    else
      assert Total(t) == t[0].1 + Total(t[1..]);
      1 + Pick(t[1..], r - t[0].1 as real)
  }

  lemma PrefixTailAll(t: Counts)
    requires t != []
    ensures forall i :: 0 <= i < |t| ==> Prefix(t, i + 1) == t[0].1 + Prefix(t[1..], i)
  {
    forall i | 0 <= i < |t|
      ensures Prefix(t, i + 1) == t[0].1 + Prefix(t[1..], i)
    {
      PrefixTail(t, i);
    }
  }

  /** The picked entry is the first whose running sum reaches `r`. */
  lemma {:induction false} PickFirst(t: Counts, r: real)
    requires t != [] && r <= Total(t) as real
    ensures r <= Prefix(t, Pick(t, r) + 1) as real
    ensures Below(t, r, Pick(t, r))
    decreases |t|
  {
    PrefixTailAll(t);
    var x := t[0].1 as real;
    if r > x {
      var r' := r - x;
      var k := Pick(t[1..], r');
      PickFirst(t[1..], r');
      assert Prefix(t, k + 2) == t[0].1 + Prefix(t[1..], k + 1);
      forall j | 0 < j <= k + 1
        ensures (Prefix(t, j) as real) < r
      {
        assert Prefix(t, (j - 1) + 1) == t[0].1 + Prefix(t[1..], j - 1);
        if j > 1 {
          assert (Prefix(t[1..], j - 1) as real) < r';
        }
      }
    } else {
      assert Prefix(t, 0 + 1) == t[0].1 + Prefix(t[1..], 0);
    }
  }

  /** The first entry whose running sum reaches `r` is unique. */
  lemma PickUnique(t: Counts, r: real, i: nat)
    requires i < |t| && r <= Prefix(t, i + 1) as real && Below(t, r, i)
    ensures r <= Total(t) as real && Pick(t, r) == i
  {
    PrefixMonotone(t, i + 1, |t|);
    PrefixAll(t);
    var p := Pick(t, r);
    PickFirst(t, r);
  }

  /** Entry `i` is picked exactly for the draw values in its own stretch of the running sums,
      `(Prefix(i), Prefix(i+1)]` (from 0 on for the first entry), which is as long as its count. */
  lemma PickInterval(t: Counts, r: real, i: nat)
    requires t != [] && r <= Total(t) as real && i < |t|
    ensures Pick(t, r) == i <==> (i == 0 || (Prefix(t, i) as real) < r) && r <= Prefix(t, i + 1) as real
    ensures Prefix(t, i + 1) - Prefix(t, i) == t[i].1
  {
    PrefixStep(t, i);
    PickFirst(t, r);
    if (i == 0 || (Prefix(t, i) as real) < r) && r <= Prefix(t, i + 1) as real {
      forall j | 0 < j <= i
        ensures (Prefix(t, j) as real) < r
      {
        PrefixMonotone(t, j, i);
      }
      PickUnique(t, r, i);
    }
  }

  /** A positive draw value never lands on an entry with count 0. */
  lemma PickPositive(t: Counts, r: real)
    requires t != [] && 0.0 < r <= Total(t) as real
    ensures t[Pick(t, r)].1 > 0
  {
    var i := Pick(t, r);
    PickInterval(t, r, i);
  }

  /** The scan that subtracts each count in turn and stops once the value left is 0 or
      below: it stops at the entry `Pick` names if the table is non-empty and its total
      reaches `n0`, and otherwise runs through the table, having subtracted the total. */
  method Scan(t: Counts, n0: real) returns (found: bool, j: nat, n: real)
    ensures found <==> t != [] && n0 <= Total(t) as real
    ensures found ==> j < |t| && j == Pick(t, n0) && n == n0 - Prefix(t, j + 1) as real
    ensures !found ==> n == n0 - Total(t) as real
  {
    n := n0;
    j := 0;
    found := false;
    while j < |t|
      invariant j <= |t|
      invariant n == n0 - Prefix(t, j) as real
      invariant Below(t, n0, j)
    {
      n := n - t[j].1 as real;
      PrefixStep(t, j);
      if n <= 0.0 {
        found := true;
        PickUnique(t, n0, j);
        PrefixAll(t);
        return;
      }
      j := j + 1;
    }
    PrefixAll(t);
    if t != [] {
      assert (Prefix(t, |t|) as real) < n0;
    }
  }

  /** The sum of a table's counts, one entry at a time. */
  method SumCounts(t: Counts) returns (total: nat)
    ensures total == Total(t)
  {
    total := 0;
    var i := 0;
    while i < |t|
      invariant i <= |t| && total == Prefix(t, i)
    {
      total := total + t[i].1;
      PrefixStep(t, i);
      i := i + 1;
    }
    PrefixAll(t);
  }

  // ---- Several tables scanned as one, in order ----

  function PooledTotal(ts: seq<Counts>): nat {
    if ts == [] then 0 else Total(ts[0]) + PooledTotal(ts[1..])
  }

  /** The tables one after the other. */
  function Concat(ts: seq<Counts>): Counts {
    if ts == [] then [] else ts[0] + Concat(ts[1..])
  }

  /** Position in `Concat(ts)` where table `m` begins. */
  function Offset(ts: seq<Counts>, m: nat): nat
    requires m <= |ts|
  {
    if m == 0 then 0 else |ts[0]| + Offset(ts[1..], m - 1)
  }

  /** The table and entry a draw value lands in when the tables are scanned in order. */
  function PickPooled(ts: seq<Counts>, r: real): (p: (nat, nat))
    requires 0 < PooledTotal(ts) && r <= PooledTotal(ts) as real
    ensures p.0 < |ts| && p.1 < |ts[p.0]|
    decreases |ts|
  {
    if ts[0] != [] && r <= Total(ts[0]) as real then (0, Pick(ts[0], r))
    else
      var q := PickPooled(ts[1..], r - Total(ts[0]) as real);
      (q.0 + 1, q.1)
  }

  lemma {:induction false} PooledIsConcat(ts: seq<Counts>)
    ensures PooledTotal(ts) == Total(Concat(ts))
    decreases |ts|
  {
    if ts != [] {
      PooledIsConcat(ts[1..]);
      TotalAppend(ts[0], Concat(ts[1..]));
    }
  }

  lemma PrefixLeft(a: Counts, b: Counts, k: nat)
    requires k <= |a|
    ensures Prefix(a + b, k) == Prefix(a, k)
  {
    assert (a + b)[..k] == a[..k];
  }

  lemma PrefixRight(a: Counts, b: Counts, k: nat)
    requires k <= |b|
    ensures Prefix(a + b, |a| + k) == Total(a) + Prefix(b, k)
  {
    assert (a + b)[..|a| + k] == a + b[..k];
    TotalAppend(a, b[..k]);
  }

  /** Picking in two tables one after the other, past the first. */
  lemma PickAppend(a: Counts, b: Counts, r: real)
    requires b != [] && (a == [] || Total(a) as real < r) && r <= (Total(a) + Total(b)) as real
    ensures Total(a + b) == Total(a) + Total(b)
    ensures Pick(a + b, r) == |a| + Pick(b, r - Total(a) as real)
  {
    TotalAppend(a, b);
    var r' := r - Total(a) as real;
    var k := Pick(b, r');
    PickFirst(b, r');
    PrefixRight(a, b, k + 1);
    forall j | 0 < j <= |a| + k
      ensures (Prefix(a + b, j) as real) < r
    {
      if j <= |a| {
        PrefixLeft(a, b, j);
        PrefixMonotone(a, j, |a|);
        PrefixAll(a);
      } else {
        PrefixRight(a, b, j - |a|);
        assert (Prefix(b, j - |a|) as real) < r';
      }
    }
    PickUnique(a + b, r, |a| + k);
  }

  lemma PickPrefixPart(a: Counts, b: Counts, r: real)
    requires a != [] && r <= Total(a) as real
    ensures Total(a + b) == Total(a) + Total(b)
    ensures Pick(a + b, r) == Pick(a, r)
  {
    TotalAppend(a, b);
    var k := Pick(a, r);
    PickFirst(a, r);
    PrefixLeft(a, b, k + 1);
    forall j | 0 < j <= k
      ensures (Prefix(a + b, j) as real) < r
    {
      PrefixLeft(a, b, j);
    }
    PickUnique(a + b, r, k);
  }

  /** Entry `i` of table `m` sits at `Offset(ts, m) + i` in the concatenation. */
  lemma {:induction false} ConcatIndex(ts: seq<Counts>, m: nat, i: nat)
    requires m < |ts| && i < |ts[m]|
    ensures Offset(ts, m) + i < |Concat(ts)| && Concat(ts)[Offset(ts, m) + i] == ts[m][i]
    decreases m
  {
    assert Concat(ts) == ts[0] + Concat(ts[1..]);
    if m > 0 {
      ConcatIndex(ts[1..], m - 1, i);
    }
  }

  lemma {:induction false} PickPooledOffset(ts: seq<Counts>, r: real)
    requires 0 < PooledTotal(ts) && r <= PooledTotal(ts) as real
    ensures PooledTotal(ts) == Total(Concat(ts))
    ensures Offset(ts, PickPooled(ts, r).0) + PickPooled(ts, r).1 == Pick(Concat(ts), r)
    decreases |ts|
  {
    PooledIsConcat(ts);
    PooledIsConcat(ts[1..]);
    assert Concat(ts) == ts[0] + Concat(ts[1..]);
    if ts[0] != [] && r <= Total(ts[0]) as real {
      PickPrefixPart(ts[0], Concat(ts[1..]), r);
    } else {
      var r' := r - Total(ts[0]) as real;
      PickPooledOffset(ts[1..], r');
      assert PooledTotal(ts) == Total(ts[0]) + PooledTotal(ts[1..]);
      assert Concat(ts[1..]) != [];
      PickAppend(ts[0], Concat(ts[1..]), r);
    }
  }

  /** Scanning the tables in order is picking in their concatenation: totals are summed across
      all tables and the draw lands in the same entry. */
  lemma PickPooledIsConcat(ts: seq<Counts>, r: real)
    requires 0 < PooledTotal(ts) && r <= PooledTotal(ts) as real
    ensures PooledTotal(ts) == Total(Concat(ts))
    ensures var p := PickPooled(ts, r);
      && Offset(ts, p.0) + p.1 == Pick(Concat(ts), r)
      && Concat(ts)[Offset(ts, p.0) + p.1] == ts[p.0][p.1]
  {
    PickPooledOffset(ts, r);
    ConcatIndex(ts, PickPooled(ts, r).0, PickPooled(ts, r).1);
  }

  /** The sum of the counts of all tables, table by table. */
  method SumPooled(ts: seq<Counts>) returns (total: nat)
    ensures total == PooledTotal(ts)
  {
    total := 0;
    var m := 0;
    while m < |ts|
      invariant m <= |ts| && total + PooledTotal(ts[m..]) == PooledTotal(ts)
    {
      var s := SumCounts(ts[m]);
      assert ts[m..][1..] == ts[m + 1..];
      total := total + s;
      m := m + 1;
    }
  }

  /** The pooled pick `target` lies in the tables from `ts[m]` on, at the pick of the running
      value `n` among them. */
  predicate Lands(ts: seq<Counts>, m: nat, n: real, target: (nat, nat)) {
    && m <= |ts| && 0 < PooledTotal(ts[m..]) && n <= PooledTotal(ts[m..]) as real
    && target == (PickPooled(ts[m..], n).0 + m, PickPooled(ts[m..], n).1)
  }

  lemma LandsAtStart(ts: seq<Counts>, r: real)
    requires 0 < PooledTotal(ts) && r <= PooledTotal(ts) as real
    ensures Lands(ts, 0, r, PickPooled(ts, r))
  {
    assert ts[0..] == ts;
  }

  /** One table of the scan across tables: either the pick lands in `ts[m]`, or it lies in
      the tables after it, with the running value reduced by `ts[m]`'s total. */
  lemma LandsStep(ts: seq<Counts>, m: nat, n: real, target: (nat, nat))
    requires Lands(ts, m, n, target)
    ensures m < |ts|
    ensures ts[m] != [] && n <= Total(ts[m]) as real ==> target == (m, Pick(ts[m], n))
    ensures !(ts[m] != [] && n <= Total(ts[m]) as real) ==> Lands(ts, m + 1, n - Total(ts[m]) as real, target)
  {
    var rest := ts[m..];
    assert rest[0] == ts[m] && rest[1..] == ts[m + 1..];
  }

  /** The scan of the tables one after the other until one of them stops: the table index
      and the entry where the running value first drops to 0 or below. */
  method SelectPooled(ts: seq<Counts>, r: real) returns (mi: int, j: nat)
    requires 0 < PooledTotal(ts) && r <= PooledTotal(ts) as real
    ensures 0 <= mi < |ts| && (mi, j) == PickPooled(ts, r)
  {
    var n := r;
    var found := false;
    mi := -1;
    j := 0;
    LandsAtStart(ts, r);
    while !found && mi + 1 < |ts|
      invariant -1 <= mi < |ts|
      invariant !found ==> Lands(ts, mi + 1, n, PickPooled(ts, r))
      invariant found ==> 0 <= mi && (mi, j) == PickPooled(ts, r)
      decreases |ts| - mi, if found then 0 else 1
    {
      mi := mi + 1;
      LandsStep(ts, mi, n, PickPooled(ts, r));
      found, j, n := Scan(ts[mi], n);
    }
  }

  /** One table pooled on its own is that table. */
  lemma PickPooledSingle(t: Counts, r: real)
    ensures PooledTotal([t]) == Total(t)
    ensures 0 < Total(t) && r <= Total(t) as real ==> PickPooled([t], r) == (0, Pick(t, r))
  {
    assert [t][1..] == [];
  }
}
