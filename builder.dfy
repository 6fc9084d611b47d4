/** `markovModel`: one pass over the tokens that fills the follower and start tables. */
module Builder {
  import opened Tables
  import opened Predicates
  import opened Tokenizer

  /** Bigram key to the counts of the tokens that followed it. */
  type Followers = seq<(string, Counts)>

  datatype Model = Model(followers: Followers, starts: Counts)

  /** The key of the bigram `a b`. */
  function Key(a: string, b: string): string {
    a + " " + b
  }

  /** `followers[k]`, an empty table when `k` has not been seen. */
  function FollowersOf(fs: Followers, k: string): Counts {
    Get(fs, k, [])
  }

  /** `followers[k][f]` bumped, `followers[k]` created first when missing. */
  function AddFollower(fs: Followers, k: string, f: string): Followers {
    Put(fs, k, Bump(FollowersOf(fs, k), f))
  }

  /** The number of iterations of the counting loop: one per token but the last two. */
  function Steps(words: seq<string>): nat {
    if |words| >= 2 then |words| - 2 else 0
  }

  /** The follower table after the first `n` iterations. */
  function FollowersUpTo(words: seq<string>, n: nat): Followers
    requires n <= Steps(words)
  {
    if n == 0 then []
    else AddFollower(FollowersUpTo(words, n - 1), Key(words[n - 1], words[n]), words[n + 1])
  }

  /** The start-table update of iteration `i`. */
  function StartsStep(words: seq<string>, i: nat, starts: Counts): Counts
    requires i < Steps(words)
  {
    if i == 0 && i + 1 < |words| then Put(starts, Key(words[i], words[i + 1]), 1)
    else if i + 2 < |words| && IsBreak(words[i], words[i + 1]) then Bump(starts, Key(words[i + 1], words[i + 2]))
    else starts
  }

  /** The start table after the first `n` iterations. */
  function StartsUpTo(words: seq<string>, n: nat): Counts
    requires n <= Steps(words)
  {
    if n == 0 then [] else StartsStep(words, n - 1, StartsUpTo(words, n - 1))
  }

  /** The model `markovModel` builds from the tokens `words`. */
  function ModelOf(words: seq<string>): Model {
    Model(FollowersUpTo(words, Steps(words)), StartsUpTo(words, Steps(words)))
  }

  /** `markovModel(inputText)`: tokenize with `_splitText` as the source writes it, then count. */
  method MarkovModel(inputText: string) returns (model: Model)
    ensures model == ModelOf(SplitTextAsWritten(inputText))
    ensures WellFormed(model)
  {
    var words := SplitTextAsWritten(inputText);
    model := CountTokens(words);
  }

  /** The loop of `markovModel` over the tokens. */
  method CountTokens(words: seq<string>) returns (model: Model)
    ensures model == ModelOf(words)
    ensures WellFormed(model)
  {
    var followers: Followers := [];
    var starts: Counts := [];
    var i := 0;
    while i < |words| - 2
      invariant 0 <= i <= Steps(words)
      invariant followers == FollowersUpTo(words, i) && starts == StartsUpTo(words, i)
    {
      // update followers
      var k := Key(words[i], words[i + 1]);
      var f := words[i + 2];
      followers := RecordFollower(followers, k, f);
      // update starts
      if i == 0 && i + 1 < |words| {
        starts := Put(starts, Key(words[i], words[i + 1]), 1);
      } else if i + 2 < |words| && IsBreak(words[i], words[i + 1]) {
        starts := Increment(starts, Key(words[i + 1], words[i + 2]));
      }
      i := i + 1;
    }
    model := Model(followers, starts);
    ModelWellFormed(words);
  }

  /** Increment the count of `k`, starting a missing key at 1. */
  method Increment(t: Counts, k: string) returns (r: Counts)
    ensures r == Bump(t, k)
    ensures Get(r, k, 0) == Get(t, k, 0) + 1 && Total(r) == Total(t) + 1
  {
    if Get(t, k, 0) == 0 {
      r := Put(t, k, 1);
    } else {
      r := Put(t, k, Get(t, k, 0) + 1);
    }
    BumpGet(t, k, k);
    BumpInvariants(t, k);
  }

  /** Create the follower table of `k` when it is missing, then increment its count of `f`. */
  method RecordFollower(fs: Followers, k: string, f: string) returns (r: Followers)
    ensures r == AddFollower(fs, k, f)
  {
    r := fs;
    if !HasKey(r, k) {
      r := Put(r, k, []);
    }
    var inner := Increment(FollowersOf(r, k), f);
    r := Put(r, k, inner);
    AddFollowerSteps(fs, k, f);
  }

  /** Creating `followers[k]` first changes nothing but where it ends up: the same place. */
  lemma AddFollowerSteps(fs: Followers, k: string, f: string)
    ensures var fs1 := if !HasKey(fs, k) then Put(fs, k, []) else fs;
      Put(fs1, k, Bump(FollowersOf(fs1, k), f)) == AddFollower(fs, k, f)
  {
    if !HasKey(fs, k) {
      GetAbsent(fs, k, []);
      GetPut(fs, k, [], k, []);
      PutTwice(fs, k, [], Bump([], f));
    }
  }

  lemma {:induction false} PutTwice<V>(t: seq<(string, V)>, k: string, v: V, w: V)
    ensures Put(Put(t, k, v), k, w) == Put(t, k, w)
    decreases |t|
  {
    if t != [] && t[0].0 != k {
      PutTwice(t[1..], k, v, w);
    }
  }

  // ---- What the tables hold ----

  /** Positions `i < n` where the bigram at `i` has key `k` and is followed by `f`. */
  function KeyTripleCount(words: seq<string>, k: string, f: string, n: nat): nat
    requires n <= Steps(words)
  {
    if n == 0 then 0
    else KeyTripleCount(words, k, f, n - 1) + (if Key(words[n - 1], words[n]) == k && words[n + 1] == f then 1 else 0)
  }

  /** Positions `i < n` where the triple `a b f` occurs. */
  function TripleCount(words: seq<string>, a: string, b: string, f: string, n: nat): nat
    requires n <= Steps(words)
  {
    if n == 0 then 0
    else TripleCount(words, a, b, f, n - 1) + (if words[n - 1] == a && words[n] == b && words[n + 1] == f then 1 else 0)
  }

  /** Positions `1 <= i < n` where a sentence break between `words[i]` and `words[i+1]` starts
      the bigram with key `k`. */
  function BreakCount(words: seq<string>, k: string, n: nat): nat
    requires n <= Steps(words)
  {
    if n <= 1 then 0
    else BreakCount(words, k, n - 1) + (if IsBreak(words[n - 1], words[n]) && Key(words[n], words[n + 1]) == k then 1 else 0)
  }

  /** Sum of all follower counts. */
  function Mass(fs: Followers): nat {
    if fs == [] then 0 else Total(fs[0].1) + Mass(fs[1..])
  }

  predicate WellFormed(m: Model) {
    && DistinctKeys(m.starts) && Positive(m.starts) && DistinctKeys(m.followers)
    && forall e :: e in m.followers ==> DistinctKeys(e.1) && Positive(e.1)
  }

  /** `followers[k][f]` counts the positions where the bigram keyed `k` is followed by `f`. */
  lemma {:induction false} FollowerCounts(words: seq<string>, n: nat, k: string, f: string)
    requires n <= Steps(words)
    ensures Get(FollowersOf(FollowersUpTo(words, n), k), f, 0) == KeyTripleCount(words, k, f, n)
  {
    if n > 0 {
      var fs := FollowersUpTo(words, n - 1);
      var k0 := Key(words[n - 1], words[n]);
      FollowerCounts(words, n - 1, k, f);
      GetPut(fs, k0, Bump(FollowersOf(fs, k0), words[n + 1]), k, []);
      if k == k0 {
        BumpGet(FollowersOf(fs, k0), words[n + 1], f);
      }
    }
  }

  lemma {:induction false} PutMass(fs: Followers, k: string, v: Counts)
    ensures Mass(Put(fs, k, v)) == Mass(fs) - Total(FollowersOf(fs, k)) + Total(v)
    decreases |fs|
  {
    if fs != [] && fs[0].0 != k {
      PutMass(fs[1..], k, v);
    }
  }

  /** Each iteration adds one follower occurrence: the counts sum to the number of triples. */
  lemma {:induction false} FollowerMass(words: seq<string>, n: nat)
    requires n <= Steps(words)
    ensures Mass(FollowersUpTo(words, n)) == n
  {
    if n > 0 {
      FollowerMass(words, n - 1);
      AddFollowerMass(FollowersUpTo(words, n - 1), Key(words[n - 1], words[n]), words[n + 1]);
    }
  }

  /** Recording one follower adds one to the mass. */
  lemma AddFollowerMass(fs: Followers, k: string, f: string)
    ensures Mass(AddFollower(fs, k, f)) == Mass(fs) + 1
  {
    PutMass(fs, k, Bump(FollowersOf(fs, k), f));
    BumpInvariants(FollowersOf(fs, k), f);
    GetAtMostTotalInner(fs, k);
  }

  /** The followers of one key are part of the mass. */
  lemma {:induction false} GetAtMostTotalInner(fs: Followers, k: string)
    ensures Total(FollowersOf(fs, k)) <= Mass(fs)
    decreases |fs|
  {
    if fs != [] && fs[0].0 != k {
      GetAtMostTotalInner(fs[1..], k);
    }
  }

  /** A bigram key is recorded iff it occurs at some position before `n`. */
  lemma {:induction false} FollowerKeys(words: seq<string>, n: nat, k: string)
    requires n <= Steps(words)
    ensures HasKey(FollowersUpTo(words, n), k) <==> exists i :: 0 <= i < n && Key(words[i], words[i + 1]) == k
  {
    if n > 0 {
      var fs := FollowersUpTo(words, n - 1);
      var k0 := Key(words[n - 1], words[n]);
      FollowerKeys(words, n - 1, k);
      PutHasKey(fs, k0, Bump(FollowersOf(fs, k0), words[n + 1]), k);
      if k == k0 {
        assert Key(words[n - 1], words[n]) == k;
      }
    }
  }

  lemma {:induction false} FollowersWellFormed(words: seq<string>, n: nat)
    requires n <= Steps(words)
    ensures DistinctKeys(FollowersUpTo(words, n))
    ensures forall e :: e in FollowersUpTo(words, n) ==> DistinctKeys(e.1) && Positive(e.1)
  {
    if n > 0 {
      var fs := FollowersUpTo(words, n - 1);
      var k := Key(words[n - 1], words[n]);
      var inner := FollowersOf(fs, k);
      FollowersWellFormed(words, n - 1);
      GetIn(fs, k, []);
      BumpInvariants(inner, words[n + 1]);
      PutDistinct(fs, k, Bump(inner, words[n + 1]));
      PutIn(fs, k, Bump(inner, words[n + 1]));
    }
  }

  /** `starts[k]` is 1 for the first bigram plus one for every break at a position `i >= 1`
      that starts the bigram keyed `k`; a break at position 0 is not counted. */
  lemma {:induction false} StartCounts(words: seq<string>, n: nat, k: string)
    requires n <= Steps(words)
    ensures Get(StartsUpTo(words, n), k, 0) ==
      (if n >= 1 && k == Key(words[0], words[1]) then 1 else 0) + BreakCount(words, k, n)
  {
    if n > 0 {
      var i := n - 1;
      var t := StartsUpTo(words, i);
      StartCounts(words, i, k);
      if i == 0 {
        GetPut(t, Key(words[0], words[1]), 1, k, 0);
      } else if IsBreak(words[i], words[i + 1]) {
        BumpGet(t, Key(words[i + 1], words[i + 2]), k);
      }
    }
  }

  /** An iteration leaves the start table alone, records the first bigram with count 1, or
      bumps the bigram after a break. */
  lemma StartsStepCases(words: seq<string>, i: nat, t: Counts)
    requires i < Steps(words)
    ensures var s := StartsStep(words, i, t);
      || s == t
      || (i == 0 && s == Put(t, Key(words[0], words[1]), 1))
      || (i > 0 && s == Bump(t, Key(words[i + 1], words[i + 2])))
  {
  }

  lemma {:induction false} StartsWellFormed(words: seq<string>, n: nat)
    requires n <= Steps(words)
    ensures DistinctKeys(StartsUpTo(words, n)) && Positive(StartsUpTo(words, n))
  {
    if n > 0 {
      StartsWellFormed(words, n - 1);
      StartsStepWellFormed(words, n - 1);
    }
  }

  lemma StartsStepWellFormed(words: seq<string>, i: nat)
    requires i < Steps(words) && DistinctKeys(StartsUpTo(words, i)) && Positive(StartsUpTo(words, i))
    ensures DistinctKeys(StartsUpTo(words, i + 1)) && Positive(StartsUpTo(words, i + 1))
  {
    var t := StartsUpTo(words, i);
    StartsStepCases(words, i, t);
    PutDistinct(t, Key(words[0], words[1]), 1);
    PutPositive(t, Key(words[0], words[1]), 1);
    BumpInvariants(t, Key(words[i + 1], words[i + 2]));
  }

  /** Where a start key can come from: the first bigram or the bigram after a break. */
  lemma StartKeyStep(words: seq<string>, i: nat, k: string)
    requires i < Steps(words) && HasKey(StartsUpTo(words, i + 1), k)
    ensures HasKey(StartsUpTo(words, i), k) || k == Key(words[0], words[1]) || k == Key(words[i + 1], words[i + 2])
  {
    StartsStepKeys(words, i, StartsUpTo(words, i), k);
  }

  lemma StartsStepKeys(words: seq<string>, i: nat, t: Counts, k: string)
    requires i < Steps(words) && HasKey(StartsStep(words, i, t), k)
    ensures HasKey(t, k) || k == Key(words[0], words[1]) || k == Key(words[i + 1], words[i + 2])
  {
    var k0 := Key(words[i + 1], words[i + 2]);
    StartsStepCases(words, i, t);
    PutHasKey(t, Key(words[0], words[1]), 1, k);
    PutHasKey(t, k0, Get(t, k0, 0) + 1, k);
  }

  /** Every start key is the key of a bigram of the text. */
  lemma {:induction false} StartKeys(words: seq<string>, n: nat, k: string)
    requires n <= Steps(words) && HasKey(StartsUpTo(words, n), k)
    ensures exists i :: 0 <= i < |words| - 1 && Key(words[i], words[i + 1]) == k
  {
    var i := n - 1;
    StartKeyStep(words, i, k);
    if HasKey(StartsUpTo(words, i), k) {
      StartKeys(words, i, k);
    } else if k == Key(words[0], words[1]) {
      assert Key(words[0], words[1]) == k;
    } else {
      assert Key(words[i + 1], words[i + 2]) == k;
    }
  }

  lemma ModelWellFormed(words: seq<string>)
    ensures WellFormed(ModelOf(words))
  {
    FollowersWellFormed(words, Steps(words));
    StartsWellFormed(words, Steps(words));
  }
  // ---- The tables over tokens without spaces ----

  /** Two bigrams of space-free tokens have the same key exactly when they are the same bigram. */
  lemma KeyInjective(a: string, b: string, c: string, d: string)
    requires ' ' !in a && ' ' !in b && ' ' !in c && ' ' !in d
    ensures Key(a, b) == Key(c, d) <==> a == c && b == d
  {
    SplitJoined(a, b);
    SplitJoined(c, d);
  }

  predicate SpaceFree(words: seq<string>) {
    forall i :: 0 <= i < |words| ==> ' ' !in words[i]
  }

  lemma {:induction false} KeyTripleIsTriple(words: seq<string>, a: string, b: string, f: string, n: nat)
    requires n <= Steps(words) && SpaceFree(words) && ' ' !in a && ' ' !in b
    ensures KeyTripleCount(words, Key(a, b), f, n) == TripleCount(words, a, b, f, n)
  {
    if n > 0 {
      KeyTripleIsTriple(words, a, b, f, n - 1);
      KeyInjective(words[n - 1], words[n], a, b);
    }
  }

  /** For space-free tokens: `followers["a b"][f]` is the number of times the triple `a b f`
      occurs, and the counts add up to the number of triples, `|words| - 2`. */
  lemma ModelCounts(words: seq<string>, a: string, b: string, f: string)
    requires SpaceFree(words) && ' ' !in a && ' ' !in b
    ensures Get(FollowersOf(ModelOf(words).followers, Key(a, b)), f, 0) == TripleCount(words, a, b, f, Steps(words))
    ensures Mass(ModelOf(words).followers) == Steps(words)
    ensures |words| >= 3 ==> Mass(ModelOf(words).followers) == |words| - 2
  {
    FollowerCounts(words, Steps(words), Key(a, b), f);
    KeyTripleIsTriple(words, a, b, f, Steps(words));
    FollowerMass(words, Steps(words));
  }

  /** The start table is empty below three tokens; from three on it holds the first bigram. */
  lemma StartsShape(words: seq<string>)
    ensures |words| < 3 ==> ModelOf(words).starts == [] && ModelOf(words).followers == []
    ensures |words| >= 3 ==> var k := Key(words[0], words[1]);
      HasKey(ModelOf(words).starts, k) && Get(ModelOf(words).starts, k, 0) >= 1 && Total(ModelOf(words).starts) >= 1
  {
    if |words| >= 3 {
      var k := Key(words[0], words[1]);
      var starts := ModelOf(words).starts;
      assert Steps(words) >= 1 && starts == StartsUpTo(words, Steps(words));
      StartCounts(words, Steps(words), k);
      assert Get(starts, k, 0) >= 1;
      GetAtMostTotal(starts, k);
      assert Total(starts) >= 1;
      if !HasKey(starts, k) {
        GetAbsent(starts, k, 0);
      }
      assert HasKey(starts, k);
    }
  }

  lemma {:induction false} KeyTripleWitness(words: seq<string>, k: string, f: string, n: nat)
    requires n <= Steps(words) && KeyTripleCount(words, k, f, n) > 0
    ensures exists p :: 0 <= p < n && Key(words[p], words[p + 1]) == k && words[p + 2] == f
  {
    if KeyTripleCount(words, k, f, n - 1) > 0 {
      KeyTripleWitness(words, k, f, n - 1);
    } else {
      var p := n - 1;
      assert Key(words[p], words[p + 1]) == k && words[p + 2] == f;
    }
  }

  /** Every entry of a follower table records a triple that occurs in the tokens. */
  lemma FollowerEntryOccurs(words: seq<string>, k: string, i: nat)
    requires i < |FollowersOf(ModelOf(words).followers, k)|
    ensures var f := FollowersOf(ModelOf(words).followers, k)[i].0;
      exists p :: 0 <= p < Steps(words) && Key(words[p], words[p + 1]) == k && words[p + 2] == f
  {
    var fs := ModelOf(words).followers;
    var t := FollowersOf(fs, k);
    ModelWellFormed(words);
    GetIn(fs, k, []);
    GetPresent(t, t[i].0, 0, i);
    FollowerCounts(words, Steps(words), k, t[i].0);
    KeyTripleWitness(words, k, t[i].0, Steps(words));
  }

  /** Every entry of the start table is a bigram that occurs in the tokens. */
  lemma StartEntryOccurs(words: seq<string>, i: nat)
    requires i < |ModelOf(words).starts|
    ensures exists p :: 0 <= p < |words| - 1 && Key(words[p], words[p + 1]) == ModelOf(words).starts[i].0
  {
    var starts := ModelOf(words).starts;
    assert Keys(starts)[i] == starts[i].0;
    StartKeys(words, Steps(words), starts[i].0);
  }
}
