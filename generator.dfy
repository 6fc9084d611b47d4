/** `markovText` and `markovTaggedText`: walks over the bigram tables, each step drawn with a
    weight proportional to its count. Each `Math.random()` value is supplied as a draw. */
module Generator {
  import opened Tables
  import opened Predicates
  import opened Tokenizer
  import opened Builder
  import opened Selection
  import opened Regex

  /** A value `Math.random()` can return. */
  predicate Draw(u: real) {
    0.0 <= u < 1.0
  }

  predicate Draws(us: seq<real>) {
    forall i :: 0 <= i < |us| ==> Draw(us[i])
  }

  /** Why a walk ended: the last bigram had no followers, the stopping rule held, or the
      supplied draws ran out before either. */
  datatype Stop = DeadEnd | Complete | OutOfDraws

  /** `text + (_needSpace(text, w) ? " " : "") + w`. */
  function Append(text: string, w: string): string {
    text + (if NeedSpace(text, w) then " " else "") + w
  }

  /** The text the tokens are joined into, one `Append` at a time. */
  function Render(tokens: seq<string>): string {
    if tokens == [] then "" else Append(Render(tokens[..|tokens| - 1]), tokens[|tokens| - 1])
  }

  /** `!_isTerminal(three) || text.length < targetLen`: the loop goes on after the last token. */
  predicate GoesOn(tokens: seq<string>, targetLen: nat)
    requires tokens != []
  {
    !IsTerminal(tokens[|tokens| - 1]) || |Render(tokens)| < targetLen
  }

  /** Something to start from: a positive total, and keys that split into two tokens. */
  predicate Startable(starts: Counts) {
    Total(starts) > 0 && forall i :: 0 <= i < |starts| ==> |Split(starts[i].0)| >= 2
  }

  /** The walk begins with the two tokens of the start bigram the draw `u` selects. */
  predicate Started(starts: Counts, tokens: seq<string>, u: real)
    requires Startable(starts) && Draw(u)
  {
    |tokens| >= 2 && tokens[..2] == Split(starts[Pick(starts, Scale(u, Total(starts)))].0)[..2]
  }

  /** Token `j` is the follower of the two before it that the draw `draws[j - 2]` selects. */
  predicate Followed(model: Model, tokens: seq<string>, draws: seq<real>, j: nat)
    requires 2 <= j < |tokens| && j - 2 < |draws| && Draws(draws)
  {
    var t := FollowersOf(model.followers, Key(tokens[j - 2], tokens[j - 1]));
    Total(t) > 0 && tokens[j] == t[Pick(t, Scale(draws[j - 2], Total(t)))].0
  }

  /** `Math.random() * total`, written as `total` additions of the draw so that it stays
      linear: a draw scaled by a positive total stays below it (`ScaleIsProduct` shows it is
      the product). */
  function Scale(u: real, total: nat): (n: real)
    ensures Draw(u) ==> 0.0 <= n && (total > 0 ==> n < total as real)
  {
    if total == 0 then 0.0 else Scale(u, total - 1) + u
  }

  lemma {:induction false} ScaleIsProduct(u: real, total: nat)
    ensures Scale(u, total) == u * total as real
  {
    if total > 0 {
      ScaleIsProduct(u, total - 1);
      assert u * total as real == u * (total - 1) as real + u;
    }
  }

  method ScaleDraw(u: real, total: nat) returns (n: real)
    requires Draw(u) && total > 0
    ensures n == Scale(u, total) && 0.0 <= n < total as real
  {
    n := u * total as real;
    ScaleIsProduct(u, total);
  }

  lemma AppendEmpty(w: string)
    ensures Append("", w) == w
  {
    NeedSpaceChars("", w);
  }

  lemma RenderTwo(a: string, b: string)
    ensures Render([a, b]) == Append(a, b)
  {
    assert [a, b][..1] == [a];
    assert [a][..0] == [];
    assert Render([a]) == Append(Render([]), a);
    AppendEmpty(a);
  }

  lemma RenderSnoc(tokens: seq<string>, w: string)
    ensures Render(tokens + [w]) == Append(Render(tokens), w)
  {
    assert (tokens + [w])[..|tokens|] == tokens;
  }

  /** The text only grows: every earlier rendering is a prefix of a later one. */
  lemma {:induction false} RenderPrefix(tokens: seq<string>, j: nat)
    requires j <= |tokens|
    ensures Render(tokens[..j]) <= Render(tokens)
    decreases |tokens| - j
  {
    if j < |tokens| {
      var init := tokens[..|tokens| - 1];
      assert init[..j] == tokens[..j];
      RenderPrefix(init, j);
      assert tokens[..|tokens|] == tokens;
    } else {
      assert tokens[..j] == tokens;
    }
  }

  /** The start selection of `markovText`: sum the start counts, draw, and split the
      selected key into the first two tokens. */
  method ChooseStart(starts: Counts, u: real) returns (one: string, two: string)
    requires Startable(starts) && Draw(u)
    ensures Started(starts, [one, two], u)
  {
    var startsTotal := SumCounts(starts);
    var startn := ScaleDraw(u, startsTotal);
    var found, si, _ := Scan(starts, startn);
    var start := Split(starts[si].0);
    one, two := start[0], start[1];
  }

  /** One follower draw of `markovText`'s loop: sum the followers of `k` and, unless there
      are none, draw one. */
  method ChooseFollower(model: Model, one: string, two: string, u: real) returns (ok: bool, three: string)
    requires Draw(u)
    ensures var t := FollowersOf(model.followers, Key(one, two));
      ok <==> Total(t) > 0
    ensures var t := FollowersOf(model.followers, Key(one, two));
      ok ==> three == t[Pick(t, Scale(u, Total(t)))].0
  {
    var k := Key(one, two);
    var t := FollowersOf(model.followers, k);
    var followersTotal := SumCounts(t);
    three := "";
    ok := followersTotal != 0;
    if ok {
      var n := ScaleDraw(u, followersTotal);
      var _, fi, _ := Scan(t, n);
      three := t[fi].0;
    }
  }

  /** The walk so far follows the tables: the start pair, then each token drawn from the
      followers of the two before it. */
  predicate Walked(model: Model, tokens: seq<string>, draws: seq<real>, startDraw: real)
    requires Startable(model.starts) && Draw(startDraw) && Draws(draws)
  {
    && Started(model.starts, tokens, startDraw) && |tokens| <= |draws| + 2
    && forall j :: 2 <= j < |tokens| ==> Followed(model, tokens, draws, j)
  }

  /** The stopping rule failed after every token before the last one, from the third on. */
  predicate WentOn(tokens: seq<string>, targetLen: nat) {
    forall j :: 3 <= j < |tokens| ==> GoesOn(tokens[..j], targetLen)
  }

  lemma WalkedSnoc(model: Model, tokens: seq<string>, draws: seq<real>, startDraw: real, three: string)
    requires Startable(model.starts) && Draw(startDraw) && Draws(draws)
    requires Walked(model, tokens, draws, startDraw) && |tokens| - 2 < |draws|
    requires var t := FollowersOf(model.followers, Key(tokens[|tokens| - 2], tokens[|tokens| - 1]));
      Total(t) > 0 && three == t[Pick(t, Scale(draws[|tokens| - 2], Total(t)))].0
    ensures Walked(model, tokens + [three], draws, startDraw)
  {
    var ts := tokens + [three];
    assert ts[..2] == tokens[..2];
    forall j | 2 <= j < |ts|
      ensures Followed(model, ts, draws, j)
    {
      assert ts[j - 2] == tokens[j - 2] && ts[j - 1] == tokens[j - 1];
      if j < |tokens| {
        assert Followed(model, tokens, draws, j);
        assert ts[j] == tokens[j];
      }
    }
  }

  lemma WentOnSnoc(tokens: seq<string>, w: string, targetLen: nat)
    requires WentOn(tokens, targetLen) && (|tokens| >= 3 ==> GoesOn(tokens, targetLen))
    ensures WentOn(tokens + [w], targetLen)
  {
    var ts := tokens + [w];
    forall j | 3 <= j < |ts|
      ensures GoesOn(ts[..j], targetLen)
    {
      assert ts[..j] == tokens[..j];
      if j == |tokens| {
        assert tokens[..j] == tokens;
      }
    }
  }

  /** Extend the text by one token, with a space in between when `NeedSpace` asks for one. */
  method AppendToken(text: string, three: string) returns (r: string)
    ensures r == Append(text, three)
  {
    var sp := if NeedSpace(text, three) then " " else "";
    r := text + sp + three;
  }

  /** The `do … while` test after a token: `!_isTerminal(three) || text.length < targetLen`. */
  method Continues(ghost tokens: seq<string>, three: string, text: string, targetLen: nat) returns (b: bool)
    requires tokens != [] && three == tokens[|tokens| - 1] && text == Render(tokens)
    ensures b == GoesOn(tokens, targetLen)
  {
    b := !IsTerminal(three) || |text| < targetLen;
  }

  /** `markovText(model, targetLen)`, with the first draw `startDraw` and one more draw from
      `draws` per generated token: the start pair, then each token drawn from the followers of
      the two before it, until a dead end or a terminal token once the text is long enough. */
  method MarkovText(model: Model, targetLen: nat, startDraw: real, draws: seq<real>)
    returns (tokens: seq<string>, text: string, stop: Stop)
    requires Startable(model.starts) && Draw(startDraw) && Draws(draws)
    ensures 2 <= |tokens| <= |draws| + 2
    ensures Started(model.starts, tokens, startDraw)
    ensures forall j :: 2 <= j < |tokens| ==> Followed(model, tokens, draws, j)
    ensures forall j :: 3 <= j < |tokens| ==> GoesOn(tokens[..j], targetLen)
    ensures text == Render(tokens)
    ensures stop == DeadEnd ==>
      Total(FollowersOf(model.followers, Key(tokens[|tokens| - 2], tokens[|tokens| - 1]))) == 0
    ensures stop == Complete <==> |tokens| >= 3 && !GoesOn(tokens, targetLen)
    ensures stop == OutOfDraws ==> |tokens| == |draws| + 2
  {
    var one, two := ChooseStart(model.starts, startDraw);
    text := AppendToken(one, two);
    tokens := [one, two];
    RenderTwo(one, two);
    stop := OutOfDraws;
    var i := 0;
    while i < |draws|
      invariant 0 <= i <= |draws| && |tokens| == i + 2
      invariant one == tokens[i] && two == tokens[i + 1]
      invariant Walked(model, tokens, draws, startDraw)
      invariant WentOn(tokens, targetLen) && (i > 0 ==> GoesOn(tokens, targetLen))
      invariant text == Render(tokens)
    {
      var ok, three := ChooseFollower(model, one, two, draws[i]);
      if !ok {
        stop := DeadEnd;
        return;
      }
      RenderSnoc(tokens, three);
      WalkedSnoc(model, tokens, draws, startDraw, three);
      WentOnSnoc(tokens, three, targetLen);
      text := AppendToken(text, three);
      tokens := tokens + [three];
      one, two := two, three;
      i := i + 1;
      var goesOn := Continues(tokens, three, text, targetLen);
      if !goesOn {
        stop := Complete;
        return;
      }
    }
  }
  // ---- Walks over a model built from tokens ----

  lemma StartPairOccurs(words: seq<string>, tokens: seq<string>, u: real)
    requires SpaceFree(words) && Startable(ModelOf(words).starts) && Draw(u)
    requires Started(ModelOf(words).starts, tokens, u)
    ensures PairIn(words, tokens[0], tokens[1])
  {
    var starts := ModelOf(words).starts;
    var i := Pick(starts, Scale(u, Total(starts)));
    StartEntryOccurs(words, i);
    var p :| 0 <= p < |words| - 1 && Key(words[p], words[p + 1]) == starts[i].0;
    SplitJoined(words[p], words[p + 1]);
    assert tokens[0] == tokens[..2][0] && tokens[1] == tokens[..2][1];
    assert words[p] == tokens[0] && words[p + 1] == tokens[1];
  }

  lemma StepOccurs(words: seq<string>, tokens: seq<string>, draws: seq<real>, j: nat)
    requires Draws(draws) && 2 <= j < |tokens| && j - 2 < |draws|
    requires Followed(ModelOf(words), tokens, draws, j)
    ensures exists p :: 0 <= p < Steps(words) && Key(words[p], words[p + 1]) == Key(tokens[j - 2], tokens[j - 1]) && words[p + 2] == tokens[j]
  {
    var t := FollowersOf(ModelOf(words).followers, Key(tokens[j - 2], tokens[j - 1]));
    FollowerEntryOccurs(words, Key(tokens[j - 2], tokens[j - 1]), Pick(t, Scale(draws[j - 2], Total(t))));
  }

  /** `a b` occurs in `words`. */
  predicate PairIn(words: seq<string>, a: string, b: string) {
    exists p :: 0 <= p < |words| - 1 && words[p] == a && words[p + 1] == b
  }

  /** `a b c` occurs in `words`. */
  predicate TripleIn(words: seq<string>, a: string, b: string, c: string) {
    exists p :: 0 <= p < |words| - 2 && words[p] == a && words[p + 1] == b && words[p + 2] == c
  }

  lemma TripleOccurs(words: seq<string>, tokens: seq<string>, draws: seq<real>, j: nat)
    requires Draws(draws) && 2 <= j < |tokens| && j - 2 < |draws|
    requires SpaceFree(words) && ' ' !in tokens[j - 2] && ' ' !in tokens[j - 1]
    requires Followed(ModelOf(words), tokens, draws, j)
    ensures TripleIn(words, tokens[j - 2], tokens[j - 1], tokens[j])
  {
    StepOccurs(words, tokens, draws, j);
    var p :| 0 <= p < Steps(words) && Key(words[p], words[p + 1]) == Key(tokens[j - 2], tokens[j - 1]) && words[p + 2] == tokens[j];
    KeyInjective(words[p], words[p + 1], tokens[j - 2], tokens[j - 1]);
    assert words[p] == tokens[j - 2] && words[p + 1] == tokens[j - 1] && words[p + 2] == tokens[j];
  }

  /** Every token of a walk over the model of space-free `words` is a token of `words`. */
  lemma WalkTokensSpaceFree(words: seq<string>, tokens: seq<string>, draws: seq<real>, u: real)
    requires SpaceFree(words) && Startable(ModelOf(words).starts) && Draw(u) && Draws(draws)
    requires Walked(ModelOf(words), tokens, draws, u)
    ensures SpaceFree(tokens)
  {
    StartPairOccurs(words, tokens, u);
    var p :| 0 <= p < |words| - 1 && words[p] == tokens[0] && words[p + 1] == tokens[1];
    forall j | 0 <= j < |tokens|
      ensures ' ' !in tokens[j]
    {
      if j == 0 {
        assert ' ' !in words[p];
      } else if j == 1 {
        assert ' ' !in words[p + 1];
      } else {
        assert Followed(ModelOf(words), tokens, draws, j);
        StepTokenSpaceFree(words, tokens, draws, j);
      }
    }
  }

  lemma StepTokenSpaceFree(words: seq<string>, tokens: seq<string>, draws: seq<real>, j: nat)
    requires Draws(draws) && 2 <= j < |tokens| && j - 2 < |draws|
    requires SpaceFree(words) && Followed(ModelOf(words), tokens, draws, j)
    ensures ' ' !in tokens[j]
  {
    StepOccurs(words, tokens, draws, j);
    var p :| 0 <= p < Steps(words) && Key(words[p], words[p + 1]) == Key(tokens[j - 2], tokens[j - 1]) && words[p + 2] == tokens[j];
    assert words[p + 2] == tokens[j];
  }

  /** A walk over the model of space-free tokens `words` stays inside `words`: the start pair
      is a bigram of `words` and every three consecutive tokens are a triple of `words`. */
  lemma WalkStaysInText(words: seq<string>, tokens: seq<string>, draws: seq<real>, u: real)
    requires SpaceFree(words) && Startable(ModelOf(words).starts) && Draw(u) && Draws(draws)
    requires Walked(ModelOf(words), tokens, draws, u)
    ensures PairIn(words, tokens[0], tokens[1])
    ensures forall j :: 2 <= j < |tokens| ==>
      TripleIn(words, tokens[j - 2], tokens[j - 1], tokens[j])
  {
    StartPairOccurs(words, tokens, u);
    WalkTokensSpaceFree(words, tokens, draws, u);
    forall j | 2 <= j < |tokens|
      ensures TripleIn(words, tokens[j - 2], tokens[j - 1], tokens[j])
    {
      assert Followed(ModelOf(words), tokens, draws, j);
      assert ' ' !in tokens[j - 2] && ' ' !in tokens[j - 1];
      TripleOccurs(words, tokens, draws, j);
    }
  }

  /** The tokens of every follower table are non-empty. */
  predicate FollowerTokensNonEmpty(model: Model) {
    forall e, g :: e in model.followers && g in e.1 ==> g.0 != ""
  }

  /** The model of three or more space-free, non-empty tokens can be walked: its start table has
      a positive total, its keys split back into two tokens, and no follower token is empty. */
  lemma ModelIsWalkable(words: seq<string>)
    requires SpaceFree(words) && |words| >= 3 && forall i :: 0 <= i < |words| ==> words[i] != ""
    ensures Startable(ModelOf(words).starts) && FollowerTokensNonEmpty(ModelOf(words))
  {
    var m := ModelOf(words);
    StartsShape(words);
    forall i | 0 <= i < |m.starts|
      ensures |Split(m.starts[i].0)| >= 2
    {
      StartEntryOccurs(words, i);
      var p :| 0 <= p < |words| - 1 && Key(words[p], words[p + 1]) == m.starts[i].0;
      SplitJoined(words[p], words[p + 1]);
    }
    ModelWellFormed(words);
    forall e, g | e in m.followers && g in e.1
      ensures g.0 != ""
    {
      var a :| 0 <= a < |m.followers| && m.followers[a] == e;
      var b :| 0 <= b < |e.1| && e.1[b] == g;
      GetPresent(m.followers, e.0, [], a);
      FollowerEntryOccurs(words, e.0, b);
    }
  }

  /** The model `markovModel` builds from any text with three tokens or more can be walked,
      whether the text is split as the source writes `_splitText` (`fixed` false, what
      `markovModel` runs) or with the corrections of `SplitText`. */
  lemma TextModelIsWalkable(fixed: bool, text: string)
    requires |Tokenize(Pipeline(fixed), text)| >= 3
    ensures var words := Tokenize(Pipeline(fixed), text);
      Startable(ModelOf(words).starts) && FollowerTokensNonEmpty(ModelOf(words)) && SpaceFree(words)
  {
    var words := Tokenize(Pipeline(fixed), text);
    TokensWellFormed(fixed, text);
    assert IsWhitespace(' ');
    forall i | 0 <= i < |words|
      ensures ' ' !in words[i]
    {
      assert words[i] in words;
    }
    ModelIsWalkable(words);
  }
  /** Every bigram of a walk but the last two tokens had followers. */
  lemma WalkedHasFollowers(model: Model, tokens: seq<string>, draws: seq<real>, u: real, j: nat)
    requires Startable(model.starts) && Draw(u) && Draws(draws)
    requires Walked(model, tokens, draws, u) && 2 <= j < |tokens|
    ensures Total(FollowersOf(model.followers, Key(tokens[j - 2], tokens[j - 1]))) > 0
  {
    assert Followed(model, tokens, draws, j);
  }

  /** The three tokens `A B C`: the model holds the one start `A B` and the one triple, so every
      walk is a prefix of `A B C` and stops there, the bigram `B C` having no followers. */
  lemma ThreeTokenWalk(tokens: seq<string>, draws: seq<real>, u: real)
    requires Draw(u) && Draws(draws)
    ensures ModelOf(["A", "B", "C"]) == Model([(Key("A", "B"), [("C", 1)])], [(Key("A", "B"), 1)])
    ensures Startable(ModelOf(["A", "B", "C"]).starts)
    ensures Total(FollowersOf(ModelOf(["A", "B", "C"]).followers, Key("B", "C"))) == 0
    ensures Walked(ModelOf(["A", "B", "C"]), tokens, draws, u) ==> tokens <= ["A", "B", "C"]
  {
    var words := ["A", "B", "C"];
    var m := ModelOf(words);
    assert Steps(words) == 1;
    assert m.followers == [(Key("A", "B"), [("C", 1)])];
    assert m.starts == [(Key("A", "B"), 1)];
    SplitJoined("A", "B");
    assert Split(m.starts[0].0) == ["A", "B"];
    assert Key("B", "C") != Key("A", "B");
    if Walked(m, tokens, draws, u) {
      assert tokens[..2] == ["A", "B"];
      assert tokens[0] == "A" && tokens[1] == "B";
      if |tokens| > 2 {
        assert Followed(m, tokens, draws, 2);
        var t := FollowersOf(m.followers, Key("A", "B"));
        assert t == [("C", 1)];
        assert tokens[2] == "C";
        assert tokens == ["A", "B", "C"][..|tokens|] by {
          if |tokens| > 3 {
            WalkedHasFollowers(m, tokens, draws, u, 3);
            assert false;
          }
        }
      } else {
        assert tokens == ["A", "B"];
      }
    }
  }

  // ---- `markovTaggedText`: several models walked as one ----

  /** The start tables of all models, in order. */
  function StartTables(models: seq<Model>): (ts: seq<Counts>)
    ensures |ts| == |models|
  {
    seq(|models|, m requires 0 <= m < |models| => models[m].starts)
  }

  /** The follower tables of the bigram keyed `k` in all models, in order; a model that has
      not seen `k` contributes an empty table. */
  function FollowerTables(models: seq<Model>, k: string): (ts: seq<Counts>)
    ensures |ts| == |models|
  {
    seq(|models|, m requires 0 <= m < |models| => FollowersOf(models[m].followers, k))
  }

  predicate PooledStartable(models: seq<Model>) {
    && 0 < PooledTotal(StartTables(models))
    && forall m, i :: 0 <= m < |models| && 0 <= i < |models[m].starts| ==> |Split(models[m].starts[i].0)| >= 2
  }

  predicate AllTokensNonEmpty(models: seq<Model>) {
    forall m :: 0 <= m < |models| ==> FollowerTokensNonEmpty(models[m])
  }

  /** The walk begins with the start bigram the draw `u` selects across all start tables, both
      tokens tagged with the number (from 1) of the model it came from. */
  predicate TaggedStart(models: seq<Model>, tokens: seq<string>, tags: seq<nat>, u: real)
    requires PooledStartable(models) && Draw(u)
  {
    var ts := StartTables(models);
    var p := PickPooled(ts, Scale(u, PooledTotal(ts)));
    var start := Split(ts[p.0][p.1].0);
    && |tokens| >= 2 && |tags| >= 2
    && tokens[0] == start[0] && tokens[1] == start[1] && tags[0] == tags[1] == p.0 + 1
  }

  /** The count of all followers of the bigram `a b` across the models. */
  function PooledFollowers(models: seq<Model>, a: string, b: string): nat {
    PooledTotal(FollowerTables(models, Key(a, b)))
  }

  /** No model has seen a follower of the bigram `a b`. */
  predicate Stuck(models: seq<Model>, a: string, b: string) {
    PooledFollowers(models, a, b) == 0
  }

  /** `three`, tagged `tag`, is the follower of the bigram `a b` that the draw `u` selects
      across the follower tables of all models; the tag is the number (from 1) of its model. */
  predicate TaggedStep(models: seq<Model>, a: string, b: string, u: real, three: string, tag: nat)
    requires Draw(u)
  {
    var ts := FollowerTables(models, Key(a, b));
    && PooledTotal(ts) > 0
    && var p := PickPooled(ts, Scale(u, PooledTotal(ts)));
      (three, tag) == (ts[p.0][p.1].0, p.0 + 1)
  }

  /** Token `j`, with its tag, is the follower of the two before it that `draws[j - 2]` selects. */
  predicate TaggedFollowed(models: seq<Model>, tokens: seq<string>, tags: seq<nat>, draws: seq<real>, j: nat)
    requires 2 <= j < |tokens| && |tags| == |tokens| && j - 2 < |draws| && Draws(draws)
  {
    TaggedStep(models, tokens[j - 2], tokens[j - 1], draws[j - 2], tokens[j], tags[j])
  }

  predicate TaggedWalked(models: seq<Model>, tokens: seq<string>, tags: seq<nat>, draws: seq<real>, u: real)
    requires PooledStartable(models) && Draw(u) && Draws(draws)
  {
    && TaggedStart(models, tokens, tags, u) && |tags| == |tokens| <= |draws| + 2
    && forall j :: 2 <= j < |tokens| ==> TaggedFollowed(models, tokens, tags, draws, j)
  }

  lemma FollowerTablesNonEmpty(models: seq<Model>, k: string)
    requires AllTokensNonEmpty(models)
    ensures var ts := FollowerTables(models, k);
      forall m: int, i: int :: 0 <= m < |ts| && 0 <= i < |ts[m]| ==> ts[m][i].0 != ""
  {
    var ts: seq<Counts> := FollowerTables(models, k);
    forall m: int, i: int | 0 <= m < |ts| && 0 <= i < |ts[m]|
      ensures ts[m][i].0 != ""
    {
      var t: Counts := ts[m];
      GetIn(models[m].followers, k, []);
      assert t[i] in t;
    }
  }

  /** The start selection of `markovTaggedText`: sum the start counts of all models, draw,
      find the model and the key, and tag both start tokens with the model's number. */
  method ChooseTaggedStart(models: seq<Model>, u: real) returns (one: string, two: string, tag: nat)
    requires PooledStartable(models) && Draw(u)
    ensures TaggedStart(models, [one, two], [tag, tag], u)
  {
    var ts := StartTables(models);
    var startsTotal := SumPooled(ts);
    var startn := ScaleDraw(u, startsTotal);
    var mi, si := SelectPooled(ts, startn);
    var start := Split(models[mi].starts[si].0);
    one, two, tag := start[0], start[1], mi + 1;
  }

  /** The follower search across models, which goes on while the token found so far is
      empty: with no empty token in any table it stops where the pooled pick lands. */
  method ScanTokens(ts: seq<Counts>, r: real) returns (three: string, mi: int)
    requires 0 < PooledTotal(ts) && r <= PooledTotal(ts) as real
    requires forall m: int, i: int :: 0 <= m < |ts| && 0 <= i < |ts[m]| ==> ts[m][i].0 != ""
    ensures 0 <= mi < |ts| && mi == PickPooled(ts, r).0 && three == ts[mi][PickPooled(ts, r).1].0
  {
    var n := r;
    three := "";
    mi := -1;
    LandsAtStart(ts, r);
    while |three| == 0 && mi + 1 < |ts|
      invariant -1 <= mi < |ts|
      invariant |three| == 0 ==> Lands(ts, mi + 1, n, PickPooled(ts, r))
      invariant |three| > 0 ==> 0 <= mi && mi == PickPooled(ts, r).0 && three == ts[mi][PickPooled(ts, r).1].0
      decreases |ts| - mi
    {
      mi := mi + 1;
      LandsStep(ts, mi, n, PickPooled(ts, r));
      var found, j;
      found, j, n := Scan(ts[mi], n);
      if found {
        three := ts[mi][j].0;
      }
    }
  }

  /** One follower draw of `markovTaggedText`'s loop: sum the followers of `k` over all
      models and, unless there are none, draw one and tag it with its model's number. */
  method ChooseTaggedFollower(models: seq<Model>, one: string, two: string, u: real)
    returns (ok: bool, three: string, tag: nat)
    requires AllTokensNonEmpty(models) && Draw(u)
    ensures ok <==> !Stuck(models, one, two)
    ensures ok ==> TaggedStep(models, one, two, u, three, tag)
  {
    var ts := FollowerTables(models, Key(one, two));
    var followersTotal := SumPooled(ts);
    ok := followersTotal != 0;
    three, tag := "", 0;
    if ok {
      var n := ScaleDraw(u, followersTotal);
      FollowerTablesNonEmpty(models, Key(one, two));
      var mi;
      three, mi := ScanTokens(ts, n);
      tag := mi + 1;
    }
  }

  lemma TaggedWalkedSnoc(models: seq<Model>, tokens: seq<string>, tags: seq<nat>, draws: seq<real>, u: real,
                          three: string, tag: nat)
    requires PooledStartable(models) && Draw(u) && Draws(draws)
    requires TaggedWalked(models, tokens, tags, draws, u) && |tokens| - 2 < |draws|
    requires TaggedStep(models, tokens[|tokens| - 2], tokens[|tokens| - 1], draws[|tokens| - 2], three, tag)
    ensures TaggedWalked(models, tokens + [three], tags + [tag], draws, u)
  {
    var ws, gs := tokens + [three], tags + [tag];
    assert ws[..2] == tokens[..2] && gs[..2] == tags[..2];
    forall j | 2 <= j < |ws|
      ensures TaggedFollowed(models, ws, gs, draws, j)
    {
      assert ws[j - 2] == tokens[j - 2] && ws[j - 1] == tokens[j - 1];
      if j < |tokens| {
        assert TaggedFollowed(models, tokens, tags, draws, j);
        assert ws[j] == tokens[j] && gs[j] == tags[j];
      }
    }
  }

  /** Each tag names a model that supplied its token: tag `g` is model `g - 1`, whose start
      table holds the start key, and whose follower table of the two tokens before a later
      token holds that token. */
  lemma {:induction false} TaggedProvenance(models: seq<Model>, tokens: seq<string>, tags: seq<nat>, draws: seq<real>, u: real)
    requires PooledStartable(models) && Draw(u) && Draws(draws)
    requires TaggedWalked(models, tokens, tags, draws, u)
    ensures 1 <= tags[0] <= |models|
    ensures exists e :: e in models[tags[0] - 1].starts && SplitsInto(e.0, tokens[0], tokens[1])
    ensures forall j :: 2 <= j < |tokens| ==>
      (1 <= tags[j] <= |models| &&
       HasKey(FollowersOf(models[tags[j] - 1].followers, Key(tokens[j - 2], tokens[j - 1])), tokens[j]))
  {
    StartProvenance(models, tokens, tags, u);
    forall j | 2 <= j < |tokens|
      ensures 1 <= tags[j] <= |models|
      ensures HasKey(FollowersOf(models[tags[j] - 1].followers, Key(tokens[j - 2], tokens[j - 1])), tokens[j])
    {
      assert TaggedFollowed(models, tokens, tags, draws, j);
      StepProvenance(models, tokens[j - 2], tokens[j - 1], draws[j - 2], tokens[j], tags[j]);
    }
  }

  lemma StartProvenance(models: seq<Model>, tokens: seq<string>, tags: seq<nat>, u: real)
    requires PooledStartable(models) && Draw(u) && TaggedStart(models, tokens, tags, u)
    ensures 1 <= tags[0] <= |models|
    ensures exists e :: e in models[tags[0] - 1].starts && SplitsInto(e.0, tokens[0], tokens[1])
  {
    var ts := StartTables(models);
    var p := PickPooled(ts, Scale(u, PooledTotal(ts)));
    assert ts[p.0] == models[p.0].starts;
    assert ts[p.0][p.1] in models[p.0].starts;
  }

  /** The key splits into `a`, `b` and possibly more. */
  predicate SplitsInto(key: string, a: string, b: string) {
    var s := Split(key);
    |s| >= 2 && s[0] == a && s[1] == b
  }

  lemma StepProvenance(models: seq<Model>, a: string, b: string, u: real, three: string, tag: nat)
    requires Draw(u) && TaggedStep(models, a, b, u, three, tag)
    ensures 1 <= tag <= |models| && HasKey(FollowersOf(models[tag - 1].followers, Key(a, b)), three)
  {
    var ts := FollowerTables(models, Key(a, b));
    var p := PickPooled(ts, Scale(u, PooledTotal(ts)));
    var t := ts[p.0];
    assert t == FollowersOf(models[p.0].followers, Key(a, b));
    assert Keys(t)[p.1] == three;
  }

  // ---- One model walked on its own ----

  lemma SingleStartable(m: Model)
    ensures PooledStartable([m]) <==> Startable(m.starts)
  {
    assert StartTables([m]) == [m.starts];
    PickPooledSingle(m.starts, 0.0);
  }

  /** Over one model a tagged step is a plain step, tagged 1. */
  lemma SingleStep(m: Model, a: string, b: string, u: real, three: string, tag: nat)
    requires Draw(u)
    ensures Stuck([m], a, b) <==> Total(FollowersOf(m.followers, Key(a, b))) == 0
    ensures TaggedStep([m], a, b, u, three, tag) <==>
      var t := FollowersOf(m.followers, Key(a, b));
      Total(t) > 0 && three == t[Pick(t, Scale(u, Total(t)))].0 && tag == 1
  {
    var t := FollowersOf(m.followers, Key(a, b));
    assert FollowerTables([m], Key(a, b)) == [t];
    PickPooledSingle(t, Scale(u, Total(t)));
  }

  /** `markovTaggedText([model], n)` walks as `markovText(model, n)` does: the same draws
      give the same tokens, every one tagged 1. */
  lemma {:induction false} TaggedOneModel(m: Model, tokens: seq<string>, tags: seq<nat>, draws: seq<real>, u: real)
    requires Startable(m.starts) && Draw(u) && Draws(draws) && |tags| == |tokens|
    ensures PooledStartable([m])
    ensures TaggedWalked([m], tokens, tags, draws, u) <==>
      Walked(m, tokens, draws, u) && forall j :: 0 <= j < |tags| ==> tags[j] == 1
  {
    SingleStartable(m);
    var st := m.starts;
    assert StartTables([m]) == [st];
    PickPooledSingle(st, Scale(u, Total(st)));
    var start := Split(st[Pick(st, Scale(u, Total(st)))].0);
    assert |start| >= 2;
    if |tokens| >= 2 {
      assert Started(st, tokens, u) <==> tokens[0] == start[0] && tokens[1] == start[1];
    }
    forall j | 2 <= j < |tokens| && j - 2 < |draws|
      ensures TaggedFollowed([m], tokens, tags, draws, j) <==> Followed(m, tokens, draws, j) && tags[j] == 1
    {
      SingleStep(m, tokens[j - 2], tokens[j - 1], draws[j - 2], tokens[j], tags[j]);
    }
  }

  // ---- The tagged text: every token wrapped in a span naming its model ----

  /** `_needSpace(text, w) ? " " : ""`: what `Append` puts between the text and the token. */
  function Gap(text: string, w: string): string {
    if NeedSpace(text, w) then " " else ""
  }

  /** The token `w` in the span whose class `tag1`, `tag2`, ... names the model it came from. */
  function Span(tag: nat, w: string): string {
    "<span class='tag" + NatText(tag) + "'>" + w + "</span>"
  }

  /** Every token in the span of its tag. */
  function Spans(tokens: seq<string>, tags: seq<nat>): (ps: seq<string>)
    requires |tags| == |tokens|
    ensures |ps| == |tokens|
    decreases |tokens|
  {
    if tokens == [] then []
    else
      var n := |tokens| - 1;
      Spans(tokens[..n], tags[..n]) + [Span(tags[n], tokens[n])]
  }

  /** Span `j` wraps token `j` in the span of tag `j`. */
  lemma {:induction false} SpansAt(tokens: seq<string>, tags: seq<nat>, j: nat)
    requires |tags| == |tokens| && j < |tokens|
    ensures Spans(tokens, tags)[j] == Span(tags[j], tokens[j])
    decreases |tokens|
  {
    var n := |tokens| - 1;
    if j < n {
      SpansAt(tokens[..n], tags[..n], j);
    }
  }

  /** The tokens joined with the gaps `Append` puts between them, token `j` written as
      `pieces[j]`. */
  function Joined(tokens: seq<string>, pieces: seq<string>): string
    requires |pieces| == |tokens|
  {
    if tokens == [] then ""
    else
      var n := |tokens| - 1;
      Joined(tokens[..n], pieces[..n]) + Gap(Render(tokens[..n]), tokens[n]) + pieces[n]
  }

  /** The HTML `markovTaggedText` returns. */
  function TaggedRender(tokens: seq<string>, tags: seq<nat>): string
    requires |tags| == |tokens|
  {
    Joined(tokens, Spans(tokens, tags))
  }

  /** The plain text is the same join with every token written as itself: the tagged text
      differs from it only in the spans around the tokens. */
  lemma {:induction false} RenderIsJoined(tokens: seq<string>)
    ensures Render(tokens) == Joined(tokens, tokens)
    decreases |tokens|
  {
    if tokens != [] {
      var n := |tokens| - 1;
      RenderIsJoined(tokens[..n]);
    }
  }

  lemma JoinedSnoc(tokens: seq<string>, pieces: seq<string>, w: string, p: string)
    requires |pieces| == |tokens|
    ensures Joined(tokens + [w], pieces + [p]) == Joined(tokens, pieces) + Gap(Render(tokens), w) + p
  {
    var ts, ps := tokens + [w], pieces + [p];
    assert ts[..|tokens|] == tokens && ps[..|tokens|] == pieces;
  }

  lemma SpansSnoc(tokens: seq<string>, tags: seq<nat>, w: string, g: nat)
    requires |tags| == |tokens|
    ensures Spans(tokens + [w], tags + [g]) == Spans(tokens, tags) + [Span(g, w)]
  {
    var ts, gs := tokens + [w], tags + [g];
    assert ts[..|tokens|] == tokens && gs[..|tokens|] == tags;
  }

  lemma TaggedRenderSnoc(tokens: seq<string>, tags: seq<nat>, w: string, g: nat)
    requires |tags| == |tokens|
    ensures TaggedRender(tokens + [w], tags + [g]) == TaggedRender(tokens, tags) + Gap(Render(tokens), w) + Span(g, w)
  {
    SpansSnoc(tokens, tags, w, g);
    JoinedSnoc(tokens, Spans(tokens, tags), w, Span(g, w));
  }

  lemma GapEmpty(w: string)
    ensures Gap("", w) == ""
  {
    NeedSpaceChars("", w);
  }

  lemma TaggedRenderOne(w: string, g: nat)
    ensures TaggedRender([w], [g]) == Span(g, w)
  {
    TaggedRenderSnoc([], [], w, g);
    GapEmpty(w);
    assert [] + [w] == [w] && [] + [g] == [g];
  }

  lemma TaggedRenderTwo(one: string, two: string, tag: nat)
    ensures TaggedRender([one, two], [tag, tag]) == Span(tag, one) + Gap(one, two) + Span(tag, two)
  {
    TaggedRenderOne(one, tag);
    TaggedRenderSnoc([one], [tag], two, tag);
    assert [one] + [two] == [one, two] && [tag] + [tag] == [tag, tag];
    RenderOne(one);
  }

  lemma RenderOne(w: string)
    ensures Render([w]) == w
  {
    assert [w][..0] == [];
    AppendEmpty(w);
  }

  /** One step of the tagged text: the gap the plain text gets, then the new token in its span. */
  method AppendSpan(html: string, text: string, three: string, tag: nat) returns (r: string)
    ensures r == html + Gap(text, three) + Span(tag, three)
  {
    var sp := if NeedSpace(text, three) then " " else "";
    r := html + sp + Span(tag, three);
  }

  /** One more token keeps the walk's invariants: a tagged walk, the stopping rule failed
      before it, and the text rendered from the tokens. */
  lemma TaggedAdvance(models: seq<Model>, targetLen: nat, draws: seq<real>, u: real,
                      tokens: seq<string>, tags: seq<nat>, text: string, three: string, tag: nat)
    requires PooledStartable(models) && Draw(u) && Draws(draws)
    requires TaggedWalked(models, tokens, tags, draws, u) && |tokens| - 2 < |draws|
    requires WentOn(tokens, targetLen) && (|tokens| > 2 ==> GoesOn(tokens, targetLen))
    requires text == Render(tokens)
    requires TaggedStep(models, tokens[|tokens| - 2], tokens[|tokens| - 1], draws[|tokens| - 2], three, tag)
    ensures TaggedWalked(models, tokens + [three], tags + [tag], draws, u)
    ensures WentOn(tokens + [three], targetLen)
    ensures Append(text, three) == Render(tokens + [three])
  {
    RenderSnoc(tokens, three);
    TaggedWalkedSnoc(models, tokens, tags, draws, u, three, tag);
    WentOnSnoc(tokens, three, targetLen);
  }

  /** `markovTaggedText(models, targetLen)`: the walk of `MarkovText` over all models at once,
      with counts summed across models and scanned model by model in order, each token tagged
      with the number of the model it was drawn from. The text that decides when to stop is
      returned beside the tokens and their tags. */
  method MarkovTaggedText(models: seq<Model>, targetLen: nat, startDraw: real, draws: seq<real>)
    returns (tokens: seq<string>, tags: seq<nat>, text: string, html: string, stop: Stop)
    requires PooledStartable(models) && AllTokensNonEmpty(models) && Draw(startDraw) && Draws(draws)
    ensures 2 <= |tokens| <= |draws| + 2 && |tags| == |tokens|
    ensures TaggedStart(models, tokens, tags, startDraw)
    ensures forall j :: 2 <= j < |tokens| ==> TaggedFollowed(models, tokens, tags, draws, j)
    ensures forall j :: 3 <= j < |tokens| ==> GoesOn(tokens[..j], targetLen)
    ensures text == Render(tokens)
    ensures html == TaggedRender(tokens, tags)
    ensures stop == DeadEnd ==> Stuck(models, tokens[|tokens| - 2], tokens[|tokens| - 1])
    ensures stop == Complete <==> |tokens| >= 3 && !GoesOn(tokens, targetLen)
    ensures stop == OutOfDraws ==> |tokens| == |draws| + 2
  {
    var one, two, tag := ChooseTaggedStart(models, startDraw);
    text := AppendToken(one, two);
    tokens, tags := [one, two], [tag, tag];
    html := AppendSpan(Span(tag, one), one, two, tag);
    RenderTwo(one, two);
    TaggedRenderTwo(one, two, tag);
    stop := OutOfDraws;
    var i := 0;
    while i < |draws|
      invariant 0 <= i <= |draws| && |tokens| == i + 2
      invariant one == tokens[i] && two == tokens[i + 1]
      invariant TaggedWalked(models, tokens, tags, draws, startDraw)
      invariant WentOn(tokens, targetLen) && (i > 0 ==> GoesOn(tokens, targetLen))
      invariant text == Render(tokens) && html == TaggedRender(tokens, tags)
    {
      var ok, three, t := ChooseTaggedFollower(models, one, two, draws[i]);
      if !ok {
        assert Stuck(models, tokens[|tokens| - 2], tokens[|tokens| - 1]);
        stop := DeadEnd;
        return;
      }
      TaggedAdvance(models, targetLen, draws, startDraw, tokens, tags, text, three, t);
      TaggedRenderSnoc(tokens, tags, three, t);
      html := AppendSpan(html, text, three, t);
      text := AppendToken(text, three);
      tokens, tags := tokens + [three], tags + [t];
      one, two := two, three;
      i := i + 1;
      var goesOn := Continues(tokens, three, text, targetLen);
      if !goesOn {
        stop := Complete;
        return;
      }
    }
  }
}
