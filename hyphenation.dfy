/** Hyphenated words and contractions survive `_splitText` as single tokens: the spacing pass
    splits `well-known` into `well - known` and the rejoining pass puts it back together. */
module Hyphenation {
  import opened Regex
  import opened Tokenizer

  predicate IsAlnum(c: char) {
    ('a' <= c <= 'z') || ('A' <= c <= 'Z') || ('0' <= c <= '9')
  }

  /** A non-empty run of letters and digits (no underscore, so no placeholder can occur in it). */
  predicate AlnumWord(u: string) {
    u != [] && forall i :: 0 <= i < |u| ==> IsAlnum(u[i])
  }

  /** What the tokenizer makes of the joining mark: `'` becomes the apostrophe `’`. */
  function JoinMark(c: char): char {
    if c == '\'' then RightSingle else c
  }

  /** The padded text `" " + u + d + v + " "`. */
  function Padded(u: string, d: char, v: string): string {
    " " + u + [d] + v + " "
  }

  lemma NoWhitespaceUnchanged(w: string)
    requires forall i :: 0 <= i < |w| ==> !IsWhitespace(w[i])
    ensures Trim(w) == w && Rewrite(Whitespace, w) == w
  {
    forall i | 0 <= i < |w|
      ensures MatchLength(Whitespace, w[i..]) == 0
    {
      assert w[i..][0] == w[i];
    }
    RewriteUnchanged(Whitespace, w);
    assert TrimStart(w) == w;
  }

  lemma PrepareWord(w: string)
    requires forall i :: 0 <= i < |w| ==> !IsWhitespace(w[i])
    ensures Prepare(w) == " " + w + " "
  {
    NoWhitespaceUnchanged(w);
  }

  lemma FinishWord(w: string)
    requires w != [] && forall i :: 0 <= i < |w| ==> !IsWhitespace(w[i])
    ensures Finish(" " + w + " ") == [w]
  {
    var p := " " + w + " ";
    assert p[1..] == w + " ";
    assert TrimStart(p) == TrimStart(w + " ");
    assert TrimStart(w + " ") == w + " ";
    assert (w + " ")[..|w|] == w;
    assert TrimEnd(w + " ") == TrimEnd(w);
    NoWhitespaceUnchanged(w);
    assert forall i :: 0 <= i < |w| ==> w[i] != ' ';
    SplitNoSpace(w);
  }

  lemma {:induction false} AbbrevPatternHasDot(a: string, escapeAll: bool)
    requires '.' in a
    ensures exists j :: 0 <= j < |AbbrevPattern(a, escapeAll, false)| && AbbrevPattern(a, escapeAll, false)[j] == Char('.')
    decreases |a|
  {
    if a[0] == '.' {
      assert AbbrevPattern(a, escapeAll, false)[0] == Char('.');
    } else {
      assert '.' in a[1..] by {
        var k :| 0 <= k < |a| && a[k] == '.';
        assert a[1..][k - 1] == '.';
      }
      AbbrevPatternHasDot(a[1..], escapeAll);
      var j :| 0 <= j < |AbbrevPattern(a[1..], escapeAll, false)| && AbbrevPattern(a[1..], escapeAll, false)[j] == Char('.');
      assert AbbrevPattern(a, escapeAll, false)[j + 1] == Char('.');
    }
  }

  /** Text without a `.` contains no abbreviation. */
  lemma {:induction false} EscapesWithoutDot(nt: nat, escapeAll: bool, s: string)
    requires nt <= |Abbrevs| && '.' !in s
    ensures ApplyAll(EscapeRules(nt, escapeAll), s) == s
    decreases |Abbrevs| - nt
  {
    if nt < |Abbrevs| {
      var a := Abbrevs[nt];
      assert '.' in a by {
        assert nt == 0 || nt == 1 || nt == 2 || nt == 3 || nt == 4 || nt == 5 || nt == 6;
        assert a[|a| - 1] == '.';
      }
      AbbrevPatternHasDot(a, escapeAll);
      var ks := AbbrevPattern(a, escapeAll, false);
      var j :| 0 <= j < |ks| && ks[j] == Char('.');
      RewriteAbsent(ks, [Lit(Placeholder(nt))], j, s);
      EscapesWithoutDot(nt + 1, escapeAll, s);
    }
  }

  /** Text without `_` contains no placeholder. */
  lemma {:induction false} RestoresWithoutUnderscore(nt: nat, s: string)
    requires nt <= |Abbrevs| && '_' !in s
    ensures ApplyAll(RestoreRules(nt), s) == s
    decreases |Abbrevs| - nt
  {
    if nt < |Abbrevs| {
      var p := Placeholder(nt);
      assert p[0] == '_';
      assert Literal(p)[0] == Char('_');
      RewriteAbsent(Literal(p), [Lit(Abbrevs[nt])], 0, s);
      RestoresWithoutUnderscore(nt + 1, s);
    }
  }

  lemma PaddedChars(u: string, d: char, v: string)
    ensures var x := Padded(u, d, v);
      && |x| == |u| + |v| + 3 && x[0] == ' ' && x[|x| - 1] == ' ' && x[|u| + 1] == d
      && (forall i :: 1 <= i <= |u| ==> x[i] == u[i - 1])
      && (forall i :: |u| + 2 <= i < |u| + |v| + 2 ==> x[i] == v[i - |u| - 2])
  {
  }

  lemma PaddedLacks(u: string, d: char, v: string, ch: char)
    requires AlnumWord(u) && AlnumWord(v) && !IsAlnum(ch) && ch != ' ' && ch != d
    ensures ch !in Padded(u, d, v)
  {
    PaddedChars(u, d, v);
    var x := Padded(u, d, v);
    forall i | 0 <= i < |x|
      ensures x[i] != ch
    {
      if 1 <= i <= |u| {
        assert IsAlnum(u[i - 1]);
      } else if |u| + 2 <= i < |u| + |v| + 2 {
        assert IsAlnum(v[i - |u| - 2]);
      }
    }
  }

  /** Every adjacent pair of a padded word pair involves a letter or digit. */
  lemma MarkNeighbours(u: string, d: char, v: string, a: Class, b: Class)
    requires AlnumWord(u) && AlnumWord(v)
    requires forall c :: IsAlnum(c) ==> !InClass(a, c) && !InClass(b, c)
    ensures NoPair(Padded(u, d, v), a, b)
  {
    PaddedChars(u, d, v);
    var x := Padded(u, d, v);
    forall i | 0 <= i < |x| - 1
      ensures !(InClass(a, x[i]) && InClass(b, x[i + 1]))
    {
      if 1 <= i <= |u| {
        assert IsAlnum(u[i - 1]);
      } else if |u| + 2 <= i < |u| + |v| + 2 {
        assert IsAlnum(v[i - |u| - 2]);
      }
      if i + 1 <= |u| {
        assert IsAlnum(u[i]);
      } else if |u| + 2 <= i + 1 < |u| + |v| + 2 {
        assert IsAlnum(v[i + 1 - |u| - 2]);
      }
    }
  }

  /** The quote, apostrophe, ellipsis and em-dash replacements: the first seven of `Normalize`. */
  function QuoteRules(fixed: bool): seq<Rule> {
    [OpenSingle, CloseSingle, if fixed then OpenDouble else OpenDoubleAsWritten, CloseDouble, Apostrophe,
     ThreeDots, TwoHyphens]
  }

  /** The quote replacements up to the apostrophe, then the ellipsis and em-dash ones. */
  lemma QuoteRulesApostrophe(x: string, y: string, fixed: bool)
    requires Rewrite(OpenSingle, x) == x && Rewrite(CloseSingle, x) == x
    requires Rewrite(QuoteRules(fixed)[2], x) == x && Rewrite(CloseDouble, x) == x
    requires Rewrite(Apostrophe, x) == y && Rewrite(ThreeDots, y) == y && Rewrite(TwoHyphens, y) == y
    ensures ApplyAll(QuoteRules(fixed), x) == y
  {
    var rules := QuoteRules(fixed);
    forall k | 0 <= k < 4
      ensures Rewrite(rules[..4][k], x) == x
    {
      if k == 0 { assert rules[k] == OpenSingle; }
      else if k == 1 { assert rules[k] == CloseSingle; }
      else if k == 3 { assert rules[k] == CloseDouble; }
    }
    ApplyAllFixed(rules[..4], x);
    forall k | 0 <= k < 2
      ensures Rewrite(rules[5..][k], y) == y
    {
      if k == 0 { assert rules[5..][k] == ThreeDots; }
      else { assert rules[5..][k] == TwoHyphens; }
    }
    ApplyAllFixed(rules[5..], y);
    assert rules == rules[..4] + [Apostrophe] + rules[5..];
    ApplyAllAppend(rules[..4] + [Apostrophe], rules[5..], x);
    ApplyAllAppend(rules[..4], [Apostrophe], x);
  }

  /** On text with no double quote, no `.`, no `--` and no quote-like `'`, the first seven
      replacements only turn each `'` into `’`. */
  lemma QuoteRulesMapApostrophes(x: string, fixed: bool)
    requires '"' !in x && '.' !in x && NoPair(x, Char('-'), Char('-'))
    requires NoPair(x, OneOf(" (["), Char('\''))
    requires NoPair(x, Char('\''), OneOf(" )]"))
    ensures ApplyAll(QuoteRules(fixed), x) == MapChar(x, '\'', RightSingle)
  {
    var od := QuoteRules(fixed)[2];
    RewritePairAbsent(OneOf(" (["), Char('\''), OpenSingle.template, x);
    RewritePairAbsent(Char('\''), OneOf(" )]"), CloseSingle.template, x);
    RewriteAbsent(od.classes, od.template, 1, x);
    RewriteAbsent(CloseDouble.classes, CloseDouble.template, 0, x);
    var y := MapChar(x, '\'', RightSingle);
    RewriteCharMap('\'', RightSingle, x);
    MapKeepsDotsAndHyphens(x);
    RewriteAbsent(ThreeDots.classes, ThreeDots.template, 0, y);
    RewritePairAbsent(Char('-'), Char('-'), TwoHyphens.template, y);
    QuoteRulesApostrophe(x, y, fixed);
  }

  /** Turning `'` into `’` brings in no `.` and no `--`. */
  lemma MapKeepsDotsAndHyphens(x: string)
    requires '.' !in x && NoPair(x, Char('-'), Char('-'))
    ensures '.' !in MapChar(x, '\'', RightSingle) && NoPair(MapChar(x, '\'', RightSingle), Char('-'), Char('-'))
  {
    var y := MapChar(x, '\'', RightSingle);
    forall i | 0 <= i < |y|
      ensures y[i] != '.'
    {
      assert x[i] in x;
    }
  }

  lemma MapPadded(u: string, c: char, v: string)
    requires AlnumWord(u) && AlnumWord(v) && (c == '-' || c == '\'')
    ensures MapChar(Padded(u, c, v), '\'', RightSingle) == Padded(u, JoinMark(c), v)
  {
    PaddedChars(u, c, v);
    PaddedChars(u, JoinMark(c), v);
    var x := Padded(u, c, v);
    var y := MapChar(x, '\'', RightSingle);
    var z := Padded(u, JoinMark(c), v);
    forall i | 0 <= i < |x|
      ensures y[i] == z[i]
    {
      if 1 <= i <= |u| {
        assert IsAlnum(u[i - 1]);
      } else if |u| + 2 <= i < |u| + |v| + 2 {
        assert IsAlnum(v[i - |u| - 2]);
      }
    }
  }

  /** The quote, ellipsis and em-dash replacements on a padded word pair. */
  lemma QuoteSteps(u: string, c: char, v: string, fixed: bool)
    requires AlnumWord(u) && AlnumWord(v) && (c == '-' || c == '\'')
    ensures ApplyAll(Normalize(fixed)[..7], Padded(u, c, v)) == Padded(u, JoinMark(c), v)
  {
    assert Normalize(fixed)[..7] == QuoteRules(fixed);
    PaddedLacks(u, c, v, '"');
    PaddedLacks(u, c, v, '.');
    MarkNeighbours(u, c, v, Char('-'), Char('-'));
    MarkNeighbours(u, c, v, OneOf(" (["), Char('\''));
    MarkNeighbours(u, c, v, Char('\''), OneOf(" )]"));
    QuoteRulesMapApostrophes(Padded(u, c, v), fixed);
    MapPadded(u, c, v);
  }

  lemma ExpandRejoin(s: string)
    requires |s| >= 5
    ensures Expand([Group(0), Group(2), Group(4)], s) == [s[0], s[2], s[4]]
  {
    ExpandThree(Group(0), Group(2), Group(4), s);
    assert [s[0]] + [s[2]] + [s[4]] == [s[0], s[2], s[4]];
  }

  /** At a space followed by a stretch without spaces, the rejoining replacement does not
      match before the next character that is not a space. */
  lemma RejoinSkipPrefix(p: string, rest: string)
    requires p != [] && p[0] == ' ' && (forall i :: 1 <= i < |p| ==> p[i] != ' ')
    requires rest != [] && rest[0] != ' '
    ensures Rewrite(Rejoin, p + rest) == p + Rewrite(Rejoin, rest)
  {
    var s := p + rest;
    var ks := Rejoin.classes;
    forall i | 0 <= i < |p|
      ensures MatchLength(Rejoin, s[i..]) == 0
    {
      if i == 0 {
        NoMatchAt(ks, Rejoin.template, s, i, 0);
      } else {
        assert s[i + 1] != ' ';
        NoMatchAt(ks, Rejoin.template, s, i, 1);
      }
    }
    RewriteSkip(Rejoin, s, |p|);
    assert s[..|p|] == p && s[|p|..] == rest;
  }

  /** `a - b` (or `a ’ b`) between word characters is joined to `a-b`. */
  lemma RejoinMatch(a: char, d: char, b: char, t: string)
    requires IsWordChar(a) && IsWordChar(b) && (d == '-' || d == RightSingle)
    ensures Rewrite(Rejoin, [a, ' ', d, ' ', b] + t) == [a, d, b] + Rewrite(Rejoin, t)
  {
    var m := [a, ' ', d, ' ', b] + t;
    assert MatchesAt(Rejoin.classes, m);
    RewriteAtMatch(Rejoin, m);
    ExpandRejoin(m);
    assert m[5..] == t;
  }

  /** Text whose only space is its last character holds no `a - b`. */
  lemma RejoinNone(t: string)
    requires forall i :: 0 <= i < |t| - 1 ==> t[i] != ' '
    ensures Rewrite(Rejoin, t) == t
  {
    forall i | 0 <= i < |t|
      ensures MatchLength(Rejoin, t[i..]) == 0
    {
      NoMatchAt(Rejoin.classes, Rejoin.template, t, i, 1);
    }
    RewriteUnchanged(Rejoin, t);
  }

  /** The four rules after the quotes, each step given, compose to the identity. */
  lemma SpacingChain(rules: seq<Rule>, y: string, z: string, w: string)
    requires rules == [SpaceWordPunct, SpacePunctPunct, SpacePunctWord, Rejoin]
    requires Rewrite(SpaceWordPunct, y) == z && Rewrite(SpacePunctPunct, z) == z
    requires Rewrite(SpacePunctWord, z) == w && Rewrite(Rejoin, w) == y
    ensures ApplyAll(rules, y) == y
  {
    var r1 := rules[1..];
    var r2 := r1[1..];
    var r3 := r2[1..];
    assert r3 == [Rejoin] && r3[1..] == [];
    assert ApplyAll(r3, w) == y;
    assert ApplyAll(r2, z) == y;
    assert ApplyAll(r1, z) == y;
  }

  /** No two characters of class `Punct` are adjacent when only position `k` can hold one. */
  lemma SinglePunct(z: string, k: int)
    requires forall i :: 0 <= i < |z| && i != k ==> !IsPunct(z[i])
    ensures NoPair(z, Punct, Punct)
  {
  }

  /** `u d v` padded, with a space before the mark, and with spaces on both sides of it. */
  function SpacedBefore(u: string, d: char, v: string): string {
    " " + u + " " + [d] + v + " "
  }

  function SpacedAround(u: string, d: char, v: string): string {
    " " + u + " " + [d] + " " + v + " "
  }

  /** `u` + `d`: a space goes between the last letter of `u` and the mark. */
  lemma SpaceBeforeMark(u: string, d: char, v: string)
    requires AlnumWord(u) && AlnumWord(v) && IsPunct(d)
    ensures Rewrite(SpaceWordPunct, Padded(u, d, v)) == SpacedBefore(u, d, v)
  {
    var n := |u|;
    var p := " " + u[..n - 1];
    assert Padded(u, d, v) == p + [u[n - 1], d] + (v + " ");
    assert p + [u[n - 1]] == " " + u;
    SplitPairOnce(Word, Punct, p, u[n - 1], d, v + " ");
    assert p + [u[n - 1], ' ', d] + (v + " ") == SpacedBefore(u, d, v);
  }

  /** The mark is the only punctuation character, so no two are adjacent. */
  lemma OnePunctPair(u: string, d: char, v: string)
    requires AlnumWord(u) && AlnumWord(v)
    ensures Rewrite(SpacePunctPunct, SpacedBefore(u, d, v)) == SpacedBefore(u, d, v)
  {
    var z := SpacedBefore(u, d, v);
    var n := |u|;
    assert forall i :: 1 <= i <= n ==> z[i] == u[i - 1];
    assert forall i :: n + 3 <= i < |z| - 1 ==> z[i] == v[i - n - 3];
    SinglePunct(z, n + 2);
    RewritePairAbsent(Punct, Punct, SpacePunctPunct.template, z);
  }

  /** `d` + `v`: a space goes between the mark and the first letter of `v`. */
  lemma SpaceAfterMark(u: string, d: char, v: string)
    requires AlnumWord(u) && AlnumWord(v) && IsPunct(d)
    ensures Rewrite(SpacePunctWord, SpacedBefore(u, d, v)) == SpacedAround(u, d, v)
  {
    var p := " " + u + " ";
    assert SpacedBefore(u, d, v) == p + [d, v[0]] + (v[1..] + " ");
    assert forall i :: 1 <= i <= |u| ==> (p + [d])[i] == u[i - 1];
    SplitPairOnce(Punct, Word, p, d, v[0], v[1..] + " ");
    assert p + [d, ' ', v[0]] + (v[1..] + " ") == SpacedAround(u, d, v);
  }

  /** `u - v` is joined again. */
  lemma RejoinAround(u: string, d: char, v: string)
    requires AlnumWord(u) && AlnumWord(v) && (d == '-' || d == RightSingle)
    ensures Rewrite(Rejoin, SpacedAround(u, d, v)) == Padded(u, d, v)
  {
    var n := |u|;
    AroundParts(u, d, v);
    RejoinParts(" " + u[..n - 1], u[n - 1], d, v[0], v[1..] + " ");
  }

  /** `SpacedAround` and `Padded` split at the last letter of `u` and the first of `v`. */
  lemma AroundParts(u: string, d: char, v: string)
    requires AlnumWord(u) && AlnumWord(v)
    ensures var p, a, b, t := " " + u[..|u| - 1], u[|u| - 1], v[0], v[1..] + " ";
      && SpacedAround(u, d, v) == p + ([a, ' ', d, ' ', b] + t)
      && Padded(u, d, v) == p + ([a, d, b] + t)
      && p != [] && p[0] == ' ' && (forall i :: 1 <= i < |p| ==> IsAlnum(p[i]))
      && IsAlnum(a) && IsAlnum(b) && (forall i :: 0 <= i < |t| - 1 ==> IsAlnum(t[i]))
  {
    var p, t := " " + u[..|u| - 1], v[1..] + " ";
    assert forall i :: 1 <= i < |p| ==> p[i] == u[i - 1];
    assert forall i :: 0 <= i < |t| - 1 ==> t[i] == v[i + 1];
  }

  lemma RejoinParts(p: string, a: char, d: char, b: char, t: string)
    requires p != [] && p[0] == ' ' && (forall i :: 1 <= i < |p| ==> IsAlnum(p[i]))
    requires IsAlnum(a) && IsAlnum(b) && (d == '-' || d == RightSingle)
    requires forall i :: 0 <= i < |t| - 1 ==> IsAlnum(t[i])
    ensures Rewrite(Rejoin, p + ([a, ' ', d, ' ', b] + t)) == p + ([a, d, b] + t)
  {
    RejoinSkipPrefix(p, [a, ' ', d, ' ', b] + t);
    RejoinMatch(a, d, b, t);
    RejoinNone(t);
  }

  /** Spacing then rejoining gives a padded `u d v` back unchanged, for `d` a hyphen or `’`. */
  lemma SpacingThenRejoin(u: string, d: char, v: string, fixed: bool)
    requires AlnumWord(u) && AlnumWord(v) && (d == '-' || d == RightSingle)
    ensures ApplyAll(Normalize(fixed)[7..], Padded(u, d, v)) == Padded(u, d, v)
  {
    SpaceBeforeMark(u, d, v);
    OnePunctPair(u, d, v);
    SpaceAfterMark(u, d, v);
    RejoinAround(u, d, v);
    SpacingChain(Normalize(fixed)[7..], Padded(u, d, v), SpacedBefore(u, d, v), SpacedAround(u, d, v));
  }

  /** Four stretches of replacements, each with its effect given, composed. */
  lemma ChainFour(a: seq<Rule>, b: seq<Rule>, c: seq<Rule>, d: seq<Rule>, x: string, y: string)
    requires ApplyAll(a, x) == x && ApplyAll(b, x) == y && ApplyAll(c, y) == y && ApplyAll(d, y) == y
    ensures ApplyAll(a + (b + c) + d, x) == y
  {
    ApplyAllAppend(a + (b + c), d, x);
    ApplyAllAppend(a, b + c, x);
    ApplyAllAppend(b, c, x);
  }

  /** The whole chain of replacements, each stretch given. */
  lemma PipelineChain(fixed: bool, x: string, y: string)
    requires ApplyAll(EscapeRules(0, fixed), x) == x
    requires ApplyAll(Normalize(fixed)[..7], x) == y
    requires ApplyAll(Normalize(fixed)[7..], y) == y
    requires ApplyAll(RestoreRules(0), y) == y
    ensures ApplyAll(Pipeline(fixed), x) == y
  {
    var norm := Normalize(fixed);
    assert norm == norm[..7] + norm[7..];
    ChainFour(EscapeRules(0, fixed), norm[..7], norm[7..], RestoreRules(0), x, y);
  }

  /** Preparing, then replacements that take `" " + w + " "` to `" " + w' + " "`, give the
      single token `w'`. */
  lemma TokenizeChain(rules: seq<Rule>, w: string, w': string)
    requires forall i :: 0 <= i < |w| ==> !IsWhitespace(w[i])
    requires w' != [] && forall i :: 0 <= i < |w'| ==> !IsWhitespace(w'[i])
    requires ApplyAll(rules, " " + w + " ") == " " + w' + " "
    ensures Tokenize(rules, w) == [w']
  {
    PrepareWord(w);
    FinishWord(w');
  }

  /** The replacements on a padded hyphenated word or contraction. */
  lemma JoinedWordPipeline(u: string, c: char, v: string, fixed: bool)
    requires AlnumWord(u) && AlnumWord(v) && (c == '-' || c == '\'')
    ensures ApplyAll(Pipeline(fixed), Padded(u, c, v)) == Padded(u, JoinMark(c), v)
  {
    var d := JoinMark(c);
    PaddedLacks(u, c, v, '.');
    EscapesWithoutDot(0, fixed, Padded(u, c, v));
    QuoteSteps(u, c, v, fixed);
    SpacingThenRejoin(u, d, v, fixed);
    PaddedLacks(u, d, v, '_');
    RestoresWithoutUnderscore(0, Padded(u, d, v));
    PipelineChain(fixed, Padded(u, c, v), Padded(u, d, v));
  }

  /** `u c v` has whitespace nowhere and is `Padded(u, c, v)` once padded. */
  lemma WordOfPadded(u: string, c: char, v: string)
    requires AlnumWord(u) && AlnumWord(v) && !IsWhitespace(c)
    ensures forall i :: 0 <= i < |u + [c] + v| ==> !IsWhitespace((u + [c] + v)[i])
    ensures Padded(u, c, v) == " " + (u + [c] + v) + " "
  {
    var w := u + [c] + v;
    assert forall i :: 0 <= i < |w| ==> w[i] == c || IsAlnum(w[i]);
  }

  /** A hyphenated word (`well-known`) or a contraction (`don't`, whose apostrophe becomes `’`)
      made of letters and digits is a single token. */
  lemma JoinedWordIsOneToken(u: string, c: char, v: string, fixed: bool)
    requires AlnumWord(u) && AlnumWord(v) && (c == '-' || c == '\'')
    ensures Tokenize(Pipeline(fixed), u + [c] + v) == [u + [JoinMark(c)] + v]
  {
    WordOfPadded(u, c, v);
    WordOfPadded(u, JoinMark(c), v);
    JoinedWordPipeline(u, c, v, fixed);
    TokenizeChain(Pipeline(fixed), u + [c] + v, u + [JoinMark(c)] + v);
  }
}
