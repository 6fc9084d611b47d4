/** The tokenizer `_splitText`: a fixed chain of global replacements followed by a split on
    single spaces. */
module Tokenizer {
  import opened Regex

  const LeftSingle: char := '\U{2018}'
  const RightSingle: char := '\U{2019}'
  const LeftDouble: char := '\U{201C}'
  const RightDouble: char := '\U{201D}'
  const Ellipsis: char := '\U{2026}'
  const EmDash: char := '\U{2014}'

  /** The abbreviations protected from punctuation splitting, in the source's order. */
  const Abbrevs: seq<string> := ["Mr.", "Mrs.", "Ms.", "Dr.", "St.", "A.M.", "P.M."]

  function DigitChar(d: nat): (c: char)
    requires d < 10
    ensures '0' <= c <= '9'
  {
    ('0' as int + d) as char
  }

  predicate AllDigits(s: string) {
    forall i :: 0 <= i < |s| ==> '0' <= s[i] <= '9'
  }

  /** The decimal digits of `n`, as JavaScript writes a number into a string
      (`"__AB" + nt`, `"tag" + (mi + 1)`). */
  function NatText(n: nat): (s: string)
    ensures s != [] && AllDigits(s)
    decreases n
  {
    if n < 10 then [DigitChar(n)] else NatText(n / 10) + [DigitChar(n % 10)]
  }

  /** The number a string of decimal digits denotes. */
  function ParseNat(s: string): nat
    requires AllDigits(s)
  {
    if s == [] then 0 else ParseNat(s[..|s| - 1]) * 10 + (s[|s| - 1] as int - '0' as int)
  }

  /** Reading the digits back gives the number: `NatText` writes every number, and distinct
      numbers as distinct strings. */
  lemma {:induction false} ParseNatText(n: nat)
    ensures ParseNat(NatText(n)) == n
    decreases n
  {
    var s := NatText(n);
    if n >= 10 {
      ParseNatText(n / 10);
      assert s[..|s| - 1] == NatText(n / 10);
    } else {
      assert s[..|s| - 1] == [];
    }
  }

  /** The placeholder that stands for abbreviation number `nt` while punctuation is split. */
  function Placeholder(nt: nat): string {
    "__AB" + NatText(nt) + "__"
  }

  /** Literal pattern for the characters of `a`. */
  function Literal(a: string): seq<Class> {
    if a == [] then [] else [Char(a[0])] + Literal(a[1..])
  }

  /** The pattern built from abbreviation `a`. The source escapes only the first `.`
      (`replace(/\./, "\\.")` has no `g` flag), so every later `.` is a wildcard; with
      `escapeAll` every `.` is literal. `seenDot` records whether a `.` was already passed. */
  function AbbrevPattern(a: string, escapeAll: bool, seenDot: bool): seq<Class> {
    if a == [] then []
    else if a[0] == '.' then
      [if seenDot && !escapeAll then Dot else Char('.')] + AbbrevPattern(a[1..], escapeAll, true)
    else [Char(a[0])] + AbbrevPattern(a[1..], escapeAll, seenDot)
  }

  function EscapeRule(nt: nat, escapeAll: bool): Rule
    requires nt < |Abbrevs|
  {
    Pattern(AbbrevPattern(Abbrevs[nt], escapeAll, false), [Lit(Placeholder(nt))])
  }

  function RestoreRule(nt: nat): Rule
    requires nt < |Abbrevs|
  {
    Pattern(Literal(Placeholder(nt)), [Lit(Abbrevs[nt])])
  }

  /** The escape replacements for abbreviations `nt`, `nt+1`, ... in order. */
  function EscapeRules(nt: nat, escapeAll: bool): seq<Rule>
    requires nt <= |Abbrevs|
    decreases |Abbrevs| - nt
  {
    if nt == |Abbrevs| then [] else [EscapeRule(nt, escapeAll)] + EscapeRules(nt + 1, escapeAll)
  }

  function RestoreRules(nt: nat): seq<Rule>
    requires nt <= |Abbrevs|
    decreases |Abbrevs| - nt
  {
    if nt == |Abbrevs| then [] else [RestoreRule(nt)] + RestoreRules(nt + 1)
  }

  /** `([ \(\[])\'` to `$1‘` */
  const OpenSingle: Rule := Pattern([OneOf(" (["), Char('\'')], [Group(0), Lit([LeftSingle])])
  /** `\'([ \)\]])` to `’$1` */
  const CloseSingle: Rule := Pattern([Char('\''), OneOf(" )]")], [Lit([RightSingle]), Group(1)])
  /** `([ \(\]])\"` to `$1“` as the source writes it, with `\]` in the class */
  const OpenDoubleAsWritten: Rule := Pattern([OneOf(" (]"), Char('"')], [Group(0), Lit([LeftDouble])])
  /** the same with `\[`, the class the opening single quote uses */
  const OpenDouble: Rule := Pattern([OneOf(" (["), Char('"')], [Group(0), Lit([LeftDouble])])
  /** `\"([ \)\]])` to `”$1` */
  const CloseDouble: Rule := Pattern([Char('"'), OneOf(" )]")], [Lit([RightDouble]), Group(1)])
  /** `\'` to `’` */
  const Apostrophe: Rule := Pattern([Char('\'')], [Lit([RightSingle])])
  /** `\.\.\.` to `…` */
  const ThreeDots: Rule := Pattern([Char('.'), Char('.'), Char('.')], [Lit([Ellipsis])])
  /** `--` to `—` */
  const TwoHyphens: Rule := Pattern([Char('-'), Char('-')], [Lit([EmDash])])
  /** `([a-zA-Z0-9_])([^a-zA-Z0-9_ ])` to `$1 $2` */
  const SpaceWordPunct: Rule := SplitPair(Word, Punct)
  /** `([^a-zA-Z0-9_ ])([^a-zA-Z0-9_ ])` to `$1 $2` */
  const SpacePunctPunct: Rule := SplitPair(Punct, Punct)
  /** `([^a-zA-Z0-9_ ])([a-zA-Z0-9_])` to `$1 $2` */
  const SpacePunctWord: Rule := SplitPair(Punct, Word)
  /** `([a-zA-Z0-9_]) (-|’) ([a-zA-Z0-9_])` to `$1$2$3` */
  const Rejoin: Rule :=
    Pattern([Word, Char(' '), OneOf(['-', RightSingle]), Char(' '), Word], [Group(0), Group(2), Group(4)])

  /** Smart quotes, ellipsis and em-dash, punctuation spacing and its undoing for hyphens and
      apostrophes. `fixed` selects the opening-double-quote class with `\[`. */
  function Normalize(fixed: bool): seq<Rule> {
    [OpenSingle, CloseSingle, if fixed then OpenDouble else OpenDoubleAsWritten, CloseDouble, Apostrophe,
     ThreeDots, TwoHyphens,
     SpaceWordPunct, SpacePunctPunct, SpacePunctWord, Rejoin]
  }

  /** Every replacement between the padding and the final split. */
  function Pipeline(fixed: bool): seq<Rule> {
    EscapeRules(0, fixed) + Normalize(fixed) + RestoreRules(0)
  }

  function TrimStart(s: string): (r: string)
    ensures r == [] || !IsWhitespace(r[0])
    ensures |r| <= |s| && r == s[|s| - |r|..]
    ensures forall i :: 0 <= i < |s| - |r| ==> IsWhitespace(s[i])
  {
    if s != [] && IsWhitespace(s[0]) then TrimStart(s[1..]) else s
  }

  function TrimEnd(s: string): (r: string)
    ensures r == [] || !IsWhitespace(r[|r| - 1])
    ensures |r| <= |s| && r == s[..|r|]
    ensures forall i :: |r| <= i < |s| ==> IsWhitespace(s[i])
  {
    if s != [] && IsWhitespace(s[|s| - 1]) then TrimEnd(s[..|s| - 1]) else s
  }

  /** `s.trim()` */
  function Trim(s: string): string {
    TrimEnd(TrimStart(s))
  }

  /** `s.split(' ')` */
  function Split(s: string): (r: seq<string>)
    ensures |r| >= 1
  {
    if s == [] then [""]
    else if s[0] == ' ' then [""] + Split(s[1..])
    else
      var rest := Split(s[1..]);
      [[s[0]] + rest[0]] + rest[1..]
  }

  /** The text after the first statement of `_splitText`: whitespace collapsed and padded. */
  function Prepare(text: string): string {
    " " + Rewrite(Whitespace, Trim(text)) + " "
  }

  /** The last statement of `_splitText`. */
  function Finish(text: string): seq<string> {
    Split(Rewrite(Whitespace, Trim(text)))
  }

  function Tokenize(rules: seq<Rule>, text: string): seq<string> {
    Finish(ApplyAll(rules, Prepare(text)))
  }

  /** `_splitText` exactly as the source writes it. */
  function SplitTextAsWritten(text: string): seq<string> {
    Tokenize(Pipeline(false), text)
  }

  /** `_splitText` with the two corrections of the abbreviation pattern and the opening double
      quote class. */
  function SplitText(text: string): seq<string> {
    Tokenize(Pipeline(true), text)
  }

  /** The whitespace left is single spaces, none at either end and no two in a row. */
  predicate Collapsed(z: string) {
    && (forall i :: 0 <= i < |z| && IsWhitespace(z[i]) ==> z[i] == ' ')
    && (forall i :: 0 <= i < |z| - 1 ==> !(z[i] == ' ' && z[i + 1] == ' '))
    && (z != [] ==> z[0] != ' ' && z[|z| - 1] != ' ')
  }

  lemma TrimEnds(s: string)
    ensures Trim(s) == [] || (!IsWhitespace(Trim(s)[0]) && !IsWhitespace(Trim(s)[|Trim(s)| - 1]))
  {
  }

  lemma {:induction false} CollapseFirst(y: string)
    requires y != []
    ensures Rewrite(Whitespace, y) != []
    ensures Rewrite(Whitespace, y)[0] == if IsWhitespace(y[0]) then ' ' else y[0]
  {
  }

  lemma {:induction false} CollapseLast(y: string)
    requires y != [] && !IsWhitespace(y[|y| - 1])
    ensures Rewrite(Whitespace, y) != [] && !IsWhitespace(Rewrite(Whitespace, y)[|Rewrite(Whitespace, y)| - 1])
    decreases |y|
  {
    var n := MatchLength(Whitespace, y);
    if n == 0 {
      if |y| > 1 {
        CollapseLast(y[1..]);
      }
    } else {
      assert n < |y|;
      CollapseLast(y[n..]);
    }
  }

  /** Collapsing whitespace leaves only single spaces between other characters. */
  lemma {:induction false} CollapseShape(y: string)
    requires y == [] || (!IsWhitespace(y[0]) && !IsWhitespace(y[|y| - 1]))
    ensures Collapsed(Rewrite(Whitespace, y))
  {
    CollapseInner(y);
    if y != [] {
      CollapseFirst(y);
      CollapseLast(y);
    }
  }

  lemma {:induction false} CollapseInner(y: string)
    ensures var z := Rewrite(Whitespace, y);
      && (forall i :: 0 <= i < |z| && IsWhitespace(z[i]) ==> z[i] == ' ')
      && (forall i :: 0 <= i < |z| - 1 ==> !(z[i] == ' ' && z[i + 1] == ' '))
    decreases |y|
  {
    if y != [] {
      var n := MatchLength(Whitespace, y);
      var rest := y[if n == 0 then 1 else n..];
      var tail := Rewrite(Whitespace, rest);
      CollapseInner(rest);
      var head := if n == 0 then [y[0]] else " ";
      assert Rewrite(Whitespace, y) == head + tail;
      if rest != [] {
        CollapseFirst(rest);
        assert n != 0 ==> !IsWhitespace(rest[0]);
      }
      var z := head + tail;
      forall i | 0 <= i < |z| - 1
        ensures !(z[i] == ' ' && z[i + 1] == ' ')
      {
        if i > 0 {
          assert z[i] == tail[i - 1] && z[i + 1] == tail[i];
        }
      }
      forall i | 0 <= i < |z| && IsWhitespace(z[i])
        ensures z[i] == ' '
      {
        if i > 0 {
          assert z[i] == tail[i - 1];
        }
      }
    }
  }

  /** Pieces of `s.split(' ')` contain no space; with no other whitespace in `s`, none at all. */
  lemma {:induction false} SplitPiecesNoWhitespace(s: string)
    requires forall i :: 0 <= i < |s| && IsWhitespace(s[i]) ==> s[i] == ' '
    ensures forall t, c :: t in Split(s) && c in t ==> !IsWhitespace(c)
    decreases |s|
  {
    if s != [] {
      SplitPiecesNoWhitespace(s[1..]);
    }
  }

  /** Without a trailing space or a doubled space, only the first piece can be empty, and it
      is empty only when the text starts with a space. */
  lemma {:induction false} SplitPiecesNonEmpty(s: string)
    requires s != [] && s[|s| - 1] != ' '
    requires forall i :: 0 <= i < |s| - 1 ==> !(s[i] == ' ' && s[i + 1] == ' ')
    ensures forall k :: 1 <= k < |Split(s)| ==> Split(s)[k] != ""
    ensures (Split(s)[0] != "") == (s[0] != ' ')
    decreases |s|
  {
    if |s| > 1 {
      SplitPiecesNonEmpty(s[1..]);
      if s[0] == ' ' {
        assert s[1] != ' ';
      }
    }
  }

  /** Final tokens: none holds whitespace, and none is empty unless the text was blank and
      the result is the single empty string `[""]`. */
  lemma FinishTokens(text: string)
    ensures forall t, c :: t in Finish(text) && c in t ==> !IsWhitespace(c)
    ensures Finish(text) == [""] || forall k :: 0 <= k < |Finish(text)| ==> Finish(text)[k] != ""
  {
    var y := Trim(text);
    TrimEnds(text);
    CollapseShape(y);
    var z := Rewrite(Whitespace, y);
    SplitPiecesNoWhitespace(z);
    if z != [] {
      SplitPiecesNonEmpty(z);
    }
  }

  // ---- Blank text and empty tokens

  lemma AbbrevHead(nt: nat)
    requires nt < |Abbrevs|
    ensures Abbrevs[nt] != [] && 'A' <= Abbrevs[nt][0] <= 'Z'
  {
  }

  lemma EscapeRuleExact(nt: nat, escapeAll: bool)
    requires nt < |Abbrevs|
    ensures BlankExact(EscapeRule(nt, escapeAll))
  {
    var a := Abbrevs[nt];
    AbbrevHead(nt);
    var ks := AbbrevPattern(a, escapeAll, false);
    assert ks[0] == Char(a[0]);
    assert Placeholder(nt)[0] == '_';
    InkedExact(ks, [Lit(Placeholder(nt))], 0, 0);
  }

  lemma RestoreRuleExact(nt: nat)
    requires nt < |Abbrevs|
    ensures BlankExact(RestoreRule(nt))
  {
    AbbrevHead(nt);
    var ks := Literal(Placeholder(nt));
    assert Placeholder(nt)[0] == '_';
    assert ks[0] == Char('_');
    InkedExact(ks, [Lit(Abbrevs[nt])], 0, 0);
  }

  lemma {:induction false} EscapeRulesExact(nt: nat, escapeAll: bool)
    requires nt <= |Abbrevs|
    ensures forall k :: 0 <= k < |EscapeRules(nt, escapeAll)| ==> BlankExact(EscapeRules(nt, escapeAll)[k])
    decreases |Abbrevs| - nt
  {
    if nt < |Abbrevs| {
      EscapeRuleExact(nt, escapeAll);
      EscapeRulesExact(nt + 1, escapeAll);
    }
  }

  lemma {:induction false} RestoreRulesExact(nt: nat)
    requires nt <= |Abbrevs|
    ensures forall k :: 0 <= k < |RestoreRules(nt)| ==> BlankExact(RestoreRules(nt)[k])
    decreases |Abbrevs| - nt
  {
    if nt < |Abbrevs| {
      RestoreRuleExact(nt);
      RestoreRulesExact(nt + 1);
    }
  }

  lemma NormalizeExact(fixed: bool)
    ensures forall k :: 0 <= k < |Normalize(fixed)| ==> BlankExact(Normalize(fixed)[k])
  {
    InkChar(LeftSingle);
    InkChar(RightSingle);
    InkChar(LeftDouble);
    InkChar(RightDouble);
    InkChar(Ellipsis);
    InkChar(EmDash);
    InkedExact(OpenSingle.classes, OpenSingle.template, 1, 1);
    InkedExact(CloseSingle.classes, CloseSingle.template, 0, 0);
    InkedExact(OpenDouble.classes, OpenDouble.template, 1, 1);
    InkedExact(OpenDoubleAsWritten.classes, OpenDoubleAsWritten.template, 1, 1);
    InkedExact(CloseDouble.classes, CloseDouble.template, 0, 0);
    InkedExact(Apostrophe.classes, Apostrophe.template, 0, 0);
    InkedExact(ThreeDots.classes, ThreeDots.template, 0, 0);
    InkedExact(TwoHyphens.classes, TwoHyphens.template, 0, 0);
    SplitPairExact(Word, Punct);
    SplitPairExact(Punct, Punct);
    SplitPairExact(Punct, Word);
    InkedExact(Rejoin.classes, Rejoin.template, 0, 0);
  }

  /** Every replacement of the chain, as written or corrected, turns blank text into blank
      text and text with a visible character into text with one. */
  lemma PipelineExact(fixed: bool)
    ensures forall k :: 0 <= k < |Pipeline(fixed)| ==> BlankExact(Pipeline(fixed)[k])
  {
    EscapeRulesExact(0, fixed);
    NormalizeExact(fixed);
    RestoreRulesExact(0);
    ExactAppend(EscapeRules(0, fixed), Normalize(fixed));
    ExactAppend(EscapeRules(0, fixed) + Normalize(fixed), RestoreRules(0));
  }

  lemma {:induction false} TrimStartBlank(s: string)
    ensures IsBlank(TrimStart(s)) <==> IsBlank(s)
    ensures IsBlank(s) ==> TrimStart(s) == []
    decreases |s|
  {
    if s != [] && IsWhitespace(s[0]) {
      TrimStartBlank(s[1..]);
      assert s == [s[0]] + s[1..];
      BlankAppend([s[0]], s[1..]);
    } else if s != [] {
      assert !IsWhitespace(s[0]);
    }
  }

  lemma {:induction false} TrimEndBlank(s: string)
    ensures IsBlank(TrimEnd(s)) <==> IsBlank(s)
    ensures IsBlank(s) ==> TrimEnd(s) == []
    decreases |s|
  {
    if s != [] && IsWhitespace(s[|s| - 1]) {
      TrimEndBlank(s[..|s| - 1]);
      assert s == s[..|s| - 1] + [s[|s| - 1]];
      BlankAppend(s[..|s| - 1], [s[|s| - 1]]);
    } else if s != [] {
      assert !IsWhitespace(s[|s| - 1]);
    }
  }

  /** `trim` of a text is blank exactly when the text is, and then it is empty. */
  lemma TrimBlank(s: string)
    ensures IsBlank(Trim(s)) <==> IsBlank(s)
    ensures IsBlank(s) ==> Trim(s) == []
  {
    TrimStartBlank(s);
    TrimEndBlank(TrimStart(s));
  }

  /** Padding and collapsing keep a text blank exactly when it was. */
  lemma PrepareBlank(text: string)
    ensures IsBlank(Prepare(text)) <==> IsBlank(text)
  {
    var w := Rewrite(Whitespace, Trim(text));
    TrimBlank(text);
    WhitespaceExact();
    RewriteBlank(Whitespace, Trim(text));
    BlankAppend(" ", w);
    BlankAppend(" " + w, " ");
  }

  /** The final trim and split give `[""]` for blank text and only non-empty tokens otherwise. */
  lemma FinishBlank(x: string)
    ensures IsBlank(x) <==> Finish(x) == [""]
    ensures !IsBlank(x) ==> forall k :: 0 <= k < |Finish(x)| ==> Finish(x)[k] != ""
  {
    var y := Trim(x);
    TrimBlank(x);
    TrimEnds(x);
    CollapseShape(y);
    var z := Rewrite(Whitespace, y);
    if y != [] {
      CollapseFirst(y);
      SplitPiecesNonEmpty(z);
    }
  }

  /** Every token `_splitText` returns, as written or corrected, is free of whitespace; a blank
      text gives the single empty token `[""]`, and any other text gives only non-empty tokens. */
  lemma TokensWellFormed(fixed: bool, text: string)
    ensures forall t, c :: t in Tokenize(Pipeline(fixed), text) && c in t ==> !IsWhitespace(c)
    ensures IsBlank(text) <==> Tokenize(Pipeline(fixed), text) == [""]
    ensures !IsBlank(text) ==> forall k :: 0 <= k < |Tokenize(Pipeline(fixed), text)| ==> Tokenize(Pipeline(fixed), text)[k] != ""
  {
    var x := ApplyAll(Pipeline(fixed), Prepare(text));
    FinishTokens(x);
    PrepareBlank(text);
    PipelineExact(fixed);
    ApplyAllBlank(Pipeline(fixed), Prepare(text));
    FinishBlank(x);
  }

  /** Splitting a bigram key recovers the two tokens it was joined from. */
  lemma {:induction false} SplitJoined(a: string, b: string)
    requires ' ' !in a && ' ' !in b
    ensures Split(a + " " + b) == [a, b]
    decreases |a|
  {
    if a == [] {
      assert a + " " + b == [' '] + b;
      SplitNoSpace(b);
    } else {
      assert (a + " " + b)[1..] == a[1..] + " " + b;
      SplitJoined(a[1..], b);
      assert [a[0]] + a[1..] == a;
    }
  }

  lemma {:induction false} SplitNoSpace(b: string)
    requires ' ' !in b
    ensures Split(b) == [b]
    decreases |b|
  {
    if b != [] {
      SplitNoSpace(b[1..]);
      assert [b[0]] + b[1..] == b;
    }
  }

  /** After the three spacing replacements no word character touches a punctuation character,
      in either order. */
  lemma SpacingIsolatesPunctuation(s: string)
    ensures var t := ApplyAll([SpaceWordPunct, SpacePunctPunct, SpacePunctWord], s);
      NoPair(t, Word, Punct) && NoPair(t, Punct, Word)
  {
    forall c: char ensures !(InClass(Word, c) && InClass(Punct, c)) && !(InClass(Punct, c) && InClass(Word, c)) {
      WordPunctDisjoint(c);
    }
    WordPunctDisjoint(' ');
    var s1 := Rewrite(SpaceWordPunct, s);
    SplitPairSeparates(Word, Punct, s);
    var s2 := Rewrite(SpacePunctPunct, s1);
    SplitPairPreserves(Punct, Punct, Word, Punct, s1);
    var s3 := Rewrite(SpacePunctWord, s2);
    SplitPairPreserves(Punct, Word, Word, Punct, s2);
    SplitPairSeparates(Punct, Word, s2);
    assert ApplyAll([SpacePunctWord], s2) == s3;
    assert ApplyAll([SpacePunctPunct, SpacePunctWord], s1) == s3;
  }
}
