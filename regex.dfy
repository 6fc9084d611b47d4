/** A model of JavaScript's global regular-expression replacement, `s.replace(/re/g, rep)`,
    for the specific expressions the tokenizer uses. Every such expression either matches a
    fixed number of characters, one character class per position, or is `\s+`. The scan is
    left to right and non-overlapping: after a match the scan resumes right behind it. */
module Regex {

  /** JavaScript's `\s`: the WhiteSpace and LineTerminator code points (also what `trim` removes). */
  predicate IsWhitespace(c: char) {
    c == '\t' || c == '\n' || c == '\U{000B}' || c == '\U{000C}' || c == '\r' || c == ' '
    || c == '\U{00A0}' || c == '\U{1680}' || ('\U{2000}' <= c <= '\U{200A}')
    || c == '\U{2028}' || c == '\U{2029}' || c == '\U{202F}' || c == '\U{205F}'
    || c == '\U{3000}' || c == '\U{FEFF}'
  }

  /** The characters an unescaped `.` does not match. */
  predicate IsLineTerminator(c: char) {
    c == '\n' || c == '\r' || c == '\U{2028}' || c == '\U{2029}'
  }

  /** `[a-zA-Z0-9_]` */
  predicate IsWordChar(c: char) {
    ('a' <= c <= 'z') || ('A' <= c <= 'Z') || ('0' <= c <= '9') || c == '_'
  }

  /** `[^a-zA-Z0-9_ ]`: punctuation, in the tokenizer's sense. */
  predicate IsPunct(c: char) {
    !IsWordChar(c) && c != ' '
  }

  /** One position of a fixed-length pattern. */
  datatype Class =
    | Char(c: char)          // a literal character
    | OneOf(cs: seq<char>)   // a bracket class such as `[ \(\[]`, or an alternation of characters
    | Word                   // `[a-zA-Z0-9_]`
    | Punct                  // `[^a-zA-Z0-9_ ]`
    | Dot                    // an unescaped `.`

  predicate InClass(k: Class, c: char) {
    match k
    case Char(d) => c == d
    case OneOf(cs) => c in cs
    case Word => IsWordChar(c)
    case Punct => IsPunct(c)
    case Dot => !IsLineTerminator(c)
  }

  /** A piece of a replacement string: literal text, or the character matched at a position
      (every capture group of the tokenizer's expressions captures exactly one character). */
  datatype Piece = Lit(text: string) | Group(pos: nat)

  datatype Rule =
    | Pattern(classes: seq<Class>, template: seq<Piece>)
    | Whitespace   // `/\s+/g` replaced by a single space

  /** Length of the run of whitespace at the front of `s`. */
  function SpaceRun(s: string): (n: nat)
    ensures n <= |s|
    ensures forall i :: 0 <= i < n ==> IsWhitespace(s[i])
    ensures n < |s| ==> !IsWhitespace(s[n])
  {
    if s != [] && IsWhitespace(s[0]) then 1 + SpaceRun(s[1..]) else 0
  }

  /** Whether the fixed-length pattern `ks` matches at the front of `s`. */
  predicate MatchesAt(ks: seq<Class>, s: string) {
    0 < |ks| <= |s| && forall i :: 0 <= i < |ks| ==> InClass(ks[i], s[i])
  }

  /** Number of characters the rule matches at the front of `s`; 0 when it does not match there. */
  function MatchLength(r: Rule, s: string): (n: nat)
    ensures n <= |s|
    ensures r.Pattern? ==> (n != 0 <==> MatchesAt(r.classes, s))
    ensures r.Pattern? && n != 0 ==> n == |r.classes|
    ensures r.Whitespace? ==> (n != 0 <==> (s != [] && IsWhitespace(s[0])))
  {
    match r
    case Pattern(ks, _) => if MatchesAt(ks, s) then |ks| else 0
    case Whitespace => SpaceRun(s)
  }

  /** The text one piece of a template stands for; a group past the end of `s` is empty. */
  function PieceText(p: Piece, s: string): string {
    match p
    case Lit(t) => t
    case Group(q) => if q < |s| then [s[q]] else []
  }

  function Expand(template: seq<Piece>, s: string): string {
    if template == [] then [] else PieceText(template[0], s) + Expand(template[1..], s)
  }

  lemma ExpandCons(p: Piece, rest: seq<Piece>, s: string)
    ensures Expand([p] + rest, s) == PieceText(p, s) + Expand(rest, s)
  {
    assert ([p] + rest)[0] == p && ([p] + rest)[1..] == rest;
  }

  /** The text that replaces a match at the front of `s`. */
  function Replacement(r: Rule, s: string): string {
    match r
    case Pattern(_, template) => Expand(template, s)
    case Whitespace => " "
  }

  /** `s.replace(re, rep)` with the `g` flag. */
  function Rewrite(r: Rule, s: string): string
    decreases |s|
  {
    if s == [] then []
    else
      var n := MatchLength(r, s);
      if n == 0 then [s[0]] + Rewrite(r, s[1..])
      else Replacement(r, s) + Rewrite(r, s[n..])
  }

  /** A chain of replacements applied in order. */
  function ApplyAll(rules: seq<Rule>, s: string): string
    decreases |rules|
  {
    if rules == [] then s else ApplyAll(rules[1..], Rewrite(rules[0], s))
  }

  /** A rule that puts a space between a character of class `a` and a following one of class `b`. */
  function SplitPair(a: Class, b: Class): Rule {
    Pattern([a, b], [Group(0), Lit(" "), Group(1)])
  }

  /** No character of class `a` is directly followed by one of class `b`. */
  predicate NoPair(s: string, a: Class, b: Class) {
    forall i :: 0 <= i < |s| - 1 ==> !(InClass(a, s[i]) && InClass(b, s[i + 1]))
  }

  lemma WordPunctDisjoint(c: char)
    ensures !(InClass(Word, c) && InClass(Punct, c))
    ensures !InClass(Word, ' ') && !InClass(Punct, ' ')
  {
  }

  lemma NoMatchAt(ks: seq<Class>, template: seq<Piece>, s: string, i: nat, j: nat)
    requires i <= |s| && j < |ks|
    requires i + |ks| > |s| || !InClass(ks[j], s[i + j])
    ensures MatchLength(Pattern(ks, template), s[i..]) == 0
  {
    if i + |ks| <= |s| {
      assert s[i..][j] == s[i + j];
    }
  }

  /** Where no match starts, the first character is copied. */
  lemma RewriteCopy(r: Rule, s: string)
    requires s != [] && MatchLength(r, s) == 0
    ensures Rewrite(r, s) == [s[0]] + Rewrite(r, s[1..])
  {
  }

  /** When no match starts at any of the first `k` positions, those characters are copied. */
  lemma RewriteSkip(r: Rule, s: string, k: nat)
    requires k <= |s|
    requires forall i :: 0 <= i < k ==> MatchLength(r, s[i..]) == 0
    ensures Rewrite(r, s) == s[..k] + Rewrite(r, s[k..])
  {
    RewriteSkipFrom(r, s, 0, k);
    assert s[0..] == s && s[0..k] == s[..k];
  }

  lemma {:induction false} RewriteSkipFrom(r: Rule, s: string, j: nat, k: nat)
    requires j <= k <= |s|
    requires forall i :: j <= i < k ==> MatchLength(r, s[i..]) == 0
    ensures Rewrite(r, s[j..]) == s[j..k] + Rewrite(r, s[k..])
    decreases k - j
  {
    if j < k {
      var rest := Rewrite(r, s[k..]);
      RewriteSkipFrom(r, s, j + 1, k);
      assert MatchLength(r, s[j..]) == 0;
      RewriteCopy(r, s[j..]);
      assert s[j..][0] == s[j] && s[j..][1..] == s[j + 1..];
      assert s[j..k] == [s[j]] + s[j + 1..k];
      AppendAssoc([s[j]], s[j + 1..k], rest);
    }
  }

  lemma AppendAssoc(a: string, b: string, c: string)
    ensures a + (b + c) == (a + b) + c
  {
  }

  /** A replacement that matches nowhere leaves the text alone. */
  lemma RewriteUnchanged(r: Rule, s: string)
    requires forall i :: 0 <= i < |s| ==> MatchLength(r, s[i..]) == 0
    ensures Rewrite(r, s) == s
  {
    RewriteSkip(r, s, |s|);
    assert s[|s|..] == [];
    assert s[..|s|] == s;
  }

  /** A pattern with a literal position for a character the text lacks matches nowhere. */
  lemma RewriteAbsent(ks: seq<Class>, template: seq<Piece>, j: nat, s: string)
    requires j < |ks| && ks[j].Char? && ks[j].c !in s
    ensures Rewrite(Pattern(ks, template), s) == s
  {
    forall i | 0 <= i < |s|
      ensures MatchLength(Pattern(ks, template), s[i..]) == 0
    {
      if i + |ks| <= |s| {
        assert s[i + j] in s;
      }
      NoMatchAt(ks, template, s, i, j);
    }
    RewriteUnchanged(Pattern(ks, template), s);
  }

  /** A two-position pattern matches nowhere when no such pair occurs. */
  lemma RewritePairAbsent(a: Class, b: Class, template: seq<Piece>, s: string)
    requires NoPair(s, a, b)
    ensures Rewrite(Pattern([a, b], template), s) == s
  {
    forall i | 0 <= i < |s|
      ensures MatchLength(Pattern([a, b], template), s[i..]) == 0
    {
      if i + 2 <= |s| && InClass(a, s[i]) {
        NoMatchAt([a, b], template, s, i, 1);
      } else {
        NoMatchAt([a, b], template, s, i, 0);
      }
    }
    RewriteUnchanged(Pattern([a, b], template), s);
  }

  lemma {:induction false} ApplyAllAppend(r1: seq<Rule>, r2: seq<Rule>, s: string)
    ensures ApplyAll(r1 + r2, s) == ApplyAll(r2, ApplyAll(r1, s))
    decreases |r1|
  {
    if r1 == [] {
      assert r1 + r2 == r2;
    } else {
      assert (r1 + r2)[1..] == r1[1..] + r2;
      ApplyAllAppend(r1[1..], r2, Rewrite(r1[0], s));
    }
  }

  lemma RewriteAtMatch(r: Rule, s: string)
    requires MatchLength(r, s) != 0
    ensures Rewrite(r, s) == Replacement(r, s) + Rewrite(r, s[MatchLength(r, s)..])
  {
  }

  lemma ExpandTwo(p0: Piece, p1: Piece, s: string)
    ensures Expand([p0, p1], s) == PieceText(p0, s) + PieceText(p1, s)
  {
    ExpandCons(p1, [], s);
    assert [p1] + [] == [p1];
    ExpandCons(p0, [p1], s);
    assert [p0] + [p1] == [p0, p1];
  }

  lemma ExpandThree(p0: Piece, p1: Piece, p2: Piece, s: string)
    ensures Expand([p0, p1, p2], s) == PieceText(p0, s) + PieceText(p1, s) + PieceText(p2, s)
  {
    ExpandTwo(p1, p2, s);
    ExpandCons(p0, [p1, p2], s);
    assert [p0] + [p1, p2] == [p0, p1, p2];
  }

  lemma ThreeChars(a: char, b: char, c: char)
    ensures [a] + [b] + [c] == [a, b, c]
  {
  }

  lemma ExpandSplit(s: string)
    requires |s| >= 2
    ensures Expand([Group(0), Lit(" "), Group(1)], s) == [s[0], ' ', s[1]]
  {
    var x, y := s[0], s[1];
    ExpandThree(Group(0), Lit(" "), Group(1), s);
    ThreeChars(x, ' ', y);
  }

  lemma SplitPairMatch(a: Class, b: Class, s: string)
    requires MatchLength(SplitPair(a, b), s) != 0
    ensures MatchLength(SplitPair(a, b), s) == 2 && |s| >= 2
    ensures Rewrite(SplitPair(a, b), s) == [s[0], ' ', s[1]] + Rewrite(SplitPair(a, b), s[2..])
  {
    RewriteAtMatch(SplitPair(a, b), s);
    ExpandSplit(s);
  }

  /** `s` with every `a` replaced by `b`. */
  function MapChar(s: string, a: char, b: char): (r: string)
    ensures |r| == |s|
    ensures forall i :: 0 <= i < |s| ==> r[i] == if s[i] == a then b else s[i]
  {
    if s == [] then [] else [if s[0] == a then b else s[0]] + MapChar(s[1..], a, b)
  }

  /** A one-character pattern with a one-character literal replacement maps that character. */
  lemma {:induction false} RewriteCharMap(a: char, b: char, s: string)
    ensures Rewrite(Pattern([Char(a)], [Lit([b])]), s) == MapChar(s, a, b)
    decreases |s|
  {
    if s != [] {
      var r := Pattern([Char(a)], [Lit([b])]);
      RewriteCharMap(a, b, s[1..]);
      if s[0] == a {
        assert MatchesAt([Char(a)], s);
        assert Expand([Lit([b])][1..], s) == [];
        assert Replacement(r, s) == [b];
      } else {
        assert !MatchesAt([Char(a)], s);
      }
    }
  }

  /** A single pair of classes `a`, `b` gets a space put between it, the rest is left alone. */
  lemma SplitPairOnce(a: Class, b: Class, p: string, x: char, y: char, t: string)
    requires NoPair(p + [x], a, b) && InClass(a, x) && InClass(b, y) && NoPair(t, a, b)
    ensures Rewrite(SplitPair(a, b), p + [x, y] + t) == p + [x, ' ', y] + t
  {
    var r := SplitPair(a, b);
    var s := p + [x, y] + t;
    forall i | 0 <= i < |p|
      ensures MatchLength(r, s[i..]) == 0
    {
      assert s[i] == (p + [x])[i] && s[i + 1] == (p + [x])[i + 1];
      if InClass(a, s[i]) {
        NoMatchAt([a, b], r.template, s, i, 1);
      } else {
        NoMatchAt([a, b], r.template, s, i, 0);
      }
    }
    RewriteSkip(r, s, |p|);
    var m := s[|p|..];
    assert m == [x, y] + t;
    assert MatchesAt([a, b], m);
    SplitPairMatch(a, b, m);
    assert m[2..] == t;
    RewritePairAbsent(a, b, r.template, t);
    assert s[..|p|] == p;
  }

  /** Rules each of which leaves the text alone leave it alone together. */
  lemma {:induction false} ApplyAllFixed(rules: seq<Rule>, s: string)
    requires forall k :: 0 <= k < |rules| ==> Rewrite(rules[k], s) == s
    ensures ApplyAll(rules, s) == s
    decreases |rules|
  {
    if rules != [] {
      ApplyAllFixed(rules[1..], s);
    }
  }

  /** A space-inserting rule keeps the first character of the text in front. */
  lemma SplitPairFirst(a: Class, b: Class, s: string)
    requires s != []
    ensures Rewrite(SplitPair(a, b), s) != [] && Rewrite(SplitPair(a, b), s)[0] == s[0]
  {
  }

  /** A space-inserting rule for disjoint classes that exclude the space leaves no such pair
      behind. */
  lemma {:induction false} SplitPairSeparates(a: Class, b: Class, s: string)
    requires forall c :: !(InClass(a, c) && InClass(b, c))
    requires !InClass(a, ' ') && !InClass(b, ' ')
    ensures NoPair(Rewrite(SplitPair(a, b), s), a, b)
    decreases |s|
  {
    var r := SplitPair(a, b);
    if s != [] {
      var n := MatchLength(r, s);
      if n == 0 {
        var tail := Rewrite(r, s[1..]);
        SplitPairSeparates(a, b, s[1..]);
        if s[1..] != [] {
          SplitPairFirst(a, b, s[1..]);
          assert !MatchesAt([a, b], s);
        }
        var out := [s[0]] + tail;
        assert Rewrite(r, s) == out;
        forall i | 0 <= i < |out| - 1
          ensures !(InClass(a, out[i]) && InClass(b, out[i + 1]))
        {
          if i > 0 {
            assert out[i] == tail[i - 1] && out[i + 1] == tail[i];
          }
        }
      } else {
        SplitPairMatch(a, b, s);
        var tail := Rewrite(r, s[2..]);
        SplitPairSeparates(a, b, s[2..]);
        if s[2..] != [] {
          SplitPairFirst(a, b, s[2..]);
        }
        var out := [s[0], ' ', s[1]] + tail;
        assert Rewrite(r, s) == out;
        forall i | 0 <= i < |out| - 1
          ensures !(InClass(a, out[i]) && InClass(b, out[i + 1]))
        {
          if i > 2 {
            assert out[i] == tail[i - 3] && out[i + 1] == tail[i - 2];
          } else if i == 2 {
            assert InClass(b, s[1]);
          }
        }
      }
    }
  }

  /** A character in front of a text without an `a b` pair adds none unless it forms one with
      the text's first character. */
  lemma NoPairCons(x: char, t: string, a: Class, b: Class)
    requires NoPair(t, a, b) && (t != [] ==> !(InClass(a, x) && InClass(b, t[0])))
    ensures NoPair([x] + t, a, b)
  {
    var out := [x] + t;
    forall i | 0 <= i < |out| - 1
      ensures !(InClass(a, out[i]) && InClass(b, out[i + 1]))
    {
      if i > 0 {
        assert out[i] == t[i - 1] && out[i + 1] == t[i];
      }
    }
  }

  lemma ConsThree(x: char, y: char, z: char, t: string)
    ensures [x, y, z] + t == [x] + ([y] + ([z] + t))
  {
  }

  /** A space-inserting rule never creates a pair of classes that exclude the space. */
  lemma {:induction false} SplitPairPreserves(c: Class, d: Class, a: Class, b: Class, s: string)
    requires !InClass(a, ' ') && !InClass(b, ' ')
    requires NoPair(s, a, b)
    ensures NoPair(Rewrite(SplitPair(c, d), s), a, b)
    decreases |s|
  {
    var r := SplitPair(c, d);
    if s != [] {
      var n := MatchLength(r, s);
      if n == 0 {
        var tail := Rewrite(r, s[1..]);
        SplitPairPreserves(c, d, a, b, s[1..]);
        if s[1..] != [] {
          SplitPairFirst(c, d, s[1..]);
          assert s[1..][0] == s[1];
        }
        RewriteCopy(r, s);
        NoPairCons(s[0], tail, a, b);
      } else {
        SplitPairMatch(c, d, s);
        var tail := Rewrite(r, s[2..]);
        SplitPairPreserves(c, d, a, b, s[2..]);
        if s[2..] != [] {
          SplitPairFirst(c, d, s[2..]);
          assert s[2..][0] == s[2];
        }
        NoPairCons(s[1], tail, a, b);
        NoPairCons(' ', [s[1]] + tail, a, b);
        NoPairCons(s[0], [' '] + ([s[1]] + tail), a, b);
        ConsThree(s[0], ' ', s[1], tail);
      }
    }
  }

  // ---- Blank text

  /** Every character is whitespace; the empty text is blank. */
  predicate IsBlank(s: string) {
    forall i :: 0 <= i < |s| ==> IsWhitespace(s[i])
  }

  lemma BlankAppend(a: string, b: string)
    ensures IsBlank(a + b) <==> IsBlank(a) && IsBlank(b)
  {
    if IsBlank(a + b) {
      forall i | 0 <= i < |a| ensures IsWhitespace(a[i]) {
        assert a[i] == (a + b)[i];
      }
      forall i | 0 <= i < |b| ensures IsWhitespace(b[i]) {
        assert b[i] == (a + b)[|a| + i];
      }
    }
    if IsBlank(a) && IsBlank(b) {
      forall i | 0 <= i < |a + b| ensures IsWhitespace((a + b)[i]) {
        if i >= |a| {
          assert (a + b)[i] == b[i - |a|];
        }
      }
    }
  }

  lemma InkChar(c: char)
    requires !IsWhitespace(c)
    ensures !IsBlank([c])
  {
    assert [c][0] == c;
  }

  /** Each match of `r` is replaced by blank text exactly when the matched text is blank. */
  ghost predicate BlankExact(r: Rule) {
    forall s :: MatchLength(r, s) != 0 ==> (IsBlank(s[..MatchLength(r, s)]) <==> IsBlank(Replacement(r, s)))
  }

  lemma BlankJoin(a: string, b: string, c: string, d: string)
    requires IsBlank(c) <==> IsBlank(a)
    requires IsBlank(d) <==> IsBlank(b)
    ensures IsBlank(c + d) <==> IsBlank(a + b)
  {
    BlankAppend(a, b);
    BlankAppend(c, d);
  }

  lemma RewriteBlankCopy(r: Rule, s: string)
    requires s != [] && MatchLength(r, s) == 0
    requires IsBlank(Rewrite(r, s[1..])) <==> IsBlank(s[1..])
    ensures IsBlank(Rewrite(r, s)) <==> IsBlank(s)
  {
    RewriteCopy(r, s);
    assert [s[0]] == s[..1] && s == s[..1] + s[1..];
    BlankJoin(s[..1], s[1..], [s[0]], Rewrite(r, s[1..]));
  }

  lemma RewriteBlankMatch(r: Rule, s: string)
    requires MatchLength(r, s) != 0
    requires IsBlank(s[..MatchLength(r, s)]) <==> IsBlank(Replacement(r, s))
    requires IsBlank(Rewrite(r, s[MatchLength(r, s)..])) <==> IsBlank(s[MatchLength(r, s)..])
    ensures IsBlank(Rewrite(r, s)) <==> IsBlank(s)
  {
    var n := MatchLength(r, s);
    RewriteAtMatch(r, s);
    assert s == s[..n] + s[n..];
    BlankJoin(s[..n], s[n..], Replacement(r, s), Rewrite(r, s[n..]));
  }

  /** A replacement that keeps blankness match by match leaves a text blank exactly when it was. */
  lemma {:induction false} RewriteBlank(r: Rule, s: string)
    requires BlankExact(r)
    ensures IsBlank(Rewrite(r, s)) <==> IsBlank(s)
    decreases |s|
  {
    if s != [] {
      var n := MatchLength(r, s);
      if n == 0 {
        RewriteBlank(r, s[1..]);
        RewriteBlankCopy(r, s);
      } else {
        RewriteBlank(r, s[n..]);
        assert IsBlank(s[..n]) <==> IsBlank(Replacement(r, s));
        RewriteBlankMatch(r, s);
      }
    }
  }

  /** Two rule lists that keep blankness match by match keep it one after the other. */
  lemma ExactAppend(a: seq<Rule>, b: seq<Rule>)
    requires forall k :: 0 <= k < |a| ==> BlankExact(a[k])
    requires forall k :: 0 <= k < |b| ==> BlankExact(b[k])
    ensures forall k :: 0 <= k < |a + b| ==> BlankExact((a + b)[k])
  {
    forall k | 0 <= k < |a + b| ensures BlankExact((a + b)[k]) {
      if k >= |a| {
        assert (a + b)[k] == b[k - |a|];
      }
    }
  }

  lemma {:induction false} ApplyAllBlank(rules: seq<Rule>, s: string)
    requires forall k :: 0 <= k < |rules| ==> BlankExact(rules[k])
    ensures IsBlank(ApplyAll(rules, s)) <==> IsBlank(s)
    decreases |rules|
  {
    if rules != [] {
      RewriteBlank(rules[0], s);
      ApplyAllBlank(rules[1..], Rewrite(rules[0], s));
    }
  }

  /** `\s+` matches blank text and puts a blank space in its place. */
  lemma WhitespaceExact()
    ensures BlankExact(Whitespace)
  {
  }

  /** A space-inserting rule keeps both matched characters, so it keeps blankness. */
  lemma SplitPairExact(a: Class, b: Class)
    ensures BlankExact(SplitPair(a, b))
  {
    forall s | MatchLength(SplitPair(a, b), s) != 0
      ensures IsBlank(s[..2]) <==> IsBlank(Replacement(SplitPair(a, b), s))
    {
      SplitPairMatch(a, b, s);
      ExpandSplit(s);
      assert s[..2] == [s[0], s[1]];
      var t := [s[0], ' ', s[1]];
      assert IsBlank(t) <==> IsWhitespace(t[0]) && IsWhitespace(t[1]) && IsWhitespace(t[2]);
    }
  }

  /** A piece that never stands for blank text: literal text with a non-space character, or
      the character at a position whose class excludes whitespace. */
  ghost predicate InkedPiece(ks: seq<Class>, p: Piece) {
    match p
    case Lit(t) => !IsBlank(t)
    case Group(q) => q < |ks| && forall c :: InClass(ks[q], c) ==> !IsWhitespace(c)
  }

  lemma {:induction false} ExpandInked(ks: seq<Class>, template: seq<Piece>, q: nat, s: string)
    requires MatchesAt(ks, s) && q < |template| && InkedPiece(ks, template[q])
    ensures !IsBlank(Expand(template, s))
    decreases |template|
  {
    BlankAppend(PieceText(template[0], s), Expand(template[1..], s));
    if q == 0 {
      match template[0]
      case Lit(t) =>
      case Group(g) =>
        assert InClass(ks[g], s[g]);
        assert PieceText(template[0], s)[0] == s[g];
    } else {
      ExpandInked(ks, template[1..], q - 1, s);
    }
  }

  /** A pattern with a position that excludes whitespace and a template piece that is never
      blank has no blank match and no blank replacement. */
  lemma InkedExact(ks: seq<Class>, template: seq<Piece>, j: nat, q: nat)
    requires j < |ks| && forall c :: InClass(ks[j], c) ==> !IsWhitespace(c)
    requires q < |template| && InkedPiece(ks, template[q])
    ensures BlankExact(Pattern(ks, template))
  {
    forall s | MatchLength(Pattern(ks, template), s) != 0
      ensures !IsBlank(s[..|ks|]) && !IsBlank(Replacement(Pattern(ks, template), s))
    {
      assert InClass(ks[j], s[j]) && s[..|ks|][j] == s[j];
      ExpandInked(ks, template, q, s);
    }
  }
}
