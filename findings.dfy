/** Two places where `_splitText` does not do what its authors evidently meant, each shown on
    a concrete input, with the intended behaviour proved for the corrected rule. */
module Findings {
  import opened Regex
  import opened Tokenizer

  // ---- The opening double quote: `[ \(\]]` where `[ \(\[]` was meant ----

  /** A rule that turns a quote `q` after a character of `cs` into the opening quote `q2`. */
  function OpenQuote(cs: seq<char>, q: char, q2: char): Rule {
    Pattern([OneOf(cs), Char(q)], [Group(0), Lit([q2])])
  }

  lemma ExpandQuote(q2: char, s: string)
    requires |s| >= 2
    ensures Expand([Group(0), Lit([q2])], s) == [s[0], q2]
  {
    ExpandTwo(Group(0), Lit([q2]), s);
    assert [s[0]] + [q2] == [s[0], q2];
  }

  lemma QuoteMatch(cs: seq<char>, q: char, q2: char, s: string)
    requires MatchLength(OpenQuote(cs, q, q2), s) != 0
    ensures |s| >= 2 && s[0] in cs && s[1] == q
    ensures Rewrite(OpenQuote(cs, q, q2), s) == [s[0], q2] + Rewrite(OpenQuote(cs, q, q2), s[2..])
  {
    var r := OpenQuote(cs, q, q2);
    assert MatchesAt(r.classes, s);
    assert InClass(r.classes[0], s[0]) && InClass(r.classes[1], s[1]);
    RewriteAtMatch(r, s);
    ExpandQuote(q2, s);
  }

  lemma QuoteFirst(cs: seq<char>, q: char, q2: char, s: string)
    requires s != []
    ensures Rewrite(OpenQuote(cs, q, q2), s) != [] && Rewrite(OpenQuote(cs, q, q2), s)[0] == s[0]
  {
    if MatchLength(OpenQuote(cs, q, q2), s) != 0 {
      QuoteMatch(cs, q, q2, s);
    }
  }

  /** After the replacement no `q` is left directly after a character of `cs`. */
  lemma {:induction false} OpenQuoteMarksAll(cs: seq<char>, q: char, q2: char, s: string)
    requires q2 !in cs && q2 != q
    ensures NoPair(Rewrite(OpenQuote(cs, q, q2), s), OneOf(cs), Char(q))
    decreases |s|
  {
    var r := OpenQuote(cs, q, q2);
    if s != [] {
      if MatchLength(r, s) == 0 {
        var tail := Rewrite(r, s[1..]);
        OpenQuoteMarksAll(cs, q, q2, s[1..]);
        if s[1..] != [] {
          QuoteFirst(cs, q, q2, s[1..]);
          assert !MatchesAt([OneOf(cs), Char(q)], s);
        }
        var out := [s[0]] + tail;
        assert Rewrite(r, s) == out;
        forall i | 0 <= i < |out| - 1
          ensures !(InClass(OneOf(cs), out[i]) && InClass(Char(q), out[i + 1]))
        {
          if i > 0 {
            assert out[i] == tail[i - 1] && out[i + 1] == tail[i];
          }
        }
      } else {
        QuoteMatch(cs, q, q2, s);
        var tail := Rewrite(r, s[2..]);
        OpenQuoteMarksAll(cs, q, q2, s[2..]);
        var out := [s[0], q2] + tail;
        forall i | 0 <= i < |out| - 1
          ensures !(InClass(OneOf(cs), out[i]) && InClass(Char(q), out[i + 1]))
        {
          if i > 1 {
            assert out[i] == tail[i - 2] && out[i + 1] == tail[i - 1];
          }
        }
      }
    }
  }

  /** As written: a `"` right after `[` stays a straight quote. */
  lemma OpenDoubleAsWrittenMissesBracket()
    ensures Rewrite(OpenDoubleAsWritten, "[\"") == "[\""
    ensures !NoPair(Rewrite(OpenDoubleAsWritten, "[\""), OneOf(" (["), Char('"'))
  {
    var s := "[\"";
    var r := OpenDoubleAsWritten;
    forall i | 0 <= i < |s|
      ensures MatchLength(r, s[i..]) == 0
    {
      NoMatchAt(r.classes, r.template, s, i, 0);
    }
    RewriteUnchanged(r, s);
    assert InClass(OneOf(" (["), s[0]);
  }

  /** As written: a `"` right after a closing `]` becomes an opening quote. */
  lemma OpenDoubleAsWrittenOpensAfterClose()
    ensures Rewrite(OpenDoubleAsWritten, "]\"") == [']', LeftDouble]
  {
    assert OpenDoubleAsWritten == OpenQuote(" (]", '"', LeftDouble);
    var s := "]\"";
    assert MatchesAt([OneOf(" (]"), Char('"')], s);
    QuoteMatch(" (]", '"', LeftDouble, s);
  }

  /** Corrected: every `"` after a space, `(` or `[` becomes `“`, as `'` does for `‘`. */
  lemma OpenQuotesMarked(s: string)
    ensures NoPair(Rewrite(OpenDouble, s), OneOf(" (["), Char('"'))
    ensures NoPair(Rewrite(OpenSingle, s), OneOf(" (["), Char('\''))
  {
    assert OpenDouble == OpenQuote(" ([", '"', LeftDouble);
    assert OpenSingle == OpenQuote(" ([", '\'', LeftSingle);
    OpenQuoteMarksAll(" ([", '"', LeftDouble, s);
    OpenQuoteMarksAll(" ([", '\'', LeftSingle, s);
  }

  // ---- The abbreviation pattern: only the first `.` is escaped ----

  lemma {:induction false} LiteralShape(a: string)
    ensures |Literal(a)| == |a| && forall i :: 0 <= i < |a| ==> Literal(a)[i] == Char(a[i])
    decreases |a|
  {
    if a != [] {
      LiteralShape(a[1..]);
    }
  }

  /** With every `.` escaped the pattern of `a` is the literal `a`. */
  lemma {:induction false} EscapedIsLiteral(a: string, seenDot: bool)
    ensures AbbrevPattern(a, true, seenDot) == Literal(a)
    decreases |a|
  {
    if a != [] {
      EscapedIsLiteral(a[1..], a[0] == '.' || seenDot);
    }
  }

  /** A literal pattern matches exactly where the text starts with it. */
  lemma MatchesLiteral(a: string, s: string)
    ensures MatchesAt(Literal(a), s) <==> a != [] && |a| <= |s| && s[..|a|] == a
  {
    LiteralShape(a);
    if a != [] && |a| <= |s| && s[..|a|] == a {
      assert forall i :: 0 <= i < |a| ==> s[i] == s[..|a|][i];
    }
    if MatchesAt(Literal(a), s) {
      assert forall i :: 0 <= i < |a| ==> InClass(Literal(a)[i], s[i]);
      assert s[..|a|] == a;
    }
  }

  lemma PlaceholderShape(nt: nat)
    ensures |Placeholder(nt)| >= 2 && Placeholder(nt)[0] == '_'
  {
  }

  lemma LitExpand(p: string, s: string)
    ensures Expand([Lit(p)], s) == p
  {
    assert Expand([Lit(p)][1..], s) == [];
  }

  lemma SuffixNoUnderscore(s: string, k: nat)
    requires '_' !in s && k <= |s|
    ensures '_' !in s[k..]
  {
    forall i | 0 <= i < |s| - k
      ensures s[k..][i] != '_'
    {
      assert s[k..][i] == s[i + k] && s[i + k] in s;
    }
  }

  lemma AbbrevNonEmpty(nt: nat)
    requires nt < |Abbrevs|
    ensures Abbrevs[nt] != []
  {
    assert nt == 0 || nt == 1 || nt == 2 || nt == 3 || nt == 4 || nt == 5 || nt == 6;
  }

  /** Where the corrected pattern of abbreviation `nt` matches, the text starts with it and it
      is swapped for the placeholder. */
  lemma EscapeAtMatch(nt: nat, s: string)
    requires nt < |Abbrevs| && MatchLength(EscapeRule(nt, true), s) != 0
    ensures var a := Abbrevs[nt];
      |a| <= |s| && s[..|a|] == a
      && Rewrite(EscapeRule(nt, true), s) == Placeholder(nt) + Rewrite(EscapeRule(nt, true), s[|a|..])
  {
    var a := Abbrevs[nt];
    EscapedIsLiteral(a, false);
    LiteralShape(a);
    MatchesLiteral(a, s);
    RewriteAtMatch(EscapeRule(nt, true), s);
    LitExpand(Placeholder(nt), s);
  }

  /** A placeholder at the front is swapped back for its abbreviation. */
  lemma RestoreAtPlaceholder(nt: nat, t: string)
    requires nt < |Abbrevs|
    ensures Rewrite(RestoreRule(nt), Placeholder(nt) + t) == Abbrevs[nt] + Rewrite(RestoreRule(nt), t)
  {
    var p := Placeholder(nt);
    var r := RestoreRule(nt);
    PlaceholderShape(nt);
    LiteralShape(p);
    MatchesLiteral(p, p + t);
    assert (p + t)[..|p|] == p;
    RewriteAtMatch(r, p + t);
    LitExpand(Abbrevs[nt], p + t);
    assert (p + t)[|p|..] == t;
  }

  /** A character other than `_` at the front starts no placeholder. */
  lemma RestoreSkips(nt: nat, c: char, t: string)
    requires nt < |Abbrevs| && c != '_'
    ensures Rewrite(RestoreRule(nt), [c] + t) == [c] + Rewrite(RestoreRule(nt), t)
  {
    PlaceholderShape(nt);
    NoMatchAt(Literal(Placeholder(nt)), [Lit(Abbrevs[nt])], [c] + t, 0, 0) by {
      LiteralShape(Placeholder(nt));
    }
    assert ([c] + t)[0..] == [c] + t;
    RewriteCopy(RestoreRule(nt), [c] + t);
    assert ([c] + t)[1..] == t;
  }

  /** Corrected: on text without `_`, protecting abbreviation `nt` and restoring it gives the
      text back. */
  lemma {:induction false} EscapeRestoreRoundTrip(nt: nat, s: string)
    requires nt < |Abbrevs| && '_' !in s
    ensures Rewrite(RestoreRule(nt), Rewrite(EscapeRule(nt, true), s)) == s
    decreases |s|
  {
    if s != [] {
      var a := Abbrevs[nt];
      var e := EscapeRule(nt, true);
      AbbrevNonEmpty(nt);
      if MatchLength(e, s) != 0 {
        EscapeAtMatch(nt, s);
        SuffixNoUnderscore(s, |a|);
        EscapeRestoreRoundTrip(nt, s[|a|..]);
        RestoreAtPlaceholder(nt, Rewrite(e, s[|a|..]));
        assert s == s[..|a|] + s[|a|..];
      } else {
        assert s[0] in s;
        RewriteCopy(e, s);
        SuffixNoUnderscore(s, 1);
        EscapeRestoreRoundTrip(nt, s[1..]);
        RestoreSkips(nt, s[0], Rewrite(e, s[1..]));
      }
    }
  }

  lemma AbbrevRulesFive()
    ensures EscapeRule(5, false) == Pattern([Char('A'), Char('.'), Char('M'), Dot], [Lit("__AB5__")])
    ensures RestoreRule(5) == Pattern(Literal("__AB5__"), [Lit("A.M.")])
  {
    assert Abbrevs[5] == "A.M.";
    assert Placeholder(5) == "__AB5__";
  }

  /** As written: the last `.` of `A.M.` matches any character but a line break, so
      protecting and restoring the abbreviation turns `A.M` followed by `c` into `A.M.`: in
      `A.M x` the space becomes a dot and `A.M.x` comes out as one token. */
  lemma AbbrevDotAsWritten(c: char, rest: string)
    requires !IsLineTerminator(c)
    ensures var e, r := EscapeRule(5, false), RestoreRule(5);
      Rewrite(r, Rewrite(e, "A.M" + [c] + rest)) == "A.M." + Rewrite(r, Rewrite(e, rest))
  {
    AbbrevRulesFive();
    var e := EscapeRule(5, false);
    var m := "A.M" + [c] + rest;
    assert MatchesAt(e.classes, m);
    LitExpand("__AB5__", m);
    RewriteAtMatch(e, m);
    assert m[4..] == rest;
    RestoreAtPlaceholder(5, Rewrite(e, rest));
  }
}
