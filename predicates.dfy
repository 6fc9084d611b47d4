/** The three character tests of the generator: `_needSpace`, `_isBreak` and `_isTerminal`. */
module Predicates {
  import opened Regex
  import opened Tokenizer

  /** `s.charAt(i)`: the one-character string at `i`, or `""` outside the string. */
  function CharAt(s: string, i: int): (r: string)
    ensures |r| <= 1
    ensures r == [] <==> !(0 <= i < |s|)
  {
    if 0 <= i < |s| then [s[i]] else ""
  }

  /** `needle` occurs in `hay` starting at position `i`. */
  predicate OccursAt(hay: string, needle: string, i: nat) {
    i + |needle| <= |hay| && hay[i..i + |needle|] == needle
  }

  lemma OccursShiftAt(hay: string, needle: string, i: nat)
    requires hay != []
    ensures OccursAt(hay[1..], needle, i) <==> OccursAt(hay, needle, i + 1)
  {
    if i + 1 + |needle| <= |hay| {
      var a, b := hay[1..][i..i + |needle|], hay[i + 1..i + 1 + |needle|];
      assert |a| == |b|;
      assert forall j :: 0 <= j < |a| ==> a[j] == b[j];
    }
  }

  /** An occurrence in `hay[1..]` is an occurrence in `hay` one position later. */
  lemma OccursShift(hay: string, needle: string)
    requires hay != []
    ensures forall i: nat :: OccursAt(hay[1..], needle, i) ==> OccursAt(hay, needle, i + 1)
    ensures forall i: nat :: 1 <= i && OccursAt(hay, needle, i) ==> OccursAt(hay[1..], needle, i - 1)
  {
    forall i: nat ensures OccursAt(hay[1..], needle, i) ==> OccursAt(hay, needle, i + 1) {
      OccursShiftAt(hay, needle, i);
    }
    forall i: nat | 1 <= i ensures OccursAt(hay, needle, i) ==> OccursAt(hay[1..], needle, i - 1) {
      OccursShiftAt(hay, needle, i - 1);
    }
  }

  /** `hay.indexOf(needle)`: the first position where `needle` occurs, or -1 when it occurs
      nowhere. */
  function IndexOf(hay: string, needle: string): (r: int)
    ensures r == -1 || 0 <= r <= |hay| - |needle|
    ensures r >= 0 ==> OccursAt(hay, needle, r) && forall i: nat :: i < r ==> !OccursAt(hay, needle, i)
    ensures r == -1 <==> forall i: nat :: !OccursAt(hay, needle, i)
    decreases |hay|
  {
    if |needle| > |hay| then -1
    else if hay[..|needle|] == needle then 0
    else
      var k := IndexOf(hay[1..], needle);
      OccursShift(hay, needle);
      assert !OccursAt(hay, needle, 0);
      if k < 0 then -1 else k + 1
  }

  /** The empty string occurs at position 0; a single character occurs iff it is in `hay`. */
  lemma {:induction false} IndexOfChar(hay: string, c: char)
    ensures IndexOf(hay, "") == 0
    ensures IndexOf(hay, [c]) > -1 <==> c in hay
    decreases |hay|
  {
    assert hay[..0] == "";
    if hay != [] {
      IndexOfChar(hay[1..], c);
      assert hay[..1] == [hay[0]];
      assert c in hay <==> c == hay[0] || c in hay[1..] by {
        assert hay == [hay[0]] + hay[1..];
      }
    }
  }

  /** Characters after which no space is put: opening quotes and brackets, em-dash, hyphen. */
  const NoSpaceAfter: string := [LeftSingle, LeftDouble, '(', '{', '[', EmDash, '-']
  /** Characters before which no space is put: closing quotes and brackets, dashes and
      punctuation. */
  const NoSpaceBefore: string := [RightSingle, RightDouble, ')', '}', ']', EmDash, '-', ',', ':', ';', '.', '!', '?']

  /** `_needSpace(text, word)`: whether a space goes between `text` and the next `word`. */
  predicate NeedSpace(text: string, word: string) {
    if IndexOf(NoSpaceAfter, CharAt(text, |text| - 1)) > -1 then false
    else if IndexOf(NoSpaceBefore, CharAt(word, 0)) > -1 then false
    else true
  }

  /** A space is needed iff both sides are non-empty, `text` does not end with an opening
      character and `word` does not begin with a closing one; an empty side gives no space
      because `indexOf("")` is 0. */
  lemma NeedSpaceChars(text: string, word: string)
    ensures NeedSpace(text, word) <==>
      text != [] && word != [] && text[|text| - 1] !in NoSpaceAfter && word[0] !in NoSpaceBefore
  {
    if text != [] {
      IndexOfChar(NoSpaceAfter, text[|text| - 1]);
    } else {
      IndexOfChar(NoSpaceAfter, ' ');
    }
    if word != [] {
      IndexOfChar(NoSpaceBefore, word[0]);
    } else {
      IndexOfChar(NoSpaceBefore, ' ');
    }
  }

  /** `/^[…]$/`: the whole string matches the pattern. */
  predicate WholeMatch(ks: seq<Class>, s: string) {
    MatchesAt(ks, s) && |s| == |ks|
  }

  const SentenceEnds: string := ['.', '!', '?', RightSingle, RightDouble]
  const SentenceStarts: string := [LeftSingle, LeftDouble] + "ABCDEFGHIJKLMNOPQRSTUVWXYZ"
  const Terminals: string := ['.', '!', '?']

  /** `_isBreak(prev, next)`: `prev` is `/^[.!?’”]$/` and `next` matches `/^[‘“A-Z]/`. */
  predicate IsBreak(prev: string, next: string) {
    WholeMatch([OneOf(SentenceEnds)], prev) && MatchesAt([OneOf(SentenceStarts)], next)
  }

  /** `_isTerminal(word)`: `word` is `/^[.!?]$/`. */
  predicate IsTerminal(word: string) {
    WholeMatch([OneOf(Terminals)], word)
  }

  lemma UpperLetters(c: char)
    ensures c in "ABCDEFGHIJKLMNOPQRSTUVWXYZ" <==> 'A' <= c <= 'Z'
  {
    var u := "ABCDEFGHIJKLMNOPQRSTUVWXYZ";
    if 'A' <= c <= 'Z' {
      assert u[c as int - 'A' as int] == c;
    }
  }

  /** A break is a lone `.`, `!`, `?`, `’` or `”` followed by a word starting with `‘`, `“`
      or an upper-case ASCII letter. */
  lemma IsBreakChars(prev: string, next: string)
    ensures IsBreak(prev, next) <==>
      && prev in [".", "!", "?", [RightSingle], [RightDouble]]
      && next != [] && (next[0] == LeftSingle || next[0] == LeftDouble || 'A' <= next[0] <= 'Z')
  {
    if next != [] {
      UpperLetters(next[0]);
      assert next[0] in SentenceStarts <==> next[0] in [LeftSingle, LeftDouble] || next[0] in "ABCDEFGHIJKLMNOPQRSTUVWXYZ";
    }
    if |prev| == 1 {
      assert prev == [prev[0]];
    }
  }

  /** A terminal token is exactly `.`, `!` or `?`. */
  lemma IsTerminalChars(word: string)
    ensures IsTerminal(word) <==> word == "." || word == "!" || word == "?"
  {
    if |word| == 1 {
      assert word == [word[0]];
    }
  }
}
