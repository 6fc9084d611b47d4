# jsmarkov in Dafny

A model of `js/markov.js`, a word-level, order-2 Markov text generator. It has four parts:

- **The tokenizer `_splitText`.** A fixed chain of global regular-expression replacements. It collapses whitespace and pads the text, and protects abbreviations behind `__ABn__` placeholders. It turns straight quotes into smart quotes, `...` into an ellipsis and `--` into an em-dash. It puts spaces around punctuation, undoing that for a hyphen or apostrophe between word characters. Last, it restores the abbreviations, trims, and splits on single spaces.
- **The predicates `_needSpace`, `_isBreak` and `_isTerminal`.**
- **The model builder `markovModel`.** One pass over the tokens fills two count tables:
  - the followers of every bigram;
  - the bigrams that start a sentence.
- **The generators `markovText` and `markovTaggedText`.** They pick a start bigram with a weighted draw. Then they slide a two-token window, drawing each next token from the follower counts. They stop at a dead end, or at a terminal token once the text is long enough. The tagged variant pools the tables of several models, scanned in order, and wraps every token in a `<span class='tagN'>` naming the model that supplied it.

Modules, leaf first:

| file | module | what it holds |
|---|---|---|
| `regex.dfy` | `Regex` | global replace (`Rewrite`) for fixed-length character-class patterns, and `\s+` |
| `tokenizer.dfy` | `Tokenizer` | the replacement chain of `_splitText`, `trim`, `split(' ')`, and the token shape lemmas |
| `findings.dfy` | `Findings` | the two tokenizer defects, as written and corrected |
| `hyphenation.dfy` | `Hyphenation` | hyphenated words and contractions stay one token |
| `predicates.dfy` | `Predicates` | `charAt`, `indexOf`, `_needSpace`, `_isBreak`, `_isTerminal` |
| `tables.dfy` | `Tables` | insertion-ordered string-keyed tables (`Get`, `Put`, `Bump`, `Total`) |
| `builder.dfy` | `Builder` | `markovModel`: the counting loop and what the counts mean |
| `selection.dfy` | `Selection` | the subtract-and-test scan, alone and across several tables |
| `generator.dfy` | `Generator` | `markovText`, `markovTaggedText` and the tagged HTML |

How the model stands in for the JavaScript:

- **Draws.** Every `Math.random()` value is a supplied real in `[0, 1)`: `startDraw` for the start, then one element of `draws` per generated token. `Math.random()*total` is `Scale(u, total)`, the draw added `total` times. `ScaleIsProduct` proves that this equals `u * total`.
- **Loop bound.** `MarkovText` and `MarkovTaggedText` run the do-while loop until one of three things happens, which `Stop` records:
  - the source's loop would stop (`DeadEnd`, `Complete`);
  - the draws run out (`OutOfDraws`).
- **Tables.** A JavaScript object used as a table is a sequence of `(key, value)` pairs in insertion order. That is the order in which `for…in` visits it.
- **Abbreviation loops.** The two loops over `_abbrevs` are the rule lists `EscapeRules` and `RestoreRules`.

## Model

| member | source | states |
|---|---|---|
| Regex.SpaceRun | js/markov.js:32 | the whitespace run at the front of the text: all of it whitespace, and the next character is not |
| Regex.MatchLength | js/markov.js:41-57 | a pattern matches at the front exactly when every class holds, and then it covers the pattern's length; `\s+` matches exactly a leading whitespace character |
| Regex.Rewrite | js/markov.js:32-65 | `s.replace(/re/g, rep)`: the definition of a global, left-to-right, non-overlapping replacement; its meaning is stated by the `Rewrite…` and `SplitPair…` lemmas |
| Regex.ApplyAll | js/markov.js:32-63 | the statements `text = text.replace(…)` run one after the other, as a definition; `ApplyAllAppend` and `ApplyAllBlank` state what it keeps |
| Regex.RewriteUnchanged | js/markov.js:41-57 | a replacement that matches nowhere leaves the text unchanged |
| Regex.RewriteAbsent | js/markov.js:41-50 | a pattern needing a character the text lacks leaves it unchanged |
| Regex.RewritePairAbsent | js/markov.js:53-57 | a two-character pattern leaves text without such a pair unchanged |
| Regex.RewriteCharMap | js/markov.js:45 | replacing every `'` by `’` maps exactly those characters, and leaves the rest and the length alone |
| Regex.SplitPairOnce | js/markov.js:53-55 | a spacing replacement puts one space into a single matching pair and changes nothing else |
| Regex.SplitPairSeparates | js/markov.js:53-55 | after a spacing replacement no pair of its two classes is left adjacent |
| Regex.SplitPairPreserves | js/markov.js:53-55 | a spacing replacement creates no new adjacent pair of classes that exclude the space |
| Regex.ApplyAllAppend | js/markov.js:32-63 | running two stretches of replacements in a row is running their concatenation |
| Regex.WhitespaceExact | js/markov.js:32 | `/\s+/g` to `' '` matches only blank text and replaces it with blank text |
| Regex.RewriteBlank | js/markov.js:32-65 | a replacement that turns each match into blank text exactly when the match is blank leaves a text blank exactly when it was blank |
| Regex.ApplyAllBlank | js/markov.js:32-63 | a chain of such replacements leaves a text blank exactly when it was blank |
| Regex.SplitPairExact | js/markov.js:53-55 | a spacing replacement keeps both matched characters, so it turns a match into blank text exactly when the match was blank |
| Regex.InkedExact | js/markov.js:36-62 | a pattern with a position that excludes whitespace, and a replacement with a piece that is never blank, has neither blank matches nor blank replacements |
| Tokenizer.TrimStart | js/markov.js:32 | `trim` at the front removes exactly the leading whitespace: a suffix that starts with no whitespace, everything before it whitespace |
| Tokenizer.TrimEnd | js/markov.js:32 | `trim` at the back removes exactly the trailing whitespace: a prefix that ends with no whitespace, everything after it whitespace |
| Tokenizer.ParseNatText | js/markov.js:37 | the decimal text of a number reads back as that number; placeholder and tag numbers are written this way |
| Tokenizer.CollapseShape | js/markov.js:32 | collapsing the whitespace of trimmed text leaves single spaces only, none at either end |
| Tokenizer.CollapseInner | js/markov.js:65 | collapsing leaves no whitespace but single spaces, and never two spaces in a row |
| Tokenizer.SplitPiecesNoWhitespace | js/markov.js:65 | the pieces of `split(' ')` hold no whitespace once all whitespace is single spaces |
| Tokenizer.SplitPiecesNonEmpty | js/markov.js:65 | without doubled or trailing spaces only the first piece can be empty, exactly when the text starts with a space |
| Tokenizer.FinishTokens | js/markov.js:65 | the final tokens hold no whitespace, and none is empty unless the result is the single empty token |
| Tokenizer.TokensWellFormed | js/markov.js:29-66 | for both the tokenizer as written and the corrected one: every token is whitespace-free; a blank input gives exactly the single empty token `[""]`; and any input with a non-whitespace character gives only non-empty tokens |
| Tokenizer.Tokenize | js/markov.js:29-66 | the shape of `_splitText`, as a definition: pad and collapse, run a chain of replacements, then trim, collapse and split; `TokensWellFormed` and `JoinedWordIsOneToken` state what it returns |
| Tokenizer.SplitTextAsWritten | js/markov.js:29-66 | `_splitText` as the source writes it, with the abbreviation pattern of line 36 and the class of line 43 as they stand; it is the tokenizer `Builder.MarkovModel` uses |
| Tokenizer.SplitText | js/markov.js:29-66 | `_splitText` with the two corrections of the findings below |
| Tokenizer.PipelineExact | js/markov.js:35-63 | every replacement between the padding and the final split, as written and corrected, turns a blank match into blank text and any other match into text with a non-whitespace character |
| Tokenizer.TrimBlank | js/markov.js:32 | `trim` gives blank text exactly for blank text, and then the empty string |
| Tokenizer.PrepareBlank | js/markov.js:32 | the padded and collapsed text is blank exactly when the input is |
| Tokenizer.FinishBlank | js/markov.js:65 | the final trim and split give `[""]` exactly for blank text, and only non-empty tokens otherwise |
| Tokenizer.SplitJoined | js/markov.js:133 | splitting a bigram key made of two space-free tokens gives back exactly those two tokens |
| Tokenizer.SpacingIsolatesPunctuation | js/markov.js:53-55 | after the three spacing replacements no word character touches punctuation, in either order |
| Findings.OpenQuoteMarksAll | js/markov.js:41 | after an opening-quote replacement no straight quote is left after a character of its class |
| Findings.OpenQuotesMarked | js/markov.js:41-43 | with the corrected class both `'` and `"` after a space, `(` or `[` become opening quotes |
| Findings.OpenDoubleAsWrittenMissesBracket | js/markov.js:43 | as written, `"` after `[` stays a straight quote |
| Findings.OpenDoubleAsWrittenOpensAfterClose | js/markov.js:43 | as written, `"` after `]` becomes an opening quote |
| Findings.EscapedIsLiteral | js/markov.js:36 | with every `.` escaped, the pattern of an abbreviation is the abbreviation literally |
| Findings.MatchesLiteral | js/markov.js:36-37 | a literal pattern matches exactly where the text starts with it |
| Findings.AbbrevRulesFive | js/markov.js:36-37 | as written, the escape pattern of `A.M.` ends in a wildcard, and its placeholder is `__AB5__` |
| Findings.AbbrevDotAsWritten | js/markov.js:36 | as written, protecting and restoring `A.M.` turns `A.M` plus any non-line-break character into `A.M.` |
| Findings.EscapeAtMatch | js/markov.js:37 | where a corrected abbreviation pattern matches, the text starts with the abbreviation and it becomes the placeholder |
| Findings.RestoreAtPlaceholder | js/markov.js:60-63 | a placeholder at the front becomes its abbreviation again |
| Findings.EscapeRestoreRoundTrip | js/markov.js:35-63 | corrected: on text without `_`, protecting then restoring an abbreviation gives the text back |
| Hyphenation.EscapesWithoutDot | js/markov.js:35-38 | text without `.` holds no abbreviation, so the escape loop leaves it unchanged |
| Hyphenation.RestoresWithoutUnderscore | js/markov.js:60-63 | text without `_` holds no placeholder, so the restore loop leaves it unchanged |
| Hyphenation.QuoteRulesMapApostrophes | js/markov.js:41-50 | on text with no quote context, dots or `--`, the quote, ellipsis and dash replacements only turn `'` into `’` |
| Hyphenation.SpaceBeforeMark | js/markov.js:53 | a mark between two alphanumeric words gets a space before it |
| Hyphenation.OnePunctPair | js/markov.js:54 | one lone mark forms no punctuation pair |
| Hyphenation.SpaceAfterMark | js/markov.js:55 | the mark gets a space after it |
| Hyphenation.RejoinAround | js/markov.js:57 | a spaced `u - v` or `u ’ v` is joined back to `u-v` or `u’v` |
| Hyphenation.SpacingThenRejoin | js/markov.js:53-57 | spacing then rejoining gives a padded hyphenated word or contraction back unchanged |
| Hyphenation.JoinedWordPipeline | js/markov.js:35-63 | the whole replacement chain turns a padded `u-v` into itself and a padded `u'v` into `u’v` |
| Hyphenation.JoinedWordIsOneToken | js/markov.js:29-66 | `well-known` and `don't` each come out as a single token, the apostrophe as `’` |
| Predicates.CharAt | js/markov.js:70 | `charAt` gives one character inside the string and `""` outside |
| Predicates.IndexOf | js/markov.js:70 | `indexOf` is the first position where the needle occurs: it occurs there and at no earlier position; and it is -1 exactly when the needle occurs nowhere |
| Predicates.IndexOfChar | js/markov.js:70-72 | `indexOf("")` is 0, and a one-character needle is found exactly when it occurs |
| Predicates.NeedSpaceChars | js/markov.js:68-75 | a space is needed exactly when both sides are non-empty, the text ends in no opening character and the word starts with no closing one |
| Predicates.NeedSpace | js/markov.js:68-75 | `_needSpace` as the two `indexOf` tests of the source, as a definition; `NeedSpaceChars` states what it means |
| Predicates.UpperLetters | js/markov.js:78 | the letters of the class are exactly `A` to `Z` |
| Predicates.IsBreakChars | js/markov.js:77-79 | a break is exactly a lone `.`, `!`, `?`, `’` or `”` before a word starting with `‘`, `“` or `A`-`Z` |
| Predicates.IsBreak | js/markov.js:77-79 | `_isBreak` as the two anchored class matches of the source, as a definition; `IsBreakChars` states what it means |
| Predicates.IsTerminalChars | js/markov.js:81-83 | a terminal token is exactly `.`, `!` or `?` |
| Predicates.IsTerminal | js/markov.js:81-83 | `_isTerminal` as the anchored class match of the source, as a definition; `IsTerminalChars` states what it means |
| Tables.GetPut | js/markov.js:98-105 | after `t[k] = v`, looking up `k` gives `v` and every other key is unchanged |
| Tables.PutKeys | js/markov.js:98-102 | assignment keeps the key order and appends a new key at the end |
| Tables.PutTotal | js/markov.js:109-116 | assignment changes the total by the new count minus the old one |
| Tables.PutDistinct | js/markov.js:98-116 | assignment keeps keys distinct |
| Tables.PutPositive | js/markov.js:109-116 | assigning a positive count keeps all counts positive |
| Tables.BumpGet | js/markov.js:101-105 | an increment raises the incremented key by one and leaves the rest unchanged |
| Tables.BumpInvariants | js/markov.js:101-105 | an increment adds one to the total and keeps counts positive, keys distinct and the key order |
| Tables.GetAtMostTotal | js/markov.js:145-150 | one count is at most the total |
| Tables.TotalAppend | js/markov.js:170-175 | the total of two tables one after the other is the sum of their totals |
| Builder.MarkovModel | js/markov.js:86-121 | the model is the count tables of the tokens that `_splitText` as written gives for the input, and is well formed |
| Builder.CountTokens | js/markov.js:94-118 | the loop yields the tables of all iterations, with distinct keys and positive counts |
| Builder.FollowersUpTo | js/markov.js:94-105 | the follower table after the first `n` iterations of the loop, as a definition; `FollowerCounts`, `FollowerKeys` and `ModelCounts` state what it holds |
| Builder.StartsUpTo | js/markov.js:106-117 | the start table after the first `n` iterations of the loop, as a definition; `StartCounts` and `StartKeys` state what it holds |
| Builder.ModelOf | js/markov.js:88-120 | the two tables after the whole loop, as a definition; `ModelCounts`, `StartCounts` and `StartsShape` state what it holds |
| Builder.Increment | js/markov.js:101-105 | the count of the key goes up by one, starting at 1, and the total by one |
| Builder.RecordFollower | js/markov.js:98-105 | creating the inner table when missing, then incrementing, is one follower recorded |
| Builder.AddFollowerSteps | js/markov.js:98-100 | creating an empty inner table first does not change the outcome |
| Builder.FollowerCounts | js/markov.js:94-105 | `followers[k][f]` counts the positions where the bigram keyed `k` is followed by `f` |
| Builder.FollowerMass | js/markov.js:94-105 | the follower counts of the first `n` iterations add up to `n` |
| Builder.AddFollowerMass | js/markov.js:98-105 | recording one follower adds one to the sum of all follower counts |
| Builder.FollowerKeys | js/markov.js:96-100 | a bigram key is in the follower table exactly when that bigram occurs before the last token |
| Builder.FollowersWellFormed | js/markov.js:98-105 | the follower table has distinct keys, and every inner table has distinct keys and positive counts |
| Builder.StartCounts | js/markov.js:107-117 | `starts[k]` is 1 for the first bigram plus one per sentence break at a position from 1 on that starts `k`; a break at position 0 is skipped |
| Builder.StartsWellFormed | js/markov.js:107-117 | the start table has distinct keys and positive counts |
| Builder.StartKeys | js/markov.js:107-117 | every start key is the key of a bigram of the tokens |
| Builder.ModelWellFormed | js/markov.js:86-121 | every model built from tokens has distinct keys and positive counts throughout |
| Builder.KeyInjective | js/markov.js:96 | two bigrams of space-free tokens have the same key exactly when they are equal |
| Builder.KeyTripleIsTriple | js/markov.js:96-105 | for space-free tokens, counting by key is counting the triple itself |
| Builder.ModelCounts | js/markov.js:94-105 | `followers["a b"][f]` is the number of occurrences of `a b f`, and the counts add up to N-2 |
| Builder.StartsShape | js/markov.js:94-117 | below three tokens both tables are empty; from three on the first bigram is a start with a positive count |
| Builder.FollowerEntryOccurs | js/markov.js:94-105 | every follower entry records a triple that occurs in the tokens |
| Builder.StartEntryOccurs | js/markov.js:107-117 | every start entry is a bigram that occurs in the tokens |
| Selection.PrefixMonotone | js/markov.js:130-135 | running sums never decrease |
| Selection.PickFirst | js/markov.js:130-135 | the picked entry is the first whose running sum reaches the draw value |
| Selection.PickUnique | js/markov.js:130-135 | any entry that is first to reach the draw value is the picked one |
| Selection.PickInterval | js/markov.js:153-158 | entry `i` is picked exactly for the draw values in its own stretch of the running sums, which is as long as its count |
| Selection.PickPositive | js/markov.js:153-158 | a positive draw value never picks an entry with count 0 |
| Selection.Pick | js/markov.js:130-135 | the entry the subtract-and-test scan stops at is an entry of the table; `PickFirst`, `PickUnique` and `PickInterval` characterise which |
| Selection.Scan | js/markov.js:130-136 | the scan stops at the picked entry when the total reaches the value, and otherwise runs through, subtracting the total |
| Selection.SumCounts | js/markov.js:124-127 | the sum of a table's counts |
| Selection.SumPooled | js/markov.js:170-175 | the sum of the counts of all tables |
| Selection.PooledIsConcat | js/markov.js:170-175 | the pooled total is the total of the tables one after the other |
| Selection.PickPooledIsConcat | js/markov.js:179-187 | scanning tables in order picks the same entry as one scan over their concatenation |
| Selection.PickPooled | js/markov.js:179-187 | the table and entry the scan across tables stops at are a table and an entry of it; `PickPooledIsConcat` ties it to one scan over the concatenation |
| Selection.LandsStep | js/markov.js:179-187 | each table either holds the pick or passes it on with its total subtracted |
| Selection.SelectPooled | js/markov.js:178-187 | the scan across tables stops at the table and entry of the pooled pick |
| Selection.PickPooledSingle | js/markov.js:179-187 | one table pooled on its own is that table |
| Generator.Scale | js/markov.js:128 | a draw scaled by a positive total lies in `[0, total)` |
| Generator.ScaleIsProduct | js/markov.js:128 | the scaled draw is `u * total` |
| Generator.ScaleDraw | js/markov.js:152 | the product of the draw and the total lies in `[0, total)` |
| Generator.RenderSnoc | js/markov.js:160-161 | one more token appends it to the text with the space `_needSpace` asks for |
| Generator.RenderPrefix | js/markov.js:160-161 | the text only grows: each earlier text is a prefix of a later one |
| Generator.Render | js/markov.js:141-161 | the text `markovText` accumulates from its tokens, as a definition; `RenderSnoc`, `RenderPrefix` and `RenderIsJoined` state what it is |
| Generator.GoesOn | js/markov.js:164 | the do-while condition after the last token, as a definition; `Continues` ties the loop's test to it |
| Generator.AppendToken | js/markov.js:160-161 | the text extended by one token |
| Generator.Continues | js/markov.js:164 | the loop goes on exactly when the last token is not terminal or the text is shorter than the target |
| Generator.ChooseStart | js/markov.js:124-139 | the two start tokens are the first two pieces of the start key the draw picks |
| Generator.ChooseFollower | js/markov.js:144-159 | a follower is found exactly when the bigram has followers, and it is the one the draw picks |
| Generator.WalkedSnoc | js/markov.js:143-164 | a drawn follower extends a walk that follows the tables |
| Generator.MarkovText | js/markov.js:123-167 | the tokens start with the drawn start bigram, and each later one is the drawn follower of the two before it; the text joins them. The walk stops at a dead end only where there are no followers, stops as complete exactly when the last token is terminal and the text long enough, and otherwise used every draw |
| Generator.WalkedHasFollowers | js/markov.js:151 | every bigram before the last of a walk had followers |
| Generator.StartPairOccurs | js/markov.js:133-139 | the start pair of a walk is a bigram of the text the model was built from |
| Generator.TripleOccurs | js/markov.js:144-159 | every three tokens in a row of a walk are a triple of that text |
| Generator.WalkTokensSpaceFree | js/markov.js:133-163 | a walk over the model of space-free tokens has space-free tokens |
| Generator.WalkStaysInText | js/markov.js:138-164 | a walk only emits bigrams and triples of the text the model was built from |
| Generator.ModelIsWalkable | js/markov.js:94-117 | the model of three or more non-empty, space-free tokens has a positive start total, start keys that split into two tokens, and no empty follower |
| Generator.TextModelIsWalkable | js/markov.js:93-139 | the model built from any text that splits into three tokens or more, with `_splitText` as written or corrected, can be started and walked, and its tokens are space-free |
| Generator.ThreeTokenWalk | js/markov.js:143-151 | the tokens `A B C` give one start and one triple, and every walk is a prefix of `A B C` that stops there |
| Generator.FollowerTablesNonEmpty | js/markov.js:209-214 | no follower table of any model holds an empty token |
| Generator.ChooseTaggedStart | js/markov.js:170-193 | the start tokens are those of the bigram the pooled draw picks, both tagged with its model's number |
| Generator.ScanTokens | js/markov.js:207-219 | the search across models stops at the model and entry of the pooled pick |
| Generator.ChooseTaggedFollower | js/markov.js:196-219 | a follower is found exactly when some model has one, and it is the pooled pick, tagged with its model's number |
| Generator.TaggedWalkedSnoc | js/markov.js:195-225 | a drawn tagged follower extends a tagged walk |
| Generator.TaggedAdvance | js/markov.js:220-224 | one step keeps the tokens, tags and text consistent with the walk |
| Generator.StartProvenance | js/markov.js:179-193 | the start tag names a model whose start table holds a key splitting into the two start tokens |
| Generator.StepProvenance | js/markov.js:207-222 | a tag names a model whose follower table of the bigram holds the token |
| Generator.TaggedProvenance | js/markov.js:169-228 | every token of a tagged walk is tagged with a model that supplied it |
| Generator.SingleStartable | js/markov.js:170-187 | one model on its own can start a tagged walk exactly when it can start a plain one |
| Generator.SingleStep | js/markov.js:196-219 | over one model a tagged step is a plain step tagged 1, and a dead end is a plain dead end |
| Generator.TaggedOneModel | js/markov.js:169-228 | over one model the tagged walk is the plain walk of `markovText`, every token tagged 1 |
| Generator.SpansAt | js/markov.js:193 | span `j` wraps token `j` in the span of tag `j` |
| Generator.RenderIsJoined | js/markov.js:192-222 | the plain text is the tagged text's join with every token written bare |
| Generator.TaggedRender | js/markov.js:191-222 | the HTML `markovTaggedText` returns for given tokens and tags, as a definition; `SpansAt`, `TaggedRenderTwo` and `TaggedRenderSnoc` state what it is |
| Generator.SpansSnoc | js/markov.js:222 | one more token adds one span |
| Generator.TaggedRenderSnoc | js/markov.js:220-222 | one more token appends the plain text's gap and the token's span to the tagged text |
| Generator.TaggedRenderTwo | js/markov.js:191-193 | the tagged text of the start is the two spans with the gap of the plain text |
| Generator.AppendSpan | js/markov.js:220-222 | the tagged text extended by the gap and one span |
| Generator.MarkovTaggedText | js/markov.js:169-228 | as `MarkovText` over the pooled tables: the tokens are the pooled start then pooled followers, each tagged with its model; the returned HTML is the tagged rendering of exactly those tokens and tags; it stops at a dead end only where no model has followers, as complete exactly when the stopping rule holds, and otherwise used every draw |

## Left out

- Randomness and floating point: every `Math.random()` value is a parameter, and the arithmetic on it is exact real arithmetic, so float rounding in `Math.random()*total` and in the running subtraction is not modelled.
- Unbounded loops: both do-while loops are cut off when the supplied draws run out (`OutOfDraws`). How long the source would go on past that, and whether it ends at all, is not modelled.
- Generator.MarkovText, Generator.MarkovTaggedText, Generator.ChooseStart, Generator.ChooseTaggedStart: require a positive start total whose keys split into two tokens. The source crashes on an empty start table; that case is excluded rather than modelled. `TextModelIsWalkable` proves that every model built from three tokens or more meets it.
- Generator.MarkovTaggedText, Generator.ChooseTaggedFollower, Generator.ScanTokens: require that no follower token is empty. The source's search across models uses an empty token to mean "not found yet", so an empty follower would make it run on into the next model. Models built by `markovModel` have no empty follower token. For three tokens or more this is proved (`TextModelIsWalkable`); below three the tables are empty (`StartsShape`).
- Enumeration order: V8 visits integer-like keys (a token such as `1999`) before other keys in `for…in`. The tables here keep plain insertion order.
- Prototype keys: the follower tables are plain objects, so the lookup `model.followers[k][f]` at js/markov.js:101 finds an inherited property when the token `f` is `constructor`, `toString` or another name on `Object.prototype`. Then `+= 1` at line 104 turns that count into a string. The bigram keys of `model.followers[k]` and `model.starts[s]` always hold a space, so those lookups are not affected. The tables here have no prototype: such a token is counted like any other.
- UTF-16 code units: strings here are sequences of Unicode characters, while the source works on UTF-16 code units throughout. None of the tokenizer's regular expressions has the `u` flag, so they match code units; `charAt` at js/markov.js:70 and 72 returns one code unit; and `text.length` at line 164 counts code units. A character outside the Basic Multilingual Plane is one character here but two surrogates in the source: `_splitText("a😀b")` splits the pair into two tokens of one surrogate each, and the model gives one token for the character.
- Regular expressions: only the fixed-length patterns the tokenizer uses, plus `\s+`, are modelled. `\s` is the fixed ECMAScript whitespace set.
- Tokenization idempotence (re-tokenizing the joined tokens gives the same tokens) is not proved.
- Abbreviation preservation over a whole text (`Dr. Smith` giving the token `Dr.`) is not proved end to end. What is proved is the per-abbreviation round trip `EscapeRestoreRoundTrip`.
- The statistics of sampling are not modelled. `PickInterval` states that each entry is picked on a stretch of draw values as long as its count.
- Tokenizer.Split: states only that there is at least one piece. What the pieces are is stated by the lemmas about it (`SplitJoined`, `SplitPiecesNoWhitespace`, `SplitPiecesNonEmpty`).

How the code differs from a plain description of the system, with the model following the code:

- **Start table with two tokens.** Exactly two tokens give an empty start table, because the counting loop runs only up to the third-last token (`StartsShape`).
- **Blank input.** A blank text tokenizes to the single empty token `[""]`, and only a blank text does (`TokensWellFormed`).
- **Sentence breaks.** A sentence break needs an ASCII capital `A`-`Z`, not any upper-case letter (`IsBreakChars`).
- **Tagged output.** The tagged generator returns HTML spans, not (token, model) pairs. `MarkovTaggedText` returns both: the tokens with their tags, and the HTML built from them.
- **Runaway guard.** There is no guard against a walk that runs on. The model's only bound is the supplied draws.

## Findings

| source | as written | input that shows it | evidently intended | confidence | as-written member | corrected member |
|---|---|---|---|---|---|---|
| js/markov.js:36 | the abbreviation pattern is built with a `replace` that has no `g` flag, so only the first `.` is escaped and the last `.` of `A.M.` and `P.M.` matches any character | `A.M x` comes back from protecting and restoring as `A.M.x` | every `.` of an abbreviation escaped, so the text comes back unchanged | not executed | Findings.AbbrevDotAsWritten | Findings.EscapeRestoreRoundTrip |
| js/markov.js:43 | the class before an opening double quote is `[ \(\]]`, with `]` where the single-quote rule on line 41 has `[` | `["` keeps the straight quote, and `]"` turns into `]“` | `[ \(\[]`, as on line 41 | not executed | Findings.OpenDoubleAsWrittenMissesBracket | Findings.OpenQuotesMarked |

The tokenizer as written is `Tokenizer.SplitTextAsWritten`, and `Builder.MarkovModel` uses it, as `markovModel` does. The corrected tokenizer is `Tokenizer.SplitText`. The token properties `Tokenizer.TokensWellFormed`, `Hyphenation.JoinedWordIsOneToken` and `Generator.TextModelIsWalkable` are proved for both. `Findings.OpenDoubleAsWrittenOpensAfterClose` shows the second half of the line 43 defect.
