# Sentiment lexicon build, modelled in Dafny

The build script `build/build.js` fills one result hash, token to score, from
three source files and writes it out as the lexicon:

- the emoji sentiment CSV (`processEmoji`): for each row of 9 comma fields, the
  emoji decoded from field 1 gets `Math.floor(5 * (pos/occ - neg/occ))`. The
  counts come from fields 6, 4 and 2. Rows scoring NaN or 0 are dropped;
- the AFINN word list (`processAFINN`): each `word<TAB>score` line sets
  `hash[word] = Number(score)`. The score is copied verbatim, with no zero filter.
  The first line is read too, and only lines with an empty first field are
  skipped;
- the two SentiWS lists (`processSentiWSData`, run by `processSentiWS` on the
  positive file and then the negative file): for each row of 3 tab fields,
  `Math.floor(5 * parseFloat(weight))` is assigned to every comma piece of
  field 2 and then to the lemma, which is field 0 up to its first `|`. Rows
  scoring NaN or 0 are dropped.

The `async.waterfall` runs these stages in a fixed order on one hash that
starts empty: emoji, AFINN, positive SentiWS, negative SentiWS. Every later
assignment overwrites an earlier one.

The modules follow that structure:

- `Text` (text.dfy): JavaScript's `split` on one character, which keeps empty
  pieces. It is proved to be the inverse of `Join`.
- `JsNumbers` (numbers.dfy): numbers as exact decimals `Finite(mantissa, scale)`
  or `NaN`. It covers `Number(text)` (used by `Number()` and by the implicit
  conversion `/` makes), `parseFloat`, and `Math.floor` of an exact quotient.
- `Merge` (merge.dfy): an assignment `hash[token] = score` is an `Entry`.
  `Store(h, ws)` performs assignments in order. Its lemmas cover last writer
  wins, the frame and the key set.
- `Rows` (rows.dfy): what one line of each file assigns (`EmojiRow`,
  `AfinnRow`, `SentiWSRow`), with the exact emoji and SentiWS arithmetic.
- `Stages` (stages.dfy): a whole file. It is split at `'\n'`; the header line
  is skipped where the reader skips it; the lines' assignments are gathered in
  order (`FileEntries`).
- `Build` (build.dfy): class `Lexicon`, whose field `hash` the reader methods
  update in place with the source's own loops. `RunBuild` is the waterfall.
  The cross-stage lemmas are here too.
- `Samples` (samples.dfy): one worked row per reader, taken through the
  definitions.

Each reader method is proved to leave
`hash == Store(old(hash), FileEntries(format, data))`. The properties of the
build are proved as lemmas about `Store` and `FileEntries`.

The emoji decoding `String.fromCodePoint` is a parameter `decode` of the
model. The file contents are parameters: each reader takes the text of its
file.

JavaScript's `"".split(',')` is `[""]`, so a SentiWS row with an empty forms
field also assigns its score to the empty string, before the lemma
(`Rows.SentiWSEmptyForms`).

## Model

| member | source | states |
|---|---|---|
| Build.Lexicon.constructor | build/build.js:146-149 | the waterfall starts from an empty hash |
| Build.Lexicon.ProcessEmoji | build/build.js:24-48 | the hash afterwards is the old hash with every assignment of the emoji file's lines from line 1 on performed in order |
| Build.Lexicon.ProcessAFINN | build/build.js:66-77 | the hash afterwards is the old hash with every assignment of all the AFINN lines, line 0 included, performed in order |
| Build.Lexicon.ProcessSentiWSData | build/build.js:85-111 | the hash afterwards is the old hash with every assignment of the SentiWS lines from line 1 on performed in order |
| Build.Lexicon.SetAll | build/build.js:108-110 | the forEach assigns the one score to each word in turn, so a repeated word ends with that score too |
| Build.Lexicon.ProcessSentiWS | build/build.js:119-129 | the positive file's assignments and then the negative file's are performed on the same hash |
| Build.RunBuild | build/build.js:146-153 | the result is the empty hash after emoji, AFINN, positive and negative SentiWS assignments, in that order |
| Build.BuildResult | build/build.js:146-153 | the build's hash is what the four stages give when each starts from the hash the one before left: emoji, AFINN, positive SentiWS, negative SentiWS |
| Build.StageOrder | build/build.js:146-153 | a key is in the result iff some stage names it; the negative list decides any key it names, then the positive list, then AFINN, then the emoji CSV |
| Build.ZeroOnlyFromAfinn | build/build.js:43-44 | a 0 or NaN in the result can only come from AFINN, and only for a key neither SentiWS list names |
| Stages.HeaderLineSkipped | build/build.js:31 | the emoji and SentiWS readers ignore line 0: a file reads as its lines after the first |
| Stages.AfinnFirstLineRead | build/build.js:69-76 | the AFINN reader has no header check: line 0 assigns like any other line |
| Stages.IgnoredLine | build/build.js:32 | a line that assigns nothing (wrong field count, NaN or 0 score) can be removed from a run of lines without changing what the run assigns |
| Stages.FileIgnoredLine | build/build.js:27-48 | a line that assigns nothing can be removed from a file without changing what the reader assigns, provided it is a line the reader uses (for emoji and SentiWS, not line 0) |
| Stages.LastLineWins | build/build.js:47 | within a run of lines, a token's last assignment by the last line naming it decides its value, whatever the hash held before |
| Stages.FileLastLineWins | build/build.js:27-48 | within a file, a token's last assignment by the last used line naming it (for emoji and SentiWS, a line after line 0) decides its value, whatever the hash held before |
| Stages.UntouchedKey | build/build.js:108-110 | a key no line names keeps its value or stays absent, and no key is removed |
| Stages.GatherTokens | build/build.js:27-48 | a run of lines names a key exactly when one of its lines does |
| Stages.FileTokens | build/build.js:27-48 | a file names a key exactly when one of the lines its reader uses names it: any line for AFINN, a line after line 0 for emoji and SentiWS |
| Stages.StageNonzero | build/build.js:104-105 | any run of lines read by the emoji or SentiWS reader assigns only finite numbers other than 0 |
| Stages.FileEntries | build/build.js:24-31 | a file's assignments are its used lines' assignments in order; for the emoji and SentiWS readers they are all finite numbers other than 0 (with Stages.FileTokens, Stages.FileIgnoredLine and Stages.FileLastLineWins: a file names a key iff one of its used lines does, a used line assigning nothing can be dropped, and the last used line naming a key decides it) |
| Stages.UsedLines | build/build.js:85-92 | the lines of a file cut at newlines are its header line followed by the used lines for the emoji and SentiWS readers, and exactly the used lines for AFINN |
| Stages.GatherSingle | build/build.js:88-111 | a run of one line assigns exactly what that line assigns (a file of one line assigns nothing for emoji and SentiWS, which skip line 0) |
| Stages.ParseNonzero | build/build.js:43-44 | one emoji or SentiWS line only assigns finite numbers other than 0 |
| Stages.GatherAppend | build/build.js:88-111 | reading two runs of lines one after the other makes the assignments of both, in order |
| Rows.EmojiRowSpec | build/build.js:28-47 | an emoji line assigns iff it has 9 fields and its counts score neither NaN nor 0, and then exactly one entry: decoded field 1 gets the floor of 5*(pos/occ - neg/occ) |
| Rows.EmojiSentiment | build/build.js:36-40 | the sentiment is a number iff the three counts are numbers and occ is not 0, and it is then the floor of the exact 5*(pos/occ - neg/occ) |
| Rows.EmojiIntegerCounts | build/build.js:35-47 | a row with integer counts assigns floor(5*(pos-neg)/occ) to the decoded emoji unless that is 0, and a zero occurrence count assigns nothing |
| Rows.EmojiSentimentIntegers | build/build.js:39-40 | with integer counts the sentiment is floor(5*(pos-neg)/occ), and NaN when occ is 0 |
| Rows.EmojiRow | build/build.js:32-47 | an emoji line assigns at most one entry, and only a finite number other than 0 |
| Rows.Rescale | build/build.js:101 | Math.floor(5*w) is a number iff w is, and it is the floor of 5 times w's exact value |
| Rows.WeightSentiment | build/build.js:100-105 | a weight text scores iff parseFloat reads a number whose 5-fold lies outside [0, 1), and the score is then a nonzero floor of 5 times that number |
| Rows.SentiWSRowSpec | build/build.js:89-110 | a SentiWS line assigns iff it has 3 fields and 5*parseFloat(field 1) lies outside [0, 1); then one nonzero floor of it goes to the forms and the lemma in order |
| Rows.SentiWSRow | build/build.js:93-110 | a SentiWS line only assigns finite numbers other than 0 |
| Rows.SentiWSExpansion | build/build.js:98-110 | the line of `word`, a bar and a tag, then the weight and the comma-joined forms as tab fields, assigns the rescaled weight to each form in order and then to `word`, with the tag dropped; a NaN or 0 sentiment assigns nothing |
| Rows.SentiWSFields | build/build.js:89-110 | a line of three tab fields assigns the rescaled weight, unless NaN or 0, to each comma piece of field 2 and then to field 0 up to its first bar |
| Rows.SentiWSEmptyForms | build/build.js:98-99 | an empty field 2 still assigns, to the empty string first and then to the lemma |
| Rows.AssignAll | build/build.js:108-110 | one entry per word, in the words' order, each with the same score |
| Rows.AfinnRow | build/build.js:70-76 | an AFINN line assigns at most one entry, to a nonempty word without a tab |
| Rows.AfinnRowSpec | build/build.js:70-76 | an AFINN line assigns iff it is not empty and does not start with a tab; the word is the line up to its first tab, and the score is Number() of the next tab field, or NaN when there is no tab |
| Rows.AfinnVerbatim | build/build.js:73-76 | the line `word<TAB>n` assigns exactly n to `word`, 0 included, with no rescaling |
| Rows.AfinnNoScore | build/build.js:76 | a line without a tab still assigns, Number(undefined) = NaN, to the whole line |
| Rows.AfinnBlankWord | build/build.js:73 | a line with an empty first field, such as the blank last line, assigns nothing |
| Rows.ParseSmallWeight | build/build.js:96-105 | the weight 0.0040 reads as 40/10000 and rescales to 0, so such a row assigns nothing |
| Rows.ParsePointEight | build/build.js:100-101 | the weight 0.8 reads as 8/10 and rescales to 4 |
| Samples.SentiWSGut | build/build.js:98-110 | the SentiWS row for the adjective gut with weight 0.8 and forms besser,best assigns 4 to besser, best and gut, in that order |
| Samples.AfinnHappy | build/build.js:70-76 | the line `happy<TAB>3` assigns 3 to happy |
| Samples.EmojiGrinning | build/build.js:35-47 | an emoji counted 100 times, 10 negative and 80 positive, gets floor(3.5) = 3 |
| Merge.Store | build/build.js:108-110 | performing assignments in order adds exactly the keys they name and removes none (with Merge.StoreLatest, Merge.StoreFrame and Merge.StoreAppend: the last assignment to a key decides it, an unnamed key is untouched, runs compose) |
| Merge.StoreFrame | build/build.js:76 | a key the assignments do not name keeps its value, or stays absent |
| Merge.StoreLatest | build/build.js:109 | the last assignment to a key decides its value |
| Merge.LastAssignment | build/build.js:109 | every named key has a last assignment, and the hash holds its score |
| Merge.StoreOverrides | build/build.js:47 | once a run names a key, the hash it started from does not matter for that key |
| Merge.StoreAppend | build/build.js:120-126 | two runs of assignments one after the other are their concatenation |
| Merge.SuffixDecides | build/build.js:120-126 | after two runs, a key the second names holds what the second run alone gives it; any other key is as the first run left it |
| Merge.NonzeroStored | build/build.js:43-44 | assigning only nonzero numbers leaves only a nonzero number behind |
| Text.Split | build/build.js:24 | split keeps empty pieces, never returns an empty list, no piece holds the separator, and joining the pieces gives back the text |
| Text.SplitJoin | build/build.js:28 | splitting the join of separator-free pieces gives the pieces back |
| Text.SplitHead | build/build.js:99 | the first piece of a split is the text up to the first separator, or all of it when there is none |
| Text.SplitFirst | build/build.js:85 | cutting at the first separator gives the part before it, then the pieces of the rest |
| JsNumbers.FloorDiv | build/build.js:40 | the quotient is the floor of the exact real quotient of two integers |
| JsNumbers.ToNumberIntText | build/build.js:76 | Number() reads the decimal text of any integer back exactly |
| JsNumbers.ParseFloatIntText | build/build.js:100 | parseFloat reads the decimal text of any integer back exactly, also after leading white space |
| JsNumbers.ScanDecimal | build/build.js:100 | the scan reads an optional sign and then the body, and a literal it finds is a finite number spanning a nonempty prefix of the text (with JsNumbers.ScanDecimalLongest: that prefix is the longest decimal literal; with JsNumbers.ScanFraction and JsNumbers.ScanWhole: its value is the digits read as one integer over 10 to the number of fraction digits) |
| JsNumbers.ScanDecimalLongest | build/build.js:100 | what the scan finds is a decimal literal (an optional sign, digits with at most one dot, at least one digit), and no longer prefix is one; when it finds nothing, no prefix is one |
| JsNumbers.ScanFraction | build/build.js:100 | digits, a dot and digits followed by a non-digit scan as the digits on both sides of the dot read as one integer over 10 to the number of fraction digits, and the scan stops before the non-digit |
| JsNumbers.ScanSignedFraction | build/build.js:100 | the same literal after a '+' or '-' scans one character longer, with its value negated after '-' |
| JsNumbers.ScanWhole | build/build.js:100 | digits followed by neither a digit nor a dot scan as the integer those digits spell, and the scan stops after them |
| JsNumbers.ScanSignedWhole | build/build.js:100 | the same digits after a '+' or '-' scan one character longer, with the integer negated after '-' |
| JsNumbers.ParseFloat | build/build.js:100 | parseFloat is a number iff a literal is found after the leading white space |
| JsNumbers.ParseFloatNaN | build/build.js:100 | parseFloat is NaN iff no prefix of the text after its leading white space is a decimal literal |
| JsNumbers.ParseFloatFraction | build/build.js:100 | parseFloat of white space, then digits, a dot, digits and any text not starting with a digit, is the exact value of that literal: the digits read as one integer over 10 to the number of fraction digits, whatever follows |
| JsNumbers.ParseFloatSignedFraction | build/build.js:100 | the same with a '+' or '-' before the digits, the value negated after '-' |
| JsNumbers.ParseFloatWhole | build/build.js:100 | parseFloat of white space, then digits followed by neither a digit nor a dot, is the integer those digits spell, whatever follows |
| JsNumbers.ParseFloatSignedWhole | build/build.js:100 | the same with a '+' or '-' before the digits, the integer negated after '-' |
| JsNumbers.ToNumber | build/build.js:76 | Number() of a blank text is 0 (with JsNumbers.ToNumberFinite and JsNumbers.ToNumberIntText: any other text is a number iff its trimmed text is one whole decimal literal, and an integer's text reads back exactly) |
| JsNumbers.ToNumberFinite | build/build.js:76 | Number() of a text that is not blank is a number iff the trimmed text is, as a whole, a decimal literal |
| JsNumbers.TrimStart | build/build.js:100 | parseFloat's leading white space is removed, all of it and nothing else |

## Left out

- File reading and writing (`fs.readFile`, `fs.writeFile`) and the error
  callbacks (build/build.js:20-21, 62-63, 120-124, 139-140): each reader takes
  its file's text as a string, and a read error is not modelled.
- The continuation-passing mechanics of `async.waterfall` and the final
  callback (build/build.js:146-161): only the stage order they fix is kept.
- `finish`: `JSON.stringify` and the write of the result, and the completion
  message on stderr (build/build.js:137-160). The model ends with the hash
  that would be written out. It does not model that JSON writes NaN as `null`.
- The path constants (build/build.js:6-10).
- IEEE-754 doubles: numbers are exact decimals, so rounding is not modelled:
  not in reading decimal text (`parseFloat`, `Number()`), and not in `/`, `-`
  or `5 *`. A score within a rounding error of an integer can floor
  differently in the source, and this happens on realistic emoji counts. With
  5 occurrences, 2 negative and 3 positive, doubles give 3/5 - 2/5 =
  0.19999999999999996 and 5 times that 0.9999999999999998, so `Math.floor`
  gives 0 and the source stores nothing. The model
  (Rows.EmojiIntegerCounts) computes floor(5 * 1/5) = 1 and stores 1.
- Rows.EmojiSentiment: an occurrence count of 0 always gives NaN (None) in the
  model. In the source, `0 / 0` is NaN and `x / 0` is ±Infinity for a nonzero
  x. The difference is therefore NaN unless the two counts are nonzero with
  opposite signs. In that case it is ±Infinity, and the source would store it.
  Counts in the data are never negative.
- JsNumbers.ParseFloat reads decimal literals only: an exponent or
  `Infinity` is not recognised. `ParseFloat("1e3")` is 1 in the model, where
  JavaScript gives 1000. `ParseFloat("Infinity")` is NaN, where JavaScript gives
  Infinity. `ParseFloat("0x10")` is 0 in both.
- JsNumbers.ToNumber reads decimal literals only. `ToNumber("1e3")` and
  `ToNumber("Infinity")` are NaN in the model, where JavaScript gives 1000 and
  Infinity. Hexadecimal, binary and octal literals (`0x10`, `0b1`, `0o7`) are
  NaN in the model and numbers in JavaScript.
- `String.fromCodePoint` (build/build.js:35) is the parameter `decode`. Its
  RangeError on a field that is not a valid code point, which would abort the
  build, is not modelled.
- JavaScript object keys: assigning to the key `__proto__` does not create an
  own property in the source. The model treats it like any other key.
- `for (var i in data)` enumerates indices as strings. The model uses the
  numeric index, which is what the loose `i == 0` comparison amounts to.
