# GraphQL block strings, modelled in Dafny

This project models `GraphQL::Language::BlockString` of the graphql-ruby library. That module holds the whitespace rules for GraphQL's triple-quoted block strings. It has three operations:

- `trim_whitespace`: a lexer calls it on the raw text of a block string. It computes the common indentation of the lines, strips that indentation from every line, and cuts blank lines from the edges.
- `print`: a printer calls it to write any string back out as a block string. The string goes between two `"""` fences, every line is indented, and long lines are broken.
- `break_line`: the private helper `print` uses to cut a long line at spaces.

The source works step by step, so each of its loops is a Dafny method proved equal to a specification function. The properties are then lemmas about those functions:

| source loop | method | specification function |
|---|---|---|
| the codepoint scan | `Indent.ScanCommonIndent` | `Indent.CommonIndent` |
| each `while slice!` loop | `Trim.SliceWhileMatching` | `BlankLines.SliceOnce` |
| `trim_whitespace` | `Trim.TrimWhitespace` | `Trim.Trimmed` |
| `break_line`, with its loop over the parts | `LineBreak.BreakLine` | `LineBreak.BrokenLine` |
| `print`, with its nested loops | `Printer.Print`, `Printer.PrintLine`, `Printer.WriteSublines` | `Printer.Printed` |

Two library calls have no loop in the source, so they are functions. They are modelled by hand-written matchers with the leftmost-match semantics of Ruby's regular expressions:

- `gsub!` with the indentation pattern (`Indent.RemoveIndent`);
- `split` with the line-breaking pattern (`LineBreak.SplitFrom`, `LineBreak.SplitParts`).

Modules:

- `Text`: lines, joining, leading spaces, and Ruby's `split("\n")`.
- `Indent`: the scan and the indentation `gsub!`.
- `BlankLines`: the blank-line patterns.
- `Trim`: `trim_whitespace`.
- `LineBreak`: `break_line`.
- `Printer`: `print`.

## Where the code differs from the GraphQL rule

The model follows the code. The "Block Strings" algorithm in section 2.9.4 of the GraphQL specification (October 2021 edition) says what trimming should do. The code differs from it in these ways:

- **Which lines count.** The scan records a line's indentation only when a newline ends that line. So the last line, when no newline ends it, never counts towards the common indentation. Only U+0020 counts as indentation.
- **Indentation 1..10 versus wider.**
  - For a common indentation of 1..10, exactly that many spaces come off each line that has at least that many.
  - For a wider one, the on-demand pattern `^ {0,N}` takes up to N spaces off every line, short lines included.
- **Swapped pattern tables.** The precompiled tables hold the blank-line patterns under swapped names. For a common indentation of 1..10:
  - the "leading" loop cuts `(?:\n *)+\Z` at the end;
  - the "trailing" loop cuts `\A(?:\n +|^ +\n)+` at the start.

  So a leading empty line survives: `"\n  a\n  b\n"` trims to `"\na\nb"` (`Trim.TrimIndentedPair`, proved for any two lines of text).
- **Trimming is not idempotent.** Trimming `"\na\nb"` again cuts that leading newline, because its common indentation is 0 (`Trim.TrimNotIdempotent`).
- **Blank lines around text.** By the same swap, `"\n\n  text  \n\n"` trims to `"\n\ntext  "`, not `"  text  "`. Here the common indentation is 2, so the leading blank lines stay and only the final ones go (`Trim.TrimBlankAround`, proved for any line of text, trailing spaces included).
- **Each loop cuts at most once.** Each `while slice!` loop removes at most one match, because one match already takes the whole run of blank lines at its edge (`BlankLines.NoMatchAfterSlice`).
- **Width.** `print` does not bound the width of what it writes. Only the captured runs are bounded: a run is a space (or the start of the line) and then at most the width less 40 characters, so at most the width less 39 in all. The text between two matches, and the text before the first match, can be longer than the width.

## Model

| member | source | states |
|---|---|---|
| Indent.ScanCommonIndent | lib/graphql/language/block_string.rb:31-56 | The codepoint loop computes exactly the common indentation: the minimum over the counted lines. |
| Indent.CommonIndent | lib/graphql/language/block_string.rb:31-56 | The specification of the scan: the running minimum over the lines the scan counts (every line a newline ends, except the first). Its meaning is stated by `Indent.CommonIndentIsLeast`. |
| Indent.CountedStep | lib/graphql/language/block_string.rb:38-46 | A newline closes the open line, and that line becomes counted unless it is the first. Any other character leaves the counted lines alone. |
| Indent.MinIndentIsLeast | lib/graphql/language/block_string.rb:41-42 | The running minimum is attained by a line with text and is at most the indentation of every line with text. It is nil exactly when every line is blank. |
| Indent.CommonIndentIsLeast | lib/graphql/language/block_string.rb:31-56 | `common_indent` is the least indentation among the lines that are not the first, that a newline ends and that have a non-space character. It is nil exactly when no line qualifies. |
| Indent.ReplacementFor | lib/graphql/language/block_string.rb:58-62 | An exact-width replacement is used only for 1..10 (the table). The up-to-width replacement is used only above 10. |
| Indent.StripLine | lib/graphql/language/block_string.rb:58-59 | Removing the indentation from a line takes off only leading spaces: the line is some spaces followed by the result. |
| Indent.RemoveIndent | lib/graphql/language/block_string.rb:70-72 | `gsub!` of the replacement pattern: the lines of the string, each stripped, joined again with newlines. What it takes off each line is stated by `Indent.RemoveIndentByLine`. |
| Indent.RemoveIndentLines | lib/graphql/language/block_string.rb:70-72 | The `gsub!` works line by line, since `^` matches at the start of every line. |
| Indent.RemoveIndentByLine | lib/graphql/language/block_string.rb:58-72 | Nil or 0 leaves the string unchanged. For N in 1..10, exactly N spaces come off each line with at least N. Above 10, up to N spaces come off every line, the first included. The number of lines is kept. |
| BlankLines.UnboundedBlankRun | lib/graphql/language/block_string.rb:14 | With no bound on spaces, any string of newlines and spaces that starts with a newline is a run of blank lines. |
| BlankLines.BlankRunIsWhitespace | lib/graphql/language/block_string.rb:74-75 | A run of blank lines starts with a newline and holds only newlines and spaces. |
| BlankLines.BlankRunAppend | lib/graphql/language/block_string.rb:75 | Two runs of blank lines, one after the other, form one run. |
| BlankLines.TailStart | lib/graphql/language/block_string.rb:75 | The end-anchored pattern matches at the leftmost position from which the rest of the string is a run of blank lines, and at no earlier position. |
| BlankLines.HeadRunLen | lib/graphql/language/block_string.rb:74 | The start-anchored pattern `\A(?:\n {0,N})+` matches exactly when the string starts with a newline. The greedy match stops before a position that is not a newline. |
| BlankLines.HeadRunIsBlank | lib/graphql/language/block_string.rb:74 | What the start-anchored pattern takes is a run of blank lines. |
| BlankLines.HeadRunLongest | lib/graphql/language/block_string.rb:74 | No prefix longer than the match is a run of blank lines. With `BlankLines.HeadRunIsBlank`, the match is the longest run of blank lines at the start, as the greedy `+` and `{0,N}` make it; there is none when the string does not start with a newline. |
| BlankLines.HeadRunLongestAt | lib/graphql/language/block_string.rb:74 | A prefix that is a run of blank lines is no longer than the match. |
| BlankLines.PrefixRunStep | lib/graphql/language/block_string.rb:74 | A prefix that is a run takes no more spaces after its first newline than the match did, so past the match's first group it is over or a run again. |
| BlankLines.MixedLenStops | lib/graphql/language/block_string.rb:13 | Once the mixed pattern of line 13 has matched, it does not match again on what is left. |
| BlankLines.MixedStep | lib/graphql/language/block_string.rb:13 | One round of the mixed pattern (`\n +` or, where a line starts, `^ +\n`) takes at most the whole string; when it does not end on a newline, no space follows it. |
| BlankLines.MixedLen | lib/graphql/language/block_string.rb:13 | The rounds the match takes stay within the string; when the match does not end on a newline, no space follows it. |
| BlankLines.MixedStepIsRound | lib/graphql/language/block_string.rb:13 | The round `MixedStep` takes is a round of the pattern. |
| BlankLines.MixedStepLongest | lib/graphql/language/block_string.rb:13 | Every other round at the same position is shorter, and a shorter round stops between two spaces. |
| BlankLines.MixedRunStart | lib/graphql/language/block_string.rb:13 | A string the pattern matches whole where no line starts begins with a newline. |
| BlankLines.MixedLenIsRun | lib/graphql/language/block_string.rb:13 | What the match takes is matched whole by the pattern. |
| BlankLines.MixedRunFirstRound | lib/graphql/language/block_string.rb:13 | A prefix the pattern matches whole starts with the round `MixedStep` takes, and is over by then or matched whole again after it. |
| BlankLines.MixedLenLongestAt | lib/graphql/language/block_string.rb:13 | A prefix the pattern matches whole is no longer than the match. |
| BlankLines.MixedLenLongest | lib/graphql/language/block_string.rb:13 | The match is the longest prefix the pattern matches whole, and there is none when it does not match. |
| BlankLines.MixedIsBlank | lib/graphql/language/block_string.rb:13 | The mixed pattern takes only newlines and spaces, including at least one newline. |
| BlankLines.Find | lib/graphql/language/block_string.rb:78-82 | Every match is non-empty, so each `slice!` strictly shortens the string. |
| BlankLines.FindIsBlank | lib/graphql/language/block_string.rb:74-82 | Every match of every pattern is whitespace holding a newline: `slice!` removes only blank lines. |
| BlankLines.NoMatchAfterSlice | lib/graphql/language/block_string.rb:78-82 | After one `slice!` the pattern no longer matches, so each `while slice!` loop cuts at most once. |
| BlankLines.HeadRunSliced | lib/graphql/language/block_string.rb:74 | After the start-anchored match is cut, what is left does not start with a newline. |
| BlankLines.TailRunSliced | lib/graphql/language/block_string.rb:75 | After the end-anchored match is cut, no run of blank lines reaches the end of what is left. |
| BlankLines.MixedSliced | lib/graphql/language/block_string.rb:13 | After the mixed match is cut, the mixed pattern does not match at the start of what is left. |
| BlankLines.NoTailRunNoFinalNewline | lib/graphql/language/block_string.rb:81-82 | A string that the end-anchored pattern does not match does not end with a newline. |
| BlankLines.LeadingPattern | lib/graphql/language/block_string.rb:74 | The first loop's pattern: for 1..10 the table entry of line 14, `(?:\n *)+\Z`, which cuts at the end; otherwise the fallback `\A(?:\n {0,N})+` of line 74, unbounded when `common_indent` is nil. |
| BlankLines.TrailingPattern | lib/graphql/language/block_string.rb:75 | The second loop's pattern: for 1..10 the table entry of line 13, the mixed pattern, which cuts at the start; otherwise the fallback `(?:\n {0,N})+\Z` of line 75. |
| BlankLines.SliceOnce | lib/graphql/language/block_string.rb:78-82 | `slice!` changes the string exactly when the pattern matches (it returns nil otherwise), and then the string gets shorter. |
| Trim.SliceWhileMatching | lib/graphql/language/block_string.rb:77-82 | The `while slice!` loop terminates, returns the string with the leftmost match cut, and on exit the pattern does not match. |
| Trim.TrimWhitespace | lib/graphql/language/block_string.rb:23-86 | It follows the fast paths, then the scan, then the `gsub!`, then the two loops with the pattern each indentation regime selects. |
| Trim.Trimmed | lib/graphql/language/block_string.rb:23-86 | The specification of `trim_whitespace`: the two fast paths, then the scan, the `gsub!` and one cut by each loop. Its properties are the `Trim` lemmas below. |
| Trim.TrimKeepsNewlineFree | lib/graphql/language/block_string.rb:25-82 | A string without a newline comes back unchanged, whether or not it starts with a space. |
| Trim.NoBlankRunWithoutNewline | lib/graphql/language/block_string.rb:74-75 | A string without a newline holds no run of blank lines. |
| Trim.TrimmedNoFinalNewline | lib/graphql/language/block_string.rb:74-82 | What `trim_whitespace` returns never ends with a newline. |
| Trim.SlicesNoFinalNewline | lib/graphql/language/block_string.rb:74-82 | Whatever string and common indentation the two loops get, what they leave does not end with a newline. |
| Trim.HeadCutKeepsEnd | lib/graphql/language/block_string.rb:81 | Cutting the mixed match at the start keeps the last character. |
| Trim.TrimIndentedPair | lib/graphql/language/block_string.rb:11-82 | A newline, two lines of text each indented by two spaces and ended by a newline: the indentation and the final newline go, and the leading newline stays. |
| Trim.TrimBlankAround | lib/graphql/language/block_string.rb:11-82 | Two empty lines, a line of text indented by two spaces, then two newlines: the indentation and the two final newlines go, while the two leading newlines and any spaces that end the text stay. |
| Trim.PairIndent | lib/graphql/language/block_string.rb:31-56 | That input has a common indentation of 2. |
| Trim.PairStrip | lib/graphql/language/block_string.rb:58-72 | The two-space `gsub!` takes exactly the indentation off both lines of that input. |
| Trim.PairSlices | lib/graphql/language/block_string.rb:74-82 | On that input without its indentation, the first loop cuts only the final newline and the second loop cuts nothing. |
| Trim.TrimLeadingNewline | lib/graphql/language/block_string.rb:74-78 | A newline followed by two flush lines of text: the common indentation is 0 and `\A\n+` cuts the leading newline. |
| Trim.FlushIndent | lib/graphql/language/block_string.rb:31-56 | An empty first line followed by a flush line of text gives a common indentation of 0. |
| Trim.NoRunBeforeText | lib/graphql/language/block_string.rb:81-82 | When the last line has text, the end-anchored pattern finds nothing. |
| Trim.TrimNotIdempotent | lib/graphql/language/block_string.rb:23-86 | Trimming is not idempotent: trimming the trimmed indented pair changes it again. |
| Text.SplitLinesIgnoresTrailingNewline | lib/graphql/language/block_string.rb:89 | `split("\n")` ignores a newline at the end of the string. |
| Text.SplitLinesKeepsAll | lib/graphql/language/block_string.rb:89 | A non-empty string that does not end with a newline splits into all of its lines, empty ones included. |
| Text.DropTrailingEmpty | lib/graphql/language/block_string.rb:89 | Ruby's `split` drops trailing empty fields only. The result is a prefix, it does not end with an empty field, and everything dropped was empty. |
| Text.SplitLines | lib/graphql/language/block_string.rb:89 | `split("\n")`: the lines without the trailing empty ones. Stated by `Text.SplitLinesIgnoresTrailingNewline` and `Text.SplitLinesKeepsAll`. |
| LineBreak.Longest | lib/graphql/language/block_string.rb:112 | A run of the line-breaking pattern found at q is 15 to M long, newline-free, and followed by a space, a newline or the end. |
| LineBreak.LongestIsGreedy | lib/graphql/language/block_string.rb:112 | The run found is the longest length up to M that fits. When none is found, no length from 15 to M fits. |
| LineBreak.MatchAt | lib/graphql/language/block_string.rb:112 | A match at p is at least 15 long. Away from a line start it begins with a space and takes more than 15 characters. Which match it is, and when there is none, is stated by `LineBreak.MatchAtMeaning`. |
| LineBreak.MatchAtMeaning | lib/graphql/language/block_string.rb:112 | With a space at p and a run of 15 to M characters fitting after it, the match is the space and the longest such run. Otherwise, where a line begins and a run fits, it is the longest such run. There is no match exactly when neither holds. |
| LineBreak.NextMatch | lib/graphql/language/block_string.rb:112 | A match found starts at or after the search position, is at least 15 long, ends within the line, and is what the pattern matches at its start. |
| LineBreak.NextMatchIsLeftmost | lib/graphql/language/block_string.rb:112 | The match used is the leftmost one: no match starts between the search position and it. When none is found, the pattern matches nowhere after the search position. |
| LineBreak.MatchCountPositive | lib/graphql/language/block_string.rb:112 | `split` finds a match from a position on exactly when the pattern matches at some position there. |
| LineBreak.SplitFromCount | lib/graphql/language/block_string.rb:112 | Before trailing empty fields are dropped, the split yields one segment plus a captured run and a segment for each match. |
| LineBreak.SplitFromConcat | lib/graphql/language/block_string.rb:112 | The split's segments and captured runs glue back into the text. |
| LineBreak.SplitFromRuns | lib/graphql/language/block_string.rb:112 | Every captured run holds at least 15 characters. |
| LineBreak.SplitFromSpaced | lib/graphql/language/block_string.rb:112 | In a newline-free line, every captured run that does not start at position 0 starts with a space and holds more than 15 characters: from the start of the line that is every run, the first one included, unless the line begins with a match. |
| LineBreak.SplitPartsCount | lib/graphql/language/block_string.rb:112 | With c matches, `split` returns 2c parts when the text after the last match is empty (the line ends at a match, or is empty), and 2c+1 otherwise. |
| LineBreak.LastEnd | lib/graphql/language/block_string.rb:112 | The end of the last match lies between the search position and the end of the line. |
| LineBreak.SplitFromLast | lib/graphql/language/block_string.rb:112 | The split's final field is the text after the last match. |
| LineBreak.SplitFrom | lib/graphql/language/block_string.rb:112 | `split` with the capturing pattern, before trailing empty fields go: the text before each leftmost match, the captured run, and the text after the last match. Stated by `LineBreak.SplitFromCount`, `LineBreak.SplitFromConcat` and `LineBreak.SplitFromRuns`. |
| LineBreak.SplitParts | lib/graphql/language/block_string.rb:112 | `line.split(pattern)`: the split without its trailing empty fields. Stated by `LineBreak.SplitPartsCount` and `LineBreak.SplitPartsConcat`. |
| LineBreak.SplitPartsSpaced | lib/graphql/language/block_string.rb:112-119 | Every captured run after the first starts with a space and holds more than 15 characters. |
| LineBreak.SplitPartsConcat | lib/graphql/language/block_string.rb:112 | The parts `split` returns glue back into the line. |
| LineBreak.Tail | lib/graphql/language/block_string.rb:119 | `part[1..-1]` is the part without its first character. |
| LineBreak.TailRejoins | lib/graphql/language/block_string.rb:119 | A non-empty part is its first character followed by `part[1..-1]`. |
| LineBreak.Pairs | lib/graphql/language/block_string.rb:117-120 | The loop makes one subline for every two remaining parts, rounding up. |
| LineBreak.Regroup | lib/graphql/language/block_string.rb:115-120 | The loop over the remaining parts returns the first subline followed by one subline for each pair of parts, a last odd part alone. |
| LineBreak.PairsStep | lib/graphql/language/block_string.rb:117-120 | One step of the loop adds the subline for the next two parts, or for the last part alone. |
| LineBreak.PairsAppend | lib/graphql/language/block_string.rb:117-120 | Regrouping an even number of parts and then more is regrouping each list. |
| LineBreak.BrokenLine | lib/graphql/language/block_string.rb:109-123 | `break_line` never returns an empty list. |
| LineBreak.BreakLine | lib/graphql/language/block_string.rb:109-123 | It follows the short-line return, the split, the fewer-than-4 return, the first three parts joined, and the loop over the rest that skips odd positions. |
| LineBreak.BrokenLineWhole | lib/graphql/language/block_string.rb:110-113 | The line comes back whole when it is shorter than the width plus 5. Otherwise it comes back whole exactly when there are fewer than two matches. With two or more matches there is one subline per match. |
| LineBreak.CutAtSpaces | lib/graphql/language/block_string.rb:110-113 | At the narrowest width, a newline-free line of 60 or more characters that does not start with a space and has spaces at positions 15 and 31 matches twice, so it is cut into two or more sublines. |
| LineBreak.BrokenLineRejoins | lib/graphql/language/block_string.rb:112-120 | For a newline-free line, the sublines joined with single spaces give the line back. Every subline after the first has at least 15 characters. |
| LineBreak.BrokenLineNoNewline | lib/graphql/language/block_string.rb:109-123 | No subline of a newline-free line holds a newline. |
| LineBreak.RegroupedCount | lib/graphql/language/block_string.rb:113-120 | With c matches the line comes back whole when c is below 2. Otherwise there is one subline per match. |
| LineBreak.Regrouped | lib/graphql/language/block_string.rb:113-120 | What `break_line` makes of the parts: the line when there are fewer than four, else the first three glued and then the pairs. Stated by `LineBreak.RegroupedCount` and `LineBreak.RegroupedRejoins`. |
| LineBreak.RegroupedRejoins | lib/graphql/language/block_string.rb:113-120 | When the parts glue into the line and every run after the first starts with a space, the sublines joined with spaces give the line back. Every subline after the first has at least 15 characters. |
| LineBreak.RegroupRejoins | lib/graphql/language/block_string.rb:115-120 | When every run after the first starts with a space, the sublines joined with spaces glue all the parts back together. |
| LineBreak.RegroupLong | lib/graphql/language/block_string.rb:115-120 | Every subline after the first has at least 15 characters when every later run has more. |
| LineBreak.JoinPairs | lib/graphql/language/block_string.rb:117-120 | The space that `part[1..-1]` drops from each run is the one the join puts back. |
| LineBreak.PairsLong | lib/graphql/language/block_string.rb:119 | Each subline is at least as long as its run without the run's first character. |
| Printer.Print | lib/graphql/language/block_string.rb:88-105 | Returns exactly the opening fence, then each line's output, each line ended by a newline, then the closing fence. |
| Printer.Printed | lib/graphql/language/block_string.rb:88-105 | The specification of `print`: the opening fence, each line's output lines ended by newlines, the closing fence. Stated by `Printer.PrintedLines` and `Printer.PrintedShort`. |
| Printer.PrintLine | lib/graphql/language/block_string.rb:93-102 | An empty line writes a bare newline with no indent. Any other line writes each subline of `break_line(line, 120 - indent.length)`, indented and ended by a newline. |
| Printer.PrintBroken | lib/graphql/language/block_string.rb:96-100 | A non-empty line appends each subline `break_line` makes of it, behind the indent and ended by a newline. |
| Printer.LineOutBroken | lib/graphql/language/block_string.rb:96-100 | The output lines of a non-empty line are its sublines, each behind the indent. |
| Printer.WriteSublines | lib/graphql/language/block_string.rb:98-100 | The inner loop appends `indent + subline + "\n"` for each subline, in order. |
| Printer.OutLinesStep | lib/graphql/language/block_string.rb:93-102 | One more line of the string adds its own output lines after those of the earlier lines. |
| Printer.PrintedIgnoresTrailingNewline | lib/graphql/language/block_string.rb:89 | A newline at the end of the input changes nothing in the output. |
| Printer.PrintedBlank | lib/graphql/language/block_string.rb:89-104 | The empty string, and any string of newlines only, prints as the two fences and nothing else. |
| Printer.OutLinesNoNewline | lib/graphql/language/block_string.rb:93-101 | With a newline-free indent, no output line holds a newline. |
| Printer.LineOutNoNewline | lib/graphql/language/block_string.rb:94-100 | The output lines of a newline-free line hold no newline when the indent holds none. |
| Printer.PrintedLines | lib/graphql/language/block_string.rb:89-104 | Cut at its newlines, the output is `indent"""`, each line's output lines in order, `indent"""`, then nothing after the final newline. |
| Printer.LinesOfTerminated | lib/graphql/language/block_string.rb:99 | Lines written one after the other, each followed by a newline, read back as the same lines. |
| Printer.OutLinesShort | lib/graphql/language/block_string.rb:93-110 | Lines short enough to stay whole come out one for one: an empty line as an empty output line, any other line behind the indent. |
| Printer.PrintedShort | lib/graphql/language/block_string.rb:88-110 | With no indent and every line shorter than 125 characters, the output is the lines of the split between the two fences. |

## Left out

- The regexp tables, their `freeze` and the policy of not caching wide patterns (lines 5-19) are runtime objects. The model keeps only which pattern each value of `common_indent` selects (`BlankLines.LeadingPattern`, `BlankLines.TrailingPattern`, `Indent.ReplacementFor`).
- The frozen-string `dup` (lines 64-67) and the in-place `gsub!` and `slice!` on the caller's string are modelled as values. Aliasing of the caller's string is not captured.
- Trim.Trimmed, Trim.TrimWhitespace: the model has no frozen strings. A frozen string that is not duplicated at lines 64-67 (it neither starts nor ends with a newline, and the replacement pattern does not match it, as in `"a\n  "`) reaches `slice!` at line 78 unchanged, and `slice!` on a frozen string raises FrozenError. The model returns the trimmed value instead of that error.
- Trim.Trimmed, Trim.TrimWhitespace, Indent.ReplacementFor: a common indentation over 100000 makes `Regexp.compile` at line 59 (and the fallback patterns at lines 74-75) raise RegexpError, because the regexp engine refuses a repeat bound over 100000. The model has no such limit and returns `UpToSpaces(n)` and a trimmed string.
- The model has no general regexp engine. It does not cover `gsub`, `split` or `slice!` for any pattern other than the six this module uses; those six are written out as matchers.
- Strings are sequences of codepoints, and `String#length` is the sequence length. Encodings are not modelled.
- `\Z` is modelled as the end of the string. It may also match before a final newline, but the greedy group can always take that newline too, so the match found is the same.
- LineBreak.BreakLine, LineBreak.BrokenLine: these require `Breakable`, i.e. the line is short enough to come back whole, or the width is at least 55. A narrower width makes the repeat range `{15,M}` at line 112 have M below 15, which is not a usable pattern.
- Printer.Print, Printer.Printed: these require `Printable`, the same condition for every line at width `120 - indent.length`. An indent of more than 65 characters is thus allowed only when all the lines are short.
- Printer.PrintedLines: this assumes the indent holds no newline, so that the output can be read back line by line.
- Printer.Print: the bodies of its two nested loops are the methods `Printer.PrintLine` and `Printer.WriteSublines`; the appends are in the same order.
- Trim.TrimIndentedPair, Trim.TrimNotIdempotent, Trim.TrimBlankAround: these are stated for any lines of text without leading spaces, rather than for the literal strings `"a"`, `"b"` and `"text  "`.
- GraphQL's idempotence and ideal trimming rule are not asserted, because the code does not meet them. `Trim.TrimNotIdempotent` proves the opposite.
- `print` promises no width bound on its output; see the section on differences above.
