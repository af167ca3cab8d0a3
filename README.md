# Minimal-error reporters for testem, modelled in Dafny

This project models the two minimal-error reporters of a testem setup:

- `minimal-error-reporter.js`, with `MinimalErrorReporter` and its subclass
  `MinimalErrorColoredReporter`;
- `minimal-error-colored-reporter.js`, with a standalone
  `MinimalErrorColoredReporter`.

Each reporter takes one test result at a time through `report`. It logs the
result, writes one glyph for it to the output stream, and counts it under exactly
one of todo, skipped, passed or failed. For a failed result it records the test's
name with the `Exam Partition … -` prefix removed and the blanks trimmed. At the
end `summaryDisplay` renders a ten-line counter box and the list of failed tests.

The model has four modules:

- `Text` models the JavaScript string built-ins the reporters use:
  - `String.prototype.trim`, with its full set of white space and line terminators;
  - `padStart`;
  - `Number.prototype.toString` on non-negative integers;
  - `split` on one character and `Array.prototype.join`;
  - the comparator-free `Array.prototype.sort`, which orders strings character by
    character.
- `Outcomes` holds what both files share:
  - the test result record;
  - the two precedence orders of the flags: `display` checks passed, skipped,
    todo, while `report` checks todo, skipped, passed;
  - name cleaning, with the regular expression `/Exam Partition .* -/` matched
    leftmost-first and, from that start, longest, since `.*` is greedy and `.`
    stops at line terminators;
  - the counter box and the bullet lines;
  - the tallies of a results log.
- `ErrorReporter` models `minimal-error-reporter.js`. The class
  `MinimalErrorReporter` stands for both of its classes: the subclass overrides
  only `display` and `summaryDisplay`, and its `colored` field selects the
  subclass's branch.
- `ColoredErrorReporter` models `minimal-error-colored-reporter.js`. It differs
  from the subclass in the other file in three ways:
  - its glyph is the three characters U+00E2 U+2013 U+00A0;
  - it lists failed tests in the order they were reported;
  - it always prints the "FAILED TESTS:" header, even when nothing failed, since
    `if (this.failedTests)` tests an array, which is always truthy.

Each class keeps an invariant `Valid()`: the counters are the tallies of the
results log, the failed-test list is the cleaned names of its failed entries, and
the output is one glyph per entry. A ghost log `tints` records the colour each
coloured write was tinted with. `Report` preserves the invariant and adds one step to each
of these. `SummaryDisplay` is proved against a function of the state, and lemmas
about that function give the properties: the header appears exactly when some
test failed, a repeated summary gives the same text, and the text splits back
into its lines.

## Model

| member | source | states |
|---|---|---|
| Text.TrimStartSpec | minimal-error-reporter.js:14 | trimming the start keeps a suffix, drops only white space or line terminators, and leaves a first character that is neither |
| Text.TrimEndSpec | minimal-error-reporter.js:14 | trimming the end keeps a prefix, drops only white space or line terminators, and leaves a last character that is neither |
| Text.TrimSpec | minimal-error-reporter.js:14 | `trim` returns a slice of its input; everything cut on either side is trimmable, and neither end of the result is |
| Text.TrimOf | minimal-error-reporter.js:14 | a text framed by trimmable runs, with no trimmable character at either end, is exactly what `trim` returns for the framed string |
| Text.Trim | minimal-error-reporter.js:14 | `trim`; what it returns is stated by TrimSpec and TrimOf, and TrimIdempotent proves that trimming twice changes nothing |
| Text.TrimIdempotent | minimal-error-reporter.js:14 | trimming twice gives the same as trimming once |
| Text.PadStart | minimal-error-reporter.js:28 | `padStart` gives length max(width, length of the string) |
| Text.PadStartSpec | minimal-error-reporter.js:28 | the padded string has that length, ends with the original string and holds only the fill character before it |
| Text.DropLeadingOf | minimal-error-reporter.js:28 | removing the leading fill characters undoes the padding of a string that does not start with the fill character |
| Text.NatToString | minimal-error-reporter.js:28 | the decimal rendering is non-empty, all digits, with no leading zero unless the number is 0 |
| Text.ParseNatToString | minimal-error-reporter.js:28 | reading the digits back gives the number: the rendering is a round trip |
| Text.NatToStringLength | minimal-error-reporter.js:28 | a number has at most k digits exactly when it is below 10^k |
| Text.Split | minimal-error-colored-reporter.js:42 | `split` on a character gives at least one part; no part holds the separator, and every character of a part comes from the input |
| Text.JoinSplit | minimal-error-colored-reporter.js:42 | joining the parts of a split with the separator gives back the input |
| Text.SplitWithout | minimal-error-colored-reporter.js:42 | a string without the separator splits into itself alone |
| Text.SplitAt | minimal-error-colored-reporter.js:42 | splitting `x + c + y` with no `c` in `x` gives `x` followed by the parts of `y` |
| Text.Join | minimal-error-reporter.js:47 | `join`; JoinSplit proves that it undoes `split`, and SplitJoin that `split` undoes it for separator-free pieces |
| Text.SplitJoin | minimal-error-reporter.js:47 | splitting a join of separator-free pieces gives back the pieces |
| Text.LexLeTotal | minimal-error-reporter.js:40 | the default sort order compares any two strings |
| Text.LexLeAntisymmetric | minimal-error-reporter.js:40 | two strings each ordered before the other are equal |
| Text.LexLeTransitive | minimal-error-reporter.js:40 | the default sort order is transitive |
| Text.Insert | minimal-error-reporter.js:40 | inserting into a sorted list keeps it sorted and adds exactly the new element |
| Text.Sort | minimal-error-reporter.js:40 | `sort()` returns a sorted permutation of its input |
| Text.SortedUnique | minimal-error-reporter.js:40 | two sorted permutations of each other are equal, so the sorted order is unique |
| Text.SortedHeadsEqual | minimal-error-reporter.js:40 | two non-empty sorted permutations of each other start with the same element |
| Text.SortIdempotent | minimal-error-reporter.js:40 | sorting leaves a list unchanged exactly when it is already sorted |
| Outcomes.CountedAs | minimal-error-reporter.js:57-65 | `report` counts a result as todo iff todo is set, as skipped iff skipped but not todo, as passed iff passed alone among the three decides, as failed iff no flag is set |
| Outcomes.ShownAs | minimal-error-reporter.js:17-20 | `display` shows a result as passed iff passed is set, as skipped iff skipped but not passed, as todo iff todo alone decides, as failed iff no flag is set |
| Outcomes.ShownAgreesWithCounted | minimal-error-reporter.js:57-65 | the glyph written and the counter raised agree exactly when at most one flag is set |
| Outcomes.OverlappingFlags | minimal-error-reporter.js:57-65 | a result that is both passed and todo is shown passed but counted todo, and the other overlaps diverge likewise |
| Outcomes.GlyphColourPriority | minimal-error-reporter.js:76-79 | the coloured glyph is green iff passed, gray iff skipped and not passed, yellow iff only todo decides, bright red iff no flag is set |
| Outcomes.GlyphColours | minimal-error-reporter.js:75-79 | the colours of the coloured writes, one per result |
| Outcomes.GlyphColoursAt | minimal-error-reporter.js:75-79 | the k-th colour is the colour of the k-th result's shown category |
| Outcomes.GlyphColoursStep | minimal-error-reporter.js:75-79 | one more result adds exactly the colour of its shown category |
| Outcomes.PlainGlyphDistinct | minimal-error-reporter.js:17-20 | the plain glyphs are one character each and tell the four shown categories apart |
| Outcomes.FindMatch | minimal-error-reporter.js:14 | the match search finds the leftmost start of `/Exam Partition .* -/` at or after a position and the longest match from it, or reports that none exists |
| Outcomes.StripPartition | minimal-error-reporter.js:14 | `replace` with the pattern; StripPartitionSpec and LeftmostLongestUnique state what it removes |
| Outcomes.StripPartitionSpec | minimal-error-reporter.js:14 | `replace` leaves a name with no match unchanged; otherwise a leftmost-longest match exists and exactly it is removed |
| Outcomes.LeftmostLongestUnique | minimal-error-reporter.js:14 | the leftmost, longest match is unique, so the part `replace` removes is determined |
| Outcomes.CleanName | minimal-error-reporter.js:14 | the name `display` stores; CleanNameWithoutMarker, CleanNamePartitioned and CleanNameExample state what it gives |
| Outcomes.CleanNameWithoutMarker | minimal-error-reporter.js:14 | a name that never contains the marker is only trimmed |
| Outcomes.StripLeadingMatch | minimal-error-reporter.js:14 | a match at the start, followed by text holding no " -", is the part removed |
| Outcomes.PartitionPrefixMatches | minimal-error-reporter.js:14 | the marker, a one-line partition label and " -" form a complete match |
| Outcomes.CleanNameExample | minimal-error-reporter.js:14 | the name "Exam Partition A - suite: case1" is stored as "suite: case1" |
| Outcomes.TrimSpaceBefore | minimal-error-reporter.js:14 | trimming the blank left before the test name gives the name, when the name has no blank at either end |
| Outcomes.CleanNamePartitioned | minimal-error-reporter.js:14 | a name `Exam Partition <label> - <test>` cleans to `<test>` when the test name does not start with '-', holds no " -" and has no blank at either end |
| Outcomes.Cell | minimal-error-reporter.js:28 | `toString().padStart(4, '.')`; CellRoundTrip and CellWidth state what it gives |
| Outcomes.CounterRow | minimal-error-reporter.js:28-33 | a counter row; CounterBoxWidth gives its width and RowNoNewline says it adds no line break |
| Outcomes.ColouredRow | minimal-error-colored-reporter.js:29-34 | a coloured counter row is the plain row, since a tint leaves the text as it is |
| Outcomes.ColoredCounterBox | minimal-error-colored-reporter.js:25-36 | the coloured counter box has the same lines as the plain box |
| Outcomes.CounterBox | minimal-error-reporter.js:24-35 | the counter box has ten lines |
| Outcomes.CellRoundTrip | minimal-error-reporter.js:28 | removing the leading dots of a counter cell gives the decimal rendering, and reading it back gives the counter |
| Outcomes.CellWidth | minimal-error-reporter.js:28 | a counter cell is at least four characters, and exactly four iff the counter is at most 9999 |
| Outcomes.CounterBoxWidth | minimal-error-reporter.js:24-35 | every line of the box is 17 characters wide iff every counter is at most 9999 |
| Outcomes.CounterBoxNoNewline | minimal-error-reporter.js:24-35 | no line of the box holds a line break |
| Outcomes.RowNoNewline | minimal-error-reporter.js:28-33 | a counter row holds a line break only if its caption does |
| Outcomes.PlainFailureLine | minimal-error-reporter.js:42 | the bullet `> ` followed by the test name; BulletsNoNewline and SummaryLinesRecoverable are about it |
| Outcomes.ColoredFailureLine | minimal-error-reporter.js:101-102 | the coloured bullet, also written at minimal-error-colored-reporter.js:42-43; ColoredLineOneColon, ColoredLineNoColon and ColoredLineDropsRest state what it shows |
| Outcomes.ColoredLineOneColon | minimal-error-reporter.js:101-102 | a name with one colon is shown whole in the coloured bullet |
| Outcomes.ColoredLineNoColon | minimal-error-reporter.js:101-102 | a name without a colon is shown followed by ":undefined" |
| Outcomes.ColoredLineDropsRest | minimal-error-reporter.js:101-102 | everything from a name's second colon on is dropped from the coloured bullet |
| Outcomes.Bullets | minimal-error-reporter.js:41-43 | one bullet per failed test, in the given order, each being that test's failure line |
| Outcomes.BulletsStep | minimal-error-reporter.js:41-43 | the bullets of one more test are the previous bullets followed by its line |
| Outcomes.AppendBullets | minimal-error-reporter.js:41-43 | the `forEach` loop appends exactly the bullets of the tests, in order, to the lines already built |
| Outcomes.BulletsNoNewline | minimal-error-reporter.js:41-43 | a bullet holds a line break only if its test name does |
| Outcomes.Tally | minimal-error-reporter.js:57-65 | a category's tally never exceeds the number of results |
| Outcomes.FailedNames | minimal-error-reporter.js:13-16 | there are as many recorded failed names as results counted failed |
| Outcomes.TallySum | minimal-error-reporter.js:56-65 | the four tallies add up to the number of results |
| Outcomes.TalliedSum | minimal-error-reporter.js:56-65 | counters equal to the tallies satisfy total == pass + skipped + todo + failed |
| Outcomes.TalliedStep | minimal-error-reporter.js:50-65 | appending a result raises the total and exactly the counter it is counted under, and appends its cleaned name to the failed names iff it failed |
| ErrorReporter.Glyph | minimal-error-reporter.js:17-20 | the glyph `display` writes, plain or, for the subclass at lines 75-79, the tinted block; PlainGlyphDistinct and WrittenColours state which |
| ErrorReporter.Glyphs | minimal-error-reporter.js:17-20 | the output holds one glyph per result, in order, each being that result's glyph |
| ErrorReporter.GlyphsStep | minimal-error-reporter.js:17-20 | one more result adds exactly its glyph to the output |
| ErrorReporter.SummaryLines | minimal-error-reporter.js:37-45 | with no failed test the summary is the box alone; otherwise the box, a blank line, the header, one bullet per test in order and a final blank line |
| ErrorReporter.FailedSectionIff | minimal-error-reporter.js:37-45 | the "FAILED TESTS:" header appears iff some test failed |
| ErrorReporter.SummaryStable | minimal-error-reporter.js:40 | summarising the sorted list again gives the same lines |
| ErrorReporter.SummaryLinesNoNewline | minimal-error-reporter.js:47 | the summary adds no line break to the box and the test names |
| ErrorReporter.SummaryLinesRecoverable | minimal-error-reporter.js:47 | splitting the summary text at line breaks gives back its lines, when no test name holds a line break |
| ErrorReporter.FailedBag | minimal-error-reporter.js:13-16 | the cleaned names of the failed results, counted with multiplicity; as many as results counted failed |
| ErrorReporter.FailedBagNames | minimal-error-reporter.js:13-16 | that bag is the bag of the failed names in report order, so the sorted list is a permutation of them |
| ErrorReporter.LogStep | minimal-error-reporter.js:12-21 | reporting one more result extends the failed names, the output and the colour log by what `display` adds for it |
| ErrorReporter.MinimalErrorReporter.constructor | minimal-error-reporter.js:5-10 | all counters start at zero, all lists empty, and the invariant holds |
| ErrorReporter.MinimalErrorReporter.Display | minimal-error-reporter.js:12-21 | records the cleaned name iff the result failed, and writes the one glyph chosen passed, skipped, todo, failed; in the subclass (lines 70-80) the block, with its colour appended to the colour log |
| ErrorReporter.MinimalErrorReporter.Report | minimal-error-reporter.js:50-66 | appends to the log, writes the result's glyph and logs its colour, raises the total and exactly one counter chosen todo, skipped, passed, failed, keeps the invariant, and keeps total == pass + skipped + todo + failed and one listed name per failure |
| ErrorReporter.MinimalErrorReporter.Count | minimal-error-reporter.js:56-65 | raises the total and exactly the counter chosen todo, skipped, passed, failed |
| ErrorReporter.MinimalErrorReporter.SummaryDisplay | minimal-error-reporter.js:23-48 | sorts the failed tests in place (a no-op when already sorted), keeps the invariant, and returns the summary lines of the box and the sorted tests joined with line breaks |
| ErrorReporter.CountingInvariants | minimal-error-reporter.js:50-66 | in every valid state the total is the sum of the counters and the failed list has one name per failure |
| ErrorReporter.WrittenColours | minimal-error-reporter.js:75-79 | in a valid coloured reporter every write is the block, tinted green iff its result passed, gray iff skipped and not passed, yellow iff todo and neither passed nor skipped, bright red iff no flag is set |
| ErrorReporter.SummaryTwice | minimal-error-reporter.js:40 | calling `summaryDisplay` twice returns the same text both times |
| ColoredErrorReporter.Glyph | minimal-error-colored-reporter.js:16-21 | the three-character block tinted with the colour of the shown category; WrittenColours states which colour |
| ColoredErrorReporter.Glyphs | minimal-error-colored-reporter.js:16-21 | the output holds one tinted block per result, in order |
| ColoredErrorReporter.GlyphsStep | minimal-error-colored-reporter.js:16-21 | one more result adds exactly its tinted block to the output |
| ColoredErrorReporter.SummaryLines | minimal-error-colored-reporter.js:25-46 | the box, a blank line, the header, one bullet per failed test in the given order and a final blank line, whether or not any test failed |
| ColoredErrorReporter.SectionWithoutFailures | minimal-error-colored-reporter.js:38-46 | with no failed test the summary still ends with a blank line, the header and a blank line |
| ColoredErrorReporter.SiblingAgreesIff | minimal-error-colored-reporter.js:38 | the summary equals the sibling subclass's summary of the same list iff some test failed |
| ColoredErrorReporter.SummaryRecoverable | minimal-error-colored-reporter.js:48 | splitting the summary text at line breaks gives back its lines, when no test name holds a line break |
| ColoredErrorReporter.LogStep | minimal-error-colored-reporter.js:11-22 | reporting one more result extends the failed names, the output and the colour log by what `display` adds for it |
| ColoredErrorReporter.MinimalErrorColoredReporter.constructor | minimal-error-colored-reporter.js:5-10 | all counters start at zero, all lists empty, and the invariant holds |
| ColoredErrorReporter.MinimalErrorColoredReporter.Display | minimal-error-colored-reporter.js:11-22 | records the cleaned name iff the result failed, then writes once the block tinted by the first flag set among passed, skipped, todo, and logs that colour |
| ColoredErrorReporter.MinimalErrorColoredReporter.Report | minimal-error-colored-reporter.js:51-67 | appends to the log, writes the result's tinted block and logs its colour, raises the total and exactly one counter chosen todo, skipped, passed, failed, keeps the invariant and the counting invariants |
| ColoredErrorReporter.MinimalErrorColoredReporter.Count | minimal-error-colored-reporter.js:57-66 | raises the total and exactly the counter chosen todo, skipped, passed, failed |
| ColoredErrorReporter.MinimalErrorColoredReporter.SummaryDisplay | minimal-error-colored-reporter.js:24-49 | returns the box, the header and the bullets of the failed names in report order, joined with line breaks; it may change no field, so the failed list and the counters stay as they were |
| ColoredErrorReporter.CountingInvariants | minimal-error-colored-reporter.js:51-67 | in every valid state the total is the sum of the counters and the failed list has one name per failure |
| ColoredErrorReporter.WrittenColours | minimal-error-colored-reporter.js:16-21 | in a valid reporter every write is the block, tinted green iff its result passed, gray iff skipped and not passed, yellow iff todo and neither passed nor skipped, bright red iff no flag is set |

## Left out

- Colours: `colors/safe` wraps text in terminal escape codes only when the terminal supports them. The model takes them to be off: `Tint` returns the text unchanged, so no escape code appears in the output.
- ErrorReporter.MinimalErrorReporter.Display and ColoredErrorReporter.MinimalErrorColoredReporter.Display: the colour of each block is kept in the ghost `tints` log that `Display` extends with the colour it tints with, and WrittenColours states which colour that is; it is not visible in `out`.
- Outcomes.ColoredCounterBox and Outcomes.ColoredFailureLine: the colours of the counter rows (green, gray, yellow, bright red, white) and of the bullet parts (blue, bright red) are passed to `Tint`, but no contract states them, since with colours off they leave no trace in the text.
- The TapReporter base class is not part of this model. Its constructor is taken to set `pass`, `skipped` and `total` to zero and `results` to an empty list, and its output stream is a list of written strings. Its `finish` and the `silent`, `out` and `config` constructor arguments are left out.
- Output writes are collected in the `out` field instead of being sent to a stream.
- Regular expression engine: only the one pattern `/Exam Partition .* -/` is modelled, by its leftmost-longest match. A line terminator ends `.`. A Dafny character is a Unicode scalar value: a character beyond U+FFFF is one element where JavaScript sees two UTF-16 code units, and a lone surrogate cannot occur. Neither changes the cleaned name, since the pattern and `trim` test single characters below U+FFFF, and `padStart` pads only digits.
- Strings are sequences of Unicode code points, while JavaScript compares UTF-16 code units. The sort order of names with characters beyond U+FFFF can differ from the model's.
- Counters are unbounded naturals; JavaScript numbers lose integer precision above 2^53, and `toString` switches to exponent notation at 10^21.
- `module.exports = MinimalErrorReporter` at the end of minimal-error-colored-reporter.js names a class that file never declares, so loading the file as written fails. The model describes the class the file defines, as if it were exported.
