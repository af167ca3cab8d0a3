/** What both reporters share: the result object a test launcher reports, the two
    orders in which its flags are read, the cleaning of a failed test's name, the
    counter box at the top of the summary, the bullets listing failed tests, and
    the tallies of a results log. */
module Outcomes {
  import opened Text

  datatype Option<T> = None | Some(value: T)

  /** The fields of a result object that the reporters read. */
  datatype TestResult = TestResult(name: string, passed: bool, skipped: bool, todo: bool)

  /** One entry of the `results` log: `{launcher: prefix, result: data}`. */
  datatype Entry = Entry(launcher: string, result: TestResult)

  datatype Category = Todo | Skipped | Passed | Failed

  /** None of the three flags is set. */
  predicate IsFailure(r: TestResult)
  {
    !r.passed && !r.skipped && !r.todo
  }

  function FlagCount(r: TestResult): nat
  {
    (if r.passed then 1 else 0) + (if r.skipped then 1 else 0) + (if r.todo then 1 else 0)
  }

  // ---------------------------------------------------------------------------
  // The two orders in which the flags are read

  /** The counter `report` increments: todo first, then skipped, then passed, else failed. */
  function CountedAs(r: TestResult): (c: Category)
    ensures c == Todo <==> r.todo
    ensures c == Skipped <==> r.skipped && !r.todo
    ensures c == Passed <==> r.passed && !r.skipped && !r.todo
    ensures c == Failed <==> IsFailure(r)
  {
    if r.todo then Todo else if r.skipped then Skipped else if r.passed then Passed else Failed
  }

  /** The category `display` shows: passed first, then skipped, then todo, else failed. */
  function ShownAs(r: TestResult): (c: Category)
    ensures c == Passed <==> r.passed
    ensures c == Skipped <==> r.skipped && !r.passed
    ensures c == Todo <==> r.todo && !r.skipped && !r.passed
    ensures c == Failed <==> IsFailure(r)
  {
    if r.passed then Passed else if r.skipped then Skipped else if r.todo then Todo else Failed
  }

  /** The glyph shown and the counter raised agree exactly when at most one flag is set. */
  lemma ShownAgreesWithCounted(r: TestResult)
    ensures ShownAs(r) == CountedAs(r) <==> FlagCount(r) <= 1
  {
  }

  /** A passed todo result prints the passed glyph but raises the todo counter;
      a skipped todo result prints the skipped glyph but raises the todo counter. */
  lemma OverlappingFlags(r: TestResult)
    ensures r.passed && r.todo ==> ShownAs(r) == Passed && CountedAs(r) == Todo
    ensures r.skipped && r.todo && !r.passed ==> ShownAs(r) == Skipped && CountedAs(r) == Todo
    ensures r.passed && r.skipped && !r.todo ==> ShownAs(r) == Passed && CountedAs(r) == Skipped
  {
  }

  // ---------------------------------------------------------------------------
  // Glyphs and colours

  /** The plain progress glyph of a shown category. */
  function PlainGlyph(c: Category): string
  {
    match c
    case Passed => "."
    case Skipped => "*"
    case Todo => "-"
    case Failed => "F"
  }

  datatype Colour = Green | Gray | Yellow | BrightRed | White | Blue

  /** The colour a category is tinted with: green, gray, yellow, bright red. */
  function ColourOf(c: Category): Colour
  {
    match c
    case Passed => Green
    case Skipped => Gray
    case Todo => Yellow
    case Failed => BrightRed
  }

  /** A call such as `colors.green(s)`. The terminal escape codes are not part of
      the model: the text passes through unchanged. */
  function Tint(colour: Colour, s: string): string
  {
    s
  }

  /** The colour `display` picks for the block glyph: green if passed, else gray
      if skipped, else yellow if todo, else bright red. */
  lemma GlyphColourPriority(r: TestResult)
    ensures ColourOf(ShownAs(r)) == Green <==> r.passed
    ensures ColourOf(ShownAs(r)) == Gray <==> !r.passed && r.skipped
    ensures ColourOf(ShownAs(r)) == Yellow <==> !r.passed && !r.skipped && r.todo
    ensures ColourOf(ShownAs(r)) == BrightRed <==> IsFailure(r)
  {
  }

  /** The colours `display` tinted the glyphs of a results log with, in order. */
  function GlyphColours(rs: seq<Entry>): (cs: seq<Colour>)
    ensures |cs| == |rs|
  {
    if rs == [] then [] else GlyphColours(rs[..|rs| - 1]) + [ColourOf(ShownAs(rs[|rs| - 1].result))]
  }

  /** The k-th colour is the one of the k-th entry's shown category. */
  lemma {:induction false} GlyphColoursAt(rs: seq<Entry>)
    ensures forall k :: 0 <= k < |rs| ==> GlyphColours(rs)[k] == ColourOf(ShownAs(rs[k].result))
  {
    if rs != [] {
      var init := rs[..|rs| - 1];
      GlyphColoursAt(init);
      assert forall k :: 0 <= k < |init| ==> rs[k] == init[k];
    }
  }

  lemma GlyphColoursStep(rs: seq<Entry>, e: Entry)
    ensures GlyphColours(rs + [e]) == GlyphColours(rs) + [ColourOf(ShownAs(e.result))]
  {
    assert (rs + [e])[..|rs|] == rs;
  }

  /** The plain glyphs are four distinct one-character strings, so the glyph tells
      which category `display` chose. */
  lemma PlainGlyphDistinct(r: TestResult, r': TestResult)
    ensures |PlainGlyph(ShownAs(r))| == 1
    ensures PlainGlyph(ShownAs(r)) == PlainGlyph(ShownAs(r')) <==> ShownAs(r) == ShownAs(r')
  {
  }

  // ---------------------------------------------------------------------------
  // Cleaning a failed test's name: `name.replace(/Exam Partition .* -/, '').trim()`

  const Marker: string := "Exam Partition "

  predicate MarkerAt(s: string, i: nat)
  {
    i + |Marker| <= |s| && s[i..i + |Marker|] == Marker
  }

  predicate DashAt(s: string, j: nat)
  {
    j + 2 <= |s| && s[j] == ' ' && s[j + 1] == '-'
  }

  /** No line terminator in `s[lo..hi]`. */
  predicate OnOneLine(s: string, lo: nat, hi: nat)
  {
    forall k :: lo <= k < hi && k < |s| ==> !IsLineTerminator(s[k])
  }

  /** The regular expression `/Exam Partition .* -/` matches `s[i..e]`: the marker,
      then any run of characters other than line terminators, then " -". */
  predicate MatchesAt(s: string, i: nat, e: nat)
  {
    MarkerAt(s, i) && i + |Marker| + 2 <= e <= |s| && DashAt(s, e - 2)
    && OnOneLine(s, i + |Marker|, e - 2)
  }

  ghost predicate NoMatch(s: string)
  {
    forall i: nat, e: nat :: !MatchesAt(s, i, e)
  }

  /** The match a backtracking matcher reports: the leftmost start, and from that
      start the longest match, since `.*` is greedy. */
  ghost predicate LeftmostLongest(s: string, i: nat, e: nat)
  {
    MatchesAt(s, i, e)
    && (forall i': nat, e': nat :: i' < i ==> !MatchesAt(s, i', e'))
    && (forall e': nat :: e < e' ==> !MatchesAt(s, i, e'))
  }

  /** The first line terminator at or after `p`, or the end of `s`. */
  function LineEnd(s: string, p: nat): (k: nat)
    requires p <= |s|
    ensures p <= k <= |s|
    ensures OnOneLine(s, p, k)
    ensures k < |s| ==> IsLineTerminator(s[k])
    decreases |s| - p
  {
    if p == |s| || IsLineTerminator(s[p]) then p else LineEnd(s, p + 1)
  }

  /** The last " -" starting in `[lo, hi)`. */
  function LastDash(s: string, lo: nat, hi: nat): (j: Option<nat>)
    ensures j.Some? ==> lo <= j.value < hi && DashAt(s, j.value)
    ensures j.Some? ==> forall j': nat :: j.value < j' < hi ==> !DashAt(s, j')
    ensures j.None? ==> forall j': nat :: lo <= j' < hi ==> !DashAt(s, j')
    decreases hi
  {
    if hi <= lo then None
    else if DashAt(s, hi - 1) then Some(hi - 1)
    else LastDash(s, lo, hi - 1)
  }

  /** The " -" that ends a match lies on the marker's line, so it starts before
      the line's end minus one. */
  lemma MatchBeforeLineEnd(s: string, i: nat, e: nat)
    requires MatchesAt(s, i, e)
    ensures e - 2 + 1 < LineEnd(s, i + |Marker|)
  {
    var k := LineEnd(s, i + |Marker|);
    var j := e - 2;
    assert forall m :: i + |Marker| <= m < j + 2 ==> !IsLineTerminator(s[m]);
  }

  /** The leftmost-longest match starting at `from` or later, if there is one. */
  function FindMatch(s: string, from: nat): (m: Option<(nat, nat)>)
    ensures m.Some? ==> from <= m.value.0 && MatchesAt(s, m.value.0, m.value.1)
    ensures m.Some? ==> forall i': nat, e': nat :: from <= i' < m.value.0 ==> !MatchesAt(s, i', e')
    ensures m.Some? ==> forall e': nat :: m.value.1 < e' ==> !MatchesAt(s, m.value.0, e')
    ensures m.None? ==> forall i': nat, e': nat :: from <= i' ==> !MatchesAt(s, i', e')
    decreases |s| - from
  {
    if from + |Marker| > |s| then None
    else if MarkerAt(s, from) then
      var k := LineEnd(s, from + |Marker|);
      assert forall e': nat :: MatchesAt(s, from, e') ==> e' - 2 < k - 1 by {
        forall e': nat | MatchesAt(s, from, e') ensures e' - 2 < k - 1 {
          MatchBeforeLineEnd(s, from, e');
        }
      }
      match LastDash(s, from + |Marker|, k - 1)
      case Some(j) => Some((from, j + 2))
      case None => FindMatch(s, from + 1)
    else
      FindMatch(s, from + 1)
  }

  /** `s.replace(/Exam Partition .* -/, '')`: the leftmost-longest match, if any,
      is cut out. */
  function StripPartition(s: string): string
  {
    match FindMatch(s, 0)
    case Some((i, e)) => s[..i] + s[e..]
    case None => s
  }

  /** Without a match the string is unchanged; otherwise there is a leftmost-longest
      match, and it is what is cut out. */
  lemma StripPartitionSpec(s: string)
    ensures NoMatch(s) ==> StripPartition(s) == s
    ensures !NoMatch(s) ==> exists i: nat, e: nat :: LeftmostLongest(s, i, e)
    ensures forall i: nat, e: nat :: LeftmostLongest(s, i, e) ==> StripPartition(s) == s[..i] + s[e..]
  {
    match FindMatch(s, 0)
    case Some((i, e)) =>
      assert LeftmostLongest(s, i, e);
      forall i': nat, e': nat | LeftmostLongest(s, i', e')
        ensures StripPartition(s) == s[..i'] + s[e'..]
      {
        LeftmostLongestUnique(s, i, e, i', e');
      }
    case None =>
  }

  /** There is at most one leftmost-longest match. */
  lemma LeftmostLongestUnique(s: string, i: nat, e: nat, i': nat, e': nat)
    requires LeftmostLongest(s, i, e) && LeftmostLongest(s, i', e')
    ensures i == i' && e == e'
  {
  }

  /** The name `display` stores for a failed test. */
  function CleanName(name: string): string
  {
    Trim(StripPartition(name))
  }

  /** A name without the marker is only trimmed. */
  lemma CleanNameWithoutMarker(name: string)
    requires forall i: nat :: !MarkerAt(name, i)
    ensures CleanName(name) == Trim(name)
  {
    StripPartitionSpec(name);
  }

  /** No " -" anywhere in `s`, so no match can end inside it. */
  ghost predicate NoDashPair(s: string)
  {
    forall j: nat :: !DashAt(s, j)
  }

  /** A match at the very start, followed by text holding no " -", is the one removed:
      the match cannot be extended to a later " -". */
  lemma StripLeadingMatch(p: string, t: string)
    requires MatchesAt(p, 0, |p|)
    requires NoDashPair(t)
    ensures StripPartition(p + t) == t
  {
    var s := p + t;
    assert s[..|p|] == p;
    assert s[..|Marker|] == p[..|Marker|];
    assert MatchesAt(s, 0, |p|);
    forall e': nat | |p| < e' ensures !MatchesAt(s, 0, e') {
      if e' <= |s| && e' - 2 >= |p| {
        assert !DashAt(t, e' - 2 - |p|);
        assert s[e' - 2] == t[e' - 2 - |p|] && s[e' - 1] == t[e' - 1 - |p|];
      } else if e' <= |s| {
        assert s[|p| - 1] == p[|p| - 1] == '-';
      }
    }
    assert LeftmostLongest(s, 0, |p|);
    StripPartitionSpec(s);
    assert s[|p|..] == t;
  }

  /** A name made of the partition prefix, its label, " - " and a test name that
      does not start with '-', holds no " -" and has no blank at either end cleans
      to the test name. */
  lemma CleanNamePartitioned(partition: string, rest: string)
    requires forall k :: 0 <= k < |partition| ==> !IsLineTerminator(partition[k])
    requires rest != [] && rest[0] != '-' && NoDashPair(rest)
    requires !IsTrimmable(rest[0]) && !IsTrimmable(rest[|rest| - 1])
    ensures CleanName(Marker + partition + " - " + rest) == rest
  {
    var p := Marker + partition + " -";
    var t := " " + rest;
    var name := Marker + partition + " - " + rest;
    PartitionPrefixMatches(partition);
    forall j: nat ensures !DashAt(t, j) {
      if j >= 1 && j + 2 <= |t| {
        assert t[j] == rest[j - 1] && t[j + 1] == rest[j];
        assert !DashAt(rest, j - 1);
      }
    }
    StripLeadingMatch(p, t);
    assert name == p + t;
    TrimSpaceBefore(rest);
    assert CleanName(name) == Trim(t);
  }

  /** "Exam Partition A - suite: case1" is stored as "suite: case1". */
  lemma CleanNameExample()
    ensures CleanName(Marker + "A - suite: case1") == "suite: case1"
  {
    assert Marker + "A - suite: case1" == Marker + "A" + " - " + "suite: case1";
    CleanNamePartitioned("A", "suite: case1");
  }

  /** The marker, a partition label on one line and " -" form a whole match. */
  lemma PartitionPrefixMatches(partition: string)
    requires forall k :: 0 <= k < |partition| ==> !IsLineTerminator(partition[k])
    ensures MatchesAt(Marker + partition + " -", 0, |Marker| + |partition| + 2)
  {
    var p := Marker + partition + " -";
    assert p[..|Marker|] == Marker;
    assert forall k :: |Marker| <= k < |p| - 2 ==> p[k] == partition[k - |Marker|];
  }

  lemma TrimSpaceBefore(m: string)
    requires m != [] && !IsTrimmable(m[0]) && !IsTrimmable(m[|m| - 1])
    ensures Trim(" " + m) == m
  {
    assert " " + m == " " + m + "";
    TrimOf(" ", m, "");
  }

  // ---------------------------------------------------------------------------
  // The counter box

  const Border: string := "+---------------+"
  const Title: string := "| SUMMARY       |"

  /** `n.toString().padStart(4, '.')`. */
  function Cell(n: nat): string
  {
    PadStart(NatToString(n), 4, '.')
  }

  function CounterRow(caption: string, n: nat): string
  {
    "| " + caption + Cell(n) + " |"
  }

  /** The ten fixed lines: borders, the title, one row per counter and the total. */
  function CounterBox(pass: nat, skipped: nat, todo: nat, failed: nat, total: nat): (box: seq<string>)
    ensures |box| == 10
  {
    [ Border, Title, Border
    , CounterRow("PASSED...", pass)
    , CounterRow("SKIPPED..", skipped)
    , CounterRow("TODO.....", todo)
    , CounterRow("FAILED...", failed)
    , Border
    , CounterRow("TOTAL....", total)
    , Border ]
  }

  /** A row of the coloured subclasses' box: the caption and the cell are tinted
      together, the frame is not. */
  function ColouredRow(colour: Colour, caption: string, n: nat): (r: string)
    ensures r == CounterRow(caption, n)
  {
    "| " + Tint(colour, caption + Cell(n)) + " |"
  }

  /** The box of the coloured reporters, rows tinted green, gray, yellow, bright red
      and white; with colours off it is the plain box, line for line. */
  function ColoredCounterBox(pass: nat, skipped: nat, todo: nat, failed: nat, total: nat): (box: seq<string>)
    ensures box == CounterBox(pass, skipped, todo, failed, total)
  {
    [ Border, Title, Border
    , ColouredRow(Green, "PASSED...", pass)
    , ColouredRow(Gray, "SKIPPED..", skipped)
    , ColouredRow(Yellow, "TODO.....", todo)
    , ColouredRow(BrightRed, "FAILED...", failed)
    , Border
    , ColouredRow(White, "TOTAL....", total)
    , Border ]
  }

  /** Removing the padding dots from a cell gives back the count's digits, and
      reading them gives back the count. */
  lemma CellRoundTrip(n: nat)
    ensures DropLeading(Cell(n), '.') == NatToString(n)
    ensures ParseDecimal(DropLeading(Cell(n), '.')) == n
  {
    var d := NatToString(n);
    var c := Cell(n);
    PadStartSpec(d, 4, '.');
    assert c == c[..|c| - |d|] + d;
    DropLeadingOf(c[..|c| - |d|], d, '.');
    ParseNatToString(n);
  }

  /** A cell is exactly four characters wide while the count has at most four digits. */
  lemma CellWidth(n: nat)
    ensures |Cell(n)| >= 4
    ensures |Cell(n)| == 4 <==> n <= 9999
  {
    PadStartSpec(NatToString(n), 4, '.');
    NatToStringLength(n, 4);
    assert Pow10(4) == 10000;
  }

  /** Every line of the box is 17 characters wide exactly when no count exceeds 9999. */
  lemma CounterBoxWidth(pass: nat, skipped: nat, todo: nat, failed: nat, total: nat)
    ensures (forall k :: 0 <= k < 10 ==> |CounterBox(pass, skipped, todo, failed, total)[k]| == 17)
            <==> pass <= 9999 && skipped <= 9999 && todo <= 9999 && failed <= 9999 && total <= 9999
  {
    CellWidth(pass);
    CellWidth(skipped);
    CellWidth(todo);
    CellWidth(failed);
    CellWidth(total);
    var box := CounterBox(pass, skipped, todo, failed, total);
    assert |box[3]| == 13 + |Cell(pass)|;
    assert |box[4]| == 13 + |Cell(skipped)|;
    assert |box[5]| == 13 + |Cell(todo)|;
    assert |box[6]| == 13 + |Cell(failed)|;
    assert |box[8]| == 13 + |Cell(total)|;
  }

  // ---------------------------------------------------------------------------
  // Bullets listing failed tests

  /** `'> ' + failedTest`. */
  function PlainFailureLine(t: string): string
  {
    "> " + t
  }

  /** `'> ' + colors.blue(parts[0]) + ':' + colors.brightRed(parts[1])` with
      `parts = t.split(':')`; a missing second part renders as "undefined". */
  function ColoredFailureLine(t: string): string
  {
    var parts := Split(t, ':');
    "> " + Tint(Blue, parts[0]) + ":" + Tint(BrightRed, if |parts| > 1 then parts[1] else "undefined")
  }

  /** A name with one colon is shown whole. */
  lemma ColoredLineOneColon(a: string, b: string)
    requires ':' !in a && ':' !in b
    ensures ColoredFailureLine(a + ":" + b) == PlainFailureLine(a + ":" + b)
  {
    SplitAt(a, ':', b);
    SplitWithout(b, ':');
  }

  /** A name without a colon gets ":undefined" appended. */
  lemma ColoredLineNoColon(a: string)
    requires ':' !in a
    ensures ColoredFailureLine(a) == PlainFailureLine(a + ":undefined")
  {
    SplitWithout(a, ':');
  }

  /** Everything from a name's second colon on is dropped. */
  lemma ColoredLineDropsRest(a: string, b: string, rest: string)
    requires ':' !in a && ':' !in b
    ensures ColoredFailureLine(a + ":" + b + ":" + rest) == PlainFailureLine(a + ":" + b)
  {
    assert a + ":" + b + ":" + rest == a + [':'] + (b + [':'] + rest);
    SplitAt(a, ':', b + [':'] + rest);
    SplitAt(b, ':', rest);
  }

  function FailureLine(t: string, colored: bool): string
  {
    if colored then ColoredFailureLine(t) else PlainFailureLine(t)
  }

  /** One bullet per failed test, in the order given. */
  function Bullets(tests: seq<string>, colored: bool): (lines: seq<string>)
    ensures |lines| == |tests|
    ensures forall k :: 0 <= k < |tests| ==> lines[k] == FailureLine(tests[k], colored)
  {
    if tests == [] then []
    else Bullets(tests[..|tests| - 1], colored) + [FailureLine(tests[|tests| - 1], colored)]
  }

  /** The loop of `summaryDisplay` that pushes one bullet per failed test onto
      the lines already built. */
  method AppendBullets(lines0: seq<string>, tests: seq<string>, colored: bool) returns (lines: seq<string>)
    ensures lines == lines0 + Bullets(tests, colored)
  {
    lines := lines0;
    var i := 0;
    while i < |tests|
      invariant 0 <= i <= |tests|
      invariant lines == lines0 + Bullets(tests[..i], colored)
    {
      var failedTest := tests[i];
      var line;
      if colored {
        var failedTestParts := Split(failedTest, ':');
        var second := if |failedTestParts| > 1 then failedTestParts[1] else "undefined";
        line := "> " + Tint(Blue, failedTestParts[0]) + ":" + Tint(BrightRed, second);
      } else {
        line := "> " + failedTest;
      }
      BulletsStep(tests, i, colored);
      lines := lines + [line];
      i := i + 1;
    }
    assert tests[..i] == tests;
  }

  predicate NoNewline(lines: seq<string>)
  {
    forall k :: 0 <= k < |lines| ==> '\n' !in lines[k]
  }

  /** No line of the counter box holds a line break. */
  lemma CounterBoxNoNewline(pass: nat, skipped: nat, todo: nat, failed: nat, total: nat)
    ensures NoNewline(CounterBox(pass, skipped, todo, failed, total))
  {
    var r1 := CounterRow("PASSED...", pass);
    var r2 := CounterRow("SKIPPED..", skipped);
    var r3 := CounterRow("TODO.....", todo);
    var r4 := CounterRow("FAILED...", failed);
    var r5 := CounterRow("TOTAL....", total);
    RowNoNewline("PASSED...", pass);
    RowNoNewline("SKIPPED..", skipped);
    RowNoNewline("TODO.....", todo);
    RowNoNewline("FAILED...", failed);
    RowNoNewline("TOTAL....", total);
    FrameNoNewline();
    LinesNoNewline([Border, Title, Border, r1, r2, r3, r4, Border, r5, Border]);
  }

  lemma FrameNoNewline()
    ensures '\n' !in Border && '\n' !in Title
  {
  }

  /** A list of lines each free of line breaks. */
  lemma LinesNoNewline(lines: seq<string>)
    requires forall line | line in lines :: '\n' !in line
    ensures NoNewline(lines)
  {
    forall k | 0 <= k < |lines| ensures '\n' !in lines[k] {
      assert lines[k] in lines;
    }
  }

  /** A counter row holds a line break only if its caption does. */
  lemma RowNoNewline(caption: string, n: nat)
    requires '\n' !in caption
    ensures '\n' !in CounterRow(caption, n)
  {
    var d := NatToString(n);
    var c := Cell(n);
    PadStartSpec(d, 4, '.');
    forall k | 0 <= k < |c| ensures c[k] != '\n' {
      if k >= |c| - |d| {
        assert c[k] == c[|c| - |d|..][k - (|c| - |d|)] == d[k - (|c| - |d|)];
      }
    }
  }

  /** A bullet holds a line break only if its test name does. */
  lemma BulletsNoNewline(tests: seq<string>, colored: bool)
    requires NoNewline(tests)
    ensures NoNewline(Bullets(tests, colored))
  {
    forall k | 0 <= k < |tests| ensures '\n' !in FailureLine(tests[k], colored) {
      var parts := Split(tests[k], ':');
      if |parts| > 1 {
        assert '\n' !in parts[1];
      }
      assert '\n' !in parts[0];
    }
  }

  lemma BulletsStep(tests: seq<string>, i: nat, colored: bool)
    requires i < |tests|
    ensures Bullets(tests[..i + 1], colored) == Bullets(tests[..i], colored) + [FailureLine(tests[i], colored)]
  {
    assert tests[..i + 1][..i] == tests[..i];
  }

  // ---------------------------------------------------------------------------
  // Tallies of a results log

  /** How many entries `report` counts under `c`. */
  function Tally(rs: seq<Entry>, c: Category): (n: nat)
    ensures n <= |rs|
  {
    if rs == [] then 0
    else Tally(rs[..|rs| - 1], c) + (if CountedAs(rs[|rs| - 1].result) == c then 1 else 0)
  }

  /** The cleaned names of the failed entries, in order. */
  function FailedNames(rs: seq<Entry>): (names: seq<string>)
    ensures |names| == Tally(rs, Failed)
  {
    if rs == [] then []
    else
      var r := rs[|rs| - 1].result;
      FailedNames(rs[..|rs| - 1]) + (if IsFailure(r) then [CleanName(r.name)] else [])
  }

  /** Every entry is counted under exactly one category. */
  lemma {:induction false} TallySum(rs: seq<Entry>)
    ensures Tally(rs, Todo) + Tally(rs, Skipped) + Tally(rs, Passed) + Tally(rs, Failed) == |rs|
  {
    if rs != [] {
      TallySum(rs[..|rs| - 1]);
    }
  }

  /** The counters of a results log are the tallies of its entries. */
  predicate Tallied(rs: seq<Entry>, total: nat, pass: nat, skipped: nat, todo: nat, failed: nat)
  {
    total == |rs| && todo == Tally(rs, Todo) && skipped == Tally(rs, Skipped)
    && pass == Tally(rs, Passed) && failed == Tally(rs, Failed)
  }

  /** The counting invariant: the total is the sum of the four counters. */
  lemma TalliedSum(rs: seq<Entry>, total: nat, pass: nat, skipped: nat, todo: nat, failed: nat)
    requires Tallied(rs, total, pass, skipped, todo, failed)
    ensures total == pass + skipped + todo + failed
  {
    TallySum(rs);
  }

  /** Appending one entry raises exactly the counter it is counted under. */
  lemma TalliedStep(rs: seq<Entry>, e: Entry, total: nat, pass: nat, skipped: nat, todo: nat, failed: nat)
    requires Tallied(rs, total, pass, skipped, todo, failed)
    ensures var c := CountedAs(e.result);
      Tallied(rs + [e], total + 1,
              pass + (if c == Passed then 1 else 0), skipped + (if c == Skipped then 1 else 0),
              todo + (if c == Todo then 1 else 0), failed + (if c == Failed then 1 else 0))
    ensures FailedNames(rs + [e])
            == FailedNames(rs) + (if IsFailure(e.result) then [CleanName(e.result.name)] else [])
  {
    assert (rs + [e])[..|rs|] == rs;
  }
}
