/** The standalone `MinimalErrorColoredReporter` of minimal-error-colored-reporter.js.
    It differs from the subclass in minimal-error-reporter.js in three ways: its
    block glyph is the three characters U+00E2 U+2013 U+00A0 (the UTF-8 bytes of
    "■" read as Windows-1252), its summary lists the failed tests in the order they
    were reported, without sorting, and its summary always holds the failed-tests
    section, because an array is truthy even when empty. */
module ColoredErrorReporter {
  import opened Text
  import opened Outcomes
  import ErrorReporter

  const Block: string := "\U{00E2}\U{2013}\U{00A0}"

  /** What `display` writes for a result: the block tinted with the colour of the
      shown category. */
  function Glyph(r: TestResult): string
  {
    Tint(ColourOf(ShownAs(r)), Block)
  }

  /** What `display` wrote for the entries of a results log, in order. */
  function Glyphs(rs: seq<Entry>): (gs: seq<string>)
    ensures |gs| == |rs|
    ensures forall k :: 0 <= k < |rs| ==> gs[k] == Glyph(rs[k].result)
  {
    if rs == [] then [] else Glyphs(rs[..|rs| - 1]) + [Glyph(rs[|rs| - 1].result)]
  }

  lemma GlyphsStep(rs: seq<Entry>, e: Entry)
    ensures Glyphs(rs + [e]) == Glyphs(rs) + [Glyph(e.result)]
  {
    assert (rs + [e])[..|rs|] == rs;
  }

  /** The lines `summaryDisplay` joins: the counter box, a blank line, the header,
      one bullet per failed test and a blank line, whether or not any test failed. */
  function SummaryLines(box: seq<string>, tests: seq<string>): (lines: seq<string>)
    ensures |lines| == |box| + |tests| + 3 && lines[..|box|] == box
    ensures lines[|box|] == "" && lines[|box| + 1] == "FAILED TESTS:" && lines[|lines| - 1] == ""
    ensures forall k :: 0 <= k < |tests| ==> lines[|box| + 2 + k] == FailureLine(tests[k], true)
  {
    box + ["", "FAILED TESTS:"] + Bullets(tests, true) + [""]
  }

  /** The failed-tests section is there even when no test failed: the header then
      stands alone between two blank lines. */
  lemma SectionWithoutFailures(box: seq<string>)
    ensures SummaryLines(box, []) == box + ["", "FAILED TESTS:", ""]
    ensures "FAILED TESTS:" in SummaryLines(box, [])
  {
    assert SummaryLines(box, [])[|box| + 1] == "FAILED TESTS:";
  }

  /** The summary agrees with the one of the coloured subclass in
      minimal-error-reporter.js, whose guard is `this.failedTests.length > 0`,
      exactly when some test failed. */
  lemma SiblingAgreesIff(box: seq<string>, tests: seq<string>)
    ensures SummaryLines(box, tests) == ErrorReporter.SummaryLines(box, tests, true) <==> tests != []
  {
    if tests == [] {
      assert |SummaryLines(box, tests)| == |box| + 3;
    }
  }

  /** Splitting the summary text at line breaks gives back its lines, as long as no
      failed test's name holds a line break. */
  lemma SummaryRecoverable(pass: nat, skipped: nat, todo: nat, failed: nat, total: nat, tests: seq<string>)
    requires NoNewline(tests)
    ensures var lines := SummaryLines(CounterBox(pass, skipped, todo, failed, total), tests);
      Split(Join(lines, "\n"), '\n') == lines
  {
    var box := CounterBox(pass, skipped, todo, failed, total);
    CounterBoxNoNewline(pass, skipped, todo, failed, total);
    var lines := SummaryLines(box, tests);
    if tests == [] {
      SectionWithoutFailures(box);
      forall k | 0 <= k < |lines| ensures '\n' !in lines[k] {
        if k < |box| {
          assert lines[k] == box[k];
        }
      }
    } else {
      assert lines == ErrorReporter.SummaryLines(box, tests, true);
      ErrorReporter.SummaryLinesNoNewline(box, tests, true);
    }
    SplitJoin(lines, '\n');
  }

  /** What a reporter has logged, on values: the failed tests are the cleaned names
      of the failed entries in the order reported, and the output holds one glyph
      per entry, tinted with the colour of its shown category. */
  ghost predicate LogOf(rs: seq<Entry>, failedTests: seq<string>, out: seq<string>, tints: seq<Colour>)
  {
    failedTests == FailedNames(rs) && out == Glyphs(rs) && tints == GlyphColours(rs)
  }

  /** Reporting one more entry extends each log by what `display` adds for it. */
  lemma LogStep(rs: seq<Entry>, failedTests: seq<string>, out: seq<string>, tints: seq<Colour>, e: Entry)
    requires LogOf(rs, failedTests, out, tints)
    ensures LogOf(rs + [e],
                  failedTests + (if IsFailure(e.result) then [CleanName(e.result.name)] else []),
                  out + [Glyph(e.result)],
                  tints + [ColourOf(ShownAs(e.result))])
  {
    assert (rs + [e])[..|rs|] == rs;
    GlyphsStep(rs, e);
    GlyphColoursStep(rs, e);
  }

  class MinimalErrorColoredReporter {
    var total: nat
    var pass: nat
    var skipped: nat
    var todo: nat
    var failed: nat
    var failedTests: seq<string>
    var results: seq<Entry>
    /** What was written to the output stream, one string per write. */
    var out: seq<string>
    /** The colour each write was tinted with, one per write. */
    ghost var tints: seq<Colour>

    /** The counters are the tallies of the results log, the failed tests are the
        cleaned names of its failed entries in the order reported, and the output
        holds one glyph per entry, tinted with the colour of its shown category. */
    ghost predicate Valid()
      reads this
    {
      Tallied(results, total, pass, skipped, todo, failed)
      && LogOf(results, failedTests, out, tints)
    }

    /** The base class starts `pass`, `skipped`, `total` at zero, `results` empty and
        the output stream empty; this constructor zeroes `todo` and `failed` and
        empties `failedTests`. */
    constructor ()
      ensures total == 0 && pass == 0 && skipped == 0 && todo == 0 && failed == 0
      ensures failedTests == [] && results == [] && out == [] && tints == []
      ensures Valid()
    {
      total, pass, skipped := 0, 0, 0;
      results := [];
      out := [];
      tints := [];
      todo := 0;
      failed := 0;
      failedTests := [];
    }

    /** Records the cleaned name of a result with no flag set, then writes the block
        tinted by the first flag set among passed, skipped, todo. */
    method Display(prefix: string, result: TestResult)
      modifies this`failedTests, this`out, this`tints
      ensures failedTests == old(failedTests) + (if IsFailure(result) then [CleanName(result.name)] else [])
      ensures out == old(out) + [Glyph(result)]
      ensures tints == old(tints) + [ColourOf(ShownAs(result))]
    {
      if !result.passed && !result.skipped && !result.todo {
        var line := Trim(StripPartition(result.name));
        failedTests := failedTests + [line];
      }
      var output := Block;
      var colour;
      if result.passed {
        colour := Green;
      } else if result.skipped {
        colour := Gray;
      } else if result.todo {
        colour := Yellow;
      } else {
        colour := BrightRed;
      }
      output := Tint(colour, output);
      tints := tints + [colour];
      out := out + [output];
    }

    /** Logs the result, displays it, and raises the total and exactly one counter,
        chosen todo, skipped, passed, failed in that order. */
    method Report(prefix: string, data: TestResult)
      requires Valid()
      modifies this
      ensures Valid()
      ensures results == old(results) + [Entry(prefix, data)]
      ensures total == old(total) + 1
      ensures todo == old(todo) + (if CountedAs(data) == Todo then 1 else 0)
      ensures skipped == old(skipped) + (if CountedAs(data) == Skipped then 1 else 0)
      ensures pass == old(pass) + (if CountedAs(data) == Passed then 1 else 0)
      ensures failed == old(failed) + (if CountedAs(data) == Failed then 1 else 0)
      ensures failedTests == old(failedTests) + (if IsFailure(data) then [CleanName(data.name)] else [])
      ensures out == old(out) + [Glyph(data)]
      ensures tints == old(tints) + [ColourOf(ShownAs(data))]
      ensures total == pass + skipped + todo + failed
      ensures |failedTests| == failed
    {
      var entry := Entry(prefix, data);
      TalliedStep(results, entry, total, pass, skipped, todo, failed);
      LogStep(results, failedTests, out, tints, entry);
      results := results + [entry];
      Display(prefix, data);
      Count(data);
      TalliedSum(results, total, pass, skipped, todo, failed);
    }

    /** The counting half of `report`: raises the total and exactly one counter,
        chosen todo, skipped, passed, failed in that order. */
    method Count(data: TestResult)
      modifies this`total, this`todo, this`skipped, this`pass, this`failed
      ensures total == old(total) + 1
      ensures todo == old(todo) + (if CountedAs(data) == Todo then 1 else 0)
      ensures skipped == old(skipped) + (if CountedAs(data) == Skipped then 1 else 0)
      ensures pass == old(pass) + (if CountedAs(data) == Passed then 1 else 0)
      ensures failed == old(failed) + (if CountedAs(data) == Failed then 1 else 0)
    {
      total := total + 1;
      if data.todo {
        todo := todo + 1;
      } else if data.skipped {
        skipped := skipped + 1;
      } else if data.passed {
        pass := pass + 1;
      } else {
        failed := failed + 1;
      }
    }

    /** Renders the counter box and the failed-tests section, the tests in the order
        they were reported; changes nothing. */
    method SummaryDisplay() returns (text: string)
      requires Valid()
      ensures text == Join(SummaryLines(CounterBox(pass, skipped, todo, failed, total), FailedNames(results)), "\n")
    {
      var box := ColoredCounterBox(pass, skipped, todo, failed, total);
      var lines := box;
      lines := lines + [""];
      lines := lines + ["FAILED TESTS:"];
      assert lines == box + ["", "FAILED TESTS:"];
      lines := AppendBullets(lines, failedTests, true);
      lines := lines + [""];
      assert lines == SummaryLines(box, failedTests);
      text := Join(lines, "\n");
    }
  }

  /** The two counting invariants of a reporter: the total is the sum of the four
      counters, and there are as many failed tests listed as counted. */
  lemma CountingInvariants(r: MinimalErrorColoredReporter)
    requires r.Valid()
    ensures r.total == r.pass + r.skipped + r.todo + r.failed
    ensures |r.failedTests| == r.failed
  {
    TalliedSum(r.results, r.total, r.pass, r.skipped, r.todo, r.failed);
  }

  /** Every write was the block tinted green exactly for the passed entries, gray
      for the skipped ones that did not pass, yellow for the todo ones neither
      passed nor skipped, and bright red for the failures. */
  lemma WrittenColours(r: MinimalErrorColoredReporter)
    requires r.Valid()
    ensures |r.tints| == |r.out| == |r.results|
    ensures forall k :: 0 <= k < |r.out| ==> r.out[k] == Tint(r.tints[k], Block)
    ensures forall k :: 0 <= k < |r.tints| ==>
      var t := r.results[k].result;
      (r.tints[k] == Green <==> t.passed)
      && (r.tints[k] == Gray <==> !t.passed && t.skipped)
      && (r.tints[k] == Yellow <==> !t.passed && !t.skipped && t.todo)
      && (r.tints[k] == BrightRed <==> IsFailure(t))
  {
    GlyphColoursAt(r.results);
    forall k | 0 <= k < |r.tints| ensures var t := r.results[k].result;
      (r.tints[k] == Green <==> t.passed)
      && (r.tints[k] == Gray <==> !t.passed && t.skipped)
      && (r.tints[k] == Yellow <==> !t.passed && !t.skipped && t.todo)
      && (r.tints[k] == BrightRed <==> IsFailure(t))
    {
      GlyphColourPriority(r.results[k].result);
    }
  }
}
