/** The reporters of minimal-error-reporter.js: `MinimalErrorReporter` and its
    subclass `MinimalErrorColoredReporter`, which overrides `display` and
    `summaryDisplay` and inherits the constructor and `report`. One class models
    both; its `colored` field says which of the two an object is, and `Display`
    and `SummaryDisplay` take the subclass's branch when it is set. */
module ErrorReporter {
  import opened Text
  import opened Outcomes

  /** The block the coloured subclass writes for every result. */
  const Block: string := "■"

  /** What `display` writes for a result: the plain glyph, or the block tinted with
      the colour of the shown category. */
  function Glyph(r: TestResult, colored: bool): string
  {
    if colored then Tint(ColourOf(ShownAs(r)), Block) else PlainGlyph(ShownAs(r))
  }

  /** What `display` wrote for the entries of a results log, in order. */
  function Glyphs(rs: seq<Entry>, colored: bool): (gs: seq<string>)
    ensures |gs| == |rs|
    ensures forall k :: 0 <= k < |rs| ==> gs[k] == Glyph(rs[k].result, colored)
  {
    if rs == [] then [] else Glyphs(rs[..|rs| - 1], colored) + [Glyph(rs[|rs| - 1].result, colored)]
  }

  lemma GlyphsStep(rs: seq<Entry>, e: Entry, colored: bool)
    ensures Glyphs(rs + [e], colored) == Glyphs(rs, colored) + [Glyph(e.result, colored)]
  {
    assert (rs + [e])[..|rs|] == rs;
  }

  /** The lines `summaryDisplay` joins: the counter box and, only when some test
      failed, a blank line, the header, one bullet per failed test and a blank line. */
  function SummaryLines(box: seq<string>, tests: seq<string>, colored: bool): (lines: seq<string>)
    ensures tests == [] ==> lines == box
    ensures tests != [] ==> |lines| == |box| + |tests| + 3 && lines[..|box|] == box
    ensures tests != [] ==> lines[|box|] == "" && lines[|box| + 1] == "FAILED TESTS:" && lines[|lines| - 1] == ""
    ensures tests != [] ==> forall k :: 0 <= k < |tests| ==> lines[|box| + 2 + k] == FailureLine(tests[k], colored)
  {
    if |tests| > 0 then box + ["", "FAILED TESTS:"] + Bullets(tests, colored) + [""] else box
  }

  /** The "FAILED TESTS:" header appears exactly when some test failed. */
  lemma FailedSectionIff(pass: nat, skipped: nat, todo: nat, failed: nat, total: nat, tests: seq<string>, colored: bool)
    ensures "FAILED TESTS:" in SummaryLines(CounterBox(pass, skipped, todo, failed, total), tests, colored)
            <==> tests != []
  {
    var box := CounterBox(pass, skipped, todo, failed, total);
    if tests == [] {
      forall k | 0 <= k < |box| ensures box[k] != "FAILED TESTS:" {
        assert box[k][0] == '+' || box[k][0] == '|';
      }
    } else {
      assert SummaryLines(box, tests, colored)[|box| + 1] == "FAILED TESTS:";
    }
  }

  /** Summarising an already sorted list gives the same lines: a second summary
      repeats the first. */
  lemma SummaryStable(box: seq<string>, tests: seq<string>, colored: bool)
    ensures SummaryLines(box, Sort(Sort(tests)), colored) == SummaryLines(box, Sort(tests), colored)
  {
    SortIdempotent(Sort(tests));
  }

  /** The summary adds no line break of its own to the box and the test names. */
  lemma SummaryLinesNoNewline(box: seq<string>, tests: seq<string>, colored: bool)
    requires NoNewline(box) && NoNewline(tests)
    ensures NoNewline(SummaryLines(box, tests, colored))
  {
    if tests != [] {
      var lines := SummaryLines(box, tests, colored);
      BulletsNoNewline(tests, colored);
      var bullets := Bullets(tests, colored);
      forall k | 0 <= k < |lines| ensures '\n' !in lines[k] {
        if k < |box| {
          assert lines[k] == box[k];
        } else if k >= |box| + 2 && k < |lines| - 1 {
          assert lines[k] == bullets[k - |box| - 2];
        }
      }
    }
  }

  /** Splitting the summary text at line breaks gives back its lines, as long as no
      failed test's name holds a line break. */
  lemma SummaryLinesRecoverable(pass: nat, skipped: nat, todo: nat, failed: nat, total: nat, tests: seq<string>, colored: bool)
    requires NoNewline(tests)
    ensures var lines := SummaryLines(CounterBox(pass, skipped, todo, failed, total), tests, colored);
      Split(Join(lines, "\n"), '\n') == lines
  {
    var box := CounterBox(pass, skipped, todo, failed, total);
    CounterBoxNoNewline(pass, skipped, todo, failed, total);
    SummaryLinesNoNewline(box, tests, colored);
    SplitJoin(SummaryLines(box, tests, colored), '\n');
  }

  /** The cleaned names of the failed entries, counted with multiplicity. */
  ghost function FailedBag(rs: seq<Entry>): (bag: multiset<string>)
    ensures |bag| == Tally(rs, Failed)
  {
    if rs == [] then multiset{}
    else
      var r := rs[|rs| - 1].result;
      FailedBag(rs[..|rs| - 1]) + (if IsFailure(r) then multiset{CleanName(r.name)} else multiset{})
  }

  /** The bag holds the failed entries' cleaned names, so a list of failed tests in
      any order is a permutation of them exactly when its bag is this one. */
  lemma {:induction false} FailedBagNames(rs: seq<Entry>)
    ensures FailedBag(rs) == multiset(FailedNames(rs))
  {
    if rs != [] {
      FailedBagNames(rs[..|rs| - 1]);
    }
  }

  /** What a reporter has logged, on values: the failed tests are the cleaned names
      of the failed entries in some order, the output holds one glyph per entry,
      and the coloured subclass tinted each with the colour of its shown category. */
  ghost predicate LogOf(rs: seq<Entry>, failedTests: seq<string>, out: seq<string>, tints: seq<Colour>, colored: bool)
  {
    multiset(failedTests) == FailedBag(rs)
    && out == Glyphs(rs, colored)
    && tints == Tints(rs, colored)
  }

  /** The colours the coloured subclass tinted its glyphs with; the plain reporter
      tints nothing. */
  ghost function Tints(rs: seq<Entry>, colored: bool): seq<Colour>
  {
    if colored then GlyphColours(rs) else []
  }

  /** The colour `display` adds to the log for one result. */
  ghost function TintOf(r: TestResult, colored: bool): seq<Colour>
  {
    if colored then [ColourOf(ShownAs(r))] else []
  }

  /** Reporting one more entry extends each log by what `display` adds for it. */
  lemma LogStep(rs: seq<Entry>, failedTests: seq<string>, out: seq<string>, tints: seq<Colour>, colored: bool, e: Entry)
    requires LogOf(rs, failedTests, out, tints, colored)
    ensures LogOf(rs + [e],
                  failedTests + (if IsFailure(e.result) then [CleanName(e.result.name)] else []),
                  out + [Glyph(e.result, colored)],
                  tints + TintOf(e.result, colored),
                  colored)
  {
    assert (rs + [e])[..|rs|] == rs;
    assert FailedBag(rs + [e]) == FailedBag(rs) + multiset(if IsFailure(e.result) then [CleanName(e.result.name)] else []);
    GlyphsStep(rs, e, colored);
    GlyphColoursStep(rs, e);
  }

  class MinimalErrorReporter {
    /** Set for the MinimalErrorColoredReporter subclass. */
    const colored: bool
    var total: nat
    var pass: nat
    var skipped: nat
    var todo: nat
    var failed: nat
    var failedTests: seq<string>
    var results: seq<Entry>
    /** What was written to the output stream, one string per write. */
    var out: seq<string>
    /** The colour each coloured write was tinted with, one per write. */
    ghost var tints: seq<Colour>

    /** The counters are the tallies of the results log, the failed tests are the
        cleaned names of its failed entries (in some order, since `summaryDisplay`
        sorts them), the output holds one glyph per entry, and the coloured
        subclass tinted each with the colour of the entry's shown category. */
    ghost predicate Valid()
      reads this
    {
      Tallied(results, total, pass, skipped, todo, failed)
      && LogOf(results, failedTests, out, tints, colored)
    }

    /** The base class starts `pass`, `skipped`, `total` at zero, `results` empty and
        the output stream empty; this constructor zeroes `todo` and `failed` and
        empties `failedTests`. */
    constructor (colored: bool)
      ensures this.colored == colored
      ensures total == 0 && pass == 0 && skipped == 0 && todo == 0 && failed == 0
      ensures failedTests == [] && results == [] && out == [] && tints == []
      ensures Valid()
    {
      this.colored := colored;
      total, pass, skipped := 0, 0, 0;
      results := [];
      out := [];
      tints := [];
      todo := 0;
      failed := 0;
      failedTests := [];
    }

    /** Writes one glyph chosen passed, skipped, todo, failed in that order, and
        records the cleaned name of a result with no flag set. */
    method Display(prefix: string, result: TestResult)
      modifies this`failedTests, this`out, this`tints
      ensures failedTests == old(failedTests) + (if IsFailure(result) then [CleanName(result.name)] else [])
      ensures out == old(out) + [Glyph(result, colored)]
      ensures tints == old(tints) + TintOf(result, colored)
    {
      if !result.passed && !result.skipped && !result.todo {
        var line := Trim(StripPartition(result.name));
        failedTests := failedTests + [line];
      }
      if colored {
        var output := Block;
        var colour;
        if result.passed {
          colour := Green;
        } else if result.skipped {
          colour := Gray;
        } else if result.todo {
          colour := Yellow;
        } else {
          colour := BrightRed;
        }
        out := out + [Tint(colour, output)];
        tints := tints + [colour];
      } else {
        if result.passed {
          out := out + ["."];
        } else if result.skipped {
          out := out + ["*"];
        } else if result.todo {
          out := out + ["-"];
        } else {
          out := out + ["F"];
        }
      }
    }

    /** Logs the result, displays it, and raises the total and exactly one counter,
        chosen todo, skipped, passed, failed in that order. */
    method Report(prefix: string, data: TestResult)
      requires Valid()
      modifies this
      ensures Valid()
      ensures results == old(results) + [Entry(prefix, data)]
      ensures total == old(total) + 1
      ensures todo == old(todo) + (if CountedAs(data) == Todo then 1 else 0)
      ensures skipped == old(skipped) + (if CountedAs(data) == Skipped then 1 else 0)
      ensures pass == old(pass) + (if CountedAs(data) == Passed then 1 else 0)
      ensures failed == old(failed) + (if CountedAs(data) == Failed then 1 else 0)
      ensures failedTests == old(failedTests) + (if IsFailure(data) then [CleanName(data.name)] else [])
      ensures out == old(out) + [Glyph(data, colored)]
      ensures tints == old(tints) + TintOf(data, colored)
      ensures total == pass + skipped + todo + failed
      ensures |failedTests| == failed
    {
      var entry := Entry(prefix, data);
      TalliedStep(results, entry, total, pass, skipped, todo, failed);
      LogStep(results, failedTests, out, tints, colored, entry);
      results := results + [entry];
      Display(prefix, data);
      Count(data);
      TalliedSum(results, total, pass, skipped, todo, failed);
    }

    /** The counting half of `report`: raises the total and exactly one counter,
        chosen todo, skipped, passed, failed in that order. */
    method Count(data: TestResult)
      modifies this`total, this`todo, this`skipped, this`pass, this`failed
      ensures total == old(total) + 1
      ensures todo == old(todo) + (if CountedAs(data) == Todo then 1 else 0)
      ensures skipped == old(skipped) + (if CountedAs(data) == Skipped then 1 else 0)
      ensures pass == old(pass) + (if CountedAs(data) == Passed then 1 else 0)
      ensures failed == old(failed) + (if CountedAs(data) == Failed then 1 else 0)
    {
      total := total + 1;
      if data.todo {
        todo := todo + 1;
      } else if data.skipped {
        skipped := skipped + 1;
      } else if data.passed {
        pass := pass + 1;
      } else {
        failed := failed + 1;
      }
    }

    /** Renders the counter box and, when some test failed, the sorted list of
        failed tests; sorts `failedTests` in place on the way. */
    method SummaryDisplay() returns (text: string)
      requires Valid()
      modifies this`failedTests
      ensures Valid()
      ensures failedTests == Sort(old(failedTests))
      ensures Sorted(old(failedTests)) ==> failedTests == old(failedTests)
      ensures text == Join(SummaryLines(CounterBox(pass, skipped, todo, failed, total), failedTests, colored), "\n")
    {
      var box := if colored then ColoredCounterBox(pass, skipped, todo, failed, total)
                 else CounterBox(pass, skipped, todo, failed, total);
      var lines := box;
      if |failedTests| > 0 {
        lines := lines + [""];
        lines := lines + ["FAILED TESTS:"];
        assert lines == box + ["", "FAILED TESTS:"];
        failedTests := Sort(failedTests);
        assert Valid();
        lines := AppendBullets(lines, failedTests, colored);
        lines := lines + [""];
      }
      assert lines == SummaryLines(box, failedTests, colored);
      assert box == CounterBox(pass, skipped, todo, failed, total);
      text := Join(lines, "\n");
      if Sorted(old(failedTests)) {
        SortIdempotent(old(failedTests));
      }
    }
  }

  /** The two counting invariants of a reporter: the total is the sum of the four
      counters, and there are as many failed tests listed as counted. */
  lemma CountingInvariants(r: MinimalErrorReporter)
    requires r.Valid()
    ensures r.total == r.pass + r.skipped + r.todo + r.failed
    ensures |r.failedTests| == r.failed
  {
    TalliedSum(r.results, r.total, r.pass, r.skipped, r.todo, r.failed);
    FailedBagNames(r.results);
    assert |r.failedTests| == |multiset(r.failedTests)| == |multiset(FailedNames(r.results))|;
  }

  /** The coloured subclass wrote the block for every entry, tinted green exactly
      for the passed ones, gray for the skipped ones that did not pass, yellow for
      the todo ones neither passed nor skipped, and bright red for the failures. */
  lemma WrittenColours(r: MinimalErrorReporter)
    requires r.Valid() && r.colored
    ensures |r.tints| == |r.out| == |r.results|
    ensures forall k :: 0 <= k < |r.out| ==> r.out[k] == Tint(r.tints[k], Block)
    ensures forall k :: 0 <= k < |r.tints| ==>
      var t := r.results[k].result;
      (r.tints[k] == Green <==> t.passed)
      && (r.tints[k] == Gray <==> !t.passed && t.skipped)
      && (r.tints[k] == Yellow <==> !t.passed && !t.skipped && t.todo)
      && (r.tints[k] == BrightRed <==> IsFailure(t))
  {
    GlyphColoursAt(r.results);
    forall k | 0 <= k < |r.tints| ensures var t := r.results[k].result;
      (r.tints[k] == Green <==> t.passed)
      && (r.tints[k] == Gray <==> !t.passed && t.skipped)
      && (r.tints[k] == Yellow <==> !t.passed && !t.skipped && t.todo)
      && (r.tints[k] == BrightRed <==> IsFailure(t))
    {
      GlyphColourPriority(r.results[k].result);
    }
  }

  /** A second summary returns the same text as the first. */
  method SummaryTwice(r: MinimalErrorReporter) returns (first: string, second: string)
    requires r.Valid()
    modifies r
    ensures first == second
  {
    first := r.SummaryDisplay();
    SortIdempotent(r.failedTests);
    second := r.SummaryDisplay();
  }
}
