/** The human-readable report: `formatOffenses` renders offenses as styled
    segments for the terminal renderer, `formatSummary` the closing lines. */
module FormatText {
  import opened Offenses
  import opened Decimal
  import opened Strings
  import opened Sorting

  /** A piece of styled text handed to the renderer: `{error: t}`, `{warn: t}`,
      `{bold: t}`, `{subdued: t}`, or a plain string. */
  datatype Segment =
    | ErrorTag(text: string)
    | WarnTag(text: string)
    | Bold(text: string)
    | Subdued(text: string)
    | Plain(text: string)

  /** Only errors get the error tag; every other severity is tagged as a warning. */
  function SeverityTag(v: Severity): (t: Segment)
    ensures t.ErrorTag? <==> v == ERROR
    ensures t.WarnTag? <==> v != ERROR
    ensures t.text == "\n[" + (if v == ERROR then "error" else "warning") + "]:"
  {
    if v == ERROR then ErrorTag("\n[error]:") else WarnTag("\n[warning]:")
  }

  /** The source line shown for an offense: line `line` of the file, counted from 0,
      trimmed; an empty string when the file has no such line. */
  function Snippet(lines: seq<string>, line: nat): (r: string)
    ensures line >= |lines| ==> r == ""
    ensures line < |lines| ==> |r| <= |lines[line]| && r == Trim(lines[line])
    ensures r == [] || (!IsTrimmable(r[0]) && !IsTrimmable(r[|r| - 1]))
  {
    if line < |lines| then Trim(lines[line]) else ""
  }

  /** The location segment: the line number counted from 1, two spaces, the snippet. */
  function Location(o: Offense, lines: seq<string>): (r: string)
  {
    "\n\n" + NatToString(o.start.line + 1) + "  " + Snippet(lines, o.start.line)
  }

  /** The five segments of one offense; the last offense ends with "" instead of a blank line. */
  function OffenseSegments(o: Offense, lines: seq<string>, last: bool): (r: seq<Segment>)
    ensures |r| == 5
    ensures r[4] == Plain("") <==> last
  {
    [ SeverityTag(o.severity),
      Bold(o.check),
      Subdued("\n" + o.message),
      Plain(Location(o, lines)),
      Plain(if last then "" else "\n\n") ]
  }

  /** The blocks of a list of offenses: block i renders offense i, and only the
      last block is the last offense's. */
  function Blocks(offenses: seq<Offense>, linesOf: string -> seq<string>): (b: seq<seq<Segment>>)
    ensures |b| == |offenses|
    ensures forall i :: 0 <= i < |b| ==>
      b[i] == OffenseSegments(offenses[i], linesOf(offenses[i].absolutePath), i == |offenses| - 1)
    ensures forall i :: 0 <= i < |b| ==> |b[i]| == 5
  {
    seq(|offenses|, i requires 0 <= i < |offenses| =>
      OffenseSegments(offenses[i], linesOf(offenses[i].absolutePath), i == |offenses| - 1))
  }

  /** The blocks concatenated one after the other. */
  function Flatten<T>(blocks: seq<seq<T>>): seq<T> {
    if blocks == [] then [] else blocks[0] + Flatten(blocks[1..])
  }

  /** Blocks of five flatten to five elements per block. */
  lemma {:induction false} FlattenLength<T>(blocks: seq<seq<T>>)
    requires forall n :: 0 <= n < |blocks| ==> |blocks[n]| == 5
    ensures |Flatten(blocks)| == 5 * |blocks|
    decreases |blocks|
  {
    if blocks != [] {
      FlattenLength(blocks[1..]);
    }
  }

  /** Element 5i+k of flattened blocks of five is element k of block i. */
  lemma {:induction false} FlattenAt<T>(blocks: seq<seq<T>>, i: nat, k: nat, j: nat)
    requires forall n :: 0 <= n < |blocks| ==> |blocks[n]| == 5
    requires i < |blocks| && k < 5 && j == 5 * i + k
    ensures j < |Flatten(blocks)| && Flatten(blocks)[j] == blocks[i][k]
    decreases i
  {
    FlattenLength(blocks);
    FlattenLength(blocks[1..]);
    assert Flatten(blocks) == blocks[0] + Flatten(blocks[1..]);
    if i > 0 {
      FlattenAt(blocks[1..], i - 1, k, j - 5);
      assert blocks[1..][i - 1] == blocks[i];
    }
  }

  /** `formatOffenses`: five segments per offense, the offenses' blocks one after
      another in input order. `linesOf` gives a file's text split at newlines (the
      file read is left to the caller). */
  function FormatOffenses(offenses: seq<Offense>, linesOf: string -> seq<string>): (r: seq<Segment>)
    ensures |r| == 5 * |offenses|
  {
    FlattenLength(Blocks(offenses, linesOf));
    Flatten(Blocks(offenses, linesOf))
  }

  /** Segment 5i+k of the output is segment k of the i-th offense's own five. */
  lemma SegmentsAt(offenses: seq<Offense>, linesOf: string -> seq<string>, i: nat, k: nat, j: nat)
    requires i < |offenses| && k < 5 && j == 5 * i + k
    ensures FormatOffenses(offenses, linesOf)[j]
      == OffenseSegments(offenses[i], linesOf(offenses[i].absolutePath), i == |offenses| - 1)[k]
  {
    FlattenAt(Blocks(offenses, linesOf), i, k, j);
  }

  /** Segments 5i to 5i+4 of the output are the i-th offense's severity tag, its
      check in bold, its message subdued on a new line, its location, and a blank
      line, except after the last offense, which is closed by "". */
  lemma FormatOffensesAt(offenses: seq<Offense>, linesOf: string -> seq<string>, i: nat)
    requires i < |offenses|
    ensures var r := FormatOffenses(offenses, linesOf);
      && r[5 * i] == SeverityTag(offenses[i].severity)
      && r[5 * i + 1] == Bold(offenses[i].check)
      && r[5 * i + 2] == Subdued("\n" + offenses[i].message)
      && r[5 * i + 3] == Plain(Location(offenses[i], linesOf(offenses[i].absolutePath)))
      && r[5 * i + 4] == Plain(if i == |offenses| - 1 then "" else "\n\n")
  {
    SegmentsAt(offenses, linesOf, i, 0, 5 * i);
    SegmentsAt(offenses, linesOf, i, 1, 5 * i + 1);
    SegmentsAt(offenses, linesOf, i, 2, 5 * i + 2);
    SegmentsAt(offenses, linesOf, i, 3, 5 * i + 3);
    SegmentsAt(offenses, linesOf, i, 4, 5 * i + 4);
  }

  /** The off-by-one convention: the number printed is the offense's line plus one,
      and the text printed is the file's line at the offense's own (0-based) line,
      that is the line one above the printed number counted from 1. */
  lemma LocationLine(o: Offense, lines: seq<string>)
    ensures exists digits :: (IsNumeral(digits, o.start.line + 1)
      && Location(o, lines) == "\n\n" + digits + "  " + Snippet(lines, o.start.line)
      && (ParseNat(digits) - 1 < |lines| ==> Snippet(lines, o.start.line) == Trim(lines[ParseNat(digits) - 1])))
  {
    var digits := NatToString(o.start.line + 1);
    NumeralOf(o.start.line + 1);
    assert Location(o, lines) == "\n\n" + digits + "  " + Snippet(lines, o.start.line);
  }

  /** Only the last offense is closed by the empty segment; every other one by a blank line. */
  lemma SeparatorsBetween(offenses: seq<Offense>, linesOf: string -> seq<string>, i: nat)
    requires i < |offenses|
    ensures FormatOffenses(offenses, linesOf)[5 * i + 4] == Plain("") <==> i == |offenses| - 1
  {
    FormatOffensesAt(offenses, linesOf, i);
  }

  // ---------------------------------------------------------------------------
  // Summary

  /** `formatSummary(offenses, offensesByFile, theme)`; `inspected` is the theme's
      file count. No offenses: two lines. Otherwise the total, the number of keys of
      the grouped object, then the error and warning counts. */
  function FormatSummary(offenses: seq<Offense>, offensesByFile: OffenseMap, inspected: nat): (r: seq<string>)
    requires DistinctPaths(offensesByFile)
    ensures |r| == (if offenses == [] then 2 else 4)
    ensures r[0] == NatToString(inspected) + " files inspected"
    ensures offenses == [] ==> r[1] == "with no offenses found."
  {
    var head := NatToString(inspected) + " files inspected";
    if offenses == [] then [head, "with no offenses found."]
    else
      [ head,
        "with " + NatToString(|offenses|) + " total offenses found across "
          + NatToString(|offensesByFile|) + " files.",
        "\n" + NatToString(|OfSeverity(offenses, ERROR)|) + " errors.",
        "\n" + NatToString(|OfSeverity(offenses, WARNING)|) + " warnings." ]
  }

  /** The number of keys of a grouped object with distinct keys is its number of distinct paths. */
  lemma {:induction false} DistinctKeyCount(m: OffenseMap)
    requires DistinctPaths(m)
    ensures |KeySet(m)| == |m|
    decreases |m|
  {
    if m != [] {
      var t := m[1..];
      assert DistinctPaths(t) by {
        forall i, j | 0 <= i < j < |t| ensures t[i].path != t[j].path {
          assert t[i] == m[i + 1] && t[j] == m[j + 1];
        }
      }
      DistinctKeyCount(t);
      assert KeySet(m) == KeySet(t) + {m[0].path} by {
        assert forall e :: e in m <==> e in t || e == m[0];
      }
      assert m[0].path !in KeySet(t) by {
        forall e | e in t ensures e.path != m[0].path {
          var j :| 0 <= j < |t| && t[j] == e;
          assert m[j + 1] == e;
        }
      }
    }
  }

  /** The summary states the counts it is given, for every input. With offenses,
      the second line carries the number of offenses and the number of keys of the
      grouped object (its own keys, whatever offenses were passed alongside), and
      the last two lines carry the number of errors and of warnings. */
  lemma FormatSummaryCounts(offenses: seq<Offense>, offensesByFile: OffenseMap, inspected: nat)
    requires DistinctPaths(offensesByFile) && offenses != []
    ensures var r := FormatSummary(offenses, offensesByFile, inspected);
      exists t, f, e, w :: (
        && IsNumeral(t, |offenses|)
        && IsNumeral(f, |KeySet(offensesByFile)|)
        && IsNumeral(e, |OfSeverity(offenses, ERROR)|)
        && IsNumeral(w, |OfSeverity(offenses, WARNING)|)
        && r[1] == "with " + t + " total offenses found across " + f + " files."
        && r[2] == "\n" + e + " errors."
        && r[3] == "\n" + w + " warnings.")
  {
    var t := NatToString(|offenses|);
    var f := NatToString(|offensesByFile|);
    var e := NatToString(|OfSeverity(offenses, ERROR)|);
    var w := NatToString(|OfSeverity(offenses, WARNING)|);
    DistinctKeyCount(offensesByFile);
    NumeralOf(|offenses|);
    NumeralOf(|offensesByFile|);
    NumeralOf(|OfSeverity(offenses, ERROR)|);
    NumeralOf(|OfSeverity(offenses, WARNING)|);
  }

  /** Summarising the output of `sortOffenses` of the same offenses: the file count
      printed is the number of distinct files with offenses, and the error and
      warning counts printed never exceed the total printed. */
  lemma SummaryOfSorted(offenses: seq<Offense>, inspected: nat)
    requires offenses != []
    ensures FormatSummary(offenses, SortOffenses(offenses), inspected)[1]
      == "with " + NatToString(|offenses|) + " total offenses found across "
         + NatToString(|PathsOf(offenses)|) + " files."
    ensures |OfSeverity(offenses, ERROR)| + |OfSeverity(offenses, WARNING)| <= |offenses|
  {
    SortOffensesSpec(offenses);
    DistinctKeyCount(SortOffenses(offenses));
    SeverityPartition(offenses);
  }

  // ---------------------------------------------------------------------------
  // The cases the test suite pins

  /** One error on line 1 of a three-line file: the second line is shown,
      numbered 2, and no separator follows. */
  lemma FormatOffensesExample(e: Offense, linesOf: string -> seq<string>)
    requires linesOf(e.absolutePath) == ["Line1", "Line2", "Line3"]
    requires e.severity == ERROR
    requires e.check == "LiquidHTMLSyntaxError"
    requires e.message == "Attempting to close HtmlElement"
    requires e.start.line == 1
    ensures FormatOffenses([e], linesOf) ==
      [ ErrorTag("\n[error]:"), Bold("LiquidHTMLSyntaxError"),
        Subdued("\nAttempting to close HtmlElement"), Plain("\n\n2  Line2"), Plain("") ]
  {
    var lines := linesOf(e.absolutePath);
    var r := FormatOffenses([e], linesOf);
    forall k | 0 <= k < 5 ensures r[k] == OffenseSegments(e, lines, true)[k] {
      SegmentsAt([e], linesOf, 0, k, k);
    }
    assert r == OffenseSegments(e, lines, true);
    SecondLineLocation(lines);
    MessageLiteral();
  }

  /** An error on line 1 and a warning on line 2 of the same file: lines 2 and 3
      are shown, and a separator stands between the two offenses only. */
  lemma FormatTwoOffensesExample(e: Offense, w: Offense, linesOf: string -> seq<string>)
    requires e.absolutePath == w.absolutePath
    requires linesOf(e.absolutePath) == ["Line1", "Line2", "Line3"]
    requires e.severity == ERROR && w.severity == WARNING
    requires e.check == w.check == "LiquidHTMLSyntaxError"
    requires e.message == w.message == "Attempting to close HtmlElement"
    requires e.start.line == 1 && w.start.line == 2
    ensures FormatOffenses([e, w], linesOf) ==
      [ ErrorTag("\n[error]:"), Bold("LiquidHTMLSyntaxError"),
        Subdued("\nAttempting to close HtmlElement"), Plain("\n\n2  Line2"), Plain("\n\n"),
        WarnTag("\n[warning]:"), Bold("LiquidHTMLSyntaxError"),
        Subdued("\nAttempting to close HtmlElement"), Plain("\n\n3  Line3"), Plain("") ]
  {
    var lines := linesOf(e.absolutePath);
    TwoOffenses(e, w, linesOf);
    SecondLineLocation(lines);
    ThirdLineLocation(lines);
    MessageLiteral();
  }

  /** Two offenses of one file: the first one's five segments with a blank line
      after them, then the second one's, closed by "". */
  lemma TwoOffenses(e: Offense, w: Offense, linesOf: string -> seq<string>)
    requires e.absolutePath == w.absolutePath
    ensures FormatOffenses([e, w], linesOf)
      == OffenseSegments(e, linesOf(e.absolutePath), false) + OffenseSegments(w, linesOf(e.absolutePath), true)
  {
    var r := FormatOffenses([e, w], linesOf);
    var expected := OffenseSegments(e, linesOf(e.absolutePath), false)
      + OffenseSegments(w, linesOf(e.absolutePath), true);
    forall k | 0 <= k < 10 ensures r[k] == expected[k] {
      if k < 5 {
        SegmentsAt([e, w], linesOf, 0, k, k);
      } else {
        SegmentsAt([e, w], linesOf, 1, k - 5, k);
      }
    }
  }

  lemma MessageLiteral()
    ensures "\n" + "Attempting to close HtmlElement" == "\nAttempting to close HtmlElement"
  {
  }

  /** Line 1 of the three-line file is shown as `2  Line2`. */
  lemma SecondLineLocation(lines: seq<string>)
    requires lines == ["Line1", "Line2", "Line3"]
    ensures "\n\n" + NatToString(2) + "  " + Snippet(lines, 1) == "\n\n2  Line2"
  {
    assert !IsTrimmable('L') && !IsTrimmable('2');
    TrimUnchanged("Line2");
    assert NatToString(2) == "2" by { assert DigitChar(2) == '2'; }
  }

  /** Line 2 of the three-line file is shown as `3  Line3`. */
  lemma ThirdLineLocation(lines: seq<string>)
    requires lines == ["Line1", "Line2", "Line3"]
    ensures "\n\n" + NatToString(3) + "  " + Snippet(lines, 2) == "\n\n3  Line3"
  {
    assert !IsTrimmable('L') && !IsTrimmable('3');
    TrimUnchanged("Line3");
    assert NatToString(3) == "3" by { assert DigitChar(3) == '3'; }
  }

  /** Ten files inspected: with no offenses two lines; with one error and one
      warning and an empty grouped object, "across 0 files" and both counts. */
  lemma FormatSummaryExample(e: Offense, w: Offense)
    requires e.severity == ERROR && w.severity == WARNING
    ensures FormatSummary([], [], 10) == ["10 files inspected", "with no offenses found."]
    ensures FormatSummary([e, w], [], 10) ==
      [ "10 files inspected", "with 2 total offenses found across 0 files.",
        "\n1 errors.", "\n1 warnings." ]
  {
    SummaryNumerals();
    SummaryLiterals();
    assert [e, w] == [e] + [w] && [w] == [w] + [];
    OfSeverityCons(e, [w], ERROR);
    OfSeverityCons(w, [], ERROR);
    OfSeverityCons(e, [w], WARNING);
    OfSeverityCons(w, [], WARNING);
  }

  lemma SummaryNumerals()
    ensures NatToString(10) == "10" && NatToString(2) == "2"
    ensures NatToString(1) == "1" && NatToString(0) == "0"
  {
    assert DigitChar(1) == '1' && DigitChar(0) == '0' && DigitChar(2) == '2';
  }

  lemma SummaryLiterals()
    ensures "10" + " files inspected" == "10 files inspected"
    ensures "with " + "2" + " total offenses found across " + "0" + " files."
      == "with 2 total offenses found across 0 files."
    ensures "\n" + "1" + " errors." == "\n1 errors."
    ensures "\n" + "1" + " warnings." == "\n1 warnings."
  {
    TotalsLiteral();
  }

  lemma TotalsLiteral()
    ensures "with " + "2" + " total offenses found across " + "0" + " files."
      == "with 2 total offenses found across 0 files."
  {
    assert "with " + "2" == "with 2";
    assert "with 2" + " total offenses found across " == "with 2 total offenses found across ";
    assert "with 2 total offenses found across " + "0" == "with 2 total offenses found across 0";
  }
}
