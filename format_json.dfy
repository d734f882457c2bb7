/** `formatOffensesJson`: the machine-readable report, one record per file of
    the grouped object, in the object's key order. */
module FormatJson {
  import opened Wrappers
  import opened Offenses
  import opened Sorting

  /** One offense as written to JSON: fields renamed, severity as its lower-case name. */
  datatype JsonOffense = JsonOffense(
    check: string,
    severity: string,
    startRow: nat,
    startColumn: nat,
    endRow: nat,
    endColumn: nat,
    message: string)

  /** One file's record. */
  datatype JsonFile = JsonFile(
    path: string,
    offenses: seq<JsonOffense>,
    errorCount: nat,
    warningCount: nat,
    infoCount: nat)

  function OffenseJson(o: Offense): (j: JsonOffense)
    ensures Reports(j, o)
  {
    JsonOffense(o.check, o.severity.Label(), o.start.line, o.start.character,
                o.end.line, o.end.character, o.message)
  }

  /** The JSON record keeps every field it reports: severity reads back, rows and
      columns are the start and end lines and characters, check and message are unchanged. */
  predicate Reports(j: JsonOffense, o: Offense) {
    && j.check == o.check
    && j.message == o.message
    && ParseSeverity(j.severity) == Some(o.severity)
    && j.startRow == o.start.line && j.startColumn == o.start.character
    && j.endRow == o.end.line && j.endColumn == o.end.character
  }

  /** One JSON offense per offense, in the same order. */
  function OffensesJson(s: seq<Offense>): (r: seq<JsonOffense>)
    ensures |r| == |s|
    ensures forall i :: 0 <= i < |s| ==> Reports(r[i], s[i])
  {
    if s == [] then [] else [OffenseJson(s[0])] + OffensesJson(s[1..])
  }

  /** The number of offenses of severity v. */
  function Count(s: seq<Offense>, v: Severity): (n: nat)
    ensures n <= |s|
  {
    SeverityPartition(s);
    |OfSeverity(s, v)|
  }

  function FileJson(e: FileOffenses): (j: JsonFile)
    ensures j.path == e.path && |j.offenses| == |e.offenses|
    ensures forall i :: 0 <= i < |e.offenses| ==> Reports(j.offenses[i], e.offenses[i])
    ensures j.errorCount + j.warningCount + j.infoCount == |e.offenses|
  {
    SeverityPartition(e.offenses);
    JsonFile(e.path, OffensesJson(e.offenses),
             Count(e.offenses, ERROR), Count(e.offenses, WARNING), Count(e.offenses, INFO))
  }

  /** One record per key of the grouped object, in key order,
      each naming its key and reporting that key's offenses in their order. */
  function FormatOffensesJson(m: OffenseMap): (r: seq<JsonFile>)
    ensures |r| == |m|
    ensures forall i :: 0 <= i < |m| ==>
      && r[i].path == m[i].path
      && |r[i].offenses| == |m[i].offenses|
      && (forall j :: 0 <= j < |m[i].offenses| ==> Reports(r[i].offenses[j], m[i].offenses[j]))
  {
    if m == [] then [] else [FileJson(m[0])] + FormatOffensesJson(m[1..])
  }

  /** In every record the three counts are the numbers of that file's offenses of
      each severity, and they sum to the file's offense count. */
  lemma RecordCounts(m: OffenseMap, i: nat)
    requires i < |m|
    ensures FormatOffensesJson(m)[i].errorCount == |OfSeverity(m[i].offenses, ERROR)|
    ensures FormatOffensesJson(m)[i].warningCount == |OfSeverity(m[i].offenses, WARNING)|
    ensures FormatOffensesJson(m)[i].infoCount == |OfSeverity(m[i].offenses, INFO)|
    ensures FormatOffensesJson(m)[i].errorCount + FormatOffensesJson(m)[i].warningCount
            + FormatOffensesJson(m)[i].infoCount == |FormatOffensesJson(m)[i].offenses|
  {
    RecordAt(m, i);
    SeverityPartition(m[i].offenses);
  }

  /** The i-th record is the i-th key's record. */
  lemma {:induction false} RecordAt(m: OffenseMap, i: nat)
    requires i < |m|
    ensures FormatOffensesJson(m)[i] == FileJson(m[i])
    decreases i
  {
    if i > 0 {
      RecordAt(m[1..], i - 1);
    }
  }

  /** Reporting the output of `sortOffenses`: one record per distinct path of the
      input, and each record counts exactly the input's offenses of that file by severity. */
  lemma JsonOfSortedOffenses(s: seq<Offense>, i: nat)
    requires i < |FormatOffensesJson(SortOffenses(s))|
    ensures FormatOffensesJson(SortOffenses(s))[i].path in PathsOf(s)
    ensures FormatOffensesJson(SortOffenses(s))[i].errorCount
            == Count(OfPath(s, FormatOffensesJson(SortOffenses(s))[i].path), ERROR)
    ensures FormatOffensesJson(SortOffenses(s))[i].warningCount
            == Count(OfPath(s, FormatOffensesJson(SortOffenses(s))[i].path), WARNING)
    ensures FormatOffensesJson(SortOffenses(s))[i].infoCount
            == Count(OfPath(s, FormatOffensesJson(SortOffenses(s))[i].path), INFO)
    ensures FormatOffensesJson(SortOffenses(s))[i].errorCount
            + FormatOffensesJson(SortOffenses(s))[i].warningCount
            + FormatOffensesJson(SortOffenses(s))[i].infoCount
            == |OfPath(s, FormatOffensesJson(SortOffenses(s))[i].path)|
  {
    var m := SortOffenses(s);
    SortOffensesSpec(s);
    RecordAt(m, i);
    var p := m[i].path;
    var t := OfPath(s, p);
    assert m[i] in m;
    GroupByPathSpec(s);
    SortIsStable(GroupByPath(s)[i].offenses, ERROR);
    SortIsStable(GroupByPath(s)[i].offenses, WARNING);
    SortIsStable(GroupByPath(s)[i].offenses, INFO);
    SeverityPartition(t);
  }

  /** The case the test suite pins: one file with an error on line 1 and a warning
      on line 2. */
  lemma FormatOffensesJsonExample(e: Offense, w: Offense)
    requires e.absolutePath == w.absolutePath == "/path/to/file"
    requires e.check == w.check == "LiquidHTMLSyntaxError"
    requires e.message == w.message == "Attempting to close HtmlElement"
    requires e.severity == ERROR && w.severity == WARNING
    requires e.start == Position(0, 1, 0) && e.end == Position(10, 1, 10)
    requires w.start == Position(0, 2, 0) && w.end == Position(10, 2, 10)
    ensures FormatOffensesJson([FileOffenses("/path/to/file", [e, w])]) ==
      [ JsonFile("/path/to/file",
          [ JsonOffense("LiquidHTMLSyntaxError", "error", 1, 0, 1, 10, "Attempting to close HtmlElement"),
            JsonOffense("LiquidHTMLSyntaxError", "warning", 2, 0, 2, 10, "Attempting to close HtmlElement") ],
          1, 1, 0) ]
  {
    assert [e, w] == [e] + [w] && [w] == [w] + [];
    OfSeverityCons(e, [w], ERROR);
    OfSeverityCons(w, [], ERROR);
    OfSeverityCons(e, [w], WARNING);
    OfSeverityCons(w, [], WARNING);
    OfSeverityCons(e, [w], INFO);
    OfSeverityCons(w, [], INFO);
    assert OffensesJson([e, w]) == [OffenseJson(e), OffenseJson(w)] by {
      assert [e, w][1..] == [w] && [w][1..] == [];
    }
  }
}
