/** The standalone comparison script, an older variant of the benchmark: its
    `VMECComparator` finds the test cases, runs them on the implementations
    that could be built, tabulates the results without sorting and writes a
    status report; its jVMEC handler reads convergence from the solver log,
    and its educational VMEC handler has its own INDATA writer. Building and
    running the solvers are external (`Backend`). */
module Legacy {
  import opened Wrappers
  import opened Strings
  import opened Sequences
  import opened Paths
  import opened Records
  import opened TextFiles
  import opened Comparator
  import opened Runner
  import opened Indata

  /** The implementation keys, in the order the script lists them. */
  const LegacyImplementations: seq<string> := ["vmecpp", "educational", "vmec2000", "jvmec"]

  /** The script keeps at most this many test cases. */
  const CaseLimit := 3

  // ------------------------------------------------------------ test cases

  /** The two test-data directories the script looks for under an
      implementation's path (the VMEC++ one first, then the STELLOPT one): the
      `*.json` files of each, in glob order, or `None` when it does not exist. */
  datatype TestDirs = TestDirs(vmecppData: Option<seq<FilePath>>, stelloptData: Option<seq<FilePath>>)

  /** The JSON files of the first directory that exists. */
  function FirstExisting(t: TestDirs): seq<FilePath> {
    if t.vmecppData.Some? then t.vmecppData.value
    else if t.stelloptData.Some? then t.stelloptData.value
    else []
  }

  /** The candidate files, implementation by implementation. */
  function Candidates(dirs: seq<TestDirs>): seq<FilePath>
    decreases |dirs|
  {
    if dirs == [] then [] else Candidates(dirs[..|dirs| - 1]) + FirstExisting(dirs[|dirs| - 1])
  }

  /** The test cases: the first file per stem, at most `CaseLimit` of them. */
  function LegacyCases(dirs: seq<TestDirs>): seq<FilePath> {
    Limited(FirstByKey(Candidates(dirs), Stem), Some(CaseLimit))
  }

  /** The cases kept are the first `min(3, n)` of the `n` distinct stems, each
      the first file found with its stem, and no two share a stem. */
  lemma LegacyCasesProperties(dirs: seq<TestDirs>)
    ensures var unique := FirstByKey(Candidates(dirs), Stem);
      LegacyCases(dirs) == unique[..|LegacyCases(dirs)|]
      && |LegacyCases(dirs)| == if |unique| < CaseLimit then |unique| else CaseLimit
    ensures Distinct(KeysOf(LegacyCases(dirs), Stem))
    ensures forall x :: x in LegacyCases(dirs) ==>
      exists i :: IsFirstOfKey(Candidates(dirs), i, Stem) && Candidates(dirs)[i] == x
  {
    var unique := FirstByKey(Candidates(dirs), Stem);
    var r := LegacyCases(dirs);
    FirstByKeyProperties(Candidates(dirs), Stem);
    PrefixKeepsDistinct(unique, |r|, Stem);
    forall x | x in r
      ensures exists i :: IsFirstOfKey(Candidates(dirs), i, Stem) && Candidates(dirs)[i] == x
    {
      var k :| 0 <= k < |r| && r[k] == x;
      assert unique[k] == x;
      FirstByKeyKeepsFirst(Candidates(dirs), Stem, x);
    }
  }

  // ------------------------------------------------------------ running the cases

  /** The record stored for one run: the extractor's record when `run_case`
      succeeds, `{'success': False, 'error': 'Run failed'}` otherwise. */
  function LegacyRecord(outputPath: string, testCase: FilePath, impl: string, backend: Backend): Record {
    var dir := RunDir(outputPath, testCase, impl);
    if backend.runCase(impl, testCase, dir) then backend.extractResults(impl, dir)
    else Record(Some(false), ErrorText("Run failed"), map[], None, None)
  }

  /** The records of one case: an entry for each available implementation,
      none for the others. */
  function LegacyCaseRecords(available: set<string>, outputPath: string, testCase: FilePath, impls: seq<string>, backend: Backend): Entries
    decreases |impls|
  {
    if impls == [] then []
    else
      var prev := LegacyCaseRecords(available, outputPath, testCase, impls[..|impls| - 1], backend);
      var k := impls[|impls| - 1];
      if k in available then Put(prev, k, LegacyRecord(outputPath, testCase, k, backend)) else prev
  }

  /** `results[case_name] = case_results` for every test case. */
  function LegacyResults(available: set<string>, outputPath: string, cases: seq<FilePath>, backend: Backend): Registry
    decreases |cases|
  {
    if cases == [] then []
    else
      var c := cases[|cases| - 1];
      Put(LegacyResults(available, outputPath, cases[..|cases| - 1], backend), Stem(c),
          LegacyCaseRecords(available, outputPath, c, LegacyImplementations, backend))
  }

  /** An implementation has a record for a case exactly when it is listed and
      available; an unavailable one is absent rather than failed. */
  lemma {:induction false} LegacyCaseRecordsFind(available: set<string>, outputPath: string, testCase: FilePath, impls: seq<string>, backend: Backend, k: string)
    ensures Find(LegacyCaseRecords(available, outputPath, testCase, impls, backend), k)
      == if k in impls && k in available then Some(LegacyRecord(outputPath, testCase, k, backend)) else None
    decreases |impls|
  {
    if impls != [] {
      var impls' := impls[..|impls| - 1];
      var last := impls[|impls| - 1];
      LegacyCaseRecordsFind(available, outputPath, testCase, impls', backend, k);
      assert impls == impls' + [last];
      if last in available {
        PutFind(LegacyCaseRecords(available, outputPath, testCase, impls', backend), last,
          LegacyRecord(outputPath, testCase, last, backend), k);
      }
    }
  }

  /** Each test case's stem maps to that case's records. */
  lemma {:induction false} LegacyResultsFind(available: set<string>, outputPath: string, cases: seq<FilePath>, backend: Backend, i: int)
    requires Distinct(KeysOf(cases, Stem)) && 0 <= i < |cases|
    ensures Find(LegacyResults(available, outputPath, cases, backend), Stem(cases[i]))
      == Some(LegacyCaseRecords(available, outputPath, cases[i], LegacyImplementations, backend))
    decreases |cases|
  {
    var n := |cases| - 1;
    var prev := LegacyResults(available, outputPath, cases[..n], backend);
    var last := LegacyCaseRecords(available, outputPath, cases[n], LegacyImplementations, backend);
    if i == n {
      PutFind(prev, Stem(cases[n]), last, Stem(cases[n]));
    } else {
      assert Stem(cases[i]) != Stem(cases[n]) by {
        assert KeysOf(cases, Stem)[i] == Stem(cases[i]) && KeysOf(cases, Stem)[n] == Stem(cases[n]);
      }
      PutFind(prev, Stem(cases[n]), last, Stem(cases[i]));
      PrefixKeepsDistinct(cases, n, Stem);
      assert cases[..n][i] == cases[i];
      LegacyResultsFind(available, outputPath, cases[..n], backend, i);
    }
  }

  /** For every test case and implementation: a record exactly when the
      implementation is available, `Run failed` when its run failed, and the
      extractor's record as it is otherwise. */
  lemma LegacyRegistry(available: set<string>, outputPath: string, cases: seq<FilePath>, backend: Backend, i: int, k: string)
    requires Distinct(KeysOf(cases, Stem)) && 0 <= i < |cases| && k in LegacyImplementations
    ensures var reg := LegacyResults(available, outputPath, cases, backend);
      && Find(reg, Stem(cases[i])).Some?
      && (Find(Find(reg, Stem(cases[i])).value, k).Some? <==> k in available)
      && (k in available && !backend.runCase(k, cases[i], RunDir(outputPath, cases[i], k)) ==>
            Find(Find(reg, Stem(cases[i])).value, k) == Some(Record(Some(false), ErrorText("Run failed"), map[], None, None)))
      && (k in available && backend.runCase(k, cases[i], RunDir(outputPath, cases[i], k)) ==>
            Find(Find(reg, Stem(cases[i])).value, k) == Some(backend.extractResults(k, RunDir(outputPath, cases[i], k))))
  {
    LegacyResultsFind(available, outputPath, cases, backend, i);
    LegacyCaseRecordsFind(available, outputPath, cases[i], LegacyImplementations, backend, k);
  }

  // ------------------------------------------------------------ jVMEC results

  /** `JVMEC.extract_results`: `log` is the content of `jvmec.log` in the
      output directory, `None` when there is no such file. */
  method JvmecExtractResults(log: Option<string>) returns (results: Record)
    ensures Succeeded(results) <==> log.Some? && Contains(log.value, "VMEC converged")
    ensures results.success.Some?
    ensures results.error == if log.None? then ErrorText("No jVMEC log file found")
      else if Contains(log.value, "VMEC converged") then NullError
      else ErrorText("jVMEC did not converge")
    ensures results.values == map[] && results.implementation.None? && results.caseName.None?
  {
    results := Record(Some(false), NullError, map[], None, None);
    if log.Some? {
      if Contains(log.value, "VMEC converged") {
        results := results.(success := Some(true));
      } else {
        results := results.(error := ErrorText("jVMEC did not converge"));
      }
    } else {
      results := results.(error := ErrorText("No jVMEC log file found"));
    }
  }

  /** A jVMEC run counts as converged exactly when the phrase occurs at some
      position of its log. */
  lemma JvmecConvergedIffOccurs(log: string)
    ensures Contains(log, "VMEC converged") <==> exists i :: OccursAt(log, "VMEC converged", i)
  {
    ContainsIffOccurs(log, "VMEC converged");
  }

  // ------------------------------------------------------------ INDATA, older variant

  /** The only profile arrays the older converter writes. */
  const LegacyProfileParams: seq<Param> := [("am", "AM"), ("ac", "AC"), ("aphi", "APHI")]

  /** The lines the older converter produces: the listed scalar keys in the
      object's own order, and three profile arrays; the rest as in the
      educational VMEC converter. */
  function LegacyDocument(j: Json, fmt: Formatter): seq<Line> {
    match j
    case JObject(d) => Flatten(Sections(d, fmt, ObjectScalarLines(d, fmt), LegacyProfileParams))
    case _ => [Text(Opening), Raise]
  }

  /** The older `convert_json_to_indata`: `input` is the parsed JSON file,
      `None` when it cannot be read or parsed, in which case the output file is
      not opened. Returns True exactly when every line was written. */
  method LegacyConvertJsonToIndata(input: Option<Json>, fmt: Formatter, out: TextFile) returns (ok: bool)
    modifies out
    ensures input.None? ==> !ok && out.contents == old(out.contents)
    ensures input.Some? ==> out.contents == Written(LegacyDocument(input.value, fmt))
    ensures input.Some? ==> (ok <==> Completed(LegacyDocument(input.value, fmt)))
  {
    if input.None? {
      return false;
    }
    out.Truncate();
    if !input.value.JObject? {
      out.Write(Opening);
      WrittenThenRaise(Opening);
      return false;
    }
    var d := input.value.fields;
    ghost var scalars := ObjectScalarLines(d, fmt);
    ghost var ss := Sections(d, fmt, scalars, LegacyProfileParams);
    ghost var doc := LegacyDocument(input.value, fmt);
    TracksStart(doc, ss);
    var header := Header(d, fmt);
    SectionsHeader(d, fmt, scalars, LegacyProfileParams);
    WriteHeader(out, header, doc, ss);
    ok := WriteBody(out, d, fmt, LegacyProfileParams, true, doc, ss);
  }

  /** The older converter has the same framing: `&INDATA` first, and `/`
      `&END` last whenever it completes. */
  lemma LegacyDocumentFraming(j: Json, fmt: Formatter)
    ensures Framed(LegacyDocument(j, fmt))
    ensures Completed(LegacyDocument(j, fmt)) ==> j.JObject?
  {
    match j
    case JObject(d) =>
      SectionsFraming(Sections(d, fmt, ObjectScalarLines(d, fmt), LegacyProfileParams));
    case _ =>
      OpeningThenRaise();
  }

  function EntryKey(e: (string, Json)): string { e.0 }

  /** The older scalar lines: one per field of the object whose key is a
      listed scalar, in the object's order, named by the key upper-cased and
      holding the value (a one-element list unwrapped). */
  lemma {:induction false} ObjectScalarLinesOrder(d: seq<(string, Json)>, fmt: Formatter)
    ensures var fields := FilterByKey(d, EntryKey, ScalarKeys);
      |ObjectScalarLines(d, fmt)| == |fields|
      && forall i :: 0 <= i < |fields| ==>
        ObjectScalarLines(d, fmt)[i] == Text("  " + Upper(fields[i].0) + " = " + Str(fmt, Unwrap(fields[i].1)) + "\n")
    decreases |d|
  {
    if d != [] {
      var init, p := d[..|d| - 1], d[|d| - 1];
      ObjectScalarLinesOrder(init, fmt);
      var before := FilterByKey(init, EntryKey, ScalarKeys);
      var lines := ObjectScalarLines(init, fmt);
      if p.0 in ScalarKeys {
        var all := ObjectScalarLines(d, fmt);
        assert all == lines + [Text("  " + Upper(p.0) + " = " + Str(fmt, Unwrap(p.1)) + "\n")];
        assert FilterByKey(d, EntryKey, ScalarKeys) == before + [p];
      } else {
        AppendEmpty(lines);
      }
    }
  }

  /** Parameters whose keys are all absent write nothing. */
  lemma {:induction false} FieldLinesAbsent(d: seq<(string, Json)>, fmt: Formatter, ps: seq<Param>, kind: Kind)
    requires forall i :: 0 <= i < |ps| ==> Find(d, ps[i].0).None?
    ensures FieldLines(d, fmt, ps, kind) == []
    decreases |ps|
  {
    if ps != [] {
      FieldLinesAbsent(d, fmt, ps[..|ps| - 1], kind);
    }
  }

  /** With distinct keys, a field of the object is what a lookup finds. */
  lemma FieldFound(d: seq<(string, Json)>, field: (string, Json))
    requires Distinct(Keys(d)) && field in d
    ensures Find(d, field.0) == Some(field.1)
  {
    var j :| 0 <= j < |d| && d[j] == field;
    forall a, b | 0 <= a < b < |d|
      ensures d[a].0 != d[b].0
    {
      assert Keys(d)[a] == d[a].0 && Keys(d)[b] == d[b].0;
    }
    FindDistinct(d, j);
  }

  /** A listed scalar written by the older variant is the line the current
      one writes for the same key. */
  lemma ScalarLineAgrees(d: seq<(string, Json)>, fmt: Formatter, field: (string, Json), param: Param)
    requires Distinct(Keys(d)) && field in d
    requires field.0 == param.0 && param.1 == Upper(param.0)
    ensures Find(d, param.0).Some?
    ensures Text("  " + Upper(field.0) + " = " + Str(fmt, Unwrap(field.1)) + "\n")
      == LineOf(FieldText(fmt, param.1, Plain, Find(d, param.0).value))
  {
    FieldFound(d, field);
  }

  /** When the listed scalar keys occur in the object in the order of the
      list, the older variant writes the same scalar lines as the current
      one. */
  lemma ScalarLinesAgree(d: seq<(string, Json)>, fmt: Formatter)
    requires Distinct(Keys(d))
    requires KeysOf(FilterByKey(d, EntryKey, ScalarKeys), EntryKey)
      == KeysOf(FilterByKey(ScalarParams, ParamKey, set k | k in Keys(d)), ParamKey)
    ensures ObjectScalarLines(d, fmt) == FieldLines(d, fmt, ScalarParams, Plain)
  {
    ScalarNamesUpper();
    ObjectLinesAgree(d, fmt, ScalarParams);
  }

  /** The same for any list of upper-cased parameters in the object's order. */
  lemma ObjectLinesAgree(d: seq<(string, Json)>, fmt: Formatter, ps: seq<Param>)
    requires Distinct(Keys(d)) && NamedUpper(ps)
    requires KeysOf(FilterByKey(d, EntryKey, ScalarKeys), EntryKey)
      == KeysOf(FilterByKey(ps, ParamKey, set k | k in Keys(d)), ParamKey)
    ensures ObjectScalarLines(d, fmt) == FieldLines(d, fmt, ps, Plain)
  {
    var allowed := set k | k in Keys(d);
    var fields := FilterByKey(d, EntryKey, ScalarKeys);
    var present := FilterByKey(ps, ParamKey, allowed);
    ObjectScalarLinesOrder(d, fmt);
    FieldLinesOrder(d, fmt, ps, Plain);
    FilterByKeyMembers(d, EntryKey, ScalarKeys);
    FilterByKeyMembers(ps, ParamKey, allowed);
    var fieldKeys, paramKeys := KeysOf(fields, EntryKey), KeysOf(present, ParamKey);
    assert |fields| == |fieldKeys| == |paramKeys| == |present|;
    var older, current := ObjectScalarLines(d, fmt), FieldLines(d, fmt, ps, Plain);
    forall i | 0 <= i < |present|
      ensures older[i] == current[i]
    {
      assert fieldKeys[i] == fields[i].0 && paramKeys[i] == present[i].0;
      assert present[i] in ps && fields[i] in d;
      var k :| 0 <= k < |ps| && ps[k] == present[i];
      ScalarLineAgrees(d, fmt, fields[i], present[i]);
    }
  }

  /** The three profile arrays of the older variant are the first three of
      the current list. */
  lemma ProfileLinesAgree(d: seq<(string, Json)>, fmt: Formatter)
    requires forall k :: k in ["ai", "ah", "at", "av"] ==> Find(d, k).None?
    ensures FieldLines(d, fmt, LegacyProfileParams, Numbers(6)) == FieldLines(d, fmt, ProfileParams, Numbers(6))
  {
    var rest: seq<Param> := [("ai", "AI"), ("ah", "AH"), ("at", "AT"), ("av", "AV")];
    assert ProfileParams == LegacyProfileParams + rest;
    FieldLinesAppend(d, fmt, LegacyProfileParams, rest, Numbers(6));
    FieldLinesAbsent(d, fmt, rest, Numbers(6));
    AppendEmpty(FieldLines(d, fmt, LegacyProfileParams, Numbers(6)));
  }

  /** The two converters write the same file for an object with distinct
      keys whose listed scalars appear in list order and which has none of
      the profile arrays AI, AH, AT and AV. */
  lemma LegacyMatchesCurrent(d: seq<(string, Json)>, fmt: Formatter)
    requires Distinct(Keys(d))
    requires KeysOf(FilterByKey(d, EntryKey, ScalarKeys), EntryKey)
      == KeysOf(FilterByKey(ScalarParams, ParamKey, set k | k in Keys(d)), ParamKey)
    requires forall k :: k in ["ai", "ah", "at", "av"] ==> Find(d, k).None?
    ensures LegacyDocument(JObject(d), fmt) == Document(JObject(d), fmt)
  {
    ScalarLinesAgree(d, fmt);
    ProfileLinesAgree(d, fmt);
    SectionsSameProfiles(d, fmt, FieldLines(d, fmt, ScalarParams, Plain), LegacyProfileParams, ProfileParams);
  }

  /** Profile lists that write the same lines give the same sections. */
  lemma SectionsSameProfiles(d: seq<(string, Json)>, fmt: Formatter, scalars: seq<Line>, a: seq<Param>, b: seq<Param>)
    requires FieldLines(d, fmt, a, Numbers(6)) == FieldLines(d, fmt, b, Numbers(6))
    ensures Sections(d, fmt, scalars, a) == Sections(d, fmt, scalars, b)
  {
    var sa, sb := Sections(d, fmt, scalars, a), Sections(d, fmt, scalars, b);
    forall k | 0 <= k < 16
      ensures sa[k] == sb[k]
    {
    }
  }

  // ------------------------------------------------------------ the summary report

  const Available := "\U{2713} Available"
  const NotAvailable := "\U{2717} Not available"
  const Success := "\U{2713} Success"
  const Failed := "\U{2717} Failed"
  const ErrorPrefix := "  - Error: "

  /** The title lines and the heading of the status section. */
  const ReportHeading: seq<string> := [
    "# VMEC Implementation Comparison Report\n\n",
    "Generated by automated comparison script\n\n",
    "## Implementation Status\n\n"]

  /** The status line of one implementation. */
  function StatusLine(name: string, isAvailable: bool): string {
    "- **" + name + "**: " + (if isAvailable then Available else NotAvailable) + "\n"
  }

  /** The status section: a line per implementation, in order. */
  function StatusWrites(available: set<string>, impls: seq<string>): seq<string>
    decreases |impls|
  {
    if impls == [] then []
    else
      var name := impls[|impls| - 1];
      StatusWrites(available, impls[..|impls| - 1]) + [StatusLine(name, name in available)]
  }

  /** `str(record['error'])`; a record without the key has no error line. */
  function ErrorString(e: ErrorSlot): string {
    match e
    case NoError => ""
    case NullError => "None"
    case ErrorText(t) => t
  }

  function ErrorLine(e: ErrorSlot): string {
    ErrorPrefix + ErrorString(e) + "\n"
  }

  /** A record's error is reported: it did not succeed and has an `'error'` key. */
  predicate ReportsError(entry: (string, Record)) {
    !Succeeded(entry.1) && entry.1.error != NoError
  }

  function OutcomeLine(impl: string, succeeded: bool): string {
    "- " + impl + ": " + (if succeeded then Success else Failed) + "\n"
  }

  /** The outcome line of a record, and its error line when it has one. */
  function RecordWrites(impl: string, r: Record): seq<string> {
    [OutcomeLine(impl, Succeeded(r))] + (if ReportsError((impl, r)) then [ErrorLine(r.error)] else [])
  }

  function EntriesWrites(es: Entries): seq<string>
    decreases |es|
  {
    if es == [] then []
    else EntriesWrites(es[..|es| - 1]) + RecordWrites(es[|es| - 1].0, es[|es| - 1].1)
  }

  /** The block of one test case: its heading, its records, a blank line. */
  function CaseWrites(caseName: string, es: Entries): seq<string> {
    ["### " + caseName + "\n"] + EntriesWrites(es) + ["\n"]
  }

  function CasesWrites(reg: Registry): seq<string>
    decreases |reg|
  {
    if reg == [] then []
    else CasesWrites(reg[..|reg| - 1]) + CaseWrites(reg[|reg| - 1].0, reg[|reg| - 1].1)
  }

  /** The end of the status section and the heading of the test-case one. */
  function SummaryHeading(caseCount: int): seq<string> {
    ["\n", "## Test Cases Summary\n\n", "Total test cases: " + IntToDecimal(caseCount) + "\n\n"]
  }

  /** The last section: its heading, then the table when it has rows. */
  function TableWrites(table: seq<ComparisonRow>, render: seq<ComparisonRow> -> string): seq<string> {
    ["## Key Quantities Comparison\n\n"] + (if table == [] then [] else [render(table), "\n\n"])
  }

  /** Every write of `generate_summary_report`, in order; `render` stands for
      the markdown rendering of the table. */
  function ReportWrites(available: set<string>, caseCount: int, results: Registry,
                        table: seq<ComparisonRow>, render: seq<ComparisonRow> -> string): seq<string>
  {
    ReportHeading + StatusWrites(available, LegacyImplementations) + SummaryHeading(caseCount)
      + CasesWrites(results) + TableWrites(table, render)
  }

  lemma ReportWritesSplit(available: set<string>, caseCount: int, results: Registry,
                          table: seq<ComparisonRow>, render: seq<ComparisonRow> -> string)
    ensures ReportWrites(available, caseCount, results, table, render)
      == [] + ReportHeading + StatusWrites(available, LegacyImplementations) + SummaryHeading(caseCount)
         + CasesWrites(results) + TableWrites(table, render)
  {
    assert [] + ReportHeading == ReportHeading;
  }

  /** Every record of the registry, case by case. */
  function AllRecords(reg: Registry): Entries
    decreases |reg|
  {
    if reg == [] then [] else AllRecords(reg[..|reg| - 1]) + reg[|reg| - 1].1
  }

  function ErrorLines(es: Entries): (lines: seq<string>)
    ensures |lines| == |es|
    ensures forall i :: 0 <= i < |es| ==> lines[i] == ErrorLine(es[i].1.error)
  {
    seq(|es|, i requires 0 <= i < |es| => ErrorLine(es[i].1.error))
  }

  predicate IsErrorLine(w: string) {
    StartsWith(w, ErrorPrefix)
  }

  predicate IsSuccessLine(w: string) {
    StartsWith(w, "- ") && EndsWith(w, Success + "\n")
  }

  lemma ErrorLinesAppend(a: Entries, b: Entries)
    ensures ErrorLines(a + b) == ErrorLines(a) + ErrorLines(b)
  {
  }

  /** An outcome line is never an error line, and is a success line exactly
      when it reports a success. */
  lemma OutcomeLineKinds(impl: string, succeeded: bool)
    ensures !IsErrorLine(OutcomeLine(impl, succeeded))
    ensures IsSuccessLine(OutcomeLine(impl, succeeded)) <==> succeeded
  {
    var mark := if succeeded then Success else Failed;
    var line := OutcomeLine(impl, succeeded);
    assert line == "- " + (impl + ": " + mark + "\n");
    assert line[0] == '-';
    if succeeded {
      assert line == ("- " + impl + ": ") + (Success + "\n");
      EndsWithLongSuffix("- " + impl + ": ", Success + "\n", Success + "\n");
    } else {
      FailedIsNoSuccess(impl);
    }
  }

  lemma FailedIsNoSuccess(impl: string)
    ensures !EndsWith(OutcomeLine(impl, false), Success + "\n")
  {
    assert OutcomeLine(impl, false) == ("- " + impl) + (": " + Failed + "\n");
    EndsWithLongSuffix("- " + impl, ": " + Failed + "\n", Success + "\n");
    assert (": " + Failed + "\n")[1] != (Success + "\n")[0];
  }

  /** An error line is an error line and no success line. */
  lemma ErrorLineKinds(e: ErrorSlot)
    ensures IsErrorLine(ErrorLine(e)) && !IsSuccessLine(ErrorLine(e))
  {
    var line := ErrorLine(e);
    assert line == ErrorPrefix + (ErrorString(e) + "\n");
    assert line[0] == ' ';
  }

  /** Neither a case heading nor a blank line is an error or success line. */
  lemma OtherLineKinds(caseName: string)
    ensures !IsErrorLine("### " + caseName + "\n") && !IsSuccessLine("### " + caseName + "\n")
    ensures !IsErrorLine("\n") && !IsSuccessLine("\n")
  {
    assert ("### " + caseName + "\n")[0] == '#';
  }

  /** How the lines of one record are classified. */
  lemma RecordWritesKinds(impl: string, r: Record)
    ensures Filter(RecordWrites(impl, r), IsErrorLine) == ErrorLines(Filter([(impl, r)], ReportsError))
    ensures |Filter(RecordWrites(impl, r), IsSuccessLine)| == if Succeeded(r) then 1 else 0
  {
    var outcome := OutcomeLine(impl, Succeeded(r));
    OutcomeLineKinds(impl, Succeeded(r));
    FilterSingle((impl, r), ReportsError);
    FilterSingle(outcome, IsErrorLine);
    FilterSingle(outcome, IsSuccessLine);
    if ReportsError((impl, r)) {
      var line := ErrorLine(r.error);
      ErrorLineKinds(r.error);
      FilterSingle(line, IsErrorLine);
      FilterSingle(line, IsSuccessLine);
      FilterAppend([outcome], [line], IsErrorLine);
      FilterAppend([outcome], [line], IsSuccessLine);
    } else {
      assert RecordWrites(impl, r) == [outcome];
    }
  }

  /** Within one case block: the error lines are those of the records that
      report an error, and there is a success line per successful record. */
  lemma {:induction false} EntriesWritesKinds(es: Entries)
    ensures Filter(EntriesWrites(es), IsErrorLine) == ErrorLines(Filter(es, ReportsError))
    ensures |Filter(EntriesWrites(es), IsSuccessLine)| == |CaseSuccessNames(es)|
    decreases |es|
  {
    if es != [] {
      var es', last := es[..|es| - 1], es[|es| - 1];
      EntriesWritesKinds(es');
      RecordWritesKinds(last.0, last.1);
      FilterAppend(EntriesWrites(es'), RecordWrites(last.0, last.1), IsErrorLine);
      FilterAppend(EntriesWrites(es'), RecordWrites(last.0, last.1), IsSuccessLine);
      assert es == es' + [last];
      FilterAppend(es', [last], ReportsError);
      ErrorLinesAppend(Filter(es', ReportsError), Filter([last], ReportsError));
    }
  }

  /** A case block adds only its records' lines to either kind. */
  lemma CaseWritesKinds(caseName: string, es: Entries)
    ensures Filter(CaseWrites(caseName, es), IsErrorLine) == ErrorLines(Filter(es, ReportsError))
    ensures |Filter(CaseWrites(caseName, es), IsSuccessLine)| == |CaseSuccessNames(es)|
  {
    var head := "### " + caseName + "\n";
    EntriesWritesKinds(es);
    OtherLineKinds(caseName);
    FilterSingle(head, IsErrorLine);
    FilterSingle(head, IsSuccessLine);
    FilterSingle("\n", IsErrorLine);
    FilterSingle("\n", IsSuccessLine);
    FilterAppend([head], EntriesWrites(es), IsErrorLine);
    FilterAppend([head], EntriesWrites(es), IsSuccessLine);
    FilterAppend([head] + EntriesWrites(es), ["\n"], IsErrorLine);
    FilterAppend([head] + EntriesWrites(es), ["\n"], IsSuccessLine);
  }

  /** The test-case section of the report prints, in order, one error line
      for every record that failed with an `'error'` key and nothing else
      starting with the error marker; and it marks exactly as many runs
      successful as there are successful records. */
  lemma {:induction false} CasesWritesKinds(reg: Registry)
    ensures Filter(CasesWrites(reg), IsErrorLine) == ErrorLines(Filter(AllRecords(reg), ReportsError))
    ensures |Filter(CasesWrites(reg), IsSuccessLine)| == |SuccessNames(reg)|
    decreases |reg|
  {
    if reg != [] {
      var reg', last := reg[..|reg| - 1], reg[|reg| - 1];
      CasesWritesKinds(reg');
      CaseWritesKinds(last.0, last.1);
      FilterAppend(CasesWrites(reg'), CaseWrites(last.0, last.1), IsErrorLine);
      FilterAppend(CasesWrites(reg'), CaseWrites(last.0, last.1), IsSuccessLine);
      FilterAppend(AllRecords(reg'), last.1, ReportsError);
      ErrorLinesAppend(Filter(AllRecords(reg'), ReportsError), Filter(last.1, ReportsError));
    }
  }

  /** The report marks as many runs successful as the comparison table has
      rows. */
  lemma ReportMatchesTable(results: Registry)
    ensures |Filter(CasesWrites(results), IsSuccessLine)| == |UnsortedRows(results, KeyQuantities)|
  {
    CasesWritesKinds(results);
    UnsortedRowsProperties(results, KeyQuantities);
  }

  /** The status section has a line per implementation, in order, marked
      available exactly when it is. */
  lemma {:induction false} StatusWritesLines(available: set<string>, impls: seq<string>)
    ensures |StatusWrites(available, impls)| == |impls|
    ensures forall k :: 0 <= k < |impls| ==>
      StatusWrites(available, impls)[k] == StatusLine(impls[k], impls[k] in available)
    decreases |impls|
  {
    if impls != [] {
      StatusWritesLines(available, impls[..|impls| - 1]);
    }
  }

  /** Appends `s` to the file and to the writes that produced it. */
  method WriteTracked(f: TextFile, ghost parts: seq<string>, s: string) returns (ghost parts': seq<string>)
    modifies f
    requires f.contents == Concat(parts)
    ensures parts' == parts + [s] && f.contents == Concat(parts')
  {
    f.Write(s);
    ConcatSnoc(parts, s);
    parts' := parts + [s];
  }

  /** Writes the outcome of one record, and its error when it failed with one. */
  method WriteRecord(f: TextFile, ghost parts: seq<string>, implName: string, implResults: Record)
    returns (ghost parts': seq<string>)
    modifies f
    requires f.contents == Concat(parts)
    ensures parts' == parts + RecordWrites(implName, implResults) && f.contents == Concat(parts')
  {
    var status := if implResults.success == Some(true) then Success else Failed;
    parts' := WriteTracked(f, parts, "- " + implName + ": " + status + "\n");
    if implResults.success != Some(true) && implResults.error != NoError {
      parts' := WriteTracked(f, parts', "  - Error: " + ErrorString(implResults.error) + "\n");
    }
  }

  /** Writes the block of one test case. */
  method WriteCaseSummary(f: TextFile, ghost parts: seq<string>, caseName: string, caseResults: Entries)
    returns (ghost parts': seq<string>)
    modifies f
    requires f.contents == Concat(parts)
    ensures parts' == parts + CaseWrites(caseName, caseResults) && f.contents == Concat(parts')
  {
    parts' := WriteTracked(f, parts, "### " + caseName + "\n");
    ghost var start := parts';
    for j := 0 to |caseResults|
      invariant f.contents == Concat(parts')
      invariant parts' == start + EntriesWrites(caseResults[..j])
    {
      parts' := WriteRecord(f, parts', caseResults[j].0, caseResults[j].1);
      EntriesWritesStep(caseResults, j);
    }
    assert caseResults[..|caseResults|] == caseResults;
    parts' := WriteTracked(f, parts', "\n");
    CaseWritesSplit(parts, caseName, caseResults);
  }

  /** One more record appends its lines. */
  lemma EntriesWritesStep(es: Entries, j: int)
    requires 0 <= j < |es|
    ensures EntriesWrites(es[..j + 1]) == EntriesWrites(es[..j]) + RecordWrites(es[j].0, es[j].1)
  {
    assert es[..j + 1][..j] == es[..j];
  }

  lemma CaseWritesSplit(parts: seq<string>, caseName: string, es: Entries)
    ensures parts + CaseWrites(caseName, es) == parts + ["### " + caseName + "\n"] + EntriesWrites(es) + ["\n"]
  {
  }

  method WriteTitle(f: TextFile, ghost parts: seq<string>) returns (ghost parts': seq<string>)
    modifies f
    requires f.contents == Concat(parts)
    ensures parts' == parts + ReportHeading && f.contents == Concat(parts')
  {
    parts' := WriteTracked(f, parts, "# VMEC Implementation Comparison Report\n\n");
    parts' := WriteTracked(f, parts', "Generated by automated comparison script\n\n");
    parts' := WriteTracked(f, parts', "## Implementation Status\n\n");
  }

  /** A status line per implementation. */
  method WriteStatus(f: TextFile, ghost parts: seq<string>, available: set<string>, impls: seq<string>)
    returns (ghost parts': seq<string>)
    modifies f
    requires f.contents == Concat(parts)
    ensures parts' == parts + StatusWrites(available, impls) && f.contents == Concat(parts')
  {
    parts' := parts;
    for i := 0 to |impls|
      invariant f.contents == Concat(parts')
      invariant parts' == parts + StatusWrites(available, impls[..i])
    {
      StatusWritesStep(parts, available, impls, i);
      var name := impls[i];
      var status := if name in available then Available else NotAvailable;
      parts' := WriteTracked(f, parts', "- **" + name + "**: " + status + "\n");
    }
    assert impls[..|impls|] == impls;
  }

  method WriteSummaryHeading(f: TextFile, ghost parts: seq<string>, caseCount: int) returns (ghost parts': seq<string>)
    modifies f
    requires f.contents == Concat(parts)
    ensures parts' == parts + SummaryHeading(caseCount) && f.contents == Concat(parts')
  {
    parts' := WriteTracked(f, parts, "\n");
    parts' := WriteTracked(f, parts', "## Test Cases Summary\n\n");
    parts' := WriteTracked(f, parts', "Total test cases: " + IntToDecimal(caseCount) + "\n\n");
  }

  lemma StatusWritesStep(parts: seq<string>, available: set<string>, impls: seq<string>, i: int)
    requires 0 <= i < |impls|
    ensures parts + StatusWrites(available, impls[..i + 1])
      == (parts + StatusWrites(available, impls[..i])) + [StatusLine(impls[i], impls[i] in available)]
  {
    assert impls[..i + 1][..i] == impls[..i];
  }

  lemma CasesWritesStep(parts: seq<string>, results: Registry, i: int)
    requires 0 <= i < |results|
    ensures parts + CasesWrites(results[..i + 1])
      == (parts + CasesWrites(results[..i])) + CaseWrites(results[i].0, results[i].1)
  {
    assert results[..i + 1][..i] == results[..i];
  }

  /** A block per test case. */
  method WriteCases(f: TextFile, ghost parts: seq<string>, results: Registry) returns (ghost parts': seq<string>)
    modifies f
    requires f.contents == Concat(parts)
    ensures parts' == parts + CasesWrites(results) && f.contents == Concat(parts')
  {
    parts' := parts;
    for i := 0 to |results|
      invariant f.contents == Concat(parts')
      invariant parts' == parts + CasesWrites(results[..i])
    {
      CasesWritesStep(parts, results, i);
      parts' := WriteCaseSummary(f, parts', results[i].0, results[i].1);
    }
    assert results[..|results|] == results;
  }

  method WriteTable(f: TextFile, ghost parts: seq<string>, table: seq<ComparisonRow>, render: seq<ComparisonRow> -> string)
    returns (ghost parts': seq<string>)
    modifies f
    requires f.contents == Concat(parts)
    ensures parts' == parts + TableWrites(table, render) && f.contents == Concat(parts')
  {
    parts' := WriteTracked(f, parts, "## Key Quantities Comparison\n\n");
    if table != [] {
      parts' := WriteTracked(f, parts', render(table));
      parts' := WriteTracked(f, parts', "\n\n");
    }
  }

  /** The case files of every test directory, in directory order. */
  method CollectCandidates(dirs: seq<TestDirs>) returns (found: seq<FilePath>)
    ensures found == Candidates(dirs)
  {
    found := [];
    for r := 0 to |dirs|
      invariant found == Candidates(dirs[..r])
    {
      assert dirs[..r + 1][..r] == dirs[..r];
      var t := dirs[r];
      if t.vmecppData.Some? {
        found := found + t.vmecppData.value;
      } else if t.stelloptData.Some? {
        found := found + t.stelloptData.value;
      }
    }
    assert dirs[..|dirs|] == dirs;
  }

  /** The `seen`-set loop: the first file of every stem, in order. */
  method FirstByStem(found: seq<FilePath>) returns (unique: seq<FilePath>)
    ensures unique == FirstByKey(found, Stem)
  {
    var seen: set<string> := {};
    unique := [];
    for i := 0 to |found|
      invariant unique == FirstByKey(found[..i], Stem)
      invariant forall st :: st in seen <==> HasKey(unique, Stem, st)
    {
      assert found[..i + 1][..i] == found[..i];
      var p := found[i];
      forall st
        ensures HasKey(unique + [p], Stem, st) <==> HasKey(unique, Stem, st) || Stem(p) == st
      {
        HasKeyAppend(unique, p, Stem, st);
      }
      if Stem(p) !in seen {
        seen := seen + {Stem(p)};
        unique := unique + [p];
      }
    }
    assert found[..|found|] == found;
  }

  // ------------------------------------------------------------ the comparator

  /** The comparison orchestrator: where results go, the implementations that
      could be built, and the test cases. */
  class LegacyComparator {
    const outputPath: string
    var available: set<string>
    var testCases: seq<FilePath>

    predicate Valid()
      reads this
    {
      (forall k :: k in available ==> k in LegacyImplementations)
      && Distinct(KeysOf(testCases, Stem)) && |testCases| <= CaseLimit
    }

    /** Collects the JSON files of each implementation's first existing
        test-data directory, keeps the first file per stem and at most three. */
    constructor (outputPath: string, dirs: seq<TestDirs>)
      ensures Valid()
      ensures this.outputPath == outputPath && available == {}
      ensures testCases == LegacyCases(dirs)
    {
      this.outputPath := outputPath;
      available := {};
      var found := CollectCandidates(dirs);
      var unique := FirstByStem(found);
      testCases := unique[..if |unique| < CaseLimit then |unique| else CaseLimit];
      LegacyCasesProperties(dirs);
    }

    /** `setup_implementations`: an implementation becomes available once its
        build succeeds (`built`, decided outside); a build never clears the
        flag, so one available before stays available. */
    method SetupImplementations(built: set<string>)
      modifies this
      requires Valid()
      ensures Valid()
      ensures available == old(available) + set k | k in LegacyImplementations && k in built
      ensures testCases == old(testCases)
    {
      available := available + set k | k in LegacyImplementations && k in built;
    }

    /** `run_all_comparisons`: every test case on every available
        implementation. */
    method RunAllComparisons(backend: Backend) returns (results: Registry)
      ensures results == LegacyResults(available, outputPath, testCases, backend)
    {
      results := [];
      for i := 0 to |testCases|
        invariant results == LegacyResults(available, outputPath, testCases[..i], backend)
      {
        assert testCases[..i + 1][..i] == testCases[..i];
        var testCase := testCases[i];
        var caseName := Stem(testCase);
        var caseResults := RunCase(testCase, backend);
        results := Put(results, caseName, caseResults);
      }
      assert testCases[..|testCases|] == testCases;
    }

    /** The records of one test case. */
    method RunCase(testCase: FilePath, backend: Backend) returns (caseResults: Entries)
      ensures caseResults == LegacyCaseRecords(available, outputPath, testCase, LegacyImplementations, backend)
    {
      var impls := LegacyImplementations;
      caseResults := [];
      for j := 0 to |impls|
        invariant caseResults == LegacyCaseRecords(available, outputPath, testCase, impls[..j], backend)
      {
        assert impls[..j + 1][..j] == impls[..j];
        var implName := impls[j];
        if implName !in available {
          continue;
        }
        var caseOutputDir := Child(outputPath + "/" + Stem(testCase), implName);
        if backend.runCase(implName, testCase, caseOutputDir) {
          caseResults := Put(caseResults, implName, backend.extractResults(implName, caseOutputDir));
        } else {
          caseResults := Put(caseResults, implName, Record(Some(false), ErrorText("Run failed"), map[], None, None));
        }
      }
      assert impls[..|impls|] == impls;
    }

    /** `generate_summary_report`: the title, the status of each
        implementation, the number of test cases, the outcome of every record
        with the error of each failed one, and the table when it has rows. */
    method GenerateSummaryReport(report: TextFile, results: Registry, table: seq<ComparisonRow>,
                                 render: seq<ComparisonRow> -> string)
      modifies report
      ensures report.contents == Concat(ReportWrites(available, |testCases|, results, table, render))
    {
      var implementations, caseCount := available, |testCases|;
      report.Truncate();
      ghost var ws: seq<string> := [];
      ws := WriteTitle(report, ws);
      ws := WriteStatus(report, ws, implementations, LegacyImplementations);
      ws := WriteSummaryHeading(report, ws, caseCount);
      ws := WriteCases(report, ws, results);
      ws := WriteTable(report, ws, table, render);
      ReportWritesSplit(implementations, caseCount, results, table, render);
    }

    /** `create_comparison_table`: a row per successful record over the six
        key quantities, NaN where a record lacks one, in registry order with no
        sorting. */
    method CreateComparisonTable(results: Registry) returns (table: seq<ComparisonRow>)
      ensures table == UnsortedRows(results, KeyQuantities)
      ensures |table| == |SuccessNames(results)|
      ensures forall row :: row in table <==> exists i, j :: IsRowOf(results, KeyQuantities, row, i, j)
    {
      var keyQuantities := KeyQuantities;
      table := [];
      for i := 0 to |results|
        invariant table == UnsortedRows(results[..i], keyQuantities)
      {
        var caseName, caseResults := results[i].0, results[i].1;
        for j := 0 to |caseResults|
          invariant table == UnsortedRows(results[..i], keyQuantities) + CaseRows(caseName, caseResults[..j], keyQuantities)
        {
          var implName, implResults := caseResults[j].0, caseResults[j].1;
          if implResults.success == Some(true) {
            var cells := CellsOf(implResults, keyQuantities);
            assert cells == RowOf(caseName, implName, implResults, keyQuantities).cells;
            table := table + [ComparisonRow(caseName, implName, cells)];
          }
          assert caseResults[..j + 1][..j] == caseResults[..j];
        }
        assert caseResults[..|caseResults|] == caseResults;
        assert results[..i + 1][..i] == results[..i];
      }
      assert results[..|results|] == results;
      UnsortedRowsProperties(results, keyQuantities);
    }
  }
}
