# VMEC benchmark: orchestration, INDATA conversion and result comparison

This project models the core of a benchmark suite that runs several
implementations of the VMEC ideal-MHD equilibrium solver (educational_VMEC,
VMEC2000, VMEC++, jVMEC) on shared test cases and compares what they compute.

- `runner.dfy` models the `BenchmarkRunner`. It registers the implementations
  whose build succeeded, in a fixed order. It discovers the test cases: the
  `*.json` and `input.*` files of each repository, the first file kept per
  stem, then an optional limit. It runs every selected case on every selected
  implementation and builds the nested results registry
  `case -> implementation -> record`.
- `comparator.dfy` models the `ResultsComparator`. It builds the comparison
  table of the key quantities (successful records only, NaN where a quantity
  is missing, sorted by case and implementation). It builds the table of
  differences relative to a reference implementation and the convergence
  matrix. It also models the report's choice of reference: the
  implementation that succeeded in the most cases, the first one seen on a
  tie.
- `indata.dfy` models educational_VMEC's `convert_json_to_indata`: a JSON
  object written as a Fortran `&INDATA` namelist. The file is a sequence of
  sixteen sections; a value that cannot be formatted raises and leaves the
  file with what was written before. It also models the input-file naming in
  `run_case`.
- `legacy.dfy` models the standalone comparison script. It has its own
  converter variant and its `__init__` de-duplication, which keeps at most
  three cases. It models `run_all_comparisons`, the unsorted comparison
  table, `JVMEC.extract_results` and the markdown summary report.
- The support modules are `wrappers.dfy` (Option), `strings.dfy` (the
  lexicographic order and substring search), `sequences.dfy` (first-per-key
  de-duplication, filtering), `paths.dfy` (file name, stem and suffix),
  `records.dfy` (result records, and dictionaries as insertion-ordered
  association lists) and `textfile.dfy` (a text file opened for writing, and
  the lines a writer means to write).

Python dictionaries are modelled as sequences of `(key, value)` pairs in
insertion order, because that order drives every table and report. A missing
quantity, which the source writes as NaN, is `None`. The loops that build the
tables, the registry and the files are methods with loop invariants, proved
equal to recursive specification functions; the report's statistics loop
(src/vmec_benchmark/comparator.py:207-214) is modelled by a recursive function
alone, since it only computes a value. The lemmas state what the tables and
files mean in terms of the registry or the JSON object.

## Model

| member | source | states |
|---|---|---|
| Comparator.ResultsComparator.constructor | src/vmec_benchmark/comparator.py:22-30 | the comparator holds the registry it is given |
| Comparator.ResultsComparator.CreateComparisonTable | src/vmec_benchmark/comparator.py:32-69 | the table is sorted by (case, implementation) and is a permutation of one row per successful record; it has as many rows as there are successes; a row is in it iff it is the row of some successful record |
| Comparator.CellsOf | src/vmec_benchmark/comparator.py:56-60 | one cell per quantity, holding the record's value or NaN when the record lacks it |
| Comparator.CaseRowsProperties | src/vmec_benchmark/comparator.py:50-61 | one case contributes one row per successful record, and only those |
| Comparator.UnsortedRowsProperties | src/vmec_benchmark/comparator.py:49-61 | the unsorted rows number the successes, and a row occurs iff it belongs to a successful record of some case |
| Comparator.UnsortedRowsDistinct | src/vmec_benchmark/comparator.py:49-61 | in a registry with distinct keys, no two rows share a (case, implementation) pair |
| Comparator.SortRowsProperties | src/vmec_benchmark/comparator.py:63-67 | sorting yields an ordered permutation of the rows |
| Comparator.SortedPermutationUnique | src/vmec_benchmark/comparator.py:63-67 | two ordered permutations of rows with distinct keys are equal, so the sort's result does not depend on the sort algorithm |
| Comparator.ComparisonTableUnique | src/vmec_benchmark/comparator.py:63-67 | any ordered permutation of the rows of a well-formed registry is the model's table |
| Comparator.ResultsComparator.CalculateRelativeDifferences | src/vmec_benchmark/comparator.py:71-130 | the result is the difference table; a row is in it iff it compares a successful non-reference record with the successful reference record of the same case; it is empty when no case has a successful reference |
| Comparator.DiffsOf | src/vmec_benchmark/comparator.py:115-126 | the difference entries of one record against the reference, one per listed quantity held by both |
| Comparator.QuantityDiffsProperties | src/vmec_benchmark/comparator.py:115-126 | each entry is for a listed quantity held by both records, with the absolute difference and the difference relative to abs(reference), NaN when the reference value is zero; every such quantity has an entry |
| Comparator.CaseDifferences | src/vmec_benchmark/comparator.py:102-128 | the rows of one case: the successful records other than the reference, in order |
| Comparator.DiffTableMembership | src/vmec_benchmark/comparator.py:90-128 | a row is in the difference table iff it compares record j of case i with that case's successful reference record |
| Comparator.DiffTableEmptyWithoutReference | src/vmec_benchmark/comparator.py:90-99 | cases where the reference is missing or failed are skipped; when every case is skipped the table is empty |
| Comparator.ResultsComparator.GetConvergenceSummary | src/vmec_benchmark/comparator.py:132-157 | the result is the convergence matrix: one row per case, in registry order |
| Comparator.SortedNames | src/vmec_benchmark/comparator.py:140-148 | the columns are the implementation names, strictly sorted, with exactly the given members |
| Comparator.SortNamesProperties | src/vmec_benchmark/comparator.py:148 | sorting a list of names yields a strictly sorted list with the same members |
| Comparator.ConvergenceColumns | src/vmec_benchmark/comparator.py:140-155 | the columns are strictly sorted and are exactly the implementations present in some case; a cell is '-' iff the case has no record for that column |
| Comparator.ConvergedIffCompared | src/vmec_benchmark/comparator.py:145-155 | a case's cell for an implementation is a success mark iff the comparison table has a row for that case and implementation |
| Comparator.ResultsComparator.ChooseReference | src/vmec_benchmark/comparator.py:192-199 | there is no reference iff no record succeeded; otherwise the reference is an implementation with the largest success count, and none seen before it has as many |
| Comparator.CountCase | src/vmec_benchmark/comparator.py:193-196 | after one case, the counts are the tally of every success seen so far, keyed in first-seen order |
| Comparator.TallyCounts | src/vmec_benchmark/comparator.py:192-196 | the counts dictionary has each successful implementation once, in first-seen order, with its number of successful cases |
| Comparator.MaxIsFirstMostSuccessful | src/vmec_benchmark/comparator.py:198-199 | the first maximum in key order of the counts is the first most successful implementation |
| Comparator.ReferenceUnique | src/vmec_benchmark/comparator.py:199 | the first most successful implementation is unique |
| Comparator.ReferenceSucceededSomewhere | src/vmec_benchmark/comparator.py:198-202 | the chosen reference succeeded in some case, so at least one case is not skipped when differences are computed |
| Comparator.MaxOf | src/vmec_benchmark/comparator.py:210-213 | NaN exactly for an empty column; otherwise a member of the column that bounds every entry from above |
| Comparator.MinOf | src/vmec_benchmark/comparator.py:210-214 | NaN exactly for an empty column; otherwise a member of the column that bounds every entry from below |
| Comparator.ResultsComparator.GenerateReport | src/vmec_benchmark/comparator.py:159-214 | the report holds the convergence matrix and the sorted table; it has a reference iff something succeeded, and that reference is the first most successful implementation; it holds the differences against that reference and the max/min statistics of each relative-difference column |
| Runner.BenchmarkRunner.constructor | src/vmec_benchmark/runner.py:23-34 | a new runner has no implementations and no test cases |
| Runner.BenchmarkRunner.Register | src/vmec_benchmark/runner.py:44-45 | assigning a key appends it when new and keeps its place otherwise; keys stay distinct |
| Runner.BenchmarkRunner.SetupImplementations | src/vmec_benchmark/runner.py:36-78 | the ready implementations are registered in the order educational_vmec, vmec2000, vmecpp, jvmec; nothing else changes |
| Runner.SetupOrderFilter | src/vmec_benchmark/runner.py:40-78 | exactly the ready implementations are added, in setup order |
| Runner.RegisterAllProperties | src/vmec_benchmark/runner.py:36-78 | registration keeps the old keys and adds each new one once; with distinct new keys it appends them in order |
| Runner.SetupFromEmpty | src/vmec_benchmark/runner.py:36-78 | a fresh runner ends up with exactly the ready implementations, in setup order |
| Runner.Limited | src/vmec_benchmark/runner.py:114-115 | the result is a prefix; no limit or 0 keeps everything; a positive limit keeps min(limit, n) items; a negative one drops that many items from the end |
| Runner.BenchmarkRunner.DiscoverTestCases | src/vmec_benchmark/runner.py:80-118 | the test cases are the JSON then input files of each repository, the first file per stem, limited; the implementations are unchanged |
| Runner.DiscoveredDistinct | src/vmec_benchmark/runner.py:105-117 | the discovered cases have pairwise distinct stems |
| Runner.DiscoveredFirst | src/vmec_benchmark/runner.py:105-111 | each discovered case is the first file found with its stem |
| Runner.DiscoveredAllStems | src/vmec_benchmark/runner.py:105-117 | without a limit, a stem is discovered iff some file found has it |
| Runner.InputFileHasInputStem | src/vmec_benchmark/runner.py:100 | every `input.<x>` file whose `<x>` has no dot has the stem `input` |
| Runner.AtMostOneInputFile | src/vmec_benchmark/runner.py:99-111 | because stems are de-duplicated, at most one `input.*` file survives discovery |
| Runner.SingleCaseRecord | src/vmec_benchmark/runner.py:120-163 | an unavailable key gives the "not available" failure with no implementation or case; a failed run gives "Run failed" tagged with both; a successful run gives the extractor's record tagged with both |
| Runner.BenchmarkRunner.RunSingleCase | src/vmec_benchmark/runner.py:120-163 | the record is the one the record function prescribes for the case and key |
| Runner.SelectedImplementations | src/vmec_benchmark/runner.py:182-185 | every selected key is set up; with nothing requested all set-up keys are selected in order; otherwise the selection is the requested keys that are set up, in requested order, each as often as it was requested |
| Runner.SelectKeys | src/vmec_benchmark/runner.py:182-185 | the loop computes the implementation selection |
| Runner.SelectedCases | src/vmec_benchmark/runner.py:188-192 | with nothing requested all cases are selected; otherwise the cases whose stems were requested, in discovery order |
| Runner.SelectCaseFiles | src/vmec_benchmark/runner.py:188-192 | the loop computes the case selection |
| Runner.BenchmarkRunner.RunCaseRecords | src/vmec_benchmark/runner.py:200-209 | the case's records, one per selected key in order; complete iff every record has a `success` key |
| Runner.BenchmarkRunner.RunAllCases | src/vmec_benchmark/runner.py:165-221 | the registry of every selected case on every selected key; no registry when some record lacks `success`, where `run_all_cases` raises `KeyError`; for a runner whose stems are distinct, a registry holds the record of every selected case on every selected key |
| Runner.CaseRecordsFind | src/vmec_benchmark/runner.py:200-204 | a case maps a key to its record iff the key was selected |
| Runner.ResultsFind | src/vmec_benchmark/runner.py:196-211 | each case's stem maps to that case's records |
| Runner.ResultsKeys | src/vmec_benchmark/runner.py:196-211 | the registry's keys are exactly the stems of the selected cases |
| Runner.RegistryTotal | src/vmec_benchmark/runner.py:196-211 | for cases with distinct stems, every case holds a record for every selected implementation, failures included, tagged with its own case and implementation |
| Runner.SelectedCasesDistinct | src/vmec_benchmark/runner.py:188-192 | selecting cases by stem keeps the stems distinct |
| Runner.SelectedRegistryTotal | src/vmec_benchmark/runner.py:188-211 | for discovered cases (distinct stems), the registry holds, for every selected case and every selected key, the record of that run |
| Runner.ResultsWellFormed | src/vmec_benchmark/runner.py:194-211 | the registry has distinct case keys and distinct implementation keys within each case |
| Runner.BenchmarkRunner.TestCaseNames | src/vmec_benchmark/runner.py:231-236 | the stems of the test cases, in order, and pairwise distinct |
| Indata.ConvertJsonToIndata | src/vmec_benchmark/implementations/educational.py:76-160 | unreadable JSON fails without touching the file; otherwise the file holds the document's lines up to the first one that raises, and the result is true iff no line raises |
| Indata.DocumentFraming | src/vmec_benchmark/implementations/educational.py:86-160 | every written file starts with `&INDATA`; a completed one ends with the `/` and `&END` lines; conversion completes only for a JSON object |
| Indata.DocumentHeader | src/vmec_benchmark/implementations/educational.py:91-97 | the first five lines of the document are the opening and the four header lines |
| Indata.SectionsHeader | src/vmec_benchmark/implementations/educational.py:91-97 | the first five sections are single header lines |
| Indata.HeaderLines | src/vmec_benchmark/implementations/educational.py:91-97 | the opening is followed by LASYM, NFP, MPOL and NTOR, always written; LASYM is T iff `lasym` is truthy, else F; the defaults are 1, 6 and 0 |
| Indata.LasymLine | src/vmec_benchmark/implementations/educational.py:94 | the LASYM line is T iff the flag is truthy, and is otherwise F |
| Indata.DefaultLineValue | src/vmec_benchmark/implementations/educational.py:95-97 | a header line holds the field's value, or its default when the field is absent |
| Indata.Sci | src/vmec_benchmark/implementations/educational.py:105 | exponent formatting succeeds exactly on numbers and booleans |
| Indata.SciAll | src/vmec_benchmark/implementations/educational.py:105 | a list formats iff every element formats |
| Indata.Items | src/vmec_benchmark/implementations/educational.py:101 | iteration succeeds exactly on lists, strings and objects, and yields a list's elements |
| Indata.FieldLinesOrder | src/vmec_benchmark/implementations/educational.py:117-133 | one line per listed key present in the object, in list order, named by the parameter and holding that key's value |
| Indata.ScalarNamesUpper | src/vmec_benchmark/implementations/educational.py:113-122 | each scalar parameter is written under its key upper-cased |
| Indata.StringNamesUpper | src/vmec_benchmark/implementations/educational.py:125-127 | each string parameter is written under its key upper-cased |
| Indata.ProfileNamesUpper | src/vmec_benchmark/implementations/educational.py:130-133 | each profile array is written under its key upper-cased |
| Indata.CoefficientNamesUpper | src/vmec_benchmark/implementations/educational.py:148-152 | each boundary family is written under its key upper-cased |
| Indata.CoefficientLinesOrder | src/vmec_benchmark/implementations/educational.py:150-152 | a boundary family whose entries all format has one line per entry, in list order |
| Indata.CoefficientTextNames | src/vmec_benchmark/implementations/educational.py:152 | a coefficient line starts with the family name and its index parenthesis |
| Indata.BoundaryEntryFails | src/vmec_benchmark/implementations/educational.py:148-152 | a boundary entry that cannot be formatted makes the boundary section raise |
| Indata.MissingCoefficientFieldFails | src/vmec_benchmark/implementations/educational.py:150-160 | a boundary entry that is not an object with `n`, `m` and `value` makes the conversion fail |
| Indata.WriteField | src/vmec_benchmark/implementations/educational.py:100-110 | appends what one parameter's line writes; ok iff the line does not raise |
| Indata.WriteFields | src/vmec_benchmark/implementations/educational.py:117-133 | appends what the lines of a parameter list write; ok iff none raises |
| Indata.WriteCoefficients | src/vmec_benchmark/implementations/educational.py:150-152 | appends what one family's coefficient lines write; ok iff none raises |
| Indata.WriteFamily | src/vmec_benchmark/implementations/educational.py:149-152 | appends what one family writes, nothing when the key is absent; ok iff it does not raise |
| Indata.WriteBoundary | src/vmec_benchmark/implementations/educational.py:147-152 | appends what the four families write; ok iff none raises |
| Indata.WriteLine | src/vmec_benchmark/implementations/educational.py:91-97 | writing a one-line section moves the writer to the next section |
| Indata.WriteFieldSection | src/vmec_benchmark/implementations/educational.py:99-145 | writing one section moves to the next one, or stops with the file holding all that the document writes |
| Indata.WriteHeader | src/vmec_benchmark/implementations/educational.py:91-97 | after the header the file holds the first five sections, and the rest remain |
| Indata.WriteArrays | src/vmec_benchmark/implementations/educational.py:99-110 | the three iteration arrays are written, or the document stops where one raises |
| Indata.WriteScalars | src/vmec_benchmark/implementations/educational.py:112-122 | the scalar section is written, or the document stops |
| Indata.WriteParameters | src/vmec_benchmark/implementations/educational.py:124-133 | the string and profile sections are written, or the document stops |
| Indata.WriteAxis | src/vmec_benchmark/implementations/educational.py:138-145 | the two axis arrays are written, or the document stops |
| Indata.WriteEnd | src/vmec_benchmark/implementations/educational.py:147-156 | after the boundary and the closing line the file holds what the document writes; ok iff it completes |
| Indata.WriteBody | src/vmec_benchmark/implementations/educational.py:99-156 | after the header, the file ends up holding what the document writes; ok iff the document completes |
| Indata.WriteObjectScalars | compare_vmec_implementations.py:155-161 | appends a scalar line per listed key of the object, in the object's order; these lines never raise |
| Indata.JsonCaseNaming | src/vmec_benchmark/implementations/educational.py:184-187 | a `<base>.json` case is converted to `input.<base>` in the output directory, which is also the file that is run (no copy) |
| Indata.OtherInputNaming | src/vmec_benchmark/implementations/educational.py:188-195 | any other input is used as it is, and is copied into the output directory unless it already lies there |
| Legacy.CollectCandidates | compare_vmec_implementations.py:641-651 | the loop collects, per implementation, the JSON files of its first existing test-data directory |
| Legacy.FirstByStem | compare_vmec_implementations.py:653-659 | the loop keeps the first file per stem, in order |
| Legacy.LegacyComparator.constructor | compare_vmec_implementations.py:627-660 | the test cases are the first min(3, n) of the n de-duplicated candidates; nothing is available yet |
| Legacy.LegacyCasesProperties | compare_vmec_implementations.py:641-660 | the cases are a prefix of the de-duplicated list of length min(n, 3), with pairwise distinct stems, each the first file found with its stem |
| Legacy.LegacyComparator.SetupImplementations | compare_vmec_implementations.py:662-671 | an implementation becomes available when its build succeeds and stays available across later calls; the test cases are unchanged |
| Legacy.LegacyComparator.RunCase | compare_vmec_implementations.py:681-699 | the records of one case over the fixed implementation list, skipping unavailable ones |
| Legacy.LegacyComparator.RunAllComparisons | compare_vmec_implementations.py:673-701 | the registry of every test case on every available implementation |
| Legacy.LegacyCaseRecordsFind | compare_vmec_implementations.py:683-697 | a case holds a record for an implementation iff it is listed and available |
| Legacy.LegacyResultsFind | compare_vmec_implementations.py:677-699 | each test case's stem maps to that case's records |
| Legacy.LegacyRegistry | compare_vmec_implementations.py:673-701 | a record exists iff the implementation is available; it is the untagged "Run failed" failure when the run fails, and the extractor's record unchanged when it succeeds |
| Legacy.JvmecExtractResults | compare_vmec_implementations.py:478-493 | success iff the log exists and contains "VMEC converged"; the error is "No jVMEC log file found" without a log, "jVMEC did not converge" without the phrase, and None on success |
| Legacy.JvmecConvergedIffOccurs | compare_vmec_implementations.py:486 | the convergence test holds iff the phrase occurs at some position of the log |
| Legacy.LegacyConvertJsonToIndata | compare_vmec_implementations.py:127-206 | unreadable JSON fails without touching the file; otherwise the file holds the older document's lines up to the first one that raises, and the result is true iff none raises |
| Legacy.LegacyDocumentFraming | compare_vmec_implementations.py:129-206 | the older file starts with `&INDATA`; when completed it ends with the closing lines; it completes only for a JSON object |
| Legacy.ObjectScalarLinesOrder | compare_vmec_implementations.py:155-161 | the older variant writes one line per listed scalar field, in the object's order, with the key upper-cased and a one-element list unwrapped |
| Legacy.ObjectLinesAgree | compare_vmec_implementations.py:155-161 | when the object's listed fields come in the list's order, the older scalar lines equal the current ones |
| Legacy.ScalarLinesAgree | compare_vmec_implementations.py:155-161 | the older and current scalar sections agree when the object lists the scalars in the current order |
| Legacy.ProfileLinesAgree | compare_vmec_implementations.py:168-179 | without AI, AH, AT and AV, the older three profile arrays write what the current seven do |
| Legacy.LegacyMatchesCurrent | compare_vmec_implementations.py:127-206 | for an object with distinct keys, its scalars in list order and no AI/AH/AT/AV, both converters produce the same document |
| Legacy.LegacyComparator.CreateComparisonTable | compare_vmec_implementations.py:703-722 | the unsorted table over the six key quantities; one row per success; a row is in it iff it is the row of a successful record |
| Legacy.LegacyComparator.GenerateSummaryReport | compare_vmec_implementations.py:724-758 | the report holds the title, the status section, the test-case count, every case's outcomes with their errors, and the table section, in that order |
| Legacy.WriteTitle | compare_vmec_implementations.py:731-735 | appends the title lines and the status heading |
| Legacy.WriteStatus | compare_vmec_implementations.py:736-738 | appends the status line of each implementation, in order |
| Legacy.StatusWritesLines | compare_vmec_implementations.py:736-738 | one status line per implementation, in order, marked Available iff it is available |
| Legacy.WriteSummaryHeading | compare_vmec_implementations.py:739-743 | appends the blank line, the summary heading and the case count |
| Legacy.WriteCases | compare_vmec_implementations.py:745-752 | appends every case's block, in registry order |
| Legacy.WriteCaseSummary | compare_vmec_implementations.py:746-752 | appends a case's heading, its records' lines and a blank line |
| Legacy.WriteRecord | compare_vmec_implementations.py:747-751 | appends a record's outcome line and, for a failure with an error key, its error line |
| Legacy.WriteTable | compare_vmec_implementations.py:755-758 | appends the table heading and, when the table has rows, the rendered table |
| Legacy.OutcomeLineKinds | compare_vmec_implementations.py:748-749 | an outcome line is never an error line, and reads Success iff the record succeeded |
| Legacy.ErrorLineKinds | compare_vmec_implementations.py:750-751 | an error line counts as an error line and never as a success line |
| Legacy.RecordWritesKinds | compare_vmec_implementations.py:747-751 | a record writes one success line iff it succeeded, and an error line iff it failed with an error key |
| Legacy.CaseWritesKinds | compare_vmec_implementations.py:746-752 | a case block's error lines are its failed records' errors in order, and its success lines number its successes |
| Legacy.CasesWritesKinds | compare_vmec_implementations.py:745-752 | the report's error lines are the errors of all failed records with an error key, in order; its success lines number all successes |
| Legacy.ReportMatchesTable | compare_vmec_implementations.py:745-752 | the report marks as many runs successful as the comparison table has rows |

## Left out

- Building, cloning and running the solvers (subprocesses, timeouts, git) are outside the model. `Backend` stands for an implementation's `run_case` and `extract_results`; the set of ready or built implementations is a parameter.
- Globbing and existence checks of test-data directories are outside the model. The files each glob yields are given as inputs (`TestData`, `TestDirs`), in glob order.
- JSON parsing is outside the model: the converters receive the parsed value, `None` when the file cannot be read or parsed. Duplicate JSON keys are not modelled; a lookup takes the first entry with the key.
- Numbers are exact reals and unbounded integers, not IEEE floats. The model leaves out float rounding in the differences and their quotient. It also leaves out stored NaN or infinite quantities: the source still finds such a quantity on both sides and writes its `_abs_diff`/`_rel_diff` columns and a statistics block, while the model has no such value. Non-finite JSON numbers (`NaN`, `Infinity`, `1e400`) are left out too. So is the OverflowError raised when an integer beyond the float range is formatted with `:.Ne`, which makes the conversion return False; `Indata.Sci` formats every integer.
- Python's `str()` and `:.Ne` formatting of numbers are the `Formatter` parameter, not an implementation of float printing.
- NetCDF output reading in `extract_results` of educational_VMEC, VMEC2000 and VMEC++ is outside the model: its records come from `Backend`.
- Markdown and DataFrame rendering (`to_markdown`) are outside the model. `ResultsComparator.generate_report` is modelled as the `Report` value it renders, not as file text. The legacy report takes the table's rendering as a parameter.
- Comparator.ResultsComparator.GenerateReport: the `mean` line of each statistics block is not modelled (floating-point averaging); only max and min are.
- The `raw_results.json` dump in `run_all_cases`, `export_to_csv`, logging and printing are outside the model.
- `run_all_cases` raises `KeyError` when a record has no `success` key; the model returns no registry in that case.
- Comparator.ResultsComparator.CreateComparisonTable: for a caller-supplied `quantities` list, a repeated name gives one cell per occurrence where pandas keeps one column, and a name that is a fixed key of the result dictionary (`success`, `error`, `case`, `implementation`) is looked up among the numeric values only. The only caller, `generate_report`, uses the default key quantities, which have neither.
- Comparator.ResultsComparator.CalculateRelativeDifferences: the same two divergences for a caller-supplied `quantities` list, for the same reason.
- Runner.BenchmarkRunner.RunAllCases: the `timeout` argument is not modelled, since it only reaches the external run.
- `get_available_implementations` and the command-line interface are outside the model.
