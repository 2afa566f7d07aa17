/** The `BenchmarkRunner`: it registers the implementations that could be set
    up, discovers the test cases, runs every selected case on every selected
    implementation and shapes each outcome into a result record. Building and
    running a solver are external: `Backend` stands for an implementation's
    `run_case` and `extract_results`. */
module Runner {
  import opened Wrappers
  import opened Sequences
  import opened Paths
  import opened Records

  /** The order in which the runner tries to set up implementations. */
  const SetupOrder: seq<string> := ["educational_vmec", "vmec2000", "vmecpp", "jvmec"]

  /** What the test-data directory of one repository holds: its `*.json`
      files and its `input.*` files, each in the order the glob yields them. A
      repository without test data has neither. */
  datatype TestData = TestData(jsonFiles: seq<FilePath>, inputFiles: seq<FilePath>)

  /** The external side of one implementation key: whether `run_case` on an
      input file and an output directory succeeds, and the record that
      `extract_results` reads from an output directory. */
  datatype Backend = Backend(
    runCase: (string, FilePath, FilePath) -> bool,
    extractResults: (string, FilePath) -> Record)

  // ------------------------------------------------------------ discovery

  /** The candidate files in the order discovery collects them: per
      repository, the JSON files, then the input files. */
  function Found(data: seq<TestData>): seq<FilePath>
    decreases |data|
  {
    if data == [] then []
    else Found(data[..|data| - 1]) + data[|data| - 1].jsonFiles + data[|data| - 1].inputFiles
  }

  /** `s[:limit]` when `limit` is truthy; Python's slice counts a negative
      bound from the end. */
  function Limited<T>(s: seq<T>, limit: Option<int>): (r: seq<T>)
    ensures |r| <= |s| && r == s[..|r|]
    ensures limit.None? || limit.value == 0 ==> r == s
    ensures limit.Some? && limit.value > 0 ==> |r| == if limit.value < |s| then limit.value else |s|
    ensures limit.Some? && limit.value < 0 ==> |r| == if |s| + limit.value > 0 then |s| + limit.value else 0
  {
    if limit.None? || limit.value == 0 then s
    else if limit.value > 0 then s[..if limit.value < |s| then limit.value else |s|]
    else s[..if |s| + limit.value > 0 then |s| + limit.value else 0]
  }

  /** The discovered test cases: de-duplicated by stem, then limited. */
  function Discovered(data: seq<TestData>, limit: Option<int>): seq<FilePath> {
    Limited(FirstByKey(Found(data), Stem), limit)
  }

  lemma PrefixKeepsDistinct<T, K>(s: seq<T>, n: nat, key: T -> K)
    requires n <= |s| && Distinct(KeysOf(s, key))
    ensures Distinct(KeysOf(s[..n], key))
  {
    assert forall i :: 0 <= i < n ==> KeysOf(s[..n], key)[i] == KeysOf(s, key)[i];
  }

  /** Discovered cases have pairwise distinct stems. */
  lemma DiscoveredDistinct(data: seq<TestData>, limit: Option<int>)
    ensures Distinct(KeysOf(Discovered(data, limit), Stem))
  {
    var unique := FirstByKey(Found(data), Stem);
    FirstByKeyProperties(Found(data), Stem);
    PrefixKeepsDistinct(unique, |Discovered(data, limit)|, Stem);
  }

  /** Each discovered case is the first path found with its stem. */
  lemma DiscoveredFirst(data: seq<TestData>, limit: Option<int>, x: FilePath)
    requires x in Discovered(data, limit)
    ensures exists i :: IsFirstOfKey(Found(data), i, Stem) && Found(data)[i] == x
  {
    var unique := FirstByKey(Found(data), Stem);
    var r := Discovered(data, limit);
    var k :| 0 <= k < |r| && r[k] == x;
    assert unique[k] == x;
    FirstByKeyKeepsFirst(Found(data), Stem, x);
  }

  /** Without a limit, every stem found is kept. */
  lemma DiscoveredAllStems(data: seq<TestData>, limit: Option<int>, st: string)
    requires limit.None? || limit.value == 0
    ensures HasKey(Discovered(data, limit), Stem, st) <==> HasKey(Found(data), Stem, st)
  {
    FirstByKeyProperties(Found(data), Stem);
  }

  /** An INDATA file name `input.<x>` with a dot-free `<x>`. */
  predicate IsInputFile(p: FilePath) {
    |p.name| > 6 && p.name[..6] == "input." && '.' !in p.name[6..]
  }

  lemma InputFileHasInputStem(p: FilePath)
    requires IsInputFile(p)
    ensures Stem(p) == "input"
  {
    assert p.name == "input." + p.name[6..];
    InputFileStem(p.parent, p.name[6..]);
  }

  /** Every `input.<x>` file has the stem `input`, so de-duplication by stem
      keeps at most one of them among all discovered cases. */
  lemma AtMostOneInputFile(data: seq<TestData>, limit: Option<int>)
    ensures forall i, j :: 0 <= i < j < |Discovered(data, limit)| ==>
      !(IsInputFile(Discovered(data, limit)[i]) && IsInputFile(Discovered(data, limit)[j]))
  {
    var r := Discovered(data, limit);
    DiscoveredDistinct(data, limit);
    forall i, j | 0 <= i < j < |r| && IsInputFile(r[i])
      ensures !IsInputFile(r[j])
    {
      InputFileHasInputStem(r[i]);
      assert KeysOf(r, Stem)[i] == Stem(r[i]) && KeysOf(r, Stem)[j] == Stem(r[j]);
      if IsInputFile(r[j]) {
        InputFileHasInputStem(r[j]);
      }
    }
  }

  // ------------------------------------------------------------ one run

  /** `output_dir / case_name / implementation`. */
  function RunDir(outputDir: string, testCase: FilePath, impl: string): FilePath {
    Child(outputDir + "/" + Stem(testCase), impl)
  }

  /** The record of running `testCase` on `impl`, given the keys set up. */
  function SingleCaseRecord(available: seq<string>, outputDir: string, testCase: FilePath, impl: string, backend: Backend): (r: Record)
    ensures impl !in available ==>
      r == Record(Some(false), ErrorText("Implementation " + impl + " not available"), map[], None, None)
    ensures impl in available ==> r.implementation == Some(impl) && r.caseName == Some(Stem(testCase))
    ensures impl in available && !backend.runCase(impl, testCase, RunDir(outputDir, testCase, impl)) ==>
      r == Record(Some(false), ErrorText("Run failed"), map[], Some(impl), Some(Stem(testCase)))
    ensures impl in available && backend.runCase(impl, testCase, RunDir(outputDir, testCase, impl)) ==>
      var e := backend.extractResults(impl, RunDir(outputDir, testCase, impl));
      r.success == e.success && r.error == e.error && r.values == e.values
  {
    if impl !in available then
      Record(Some(false), ErrorText("Implementation " + impl + " not available"), map[], None, None)
    else
      var dir := RunDir(outputDir, testCase, impl);
      if backend.runCase(impl, testCase, dir) then
        backend.extractResults(impl, dir).(implementation := Some(impl), caseName := Some(Stem(testCase)))
      else
        Record(Some(false), ErrorText("Run failed"), map[], Some(impl), Some(Stem(testCase)))
  }

  // ------------------------------------------------------------ all runs

  /** The requested implementations that are set up, in requested order; all
      set-up keys when none are requested. */
  function SelectedImplementations(available: seq<string>, requested: Option<seq<string>>): (keys: seq<string>)
    ensures forall k :: k in keys ==> k in available
    ensures requested.None? || requested.value == [] ==> keys == available
    ensures requested.Some? && requested.value != [] ==>
      Subsequence(keys, requested.value) && forall k :: k in keys <==> k in requested.value && k in available
    ensures requested.Some? && requested.value != [] ==>
      forall k :: multiset(keys)[k] == if k in available then multiset(requested.value)[k] else 0
  {
    if requested.None? || requested.value == [] then available
    else
      var allowed := set k | k in available;
      var keys := FilterByKey(requested.value, Itself, allowed);
      FilterByKeyProperties(requested.value, Itself, allowed);
      forall k
        ensures multiset(keys)[k] == if k in available then multiset(requested.value)[k] else 0
      {
        FilterByKeyCount(requested.value, Itself, allowed, k);
      }
      keys
  }

  /** The discovered cases whose stem is requested, in discovery order; all of
      them when none are requested. */
  function SelectedCases(cases: seq<FilePath>, requested: Option<seq<string>>): (selected: seq<FilePath>)
    ensures requested.None? || requested.value == [] ==> selected == cases
    ensures requested.Some? && requested.value != [] ==>
      Subsequence(selected, cases) && forall x :: x in selected <==> x in cases && Stem(x) in requested.value
  {
    if requested.None? || requested.value == [] then cases
    else
      var selected := FilterByKey(cases, Stem, set k | k in requested.value);
      FilterByKeyProperties(cases, Stem, set k | k in requested.value);
      selected
  }

  /** Selecting cases keeps their stems distinct. */
  lemma SelectedCasesDistinct(cases: seq<FilePath>, requested: Option<seq<string>>)
    requires Distinct(KeysOf(cases, Stem))
    ensures Distinct(KeysOf(SelectedCases(cases, requested), Stem))
  {
    if requested.Some? && requested.value != [] {
      FilterByKeyDistinct(cases, Stem, set k | k in requested.value);
    }
  }

  /** The records of one case: `case_results[k] = run_single_case(...)` for each key. */
  function CaseRecords(available: seq<string>, outputDir: string, testCase: FilePath, keys: seq<string>, backend: Backend): Entries
    decreases |keys|
  {
    if keys == [] then []
    else
      var k := keys[|keys| - 1];
      Put(CaseRecords(available, outputDir, testCase, keys[..|keys| - 1], backend), k,
          SingleCaseRecord(available, outputDir, testCase, k, backend))
  }

  /** The registry: `results[stem] = case_results` for each selected case. */
  function ResultsOf(available: seq<string>, outputDir: string, cases: seq<FilePath>, keys: seq<string>, backend: Backend): Registry
    decreases |cases|
  {
    if cases == [] then []
    else
      var c := cases[|cases| - 1];
      Put(ResultsOf(available, outputDir, cases[..|cases| - 1], keys, backend), Stem(c),
          CaseRecords(available, outputDir, c, keys, backend))
  }

  /** Every record the loop reads has a `success` key (`result['success']`
      raises otherwise). */
  predicate AllReported(available: seq<string>, outputDir: string, cases: seq<FilePath>, keys: seq<string>, backend: Backend) {
    forall i, j :: 0 <= i < |cases| && 0 <= j < |keys| ==>
      SingleCaseRecord(available, outputDir, cases[i], keys[j], backend).success.Some?
  }

  /** A case's records hold exactly one record per selected key: the record of
      running the case on that key. */
  lemma {:induction false} CaseRecordsFind(available: seq<string>, outputDir: string, testCase: FilePath, keys: seq<string>, backend: Backend, k: string)
    ensures Find(CaseRecords(available, outputDir, testCase, keys, backend), k)
      == if k in keys then Some(SingleCaseRecord(available, outputDir, testCase, k, backend)) else None
    decreases |keys|
  {
    if keys != [] {
      var keys' := keys[..|keys| - 1];
      CaseRecordsFind(available, outputDir, testCase, keys', backend, k);
      PutFind(CaseRecords(available, outputDir, testCase, keys', backend), keys[|keys| - 1],
        SingleCaseRecord(available, outputDir, testCase, keys[|keys| - 1], backend), k);
      assert keys == keys' + [keys[|keys| - 1]];
    }
  }

  /** The registry is total over the selected cases: each case's stem maps to
      that case's records, and no other key appears. */
  lemma {:induction false} ResultsFind(available: seq<string>, outputDir: string, cases: seq<FilePath>, keys: seq<string>, backend: Backend, i: int)
    requires Distinct(KeysOf(cases, Stem)) && 0 <= i < |cases|
    ensures Find(ResultsOf(available, outputDir, cases, keys, backend), Stem(cases[i]))
      == Some(CaseRecords(available, outputDir, cases[i], keys, backend))
    decreases |cases|
  {
    var n := |cases| - 1;
    var prev := ResultsOf(available, outputDir, cases[..n], keys, backend);
    var last := CaseRecords(available, outputDir, cases[n], keys, backend);
    assert ResultsOf(available, outputDir, cases, keys, backend) == Put(prev, Stem(cases[n]), last);
    if i == n {
      PutFind(prev, Stem(cases[n]), last, Stem(cases[n]));
    } else {
      assert Stem(cases[i]) != Stem(cases[n]) by {
        assert KeysOf(cases, Stem)[i] == Stem(cases[i]) && KeysOf(cases, Stem)[n] == Stem(cases[n]);
      }
      PutFind(prev, Stem(cases[n]), last, Stem(cases[i]));
      PrefixKeepsDistinct(cases, n, Stem);
      assert cases[..n][i] == cases[i];
      ResultsFind(available, outputDir, cases[..n], keys, backend, i);
    }
  }

  lemma {:induction false} ResultsKeys(available: seq<string>, outputDir: string, cases: seq<FilePath>, keys: seq<string>, backend: Backend, st: string)
    ensures Find(ResultsOf(available, outputDir, cases, keys, backend), st).Some? <==> HasKey(cases, Stem, st)
    decreases |cases|
  {
    if cases != [] {
      var cases' := cases[..|cases| - 1];
      ResultsKeys(available, outputDir, cases', keys, backend, st);
      PutFind(ResultsOf(available, outputDir, cases', keys, backend), Stem(cases[|cases| - 1]),
        CaseRecords(available, outputDir, cases[|cases| - 1], keys, backend), st);
      assert cases == cases' + [cases[|cases| - 1]];
      HasKeyAppend(cases', cases[|cases| - 1], Stem, st);
    }
  }

  /** Every selected case maps to a record for every selected implementation,
      failed runs included, and each record carries its own case and
      implementation. */
  lemma RegistryTotal(available: seq<string>, outputDir: string, cases: seq<FilePath>, requested: Option<seq<string>>, backend: Backend, i: int, k: string)
    requires Distinct(KeysOf(cases, Stem)) && 0 <= i < |cases|
    requires k in SelectedImplementations(available, requested)
    ensures var keys := SelectedImplementations(available, requested);
      var reg := ResultsOf(available, outputDir, cases, keys, backend);
      && Find(reg, Stem(cases[i])).Some?
      && Find(Find(reg, Stem(cases[i])).value, k) == Some(SingleCaseRecord(available, outputDir, cases[i], k, backend))
      && Find(Find(reg, Stem(cases[i])).value, k).value.implementation == Some(k)
      && Find(Find(reg, Stem(cases[i])).value, k).value.caseName == Some(Stem(cases[i]))
  {
    var keys := SelectedImplementations(available, requested);
    ResultsFind(available, outputDir, cases, keys, backend, i);
    CaseRecordsFind(available, outputDir, cases[i], keys, backend, k);
  }

  /** Every case of `cases` maps, for every key of `keys`, to the record of
      running that case on that key. */
  predicate CoversSelection(reg: Registry, available: seq<string>, outputDir: string, cases: seq<FilePath>,
                            keys: seq<string>, backend: Backend) {
    forall i, k :: 0 <= i < |cases| && k in keys ==>
      Find(reg, Stem(cases[i])).Some?
      && Find(Find(reg, Stem(cases[i])).value, k) == Some(SingleCaseRecord(available, outputDir, cases[i], k, backend))
  }

  /** Discovered cases have distinct stems, so the registry built from any
      selection of them holds a record for every selected case and key. */
  lemma SelectedRegistryTotal(available: seq<string>, outputDir: string, testCases: seq<FilePath>,
                              requestedImpls: Option<seq<string>>, requestedCases: Option<seq<string>>, backend: Backend)
    requires Distinct(KeysOf(testCases, Stem))
    ensures var keys := SelectedImplementations(available, requestedImpls);
      var cases := SelectedCases(testCases, requestedCases);
      CoversSelection(ResultsOf(available, outputDir, cases, keys, backend), available, outputDir, cases, keys, backend)
  {
    var keys := SelectedImplementations(available, requestedImpls);
    var cases := SelectedCases(testCases, requestedCases);
    SelectedCasesDistinct(testCases, requestedCases);
    forall i, k | 0 <= i < |cases| && k in keys
      ensures Find(ResultsOf(available, outputDir, cases, keys, backend), Stem(cases[i])).Some?
      ensures Find(Find(ResultsOf(available, outputDir, cases, keys, backend), Stem(cases[i])).value, k)
        == Some(SingleCaseRecord(available, outputDir, cases[i], k, backend))
    {
      RegistryTotal(available, outputDir, cases, requestedImpls, backend, i, k);
    }
  }

  /** Registry dictionaries built by assignment have distinct keys. */
  lemma {:induction false} PutKeepsDistinct<V>(d: seq<(string, V)>, k: string, v: V)
    requires Distinct(Keys(d))
    ensures Distinct(Keys(Put(d, k, v)))
  {
    PutKeys(d, k, v);
    if k !in Keys(d) {
      var r := Keys(d) + [k];
      forall a, b | 0 <= a < b < |r|
        ensures r[a] != r[b]
      {
        if b == |Keys(d)| {
          assert r[a] == Keys(d)[a];
        }
      }
    }
  }

  lemma {:induction false} CaseRecordsDistinct(available: seq<string>, outputDir: string, testCase: FilePath, keys: seq<string>, backend: Backend)
    ensures Distinct(Keys(CaseRecords(available, outputDir, testCase, keys, backend)))
    decreases |keys|
  {
    if keys != [] {
      CaseRecordsDistinct(available, outputDir, testCase, keys[..|keys| - 1], backend);
      PutKeepsDistinct(CaseRecords(available, outputDir, testCase, keys[..|keys| - 1], backend), keys[|keys| - 1],
        SingleCaseRecord(available, outputDir, testCase, keys[|keys| - 1], backend));
    }
  }

  /** The registry the runner builds satisfies the comparator's well-formedness. */
  lemma {:induction false} ResultsWellFormed(available: seq<string>, outputDir: string, cases: seq<FilePath>, keys: seq<string>, backend: Backend)
    ensures WellFormed(ResultsOf(available, outputDir, cases, keys, backend))
    decreases |cases|
  {
    if cases != [] {
      var cases' := cases[..|cases| - 1];
      var c := cases[|cases| - 1];
      var prev := ResultsOf(available, outputDir, cases', keys, backend);
      var es := CaseRecords(available, outputDir, c, keys, backend);
      ResultsWellFormed(available, outputDir, cases', keys, backend);
      CaseRecordsDistinct(available, outputDir, c, keys, backend);
      assert Distinct(Keys(prev)) by {
        forall a, b | 0 <= a < b < |prev|
          ensures Keys(prev)[a] != Keys(prev)[b]
        {
        }
      }
      PutKeepsDistinct(prev, Stem(c), es);
      var reg := Put(prev, Stem(c), es);
      assert ResultsOf(available, outputDir, cases, keys, backend) == reg;
      forall a, b | 0 <= a < b < |reg|
        ensures reg[a].0 != reg[b].0
      {
        assert Keys(reg)[a] == reg[a].0 && Keys(reg)[b] == reg[b].0;
      }
      forall x | 0 <= x < |reg|
        ensures forall a, b :: 0 <= a < b < |reg[x].1| ==> reg[x].1[a].0 != reg[x].1[b].0
      {
        assert reg[x] in reg;
        PutMember(prev, Stem(c), es, reg[x]);
        if reg[x].1 == es {
          DistinctKeysEntries(es);
        } else {
          var y :| 0 <= y < |prev| && prev[y] == reg[x];
        }
      }
    }
  }

  lemma DistinctKeysEntries(es: Entries)
    requires Distinct(Keys(es))
    ensures forall a, b :: 0 <= a < b < |es| ==> es[a].0 != es[b].0
  {
    forall a, b | 0 <= a < b < |es|
      ensures es[a].0 != es[b].0
    {
      assert Keys(es)[a] == es[a].0 && Keys(es)[b] == es[b].0;
    }
  }

  /** An entry of `d[k] = v` is the new one or an entry of `d`. */
  lemma {:induction false} PutMember<V>(d: seq<(string, V)>, k: string, v: V, e: (string, V))
    requires e in Put(d, k, v)
    ensures e == (k, v) || e in d
    decreases |d|
  {
    if d != [] && d[0].0 != k {
      if e != d[0] {
        PutMember(d[1..], k, v, e);
      }
    }
  }

  // ------------------------------------------------------------ the runner

  lemma SetupOrderFilter(ready: set<string>)
    ensures FilterByKey(SetupOrder, Itself, ready)
      == (if "educational_vmec" in ready then ["educational_vmec"] else [])
       + (if "vmec2000" in ready then ["vmec2000"] else [])
       + (if "vmecpp" in ready then ["vmecpp"] else [])
       + (if "jvmec" in ready then ["jvmec"] else [])
  {
    var s := SetupOrder;
    var p0, p1, p2, p3 := s[..0], s[..1], s[..2], s[..3];
    assert p1[..0] == p0 && p2[..1] == p1 && p3[..2] == p2 && s[..3] == p3;
    assert Itself(s[0]) == "educational_vmec" && Itself(s[1]) == "vmec2000";
    assert Itself(s[2]) == "vmecpp" && Itself(s[3]) == "jvmec";
    assert FilterByKey(p1, Itself, ready) == (if "educational_vmec" in ready then ["educational_vmec"] else []);
    assert FilterByKey(p2, Itself, ready) == FilterByKey(p1, Itself, ready) + (if "vmec2000" in ready then ["vmec2000"] else []);
    assert FilterByKey(p3, Itself, ready) == FilterByKey(p2, Itself, ready) + (if "vmecpp" in ready then ["vmecpp"] else []);
    assert FilterByKey(s, Itself, ready) == FilterByKey(p3, Itself, ready) + (if "jvmec" in ready then ["jvmec"] else []);
  }

  /** `implementations[key] = impl` on the key list: a new key is appended. */
  function AddKey(keys: seq<string>, key: string): seq<string> {
    if key in keys then keys else keys + [key]
  }

  /** The key list after registering each of `added` in turn. */
  function RegisterAll(keys: seq<string>, added: seq<string>): seq<string>
    decreases |added|
  {
    if added == [] then keys else AddKey(RegisterAll(keys, added[..|added| - 1]), added[|added| - 1])
  }

  lemma RegisterAllSnoc(keys: seq<string>, added: seq<string>, x: string)
    ensures RegisterAll(keys, added + [x]) == AddKey(RegisterAll(keys, added), x)
  {
    assert (added + [x])[..|added|] == added;
  }

  /** Registration keeps what was there, adds each new key once, and on an
      empty list of distinct new keys yields exactly those keys in order. */
  lemma {:induction false} RegisterAllProperties(keys: seq<string>, added: seq<string>)
    ensures forall k :: k in RegisterAll(keys, added) <==> k in keys || k in added
    ensures Distinct(keys) ==> Distinct(RegisterAll(keys, added))
    ensures Distinct(keys + added) ==> RegisterAll(keys, added) == keys + added
    decreases |added|
  {
    if added != [] {
      var a', x := added[..|added| - 1], added[|added| - 1];
      RegisterAllProperties(keys, a');
      assert added == a' + [x];
      if Distinct(keys + added) {
        assert keys + added == (keys + a') + [x];
        assert Distinct(keys + a') by {
          forall i, j | 0 <= i < j < |keys + a'|
            ensures (keys + a')[i] != (keys + a')[j]
          {
            assert (keys + a')[i] == (keys + added)[i] && (keys + a')[j] == (keys + added)[j];
          }
        }
        assert x !in keys + a' by {
          forall i | 0 <= i < |keys + a'|
            ensures (keys + a')[i] != x
          {
            assert (keys + added)[|keys + a'|] == x;
            assert (keys + a')[i] == (keys + added)[i];
          }
        }
      }
    }
  }

  /** The implementation keys the setup can register are pairwise distinct. */
  lemma SetupOrderReadyDistinct(ready: set<string>)
    ensures Distinct(FilterByKey(SetupOrder, Itself, ready))
  {
    SetupOrderFilter(ready);
  }

  /** Setting up a runner with no keys yet registers exactly the ready
      implementations, in setup order. */
  lemma SetupFromEmpty(ready: set<string>)
    ensures RegisterAll([], FilterByKey(SetupOrder, Itself, ready)) == FilterByKey(SetupOrder, Itself, ready)
    ensures forall k :: k in RegisterAll([], FilterByKey(SetupOrder, Itself, ready)) <==> k in SetupOrder && k in ready
  {
    var f := FilterByKey(SetupOrder, Itself, ready);
    SetupOrderReadyDistinct(ready);
    assert [] + f == f;
    RegisterAllProperties([], f);
    FilterByKeyProperties(SetupOrder, Itself, ready);
  }

  /** `[k for k in requested if k in available]`, or every available key
      when nothing is requested. */
  method SelectKeys(available: seq<string>, requested: Option<seq<string>>) returns (keys: seq<string>)
    ensures keys == SelectedImplementations(available, requested)
  {
    if requested.Some? && requested.value != [] {
      keys := [];
      var wanted := requested.value;
      for j := 0 to |wanted|
        invariant keys == FilterByKey(wanted[..j], Itself, set k | k in available)
      {
        assert wanted[..j + 1][..j] == wanted[..j];
        if wanted[j] in available {
          keys := keys + [wanted[j]];
        }
      }
      assert wanted[..|wanted|] == wanted;
    } else {
      keys := available;
    }
  }

  /** `[c for c in test_cases if c.stem in set(requested)]`, or every case
      when nothing is requested. */
  method SelectCaseFiles(testCases: seq<FilePath>, requested: Option<seq<string>>) returns (cases: seq<FilePath>)
    ensures cases == SelectedCases(testCases, requested)
  {
    if requested.Some? && requested.value != [] {
      var caseSet := set k | k in requested.value;
      cases := [];
      for i := 0 to |testCases|
        invariant cases == FilterByKey(testCases[..i], Stem, caseSet)
      {
        assert testCases[..i + 1][..i] == testCases[..i];
        if Stem(testCases[i]) in caseSet {
          cases := cases + [testCases[i]];
        }
      }
      assert testCases[..|testCases|] == testCases;
    } else {
      cases := testCases;
    }
  }

  lemma AllReportedStep(available: seq<string>, outputDir: string, cases: seq<FilePath>, keys: seq<string>, backend: Backend, i: int)
    requires 0 <= i < |cases|
    requires AllReported(available, outputDir, cases[..i], keys, backend)
    requires forall j :: 0 <= j < |keys| ==> SingleCaseRecord(available, outputDir, cases[i], keys[j], backend).success.Some?
    ensures AllReported(available, outputDir, cases[..i + 1], keys, backend)
  {
    var c := cases[..i + 1];
    forall a, b | 0 <= a < i + 1 && 0 <= b < |keys|
      ensures SingleCaseRecord(available, outputDir, c[a], keys[b], backend).success.Some?
    {
      if a < i {
        assert c[a] == cases[..i][a];
      }
    }
  }

  /** One more case puts that case's records under its stem. */
  lemma ResultsOfStep(available: seq<string>, outputDir: string, cases: seq<FilePath>, keys: seq<string>, backend: Backend, i: int)
    requires 0 <= i < |cases|
    ensures ResultsOf(available, outputDir, cases[..i + 1], keys, backend)
      == Put(ResultsOf(available, outputDir, cases[..i], keys, backend), Stem(cases[i]),
             CaseRecords(available, outputDir, cases[i], keys, backend))
  {
    assert cases[..i + 1][..i] == cases[..i];
  }

  lemma NotReported(available: seq<string>, outputDir: string, cases: seq<FilePath>, keys: seq<string>, backend: Backend, i: int)
    requires 0 <= i < |cases|
    requires !forall j :: 0 <= j < |keys| ==> SingleCaseRecord(available, outputDir, cases[i], keys[j], backend).success.Some?
    ensures !AllReported(available, outputDir, cases, keys, backend)
  {
  }

  /** Orchestrates a benchmark: the implementation keys set up (the solver
      objects behind them are the `Backend`) and the discovered test cases. */
  class BenchmarkRunner {
    const outputDir: string
    var implementations: seq<string>
    var testCases: seq<FilePath>

    /** Implementation keys and case stems are pairwise distinct. */
    predicate Valid()
      reads this
    {
      Distinct(implementations) && Distinct(KeysOf(testCases, Stem))
    }

    constructor (outputDir: string)
      ensures this.outputDir == outputDir
      ensures implementations == [] && testCases == []
      ensures Valid()
    {
      this.outputDir := outputDir;
      implementations := [];
      testCases := [];
    }

    /** `self.implementations[key] = impl`: a new key is appended, an
        existing one keeps its place. */
    method Register(key: string)
      modifies this
      requires Valid()
      ensures Valid()
      ensures implementations == AddKey(old(implementations), key)
      ensures testCases == old(testCases)
    {
      if key !in implementations {
        implementations := implementations + [key];
      }
    }

    /** Registers, in the fixed order, every implementation whose repository
        is present and whose build succeeds (`ready`). */
    method SetupImplementations(ready: set<string>)
      modifies this
      requires Valid()
      ensures Valid()
      ensures testCases == old(testCases)
      ensures implementations == RegisterAll(old(implementations), FilterByKey(SetupOrder, Itself, ready))
    {
      SetupOrderFilter(ready);
      ghost var added: seq<string> := [];
      if "educational_vmec" in ready {
        Register("educational_vmec");
        added := added + ["educational_vmec"];
      }
      if "vmec2000" in ready {
        RegisterAllSnoc(old(implementations), added, "vmec2000");
        Register("vmec2000");
        added := added + ["vmec2000"];
      }
      if "vmecpp" in ready {
        RegisterAllSnoc(old(implementations), added, "vmecpp");
        Register("vmecpp");
        added := added + ["vmecpp"];
      }
      if "jvmec" in ready {
        RegisterAllSnoc(old(implementations), added, "jvmec");
        Register("jvmec");
        added := added + ["jvmec"];
      }
      assert added == FilterByKey(SetupOrder, Itself, ready);
    }

    /** Collects the candidate files of each repository, keeps the first path
        per stem and applies the limit. */
    method DiscoverTestCases(data: seq<TestData>, limit: Option<int>)
      modifies this
      requires Valid()
      ensures Valid()
      ensures implementations == old(implementations)
      ensures testCases == Discovered(data, limit)
    {
      var found: seq<FilePath> := [];
      for r := 0 to |data|
        invariant found == Found(data[..r])
      {
        assert data[..r + 1][..r] == data[..r];
        found := found + data[r].jsonFiles;
        found := found + data[r].inputFiles;
      }
      assert data[..|data|] == data;
      var seen: set<string> := {};
      var unique: seq<FilePath> := [];
      for i := 0 to |found|
        invariant unique == FirstByKey(found[..i], Stem)
        invariant forall st :: st in seen <==> HasKey(unique, Stem, st)
      {
        assert found[..i + 1][..i] == found[..i];
        var p := found[i];
        forall st
          ensures HasKey(unique + [p], Stem, st) <==> HasKey(unique, Stem, st) || Stem(p) == st
        {
          HasKeyAppend(unique, p, Stem, st);
        }
        if Stem(p) !in seen {
          seen := seen + {Stem(p)};
          unique := unique + [p];
        }
      }
      assert found[..|found|] == found;
      if limit.Some? && limit.value != 0 {
        unique := Limited(unique, limit);
      }
      testCases := unique;
      DiscoveredDistinct(data, limit);
    }

    /** Runs one case on one implementation key and shapes the record. */
    method RunSingleCase(testCase: FilePath, impl: string, backend: Backend) returns (result: Record)
      ensures result == SingleCaseRecord(implementations, outputDir, testCase, impl, backend)
    {
      if impl !in implementations {
        return Record(Some(false), ErrorText("Implementation " + impl + " not available"), map[], None, None);
      }
      var caseName := Stem(testCase);
      var dir := Child(outputDir + "/" + caseName, impl);
      var success := backend.runCase(impl, testCase, dir);
      if success {
        result := backend.extractResults(impl, dir);
        result := result.(implementation := Some(impl));
        result := result.(caseName := Some(caseName));
      } else {
        result := Record(Some(false), ErrorText("Run failed"), map[], Some(impl), Some(caseName));
      }
    }

    /** Runs one case on every selected key, in order. `complete` is false
        when a record lacks its `success` key, where `run_all_cases` raises
        `KeyError`. */
    method RunCaseRecords(testCase: FilePath, keys: seq<string>, backend: Backend)
      returns (caseResults: Entries, complete: bool)
      ensures complete <==> forall j :: 0 <= j < |keys| ==>
        SingleCaseRecord(implementations, outputDir, testCase, keys[j], backend).success.Some?
      ensures complete ==> caseResults == CaseRecords(implementations, outputDir, testCase, keys, backend)
    {
      caseResults := [];
      for j := 0 to |keys|
        invariant caseResults == CaseRecords(implementations, outputDir, testCase, keys[..j], backend)
        invariant forall j' :: 0 <= j' < j ==> SingleCaseRecord(implementations, outputDir, testCase, keys[j'], backend).success.Some?
      {
        assert keys[..j + 1][..j] == keys[..j];
        var result := RunSingleCase(testCase, keys[j], backend);
        caseResults := Put(caseResults, keys[j], result);
        if result.success.None? {
          return caseResults, false;
        }
      }
      assert keys[..|keys|] == keys;
      complete := true;
    }

    /** Runs every selected case on every selected implementation. The outcome
        is `None` when a record lacks its `success` key, where `run_all_cases`
        raises `KeyError`. */
    method RunAllCases(requestedImpls: Option<seq<string>>, requestedCases: Option<seq<string>>, backend: Backend)
      returns (outcome: Option<Registry>)
      ensures var keys := SelectedImplementations(implementations, requestedImpls);
        var cases := SelectedCases(testCases, requestedCases);
        outcome == if AllReported(implementations, outputDir, cases, keys, backend)
          then Some(ResultsOf(implementations, outputDir, cases, keys, backend))
          else None
      ensures Valid() && outcome.Some? ==>
        CoversSelection(outcome.value, implementations, outputDir, SelectedCases(testCases, requestedCases),
                        SelectedImplementations(implementations, requestedImpls), backend)
    {
      var keys := SelectKeys(implementations, requestedImpls);
      var cases := SelectCaseFiles(testCases, requestedCases);
      var results: Registry := [];
      for i := 0 to |cases|
        invariant results == ResultsOf(implementations, outputDir, cases[..i], keys, backend)
        invariant AllReported(implementations, outputDir, cases[..i], keys, backend)
      {
        var caseName := Stem(cases[i]);
        var caseResults, complete := RunCaseRecords(cases[i], keys, backend);
        if !complete {
          NotReported(implementations, outputDir, cases, keys, backend, i);
          return None;
        }
        ResultsOfStep(implementations, outputDir, cases, keys, backend, i);
        results := Put(results, caseName, caseResults);
        AllReportedStep(implementations, outputDir, cases, keys, backend, i);
      }
      assert cases[..|cases|] == cases;
      outcome := Some(results);
      if Valid() {
        SelectedRegistryTotal(implementations, outputDir, testCases, requestedImpls, requestedCases, backend);
      }
    }

    /** The stems of the test cases, in order. */
    function TestCaseNames(): (names: seq<string>)
      reads this
      ensures |names| == |testCases|
      ensures forall i :: 0 <= i < |names| ==> names[i] == Stem(testCases[i])
      ensures Valid() ==> Distinct(names)
    {
      KeysOf(testCases, Stem)
    }
  }
}
