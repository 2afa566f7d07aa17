/** The `ResultsComparator`: three read-only views of a results registry (the
    comparison table of key quantities, the differences relative to a reference
    implementation, the convergence matrix) and the report that chooses the
    reference implementation and summarises the differences. Each table is
    specified by a recursive function over the registry; the class methods
    build the same tables with loops and are proved against those functions. */
module Comparator {
  import opened Wrappers
  import opened Strings
  import opened Sequences
  import opened Records

  /** The quantities compared when the caller names none. */
  const KeyQuantities: seq<string> := ["wb", "betatotal", "aspect", "raxis_cc", "volume_p", "iotaf_edge"]

  // ------------------------------------------------------------ comparison table

  /** One row of the comparison table; `cells[k]` belongs to the k-th quantity,
      `None` standing for NaN. */
  datatype ComparisonRow = ComparisonRow(caseName: string, implementation: string, cells: seq<Option<real>>)

  /** The value of quantity `q` in a record, or NaN when the record lacks it. */
  function Cell(r: Record, q: string): Option<real> {
    if q in r.values then Some(r.values[q]) else None
  }

  function RowOf(caseName: string, impl: string, r: Record, qs: seq<string>): ComparisonRow {
    ComparisonRow(caseName, impl, seq(|qs|, k requires 0 <= k < |qs| => Cell(r, qs[k])))
  }

  /** The rows one case contributes: its successful records, in insertion order. */
  function CaseRows(caseName: string, es: Entries, qs: seq<string>): seq<ComparisonRow>
    decreases |es|
  {
    if es == [] then []
    else
      var last := es[|es| - 1];
      CaseRows(caseName, es[..|es| - 1], qs)
        + (if Succeeded(last.1) then [RowOf(caseName, last.0, last.1, qs)] else [])
  }

  /** All rows of the comparison table before sorting, in registry order. */
  function UnsortedRows(reg: Registry, qs: seq<string>): seq<ComparisonRow>
    decreases |reg|
  {
    if reg == [] then []
    else UnsortedRows(reg[..|reg| - 1], qs) + CaseRows(reg[|reg| - 1].0, reg[|reg| - 1].1, qs)
  }

  /** The implementation names of the successful records of one case, in order. */
  function CaseSuccessNames(es: Entries): seq<string>
    decreases |es|
  {
    if es == [] then []
    else
      var last := es[|es| - 1];
      CaseSuccessNames(es[..|es| - 1]) + (if Succeeded(last.1) then [last.0] else [])
  }

  /** The implementation names of all successful records, case by case. */
  function SuccessNames(reg: Registry): seq<string>
    decreases |reg|
  {
    if reg == [] then []
    else SuccessNames(reg[..|reg| - 1]) + CaseSuccessNames(reg[|reg| - 1].1)
  }

  /** In how many cases implementation `impl` succeeded (with distinct keys per case). */
  function SuccessCount(reg: Registry, impl: string): nat {
    multiset(SuccessNames(reg))[impl]
  }

  /** Row `row` is the one built from record `j` of case `i`, which succeeded. */
  predicate IsRowOf(reg: Registry, qs: seq<string>, row: ComparisonRow, i: int, j: int) {
    0 <= i < |reg| && 0 <= j < |reg[i].1| && Succeeded(reg[i].1[j].1)
    && row == RowOf(reg[i].0, reg[i].1[j].0, reg[i].1[j].1, qs)
  }

  /** Record `j` of case `i` succeeded. */
  predicate IsSuccessAt(reg: Registry, i: int, j: int) {
    0 <= i < |reg| && 0 <= j < |reg[i].1| && Succeeded(reg[i].1[j].1)
  }

  lemma {:induction false} CaseRowsProperties(caseName: string, es: Entries, qs: seq<string>)
    ensures |CaseRows(caseName, es, qs)| == |CaseSuccessNames(es)|
    ensures forall row :: row in CaseRows(caseName, es, qs) <==>
      exists j :: 0 <= j < |es| && Succeeded(es[j].1) && row == RowOf(caseName, es[j].0, es[j].1, qs)
    decreases |es|
  {
    if es != [] {
      var es' := es[..|es| - 1];
      CaseRowsProperties(caseName, es', qs);
      assert forall j :: 0 <= j < |es'| ==> es'[j] == es[j];
    }
  }

  lemma {:induction false} CaseSuccessNamesMembership(es: Entries, k: string)
    ensures k in CaseSuccessNames(es) <==> exists j :: 0 <= j < |es| && Succeeded(es[j].1) && es[j].0 == k
    decreases |es|
  {
    if es != [] {
      var es' := es[..|es| - 1];
      CaseSuccessNamesMembership(es', k);
      assert forall j :: 0 <= j < |es'| ==> es'[j] == es[j];
    }
  }

  /** The comparison table holds exactly one row per successful record: a row
      is in it iff it is built from a successful record, and there are as many
      rows as successful records. */
  lemma {:induction false} UnsortedRowsProperties(reg: Registry, qs: seq<string>)
    ensures |UnsortedRows(reg, qs)| == |SuccessNames(reg)|
    ensures forall row :: row in UnsortedRows(reg, qs) <==> exists i, j :: IsRowOf(reg, qs, row, i, j)
    decreases |reg|
  {
    if reg != [] {
      var reg', c := reg[..|reg| - 1], reg[|reg| - 1];
      UnsortedRowsProperties(reg', qs);
      CaseRowsProperties(c.0, c.1, qs);
      forall row
        ensures row in UnsortedRows(reg, qs) <==> exists i, j :: IsRowOf(reg, qs, row, i, j)
      {
        if row in UnsortedRows(reg', qs) {
          var i, j :| IsRowOf(reg', qs, row, i, j);
          assert IsRowOf(reg, qs, row, i, j);
        } else if row in CaseRows(c.0, c.1, qs) {
          var j :| 0 <= j < |c.1| && Succeeded(c.1[j].1) && row == RowOf(c.0, c.1[j].0, c.1[j].1, qs);
          assert IsRowOf(reg, qs, row, |reg'|, j);
        }
        if exists i, j :: IsRowOf(reg, qs, row, i, j) {
          var i, j :| IsRowOf(reg, qs, row, i, j);
          if i < |reg'| {
            assert IsRowOf(reg', qs, row, i, j);
          }
        }
      }
    }
  }

  /** A name is among the success names iff some record with that key succeeded. */
  lemma {:induction false} SuccessNamesMembership(reg: Registry, k: string)
    ensures k in SuccessNames(reg) <==> exists i, j :: IsSuccessAt(reg, i, j) && reg[i].1[j].0 == k
    decreases |reg|
  {
    if reg != [] {
      var reg', c := reg[..|reg| - 1], reg[|reg| - 1];
      SuccessNamesMembership(reg', k);
      CaseSuccessNamesMembership(c.1, k);
      assert SuccessNames(reg) == SuccessNames(reg') + CaseSuccessNames(c.1);
      if k in SuccessNames(reg') {
        var i, j :| IsSuccessAt(reg', i, j) && reg'[i].1[j].0 == k;
        assert IsSuccessAt(reg, i, j);
      } else if k in CaseSuccessNames(c.1) {
        var j :| 0 <= j < |c.1| && Succeeded(c.1[j].1) && c.1[j].0 == k;
        assert IsSuccessAt(reg, |reg'|, j);
      }
      if exists i, j :: IsSuccessAt(reg, i, j) && reg[i].1[j].0 == k {
        var i, j :| IsSuccessAt(reg, i, j) && reg[i].1[j].0 == k;
        if i < |reg'| {
          assert IsSuccessAt(reg', i, j);
        }
      }
    }
  }

  // ------------------------------------------------------------ sorting by (case, implementation)

  /** The order of `sort_values(['case', 'implementation'])`. */
  predicate RowLeq(a: ComparisonRow, b: ComparisonRow) {
    LexLess(a.caseName, b.caseName)
    || (a.caseName == b.caseName && LexLeq(a.implementation, b.implementation))
  }

  predicate SortedRows(s: seq<ComparisonRow>) {
    forall i, j :: 0 <= i < j < |s| ==> RowLeq(s[i], s[j])
  }

  lemma RowLeqTotal(a: ComparisonRow, b: ComparisonRow)
    ensures RowLeq(a, b) || RowLeq(b, a)
  {
    LexLeqTotal(a.caseName, b.caseName);
    LexLeqTotal(a.implementation, b.implementation);
  }

  lemma RowLeqTransitive(a: ComparisonRow, b: ComparisonRow, c: ComparisonRow)
    requires RowLeq(a, b) && RowLeq(b, c)
    ensures RowLeq(a, c)
  {
    if a.caseName == b.caseName && b.caseName == c.caseName {
      LexLeqTransitive(a.implementation, b.implementation, c.implementation);
    } else if a.caseName != b.caseName && b.caseName != c.caseName {
      LexLessLeqTransitive(a.caseName, b.caseName, c.caseName);
    }
  }

  /** Inserts `x` before the first row it sorts at or before. */
  function InsertRow(x: ComparisonRow, s: seq<ComparisonRow>): seq<ComparisonRow>
    decreases |s|
  {
    if s == [] then [x]
    else if RowLeq(x, s[0]) then [x] + s
    else [s[0]] + InsertRow(x, s[1..])
  }

  /** The rows sorted by case, then implementation. */
  function SortRows(s: seq<ComparisonRow>): seq<ComparisonRow>
    decreases |s|
  {
    if s == [] then [] else InsertRow(s[0], SortRows(s[1..]))
  }

  /** A row at or before every row of a sorted sequence can head it. */
  lemma ConsSorted(h: ComparisonRow, t: seq<ComparisonRow>)
    requires SortedRows(t)
    requires forall e :: e in t ==> RowLeq(h, e)
    ensures SortedRows([h] + t)
  {
    var r := [h] + t;
    forall i, j | 0 <= i < j < |r|
      ensures RowLeq(r[i], r[j])
    {
      if i > 0 {
        assert r[i] == t[i - 1] && r[j] == t[j - 1];
      } else {
        assert r[j] in t;
      }
    }
  }

  /** Every row of a sorted sequence sorts at or after its head. */
  lemma HeadIsLeast(s: seq<ComparisonRow>, e: ComparisonRow)
    requires SortedRows(s) && s != [] && e in multiset(s[1..])
    ensures RowLeq(s[0], e)
  {
    var k :| 0 <= k < |s[1..]| && s[1..][k] == e;
    assert s[k + 1] == e;
  }

  /** Inserting adds exactly one copy of the row. */
  lemma {:induction false} InsertRowMultiset(x: ComparisonRow, s: seq<ComparisonRow>)
    ensures multiset(InsertRow(x, s)) == multiset(s) + multiset{x}
    decreases |s|
  {
    if s != [] && !RowLeq(x, s[0]) {
      InsertRowMultiset(x, s[1..]);
      assert multiset(s) == multiset{s[0]} + multiset(s[1..]) by {
        assert s == [s[0]] + s[1..];
      }
    }
  }

  /** Inserting into a sorted sequence keeps it sorted. */
  lemma {:induction false} InsertRowSorted(x: ComparisonRow, s: seq<ComparisonRow>)
    requires SortedRows(s)
    ensures SortedRows(InsertRow(x, s))
    decreases |s|
  {
    if s == [] {
    } else if RowLeq(x, s[0]) {
      forall e | e in s
        ensures RowLeq(x, e)
      {
        var j :| 0 <= j < |s| && s[j] == e;
        if j > 0 {
          RowLeqTransitive(x, s[0], s[j]);
        }
      }
      ConsSorted(x, s);
    } else {
      RowLeqTotal(x, s[0]);
      var t := InsertRow(x, s[1..]);
      InsertRowSorted(x, s[1..]);
      InsertRowMultiset(x, s[1..]);
      forall e | e in t
        ensures RowLeq(s[0], e)
      {
        assert e in multiset(t);
        if e != x {
          HeadIsLeast(s, e);
        }
      }
      ConsSorted(s[0], t);
    }
  }

  /** Sorting orders the rows and permutes them. */
  lemma SortRowsProperties(s: seq<ComparisonRow>)
    ensures SortedRows(SortRows(s))
    ensures multiset(SortRows(s)) == multiset(s)
  {
    SortRowsSorted(s);
    SortRowsMultiset(s);
  }

  lemma {:induction false} SortRowsSorted(s: seq<ComparisonRow>)
    ensures SortedRows(SortRows(s))
    decreases |s|
  {
    if s != [] {
      SortRowsSorted(s[1..]);
      InsertRowSorted(s[0], SortRows(s[1..]));
    }
  }

  lemma {:induction false} SortRowsMultiset(s: seq<ComparisonRow>)
    ensures multiset(SortRows(s)) == multiset(s)
    decreases |s|
  {
    if s != [] {
      SortRowsMultiset(s[1..]);
      InsertRowMultiset(s[0], SortRows(s[1..]));
      assert multiset(s) == multiset{s[0]} + multiset(s[1..]) by {
        assert s == [s[0]] + s[1..];
      }
    }
  }

  /** No two rows share a (case, implementation) key. */
  predicate DistinctRowKeys(s: seq<ComparisonRow>) {
    forall i, j :: 0 <= i < j < |s| ==>
      s[i].caseName != s[j].caseName || s[i].implementation != s[j].implementation
  }

  lemma RowLeqAntisymmetric(a: ComparisonRow, b: ComparisonRow)
    requires RowLeq(a, b) && RowLeq(b, a)
    ensures a.caseName == b.caseName && a.implementation == b.implementation
  {
    if a.caseName == b.caseName {
      LexLeqAntisymmetric(a.implementation, b.implementation);
    } else {
      LexLeqAntisymmetric(a.caseName, b.caseName);
    }
  }

  lemma MultisetSameLength<T>(a: seq<T>, b: seq<T>)
    requires multiset(a) == multiset(b)
    ensures |a| == |b|
  {
    assert |multiset(a)| == |a| && |multiset(b)| == |b|;
  }

  lemma MultisetTail<T>(a: seq<T>, b: seq<T>)
    requires a != [] && b != [] && a[0] == b[0] && multiset(a) == multiset(b)
    ensures multiset(a[1..]) == multiset(b[1..])
  {
    assert a == [a[0]] + a[1..] && b == [b[0]] + b[1..];
    assert multiset(a) == multiset{a[0]} + multiset(a[1..]);
    assert multiset(b) == multiset{b[0]} + multiset(b[1..]);
    forall y
      ensures multiset(a[1..])[y] == multiset(b[1..])[y]
    {
      assert multiset(a)[y] == multiset(b)[y];
    }
  }

  /** Two sorted arrangements of the same rows with distinct keys start alike. */
  lemma SameHead(a: seq<ComparisonRow>, b: seq<ComparisonRow>)
    requires SortedRows(a) && SortedRows(b) && DistinctRowKeys(a)
    requires multiset(a) == multiset(b) && a != [] && b != []
    ensures a[0] == b[0]
  {
    assert b[0] in multiset(a);
    var ia :| 0 <= ia < |a| && a[ia] == b[0];
    if ia != 0 {
      assert RowLeq(a[0], b[0]);
      assert a[0] in multiset(b);
      var ib :| 0 <= ib < |b| && b[ib] == a[0];
      if ib != 0 {
        assert RowLeq(b[0], a[0]);
        RowLeqAntisymmetric(a[0], b[0]);
      }
      assert false;
    }
  }

  /** When the row keys are distinct, the sorted order is the only one: two
      sorted arrangements of the same rows are equal, so the table does not
      depend on how the sort breaks ties. */
  lemma {:induction false} SortedPermutationUnique(a: seq<ComparisonRow>, b: seq<ComparisonRow>)
    requires SortedRows(a) && SortedRows(b) && DistinctRowKeys(a)
    requires multiset(a) == multiset(b)
    ensures a == b
    decreases |a|
  {
    MultisetSameLength(a, b);
    if a != [] {
      SameHead(a, b);
      MultisetTail(a, b);
      SortedPermutationUnique(a[1..], b[1..]);
      assert a == [a[0]] + a[1..] && b == [b[0]] + b[1..];
    }
  }

  lemma {:induction false} NoDuplicatesCount<T>(s: seq<T>, x: T)
    requires forall p, q :: 0 <= p < q < |s| ==> s[p] != s[q]
    ensures multiset(s)[x] <= 1
    decreases |s|
  {
    if s != [] {
      var s' := s[..|s| - 1];
      assert s == s' + [s[|s| - 1]];
      NoDuplicatesCount(s', x);
      if s[|s| - 1] == x {
        assert x !in s';
      }
    }
  }

  lemma RepeatedCount<T>(s: seq<T>, i: int, j: int)
    requires 0 <= i < j < |s| && s[i] == s[j]
    ensures multiset(s)[s[i]] >= 2
  {
    assert s == s[..i] + [s[i]] + s[i + 1..j] + [s[j]] + s[j + 1..];
  }

  /** Distinct row keys survive any rearrangement of the rows. */
  lemma DistinctRowKeysPermutation(u: seq<ComparisonRow>, t: seq<ComparisonRow>)
    requires DistinctRowKeys(u) && multiset(u) == multiset(t)
    ensures DistinctRowKeys(t)
  {
    forall i, j | 0 <= i < j < |t|
      ensures t[i].caseName != t[j].caseName || t[i].implementation != t[j].implementation
    {
      assert t[i] in multiset(u) && t[j] in multiset(u);
      var p :| 0 <= p < |u| && u[p] == t[i];
      var q :| 0 <= q < |u| && u[q] == t[j];
      if t[i] == t[j] {
        RepeatedCount(t, i, j);
        NoDuplicatesCount(u, t[i]);
      }
    }
  }

  lemma {:induction false} CaseRowsDistinct(caseName: string, es: Entries, qs: seq<string>)
    requires forall i, j :: 0 <= i < j < |es| ==> es[i].0 != es[j].0
    ensures DistinctRowKeys(CaseRows(caseName, es, qs))
    ensures forall row :: row in CaseRows(caseName, es, qs) ==> row.caseName == caseName
    decreases |es|
  {
    if es != [] {
      var es' := es[..|es| - 1];
      CaseRowsDistinct(caseName, es', qs);
      CaseRowsProperties(caseName, es', qs);
      var rows := CaseRows(caseName, es', qs);
      if Succeeded(es[|es| - 1].1) {
        var r := RowOf(caseName, es[|es| - 1].0, es[|es| - 1].1, qs);
        forall k | 0 <= k < |rows|
          ensures rows[k].implementation != r.implementation
        {
          assert rows[k] in rows;
          var j :| 0 <= j < |es'| && Succeeded(es'[j].1) && rows[k] == RowOf(caseName, es'[j].0, es'[j].1, qs);
          assert es'[j] == es[j];
        }
        assert (rows + [r])[..|rows|] == rows;
      }
    }
  }

  /** With distinct case keys and distinct implementation keys per case, every
      row of the comparison table has its own (case, implementation) key. */
  lemma {:induction false} UnsortedRowsDistinct(reg: Registry, qs: seq<string>)
    requires WellFormed(reg)
    ensures DistinctRowKeys(UnsortedRows(reg, qs))
    decreases |reg|
  {
    if reg != [] {
      var reg', c := reg[..|reg| - 1], reg[|reg| - 1];
      assert WellFormed(reg') by {
        assert forall i :: 0 <= i < |reg'| ==> reg'[i] == reg[i];
      }
      UnsortedRowsDistinct(reg', qs);
      CaseRowsDistinct(c.0, c.1, qs);
      EarlierCasesDiffer(reg, qs);
      DistinctRowKeysAppend(UnsortedRows(reg', qs), CaseRows(c.0, c.1, qs), c.0);
    }
  }

  /** The rows of the earlier cases belong to other cases than the last. */
  lemma EarlierCasesDiffer(reg: Registry, qs: seq<string>)
    requires WellFormed(reg) && reg != []
    ensures forall row :: row in UnsortedRows(reg[..|reg| - 1], qs) ==> row.caseName != reg[|reg| - 1].0
  {
    var reg' := reg[..|reg| - 1];
    UnsortedRowsProperties(reg', qs);
    forall row | row in UnsortedRows(reg', qs)
      ensures row.caseName != reg[|reg| - 1].0
    {
      var i, j :| IsRowOf(reg', qs, row, i, j);
      assert reg'[i] == reg[i];
    }
  }

  /** Joining row lists with distinct keys whose case names differ keeps the
      keys distinct. */
  lemma DistinctRowKeysAppend(a: seq<ComparisonRow>, b: seq<ComparisonRow>, name: string)
    requires DistinctRowKeys(a) && DistinctRowKeys(b)
    requires forall row :: row in a ==> row.caseName != name
    requires forall row :: row in b ==> row.caseName == name
    ensures DistinctRowKeys(a + b)
  {
    var r := a + b;
    forall p, q | 0 <= p < q < |r|
      ensures r[p].caseName != r[q].caseName || r[p].implementation != r[q].implementation
    {
      if q < |a| {
        assert r[p] == a[p] && r[q] == a[q];
      } else if p >= |a| {
        assert r[p] == b[p - |a|] && r[q] == b[q - |a|];
      } else {
        assert r[p] == a[p] && r[q] == b[q - |a|];
        assert a[p] in a && b[q - |a|] in b;
      }
    }
  }

  /** For a well-formed registry the sorted comparison table is determined by
      its rows alone: any sorted rearrangement of them is the model's table. */
  lemma ComparisonTableUnique(reg: Registry, qs: seq<string>, t: seq<ComparisonRow>)
    requires WellFormed(reg)
    requires SortedRows(t) && multiset(t) == multiset(UnsortedRows(reg, qs))
    ensures t == SortRows(UnsortedRows(reg, qs))
  {
    var u := UnsortedRows(reg, qs);
    UnsortedRowsDistinct(reg, qs);
    DistinctRowKeysPermutation(u, t);
    SortRowsProperties(u);
    SortedPermutationUnique(t, SortRows(u));
  }

  // ------------------------------------------------------------ relative differences

  /** The difference columns of one quantity: `<q>_rel_diff` (NaN when the
      reference value is zero) and `<q>_abs_diff`. */
  datatype QuantityDiff = QuantityDiff(quantity: string, relDiff: Option<real>, absDiff: real)

  /** One row of the difference table. */
  datatype DiffRow = DiffRow(caseName: string, implementation: string, reference: string, diffs: seq<QuantityDiff>)

  function Abs(x: real): real {
    if x < 0.0 then -x else x
  }

  /** `d` is the difference of quantity `d.quantity`, present in both records. */
  predicate IsDiffFor(ref: Record, r: Record, d: QuantityDiff) {
    var q := d.quantity;
    q in ref.values && q in r.values
    && d.absDiff == r.values[q] - ref.values[q]
    && (ref.values[q] == 0.0 ==> d.relDiff.None?)
    && (ref.values[q] != 0.0 ==> d.relDiff == Some(d.absDiff / Abs(ref.values[q])))
  }

  /** The difference columns of quantity `q`, present in both records. */
  function DiffOf(ref: Record, r: Record, q: string): QuantityDiff
    requires q in ref.values && q in r.values
  {
    var delta := r.values[q] - ref.values[q];
    QuantityDiff(q, if ref.values[q] != 0.0 then Some(delta / Abs(ref.values[q])) else None, delta)
  }

  /** The difference columns of one implementation's record against the
      reference: one per listed quantity present in both records. */
  function QuantityDiffs(ref: Record, r: Record, qs: seq<string>): seq<QuantityDiff>
    decreases |qs|
  {
    if qs == [] then []
    else
      var q := qs[|qs| - 1];
      QuantityDiffs(ref, r, qs[..|qs| - 1]) + if q in ref.values && q in r.values then [DiffOf(ref, r, q)] else []
  }

  /** Every column is the difference of a listed quantity present in both
      records, relative to the reference value (NaN when that is zero), and
      every listed quantity present in both has a column. */
  lemma {:induction false} QuantityDiffsProperties(ref: Record, r: Record, qs: seq<string>)
    ensures |QuantityDiffs(ref, r, qs)| <= |qs|
    ensures forall d :: d in QuantityDiffs(ref, r, qs) ==> d.quantity in qs && IsDiffFor(ref, r, d)
    ensures forall q :: q in qs && q in ref.values && q in r.values ==>
      exists d :: d in QuantityDiffs(ref, r, qs) && d.quantity == q
    decreases |qs|
  {
    if qs != [] {
      var init, q := qs[..|qs| - 1], qs[|qs| - 1];
      QuantityDiffsProperties(ref, r, init);
      var prefix := QuantityDiffs(ref, r, init);
      assert qs == init + [q];
      if q in ref.values && q in r.values {
        assert DiffOf(ref, r, q) in prefix + [DiffOf(ref, r, q)];
      } else {
        AppendEmpty(prefix);
      }
    }
  }

  /** One more quantity adds its column when both records hold it. */
  lemma QuantityDiffsStep(ref: Record, r: Record, qs: seq<string>, k: int)
    requires 0 <= k < |qs|
    ensures QuantityDiffs(ref, r, qs[..k + 1])
      == QuantityDiffs(ref, r, qs[..k]) + if qs[k] in ref.values && qs[k] in r.values then [DiffOf(ref, r, qs[k])] else []
  {
    assert qs[..k + 1][..k] == qs[..k];
  }

  /** The reference record of a case is present and succeeded. */
  predicate ReferenceOk(es: Entries, reference: string) {
    Find(es, reference).Some? && Succeeded(Find(es, reference).value)
  }

  /** The rows of one case whose reference record `ref` is usable. */
  function CandidateRows(caseName: string, es: Entries, reference: string, ref: Record, qs: seq<string>): seq<DiffRow>
    decreases |es|
  {
    if es == [] then []
    else
      var last := es[|es| - 1];
      CandidateRows(caseName, es[..|es| - 1], reference, ref, qs)
        + (if last.0 != reference && Succeeded(last.1)
           then [DiffRow(caseName, last.0, reference, QuantityDiffs(ref, last.1, qs))]
           else [])
  }

  /** The rows of one case: none when the reference is missing or failed. */
  function CaseDiffRows(caseName: string, es: Entries, reference: string, qs: seq<string>): seq<DiffRow> {
    if ReferenceOk(es, reference)
    then CandidateRows(caseName, es, reference, Find(es, reference).value, qs)
    else []
  }

  /** The difference table, in registry order. */
  function DiffTable(reg: Registry, reference: string, qs: seq<string>): seq<DiffRow>
    decreases |reg|
  {
    if reg == [] then []
    else DiffTable(reg[..|reg| - 1], reference, qs) + CaseDiffRows(reg[|reg| - 1].0, reg[|reg| - 1].1, reference, qs)
  }

  /** Row `row` compares record `j` of case `i` with that case's reference. */
  predicate IsDiffRowOf(reg: Registry, reference: string, qs: seq<string>, row: DiffRow, i: int, j: int) {
    0 <= i < |reg| && 0 <= j < |reg[i].1|
    && ReferenceOk(reg[i].1, reference)
    && reg[i].1[j].0 != reference && Succeeded(reg[i].1[j].1)
    && row == DiffRow(reg[i].0, reg[i].1[j].0, reference, QuantityDiffs(Find(reg[i].1, reference).value, reg[i].1[j].1, qs))
  }

  lemma {:induction false} CandidateRowsMembership(caseName: string, es: Entries, reference: string, ref: Record, qs: seq<string>)
    ensures forall row :: row in CandidateRows(caseName, es, reference, ref, qs) <==>
      exists j :: 0 <= j < |es| && es[j].0 != reference && Succeeded(es[j].1)
        && row == DiffRow(caseName, es[j].0, reference, QuantityDiffs(ref, es[j].1, qs))
    decreases |es|
  {
    if es != [] {
      var es' := es[..|es| - 1];
      CandidateRowsMembership(caseName, es', reference, ref, qs);
      assert forall j :: 0 <= j < |es'| ==> es'[j] == es[j];
    }
  }

  /** The difference table holds exactly one row per successful non-reference
      record of a case whose reference record is present and succeeded. */
  lemma {:induction false} DiffTableMembership(reg: Registry, reference: string, qs: seq<string>)
    ensures forall row :: row in DiffTable(reg, reference, qs) <==> exists i, j :: IsDiffRowOf(reg, reference, qs, row, i, j)
    decreases |reg|
  {
    if reg != [] {
      DiffTableMembership(reg[..|reg| - 1], reference, qs);
      forall row | row in DiffTable(reg, reference, qs)
        ensures exists i, j :: IsDiffRowOf(reg, reference, qs, row, i, j)
      {
        DiffRowSound(reg, reg[..|reg| - 1], reference, qs, row);
      }
      forall row, i, j | IsDiffRowOf(reg, reference, qs, row, i, j)
        ensures row in DiffTable(reg, reference, qs)
      {
        DiffRowComplete(reg, reg[..|reg| - 1], reference, qs, row, i, j);
      }
    }
  }

  /** A row of the table is a difference row of some case. */
  lemma DiffRowSound(reg: Registry, reg': Registry, reference: string, qs: seq<string>, row: DiffRow)
    requires reg != [] && reg' == reg[..|reg| - 1]
    requires row in DiffTable(reg', reference, qs) ==> exists i, j :: IsDiffRowOf(reg', reference, qs, row, i, j)
    requires row in DiffTable(reg, reference, qs)
    ensures exists i, j :: IsDiffRowOf(reg, reference, qs, row, i, j)
  {
    var c := reg[|reg| - 1];
    assert DiffTable(reg, reference, qs) == DiffTable(reg', reference, qs) + CaseDiffRows(c.0, c.1, reference, qs);
    if row in DiffTable(reg', reference, qs) {
      var i, j :| IsDiffRowOf(reg', reference, qs, row, i, j);
      assert IsDiffRowOf(reg, reference, qs, row, i, j);
    } else {
      assert row in CaseDiffRows(c.0, c.1, reference, qs);
      CandidateRowsMembership(c.0, c.1, reference, Find(c.1, reference).value, qs);
      var j :| 0 <= j < |c.1| && c.1[j].0 != reference && Succeeded(c.1[j].1)
        && row == DiffRow(c.0, c.1[j].0, reference, QuantityDiffs(Find(c.1, reference).value, c.1[j].1, qs));
      assert IsDiffRowOf(reg, reference, qs, row, |reg'|, j);
    }
  }

  /** A difference row of some case is a row of the table. */
  lemma DiffRowComplete(reg: Registry, reg': Registry, reference: string, qs: seq<string>, row: DiffRow, i: int, j: int)
    requires reg != [] && reg' == reg[..|reg| - 1]
    requires IsDiffRowOf(reg', reference, qs, row, i, j) ==> row in DiffTable(reg', reference, qs)
    requires IsDiffRowOf(reg, reference, qs, row, i, j)
    ensures row in DiffTable(reg, reference, qs)
  {
    var c := reg[|reg| - 1];
    assert DiffTable(reg, reference, qs) == DiffTable(reg', reference, qs) + CaseDiffRows(c.0, c.1, reference, qs);
    if i < |reg'| {
      assert IsDiffRowOf(reg', reference, qs, row, i, j);
    } else {
      CandidateRowsMembership(c.0, c.1, reference, Find(c.1, reference).value, qs);
      assert row in CandidateRows(c.0, c.1, reference, Find(c.1, reference).value, qs);
    }
  }

  /** A reference that is missing or failed in every case yields an empty table. */
  lemma {:induction false} DiffTableEmptyWithoutReference(reg: Registry, reference: string, qs: seq<string>)
    requires forall i :: 0 <= i < |reg| ==> !ReferenceOk(reg[i].1, reference)
    ensures DiffTable(reg, reference, qs) == []
    decreases |reg|
  {
    if reg != [] {
      DiffTableEmptyWithoutReference(reg[..|reg| - 1], reference, qs);
    }
  }

  // ------------------------------------------------------------ convergence summary

  /** A convergence cell: the record succeeded, failed, or does not exist. */
  datatype Mark = Converged | Failed | Absent

  /** The symbol a cell is written with. */
  function Symbol(m: Mark): string {
    match m
    case Converged => "\U{2713}"
    case Failed => "\U{2717}"
    case Absent => "-"
  }

  /** The cell of implementation `impl` in a case's records. */
  function MarkFor(es: Entries, impl: string): Mark {
    match Find(es, impl)
    case None => Absent
    case Some(r) => if Succeeded(r) then Converged else Failed
  }

  /** Every implementation key of every case, case by case. */
  function FlatKeys(reg: Registry): seq<string>
    decreases |reg|
  {
    if reg == [] then [] else FlatKeys(reg[..|reg| - 1]) + Keys(reg[|reg| - 1].1)
  }

  /** The union of the implementation keys of all cases. */
  function AllImplementations(reg: Registry): set<string> {
    set k | k in FlatKeys(reg)
  }

  lemma {:induction false} AllImplementationsMembership(reg: Registry, k: string)
    ensures k in AllImplementations(reg) <==> exists i :: 0 <= i < |reg| && k in Keys(reg[i].1)
    decreases |reg|
  {
    if reg != [] {
      var reg' := reg[..|reg| - 1];
      AllImplementationsMembership(reg', k);
      assert FlatKeys(reg) == FlatKeys(reg') + Keys(reg[|reg| - 1].1);
      assert forall i :: 0 <= i < |reg'| ==> reg'[i] == reg[i];
    }
  }

  predicate StrictlySorted(s: seq<string>) {
    forall i, j :: 0 <= i < j < |s| ==> LexLess(s[i], s[j])
  }

  /** Inserts a name into a strictly sorted list unless it is already there. */
  function InsertName(x: string, s: seq<string>): seq<string>
    decreases |s|
  {
    if s == [] then [x]
    else if x == s[0] then s
    else if LexLeq(x, s[0]) then [x] + s
    else [s[0]] + InsertName(x, s[1..])
  }

  /** `sorted(set(s))`. */
  function SortNames(s: seq<string>): seq<string>
    decreases |s|
  {
    if s == [] then [] else InsertName(s[0], SortNames(s[1..]))
  }

  lemma {:induction false} InsertNameProperties(x: string, s: seq<string>)
    requires StrictlySorted(s)
    ensures StrictlySorted(InsertName(x, s))
    ensures forall y :: y in InsertName(x, s) <==> y == x || y in s
    decreases |s|
  {
    if s != [] && x != s[0] {
      if LexLeq(x, s[0]) {
        forall j | 0 < j < |s|
          ensures LexLess(x, s[j])
        {
          LexLessLeqTransitive(x, s[0], s[j]);
        }
      } else {
        LexLeqTotal(x, s[0]);
        InsertNameProperties(x, s[1..]);
        var t := InsertName(x, s[1..]);
        forall j | 0 <= j < |t|
          ensures LexLess(s[0], t[j])
        {
          assert t[j] in t;
          if t[j] != x {
            var k :| 0 <= k < |s[1..]| && s[1..][k] == t[j];
            assert s[k + 1] == t[j];
          }
        }
        var r := [s[0]] + t;
        forall i, j | 0 <= i < j < |r|
          ensures LexLess(r[i], r[j])
        {
          if i > 0 {
            assert r[i] == t[i - 1] && r[j] == t[j - 1];
          }
        }
        assert s == [s[0]] + s[1..];
      }
    }
  }

  lemma {:induction false} SortNamesProperties(s: seq<string>)
    ensures StrictlySorted(SortNames(s))
    ensures forall y :: y in SortNames(s) <==> y in s
    decreases |s|
  {
    if s != [] {
      SortNamesProperties(s[1..]);
      InsertNameProperties(s[0], SortNames(s[1..]));
      assert s == [s[0]] + s[1..];
    }
  }

  lemma HeadIsMember<T>(s: seq<T>)
    requires s != []
    ensures s[0] in s
  {
  }

  /** A set of names has exactly one strictly sorted listing. */
  lemma {:induction false} StrictlySortedUnique(a: seq<string>, b: seq<string>)
    requires StrictlySorted(a) && StrictlySorted(b)
    requires forall y :: y in a <==> y in b
    ensures a == b
    decreases |a|
  {
    if a != [] && b != [] {
      assert a[0] in b && b[0] in a;
      if a[0] != b[0] {
        var ia :| 0 <= ia < |a| && a[ia] == b[0];
        var ib :| 0 <= ib < |b| && b[ib] == a[0];
        assert LexLess(a[0], b[0]) && LexLess(b[0], a[0]);
        LexLeqAntisymmetric(a[0], b[0]);
      }
      forall y
        ensures y in a[1..] <==> y in b[1..]
      {
        if y in a[1..] {
          var k :| 0 <= k < |a[1..]| && a[1..][k] == y;
          assert LexLess(a[0], a[k + 1]);
          assert y in b;
        }
        if y in b[1..] {
          var k :| 0 <= k < |b[1..]| && b[1..][k] == y;
          assert LexLess(b[0], b[k + 1]);
          assert y in a;
        }
      }
      StrictlySortedUnique(a[1..], b[1..]);
      assert a == [a[0]] + a[1..] && b == [b[0]] + b[1..];
    } else if a != [] {
      HeadIsMember(a);
      assert false;
    } else if b != [] {
      HeadIsMember(b);
      assert false;
    }
  }

  /** The columns of the convergence summary: all implementations, sorted. */
  function Columns(reg: Registry): seq<string> {
    SortNames(FlatKeys(reg))
  }

  /** One row of the convergence summary: the case and one cell per column. */
  datatype ConvergenceRow = ConvergenceRow(caseName: string, cells: seq<(string, Mark)>)

  function RowMarks(es: Entries, names: seq<string>): seq<(string, Mark)> {
    seq(|names|, j requires 0 <= j < |names| => (names[j], MarkFor(es, names[j])))
  }

  /** The convergence summary: one row per case, in registry order. */
  function ConvergenceSummary(reg: Registry): seq<ConvergenceRow> {
    var names := Columns(reg);
    seq(|reg|, i requires 0 <= i < |reg| => ConvergenceRow(reg[i].0, RowMarks(reg[i].1, names)))
  }

  /** The summary's columns list every implementation seen in any case, each
      once, in sorted order; a cell is absent exactly where the case has no
      record for that implementation. */
  lemma ConvergenceColumns(reg: Registry, i: int, j: int)
    requires 0 <= i < |reg|
    ensures StrictlySorted(Columns(reg))
    ensures forall k :: k in Columns(reg) <==> exists c :: 0 <= c < |reg| && k in Keys(reg[c].1)
    ensures 0 <= j < |Columns(reg)| ==>
      (ConvergenceSummary(reg)[i].cells[j].1 == Absent <==> Columns(reg)[j] !in Keys(reg[i].1))
  {
    SortNamesProperties(FlatKeys(reg));
    forall k
      ensures k in Columns(reg) <==> exists c :: 0 <= c < |reg| && k in Keys(reg[c].1)
    {
      AllImplementationsMembership(reg, k);
    }
  }

  /** The convergence summary and the comparison table agree: a case's cell for
      an implementation is a success mark iff the comparison table has a row
      for that case and implementation. */
  lemma ConvergedIffCompared(reg: Registry, qs: seq<string>, i: int, impl: string)
    requires WellFormed(reg) && 0 <= i < |reg|
    ensures MarkFor(reg[i].1, impl) == Converged <==>
      exists row :: row in UnsortedRows(reg, qs) && row.caseName == reg[i].0 && row.implementation == impl
  {
    UnsortedRowsProperties(reg, qs);
    var es := reg[i].1;
    if MarkFor(es, impl) == Converged {
      var r := Find(es, impl).value;
      var j :| 0 <= j < |es| && es[j] == (impl, r);
      assert IsRowOf(reg, qs, RowOf(reg[i].0, impl, r, qs), i, j);
    }
    if exists row :: row in UnsortedRows(reg, qs) && row.caseName == reg[i].0 && row.implementation == impl {
      var row :| row in UnsortedRows(reg, qs) && row.caseName == reg[i].0 && row.implementation == impl;
      var c, j :| IsRowOf(reg, qs, row, c, j);
      assert c == i;
      FindDistinct(es, j);
    }
  }

  // ------------------------------------------------------------ choice of reference

  /** The implementations that succeeded somewhere, in first-seen order: the
      key order of the report's success-count dictionary. */
  function SuccessOrder(reg: Registry): seq<string> {
    FirstByKey(SuccessNames(reg), Itself)
  }

  /** `k` has the largest success count and no implementation seen before it
      has as many: the value of `max(counts, key=counts.get)`. */
  predicate IsFirstMostSuccessful(reg: Registry, k: string) {
    var order := SuccessOrder(reg);
    (exists p :: 0 <= p < |order| && order[p] == k
      && forall j :: 0 <= j < p ==> SuccessCount(reg, order[j]) < SuccessCount(reg, k))
    && forall x :: x in SuccessNames(reg) ==> SuccessCount(reg, x) <= SuccessCount(reg, k)
  }

  lemma KeysOfItself<T>(s: seq<T>)
    ensures KeysOf(s, Itself) == s
  {
    forall i | 0 <= i < |s|
      ensures KeysOf(s, Itself)[i] == s[i]
    {
      assert Itself(s[i]) == s[i];
    }
  }

  /** At most one implementation is the first most successful. */
  lemma ReferenceUnique(reg: Registry, a: string, b: string)
    requires IsFirstMostSuccessful(reg, a) && IsFirstMostSuccessful(reg, b)
    ensures a == b
  {
    var order := SuccessOrder(reg);
    FirstByKeyProperties(SuccessNames(reg), Itself);
    KeysOfItself(order);
    KeysOfItself(SuccessNames(reg));
    var pa :| 0 <= pa < |order| && order[pa] == a
      && forall j :: 0 <= j < pa ==> SuccessCount(reg, order[j]) < SuccessCount(reg, a);
    var pb :| 0 <= pb < |order| && order[pb] == b
      && forall j :: 0 <= j < pb ==> SuccessCount(reg, order[j]) < SuccessCount(reg, b);
    assert HasKey(order, Itself, a) && HasKey(order, Itself, b);
    assert a in SuccessNames(reg) && b in SuccessNames(reg);
    assert SuccessCount(reg, a) == SuccessCount(reg, b);
    if pa < pb || pb < pa {
      assert false;
    }
  }

  /** The chosen reference succeeded in some case, so that case contributes rows
      to the difference table. */
  lemma ReferenceSucceededSomewhere(reg: Registry, k: string)
    requires WellFormed(reg) && IsFirstMostSuccessful(reg, k)
    ensures exists i :: 0 <= i < |reg| && ReferenceOk(reg[i].1, k)
  {
    var order := SuccessOrder(reg);
    FirstByKeyProperties(SuccessNames(reg), Itself);
    KeysOfItself(order);
    KeysOfItself(SuccessNames(reg));
    assert HasKey(order, Itself, k);
    SuccessNamesMembership(reg, k);
    var i, j :| IsSuccessAt(reg, i, j) && reg[i].1[j].0 == k;
    FindDistinct(reg[i].1, j);
  }

  /** The success-count dictionary after `seen`: keys in first-seen order,
      each mapped to its number of occurrences. */
  ghost predicate CountsOf(counts: seq<(string, int)>, seen: seq<string>) {
    Keys(counts) == FirstByKey(seen, Itself)
    && forall x :: Find(counts, x) == Occurrences(seen, x)
  }

  /** How often `x` occurs in `seen`, when it does. */
  ghost function Occurrences(seen: seq<string>, x: string): Option<int> {
    if x in seen then Some(multiset(seen)[x]) else None
  }

  lemma OccurrencesSnoc(seen: seq<string>, impl: string, x: string)
    ensures Occurrences(seen + [impl], x)
      == if x == impl then Some(Occurrences(seen, x).GetOr(0) + 1) else Occurrences(seen, x)
  {
    assert multiset(seen + [impl]) == multiset(seen) + multiset{impl};
  }

  lemma FirstByKeyItself(seen: seq<string>, x: string)
    ensures x in FirstByKey(seen, Itself) <==> x in seen
    ensures Distinct(FirstByKey(seen, Itself))
  {
    FirstByKeyProperties(seen, Itself);
    KeysOfItself(seen);
    KeysOfItself(FirstByKey(seen, Itself));
    assert HasKey(seen, Itself, x) <==> x in seen;
  }

  lemma CountStepKeys(counts: seq<(string, int)>, seen: seq<string>, impl: string, v: int)
    requires Keys(counts) == FirstByKey(seen, Itself)
    ensures Keys(Put(counts, impl, v)) == FirstByKey(seen + [impl], Itself)
  {
    var seen' := seen + [impl];
    assert seen'[..|seen|] == seen;
    PutKeys(counts, impl, v);
    FirstByKeyItself(seen, impl);
    KeysOfItself(FirstByKey(seen, Itself));
    assert HasKey(FirstByKey(seen, Itself), Itself, impl) <==> impl in Keys(counts);
  }

  lemma CountStepFind(counts: seq<(string, int)>, seen: seq<string>, impl: string, v: int)
    requires forall y :: Find(counts, y) == Occurrences(seen, y)
    requires v == Find(counts, impl).GetOr(0) + 1
    ensures forall x :: Find(Put(counts, impl, v), x) == Occurrences(seen + [impl], x)
  {
    forall x
      ensures Find(Put(counts, impl, v), x) == Occurrences(seen + [impl], x)
    {
      PutFind(counts, impl, v, x);
      OccurrencesSnoc(seen, impl, x);
    }
  }

  /** The dictionary `counts[impl] = counts.get(impl, 0) + 1` builds over
      the names in `seen`, starting empty. */
  function Tally(seen: seq<string>): seq<(string, int)>
    decreases |seen|
  {
    if seen == [] then []
    else
      var counts := Tally(seen[..|seen| - 1]);
      var impl := seen[|seen| - 1];
      Put(counts, impl, Find(counts, impl).GetOr(0) + 1)
  }

  lemma TallySnoc(seen: seq<string>, impl: string)
    ensures Tally(seen + [impl]) == Put(Tally(seen), impl, Find(Tally(seen), impl).GetOr(0) + 1)
  {
    assert (seen + [impl])[..|seen|] == seen;
  }

  lemma {:induction false} TallyKeys(seen: seq<string>)
    ensures Keys(Tally(seen)) == FirstByKey(seen, Itself)
    decreases |seen|
  {
    if seen != [] {
      var init, impl := seen[..|seen| - 1], seen[|seen| - 1];
      TallyKeys(init);
      assert seen == init + [impl];
      TallySnoc(init, impl);
      CountStepKeys(Tally(init), init, impl, Find(Tally(init), impl).GetOr(0) + 1);
    }
  }

  lemma {:induction false} TallyFind(seen: seq<string>)
    ensures forall x :: Find(Tally(seen), x) == Occurrences(seen, x)
    decreases |seen|
  {
    if seen != [] {
      var init, impl := seen[..|seen| - 1], seen[|seen| - 1];
      TallyFind(init);
      assert seen == init + [impl];
      TallySnoc(init, impl);
      CountStepFind(Tally(init), init, impl, Find(Tally(init), impl).GetOr(0) + 1);
    }
  }

  /** Counting name by name gives every name seen its number of occurrences,
      the keys in first-seen order. */
  lemma TallyCounts(seen: seq<string>)
    ensures CountsOf(Tally(seen), seen)
  {
    TallyKeys(seen);
    TallyFind(seen);
  }

  lemma FirstByKeyEmpty(seen: seq<string>)
    requires FirstByKey(seen, Itself) == []
    ensures seen == []
  {
    if seen != [] {
      FirstByKeyItself(seen, seen[0]);
    }
  }

  /** Each entry of the dictionary holds the success count of its key. */
  lemma CountAt(reg: Registry, counts: seq<(string, int)>, j: int)
    requires CountsOf(counts, SuccessNames(reg)) && 0 <= j < |counts|
    ensures counts[j].0 in SuccessNames(reg)
    ensures counts[j].1 == SuccessCount(reg, counts[j].0)
  {
    var seen := SuccessNames(reg);
    FirstByKeyItself(seen, counts[j].0);
    forall a, b | 0 <= a < b < |counts|
      ensures counts[a].0 != counts[b].0
    {
      assert Keys(counts)[a] == counts[a].0 && Keys(counts)[b] == counts[b].0;
    }
    assert Keys(counts)[j] == counts[j].0;
    FindDistinct(counts, j);
  }

  /** Every implementation that succeeded somewhere has an entry. */
  lemma CountCovers(reg: Registry, counts: seq<(string, int)>, x: string) returns (j: int)
    requires CountsOf(counts, SuccessNames(reg)) && x in SuccessNames(reg)
    ensures 0 <= j < |counts| && counts[j].0 == x
  {
    FirstByKeyItself(SuccessNames(reg), x);
    assert x in Keys(counts);
    j :| 0 <= j < |counts| && Keys(counts)[j] == x;
  }

  /** The first maximum of the counts, in key order, is the first most
      successful implementation. */
  lemma MaxIsFirstMostSuccessful(reg: Registry, counts: seq<(string, int)>, best: int)
    requires CountsOf(counts, SuccessNames(reg))
    requires 0 <= best < |counts|
    requires forall j :: 0 <= j < |counts| ==> counts[j].1 <= counts[best].1
    requires forall j :: 0 <= j < best ==> counts[j].1 < counts[best].1
    ensures SuccessNames(reg) != []
    ensures IsFirstMostSuccessful(reg, counts[best].0)
  {
    var order := SuccessOrder(reg);
    var k := counts[best].0;
    CountAt(reg, counts, best);
    forall j | 0 <= j < best
      ensures SuccessCount(reg, order[j]) < SuccessCount(reg, k)
    {
      assert order[j] == Keys(counts)[j] == counts[j].0;
      CountAt(reg, counts, j);
    }
    forall x | x in SuccessNames(reg)
      ensures SuccessCount(reg, x) <= SuccessCount(reg, k)
    {
      var j := CountCovers(reg, counts, x);
      CountAt(reg, counts, j);
    }
    assert order[best] == Keys(counts)[best] == k;
  }

  // ------------------------------------------------------------ summary statistics

  /** The first difference entry of quantity `q` in a row. */
  function DiffFor(ds: seq<QuantityDiff>, q: string): Option<QuantityDiff>
    decreases |ds|
  {
    if ds == [] then None else if ds[0].quantity == q then Some(ds[0]) else DiffFor(ds[1..], q)
  }

  /** Some row has a `<q>_rel_diff` column. */
  predicate HasRelColumn(rows: seq<DiffRow>, q: string) {
    exists r :: r in rows && DiffFor(r.diffs, q).Some?
  }

  /** The non-NaN entries of the `<q>_rel_diff` column, in row order. */
  function RelValues(rows: seq<DiffRow>, q: string): seq<real>
    decreases |rows|
  {
    if rows == [] then []
    else
      RelValues(rows[..|rows| - 1], q)
        + match DiffFor(rows[|rows| - 1].diffs, q)
          case Some(QuantityDiff(_, Some(v), _)) => [v]
          case _ => []
  }

  /** The largest value, NaN for an empty column. */
  function MaxOf(s: seq<real>): (m: Option<real>)
    ensures m.None? <==> s == []
    ensures m.Some? ==> m.value in s && forall x :: x in s ==> x <= m.value
    decreases |s|
  {
    if s == [] then None
    else
      assert s == s[..|s| - 1] + [s[|s| - 1]];
      match MaxOf(s[..|s| - 1])
      case None => Some(s[|s| - 1])
      case Some(m) => if s[|s| - 1] > m then Some(s[|s| - 1]) else Some(m)
  }

  /** The smallest value, NaN for an empty column. */
  function MinOf(s: seq<real>): (m: Option<real>)
    ensures m.None? <==> s == []
    ensures m.Some? ==> m.value in s && forall x :: x in s ==> m.value <= x
    decreases |s|
  {
    if s == [] then None
    else
      assert s == s[..|s| - 1] + [s[|s| - 1]];
      match MinOf(s[..|s| - 1])
      case None => Some(s[|s| - 1])
      case Some(m) => if s[|s| - 1] < m then Some(s[|s| - 1]) else Some(m)
  }

  /** The maximum and minimum relative difference of one quantity. */
  datatype Stat = Stat(quantity: string, max: Option<real>, min: Option<real>)

  /** One statistics block per quantity that has a relative-difference column. */
  function StatsFor(rows: seq<DiffRow>, qs: seq<string>): seq<Stat>
    decreases |qs|
  {
    if qs == [] then []
    else
      var q := qs[|qs| - 1];
      StatsFor(rows, qs[..|qs| - 1])
        + if HasRelColumn(rows, q) then [Stat(q, MaxOf(RelValues(rows, q)), MinOf(RelValues(rows, q)))] else []
  }

  // ------------------------------------------------------------ the report

  /** The content of the markdown report: the convergence summary, the sorted
      comparison table, the reference chosen (none when nothing succeeded), the
      differences against it and the statistics block per quantity. */
  datatype Report = Report(
    convergence: seq<ConvergenceRow>,
    comparison: seq<ComparisonRow>,
    reference: Option<string>,
    differences: seq<DiffRow>,
    statistics: seq<Stat>)

  /** `sorted(names)` for a set of names. */
  method SortedNames(names: set<string>) returns (sorted: seq<string>)
    ensures StrictlySorted(sorted)
    ensures forall k :: k in sorted <==> k in names
  {
    sorted := [];
    var rest := names;
    while rest != {}
      invariant rest <= names
      invariant StrictlySorted(sorted)
      invariant forall k :: k in sorted <==> k in names && k !in rest
      decreases rest
    {
      var x :| x in rest;
      InsertNameProperties(x, sorted);
      sorted := InsertName(x, sorted);
      rest := rest - {x};
    }
  }

  /** The quantity cells of one comparison row. */
  method CellsOf(r: Record, qs: seq<string>) returns (cells: seq<Option<real>>)
    ensures |cells| == |qs|
    ensures forall k :: 0 <= k < |qs| ==> cells[k] == Cell(r, qs[k])
  {
    cells := [];
    for k := 0 to |qs|
      invariant |cells| == k
      invariant forall m :: 0 <= m < k ==> cells[m] == Cell(r, qs[m])
    {
      if qs[k] in r.values {
        cells := cells + [Some(r.values[qs[k]])];
      } else {
        cells := cells + [None];
      }
    }
  }

  /** The difference columns of one record against the reference record. */
  method DiffsOf(ref: Record, r: Record, qs: seq<string>) returns (diffs: seq<QuantityDiff>)
    ensures diffs == QuantityDiffs(ref, r, qs)
  {
    diffs := [];
    for k := 0 to |qs|
      invariant diffs == QuantityDiffs(ref, r, qs[..k])
    {
      QuantityDiffsStep(ref, r, qs, k);
      var q := qs[k];
      if q in ref.values && q in r.values {
        var refVal, val := ref.values[q], r.values[q];
        var d: QuantityDiff;
        if refVal != 0.0 {
          d := QuantityDiff(q, Some((val - refVal) / Abs(refVal)), val - refVal);
        } else {
          d := QuantityDiff(q, None, val - refVal);
        }
        assert d == DiffOf(ref, r, q);
        diffs := diffs + [d];
      } else {
        AppendEmpty(diffs);
      }
    }
    assert qs[..|qs|] == qs;
  }

  lemma CaseSuccessStep(seen: seq<string>, entries: Entries, j: int)
    requires 0 <= j < |entries|
    ensures Succeeded(entries[j].1) ==>
      seen + CaseSuccessNames(entries[..j + 1]) == seen + CaseSuccessNames(entries[..j]) + [entries[j].0]
    ensures !Succeeded(entries[j].1) ==>
      seen + CaseSuccessNames(entries[..j + 1]) == seen + CaseSuccessNames(entries[..j])
  {
    assert entries[..j + 1][..j] == entries[..j];
  }

  /** The difference rows of one case whose reference record `ref` succeeded. */
  method CaseDifferences(caseName: string, entries: Entries, reference: string, ref: Record, qs: seq<string>)
    returns (rows: seq<DiffRow>)
    ensures rows == CandidateRows(caseName, entries, reference, ref, qs)
  {
    rows := [];
    for j := 0 to |entries|
      invariant rows == CandidateRows(caseName, entries[..j], reference, ref, qs)
    {
      assert entries[..j + 1][..j] == entries[..j];
      var impl, r := entries[j].0, entries[j].1;
      if impl == reference {
        continue;
      }
      if r.success != Some(true) {
        continue;
      }
      var diffs := DiffsOf(ref, r, qs);
      rows := rows + [DiffRow(caseName, impl, reference, diffs)];
    }
    assert entries[..|entries|] == entries;
  }

  /** Counting one more record of a case counts it when it succeeded. */
  lemma TallyCaseStep(seen: seq<string>, entries: Entries, j: int)
    requires 0 <= j < |entries|
    ensures var before := Tally(seen + CaseSuccessNames(entries[..j]));
      Tally(seen + CaseSuccessNames(entries[..j + 1]))
        == if Succeeded(entries[j].1) then Put(before, entries[j].0, Find(before, entries[j].0).GetOr(0) + 1)
           else before
  {
    CaseSuccessStep(seen, entries, j);
    if Succeeded(entries[j].1) {
      TallySnoc(seen + CaseSuccessNames(entries[..j]), entries[j].0);
    }
  }

  /** Adds one case's successful records to the success-count dictionary. */
  method CountCase(counts: seq<(string, int)>, entries: Entries, ghost seen: seq<string>)
    returns (counts': seq<(string, int)>)
    requires counts == Tally(seen)
    ensures counts' == Tally(seen + CaseSuccessNames(entries))
  {
    counts' := counts;
    assert seen + CaseSuccessNames(entries[..0]) == seen;
    for j := 0 to |entries|
      invariant counts' == Tally(seen + CaseSuccessNames(entries[..j]))
    {
      var impl := entries[j].0;
      TallyCaseStep(seen, entries, j);
      if entries[j].1.success == Some(true) {
        counts' := Put(counts', impl, Find(counts', impl).GetOr(0) + 1);
      }
    }
    assert entries[..|entries|] == entries;
  }

  /** Compares the results of one benchmark run across implementations. */
  class ResultsComparator {
    const results: Registry
    const keyQuantities: seq<string> := KeyQuantities

    constructor (results: Registry)
      ensures this.results == results
    {
      this.results := results;
    }

    /** The comparison table: a row per successful record with the value of
        each quantity (NaN when missing), sorted by case and implementation. */
    method CreateComparisonTable(quantities: Option<seq<string>>) returns (table: seq<ComparisonRow>)
      ensures var qs := quantities.GetOr(keyQuantities);
        && table == SortRows(UnsortedRows(results, qs))
        && SortedRows(table)
        && multiset(table) == multiset(UnsortedRows(results, qs))
        && |table| == |SuccessNames(results)|
        && forall row :: row in table <==> exists i, j :: IsRowOf(results, qs, row, i, j)
    {
      var qs := if quantities.None? then keyQuantities else quantities.value;
      var rows: seq<ComparisonRow> := [];
      for i := 0 to |results|
        invariant rows == UnsortedRows(results[..i], qs)
      {
        var caseName, entries := results[i].0, results[i].1;
        for j := 0 to |entries|
          invariant rows == UnsortedRows(results[..i], qs) + CaseRows(caseName, entries[..j], qs)
        {
          var impl, r := entries[j].0, entries[j].1;
          if r.success == Some(true) {
            var cells := CellsOf(r, qs);
            assert cells == RowOf(caseName, impl, r, qs).cells;
            rows := rows + [ComparisonRow(caseName, impl, cells)];
          }
          assert entries[..j + 1][..j] == entries[..j];
        }
        assert entries[..|entries|] == entries;
        assert results[..i + 1][..i] == results[..i];
      }
      assert results[..|results|] == results;
      if rows != [] {
        table := SortRows(rows);
      } else {
        table := rows;
      }
      SortRowsProperties(rows);
      UnsortedRowsProperties(results, qs);
      MultisetSameLength(table, rows);
      forall row
        ensures row in table <==> row in rows
      {
        assert row in table <==> row in multiset(table);
      }
    }

    /** The difference table against `reference`: for every case whose
        reference record exists and succeeded, a row per other successful
        record with the absolute and relative difference of each quantity both
        records hold. */
    method CalculateRelativeDifferences(reference: string, quantities: Option<seq<string>>) returns (table: seq<DiffRow>)
      ensures var qs := quantities.GetOr(keyQuantities);
        && table == DiffTable(results, reference, qs)
        && (forall row :: row in table <==> exists i, j :: IsDiffRowOf(results, reference, qs, row, i, j))
        && ((forall i :: 0 <= i < |results| ==> !ReferenceOk(results[i].1, reference)) ==> table == [])
    {
      var qs := if quantities.None? then keyQuantities else quantities.value;
      table := [];
      for i := 0 to |results|
        invariant table == DiffTable(results[..i], reference, qs)
      {
        assert results[..i + 1][..i] == results[..i];
        var caseName, entries := results[i].0, results[i].1;
        var found := Find(entries, reference);
        if found.None? {
          continue;
        }
        var ref := found.value;
        if ref.success != Some(true) {
          continue;
        }
        var rows := CaseDifferences(caseName, entries, reference, ref, qs);
        table := table + rows;
      }
      assert results[..|results|] == results;
      DiffTableMembership(results, reference, qs);
      if forall i :: 0 <= i < |results| ==> !ReferenceOk(results[i].1, reference) {
        DiffTableEmptyWithoutReference(results, reference, qs);
      }
    }

    /** The convergence matrix: a row per case and a column per implementation
        seen anywhere, in sorted order, each cell telling success, failure or
        absence of that record. */
    method GetConvergenceSummary() returns (summary: seq<ConvergenceRow>)
      ensures summary == ConvergenceSummary(results)
    {
      var allImpls: set<string> := {};
      for i := 0 to |results|
        invariant allImpls == AllImplementations(results[..i])
      {
        assert results[..i + 1][..i] == results[..i];
        assert FlatKeys(results[..i + 1]) == FlatKeys(results[..i]) + Keys(results[i].1);
        allImpls := allImpls + set k | k in Keys(results[i].1);
      }
      assert results[..|results|] == results;
      var names := SortedNames(allImpls);
      SortNamesProperties(FlatKeys(results));
      StrictlySortedUnique(names, Columns(results));
      summary := [];
      for i := 0 to |results|
        invariant |summary| == i
        invariant forall c :: 0 <= c < i ==> summary[c] == ConvergenceRow(results[c].0, RowMarks(results[c].1, names))
      {
        var caseName, entries := results[i].0, results[i].1;
        var cells: seq<(string, Mark)> := [];
        for j := 0 to |names|
          invariant cells == RowMarks(entries, names[..j])
        {
          var impl := names[j];
          var mark: Mark;
          var found := Find(entries, impl);
          if found.Some? {
            mark := if found.value.success == Some(true) then Converged else Failed;
          } else {
            mark := Absent;
          }
          cells := cells + [(impl, mark)];
        }
        assert names[..|names|] == names;
        summary := summary + [ConvergenceRow(caseName, cells)];
      }
    }

    /** The implementation with the most successful records, the first one
        reached on a tie; none when nothing succeeded. */
    method ChooseReference() returns (reference: Option<string>)
      ensures reference.None? <==> SuccessNames(results) == []
      ensures reference.Some? ==> IsFirstMostSuccessful(results, reference.value)
    {
      var counts: seq<(string, int)> := [];
      for i := 0 to |results|
        invariant counts == Tally(SuccessNames(results[..i]))
      {
        assert results[..i + 1][..i] == results[..i];
        counts := CountCase(counts, results[i].1, SuccessNames(results[..i]));
      }
      assert results[..|results|] == results;
      ghost var seen := SuccessNames(results);
      TallyCounts(seen);
      if |counts| == 0 {
        assert Keys(counts) == [];
        FirstByKeyEmpty(seen);
        return None;
      }
      var best := 0;
      for p := 1 to |counts|
        invariant 0 <= best < p
        invariant forall j :: 0 <= j < p ==> counts[j].1 <= counts[best].1
        invariant forall j :: 0 <= j < best ==> counts[j].1 < counts[best].1
      {
        if counts[p].1 > counts[best].1 {
          best := p;
        }
      }
      reference := Some(counts[best].0);
      MaxIsFirstMostSuccessful(results, counts, best);
    }

    /** The report: convergence summary, comparison table over the key
        quantities, the reference chosen and, when the difference table against
        it is not empty, the statistics of each relative-difference column. */
    method GenerateReport() returns (report: Report)
      ensures report.convergence == ConvergenceSummary(results)
      ensures report.comparison == SortRows(UnsortedRows(results, KeyQuantities))
      ensures report.reference.None? <==> SuccessNames(results) == []
      ensures report.reference.Some? ==> IsFirstMostSuccessful(results, report.reference.value)
      ensures report.differences == match report.reference
        case None => []
        case Some(k) => DiffTable(results, k, KeyQuantities)
      ensures report.statistics == if report.differences == [] then [] else StatsFor(report.differences, KeyQuantities)
    {
      var convergence := GetConvergenceSummary();
      var comparison := CreateComparisonTable(None);
      var reference := ChooseReference();
      var differences: seq<DiffRow> := [];
      var statistics: seq<Stat> := [];
      if reference.Some? {
        differences := CalculateRelativeDifferences(reference.value, None);
        if differences != [] {
          statistics := StatsFor(differences, keyQuantities);
        }
      }
      report := Report(convergence, comparison, reference, differences, statistics);
    }
  }
}
