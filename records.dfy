/** The result record of one (case, implementation) run and the nested
    registry `case -> implementation -> record` that the orchestrator fills and
    the comparator reads. Python dictionaries are modelled as sequences of
    (key, value) pairs in insertion order, since that order drives every table. */
module Records {
  import opened Wrappers

  /** The `'error'` entry of a record: no key, the key bound to `None`, or a message. */
  datatype ErrorSlot = NoError | NullError | ErrorText(text: string)

  /** One result dictionary. `success` is `None` when the key is missing; the
      `'implementation'` and `'case'` keys are added by the orchestrator;
      `values` holds the scalar quantities (`wb`, `aspect`, ...). */
  datatype Record = Record(
    success: Option<bool>,
    error: ErrorSlot,
    values: map<string, real>,
    implementation: Option<string>,
    caseName: Option<string>)

  /** `record.get('success', False)` is truthy. */
  predicate Succeeded(r: Record) {
    r.success == Some(true)
  }

  /** The records of one case, keyed by implementation. */
  type Entries = seq<(string, Record)>

  /** The results of a benchmark run, keyed by case. */
  type Registry = seq<(string, Entries)>

  /** The keys of a dictionary, in insertion order. */
  function Keys<V>(d: seq<(string, V)>): seq<string> {
    seq(|d|, i requires 0 <= i < |d| => d[i].0)
  }

  /** `d.get(k)`: the value of the first entry with key `k`. */
  function Find<V>(d: seq<(string, V)>, k: string): (r: Option<V>)
    ensures r.None? <==> k !in Keys(d)
    ensures r.Some? ==> (k, r.value) in d
    decreases |d|
  {
    if d == [] then None
    else if d[0].0 == k then
      assert Keys(d)[0] == k;
      Some(d[0].1)
    else
      assert Keys(d) == [d[0].0] + Keys(d[1..]);
      Find(d[1..], k)
  }

  /** `d[k] = v`: overwrite the value of an existing key in place, or append. */
  function Put<V>(d: seq<(string, V)>, k: string, v: V): seq<(string, V)>
    decreases |d|
  {
    if d == [] then [(k, v)]
    else if d[0].0 == k then [(k, v)] + d[1..]
    else [d[0]] + Put(d[1..], k, v)
  }

  /** After `d[k] = v`, `k` finds `v` and every other key finds what it found before. */
  lemma {:induction false} PutFind<V>(d: seq<(string, V)>, k: string, v: V, k2: string)
    ensures Find(Put(d, k, v), k2) == if k2 == k then Some(v) else Find(d, k2)
    decreases |d|
  {
    if d != [] && d[0].0 != k {
      PutFind(d[1..], k, v, k2);
    }
  }

  /** `d[k] = v` keeps the key order and appends a new key at the end. */
  lemma {:induction false} PutKeys<V>(d: seq<(string, V)>, k: string, v: V)
    ensures Keys(Put(d, k, v)) == if k in Keys(d) then Keys(d) else Keys(d) + [k]
    decreases |d|
  {
    if d != [] {
      assert Keys(d) == [d[0].0] + Keys(d[1..]);
      if d[0].0 == k {
        assert Keys([(k, v)] + d[1..]) == [k] + Keys(d[1..]);
      } else {
        PutKeys(d[1..], k, v);
        assert Keys([d[0]] + Put(d[1..], k, v)) == [d[0].0] + Keys(Put(d[1..], k, v));
      }
    }
  }

  /** Python dictionaries have pairwise distinct keys at both levels. */
  predicate WellFormed(reg: Registry) {
    (forall i, j :: 0 <= i < j < |reg| ==> reg[i].0 != reg[j].0)
    && forall c :: 0 <= c < |reg| ==> forall i, j :: 0 <= i < j < |reg[c].1| ==> reg[c].1[i].0 != reg[c].1[j].0
  }

  /** With distinct keys, every entry is what a lookup of its key finds. */
  lemma {:induction false} FindDistinct<V>(d: seq<(string, V)>, j: int)
    requires 0 <= j < |d|
    requires forall a, b :: 0 <= a < b < |d| ==> d[a].0 != d[b].0
    ensures Find(d, d[j].0) == Some(d[j].1)
    decreases |d|
  {
    if j > 0 {
      FindDistinct(d[1..], j - 1);
    }
  }
}
