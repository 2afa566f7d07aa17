/** List idioms of the benchmark code: the `seen`-set de-duplication that keeps
    the first element per key, and the filtering list comprehension. */
module Sequences {

  function Itself<T>(x: T): T { x }

  predicate Distinct<T(==)>(s: seq<T>) {
    forall i, j :: 0 <= i < j < |s| ==> s[i] != s[j]
  }

  /** The key of every element, in order (`[key(x) for x in s]`). */
  function KeysOf<T, K>(s: seq<T>, key: T -> K): seq<K> {
    seq(|s|, i requires 0 <= i < |s| => key(s[i]))
  }

  /** `a` is `b` with some elements left out and the rest kept in order. */
  predicate Subsequence<T(==)>(a: seq<T>, b: seq<T>)
    decreases |b|
  {
    if a == [] then true
    else if b == [] then false
    else if a[|a| - 1] == b[|b| - 1] then Subsequence(a[..|a| - 1], b[..|b| - 1])
    else Subsequence(a, b[..|b| - 1])
  }

  lemma {:induction false} SubsequenceExtend<T>(a: seq<T>, b: seq<T>, x: T)
    requires Subsequence(a, b)
    ensures Subsequence(a, b + [x])
    decreases |b|, 1
  {
    assert (b + [x])[..|b|] == b;
    if a != [] && a[|a| - 1] == x {
      SubsequenceDropLast(a, b);
    }
  }

  lemma {:induction false} SubsequenceDropLast<T>(a: seq<T>, b: seq<T>)
    requires Subsequence(a, b) && a != []
    ensures Subsequence(a[..|a| - 1], b)
    decreases |b|, 0
  {
    var b' := b[..|b| - 1];
    assert b == b' + [b[|b| - 1]];
    if a[|a| - 1] == b[|b| - 1] {
      SubsequenceExtend(a[..|a| - 1], b', b[|b| - 1]);
    } else {
      SubsequenceDropLast(a, b');
      SubsequenceExtend(a[..|a| - 1], b', b[|b| - 1]);
    }
  }

  /** Some element of `s` has key `k`. */
  predicate HasKey<T, K(==)>(s: seq<T>, key: T -> K, k: K) {
    k in KeysOf(s, key)
  }

  /** Keeps, for every key, the first element carrying it, in first-seen order:
      `seen = set(); for x in s: if key(x) not in seen: seen.add(key(x)); out.append(x)`. */
  function FirstByKey<T, K(==)>(s: seq<T>, key: T -> K): seq<T>
    decreases |s|
  {
    if s == [] then []
    else
      var kept := FirstByKey(s[..|s| - 1], key);
      if HasKey(kept, key, key(s[|s| - 1])) then kept else kept + [s[|s| - 1]]
  }

  /** `s[i]` is the first element of `s` with its key. */
  predicate IsFirstOfKey<T, K(==)>(s: seq<T>, i: int, key: T -> K) {
    0 <= i < |s| && forall j :: 0 <= j < i ==> key(s[j]) != key(s[i])
  }

  lemma HasKeyAppend<T, K>(s: seq<T>, x: T, key: T -> K, k: K)
    ensures HasKey(s + [x], key, k) <==> HasKey(s, key, k) || key(x) == k
  {
    assert KeysOf(s + [x], key) == KeysOf(s, key) + [key(x)];
  }

  /** De-duplication by key: the kept keys are pairwise distinct, every key of
      the input is kept, order is preserved, and each kept element is the first
      one seen with its key. */
  lemma {:induction false} FirstByKeyProperties<T, K>(s: seq<T>, key: T -> K)
    ensures Distinct(KeysOf(FirstByKey(s, key), key))
    ensures forall k :: HasKey(FirstByKey(s, key), key, k) <==> HasKey(s, key, k)
    ensures Subsequence(FirstByKey(s, key), s)
    ensures forall x :: x in FirstByKey(s, key) ==> exists i :: IsFirstOfKey(s, i, key) && s[i] == x
    decreases |s|
  {
    if s != [] {
      var s', x := s[..|s| - 1], s[|s| - 1];
      var kept := FirstByKey(s', key);
      FirstByKeyProperties(s', key);
      assert s == s' + [x];
      forall k
        ensures HasKey(s, key, k) <==> HasKey(s', key, k) || key(x) == k
      {
        HasKeyAppend(s', x, key, k);
      }
      forall y | y in kept
        ensures exists i :: IsFirstOfKey(s, i, key) && s[i] == y
      {
        var i :| IsFirstOfKey(s', i, key) && s'[i] == y;
        assert IsFirstOfKey(s, i, key);
      }
      if HasKey(kept, key, key(x)) {
        SubsequenceExtend(kept, s', x);
      } else {
        forall k
          ensures HasKey(kept + [x], key, k) <==> HasKey(kept, key, k) || key(x) == k
        {
          HasKeyAppend(kept, x, key, k);
        }
        assert KeysOf(kept + [x], key) == KeysOf(kept, key) + [key(x)];
        assert (kept + [x])[..|kept|] == kept;
        assert IsFirstOfKey(s, |s'|, key) by {
          assert !HasKey(s', key, key(x));
          forall j | 0 <= j < |s'|
            ensures key(s[j]) != key(x)
          {
            assert s[j] == s'[j];
            assert KeysOf(s', key)[j] == key(s'[j]);
          }
        }
      }
    }
  }

  /** A sequence is its prefix followed by the rest, and the prefix one longer
      is the prefix followed by the next element. */
  lemma SplitAt<T>(s: seq<T>, i: int)
    requires 0 <= i < |s|
    ensures s[..i + 1] + s[i + 1..] == s
    ensures s[..i + 1][..i] == s[..i]
    ensures s[..i + 1] == s[..i] + [s[i]]
  {
  }

  lemma AppendEmpty<T>(s: seq<T>)
    ensures s + [] == s && s[..|s|] == s
  {
  }

  /** The last element of a join is the last of its second part. */
  lemma AppendLast<T>(a: seq<T>, b: seq<T>)
    requires b != []
    ensures a + b != []
    ensures (a + b)[..|a + b| - 1] == a + b[..|b| - 1]
    ensures (a + b)[|a + b| - 1] == b[|b| - 1]
  {
  }

  /** Joining with an empty second part changes nothing. */
  lemma JoinEmpty<T>(a: seq<T>, b: seq<T>)
    requires b == []
    ensures a + b == a
  {
  }

  /** Each kept element is the first of its key in the input. */
  lemma FirstByKeyKeepsFirst<T, K>(s: seq<T>, key: T -> K, x: T)
    requires x in FirstByKey(s, key)
    ensures exists i :: IsFirstOfKey(s, i, key) && s[i] == x
  {
    FirstByKeyProperties(s, key);
  }

  /** `[x for x in s if key(x) in allowed]`. */
  function FilterByKey<T, K>(s: seq<T>, key: T -> K, allowed: set<K>): seq<T>
    decreases |s|
  {
    if s == [] then []
    else
      var kept := FilterByKey(s[..|s| - 1], key, allowed);
      if key(s[|s| - 1]) in allowed then kept + [s[|s| - 1]] else kept
  }

  /** The comprehension keeps exactly the allowed elements, in their order. */
  lemma FilterByKeyProperties<T, K>(s: seq<T>, key: T -> K, allowed: set<K>)
    ensures forall x :: x in FilterByKey(s, key, allowed) <==> x in s && key(x) in allowed
    ensures Subsequence(FilterByKey(s, key, allowed), s)
  {
    FilterByKeyMembers(s, key, allowed);
    FilterByKeyOrder(s, key, allowed);
  }

  lemma {:induction false} FilterByKeyMembers<T, K>(s: seq<T>, key: T -> K, allowed: set<K>)
    ensures forall x :: x in FilterByKey(s, key, allowed) <==> x in s && key(x) in allowed
    decreases |s|
  {
    if s != [] {
      var s' := s[..|s| - 1];
      FilterByKeyMembers(s', key, allowed);
      assert s == s' + [s[|s| - 1]];
    }
  }

  lemma {:induction false} FilterByKeyOrder<T, K>(s: seq<T>, key: T -> K, allowed: set<K>)
    ensures Subsequence(FilterByKey(s, key, allowed), s)
    decreases |s|
  {
    if s != [] {
      var s', x := s[..|s| - 1], s[|s| - 1];
      var kept := FilterByKey(s', key, allowed);
      FilterByKeyOrder(s', key, allowed);
      if key(x) in allowed {
        assert (kept + [x])[..|kept|] == kept;
      } else {
        SubsequenceExtend(kept, s', x);
      }
    }
  }

  /** The comprehension keeps every allowed element as often as it occurs,
      and no other. */
  lemma {:induction false} FilterByKeyCount<T, K>(s: seq<T>, key: T -> K, allowed: set<K>, x: T)
    ensures multiset(FilterByKey(s, key, allowed))[x] == if key(x) in allowed then multiset(s)[x] else 0
    decreases |s|
  {
    if s != [] {
      var s' := s[..|s| - 1];
      FilterByKeyCount(s', key, allowed, x);
      assert s == s' + [s[|s| - 1]];
    }
  }

  /** Filtering a list whose keys are distinct leaves keys that are distinct. */
  lemma {:induction false} FilterByKeyDistinct<T, K>(s: seq<T>, key: T -> K, allowed: set<K>)
    requires Distinct(KeysOf(s, key))
    ensures Distinct(KeysOf(FilterByKey(s, key, allowed), key))
    decreases |s|
  {
    if s != [] {
      var s', x := s[..|s| - 1], s[|s| - 1];
      var kept := FilterByKey(s', key, allowed);
      assert Distinct(KeysOf(s', key)) by {
        assert forall i :: 0 <= i < |s'| ==> KeysOf(s', key)[i] == KeysOf(s, key)[i];
      }
      FilterByKeyDistinct(s', key, allowed);
      if key(x) in allowed {
        FilterByKeyMembers(s', key, allowed);
        var r := KeysOf(kept + [x], key);
        forall i, j | 0 <= i < j < |r|
          ensures r[i] != r[j]
        {
          if j == |kept| {
            assert r[i] == key(kept[i]) && r[j] == key(x);
            assert kept[i] in s';
            var m :| 0 <= m < |s'| && s'[m] == kept[i];
            assert KeysOf(s, key)[m] == key(kept[i]) && KeysOf(s, key)[|s'|] == key(x);
          } else {
            assert r[i] == KeysOf(kept, key)[i] && r[j] == KeysOf(kept, key)[j];
          }
        }
      }
    }
  }

  /** `[x for x in s if p(x)]`. */
  function Filter<T>(s: seq<T>, p: T -> bool): seq<T>
    decreases |s|
  {
    if s == [] then []
    else Filter(s[..|s| - 1], p) + (if p(s[|s| - 1]) then [s[|s| - 1]] else [])
  }

  /** Filtering distributes over concatenation. */
  lemma {:induction false} FilterAppend<T>(a: seq<T>, b: seq<T>, p: T -> bool)
    ensures Filter(a + b, p) == Filter(a, p) + Filter(b, p)
    decreases |b|
  {
    if b == [] {
      assert a + b == a;
    } else {
      assert (a + b)[..|a + b| - 1] == a + b[..|b| - 1];
      FilterAppend(a, b[..|b| - 1], p);
    }
  }

  /** The lists `f` gives for the elements of `s`, joined in order. */
  function ConcatMap<T, U>(s: seq<T>, f: T -> seq<U>): seq<U>
    decreases |s|
  {
    if s == [] then [] else ConcatMap(s[..|s| - 1], f) + f(s[|s| - 1])
  }

  /** Mapping and joining distributes over concatenation. */
  lemma {:induction false} ConcatMapAppend<T, U>(a: seq<T>, b: seq<T>, f: T -> seq<U>)
    ensures ConcatMap(a + b, f) == ConcatMap(a, f) + ConcatMap(b, f)
    decreases |b|
  {
    if b == [] {
      assert a + b == a;
    } else {
      assert (a + b)[..|a + b| - 1] == a + b[..|b| - 1];
      ConcatMapAppend(a, b[..|b| - 1], f);
      var x, y, z := ConcatMap(a, f), ConcatMap(b[..|b| - 1], f), f(b[|b| - 1]);
      assert (x + y) + z == x + (y + z);
    }
  }

  lemma FilterSingle<T>(x: T, p: T -> bool)
    ensures Filter([x], p) == if p(x) then [x] else []
  {
    assert [x][..0] == [];
  }
}
