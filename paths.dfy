/** The part of Python's `pathlib` the benchmark uses to name cases and files:
    a path's final component and its `stem` and `suffix`. */
module Paths {

  /** A path as its parent directory and its final component (`Path.name`). */
  datatype FilePath = FilePath(parent: string, name: string)

  /** Python's `name.rfind('.')`: the index of the last dot, or -1. */
  function LastDot(name: string): (i: int)
    ensures -1 <= i < |name|
    ensures i >= 0 ==> name[i] == '.'
    ensures forall j :: i < j < |name| ==> name[j] != '.'
    decreases |name|
  {
    if name == [] then -1
    else if name[|name| - 1] == '.' then |name| - 1
    else LastDot(name[..|name| - 1])
  }

  /** A final component has a suffix when its last dot is neither its first
      nor its last character. */
  predicate HasSuffix(name: string) {
    0 < LastDot(name) < |name| - 1
  }

  /** `Path.suffix`. */
  function Suffix(p: FilePath): string {
    if HasSuffix(p.name) then p.name[LastDot(p.name)..] else ""
  }

  /** `Path.stem`: the final component without its suffix. */
  function Stem(p: FilePath): string {
    if HasSuffix(p.name) then p.name[..LastDot(p.name)] else p.name
  }

  /** `dir / name`. */
  function Child(dir: string, name: string): FilePath {
    FilePath(dir, name)
  }

  /** The stem and the suffix split the final component, and a suffix is a dot
      followed by dot-free text. */
  lemma StemSuffixSplit(p: FilePath)
    ensures Stem(p) + Suffix(p) == p.name
    ensures Suffix(p) == "" || (Suffix(p)[0] == '.' && '.' !in Suffix(p)[1..])
  {
    if HasSuffix(p.name) {
      assert p.name[..LastDot(p.name)] + p.name[LastDot(p.name)..] == p.name;
    }
  }

  /** A JSON case file `<base>.json` has stem `<base>` and suffix `.json`. */
  lemma {:induction false} JsonFileStem(dir: string, base: string)
    requires base != ""
    ensures Suffix(FilePath(dir, base + ".json")) == ".json"
    ensures Stem(FilePath(dir, base + ".json")) == base
  {
    var name := base + ".json";
    assert name[|name| - 1] != '.' && name[|name| - 2] != '.' && name[|name| - 3] != '.' && name[|name| - 4] != '.';
    assert LastDot(name) == |base| by {
      assert name[..|name| - 1][..|name| - 2] == name[..|name| - 2];
      assert name[..|name| - 2][..|name| - 3] == name[..|name| - 3];
      assert name[..|name| - 3][..|name| - 4] == name[..|name| - 4];
      assert name[..|name| - 4][..|name| - 5] == name[..|name| - 5];
      assert name[|base|] == '.';
    }
    assert name[..|base|] == base;
    assert name[|base|..] == ".json";
  }

  /** Every INDATA file `input.<x>` with a dot-free `<x>` has the stem `input`. */
  lemma {:induction false} InputFileStem(dir: string, x: string)
    requires x != "" && '.' !in x
    ensures Stem(FilePath(dir, "input." + x)) == "input"
    ensures Suffix(FilePath(dir, "input." + x)) == "." + x
  {
    var name := "input." + x;
    assert LastDot(name) == 5 by {
      LastDotAfter("input.", x);
    }
    assert name[..5] == "input";
    assert name[5..] == "." + x;
  }

  /** Appending dot-free text does not move the last dot. */
  lemma {:induction false} LastDotAfter(a: string, x: string)
    requires '.' !in x
    ensures LastDot(a + x) == LastDot(a)
    decreases |x|
  {
    if x != [] {
      var x' := x[..|x| - 1];
      assert (a + x)[..|a + x| - 1] == a + x';
      assert x[|x| - 1] in x;
      LastDotAfter(a, x');
    } else {
      assert a + x == a;
    }
  }
}
