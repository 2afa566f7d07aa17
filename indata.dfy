/** The JSON-to-INDATA converter of the educational VMEC wrapper
    (`convert_json_to_indata`), and how `run_case` names the converted file.

    A JSON case becomes a Fortran namelist `&INDATA ... /` followed by `&END`.
    The writer emits lines in a fixed order: the framing, a header with
    defaults, optional arrays, scalar, string and profile parameters in fixed
    key lists, the free-boundary flag, the magnetic axis, and the boundary
    Fourier coefficients. Every line is computed from the parsed JSON value
    before it is written; a value the line cannot be computed from raises, the
    converter returns False, and the file keeps the lines already written. */
module Indata {
  import opened Wrappers
  import opened Strings
  import opened Sequences
  import opened Paths
  import opened Records
  import opened TextFiles

  /** A value produced by `json.load`. Objects keep their key order. */
  datatype Json =
    | JNull
    | JBool(b: bool)
    | JInt(i: int)
    | JReal(r: real)
    | JString(str: string)
    | JArray(items: seq<Json>)
    | JObject(fields: seq<(string, Json)>)

  /** Python's text conversions that depend on floating-point printing:
      `repr` of a float, a list or a dict, and `format(x, '.<digits>e')`. */
  datatype Formatter = Formatter(repr: Json -> string, sci: (nat, real) -> string)

  /** Python truthiness of a JSON value. */
  predicate Truthy(v: Json) {
    match v
    case JNull => false
    case JBool(b) => b
    case JInt(i) => i != 0
    case JReal(r) => r != 0.0
    case JString(s) => s != ""
    case JArray(xs) => xs != []
    case JObject(fs) => fs != []
  }

  /** `str(v)`: integers in decimal, booleans and null by name, strings as
      they are; everything else through the formatter. */
  function Str(fmt: Formatter, v: Json): string {
    match v
    case JNull => "None"
    case JBool(b) => if b then "True" else "False"
    case JInt(i) => IntToDecimal(i)
    case JString(s) => s
    case _ => fmt.repr(v)
  }

  /** `format(v, '.<digits>e')`: defined on numbers (booleans count as 0 and
      1); any other value raises. */
  function Sci(fmt: Formatter, digits: nat, v: Json): (r: Option<string>)
    ensures r.Some? <==> v.JBool? || v.JInt? || v.JReal?
  {
    match v
    case JBool(b) => Some(fmt.sci(digits, if b then 1.0 else 0.0))
    case JInt(i) => Some(fmt.sci(digits, i as real))
    case JReal(r) => Some(fmt.sci(digits, r))
    case _ => None
  }

  /** Iterating a JSON value: a list yields its items, a string its
      characters, an object its keys; anything else raises. */
  function Items(v: Json): (r: Option<seq<Json>>)
    ensures r.Some? <==> v.JArray? || v.JString? || v.JObject?
    ensures v.JArray? ==> r == Some(v.items)
  {
    match v
    case JArray(xs) => Some(xs)
    case JString(s) => Some(seq(|s|, i requires 0 <= i < |s| => JString([s[i]])))
    case JObject(fs) => Some(seq(|fs|, i requires 0 <= i < |fs| => JString(fs[i].0)))
    case _ => None
  }

  /** `str` of every item. */
  function StrAll(fmt: Formatter, xs: seq<Json>): seq<string>
    decreases |xs|
  {
    if xs == [] then [] else StrAll(fmt, xs[..|xs| - 1]) + [Str(fmt, xs[|xs| - 1])]
  }

  /** `[f"{x:.<digits>e}" for x in xs]`, raising at the first non-number. */
  function SciAll(fmt: Formatter, digits: nat, xs: seq<Json>): (r: Option<seq<string>>)
    ensures r.Some? <==> forall i :: 0 <= i < |xs| ==> Sci(fmt, digits, xs[i]).Some?
    decreases |xs|
  {
    if xs == [] then Some([])
    else
      var init := SciAll(fmt, digits, xs[..|xs| - 1]);
      var last := Sci(fmt, digits, xs[|xs| - 1]);
      assert forall i :: 0 <= i < |xs| - 1 ==> xs[..|xs| - 1][i] == xs[i];
      if init.Some? && last.Some? then Some(init.value + [last.value]) else None
  }

  /** A line computed from a value, or the exception computing it raised. */
  function LineOf(t: Option<string>): Line {
    if t.Some? then Text(t.value) else Raise
  }

  /** How a parameter's value is written. */
  datatype Kind =
    | Plain           // `str(value)`, a one-element list as its element
    | Quoted          // `"str(value)"`
    | Words           // `' '.join(map(str, value))`
    | Numbers(digits: nat)  // `' '.join(f"{x:.<digits>e}" for x in value)`

  /** `value[0]` for a one-element list, the value itself otherwise. */
  function Unwrap(v: Json): Json {
    if v.JArray? && |v.items| == 1 then v.items[0] else v
  }

  /** The line `  NAME = <value>` for a parameter, when it can be computed. */
  function FieldText(fmt: Formatter, name: string, kind: Kind, v: Json): Option<string> {
    match kind
    case Plain => Some("  " + name + " = " + Str(fmt, Unwrap(v)) + "\n")
    case Quoted => Some("  " + name + " = \"" + Str(fmt, v) + "\"\n")
    case Words =>
      if Items(v).None? then None
      else Some("  " + name + " = " + Join(StrAll(fmt, Items(v).value), " ") + "\n")
    case Numbers(digits) =>
      if Items(v).None? || SciAll(fmt, digits, Items(v).value).None? then None
      else Some("  " + name + " = " + Join(SciAll(fmt, digits, Items(v).value).value, " ") + "\n")
  }

  /** `if key in data: f.write(...)`: nothing for a missing key. */
  function FieldLine(d: seq<(string, Json)>, fmt: Formatter, key: string, name: string, kind: Kind): seq<Line> {
    match Find(d, key)
    case None => []
    case Some(v) => [LineOf(FieldText(fmt, name, kind, v))]
  }

  /** A JSON key and the namelist name it is written under, its upper-cased
      form (`ScalarNamesUpper` and the like). */
  type Param = (string, string)

  function ParamKey(p: Param): string { p.0 }

  /** `for key in keys: if key in data: ...`. */
  function FieldLines(d: seq<(string, Json)>, fmt: Formatter, ps: seq<Param>, kind: Kind): seq<Line>
    decreases |ps|
  {
    if ps == [] then []
    else
      var p := ps[|ps| - 1];
      FieldLines(d, fmt, ps[..|ps| - 1], kind) + FieldLine(d, fmt, p.0, p.1, kind)
  }

  /** The fixed list of scalar parameters. */
  const ScalarParams: seq<Param> :=
    [("delt", "DELT"), ("tcon0", "TCON0"), ("phiedge", "PHIEDGE"), ("nstep", "NSTEP"),
     ("pres_scale", "PRES_SCALE"), ("gamma", "GAMMA"), ("spres_ped", "SPRES_PED"),
     ("ncurr", "NCURR"), ("curtor", "CURTOR"), ("bloat", "BLOAT")]

  /** The string parameters, written double-quoted. */
  const StringParams: seq<Param> := [("pmass_type", "PMASS_TYPE"), ("pcurr_type", "PCURR_TYPE")]

  /** The profile arrays, in the order they are written. */
  const ProfileParams: seq<Param> :=
    [("am", "AM"), ("ac", "AC"), ("aphi", "APHI"), ("ai", "AI"), ("ah", "AH"), ("at", "AT"), ("av", "AV")]

  /** The boundary coefficient families, in the order they are written. */
  const CoefficientParams: seq<Param> := [("rbc", "RBC"), ("zbs", "ZBS"), ("rbs", "RBS"), ("zbc", "ZBC")]

  /** Every parameter is written under its key upper-cased. */
  predicate NamedUpper(ps: seq<Param>) {
    forall i :: 0 <= i < |ps| ==> Upper(ps[i].0) == ps[i].1
  }

  lemma ScalarNamesUpper()
    ensures NamedUpper(ScalarParams)
  {
    forall i | 0 <= i < |ScalarParams|
      ensures Upper(ScalarParams[i].0) == ScalarParams[i].1
    {
      var p := ScalarParams[i];
      assert |Upper(p.0)| == |p.1|;
      forall j | 0 <= j < |p.1|
        ensures Upper(p.0)[j] == p.1[j]
      {
      }
    }
  }

  lemma StringNamesUpper()
    ensures NamedUpper(StringParams)
  {
  }

  lemma ProfileNamesUpper()
    ensures NamedUpper(ProfileParams)
  {
  }

  lemma CoefficientNamesUpper()
    ensures NamedUpper(CoefficientParams)
  {
  }

  /** `data.get(key, False)` is truthy. */
  predicate Flag(d: seq<(string, Json)>, key: string) {
    Find(d, key).Some? && Truthy(Find(d, key).value)
  }

  function FlagLine(d: seq<(string, Json)>, key: string, name: string): string {
    "  " + name + " = " + (if Flag(d, key) then "T" else "F") + "\n"
  }

  /** `f"  NAME = {data.get(key, default)}"`. */
  function DefaultLine(d: seq<(string, Json)>, fmt: Formatter, key: string, name: string, default: int): string {
    "  " + name + " = " + Str(fmt, Find(d, key).GetOr(JInt(default))) + "\n"
  }

  /** One boundary coefficient `{"n": .., "m": .., "value": ..}` as
      `  NAME(n,m) = value`; anything but an object holding the three keys,
      or a non-numeric value, raises. */
  function CoefficientText(fmt: Formatter, name: string, c: Json): Option<string> {
    if !c.JObject? then None
    else
      var n, m, value := Find(c.fields, "n"), Find(c.fields, "m"), Find(c.fields, "value");
      if n.None? || m.None? || value.None? || Sci(fmt, 12, value.value).None? then None
      else Some("  " + name + "(" + Str(fmt, n.value) + "," + Str(fmt, m.value) + ") = "
                + Sci(fmt, 12, value.value).value + "\n")
  }

  /** One line per coefficient, in list order. */
  function CoefficientLines(fmt: Formatter, name: string, cs: seq<Json>): seq<Line>
    decreases |cs|
  {
    if cs == [] then []
    else CoefficientLines(fmt, name, cs[..|cs| - 1]) + [LineOf(CoefficientText(fmt, name, cs[|cs| - 1]))]
  }

  /** The coefficients of one family, when present. */
  function BoundaryFor(d: seq<(string, Json)>, fmt: Formatter, p: Param): seq<Line> {
    match Find(d, p.0)
    case None => []
    case Some(v) =>
      if Items(v).None? then [Raise] else CoefficientLines(fmt, p.1, Items(v).value)
  }

  /** The families in list order. */
  function BoundaryLines(d: seq<(string, Json)>, fmt: Formatter, ps: seq<Param>): seq<Line> {
    ConcatMap(ps, p => BoundaryFor(d, fmt, p))
  }

  const Opening := "&INDATA\n"
  const Closing := "/\n&END\n"

  /** The opening and the header lines LASYM, NFP, MPOL and NTOR. */
  function Header(d: seq<(string, Json)>, fmt: Formatter): seq<string> {
    [Opening, FlagLine(d, "lasym", "LASYM"), DefaultLine(d, fmt, "nfp", "NFP", 1),
     DefaultLine(d, fmt, "mpol", "MPOL", 6), DefaultLine(d, fmt, "ntor", "NTOR", 0)]
  }

  /** Section `k` of the namelist for a JSON object, given the scalar lines
      and the profile arrays (these two differ between the converter and its
      older variant): the opening and the header, the optional arrays, the
      parameters, the free-boundary flag, the axis, the boundary and the
      closing. */
  function Section(d: seq<(string, Json)>, fmt: Formatter, scalars: seq<Line>, profiles: seq<Param>, k: nat): seq<Line> {
    if k < 5 then [Text(Header(d, fmt)[k])]
    else if k == 5 then FieldLine(d, fmt, "ns_array", "NS_ARRAY", Words)
    else if k == 6 then FieldLine(d, fmt, "ftol_array", "FTOL_ARRAY", Numbers(0))
    else if k == 7 then FieldLine(d, fmt, "niter_array", "NITER_ARRAY", Words)
    else if k == 8 then scalars
    else if k == 9 then FieldLines(d, fmt, StringParams, Quoted)
    else if k == 10 then FieldLines(d, fmt, profiles, Numbers(6))
    else if k == 11 then [Text(FlagLine(d, "lfreeb", "LFREEB"))]
    else if k == 12 then FieldLine(d, fmt, "raxis_c", "RAXIS_CC", Numbers(6))
    else if k == 13 then FieldLine(d, fmt, "zaxis_s", "ZAXIS_CS", Numbers(6))
    else if k == 14 then BoundaryLines(d, fmt, CoefficientParams)
    else [Text(Closing)]
  }

  /** The sixteen sections in writing order. */
  function Sections(d: seq<(string, Json)>, fmt: Formatter, scalars: seq<Line>, profiles: seq<Param>): (ss: seq<seq<Line>>)
    ensures |ss| == 16
    ensures forall k :: 0 <= k < 16 ==> ss[k] == Section(d, fmt, scalars, profiles, k)
  {
    seq(16, k requires 0 <= k < 16 => Section(d, fmt, scalars, profiles, k))
  }

  /** The lines the converter produces for a parsed JSON value. A value that
      is not an object raises at the first `data.get`, after the opening. */
  function Document(j: Json, fmt: Formatter): seq<Line> {
    match j
    case JObject(d) => Flatten(Sections(d, fmt, FieldLines(d, fmt, ScalarParams, Plain), ProfileParams))
    case _ => [Text(Opening), Raise]
  }

  /** The first five sections are the header lines. */
  lemma SectionsHeader(d: seq<(string, Json)>, fmt: Formatter, scalars: seq<Line>, profiles: seq<Param>)
    ensures forall k :: 0 <= k < 5 ==> Sections(d, fmt, scalars, profiles)[k] == [Text(Header(d, fmt)[k])]
  {
  }

  // ------------------------------------------------------------ properties of the line lists

  lemma {:induction false} FieldLinesAppend(d: seq<(string, Json)>, fmt: Formatter, a: seq<Param>, b: seq<Param>, kind: Kind)
    ensures FieldLines(d, fmt, a + b, kind) == FieldLines(d, fmt, a, kind) + FieldLines(d, fmt, b, kind)
    decreases |b|
  {
    if b == [] {
      JoinEmpty(a, b);
      AppendEmpty(FieldLines(d, fmt, a, kind));
    } else {
      AppendLast(a, b);
      FieldLinesAppend(d, fmt, a, b[..|b| - 1], kind);
    }
  }

  lemma {:induction false} CoefficientLinesAppend(fmt: Formatter, name: string, a: seq<Json>, b: seq<Json>)
    ensures CoefficientLines(fmt, name, a + b) == CoefficientLines(fmt, name, a) + CoefficientLines(fmt, name, b)
    decreases |b|
  {
    if b == [] {
      JoinEmpty(a, b);
      AppendEmpty(CoefficientLines(fmt, name, a));
    } else {
      AppendLast(a, b);
      CoefficientLinesAppend(fmt, name, a, b[..|b| - 1]);
    }
  }

  lemma BoundaryLinesAppend(d: seq<(string, Json)>, fmt: Formatter, a: seq<Param>, b: seq<Param>)
    ensures BoundaryLines(d, fmt, a + b) == BoundaryLines(d, fmt, a) + BoundaryLines(d, fmt, b)
  {
    ConcatMapAppend(a, b, p => BoundaryFor(d, fmt, p));
  }

  /** Parameters are written only when present, one line each, in the order
      of the key list. */
  lemma {:induction false} FieldLinesOrder(d: seq<(string, Json)>, fmt: Formatter, ps: seq<Param>, kind: Kind)
    ensures var present := FilterByKey(ps, ParamKey, set k | k in Keys(d));
      |FieldLines(d, fmt, ps, kind)| == |present|
      && forall i :: 0 <= i < |present| ==>
        Find(d, present[i].0).Some?
        && FieldLines(d, fmt, ps, kind)[i] == LineOf(FieldText(fmt, present[i].1, kind, Find(d, present[i].0).value))
    decreases |ps|
  {
    if ps != [] {
      var p := ps[|ps| - 1];
      var init := ps[..|ps| - 1];
      FieldLinesOrder(d, fmt, init, kind);
      var allowed := set k | k in Keys(d);
      assert ps == init + [p];
      var before := FilterByKey(init, ParamKey, allowed);
      if p.0 in allowed {
        assert FilterByKey(ps, ParamKey, allowed) == before + [p];
      } else {
        assert FilterByKey(ps, ParamKey, allowed) == before;
        AppendEmpty(FieldLines(d, fmt, init, kind));
      }
    }
  }

  /** A one-element list is written as its sole element. */
  lemma UnwrapSingleton(d: seq<(string, Json)>, fmt: Formatter, key: string, name: string, x: Json)
    requires Find(d, key) == Some(JArray([x]))
    ensures FieldLine(d, fmt, key, name, Plain) == [Text("  " + name + " = " + Str(fmt, x) + "\n")]
  {
  }

  /** A coefficient line starts with the family name and its opening
      parenthesis. */
  lemma CoefficientTextNames(fmt: Formatter, name: string, c: Json)
    requires CoefficientText(fmt, name, c).Some?
    ensures StartsWith(CoefficientText(fmt, name, c).value, "  " + name + "(")
  {
    var p := "  " + name + "(";
    var n, m, value := Find(c.fields, "n"), Find(c.fields, "m"), Find(c.fields, "value");
    var s0 := p + Str(fmt, n.value);
    StartsWithAppend(p, p, Str(fmt, n.value));
    var s1 := s0 + ",";
    StartsWithAppend(s0, p, ",");
    var s2 := s1 + Str(fmt, m.value);
    StartsWithAppend(s1, p, Str(fmt, m.value));
    var s3 := s2 + ") = ";
    StartsWithAppend(s2, p, ") = ");
    var s4 := s3 + Sci(fmt, 12, value.value).value;
    StartsWithAppend(s3, p, Sci(fmt, 12, value.value).value);
    StartsWithAppend(s4, p, "\n");
  }

  /** With every entry an object holding `n`, `m` and a numeric `value`, a
      family has exactly one line per entry, in list order. */
  lemma CoefficientLinesOrder(fmt: Formatter, name: string, cs: seq<Json>)
    requires forall i :: 0 <= i < |cs| ==> CoefficientText(fmt, name, cs[i]).Some?
    ensures |CoefficientLines(fmt, name, cs)| == |cs|
    ensures forall i :: 0 <= i < |cs| ==>
      CoefficientLines(fmt, name, cs)[i] == Text(CoefficientText(fmt, name, cs[i]).value)
  {
    CoefficientLinesEach(fmt, name, cs);
  }

  /** A family has one line per entry, in list order. */
  lemma {:induction false} CoefficientLinesEach(fmt: Formatter, name: string, cs: seq<Json>)
    ensures |CoefficientLines(fmt, name, cs)| == |cs|
    ensures forall i :: 0 <= i < |cs| ==>
      CoefficientLines(fmt, name, cs)[i] == LineOf(CoefficientText(fmt, name, cs[i]))
    decreases |cs|
  {
    if cs != [] {
      var init := cs[..|cs| - 1];
      CoefficientLinesEach(fmt, name, init);
      EachAppendOne(CoefficientLines(fmt, name, init), LineOf(CoefficientText(fmt, name, cs[|cs| - 1])),
        init, cs[|cs| - 1], c => LineOf(CoefficientText(fmt, name, c)));
      assert cs == init + [cs[|cs| - 1]];
    }
  }

  /** Extending a list that maps `f` over `xs` by `f(x)` maps `f` over `xs + [x]`. */
  lemma EachAppendOne<X, Y>(ys: seq<Y>, y: Y, xs: seq<X>, x: X, f: X -> Y)
    requires |ys| == |xs| && forall i :: 0 <= i < |xs| ==> ys[i] == f(xs[i])
    requires y == f(x)
    ensures |ys + [y]| == |xs + [x]|
    ensures forall i :: 0 <= i < |xs + [x]| ==> (ys + [y])[i] == f((xs + [x])[i])
  {
  }

  // ------------------------------------------------------------ properties of the document

  /** Whatever the converter writes for a JSON value starts with `&INDATA`,
      and when it completes it ends with `/` and `&END`. */
  lemma DocumentFraming(j: Json, fmt: Formatter)
    ensures Framed(Document(j, fmt))
    ensures Completed(Document(j, fmt)) ==> j.JObject?
  {
    match j
    case JObject(d) =>
      SectionsFraming(Sections(d, fmt, FieldLines(d, fmt, ScalarParams, Plain), ProfileParams));
    case _ =>
      OpeningThenRaise();
  }

  /** What is written opens with `&INDATA`, and, when every line was written,
      closes with `/` `&END`. */
  predicate Framed(doc: seq<Line>) {
    var w := Written(doc);
    |w| >= |Opening| && w[..|Opening|] == Opening
    && (Completed(doc) ==> |w| >= |Opening| + |Closing| && w[|w| - |Closing|..] == Closing)
  }

  /** A converter that raises right after the opening line. */
  lemma OpeningThenRaise()
    ensures Framed([Text(Opening), Raise])
    ensures !Completed([Text(Opening), Raise])
  {
    WrittenThenRaise(Opening);
  }

  /** The framing of any section list that opens with `&INDATA` and closes
      with `/` `&END`. */
  lemma SectionsFraming(ss: seq<seq<Line>>)
    requires |ss| >= 2 && ss[0] == [Text(Opening)] && ss[|ss| - 1] == [Text(Closing)]
    ensures Framed(Flatten(ss))
  {
    WrittenAppend([Text(Opening)], Flatten(ss[1..]));
    WrittenOne(Opening);
    if Completed(Flatten(ss)) {
      var init := ss[..|ss| - 1];
      assert ss == init + [[Text(Closing)]];
      FlattenAppend(init, [[Text(Closing)]]);
      assert Flatten([[Text(Closing)]]) == [Text(Closing)];
      WrittenAppend(Flatten(init), [Text(Closing)]);
      WrittenOne(Closing);
      assert Flatten(init) == [Text(Opening)] + Flatten(init[1..]);
      WrittenAppend([Text(Opening)], Flatten(init[1..]));
    }
  }

  /** The document of an object opens with the five header lines. */
  lemma DocumentHeader(d: seq<(string, Json)>, fmt: Formatter)
    ensures |Document(JObject(d), fmt)| >= 5
    ensures forall k :: 0 <= k < 5 ==> Document(JObject(d), fmt)[k] == Text(Header(d, fmt)[k])
  {
    var ss := Sections(d, fmt, FieldLines(d, fmt, ScalarParams, Plain), ProfileParams);
    SectionsHeader(d, fmt, FieldLines(d, fmt, ScalarParams, Plain), ProfileParams);
    FlattenSingletons(ss, 5);
  }

  /** The header is always written, in the order LASYM, NFP, MPOL, NTOR, right
      after the opening; LASYM is T exactly when `lasym` is truthy, and the
      defaults are F, 1, 6 and 0. */
  lemma HeaderLines(d: seq<(string, Json)>, fmt: Formatter)
    ensures var doc := Document(JObject(d), fmt);
      |doc| >= 5
      && doc[0] == Text(Opening)
      && (doc[1] == Text("  LASYM = T\n") <==> Find(d, "lasym").Some? && Truthy(Find(d, "lasym").value))
      && (doc[1] == Text("  LASYM = T\n") || doc[1] == Text("  LASYM = F\n"))
      && doc[2] == Text("  NFP = " + (if Find(d, "nfp").Some? then Str(fmt, Find(d, "nfp").value) else "1") + "\n")
      && doc[3] == Text("  MPOL = " + (if Find(d, "mpol").Some? then Str(fmt, Find(d, "mpol").value) else "6") + "\n")
      && doc[4] == Text("  NTOR = " + (if Find(d, "ntor").Some? then Str(fmt, Find(d, "ntor").value) else "0") + "\n")
  {
    var doc, h := Document(JObject(d), fmt), Header(d, fmt);
    DocumentHeader(d, fmt);
    assert doc[2] == Text(h[2]) && doc[3] == Text(h[3]) && doc[4] == Text(h[4]);
    assert h[2] == DefaultLine(d, fmt, "nfp", "NFP", 1);
    assert h[3] == DefaultLine(d, fmt, "mpol", "MPOL", 6);
    assert h[4] == DefaultLine(d, fmt, "ntor", "NTOR", 0);
    LasymLine(d);
    HeaderPrefixes();
    DefaultLineValue(d, fmt, "nfp", "NFP", 1, "  NFP = ");
    DefaultLineValue(d, fmt, "mpol", "MPOL", 6, "  MPOL = ");
    DefaultLineValue(d, fmt, "ntor", "NTOR", 0, "  NTOR = ");
  }

  lemma LasymLine(d: seq<(string, Json)>)
    ensures FlagLine(d, "lasym", "LASYM") == "  LASYM = T\n" <==> Flag(d, "lasym")
    ensures FlagLine(d, "lasym", "LASYM") == "  LASYM = T\n" || FlagLine(d, "lasym", "LASYM") == "  LASYM = F\n"
  {
    assert "  LASYM = T\n" != "  LASYM = F\n" by {
      assert "  LASYM = T\n"[10] != "  LASYM = F\n"[10];
    }
  }

  lemma DefaultLineValue(d: seq<(string, Json)>, fmt: Formatter, key: string, name: string, default: nat, prefix: string)
    requires default < 10 && prefix == "  " + name + " = "
    ensures DefaultLine(d, fmt, key, name, default)
      == prefix + (if Find(d, key).Some? then Str(fmt, Find(d, key).value) else [DigitChar(default)]) + "\n"
  {
  }

  lemma HeaderPrefixes()
    ensures "  NFP = " == "  " + "NFP" + " = "
    ensures "  MPOL = " == "  " + "MPOL" + " = "
    ensures "  NTOR = " == "  " + "NTOR" + " = "
    ensures [DigitChar(1)] == "1" && [DigitChar(6)] == "6" && [DigitChar(0)] == "0"
  {
  }

  /** A boundary entry that is not an object with `n`, `m` and `value` makes
      the conversion fail. */
  lemma MissingCoefficientFieldFails(d: seq<(string, Json)>, fmt: Formatter, k: nat, cs: seq<Json>, i: nat)
    requires k < |CoefficientParams| && Find(d, CoefficientParams[k].0) == Some(JArray(cs)) && i < |cs|
    requires !cs[i].JObject? || Find(cs[i].fields, "n").None? || Find(cs[i].fields, "m").None?
      || Find(cs[i].fields, "value").None?
    ensures !Completed(Document(JObject(d), fmt))
  {
    var scalars := FieldLines(d, fmt, ScalarParams, Plain);
    var ss := Sections(d, fmt, scalars, ProfileParams);
    BoundaryEntryFails(d, fmt, CoefficientParams, k, cs, i);
    SectionsBoundary(d, fmt, scalars, ProfileParams);
    FlattenCompleted(ss);
  }

  /** The same for any list of families. */
  lemma BoundaryEntryFails(d: seq<(string, Json)>, fmt: Formatter, ps: seq<Param>, k: nat, cs: seq<Json>, i: nat)
    requires k < |ps| && Find(d, ps[k].0) == Some(JArray(cs)) && i < |cs|
    requires CoefficientText(fmt, ps[k].1, cs[i]).None?
    ensures !Completed(BoundaryLines(d, fmt, ps))
  {
    var name := ps[k].1;
    SplitAt(cs, i);
    var upto := CoefficientLines(fmt, name, cs[..i + 1]);
    assert upto == CoefficientLines(fmt, name, cs[..i]) + [Raise];
    assert upto[|upto| - 1] == Raise;
    CoefficientLinesAppend(fmt, name, cs[..i + 1], cs[i + 1..]);
    WrittenAppend(upto, CoefficientLines(fmt, name, cs[i + 1..]));
    assert BoundaryFor(d, fmt, ps[k]) == CoefficientLines(fmt, name, cs);
    SplitAt(ps, k);
    BoundaryLinesAppend(d, fmt, ps[..k + 1], ps[k + 1..]);
    assert BoundaryLines(d, fmt, ps[..k + 1]) == BoundaryLines(d, fmt, ps[..k]) + BoundaryFor(d, fmt, ps[k]);
    WrittenAppend(BoundaryLines(d, fmt, ps[..k]), BoundaryFor(d, fmt, ps[k]));
    WrittenAppend(BoundaryLines(d, fmt, ps[..k + 1]), BoundaryLines(d, fmt, ps[k + 1..]));
  }

  // ------------------------------------------------------------ the writer

  /** Writes one optional parameter line. */
  method WriteField(out: TextFile, d: seq<(string, Json)>, fmt: Formatter, key: string, name: string, kind: Kind)
    returns (ok: bool)
    modifies out
    ensures out.contents == old(out.contents) + Written(FieldLine(d, fmt, key, name, kind))
    ensures ok <==> Completed(FieldLine(d, fmt, key, name, kind))
  {
    var v := Find(d, key);
    if v.None? {
      return true;
    }
    var t := FieldText(fmt, name, kind, v.value);
    if t.None? {
      return false;
    }
    out.Write(t.value);
    ok := true;
  }

  /** `for key in keys: if key in data: f.write(...)`. */
  method WriteFields(out: TextFile, d: seq<(string, Json)>, fmt: Formatter, keys: seq<Param>, kind: Kind)
    returns (ok: bool)
    modifies out
    ensures out.contents == old(out.contents) + Written(FieldLines(d, fmt, keys, kind))
    ensures ok <==> Completed(FieldLines(d, fmt, keys, kind))
  {
    for k := 0 to |keys|
      invariant out.contents == old(out.contents) + Written(FieldLines(d, fmt, keys[..k], kind))
      invariant Completed(FieldLines(d, fmt, keys[..k], kind))
    {
      var before := FieldLines(d, fmt, keys[..k], kind);
      SplitAt(keys, k);
      ok := WriteField(out, d, fmt, keys[k].0, keys[k].1, kind);
      WriteMore(old(out.contents), before, FieldLine(d, fmt, keys[k].0, keys[k].1, kind));
      if !ok {
        FieldLinesAppend(d, fmt, keys[..k + 1], keys[k + 1..], kind);
        WriteMore(old(out.contents), FieldLines(d, fmt, keys[..k + 1], kind), FieldLines(d, fmt, keys[k + 1..], kind));
        return;
      }
    }
    AppendEmpty(keys);
    ok := true;
  }

  /** `for coeff in data[key]: f.write(...)`. */
  method WriteCoefficients(out: TextFile, fmt: Formatter, name: string, cs: seq<Json>) returns (ok: bool)
    modifies out
    ensures out.contents == old(out.contents) + Written(CoefficientLines(fmt, name, cs))
    ensures ok <==> Completed(CoefficientLines(fmt, name, cs))
  {
    for i := 0 to |cs|
      invariant out.contents == old(out.contents) + Written(CoefficientLines(fmt, name, cs[..i]))
      invariant Completed(CoefficientLines(fmt, name, cs[..i]))
    {
      var before := CoefficientLines(fmt, name, cs[..i]);
      SplitAt(cs, i);
      var t := CoefficientText(fmt, name, cs[i]);
      WriteMore(old(out.contents), before, [LineOf(t)]);
      if t.None? {
        CoefficientLinesAppend(fmt, name, cs[..i + 1], cs[i + 1..]);
        WriteMore(old(out.contents), CoefficientLines(fmt, name, cs[..i + 1]), CoefficientLines(fmt, name, cs[i + 1..]));
        return false;
      }
      WrittenOne(t.value);
      out.Write(t.value);
    }
    AppendEmpty(cs);
    ok := true;
  }

  /** One boundary family, when the object has it: a value that is not a
      list raises before anything is written. */
  method WriteFamily(out: TextFile, d: seq<(string, Json)>, fmt: Formatter, p: Param) returns (ok: bool)
    modifies out
    ensures out.contents == old(out.contents) + Written(BoundaryFor(d, fmt, p))
    ensures ok <==> Completed(BoundaryFor(d, fmt, p))
  {
    var v := Find(d, p.0);
    if v.None? {
      AppendEmpty(out.contents);
      return true;
    }
    var cs := Items(v.value);
    if cs.None? {
      assert Written([Raise]) == "";
      AppendEmpty(out.contents);
      return false;
    }
    ok := WriteCoefficients(out, fmt, p.1, cs.value);
  }

  /** The boundary families in their fixed order. */
  method WriteBoundary(out: TextFile, d: seq<(string, Json)>, fmt: Formatter, keys: seq<Param>) returns (ok: bool)
    modifies out
    ensures out.contents == old(out.contents) + Written(BoundaryLines(d, fmt, keys))
    ensures ok <==> Completed(BoundaryLines(d, fmt, keys))
  {
    for k := 0 to |keys|
      invariant out.contents == old(out.contents) + Written(BoundaryLines(d, fmt, keys[..k]))
      invariant Completed(BoundaryLines(d, fmt, keys[..k]))
    {
      var before := BoundaryLines(d, fmt, keys[..k]);
      SplitAt(keys, k);
      ok := WriteFamily(out, d, fmt, keys[k]);
      WriteMore(old(out.contents), before, BoundaryFor(d, fmt, keys[k]));
      if !ok {
        BoundaryLinesAppend(d, fmt, keys[..k + 1], keys[k + 1..]);
        WriteMore(old(out.contents), BoundaryLines(d, fmt, keys[..k + 1]), BoundaryLines(d, fmt, keys[k + 1..]));
        return;
      }
    }
    AppendEmpty(keys);
    ok := true;
  }

  /** Writes one line that cannot fail and moves past its section. */
  method WriteLine(out: TextFile, s: string, ghost doc: seq<Line>, ghost ss: seq<seq<Line>>, ghost i: nat)
    modifies out
    requires i < |ss| && ss[i] == [Text(s)] && Tracks(doc, out.contents, ss, i)
    ensures Tracks(doc, out.contents, ss, i + 1)
  {
    WrittenOne(s);
    TracksStep(doc, out.contents, ss, i);
    out.Write(s);
  }

  /** Writes one optional parameter and moves past its section. */
  method WriteFieldSection(out: TextFile, d: seq<(string, Json)>, fmt: Formatter, key: string, name: string, kind: Kind,
                           ghost doc: seq<Line>, ghost ss: seq<seq<Line>>, ghost i: nat)
    returns (ok: bool)
    modifies out
    requires i < |ss| && ss[i] == FieldLine(d, fmt, key, name, kind) && Tracks(doc, out.contents, ss, i)
    ensures Progress(doc, out.contents, ok, ss, i + 1)
  {
    ghost var w := out.contents;
    ok := WriteField(out, d, fmt, key, name, kind);
    Advance(doc, w, ss, i, out.contents, ok);
  }

  /** The optional arrays NS_ARRAY, FTOL_ARRAY and NITER_ARRAY (sections 5
      to 7). */
  method WriteArrays(out: TextFile, d: seq<(string, Json)>, fmt: Formatter, ghost doc: seq<Line>, ghost ss: seq<seq<Line>>)
    returns (ok: bool)
    modifies out
    requires |ss| == 16 && Tracks(doc, out.contents, ss, 5)
    requires ss[5] == FieldLine(d, fmt, "ns_array", "NS_ARRAY", Words)
    requires ss[6] == FieldLine(d, fmt, "ftol_array", "FTOL_ARRAY", Numbers(0))
    requires ss[7] == FieldLine(d, fmt, "niter_array", "NITER_ARRAY", Words)
    ensures Progress(doc, out.contents, ok, ss, 8)
  {
    ok := WriteFieldSection(out, d, fmt, "ns_array", "NS_ARRAY", Words, doc, ss, 5);
    if ok {
      ok := WriteFieldSection(out, d, fmt, "ftol_array", "FTOL_ARRAY", Numbers(0), doc, ss, 6);
      if ok {
        ok := WriteFieldSection(out, d, fmt, "niter_array", "NITER_ARRAY", Words, doc, ss, 7);
      }
    }
  }

  /** The scalar parameters (section 8); the older variant writes its own
      scalar lines. */
  method WriteScalars(out: TextFile, d: seq<(string, Json)>, fmt: Formatter, scalars: seq<Param>, legacy: bool,
                      ghost doc: seq<Line>, ghost ss: seq<seq<Line>>)
    returns (ok: bool)
    modifies out
    requires |ss| == 16 && Tracks(doc, out.contents, ss, 8)
    requires ss[8] == if legacy then ObjectScalarLines(d, fmt) else FieldLines(d, fmt, scalars, Plain)
    ensures Progress(doc, out.contents, ok, ss, 9)
  {
    ghost var w := out.contents;
    if legacy {
      WriteObjectScalars(out, d, fmt);
      ok := true;
      Advance(doc, w, ss, 8, out.contents, ok);
    } else {
      ok := WriteFields(out, d, fmt, scalars, Plain);
      Advance(doc, w, ss, 8, out.contents, ok);
    }
  }

  /** The string and profile parameters (sections 9 and 10). */
  method WriteParameters(out: TextFile, d: seq<(string, Json)>, fmt: Formatter, strings: seq<Param>, profiles: seq<Param>,
                         ghost doc: seq<Line>, ghost ss: seq<seq<Line>>)
    returns (ok: bool)
    modifies out
    requires |ss| == 16 && Tracks(doc, out.contents, ss, 9)
    requires ss[9] == FieldLines(d, fmt, strings, Quoted)
    requires ss[10] == FieldLines(d, fmt, profiles, Numbers(6))
    ensures Progress(doc, out.contents, ok, ss, 11)
  {
    ghost var w := out.contents;
    ok := WriteFields(out, d, fmt, strings, Quoted);
    Advance(doc, w, ss, 9, out.contents, ok);
    if ok {
      w := out.contents;
      ok := WriteFields(out, d, fmt, profiles, Numbers(6));
      Advance(doc, w, ss, 10, out.contents, ok);
    }
  }

  /** The magnetic axis (sections 12 and 13). */
  method WriteAxis(out: TextFile, d: seq<(string, Json)>, fmt: Formatter, ghost doc: seq<Line>, ghost ss: seq<seq<Line>>)
    returns (ok: bool)
    modifies out
    requires |ss| == 16 && Tracks(doc, out.contents, ss, 12)
    requires ss[12] == FieldLine(d, fmt, "raxis_c", "RAXIS_CC", Numbers(6))
    requires ss[13] == FieldLine(d, fmt, "zaxis_s", "ZAXIS_CS", Numbers(6))
    ensures Progress(doc, out.contents, ok, ss, 14)
  {
    ok := WriteFieldSection(out, d, fmt, "raxis_c", "RAXIS_CC", Numbers(6), doc, ss, 12);
    if ok {
      ok := WriteFieldSection(out, d, fmt, "zaxis_s", "ZAXIS_CS", Numbers(6), doc, ss, 13);
    }
  }

  /** The boundary and the closing (sections 14 and 15). */
  method WriteEnd(out: TextFile, d: seq<(string, Json)>, fmt: Formatter, ghost doc: seq<Line>, ghost ss: seq<seq<Line>>)
    returns (ok: bool)
    modifies out
    requires |ss| == 16 && Tracks(doc, out.contents, ss, 14)
    requires ss[14] == BoundaryLines(d, fmt, CoefficientParams)
    requires ss[15] == [Text(Closing)]
    ensures Written(doc) == out.contents
    ensures ok <==> Completed(doc)
  {
    ghost var w := out.contents;
    ok := WriteBoundary(out, d, fmt, CoefficientParams);
    Advance(doc, w, ss, 14, out.contents, ok);
    if !ok { return; }
    WriteLine(out, Closing, doc, ss, 15);
    TracksDone(doc, out.contents, ss);
  }

  /** Sections 5 to 7 are the optional arrays. */
  lemma SectionsArrays(d: seq<(string, Json)>, fmt: Formatter, scalars: seq<Line>, profiles: seq<Param>)
    ensures var ss := Sections(d, fmt, scalars, profiles);
      ss[5] == FieldLine(d, fmt, "ns_array", "NS_ARRAY", Words)
      && ss[6] == FieldLine(d, fmt, "ftol_array", "FTOL_ARRAY", Numbers(0))
      && ss[7] == FieldLine(d, fmt, "niter_array", "NITER_ARRAY", Words)
  {
  }

  /** Sections 8 to 10 are the parameters. */
  lemma SectionsParameters(d: seq<(string, Json)>, fmt: Formatter, scalars: seq<Line>, profiles: seq<Param>)
    ensures var ss := Sections(d, fmt, scalars, profiles);
      ss[8] == scalars
      && ss[9] == FieldLines(d, fmt, StringParams, Quoted)
      && ss[10] == FieldLines(d, fmt, profiles, Numbers(6))
  {
  }

  /** Sections 11 to 13 are LFREEB and the axis. */
  lemma SectionsAxis(d: seq<(string, Json)>, fmt: Formatter, scalars: seq<Line>, profiles: seq<Param>)
    ensures var ss := Sections(d, fmt, scalars, profiles);
      ss[11] == [Text(FlagLine(d, "lfreeb", "LFREEB"))]
      && ss[12] == FieldLine(d, fmt, "raxis_c", "RAXIS_CC", Numbers(6))
      && ss[13] == FieldLine(d, fmt, "zaxis_s", "ZAXIS_CS", Numbers(6))
  {
  }

  /** Sections 14 and 15 are the boundary and the closing. */
  lemma SectionsBoundary(d: seq<(string, Json)>, fmt: Formatter, scalars: seq<Line>, profiles: seq<Param>)
    ensures var ss := Sections(d, fmt, scalars, profiles);
      ss[14] == BoundaryLines(d, fmt, CoefficientParams) && ss[15] == [Text(Closing)]
  {
  }

  /** Writes the sections from 5 on, after the header: the optional arrays,
      the scalars, strings and profiles, the free-boundary flag, the axis, the
      boundary and the closing. */
  method WriteBody(out: TextFile, d: seq<(string, Json)>, fmt: Formatter, profiles: seq<Param>, legacy: bool,
                   ghost doc: seq<Line>, ghost ss: seq<seq<Line>>)
    returns (ok: bool)
    modifies out
    requires ss == Sections(d, fmt, if legacy then ObjectScalarLines(d, fmt) else FieldLines(d, fmt, ScalarParams, Plain), profiles)
    requires Tracks(doc, out.contents, ss, 5)
    ensures Written(doc) == out.contents
    ensures ok <==> Completed(doc)
  {
    ghost var scalars := if legacy then ObjectScalarLines(d, fmt) else FieldLines(d, fmt, ScalarParams, Plain);
    SectionsArrays(d, fmt, scalars, profiles);
    ok := WriteArrays(out, d, fmt, doc, ss);
    if !ok { return; }
    SectionsParameters(d, fmt, scalars, profiles);
    ok := WriteScalars(out, d, fmt, ScalarParams, legacy, doc, ss);
    if !ok { return; }
    ok := WriteParameters(out, d, fmt, StringParams, profiles, doc, ss);
    if !ok { return; }
    SectionsAxis(d, fmt, scalars, profiles);
    WriteLine(out, FlagLine(d, "lfreeb", "LFREEB"), doc, ss, 11);
    ok := WriteAxis(out, d, fmt, doc, ss);
    if !ok { return; }
    SectionsBoundary(d, fmt, scalars, profiles);
    ok := WriteEnd(out, d, fmt, doc, ss);
  }

  /** The keys of the scalar parameters. */
  const ScalarKeys: set<string> := set p | p in ScalarParams :: p.0

  /** The scalar lines of the older variant: `for key, value in data.items()`,
      keeping the listed scalar keys in the object's own order. */
  function ObjectScalarLines(d: seq<(string, Json)>, fmt: Formatter): seq<Line>
    decreases |d|
  {
    if d == [] then []
    else
      var p := d[|d| - 1];
      ObjectScalarLines(d[..|d| - 1], fmt)
        + (if p.0 in ScalarKeys then [Text(FieldText(fmt, Upper(p.0), Plain, p.1).value)] else [])
  }

  /** Writes the older variant's scalar lines, which never raise. */
  method WriteObjectScalars(out: TextFile, d: seq<(string, Json)>, fmt: Formatter)
    modifies out
    ensures out.contents == old(out.contents) + Written(ObjectScalarLines(d, fmt))
    ensures Completed(ObjectScalarLines(d, fmt))
  {
    for i := 0 to |d|
      invariant out.contents == old(out.contents) + Written(ObjectScalarLines(d[..i], fmt))
      invariant Completed(ObjectScalarLines(d[..i], fmt))
    {
      SplitAt(d, i);
      var key, value := d[i].0, d[i].1;
      if key in ScalarKeys {
        var line := FieldText(fmt, Upper(key), Plain, value).value;
        assert ObjectScalarLines(d[..i + 1], fmt) == ObjectScalarLines(d[..i], fmt) + [Text(line)];
        WriteMore(old(out.contents), ObjectScalarLines(d[..i], fmt), [Text(line)]);
        WrittenOne(line);
        out.Write(line);
      } else {
        assert ObjectScalarLines(d[..i + 1], fmt) == ObjectScalarLines(d[..i], fmt) + [];
        AppendEmpty(ObjectScalarLines(d[..i], fmt));
      }
    }
    AppendEmpty(d);
  }

  /** `convert_json_to_indata`: `input` is the parsed JSON file, `None` when
      it cannot be read or parsed, in which case the output file is not
      opened. Returns True exactly when every line was written. */
  method ConvertJsonToIndata(input: Option<Json>, fmt: Formatter, out: TextFile) returns (ok: bool)
    modifies out
    ensures input.None? ==> !ok && out.contents == old(out.contents)
    ensures input.Some? ==> out.contents == Written(Document(input.value, fmt))
    ensures input.Some? ==> (ok <==> Completed(Document(input.value, fmt)))
  {
    if input.None? {
      return false;
    }
    out.Truncate();
    if !input.value.JObject? {
      out.Write(Opening);
      WrittenThenRaise(Opening);
      return false;
    }
    var d := input.value.fields;
    ghost var scalars := FieldLines(d, fmt, ScalarParams, Plain);
    ghost var ss := Sections(d, fmt, scalars, ProfileParams);
    ghost var doc := Document(input.value, fmt);
    TracksStart(doc, ss);
    var header := Header(d, fmt);
    SectionsHeader(d, fmt, scalars, ProfileParams);
    WriteHeader(out, header, doc, ss);
    ok := WriteBody(out, d, fmt, ProfileParams, false, doc, ss);
  }

  /** The opening and the header lines, which never raise, one write each. */
  method WriteHeader(out: TextFile, header: seq<string>, ghost doc: seq<Line>, ghost ss: seq<seq<Line>>)
    modifies out
    requires |header| == 5 && |ss| == 16
    requires forall k :: 0 <= k < 5 ==> ss[k] == [Text(header[k])]
    requires Tracks(doc, out.contents, ss, 0)
    ensures Tracks(doc, out.contents, ss, 5)
  {
    for k := 0 to 5
      invariant Tracks(doc, out.contents, ss, k)
    {
      WriteLine(out, header[k], doc, ss, k);
    }
  }

  // ------------------------------------------------------------ naming the INDATA file

  /** The file `run_case` runs: a `.json` case is converted to `input.<stem>`
      in the output directory, any other input is used as it is. */
  function IndataFileFor(input: FilePath, outputDir: string): FilePath {
    if Suffix(input) == ".json" then Child(outputDir, "input." + Stem(input)) else input
  }

  /** The copy `run_case` runs from: the INDATA file's name inside the
      output directory. */
  function LocalInput(input: FilePath, outputDir: string): FilePath {
    Child(outputDir, IndataFileFor(input, outputDir).name)
  }

  /** A JSON case `<base>.json` is converted to `input.<base>` in the output
      directory, which is already where the run reads it from (no copy). */
  lemma JsonCaseNaming(input: FilePath, outputDir: string, base: string)
    requires base != "" && input.name == base + ".json"
    ensures IndataFileFor(input, outputDir) == FilePath(outputDir, "input." + base)
    ensures LocalInput(input, outputDir) == IndataFileFor(input, outputDir)
  {
    JsonFileStem(input.parent, base);
  }

  /** Any other input is used unchanged, and is copied into the output
      directory unless it already lies there. */
  lemma OtherInputNaming(input: FilePath, outputDir: string)
    requires Suffix(input) != ".json"
    ensures IndataFileFor(input, outputDir) == input
    ensures LocalInput(input, outputDir) == input <==> input.parent == outputDir
  {
  }
}
