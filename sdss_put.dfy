/** The SDSS putter: ClickHouse columns for the fields of a calibObj FITS
    record, a five-band subarray field expanding to one column per filter. */
module SdssPut {
  import opened Common
  import opened PyStr
  import opened PyDict

  const DEFAULT_SDSS_DR := 16

  const SDSS_FILTERS := ["u", "g", "r", "i", "z"]

  /** The numpy dtypes of a FITS record field, with their item sizes in
      bytes: scalar integers, floats and byte strings, a subarray of a base
      dtype with its shape, a structured (void) record, or anything else. */
  datatype DType =
    | Signed(itemsize: nat)
    | Unsigned(itemsize: nat)
    | Floating(itemsize: nat)
    | Bytes(itemsize: nat)
    | Subarray(base: DType, shape: seq<nat>)
    | Structured
    | Other(descr: string)

  /** `np_dtype_to_ch` (byte order plays no part in the type). */
  function NpDtypeToCh(dt: DType): (r: Result<string>)
    ensures r.Success? <==> IsScalar(dt)
    ensures r.Failure? ==> r.error.ValueError?
  {
    match dt
    case Signed(k) => Success("Int" + IntToString(8 * k))
    case Unsigned(k) => Success("UInt" + IntToString(8 * k))
    case Floating(k) => Success("Float" + IntToString(8 * k))
    case Bytes(k) => Success("FixedString(" + IntToString(k) + ")")
    case Other(d) => Failure(ValueError("Don't know how to convert " + d + " to ClickHouse column type"))
    case _ => Failure(ValueError("Don't know how to convert void to ClickHouse column type"))
  }

  predicate IsScalar(dt: DType) {
    dt.Signed? || dt.Unsigned? || dt.Floating? || dt.Bytes?
  }

  /** `int(s)` undoes `str(n)`, so the width in a type name determines it. */
  lemma IntToStringInjective(a: int, b: int)
    requires IntToString(a) == IntToString(b)
    ensures a == b
  {
    ParseIntOfIntToString(a);
    ParseIntOfIntToString(b);
  }

  lemma PrefixedInjective(p: string, a: int, b: int)
    requires p + IntToString(a) == p + IntToString(b)
    ensures a == b
  {
    assert IntToString(a) == (p + IntToString(a))[|p|..];
    assert IntToString(b) == (p + IntToString(b))[|p|..];
    IntToStringInjective(a, b);
  }

  /** Exactly the scalar dtypes have a ClickHouse type, and different scalar
      dtypes get different types. */
  lemma NpDtypeToChInjective(a: DType, b: DType)
    ensures NpDtypeToCh(a).Success? <==> IsScalar(a)
    ensures NpDtypeToCh(a).Success? && NpDtypeToCh(a) == NpDtypeToCh(b) ==> a == b
  {
    if NpDtypeToCh(a).Success? && NpDtypeToCh(a) == NpDtypeToCh(b) {
      var t := NpDtypeToCh(a).value;
      assert t[0] == (if a.Signed? then 'I' else if a.Unsigned? then 'U' else 'F');
      assert t[0] == (if b.Signed? then 'I' else if b.Unsigned? then 'U' else 'F');
      if a.Floating? || a.Bytes? {
        assert t[1] == (if a.Floating? then 'l' else 'i');
        assert t[1] == (if b.Floating? then 'l' else 'i');
      }
      match a
      case Signed(k) => PrefixedInjective("Int", 8 * k, 8 * b.itemsize);
      case Unsigned(k) => PrefixedInjective("UInt", 8 * k, 8 * b.itemsize);
      case Floating(k) => PrefixedInjective("Float", 8 * k, 8 * b.itemsize);
      case Bytes(k) =>
        var x, y := "FixedString(" + IntToString(k) + ")", "FixedString(" + IntToString(b.itemsize) + ")";
        assert x[..|x| - 1] == "FixedString(" + IntToString(k);
        assert y[..|y| - 1] == "FixedString(" + IntToString(b.itemsize);
        PrefixedInjective("FixedString(", k, b.itemsize);
    }
  }

  /** `np_dtype_field_to_ch`: the lowercased name and its type, or, for a
      five-element subarray, the columns of `<name>_<filter>` per filter. */
  function FieldToCh(name: string, dt: DType): (r: Result<seq<(string, string)>>)
    ensures r.Success? ==> |r.value| >= 1
    ensures r.Failure? ==> r.error.ValueError? || r.error.TypeError? || r.error.AssertionError?
    decreases dt, 0
  {
    var chName := Lower(name);
    match dt
    case Structured => Failure(TypeError("cannot unpack non-iterable NoneType object"))
    case Subarray(base, shape) =>
      if shape != [|SDSS_FILTERS|] then Failure(AssertionError(""))
      else FilterColumns(chName, base, SDSS_FILTERS)
    case Other(_) => Failure(NpDtypeToCh(dt).error)
    case _ => Success([(chName, NpDtypeToCh(dt).value)])
  }

  /** `sum((np_dtype_field_to_ch(f'{name}_{f}', base) for f in filters), [])` */
  function FilterColumns(chName: string, base: DType, filters: seq<string>): (r: Result<seq<(string, string)>>)
    ensures r.Success? ==> |r.value| >= |filters|
    ensures r.Failure? ==> r.error.ValueError? || r.error.TypeError? || r.error.AssertionError?
    decreases base, |filters| + 1
  {
    if filters == [] then Success([])
    else
      var first :- FieldToCh(chName + "_" + filters[0], base);
      var rest :- FilterColumns(chName, base, filters[1..]);
      Success(first + rest)
  }

  /** A scalar field is one column under its lowercased name. */
  lemma ScalarField(name: string, dt: DType)
    requires IsScalar(dt)
    ensures FieldToCh(name, dt) == Success([(Lower(name), NpDtypeToCh(dt).value)])
  {
  }

  predicate LowerFilters(filters: seq<string>) {
    forall i :: 0 <= i < |filters| ==> Lower(filters[i]) == filters[i]
  }

  /** A lower-case name and filter give a lower-case column name. */
  lemma LowerColumnName(n: string, f: string)
    requires Lower(n) == n && Lower(f) == f
    ensures Lower(n + "_" + f) == n + "_" + f
  {
    LowerConcat(n, "_");
    LowerConcat(n + "_", f);
    assert Lower("_") == "_";
  }

  lemma {:induction false} ScalarFilterColumns(name: string, base: DType, filters: seq<string>)
    requires IsScalar(base) && LowerFilters(filters)
    ensures var r, n := FilterColumns(Lower(name), base, filters), Lower(name);
            && r.Success?
            && |r.value| == |filters|
            && forall i :: 0 <= i < |filters| ==> r.value[i] == (n + "_" + filters[i], NpDtypeToCh(base).value)
  {
    if filters != [] {
      var n, t := Lower(name), NpDtypeToCh(base).value;
      LowerIdempotent(name);
      LowerColumnName(n, filters[0]);
      ScalarField(n + "_" + filters[0], base);
      ScalarFilterColumns(name, base, filters[1..]);
      var rest := FilterColumns(n, base, filters[1..]).value;
      assert FilterColumns(n, base, filters) == Success([(n + "_" + filters[0], t)] + rest);
      forall i | 0 <= i < |filters|
        ensures FilterColumns(n, base, filters).value[i] == (n + "_" + filters[i], t)
      {
        if i > 0 { assert filters[1..][i - 1] == filters[i]; }
      }
    }
  }

  /** A five-element subarray of a scalar dtype is five columns of that
      type, `<name>_u`, `_g`, `_r`, `_i`, `_z` in that order. */
  lemma SubarrayField(name: string, base: DType)
    requires IsScalar(base)
    ensures var r, n := FieldToCh(name, Subarray(base, [5])), Lower(name);
            && r.Success?
            && |r.value| == 5
            && forall i :: 0 <= i < 5 ==> r.value[i] == (n + "_" + SDSS_FILTERS[i], NpDtypeToCh(base).value)
  {
    assert LowerFilters(SDSS_FILTERS);
    ScalarFilterColumns(name, base, SDSS_FILTERS);
  }

  /** A subarray of any other shape fails the assertion. */
  lemma SubarrayShape(name: string, base: DType, shape: seq<nat>)
    requires shape != [5]
    ensures FieldToCh(name, Subarray(base, shape)) == Failure(AssertionError(""))
  {
  }

  /** The columns of all fields, in field order; the first field that fails
      stops the chain. */
  function FieldsToCh(fields: seq<(string, DType)>): Result<seq<(string, string)>> {
    if fields == [] then Success([])
    else
      var prev :- FieldsToCh(fields[..|fields| - 1]);
      var last := fields[|fields| - 1];
      var cols :- FieldToCh(last.0, last.1);
      Success(prev + cols)
  }

  /** `ch_columns`: the chained columns as a dict. */
  function ChColumns(fields: seq<(string, DType)>): Result<Dict<string, string>> {
    var pairs :- FieldsToCh(fields);
    Success(FromPairs(pairs))
  }

  /** Scalar fields give one column each, keyed by the lowercased field
      names in field order when those are distinct. */
  lemma {:induction false} ScalarFields(fields: seq<(string, DType)>)
    requires forall i :: 0 <= i < |fields| ==> IsScalar(fields[i].1)
    ensures FieldsToCh(fields).Success?
    ensures |FieldsToCh(fields).value| == |fields|
    ensures forall i :: 0 <= i < |fields| ==>
              NpDtypeToCh(fields[i].1).Success? &&
              FieldsToCh(fields).value[i] == (Lower(fields[i].0), NpDtypeToCh(fields[i].1).value)
  {
    if fields != [] {
      var init := fields[..|fields| - 1];
      ScalarFields(init);
      var last := fields[|fields| - 1];
      ScalarField(last.0, last.1);
    }
  }

  lemma ScalarColumnsKeys(fields: seq<(string, DType)>)
    requires forall i :: 0 <= i < |fields| ==> IsScalar(fields[i].1)
    requires Distinct(seq(|fields|, i requires 0 <= i < |fields| => Lower(fields[i].0)))
    ensures ChColumns(fields).Success?
    ensures Keys(ChColumns(fields).value) == seq(|fields|, i requires 0 <= i < |fields| => Lower(fields[i].0))
  {
    ScalarFields(fields);
    var pairs := FieldsToCh(fields).value;
    assert Keys(pairs) == seq(|fields|, i requires 0 <= i < |fields| => Lower(fields[i].0));
    FromPairsKeys(pairs);
  }


  /** `table_name` */
  function TableName(dr: int): string {
    "dr" + IntToString(dr) + "_calibObj"
  }

  /** Different data releases go to different tables. */
  lemma TableNameInjective(a: int, b: int)
    requires TableName(a) == TableName(b)
    ensures a == b
  {
    var x, y := TableName(a), TableName(b);
    assert x[..|x| - 9] == "dr" + IntToString(a);
    assert y[..|y| - 9] == "dr" + IntToString(b);
    PrefixedInjective("dr", a, b);
  }
}
