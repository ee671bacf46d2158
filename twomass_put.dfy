/** The 2MASS putter: ClickHouse column types derived from the printf-style
    formats of the point-source catalogue's format table, one column per
    table row with at least five cells. */
module TwoMassPut {
  import opened Common
  import opened PyStr
  import opened PyDict

  /** The integer types by width, narrowest first. */
  function IntType(size: int): string {
    if size <= 2 then "Int8"
    else if size <= 4 then "Int16"
    else if size <= 9 then "Int32"
    else "Int64"
  }

  /** `printf_to_ch`: `%W.Pf` is a float, `%Wd` an integer and `%Ws` a
      fixed-width string; the width is read with `int()`. */
  function PrintfToCh(fmt: string): (r: Result<string>)
    ensures r.Success? ==> StartsWith(fmt, "%") && (EndsWith(fmt, "f") || EndsWith(fmt, "d") || EndsWith(fmt, "s"))
    ensures r.Success? && EndsWith(fmt, "s") ==> StartsWith(r.value, "FixedString(")
    ensures r.Failure? ==> r.error.AssertionError? || r.error.ValueError?
  {
    if !StartsWith(fmt, "%") then Failure(AssertionError("format " + fmt + " is unknown"))
    else
      var f := fmt[1..];
      if EndsWith(f, "f") then
        var size :- ParseInt(SplitOn(f, '.')[0]);
        Success(if size <= 7 then "Float32" else "Float64")
      else if EndsWith(f, "d") then
        var size :- ParseInt(f[..|f| - 1]);
        Success(IntType(size))
      else if EndsWith(f, "s") then
        var size :- ParseInt(f[..|f| - 1]);
        Success("FixedString(" + IntToString(size) + ")")
      else Failure(ValueError("Format " + f + " is unknown"))
  }

  lemma NatText(w: nat)
    ensures IntToString(w) == NatToString(w)
    ensures ParseInt(NatToString(w)) == Success(w)
    ensures '.' !in NatToString(w)
  {
    ParseIntOfIntToString(w);
    var d := NatToString(w);
    assert forall i :: 0 <= i < |d| ==> IsDigit(d[i]);
  }

  /** The pieces of a `%W.Pf` format as `printf_to_ch` reads them. */
  lemma FloatPieces(a: string, b: string)
    requires '.' !in a && '.' !in b
    ensures var fmt := "%" + a + "." + b + "f";
            && StartsWith(fmt, "%")
            && EndsWith(fmt[1..], "f")
            && SplitOn(fmt[1..], '.')[0] == a
  {
    var fmt := "%" + a + "." + b + "f";
    var bf := b + "f";
    assert forall i :: 0 <= i < |bf| ==> bf[i] == if i < |b| then b[i] else 'f';
    assert '.' !in bf;
    assert fmt[1..] == a + ['.'] + bf;
    SplitOnPair(a, '.', bf);
    assert fmt[1..] == (a + ['.'] + b) + "f";
    EndsWithConcat(a + ['.'] + b, "f");
  }

  lemma FloatText(w: nat, p: nat)
    ensures var fmt := "%" + NatToString(w) + "." + NatToString(p) + "f";
            && StartsWith(fmt, "%")
            && EndsWith(fmt[1..], "f")
            && SplitOn(fmt[1..], '.')[0] == NatToString(w)
  {
    NatText(w);
    NatText(p);
    FloatPieces(NatToString(w), NatToString(p));
  }

  /** `%W.Pf` is `Float32` up to width 7 and `Float64` beyond. */
  lemma FloatFormat(w: nat, p: nat)
    ensures PrintfToCh("%" + NatToString(w) + "." + NatToString(p) + "f") ==
            Success(if w <= 7 then "Float32" else "Float64")
  {
    FloatText(w, p);
    NatText(w);
  }

  /** `%Wd` is the integer type of width `W`. */
  lemma IntFormat(w: nat)
    ensures PrintfToCh("%" + NatToString(w) + "d") == Success(IntType(w))
  {
    var fmt := "%" + NatToString(w) + "d";
    NatText(w);
    assert StartsWith(fmt, "%");
    assert fmt[1..] == NatToString(w) + "d";
    assert fmt[1..][..|fmt| - 2] == NatToString(w);
    EndsWithConcat(NatToString(w), "d");
  }

  /** `%Ws` is `FixedString(W)`. */
  lemma StringFormat(w: nat)
    ensures PrintfToCh("%" + NatToString(w) + "s") == Success("FixedString(" + NatToString(w) + ")")
  {
    var fmt := "%" + NatToString(w) + "s";
    NatText(w);
    assert StartsWith(fmt, "%");
    assert fmt[1..] == NatToString(w) + "s";
    assert fmt[1..][..|fmt| - 2] == NatToString(w);
    EndsWithConcat(NatToString(w), "s");
    assert !EndsWith(fmt[1..], "f") && !EndsWith(fmt[1..], "d");
  }

  /** A format not starting with `%` fails the assertion; after the `%`, a
      suffix other than `f`, `d` or `s` is a `ValueError`. */
  lemma FormatErrors(fmt: string)
    ensures !StartsWith(fmt, "%") ==> PrintfToCh(fmt) == Failure(AssertionError("format " + fmt + " is unknown"))
    ensures StartsWith(fmt, "%") && !EndsWith(fmt, "f") && !EndsWith(fmt, "d") && !EndsWith(fmt, "s") ==>
              PrintfToCh(fmt) == Failure(ValueError("Format " + fmt[1..] + " is unknown"))
  {
    if StartsWith(fmt, "%") {
      var f := fmt[1..];
      assert forall t :: |t| == 1 && EndsWith(f, t) ==> EndsWith(fmt, t) by {
        forall t | |t| == 1 && EndsWith(f, t) ensures EndsWith(fmt, t) {
          assert fmt[|fmt| - 1..] == f[|f| - 1..];
        }
      }
    }
  }

  function Pow(b: nat, e: nat): nat {
    if e == 0 then 1 else b * Pow(b, e - 1)
  }

  lemma {:induction false} Pow10Mono(e: nat, f: nat)
    requires e <= f
    ensures Pow(10, e) <= Pow(10, f)
    decreases f
  {
    if e < f {
      Pow10Mono(e, f - 1);
    }
  }

  lemma {:induction false} PowAdd(b: nat, e: nat, f: nat)
    ensures Pow(b, e + f) == Pow(b, e) * Pow(b, f)
    decreases f
  {
    if f > 0 {
      PowAdd(b, e, f - 1);
      var p, q := Pow(b, e), Pow(b, f - 1);
      assert Pow(b, e + f) == b * (p * q);
      assert b * (p * q) == p * (b * q);
    }
  }

  /** Steps of `IntTypeNarrowest`: the powers the type bounds compare. */
  lemma Pow10Values()
    ensures Pow(10, 2) == 100 && Pow(10, 3) == 1000 && Pow(10, 4) == 10000 && Pow(10, 5) == 100000
    ensures Pow(10, 9) == 1000000000 && Pow(10, 10) == 10000000000
    ensures Pow(10, 18) == 1000000000000000000
  {
    assert Pow(10, 5) == 100000;
    PowAdd(10, 5, 4);
    PowAdd(10, 5, 5);
    PowAdd(10, 9, 9);
  }

  lemma Pow2Values()
    ensures Pow(2, 7) == 128 && Pow(2, 15) == 32768 && Pow(2, 31) == 2147483648
    ensures Pow(2, 63) == 9223372036854775808
  {
    assert Pow(2, 15) == 32768;
    PowAdd(2, 15, 15);
    PowAdd(2, 30, 1);
    PowAdd(2, 31, 31);
    PowAdd(2, 62, 1);
  }

  /** The chosen integer type is the narrowest signed type that holds every
      number of up to `W` digits (for widths Int64 can hold at all): the
      largest such number, `10^W - 1`, fits its range and not the range of
      the next narrower type. */
  lemma IntTypeNarrowest(w: nat)
    requires w <= 18
    ensures IntType(w) == "Int8" ==> Pow(10, w) <= Pow(2, 7)
    ensures IntType(w) == "Int16" ==> Pow(2, 7) < Pow(10, w) <= Pow(2, 15)
    ensures IntType(w) == "Int32" ==> Pow(2, 15) < Pow(10, w) <= Pow(2, 31)
    ensures IntType(w) == "Int64" ==> Pow(2, 31) < Pow(10, w) <= Pow(2, 63)
  {
    Pow10Values();
    Pow2Values();
    if w <= 2 {
      Pow10Mono(w, 2);
    } else if w <= 4 {
      Pow10Mono(w, 4);
      Pow10Mono(3, w);
    } else if w <= 9 {
      Pow10Mono(w, 9);
      Pow10Mono(5, w);
    } else {
      Pow10Mono(w, 18);
      Pow10Mono(10, w);
    }
  }

  /** `table_row_to_ch_type`: the name (the stripped first cell up to its
      first '/') and the type of the format cell, made `Nullable` when the
      nulls cell says `yes`.  Fewer than five cells cannot be unpacked. */
  function TableRowToChType(cells: seq<string>): (r: Result<(string, string)>)
    ensures r.Success? <==> |cells| >= 5 && PrintfToCh(Strip(cells[1])).Success?
    ensures r.Success? ==> '/' !in r.value.0 && StartsWith(Strip(cells[0]), r.value.0)
  {
    if |cells| < 5 then Failure(ValueError("not enough values to unpack"))
    else
      var name := SplitOn(Strip(cells[0]), '/')[0];
      SplitOnFirst(Strip(cells[0]), '/');
      var chType :- PrintfToCh(Strip(cells[1]));
      Success((name, if Strip(cells[3]) == "yes" then "Nullable(" + chType + ")" else chType))
  }

  /** The column name is the part of the name cell before any '/', and the
      type is wrapped in `Nullable` exactly when the nulls cell is `yes`. */
  lemma TableRowSpec(cells: seq<string>)
    requires |cells| >= 5 && PrintfToCh(Strip(cells[1])).Success?
    ensures var r := TableRowToChType(cells);
            var t := PrintfToCh(Strip(cells[1])).value;
            && r.Success?
            && '/' !in r.value.0
            && StartsWith(Strip(cells[0]), r.value.0)
            && ('/' !in Strip(cells[0]) ==> r.value.0 == Strip(cells[0]))
            && r.value.1 == (if Strip(cells[3]) == "yes" then "Nullable(" + t + ")" else t)
  {
    SplitOnFirst(Strip(cells[0]), '/');
  }

  /** The (name, type) pairs of the table rows with at least five cells, in
      document order; the first row that fails stops the scan. */
  function RowPairs(rows: seq<seq<string>>): Result<seq<(string, string)>> {
    if rows == [] then Success([])
    else
      var prev :- RowPairs(rows[..|rows| - 1]);
      var row := rows[|rows| - 1];
      if |row| < 5 then Success(prev)
      else
        var p :- TableRowToChType(row);
        Success(prev + [p])
  }

  /** `get_psc_columns` over the cell texts of each `<tr>`: the `columns`
      dict, later rows overwriting earlier ones with the same name. */
  method PscColumns(rows: seq<seq<string>>) returns (r: Result<Dict<string, string>>)
    ensures r.Success? <==> RowPairs(rows).Success?
    ensures r.Success? ==> r.value == FromPairs(RowPairs(rows).value)
  {
    var columns: Dict<string, string> := [];
    ghost var pairs: seq<(string, string)> := [];
    var i := 0;
    while i < |rows|
      invariant 0 <= i <= |rows|
      invariant RowPairs(rows[..i]) == Success(pairs)
      invariant columns == FromPairs(pairs)
    {
      assert rows[..i + 1][..i] == rows[..i];
      var cells := rows[i];
      if |cells| >= 5 {
        var p := TableRowToChType(cells);
        if p.Failure? {
          RowPairsStops(rows, i, |rows|);
          assert rows[..|rows|] == rows;
          return Failure(p.error);
        }
        assert (pairs + [p.value])[..|pairs|] == pairs;
        columns := Put(columns, p.value.0, p.value.1);
        pairs := pairs + [p.value];
      }
      i := i + 1;
    }
    assert rows[..i] == rows;
    return Success(columns);
  }

  lemma {:induction false} RowPairsStops(rows: seq<seq<string>>, i: nat, j: nat)
    requires i < j <= |rows|
    requires RowPairs(rows[..i + 1]).Failure?
    ensures RowPairs(rows[..j]).Failure?
    decreases j
  {
    if j > i + 1 {
      RowPairsStops(rows, i, j - 1);
      assert rows[..j][..j - 1] == rows[..j - 1];
    }
  }

  /** A row with fewer than five cells adds no column; a full row sets its
      column to its type, whatever earlier rows said. */
  lemma RowPairsAppend(rows: seq<seq<string>>, row: seq<string>)
    requires RowPairs(rows + [row]).Success?
    ensures |row| < 5 ==> RowPairs(rows + [row]) == RowPairs(rows)
    ensures |row| >= 5 ==>
              var p := TableRowToChType(row).value;
              Get(FromPairs(RowPairs(rows + [row]).value), p.0) == Some(p.1)
  {
    assert (rows + [row])[..|rows|] == rows;
    if |row| >= 5 {
      var ps := RowPairs(rows + [row]).value;
      var p := TableRowToChType(row).value;
      assert ps == RowPairs(rows).value + [p];
      assert LastValue(ps, p.0) == Some(p.1);
    }
  }

}
