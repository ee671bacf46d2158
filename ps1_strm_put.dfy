/** The PS1-STRM putter: ClickHouse column types read from the catalog's
    readme, and the list of CSV files to insert. */
module Ps1StrmPut {
  import opened Common
  import opened PyStr
  import opened PyDict

  const CLASS_ENUM := "Enum('GALAXY', 'STAR', 'QSO', 'UNSURE')"

  /** The SQL types the readme uses. */
  const SQL_TYPES := {"bigint", "float", "varchar[8]", "int"}

  function Unsupported(text: string): Error {
    ValueError("SQL type " + text + " is not supported")
  }

  /** `_sql_type_to_ch`: the four readme types, anything else rejected. */
  function SqlTypeToCh(sql: string): (r: Result<string>)
    ensures r.Success? <==> sql in SQL_TYPES
    ensures r.Failure? ==> r.error == Unsupported(sql)
  {
    if sql == "bigint" then Success("Int64")
    else if sql == "float" then Success("Float64")
    else if sql == "varchar[8]" then Success(CLASS_ENUM)
    else if sql == "int" then Success("Int32")
    else Failure(Unsupported(sql))
  }

  /** Each supported SQL type has its own ClickHouse type, so the column
      type determines the readme type. */
  lemma SqlTypeToChInjective(a: string, b: string)
    requires SqlTypeToCh(a).Success? && SqlTypeToCh(a) == SqlTypeToCh(b)
    ensures a == b
  {
    var t := SqlTypeToCh(a).value;
    assert t[0] == (if a == "bigint" || a == "int" then 'I' else if a == "float" then 'F' else 'E');
    assert t[0] == (if b == "bigint" || b == "int" then 'I' else if b == "float" then 'F' else 'E');
    if a == "bigint" || a == "int" {
      assert t[3] == (if a == "bigint" then '6' else '3');
      assert t[3] == (if b == "bigint" then '6' else '3');
    }
  }

  // ---------------------------------------------------------------------
  // Input files

  const FILE_PREFIX := "hlsp_ps1-strm_ps1_gpc1"

  const FILE_SUFFIX := ".csv.gz"

  /** A directory entry the pattern `hlsp_ps1-strm_ps1_gpc1*.csv.gz` matches. */
  predicate GlobMatch(name: string) {
    |FILE_PREFIX| + |FILE_SUFFIX| <= |name| && StartsWith(name, FILE_PREFIX) && EndsWith(name, FILE_SUFFIX)
  }

  /** Python's string order: code point by code point, a proper prefix first. */
  predicate LexLe(a: string, b: string) {
    a == [] || (b != [] && (a[0] < b[0] || (a[0] == b[0] && LexLe(a[1..], b[1..]))))
  }

  lemma {:induction false} LexLeTotal(a: string, b: string)
    ensures LexLe(a, b) || LexLe(b, a)
  {
    if a != [] && b != [] && a[0] == b[0] {
      LexLeTotal(a[1..], b[1..]);
    }
  }

  predicate Sorted(s: seq<string>) {
    forall i :: 0 < i < |s| ==> LexLe(s[i - 1], s[i])
  }

  function Insert(x: string, s: seq<string>): (r: seq<string>)
    ensures multiset(r) == multiset(s) + multiset{x}
    ensures r[0] == x || (s != [] && r[0] == s[0])
    ensures Sorted(s) ==> Sorted(r)
  {
    if s == [] then [x]
    else if LexLe(x, s[0]) then [x] + s
    else
      LexLeTotal(x, s[0]);
      var r := [s[0]] + Insert(x, s[1..]);
      assert s == [s[0]] + s[1..];
      r
  }

  /** `sorted`: the strings in ascending order. */
  function Sort(s: seq<string>): (r: seq<string>)
    ensures multiset(r) == multiset(s)
    ensures Sorted(r)
  {
    if s == [] then []
    else
      assert s == [s[0]] + s[1..];
      Insert(s[0], Sort(s[1..]))
  }

  /** The directory entries the glob returns, joined to the directory. */
  function Matches(dir: string, names: seq<string>): (r: seq<string>)
    ensures forall p :: p in r <==> exists n :: n in names && GlobMatch(n) && p == PathJoin(dir, n)
  {
    if names == [] then []
    else
      var rest := Matches(dir, names[1..]);
      assert forall n :: n in names <==> n == names[0] || n in names[1..];
      if GlobMatch(names[0]) then [PathJoin(dir, names[0])] + rest else rest
  }

  /** `input_files`: the matching files of the data directory, in sorted
      order; no match fails the assertion. */
  function InputFiles(dir: string, names: seq<string>): (r: Result<seq<string>>)
    ensures r.Failure? <==> forall n :: n in names ==> !GlobMatch(n)
    ensures r.Failure? ==> r.error == AssertionError("No files found in " + dir)
    ensures r.Success? ==> Sorted(r.value) && multiset(r.value) == multiset(Matches(dir, names))
  {
    var files := Sort(Matches(dir, names));
    assert |files| == |Matches(dir, names)| by {
      assert |multiset(files)| == |multiset(Matches(dir, names))|;
    }
    assert forall n :: n in names && GlobMatch(n) ==> |files| > 0 by {
      forall n | n in names && GlobMatch(n) ensures |files| > 0 {
        assert PathJoin(dir, n) in Matches(dir, names);
      }
    }
    assert |files| > 0 ==> Matches(dir, names)[0] in Matches(dir, names);
    if |files| == 0 then Failure(AssertionError("No files found in " + dir)) else Success(files)
  }

  // ---------------------------------------------------------------------
  // Reading the readme

  const HEADER := "Column Name"

  const RULE := "-------"

  /** The first line at or after `from` that starts the column table. */
  function HeaderIndex(lines: seq<string>, from: nat): (r: Option<nat>)
    requires from <= |lines|
    ensures r.Some? ==> from <= r.value < |lines| && StartsWith(lines[r.value], HEADER)
    ensures r.Some? ==> forall j :: from <= j < r.value ==> !StartsWith(lines[j], HEADER)
    ensures r.None? ==> forall j :: from <= j < |lines| ==> !StartsWith(lines[j], HEADER)
    decreases |lines| - from
  {
    if from == |lines| then None
    else if StartsWith(lines[from], HEADER) then Some(from)
    else HeaderIndex(lines, from + 1)
  }

  predicate Blank(line: string) {
    Strip(line) == ""
  }

  /** One line of the column table: nothing for a blank line, else its first
      two whitespace-separated words, the name and the SQL type. */
  function ColumnRow(line: string): Result<Option<(string, string)>> {
    var words := Split(Strip(line));
    if Blank(line) then Success(None)
    else if |words| < 2 then Failure(ValueError("not enough values to unpack (expected at least 2, got 1)"))
    else Success(Some((words[0], words[1])))
  }

  /** The rows of the column table in file order; the first line with a
      single word stops the scan. */
  function ColumnRows(body: seq<string>): Result<seq<(string, string)>> {
    if body == [] then Success([])
    else
      var rows :- ColumnRows(body[..|body| - 1]);
      var row :- ColumnRow(body[|body| - 1]);
      Success(if row.Some? then rows + [row.value] else rows)
  }

  /** The line `readline` returns after the header: the next line, or the
      empty string at the end of the file. */
  function NextLine(lines: seq<string>, h: nat): string {
    if h + 1 < |lines| then lines[h + 1] else ""
  }

  /** `column_definitions_from_readme` up to the rows it reads: the table
      after the header and its ruler line, which must both be present. */
  function ReadmeColumns(lines: seq<string>): Result<seq<(string, string)>> {
    var h := HeaderIndex(lines, 0);
    if h.None? || !StartsWith(NextLine(lines, h.value), RULE) then Failure(AssertionError(""))
    else ColumnRows(lines[h.value + 2..])
  }

  /** The non-blank lines of the table, in order. */
  function NonBlank(body: seq<string>): (r: seq<string>)
    ensures forall i :: 0 <= i < |r| ==> r[i] in body && !Blank(r[i])
  {
    if body == [] then []
    else
      var init := NonBlank(body[..|body| - 1]);
      var last := body[|body| - 1];
      if Blank(last) then init else init + [last]
  }

  /** Every non-blank line of the table has at least two words. */
  ghost predicate AllRows(body: seq<string>) {
    forall l :: l in NonBlank(body) ==> |Split(Strip(l))| >= 2
  }

  lemma {:induction false} ColumnRowsSucceeds(body: seq<string>)
    ensures ColumnRows(body).Success? <==> AllRows(body)
  {
    if body != [] {
      var init, last := body[..|body| - 1], body[|body| - 1];
      ColumnRowsSucceeds(init);
      if Blank(last) {
        assert NonBlank(body) == NonBlank(init);
      } else {
        assert NonBlank(body) == NonBlank(init) + [last];
        assert AllRows(body) <==> AllRows(init) && |Split(Strip(last))| >= 2;
      }
    }
  }

  lemma {:induction false} ColumnRowsValues(body: seq<string>)
    requires ColumnRows(body).Success?
    ensures var rows, lines := ColumnRows(body).value, NonBlank(body);
            && |rows| == |lines|
            && forall i :: 0 <= i < |rows| ==>
                 |Split(Strip(lines[i]))| >= 2 && rows[i] == (Split(Strip(lines[i]))[0], Split(Strip(lines[i]))[1])
  {
    if body != [] {
      ColumnRowsValues(body[..|body| - 1]);
    }
  }

  /** The scan succeeds iff every non-blank line has at least two words, and
      then it yields one row per non-blank line, in order: the line's first
      word as the name and its second as the type. */
  lemma ColumnRowsSpec(body: seq<string>)
    ensures ColumnRows(body).Success? <==> forall l :: l in NonBlank(body) ==> |Split(Strip(l))| >= 2
    ensures ColumnRows(body).Success? ==>
              var rows, lines := ColumnRows(body).value, NonBlank(body);
              && |rows| == |lines|
              && forall i :: 0 <= i < |rows| ==> rows[i] == (Split(Strip(lines[i]))[0], Split(Strip(lines[i]))[1])
  {
    ColumnRowsSucceeds(body);
    if ColumnRows(body).Success? {
      ColumnRowsValues(body);
    }
  }

  /** Without a header line, or without the ruler right after it, the scan
      fails its assertion; otherwise it reads the rest of the file. */
  lemma ReadmeColumnsHeader(lines: seq<string>, h: nat)
    requires h < |lines| && StartsWith(lines[h], HEADER)
    requires forall j :: 0 <= j < h ==> !StartsWith(lines[j], HEADER)
    ensures StartsWith(NextLine(lines, h), RULE) ==> h + 2 <= |lines| && ReadmeColumns(lines) == ColumnRows(lines[h + 2..])
    ensures !StartsWith(NextLine(lines, h), RULE) ==> ReadmeColumns(lines) == Failure(AssertionError(""))
  {
    assert HeaderIndex(lines, 0) == Some(h);
  }

  lemma ReadmeColumnsNoHeader(lines: seq<string>)
    requires forall j :: 0 <= j < |lines| ==> !StartsWith(lines[j], HEADER)
    ensures ReadmeColumns(lines) == Failure(AssertionError(""))
  {
    assert HeaderIndex(lines, 0) == None;
  }

  /** A failing row stops the scan: nothing after it changes the outcome. */
  lemma {:induction false} ColumnRowsStops(body: seq<string>, more: seq<string>)
    requires ColumnRows(body).Failure?
    ensures ColumnRows(body + more) == ColumnRows(body)
    decreases |more|
  {
    if more != [] {
      var b := body + more[..|more| - 1];
      ColumnRowsStops(body, more[..|more| - 1]);
      assert (body + more)[..|body + more| - 1] == b;
      assert ColumnRows(b).Failure?;
      assert ColumnRows(body + more) == Failure(ColumnRows(b).error);
    } else {
      assert body + more == body;
    }
  }

  /** The readme scan: skip to the header, check the ruler, then read one
      row per non-blank line. */
  method ScanReadme(lines: seq<string>) returns (r: Result<seq<(string, string)>>)
    ensures r == ReadmeColumns(lines)
  {
    var i := 0;
    while i < |lines| && !StartsWith(lines[i], HEADER)
      invariant 0 <= i <= |lines|
      invariant forall j :: 0 <= j < i ==> !StartsWith(lines[j], HEADER)
    {
      i := i + 1;
    }
    if i == |lines| {
      ReadmeColumnsNoHeader(lines);
      return Failure(AssertionError(""));
    }
    ReadmeColumnsHeader(lines, i);
    var next := if i + 1 < |lines| then lines[i + 1] else "";
    if !StartsWith(next, RULE) {
      return Failure(AssertionError(""));
    }
    r := ScanRows(lines[i + 2..]);
  }

  /** One more line of the table: its row, if any, is appended. */
  lemma ColumnRowsNext(body: seq<string>, k: nat, rows: seq<(string, string)>)
    requires k < |body| && ColumnRows(body[..k]) == Success(rows)
    ensures var row := ColumnRow(body[k]);
            ColumnRows(body[..k + 1]) ==
              if row.Failure? then Failure(row.error)
              else Success(if row.value.Some? then rows + [row.value.value] else rows)
  {
    assert body[..k + 1][..k] == body[..k];
  }

  /** A failing line decides the outcome of the whole scan. */
  lemma RowFailureFinal(body: seq<string>, k: nat)
    requires k < |body| && ColumnRows(body[..k + 1]).Failure?
    ensures ColumnRows(body) == ColumnRows(body[..k + 1])
  {
    ColumnRowsStops(body[..k + 1], body[k + 1..]);
    assert body[..k + 1] + body[k + 1..] == body;
  }

  /** The row loop of the scan: one row per non-blank line, until a line with
      a single word. */
  method ScanRows(body: seq<string>) returns (r: Result<seq<(string, string)>>)
    ensures r == ColumnRows(body)
  {
    var rows := [];
    var k := 0;
    while k < |body|
      invariant 0 <= k <= |body|
      invariant ColumnRows(body[..k]) == Success(rows)
    {
      ColumnRowsNext(body, k, rows);
      var line := Strip(body[k]);
      if line != "" {
        var words := Split(line);
        if |words| < 2 {
          RowFailureFinal(body, k);
          return Failure(ValueError("not enough values to unpack (expected at least 2, got 1)"));
        }
        rows := rows + [(words[0], words[1])];
      }
      k := k + 1;
    }
    assert body[..k] == body;
    r := Success(rows);
  }

  // ---------------------------------------------------------------------
  // The column dict

  /** A value of the definitions dict: a readme SQL type, or the `types`
      list itself, which holds `count` references to itself. */
  datatype Cell = Sql(text: string) | TypesList(count: nat)

  /** `repr` of the self-containing list: each element prints as `[...]`. */
  function ListRepr(count: nat): string {
    "[" + Join(", ", seq(count, _ => "[...]")) + "]"
  }

  /** `_sql_type_to_ch` on a dict value: no case of the `match` matches a
      list, so it is rejected with its `repr`. */
  function CellToCh(c: Cell): Result<string> {
    match c
    case Sql(text) => SqlTypeToCh(text)
    case TypesList(count) => Failure(Unsupported(ListRepr(count)))
  }

  /** `dict(zip(names, types))` as the code builds it: every name maps to
      the `types` list, which by then holds one self-reference per row. */
  function DefinitionsAsWritten(rows: seq<(string, string)>): Dict<string, Cell> {
    FromPairs(SelfCells(rows))
  }

  function SelfCells(rows: seq<(string, string)>): (r: seq<(string, Cell)>)
    ensures |r| == |rows|
    ensures forall i :: 0 <= i < |rows| ==> r[i] == (rows[i].0, TypesList(|rows|))
  {
    seq(|rows|, i requires 0 <= i < |rows| => (rows[i].0, TypesList(|rows|)))
  }

  function SqlCells(rows: seq<(string, string)>): (r: seq<(string, Cell)>)
    ensures |r| == |rows|
    ensures forall i :: 0 <= i < |rows| ==> r[i] == (rows[i].0, Sql(rows[i].1))
  {
    seq(|rows|, i requires 0 <= i < |rows| => (rows[i].0, Sql(rows[i].1)))
  }

  /** `dict(zip(names, types))` with each row's SQL type appended to `types`. */
  function Definitions(rows: seq<(string, string)>): Dict<string, Cell> {
    FromPairs(SqlCells(rows))
  }

  /** `ch_columns`: every value converted, in dict order; the first value
      that cannot be converted raises. */
  function ChColumns(defs: Dict<string, Cell>): (r: Result<Dict<string, string>>)
    ensures r.Success? <==> forall i :: 0 <= i < |defs| ==> CellToCh(defs[i].1).Success?
    ensures r.Success? ==>
              && |r.value| == |defs|
              && forall i :: 0 <= i < |defs| ==> r.value[i] == (defs[i].0, CellToCh(defs[i].1).value)
    ensures r.Failure? ==> exists i :: 0 <= i < |defs| && CellToCh(defs[i].1) == Failure(r.error)
  {
    if defs == [] then Success([])
    else
      var t :- CellToCh(defs[0].1);
      var rest :- ChColumns(defs[1..]);
      assert forall i :: 0 < i < |defs| ==> defs[i] == defs[1..][i - 1];
      Success([(defs[0].0, t)] + rest)
  }

  /** Reading a converted dict: the same keys, each value converted. */
  lemma {:induction false} ChColumnsGet(defs: Dict<string, Cell>, k: string)
    requires ChColumns(defs).Success?
    ensures var cols := ChColumns(defs).value;
            && (Get(cols, k).Some? <==> Get(defs, k).Some?)
            && (Get(defs, k).Some? ==> CellToCh(Get(defs, k).value) == Success(Get(cols, k).value))
  {
    if defs != [] && defs[0].0 != k {
      ChColumnsGet(defs[1..], k);
      assert ChColumns(defs).value[1..] == ChColumns(defs[1..]).value;
    }
  }

  /** As written, a readme with any column fails: the value of every name is
      the `types` list, which no case of the type conversion accepts, even
      when every SQL type in the readme is supported. */
  lemma AsWrittenRejectsEveryReadme(rows: seq<(string, string)>)
    requires rows != []
    ensures ChColumns(DefinitionsAsWritten(rows)) == Failure(Unsupported(ListRepr(|rows|)))
  {
    var pairs := SelfCells(rows);
    var defs := DefinitionsAsWritten(rows);
    assert pairs[0].0 == rows[0].0;
    assert rows[0].0 in PairKeys(pairs);
    var k := defs[0].0;
    LastValueOfConstant(pairs, k, TypesList(|rows|));
    assert Get(defs, k) == Some(defs[0].1);
  }

  lemma {:induction false} LastValueOfConstant<K(!new), V>(ps: seq<(K, V)>, k: K, v: V)
    requires forall i :: 0 <= i < |ps| ==> ps[i].1 == v
    ensures LastValue(ps, k).Some? ==> LastValue(ps, k).value == v
  {
    if ps != [] && ps[|ps| - 1].0 != k {
      LastValueOfConstant(ps[..|ps| - 1], k, v);
    }
  }

  /** The repr of a one-element list that holds itself. */
  lemma ListReprOne()
    ensures ListRepr(1) == "[[...]]"
  {
    assert seq(1, _ => "[...]") == ["[...]"];
  }

  /** A one-column readme as the code reads it: whatever the column's type,
      even the supported `bigint`, the conversion fails on the list. */
  lemma AsWrittenExample(name: string, sqlType: string)
    ensures ChColumns(DefinitionsAsWritten([(name, sqlType)])) == Failure(ValueError("SQL type [[...]] is not supported"))
  {
    AsWrittenRejectsEveryReadme([(name, sqlType)]);
    UnsupportedOneList();
  }

  lemma UnsupportedOneList()
    ensures Unsupported(ListRepr(1)) == ValueError("SQL type [[...]] is not supported")
  {
    ListReprOne();
    assert "SQL type " + "[[...]]" + " is not supported" == "SQL type [[...]] is not supported";
  }

  /** The same readme with its row type appended converts. */
  lemma CorrectedExample()
    ensures ChColumns(Definitions([("objID", "bigint")])) == Success([("objID", "Int64")])
  {
    var pairs := SqlCells([("objID", "bigint")]);
    assert pairs == [("objID", Sql("bigint"))];
    assert pairs[..0] == [];
    var defs := Definitions([("objID", "bigint")]);
    assert defs == [("objID", Sql("bigint"))];
    assert defs[1..] == [];
    assert SqlTypeToCh("bigint") == Success("Int64");
    assert CellToCh(defs[0].1) == Success("Int64");
    assert ChColumns(defs[1..]) == Success([]);
    assert ChColumns(defs) == Success([(defs[0].0, "Int64")] + []);
    assert [(defs[0].0, "Int64")] + [] == [("objID", "Int64")];
  }


  lemma {:induction false} LastValueSql(rows: seq<(string, string)>, k: string)
    ensures LastValue(SqlCells(rows), k) == if LastValue(rows, k).Some? then Some(Sql(LastValue(rows, k).value)) else None
  {
    if rows != [] {
      var init := rows[..|rows| - 1];
      LastValueSql(init, k);
      assert SqlCells(rows)[..|rows| - 1] == SqlCells(init);
    }
  }

  lemma DefinitionsGet(rows: seq<(string, string)>, k: string)
    ensures Get(Definitions(rows), k) == if LastValue(rows, k).Some? then Some(Sql(LastValue(rows, k).value)) else None
  {
    LastValueSql(rows, k);
  }

  /** Every name's last row has a supported SQL type. */
  ghost predicate AllSupported(rows: seq<(string, string)>) {
    forall k :: LastValue(rows, k).Some? ==> LastValue(rows, k).value in SQL_TYPES
  }

  lemma SupportedConverts(rows: seq<(string, string)>)
    requires AllSupported(rows)
    ensures ChColumns(Definitions(rows)).Success?
  {
    var defs := Definitions(rows);
    forall i | 0 <= i < |defs| ensures CellToCh(defs[i].1).Success? {
      GetAt(defs, i);
      DefinitionsGet(rows, defs[i].0);
    }
  }

  lemma ConvertedSupported(rows: seq<(string, string)>, k: string)
    requires ChColumns(Definitions(rows)).Success? && LastValue(rows, k).Some?
    ensures LastValue(rows, k).value in SQL_TYPES
  {
    var defs := Definitions(rows);
    DefinitionsGet(rows, k);
    var i :| 0 <= i < |defs| && defs[i].0 == k;
    GetAt(defs, i);
    assert CellToCh(defs[i].1).Success?;
  }

  /** With the row types appended, the columns convert iff the type each
      name ends up with is supported (the last row of a repeated name
      wins). */
  lemma DefinitionsConvert(rows: seq<(string, string)>)
    ensures ChColumns(Definitions(rows)).Success? <==> AllSupported(rows)
  {
    if ChColumns(Definitions(rows)).Success? {
      forall k | LastValue(rows, k).Some? ensures LastValue(rows, k).value in SQL_TYPES {
        ConvertedSupported(rows, k);
      }
    } else if AllSupported(rows) {
      SupportedConverts(rows);
    }
  }

  /** A converted readme has a column for exactly the names of its rows, of
      the converted type of the name's last row. */
  lemma DefinitionsColumn(rows: seq<(string, string)>, k: string)
    requires ChColumns(Definitions(rows)).Success?
    ensures Get(ChColumns(Definitions(rows)).value, k).Some? <==> LastValue(rows, k).Some?
    ensures LastValue(rows, k).Some? ==>
              SqlTypeToCh(LastValue(rows, k).value) == Success(Get(ChColumns(Definitions(rows)).value, k).value)
  {
    DefinitionsGet(rows, k);
    ChColumnsGet(Definitions(rows), k);
  }

}
