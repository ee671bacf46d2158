/** `ZTFMetadataExposures`: the SQLite view of the ZTF exposure metadata,
    its column table, the check of a ClickHouse schema against it, and the
    `SELECT` that reads it. */
module SqliteQuery {
  import opened Common
  import opened PyStr
  import opened PyDict

  const TABLE_NAME := "exposures"

  const PRAGMA_QUERY := "PRAGMA table_info(" + TABLE_NAME + ")"

  /** A row of `PRAGMA table_info`: `cid`, `name`, `type`, `notnull`,
      `dflt_value`, `pk`. */
  datatype ColumnInfo = ColumnInfo(cid: int, name: string, sqlType: string, notnull: int, dfltValue: Option<string>, pk: int)
  {
    /** `null` is `not notnull`. */
    predicate Null() {
      notnull == 0
    }
  }

  function InfoPairs(rows: seq<ColumnInfo>): (r: seq<(string, ColumnInfo)>)
    ensures |r| == |rows|
    ensures forall i :: 0 <= i < |rows| ==> r[i] == (rows[i].name, rows[i])
  {
    seq(|rows|, i requires 0 <= i < |rows| => (rows[i].name, rows[i]))
  }

  /** `_get_table_info`: the rows keyed by column name. */
  function TableInfo(rows: seq<ColumnInfo>): Dict<string, ColumnInfo> {
    FromPairs(InfoPairs(rows))
  }

  function Names(rows: seq<ColumnInfo>): (r: seq<string>)
    ensures |r| == |rows|
    ensures forall i :: 0 <= i < |rows| ==> r[i] == rows[i].name
  {
    seq(|rows|, i requires 0 <= i < |rows| => rows[i].name)
  }

  /** With the distinct names SQLite gives a table's columns, the table info
      lists the columns in table order, each under its own name. */
  lemma TableInfoColumns(rows: seq<ColumnInfo>)
    requires Distinct(Names(rows))
    ensures Keys(TableInfo(rows)) == Names(rows)
    ensures forall i :: 0 <= i < |rows| ==> Get(TableInfo(rows), rows[i].name) == Some(rows[i])
  {
    var ps := InfoPairs(rows);
    assert Keys(ps) == Names(rows);
    FromPairsKeys(ps);
    var info := TableInfo(rows);
    forall i | 0 <= i < |rows| ensures Get(info, rows[i].name) == Some(rows[i]) {
      assert |info| == |rows|;
      GetAt(info, i);
      assert info[i].0 == rows[i].name;
      LastValueAt(ps, i);
    }
  }

  /** The pair a key was last given is the value of that key. */
  lemma {:induction false} LastValueAt<K(!new), V>(ps: seq<(K, V)>, i: nat)
    requires i < |ps| && Distinct(Keys(ps))
    ensures LastValue(ps, ps[i].0) == Some(ps[i].1)
  {
    if i < |ps| - 1 {
      assert Keys(ps)[i] != Keys(ps)[|ps| - 1];
      var init := ps[..|ps| - 1];
      assert Distinct(Keys(init)) by {
        forall a, b | 0 <= a < b < |init| ensures Keys(init)[a] != Keys(init)[b] {
          assert Keys(init)[a] == Keys(ps)[a] && Keys(init)[b] == Keys(ps)[b];
        }
      }
      LastValueAt(init, i);
    }
  }

  // ---------------------------------------------------------------------
  // Validating a ClickHouse schema

  function NotFound(col: string): Error {
    ValueError("Column " + col + " not found in " + TABLE_NAME)
  }

  function Mismatch(col: string): Error {
    ValueError("Column " + col + " nullability mismatch")
  }

  /** A ClickHouse column agrees with the table: the column exists, and its
      type is `Nullable(...)` exactly when the SQLite column may be null. */
  predicate ColumnAgrees(info: Dict<string, ColumnInfo>, col: (string, string)) {
    Get(info, col.0).Some? && StartsWith(col.1, "Nullable") == Get(info, col.0).value.Null()
  }

  function ColumnError(info: Dict<string, ColumnInfo>, col: (string, string)): Error {
    if Get(info, col.0).None? then NotFound(col.0) else Mismatch(col.0)
  }

  /** `validate_ch_columns`: the columns are checked in order and the first
      that disagrees with the table raises. */
  function ValidateColumns(info: Dict<string, ColumnInfo>, cols: Dict<string, string>): (r: Result<()>)
    ensures r.Success? <==> forall i :: 0 <= i < |cols| ==> ColumnAgrees(info, cols[i])
    ensures r.Failure? ==>
              exists i :: 0 <= i < |cols| && !ColumnAgrees(info, cols[i]) && r.error == ColumnError(info, cols[i])
                          && forall j :: 0 <= j < i ==> ColumnAgrees(info, cols[j])
  {
    if cols == [] then Success(())
    else if !ColumnAgrees(info, cols[0]) then Failure(ColumnError(info, cols[0]))
    else
      var r := ValidateColumns(info, cols[1..]);
      assert forall i :: 0 < i < |cols| ==> cols[i] == cols[1..][i - 1];
      r
  }

  // ---------------------------------------------------------------------
  // Reading the table

  /** The selected columns: all columns of the table by default, without
      the excluded ones. */
  function Included(info: Dict<string, ColumnInfo>, selected: Option<seq<string>>, excluded: Option<seq<string>>): seq<string> {
    var base := if selected.None? then Keys(info) else selected.value;
    if excluded.None? then base else Without(base, excluded.value)
  }

  /** `[col for col in include if col not in exclude_set]` */
  function Without(cols: seq<string>, excluded: seq<string>): (r: seq<string>)
    ensures forall c :: c in r <==> c in cols && c !in excluded
  {
    if cols == [] then []
    else
      assert forall c :: c in cols <==> c == cols[0] || c in cols[1..];
      (if cols[0] in excluded then [] else [cols[0]]) + Without(cols[1..], excluded)
  }

  /** Exclusion keeps the order of what remains: it works piece by piece. */
  lemma {:induction false} WithoutAppend(a: seq<string>, b: seq<string>, excluded: seq<string>)
    ensures Without(a + b, excluded) == Without(a, excluded) + Without(b, excluded)
  {
    if a != [] {
      assert (a + b)[1..] == a[1..] + b;
      WithoutAppend(a[1..], b, excluded);
    } else {
      assert a + b == b;
    }
  }

  /** Nothing but the excluded columns goes. */
  lemma {:induction false} WithoutNothing(cols: seq<string>, excluded: seq<string>)
    requires forall c :: c in cols ==> c !in excluded
    ensures Without(cols, excluded) == cols
  {
    if cols != [] {
      assert forall c :: c in cols[1..] ==> c in cols;
      WithoutNothing(cols[1..], excluded);
    }
  }

  /** The expression that reads a column: an empty string in a non-`TEXT`
      column declared `NOT NULL` reads as null, other columns as they are. */
  function Selector(c: ColumnInfo, col: string): string {
    if c.sqlType != "TEXT" && c.notnull != 0 then "NULLIF(" + col + ", '')" else col
  }

  /** `NULLIF` wraps exactly the non-`TEXT` `NOT NULL` columns, and every
      selector reads its own column. */
  lemma SelectorNullIf(c: ColumnInfo, col: string)
    ensures Selector(c, col) != col <==> c.sqlType != "TEXT" && c.notnull != 0
    ensures Selector(c, col) == col || Selector(c, col)[7..7 + |col|] == col
  {
    if c.sqlType != "TEXT" && c.notnull != 0 {
      assert |Selector(c, col)| == |col| + 12;
    }
  }

  /** The selectors of the columns, in order; the first column not in the
      table raises. */
  function Selectors(info: Dict<string, ColumnInfo>, cols: seq<string>): Result<seq<string>> {
    if cols == [] then Success([])
    else
      var prev :- Selectors(info, cols[..|cols| - 1]);
      var col := cols[|cols| - 1];
      if Get(info, col).None? then Failure(NotFound(col))
      else Success(prev + [Selector(Get(info, col).value, col)])
  }

  /** The selectors exist iff every column is in the table, one per column
      in column order; otherwise the first missing column is reported. */
  lemma SelectorsSpec(info: Dict<string, ColumnInfo>, cols: seq<string>)
    ensures Selectors(info, cols).Success? <==> forall i :: 0 <= i < |cols| ==> Get(info, cols[i]).Some?
    ensures Selectors(info, cols).Success? ==>
              && |Selectors(info, cols).value| == |cols|
              && forall i :: 0 <= i < |cols| ==> Selectors(info, cols).value[i] == Selector(Get(info, cols[i]).value, cols[i])
    ensures Selectors(info, cols).Failure? ==>
              exists i :: 0 <= i < |cols| && Get(info, cols[i]).None? && Selectors(info, cols).error == NotFound(cols[i])
                          && forall j :: 0 <= j < i ==> Get(info, cols[j]).Some?
  {
    SelectorsValues(info, cols);
    SelectorsFirstMissing(info, cols);
    if Selectors(info, cols).Failure? {
      var i :| FirstMissing(info, cols, i) && Selectors(info, cols).error == NotFound(cols[i]);
    }
  }

  lemma {:induction false} SelectorsValues(info: Dict<string, ColumnInfo>, cols: seq<string>)
    ensures Selectors(info, cols).Success? <==> forall i :: 0 <= i < |cols| ==> Get(info, cols[i]).Some?
    ensures Selectors(info, cols).Success? ==>
              && |Selectors(info, cols).value| == |cols|
              && forall i :: 0 <= i < |cols| ==> Selectors(info, cols).value[i] == Selector(Get(info, cols[i]).value, cols[i])
  {
    if cols != [] {
      SelectorsValues(info, cols[..|cols| - 1]);
    }
  }

  /** Column `i` is the first one the table lacks. */
  ghost predicate FirstMissing(info: Dict<string, ColumnInfo>, cols: seq<string>, i: int) {
    0 <= i < |cols| && Get(info, cols[i]).None? && forall j :: 0 <= j < i ==> Get(info, cols[j]).Some?
  }

  lemma {:induction false} SelectorsFirstMissing(info: Dict<string, ColumnInfo>, cols: seq<string>)
    ensures Selectors(info, cols).Failure? ==>
              exists i :: FirstMissing(info, cols, i) && Selectors(info, cols).error == NotFound(cols[i])
  {
    if cols != [] {
      var init := cols[..|cols| - 1];
      SelectorsFirstMissing(info, init);
      if Selectors(info, init).Failure? {
        var i :| FirstMissing(info, init, i) && Selectors(info, init).error == NotFound(init[i]);
        assert forall j :: 0 <= j <= i ==> cols[j] == init[j];
        assert FirstMissing(info, cols, i);
      } else if Selectors(info, cols).Failure? {
        var last := |cols| - 1;
        SelectorsValues(info, init);
        assert forall j :: 0 <= j < last ==> cols[j] == init[j];
        assert FirstMissing(info, cols, last);
      }
    }
  }

  lemma {:induction false} SelectorsStops(info: Dict<string, ColumnInfo>, cols: seq<string>, more: seq<string>)
    requires Selectors(info, cols).Failure?
    ensures Selectors(info, cols + more) == Selectors(info, cols)
    decreases |more|
  {
    if more == [] {
      assert cols + more == cols;
    } else {
      SelectorsStops(info, cols, more[..|more| - 1]);
      assert (cols + more)[..|cols + more| - 1] == cols + more[..|more| - 1];
    }
  }

  /** The selector loop of `get_data`. */
  method BuildSelectors(info: Dict<string, ColumnInfo>, cols: seq<string>) returns (r: Result<seq<string>>)
    ensures r == Selectors(info, cols)
  {
    var selectors := [];
    for i := 0 to |cols|
      invariant Selectors(info, cols[..i]) == Success(selectors)
    {
      assert cols[..i + 1][..i] == cols[..i];
      var col := cols[i];
      if Get(info, col).None? {
        SelectorsStops(info, cols[..i + 1], cols[i + 1..]);
        assert cols[..i + 1] + cols[i + 1..] == cols;
        return Failure(NotFound(col));
      }
      selectors := selectors + [Selector(Get(info, col).value, col)];
    }
    assert cols[..|cols|] == cols;
    r := Success(selectors);
  }

  function SelectQuery(selectors: seq<string>): string {
    "SELECT " + Join(", ", selectors) + " FROM " + TABLE_NAME
  }

  /** A data frame: the column labels and the fetched rows. */
  datatype Frame = Frame(columns: seq<string>, rows: seq<seq<string>>)

  /** An open connection to the metadata database: its table info, read on
      entering, and the statements its cursor has executed. */
  class Exposures {
    const path: string
    var tableInfo: Dict<string, ColumnInfo>
    var executed: seq<string>

    constructor(path: string)
      ensures this.path == path && tableInfo == [] && executed == []
    {
      this.path := path;
      tableInfo := [];
      executed := [];
    }

    /** `__enter__`: reads the table info through `PRAGMA table_info`. */
    method Enter(pragmaRows: seq<ColumnInfo>)
      modifies this
      ensures executed == old(executed) + [PRAGMA_QUERY]
      ensures tableInfo == TableInfo(pragmaRows)
    {
      executed := executed + [PRAGMA_QUERY];
      tableInfo := TableInfo(pragmaRows);
    }

    /** `validate_ch_columns` */
    method ValidateChColumns(chColumns: Dict<string, string>) returns (r: Result<()>)
      ensures r == ValidateColumns(tableInfo, chColumns)
    {
      for i := 0 to |chColumns|
        invariant forall j :: 0 <= j < i ==> ColumnAgrees(tableInfo, chColumns[j])
      {
        var (name, chType) := chColumns[i];
        if Get(tableInfo, name).None? {
          return Failure(NotFound(name));
        }
        if StartsWith(chType, "Nullable") != Get(tableInfo, name).value.Null() {
          return Failure(Mismatch(name));
        }
      }
      var v := ValidateColumns(tableInfo, chColumns);
      assert v.Success?;
      assert v == Success(v.value);
      assert v.value == ();
      return Success(());
    }

    /** `get_data`: the selectors of the included columns, then one `SELECT`
        whose rows `fetch` gives; an unknown column raises before any query
        runs. */
    method GetData(selected: Option<seq<string>>, excluded: Option<seq<string>>, fetch: string -> seq<seq<string>>)
      returns (r: Result<Frame>)
      modifies this
      ensures tableInfo == old(tableInfo)
      ensures var cols := Included(tableInfo, selected, excluded);
              var sel := Selectors(tableInfo, cols);
              && (sel.Failure? ==> r == Failure(sel.error) && executed == old(executed))
              && (sel.Success? ==> r == Success(Frame(cols, fetch(SelectQuery(sel.value))))
                                   && executed == old(executed) + [SelectQuery(sel.value)])
    {
      var cols := if selected.None? then Keys(tableInfo) else selected.value;
      if excluded.Some? {
        cols := Without(cols, excluded.value);
      }
      var sel := BuildSelectors(tableInfo, cols);
      if sel.Failure? {
        return Failure(sel.error);
      }
      var selectors := sel.value;
      var query := SelectQuery(selectors);
      executed := executed + [query];
      r := Success(Frame(cols, fetch(query)));
    }
  }
}
