/** The ZTF exposure metadata putter: its ClickHouse schema, the columns it
    checks against the SQLite table, the chunks it computes exposure times
    in, and its actions. */
module ZtfMetadataPut {
  import opened Common
  import opened PyStr
  import opened PyDict
  import SqliteQuery
  import Putter

  const DB := "ztf"

  const TABLE_NAME := "exposures"

  /** The columns of `ch_columns` read from the SQLite table. */
  const READ_COLUMNS: Dict<string, string> := [
    ("expid", "UInt32"), ("field", "UInt16"), ("filter", "Enum('g', 'r', 'i')"),
    ("ra", "Float64"), ("dec", "Float64"), ("exptime", "Float32"), ("airmass", "Float32"),
    ("infobits", "Nullable(UInt8)"), ("dr", "Nullable(UInt8)"), ("numsci", "Nullable(UInt8)"),
    ("numdiff", "Nullable(UInt8)"), ("fwhm", "Nullable(Float32)"), ("maglim", "Nullable(Float32)"),
    ("scibckgnd", "Nullable(Float32)"), ("ellip", "Nullable(Float32)"), ("ellippa", "Nullable(Float32)")]

  /** The columns of `ch_columns` the putter adds. */
  const ADDED_COLUMNS: Dict<string, string> := [
    ("expstart_mjd", "Float64"), ("expmid_hmjd", "Float64"), ("rcid", "UInt8")]

  /** `ch_columns`, in declaration order. */
  const CH_COLUMNS: Dict<string, string> := READ_COLUMNS + ADDED_COLUMNS

  /** The columns the putter computes itself rather than reads from SQLite. */
  const NEW_COLUMNS := {"expstart_mjd", "expmid_hmjd", "rcid"}

  /** The dict comprehension that drops the computed columns. */
  function WithoutNew(cols: Dict<string, string>): (r: Dict<string, string>)
    ensures forall p :: p in r <==> p in cols && p.0 !in NEW_COLUMNS
  {
    if cols == [] then []
    else
      assert forall p :: p in cols <==> p == cols[0] || p in cols[1..];
      (if cols[0].0 in NEW_COLUMNS then [] else [cols[0]]) + WithoutNew(cols[1..])
  }

  /** Dropping works entry by entry, so the remaining columns keep their
      order. */
  lemma {:induction false} WithoutNewAppend(a: Dict<string, string>, b: Dict<string, string>)
    ensures WithoutNew(a + b) == WithoutNew(a) + WithoutNew(b)
  {
    if a != [] {
      assert (a + b)[1..] == a[1..] + b;
      WithoutNewAppend(a[1..], b);
    } else {
      assert a + b == b;
    }
  }

  /** The schema is checked against SQLite for every column but exactly the
      three computed ones, in declaration order. */
  lemma ValidatedColumns()
    ensures WithoutNew(CH_COLUMNS) == READ_COLUMNS
  {
    WithoutNewAppend(READ_COLUMNS, ADDED_COLUMNS);
    KeepRead();
    DropAdded();
  }

  lemma KeepRead()
    ensures WithoutNew(READ_COLUMNS) == READ_COLUMNS
  {
    KeepAll(READ_COLUMNS);
  }

  lemma DropAdded()
    ensures WithoutNew(ADDED_COLUMNS) == []
  {
    var a := ADDED_COLUMNS;
    assert a[1..][1..][1..] == [];
  }

  lemma {:induction false} KeepAll(cols: Dict<string, string>)
    requires forall p :: p in cols ==> p.0 !in NEW_COLUMNS
    ensures WithoutNew(cols) == cols
  {
    if cols != [] {
      assert forall p :: p in cols[1..] ==> p in cols;
      KeepAll(cols[1..]);
    }
  }

  // ---------------------------------------------------------------------
  // Chunks for the exposure-time computation

  /** `len(df) // (processes + 1)` */
  function Step(n: nat, processes: nat): nat {
    n / (processes + 1)
  }

  /** The length of `np.arange(0, n + step, step)` for a positive step. */
  function EdgeCount(n: nat, step: nat): nat
    requires step > 0
  {
    (n + step + step - 1) / step
  }

  /** `[0, step, 2 * step, ...]`, `k` values. */
  function Multiples(k: nat, step: nat): (r: seq<nat>)
    ensures |r| == k
    ensures forall i :: 0 <= i < k ==> r[i] == i * step
  {
    if k == 0 then [] else Multiples(k - 1, step) + [(k - 1) * step]
  }

  /** `np.arange(0, len(df) + step, step)`; a zero step raises. */
  function Edges(n: nat, processes: nat): Result<seq<nat>> {
    var step := Step(n, processes);
    if step == 0 then Failure(ZeroDivisionError)
    else Success(Multiples(EdgeCount(n, step), step))
  }

  /** `zip(edges[:-1], edges[1:])` */
  function Pairs(edges: seq<nat>): (r: seq<(nat, nat)>)
    ensures |r| == if edges == [] then 0 else |edges| - 1
    ensures forall j :: 0 <= j < |r| ==> r[j] == (edges[j], edges[j + 1])
  {
    if |edges| < 2 then [] else Pairs(edges[..|edges| - 1]) + [(edges[|edges| - 2], edges[|edges| - 1])]
  }

  function Min(a: nat, b: nat): nat {
    if a <= b then a else b
  }

  /** `xs[start:end]`: the bounds are clipped to the length. */
  function Slice<T>(xs: seq<T>, start: nat, end: nat): seq<T> {
    if Min(start, |xs|) <= Min(end, |xs|) then xs[Min(start, |xs|)..Min(end, |xs|)] else []
  }

  /** The slices of the rows, one per pair of edges. */
  function Chunks<T>(xs: seq<T>, pairs: seq<(nat, nat)>): (r: seq<seq<T>>)
    ensures |r| == |pairs|
    ensures forall j :: 0 <= j < |pairs| ==> r[j] == Slice(xs, pairs[j].0, pairs[j].1)
  {
    if pairs == [] then [] else Chunks(xs, pairs[..|pairs| - 1]) + [Slice(xs, pairs[|pairs| - 1].0, pairs[|pairs| - 1].1)]
  }

  lemma MulSucc(i: nat, s: nat)
    ensures (i + 1) * s == i * s + s
  {
  }

  /** `a < b` steps apart by at least one step. */
  lemma MulGap(a: nat, b: nat, s: nat)
    requires a < b
    ensures a * s + s <= b * s
  {
    var d := b - a;
    assert b * s == a * s + d * s;
    assert d * s >= s by {
      assert d >= 1;
    }
  }

  lemma DivBounds(m: nat, s: nat)
    requires s > 0
    ensures ((m + s - 1) / s) * s >= m
    ensures ((m + s - 1) / s) * s < m + s
  {
    var q := (m + s - 1) / s;
    assert q * s + (m + s - 1) % s == m + s - 1;
  }

  lemma StepPositive(n: nat, processes: nat)
    ensures Step(n, processes) > 0 <==> n >= processes + 1
  {
    var d := processes + 1;
    var q := n / d;
    assert q * d + n % d == n;
    if q == 0 {
      assert n == n % d;
    }
    if q > 0 {
      assert q * d >= d by {
        MulGap(0, q, d);
      }
    }
  }

  /** The step is positive iff there are more rows than processes; the
      edges then start at 0 and go up by the step, the last edge is at or
      past the end and the one before it inside the table. */
  lemma EdgesSpec(n: nat, processes: nat)
    ensures Edges(n, processes).Success? <==> n >= processes + 1
    ensures Edges(n, processes).Failure? ==> Edges(n, processes).error == ZeroDivisionError
    ensures Edges(n, processes).Success? ==>
              var e, step := Edges(n, processes).value, Step(n, processes);
              && |e| >= 2 && e[0] == 0
              && (forall i :: 0 < i < |e| ==> e[i] == e[i - 1] + step)
              && e[|e| - 2] < n <= e[|e| - 1]
  {
    StepPositive(n, processes);
    var step := Step(n, processes);
    if step > 0 {
      var c := EdgeCount(n, step);
      DivBounds(n + step, step);
      MulSucc(c - 1, step);
      var e := Edges(n, processes).value;
      assert c >= 2 by {
        if c < 2 {
          MulGap(c, 2, step);
          assert false;
        }
      }
      MulSucc(c - 2, step);
      MulSucc(0, step);
      forall i | 0 < i < |e| ensures e[i] == e[i - 1] + step {
        MulSucc(i - 1, step);
      }
    }
  }

  /** Pair `j` of the edges is the `j`-th step. */
  lemma PairAt(n: nat, processes: nat, j: nat)
    requires Edges(n, processes).Success?
    requires j < |Pairs(Edges(n, processes).value)|
    ensures Pairs(Edges(n, processes).value)[j] == (j * Step(n, processes), j * Step(n, processes) + Step(n, processes))
  {
    var step := Step(n, processes);
    var e := Edges(n, processes).value;
    assert e == Multiples(EdgeCount(n, step), step);
    assert Pairs(e)[j] == (e[j], e[j + 1]);
    assert e[j + 1] == (j + 1) * step;
    MulSucc(j, step);
  }

  /** `r` lies in the `j`-th step iff `j` is `r / s`. */
  lemma InStep(r: nat, s: nat, j: nat)
    requires s > 0
    ensures j * s <= r < j * s + s <==> j == r / s
  {
    var q := r / s;
    assert q * s + r % s == r;
    if j < q {
      MulGap(j, q, s);
    } else if j > q {
      MulGap(q, j, s);
    }
  }

  /** Each row lies in exactly one chunk: row `r` in chunk `r / step`. */
  lemma ChunkOfRow(n: nat, processes: nat, r: nat, j: nat)
    requires Edges(n, processes).Success? && r < n
    requires j < |Pairs(Edges(n, processes).value)|
    ensures var p := Pairs(Edges(n, processes).value)[j];
            p.0 <= r < p.1 <==> j == r / Step(n, processes)
  {
    StepPositive(n, processes);
    PairAt(n, processes, j);
    InStep(r, Step(n, processes), j);
  }

  /** One more multiple adds one more pair, the last step. */
  lemma PairsSnoc(step: nat, k: nat)
    requires k > 0
    ensures Pairs(Multiples(k + 1, step)) == Pairs(Multiples(k, step)) + [((k - 1) * step, k * step)]
  {
    var m := Multiples(k + 1, step);
    assert m[..|m| - 1] == Multiples(k, step);
  }

  /** One more pair adds one more chunk. */
  lemma ChunksSnoc<T>(xs: seq<T>, pairs: seq<(nat, nat)>, p: (nat, nat))
    ensures Chunks(xs, pairs + [p]) == Chunks(xs, pairs) + [Slice(xs, p.0, p.1)]
  {
    assert (pairs + [p])[..|pairs|] == pairs;
  }

  /** A prefix followed by the next slice is the longer prefix. */
  lemma SliceJoin<T>(xs: seq<T>, a: nat, b: nat)
    requires a <= b
    ensures xs[..Min(a, |xs|)] + Slice(xs, a, b) == xs[..Min(b, |xs|)]
  {
  }

  /** The chunks of the first `k` steps put back together are the rows up to `k * step`. */
  lemma {:induction false} ChunksPrefix<T>(xs: seq<T>, step: nat, k: nat)
    ensures Flatten(Chunks(xs, Pairs(Multiples(k + 1, step)))) == xs[..Min(k * step, |xs|)]
  {
    if k > 0 {
      ChunksPrefix(xs, step, k - 1);
      PairsSnoc(step, k);
      MulSucc(k - 1, step);
      var pairs := Pairs(Multiples(k, step));
      var last := Slice(xs, (k - 1) * step, k * step);
      ChunksSnoc(xs, pairs, ((k - 1) * step, k * step));
      FlattenSnoc(Chunks(xs, pairs), last);
      SliceJoin(xs, (k - 1) * step, k * step);
    } else {
      assert Pairs(Multiples(1, step)) == [];
    }
  }

  /** The chunks put back together are the whole table, in order, so the
      concatenated per-chunk results line up with the rows. */
  lemma ChunksCover<T>(xs: seq<T>, processes: nat)
    requires Edges(|xs|, processes).Success?
    ensures Flatten(Chunks(xs, Pairs(Edges(|xs|, processes).value))) == xs
  {
    EdgesSpec(|xs|, processes);
    var step := Step(|xs|, processes);
    var e := Edges(|xs|, processes).value;
    ChunksPrefix(xs, step, |e| - 1);
    assert xs[..|xs|] == xs;
  }

  // ---------------------------------------------------------------------
  // Files and actions

  /** `tmp_dir if tmp_dir is not None else dir` */
  function TmpDir(dir: string, tmpDir: Option<string>): string {
    if tmpDir.Some? then tmpDir.value else dir
  }

  function TmpExposureFile(dir: string, tmpDir: Option<string>): string {
    PathJoin(TmpDir(dir, tmpDir), "tmp_ztf_metadata.parquet")
  }

  function DbFile(dir: string): string {
    PathJoin(dir, "ztf_metadata_latest.db")
  }

  /** A shell script run with its arguments. */
  datatype ShellCall = ShellCall(script: string, args: seq<string>)

  /** `insert_data`: the parquet file must exist before the insert script
      runs on it. */
  function InsertData(tmpFile: string, present: bool, host: string): (r: Result<ShellCall>)
    ensures r.Failure? <==> !present
    ensures r.Failure? ==> r.error == FileNotFoundError("File " + tmpFile + " does not exist")
    ensures r.Success? ==> r.value.script == "insert_parquet_file.sh" && |r.value.args| == 3 && r.value.args[0] == tmpFile
  {
    if !present then Failure(FileNotFoundError("File " + tmpFile + " does not exist"))
    else Success(ShellCall("insert_parquet_file.sh", [tmpFile, DB + "." + TABLE_NAME, host]))
  }

  // ---------------------------------------------------------------------
  // Merging with the field centres

  /** A row of `get_rcid_centers()` after `reset_index(level=1)`: the field
      it belongs to and its other cells (the readout channel and its centre). */
  datatype Center = Center(fieldId: string, cells: seq<string>)

  /** The position of a column in a header. */
  function ColumnIndex(columns: seq<string>, name: string): (r: Option<nat>)
    ensures r.Some? ==> r.value < |columns| && columns[r.value] == name
    ensures r.None? <==> name !in columns
  {
    if columns == [] then None
    else if columns[0] == name then Some(0)
    else
      match ColumnIndex(columns[1..], name)
      case None => None
      case Some(k) => Some(k + 1)
  }

  /** An exposure row belongs to a centre's field (a row without a cell at
      `at` belongs to none). */
  predicate OfField(row: seq<string>, at: nat, c: Center) {
    at < |row| && row[at] == c.fieldId
  }

  /** One exposure row joined with each centre of its field, in the centres'
      order. */
  function Joined(row: seq<string>, at: nat, centers: seq<Center>): seq<seq<string>> {
    if centers == [] then []
    else
      var c := centers[|centers| - 1];
      Joined(row, at, centers[..|centers| - 1]) + if OfField(row, at, c) then [row + c.cells] else []
  }

  /** `pd.merge(exposures, rcid_centers, how='inner', left_on='field',
      right_on='fieldid')`: the exposure rows in order, each joined with the
      centres of its field; an exposure whose field has no centre is dropped. */
  function MergeInner(rows: seq<seq<string>>, at: nat, centers: seq<Center>): seq<seq<string>> {
    if rows == [] then []
    else MergeInner(rows[..|rows| - 1], at, centers) + Joined(rows[|rows| - 1], at, centers)
  }

  /** The merge on the exposures' `field` column; without that column pandas
      raises `KeyError`. */
  function Merge(frame: SqliteQuery.Frame, centers: seq<Center>): Result<seq<seq<string>>> {
    match ColumnIndex(frame.columns, "field")
    case None => Failure(KeyError("field"))
    case Some(at) => Success(MergeInner(frame.rows, at, centers))
  }

  /** The joined rows are the row followed by the cells of a centre of its
      field, and every such centre gives one. */
  lemma {:induction false} JoinedSpec(row: seq<string>, at: nat, centers: seq<Center>)
    ensures forall m :: m in Joined(row, at, centers) <==>
              exists k :: 0 <= k < |centers| && OfField(row, at, centers[k]) && m == row + centers[k].cells
  {
    if centers != [] {
      var init := centers[..|centers| - 1];
      JoinedSpec(row, at, init);
      assert forall k :: 0 <= k < |init| ==> init[k] == centers[k];
    }
  }

  /** A row joins once with each centre when all centres are of its field,
      and not at all when none is. */
  lemma {:induction false} JoinedCount(row: seq<string>, at: nat, centers: seq<Center>)
    ensures (forall k :: 0 <= k < |centers| ==> OfField(row, at, centers[k])) ==> |Joined(row, at, centers)| == |centers|
    ensures (forall k :: 0 <= k < |centers| ==> !OfField(row, at, centers[k])) ==> Joined(row, at, centers) == []
  {
    if centers != [] {
      var init := centers[..|centers| - 1];
      JoinedCount(row, at, init);
      assert forall k :: 0 <= k < |init| ==> init[k] == centers[k];
    }
  }

  /** A merged row is an exposure row followed by the cells of a centre of
      its field, and every such pair gives one. */
  lemma {:induction false} MergeInnerSpec(rows: seq<seq<string>>, at: nat, centers: seq<Center>)
    ensures forall m :: m in MergeInner(rows, at, centers) <==>
              exists j, k :: 0 <= j < |rows| && 0 <= k < |centers| && OfField(rows[j], at, centers[k]) &&
                             m == rows[j] + centers[k].cells
  {
    if rows != [] {
      var init := rows[..|rows| - 1];
      var last := rows[|rows| - 1];
      MergeInnerSpec(init, at, centers);
      JoinedSpec(last, at, centers);
      assert forall j :: 0 <= j < |init| ==> init[j] == rows[j];
      forall m | m in MergeInner(rows, at, centers)
        ensures exists j, k :: 0 <= j < |rows| && 0 <= k < |centers| && OfField(rows[j], at, centers[k]) &&
                               m == rows[j] + centers[k].cells
      {
        if m !in MergeInner(init, at, centers) {
          var k :| 0 <= k < |centers| && OfField(last, at, centers[k]) && m == last + centers[k].cells;
          assert rows[|rows| - 1] == last;
        }
      }
      forall m, j, k | 0 <= j < |rows| && 0 <= k < |centers| && OfField(rows[j], at, centers[k]) &&
                       m == rows[j] + centers[k].cells
        ensures m in MergeInner(rows, at, centers)
      {
        if j < |init| {
          assert rows[j] == init[j];
        }
      }
    }
  }

  /** The merged frame has one row per known field's centre for every
      exposure: an exposure of a field with `n` centres gives `n` rows, and
      one of a field without centres gives none. */
  lemma MergeFieldCount(rows: seq<seq<string>>, row: seq<string>, at: nat, centers: seq<Center>)
    ensures (forall k :: 0 <= k < |centers| ==> OfField(row, at, centers[k])) ==>
              |MergeInner(rows + [row], at, centers)| == |MergeInner(rows, at, centers)| + |centers|
    ensures (forall k :: 0 <= k < |centers| ==> !OfField(row, at, centers[k])) ==>
              MergeInner(rows + [row], at, centers) == MergeInner(rows, at, centers)
  {
    assert (rows + [row])[..|rows|] == rows;
    JoinedCount(row, at, centers);
  }

  /** The step is taken on the merged frame, not on the exposures: a single
      exposure of a field with 64 readout-channel centres, cut for one
      process, gives 64 rows and a step of 32, where the exposure count
      alone would give a zero step. */
  lemma StepOnMerged(row: seq<string>, at: nat, centers: seq<Center>)
    requires |centers| == 64 && forall k :: 0 <= k < |centers| ==> OfField(row, at, centers[k])
    ensures |MergeInner([row], at, centers)| == 64
    ensures Edges(|MergeInner([row], at, centers)|, 1).Success? && Step(64, 1) == 32
    ensures Edges(1, 1) == Failure(ZeroDivisionError)
  {
    MergeFieldCount([], row, at, centers);
    assert [] + [row] == [row];
  }

  /** `prepare_data` up to the exposure times: check the schema against the
      SQLite table, read it without the field-centre `ra` and `dec`, merge
      it with the field centres (`centers` stands for `get_rcid_centers()`),
      and cut the merged rows into chunks. A schema mismatch raises before
      the `SELECT`. */
  method PrepareData(exposures: SqliteQuery.Exposures, processes: nat, fetch: string -> seq<seq<string>>,
                     centers: seq<Center>)
    returns (r: Result<(SqliteQuery.Frame, seq<seq<string>>, seq<(nat, nat)>)>)
    modifies exposures
    ensures exposures.tableInfo == old(exposures.tableInfo)
    ensures var info := old(exposures.tableInfo);
            var valid := SqliteQuery.ValidateColumns(info, WithoutNew(CH_COLUMNS));
            var cols := SqliteQuery.Included(info, None, Some(["ra", "dec"]));
            var sel := SqliteQuery.Selectors(info, cols);
            if valid.Failure? then r == Failure(valid.error) && exposures.executed == old(exposures.executed)
            else if sel.Failure? then r == Failure(sel.error) && exposures.executed == old(exposures.executed)
            else
              var frame := SqliteQuery.Frame(cols, fetch(SqliteQuery.SelectQuery(sel.value)));
              var merged := Merge(frame, centers);
              && exposures.executed == old(exposures.executed) + [SqliteQuery.SelectQuery(sel.value)]
              && (merged.Failure? ==> r == Failure(merged.error))
              && (merged.Success? ==>
                    var edges := Edges(|merged.value|, processes);
                    && (edges.Failure? ==> r == Failure(edges.error))
                    && (edges.Success? ==> r == Success((frame, merged.value, Pairs(edges.value)))))
    ensures r.Success? ==>
              && Merge(r.value.0, centers) == Success(r.value.1)
              && |r.value.1| >= processes + 1
              && Flatten(Chunks(r.value.1, r.value.2)) == r.value.1
  {
    var valid := exposures.ValidateChColumns(WithoutNew(CH_COLUMNS));
    if valid.Failure? {
      return Failure(valid.error);
    }
    var frame :- exposures.GetData(None, Some(["ra", "dec"]), fetch);
    var df :- Merge(frame, centers);
    var edges :- Edges(|df|, processes);
    EdgesSpec(|df|, processes);
    ChunksCover(df, processes);
    r := Success((frame, df, Pairs(edges)));
  }

  const DEFAULT_ACTIONS := ["create", "tmp_parquet", "insert", "exposures_field"]

  /** The class attributes of `ZtfMetadataPutter` that are not actions. */
  const DATA_ATTRS: Dict<string, Putter.Attr> :=
    [("db", Putter.Value), ("table_name", Putter.Value), ("ch_columns", Putter.Value),
     ("default_actions", Putter.Value)]

  /** The class body: the attributes above, then `action_create`,
      `action_tmp_parquet`, `action_insert` and `action_exposures_field`. */
  const ZTF_METADATA_PUTTER := Putter.ClassBody(DATA_ATTRS + Putter.ActionAttrs(DEFAULT_ACTIONS), Some(DEFAULT_ACTIONS))

  /** Every default action has a method, so the class is created. */
  lemma ZtfMetadataPutterAccepted()
    ensures Putter.MetaNew(ZTF_METADATA_PUTTER).Success?
  {
    assert Keys(DATA_ATTRS) == ["db", "table_name", "ch_columns", "default_actions"];
    forall i | 0 <= i < |DATA_ATTRS| ensures !StartsWith(DATA_ATTRS[i].0, Putter.ACTION_PREFIX) {
      var k := DATA_ATTRS[i].0;
      assert k[0] != 'a';
      if |k| >= 7 {
        assert k[..7][0] == k[0];
      }
    }
    assert Distinct(DEFAULT_ACTIONS);
    Putter.ActionBodyAccepted(DATA_ATTRS, DEFAULT_ACTIONS, DEFAULT_ACTIONS);
  }
}
