/** The ZTF light-curve putter: loads the field files of a ZTF data release
    into the `ztf` database and builds the derived tables (object metadata,
    circle self-match, cross-match, source observations and source metadata).
    The server is the catalogue model of `ChClient`; the shell scripts that
    load files are inserts of a file batch; the server's `quantiles` answer is
    a function parameter. */
module ZtfPut {
  import opened Common
  import opened PyStr
  import opened PyDict
  import opened ChClient

  const CURRENT_ZTF_DR := 4
  const DB := "ztf"

  /** The table `ztf.<table>`. */
  function Table(table: string): TableName {
    TableName(DB, table)
  }

  // ---------------------------------------------------------------------
  // Table names

  /** `f'dr{dr:d}<tail>'` */
  function DrName(dr: int, tail: string): string { "dr" + IntToString(dr) + tail }

  function ObsTable(dr: int): string { DrName(dr, "_obs") }
  function MetaTable(dr: int): string { DrName(dr, "_meta") }
  function CircleMatchTable(dr: int, suffix: string): string { DrName(dr, "_circle_match_" + suffix) }
  function XmatchTable(dr: int, suffix: string): string { DrName(dr, "_xmatch_" + suffix) }
  function SourceObsTable(dr: int, suffix: string): string { DrName(dr, "_source_obs_" + suffix) }
  function SourceMetaTable(dr: int, suffix: string): string { DrName(dr, "_source_meta_" + suffix) }

  /** The radius suffix is the formatted radius with its '.' removed: no
      whitespace and no '.'. */
  predicate SuffixText(suffix: string) {
    NoSpace(suffix) && '.' !in suffix
  }

  /** No whitespace and no '.'. */
  predicate Clean(s: string) {
    forall i :: 0 <= i < |s| ==> !IsSpace(s[i]) && s[i] != '.'
  }

  lemma CleanConcat(a: string, b: string)
    requires Clean(a) && Clean(b)
    ensures Clean(a + b)
  {
    forall i | 0 <= i < |a + b| ensures !IsSpace((a + b)[i]) && (a + b)[i] != '.' {
      if i >= |a| {
        assert (a + b)[i] == b[i - |a|];
      }
    }
  }

  lemma CleanIdent(s: string)
    requires s != [] && Clean(s)
    ensures IsIdent(s)
  {
    assert forall i :: 0 <= i < |s| ==> s[i] != '.';
  }

  lemma IntToStringClean(i: int)
    ensures Clean(IntToString(i))
  {
    var d := NatToString(if i < 0 then -i else i);
    assert forall k :: 0 <= k < |d| ==> IsDigit(d[k]);
    if i < 0 {
      CleanConcat("-", d);
    }
  }

  /** `dr<dr><tail>` for a clean tail is a name the server reads back. */
  lemma DrNameIdent(dr: int, tail: string)
    requires Clean(tail)
    ensures IsIdent(DrName(dr, tail))
  {
    IntToStringClean(dr);
    CleanConcat("dr", IntToString(dr));
    CleanConcat("dr" + IntToString(dr), tail);
    CleanIdent("dr" + IntToString(dr) + tail);
  }

  lemma SuffixedClean(word: string, suffix: string)
    requires Clean(word) && SuffixText(suffix)
    ensures Clean(word + suffix)
  {
    assert Clean(suffix) by {
      forall i | 0 <= i < |suffix| ensures suffix[i] != '.' {
        assert suffix[i] in suffix;
      }
    }
    CleanConcat(word, suffix);
  }

  lemma WordsClean()
    ensures Clean("_obs") && Clean("_meta") && Clean("_circle_match_") && Clean("_xmatch_")
    ensures Clean("_source_obs_") && Clean("_source_meta_")
  {
  }

  /** Every table name of the putter is read back by the server as written. */
  lemma TableNamesIdent(dr: int, suffix: string)
    requires SuffixText(suffix)
    ensures IsIdent(DB)
    ensures IsIdent(ObsTable(dr)) && IsIdent(MetaTable(dr))
    ensures IsIdent(CircleMatchTable(dr, suffix)) && IsIdent(XmatchTable(dr, suffix))
    ensures IsIdent(SourceObsTable(dr, suffix)) && IsIdent(SourceMetaTable(dr, suffix))
  {
    CleanIdent(DB);
    WordsClean();
    DrNameIdent(dr, "_obs");
    DrNameIdent(dr, "_meta");
    SuffixedClean("_circle_match_", suffix);
    DrNameIdent(dr, "_circle_match_" + suffix);
    SuffixedClean("_xmatch_", suffix);
    DrNameIdent(dr, "_xmatch_" + suffix);
    SuffixedClean("_source_obs_", suffix);
    DrNameIdent(dr, "_source_obs_" + suffix);
    SuffixedClean("_source_meta_", suffix);
    DrNameIdent(dr, "_source_meta_" + suffix);
  }

  lemma DrNameInjective(dr: int, a: string, b: string)
    requires a != b
    ensures DrName(dr, a) != DrName(dr, b)
  {
    var p := "dr" + IntToString(dr);
    assert DrName(dr, a) == p + a && DrName(dr, b) == p + b;
    assert (p + a)[|p|..] == a && (p + b)[|p|..] == b;
  }

  lemma TailsDistinct(suffix: string)
    ensures Distinct(["_obs", "_meta", "_circle_match_" + suffix, "_xmatch_" + suffix,
                      "_source_obs_" + suffix, "_source_meta_" + suffix])
  {
    var tails := ["_obs", "_meta", "_circle_match_" + suffix, "_xmatch_" + suffix,
                  "_source_obs_" + suffix, "_source_meta_" + suffix];
    assert tails[0][1] == 'o' && tails[1][1] == 'm' && tails[2][1] == 'c' && tails[3][1] == 'x';
    assert tails[4][1] == 's' && tails[5][1] == 's' && tails[4][8] == 'o' && tails[5][8] == 'm';
  }

  /** The six tables never share a name, so dropping or filling one never
      touches another. */
  lemma TableNamesDistinct(dr: int, suffix: string)
    ensures Distinct([ObsTable(dr), MetaTable(dr), CircleMatchTable(dr, suffix), XmatchTable(dr, suffix),
                      SourceObsTable(dr, suffix), SourceMetaTable(dr, suffix)])
  {
    var tails := ["_obs", "_meta", "_circle_match_" + suffix, "_xmatch_" + suffix,
                  "_source_obs_" + suffix, "_source_meta_" + suffix];
    var names := [ObsTable(dr), MetaTable(dr), CircleMatchTable(dr, suffix), XmatchTable(dr, suffix),
                  SourceObsTable(dr, suffix), SourceMetaTable(dr, suffix)];
    TailsDistinct(suffix);
    forall i, j | 0 <= i < j < 6 ensures names[i] != names[j] {
      assert names[i] == DrName(dr, tails[i]) && names[j] == DrName(dr, tails[j]);
      DrNameInjective(dr, tails[i], tails[j]);
    }
  }

  // ---------------------------------------------------------------------
  // The on-exists policy

  const ON_EXISTS_CHOICES: set<string> := {"fail", "keep", "drop"}

  function OnExistsMessage(policy: string): string {
    "on_exists must be one of \"fail\" or \"keep\" or \"drop\", not " + policy
  }

  /** `process_on_exists`: the `exists_ok` flag it returns and the catalogue
      afterwards.  `drop` removes the table when it exists. */
  function OnExists(policy: string, s: Store, n: TableName): (res: (Result<bool>, Store))
    ensures res.0.Success? <==> policy in ON_EXISTS_CHOICES
    ensures res.0.Success? ==> (res.0.value <==> policy == "keep")
    ensures res.1.databases == s.databases && res.1.tables.Keys - {n} == s.tables.Keys - {n}
    ensures forall m :: m in res.1.tables ==> m in s.tables && res.1.tables[m] == s.tables[m]
    ensures n in res.1.tables <==> n in s.tables && policy != "drop"
  {
    if policy == "fail" then (Success(false), s)
    else if policy == "keep" then (Success(true), s)
    else if policy == "drop" then (Success(false), s.(tables := s.tables - {n}))
    else (Failure(ValueError(OnExistsMessage(policy))), s)
  }

  /** `create_*_table(on_exists)`: the policy, then the `CREATE TABLE` with
      `IF NOT EXISTS` exactly when the policy returned `exists_ok`. */
  function CreateWithPolicy(policy: string, s: Store, n: TableName): (Result<()>, Store) {
    var (e, s1) := OnExists(policy, s, n);
    if e.Failure? then (Failure(e.error), s1)
    else
      var (c, s2) := Apply(s1, CreateTable(e.value, n));
      (if c.Success? then Success(()) else Failure(c.error), s2)
  }

  /** What each policy does to an existing table: `fail` refuses it, `keep`
      keeps its rows, `drop` replaces it by an empty one; an unknown policy is
      a `ValueError` that leaves the catalogue alone.  A missing database is
      an error under every policy. */
  lemma CreateWithPolicySpec(policy: string, s: Store, n: TableName)
    ensures var (r, s') := CreateWithPolicy(policy, s, n);
      && s'.databases == s.databases
      && (policy !in ON_EXISTS_CHOICES ==> r == Failure(ValueError(OnExistsMessage(policy))) && s' == s)
      && (policy == "fail" ==>
            (r.Success? <==> n.db in s.databases && n !in s.tables) &&
            s'.tables == (if r.Success? then s.tables[n := []] else s.tables))
      && (policy == "keep" ==>
            (r.Success? <==> n.db in s.databases) &&
            s'.tables == (if r.Success? && n !in s.tables then s.tables[n := []] else s.tables))
      && (policy == "drop" ==>
            (r.Success? <==> n.db in s.databases) &&
            s'.tables == (if r.Success? then s.tables[n := []] else s.tables - {n}))
  {
  }

  /** The table exists after a successful creation under any policy. */
  lemma CreatedExists(policy: string, s: Store, n: TableName)
    requires CreateWithPolicy(policy, s, n).0.Success?
    ensures n in CreateWithPolicy(policy, s, n).1.tables
    ensures policy != "keep" ==> CreateWithPolicy(policy, s, n).1.tables[n] == []
    ensures policy == "keep" && n in s.tables ==> CreateWithPolicy(policy, s, n).1.tables[n] == s.tables[n]
  {
    CreateWithPolicySpec(policy, s, n);
  }

  /** A sequence of inserts into one table: each batch is appended; into a
      missing table the first insert fails. */
  function InsertBatches(s: Store, n: TableName, batches: seq<Batch>): (Result<()>, Store) {
    if n in s.tables then (Success(()), s.(tables := s.tables[n := s.tables[n] + batches]))
    else if batches == [] then (Success(()), s)
    else (Failure(ServerError("UNKNOWN_TABLE")), s)
  }

  /** A group's table step: create under the policy, then insert the batches
      (computed after the creation, so their error comes after it). */
  function CreateAndFillSpec(policy: string, s: Store, n: TableName, batches: Result<seq<Batch>>): (Result<()>, Store) {
    var (c, s1) := CreateWithPolicy(policy, s, n);
    if c.Failure? then (c, s1)
    else if batches.Failure? then (Failure(batches.error), s1)
    else InsertBatches(s1, n, batches.value)
  }

  /** After a successful table step the table holds exactly the new batches,
      or for `keep` of an existing table its old rows followed by them. */
  lemma CreateAndFillOutcome(policy: string, s: Store, n: TableName, batches: Result<seq<Batch>>)
    requires CreateAndFillSpec(policy, s, n, batches).0.Success?
    ensures batches.Success?
    ensures var s' := CreateAndFillSpec(policy, s, n, batches).1;
      && s'.databases == s.databases
      && n in s'.tables
      && s'.tables[n] == (if policy == "keep" && n in s.tables then s.tables[n] else []) + batches.value
      && forall m :: m != n ==> (m in s'.tables <==> m in s.tables) && (m in s.tables ==> s'.tables[m] == s.tables[m])
  {
    CreateWithPolicySpec(policy, s, n);
    CreatedExists(policy, s, n);
  }

  // ---------------------------------------------------------------------
  // Quantile grids

  /** `np.linspace(0, 1, parts, endpoint=False)[1:]`: the levels i/parts for
      i = 1 .. parts-1. */
  function Levels(parts: int): (r: seq<real>)
    requires parts >= 1
    ensures |r| == parts - 1
    ensures forall i :: 0 <= i < |r| ==> r[i] == (i + 1) as real / parts as real
  {
    seq(parts - 1, i requires 0 <= i < parts - 1 => (i + 1) as real / parts as real)
  }

  /** Dividing by a positive number keeps the order. */
  lemma DivLess(a: real, b: real, p: real)
    requires p > 0.0 && a < b
    ensures a / p < b / p
  {
    assert (b - a) / p > 0.0;
    assert b / p - a / p == (b - a) / p;
  }

  /** The levels lie strictly between 0 and 1, increasing. */
  lemma LevelsRange(parts: int)
    requires parts >= 1
    ensures forall i :: 0 <= i < parts - 1 ==> 0.0 < Levels(parts)[i] < 1.0
    ensures forall i, j :: 0 <= i < j < parts - 1 ==> Levels(parts)[i] < Levels(parts)[j]
  {
    var l := Levels(parts);
    var p := parts as real;
    assert p / p == 1.0;
    forall i | 0 <= i < parts - 1 ensures 0.0 < l[i] < 1.0 {
      DivLess(0.0, (i + 1) as real, p);
      DivLess((i + 1) as real, p, p);
    }
    forall i, j | 0 <= i < j < parts - 1 ensures l[i] < l[j] {
      DivLess((i + 1) as real, (j + 1) as real, p);
    }
  }

  /** The server's answer to `SELECT quantiles(levels)(column) FROM table`. */
  type Quantiles = (TableName, string, seq<real>) -> seq<int>

  /** `np.all(np.diff(q) > 0)` */
  predicate StrictlyIncreasing(q: seq<int>) {
    forall i :: 0 <= i < |q| - 1 ==> q[i] < q[i + 1]
  }

  function Finites(q: seq<int>): (r: seq<Bound>)
    ensures |r| == |q| && forall i :: 0 <= i < |q| ==> r[i] == Finite(q[i])
  {
    seq(|q|, i requires 0 <= i < |q| => Finite(q[i]))
  }

  /** `construct_quantile_grid(parts, column=column, table=table)` */
  function QuantileGrid(parts: int, quantiles: Quantiles, n: TableName, column: string): (r: Result<seq<Bound>>)
    ensures parts < 1 ==> r.Failure? && r.error.ValueError?
    ensures r.Success? ==> |r.value| >= 2 && r.value[0] == NegInf && r.value[|r.value| - 1] == PosInf
    ensures r.Success? ==> forall i :: 0 < i < |r.value| - 1 ==> r.value[i].Finite?
  {
    if parts < 1 then Failure(ValueError("parts should be positive, not " + IntToString(parts)))
    else if parts == 1 then Success([NegInf, PosInf])
    else
      var q := quantiles(n, column, Levels(parts));
      if !StrictlyIncreasing(q) then Failure(AssertionError("quantiles must be monotonically increasing"))
      else Success([NegInf] + Finites(q) + [PosInf])
  }

  /** Strict order on grid points, with -inf below and +inf above every oid. */
  predicate Below(a: Bound, b: Bound) {
    match (a, b)
    case (NegInf, NegInf) => false
    case (NegInf, _) => true
    case (Finite(x), Finite(y)) => x < y
    case (Finite(_), PosInf) => true
    case _ => false
  }

  predicate GridIncreasing(g: seq<Bound>) {
    forall i :: 0 <= i < |g| - 1 ==> Below(g[i], g[i + 1])
  }

  /** The grid's error cases, its single-part shortcut (which asks the server
      nothing) and, for several parts, its shape. */
  lemma QuantileGridSpec(parts: int, quantiles: Quantiles, n: TableName, column: string)
    ensures parts < 1 ==>
              QuantileGrid(parts, quantiles, n, column) == Failure(ValueError("parts should be positive, not " + IntToString(parts)))
    ensures parts == 1 ==> QuantileGrid(parts, quantiles, n, column) == Success([NegInf, PosInf])
    ensures parts > 1 ==>
              var q := quantiles(n, column, Levels(parts));
              && (QuantileGrid(parts, quantiles, n, column).Success? <==> StrictlyIncreasing(q))
              && (StrictlyIncreasing(q) ==> QuantileGrid(parts, quantiles, n, column).value == [NegInf] + Finites(q) + [PosInf])
    ensures QuantileGrid(parts, quantiles, n, column).Success? ==>
              var g := QuantileGrid(parts, quantiles, n, column).value;
              && |g| >= 2 && g[0] == NegInf && g[|g| - 1] == PosInf && GridIncreasing(g)
              && (parts > 1 && |quantiles(n, column, Levels(parts))| == parts - 1 ==> |g| == parts + 1)
  {
    if parts > 1 {
      var q := quantiles(n, column, Levels(parts));
      if StrictlyIncreasing(q) {
        var g := [NegInf] + Finites(q) + [PosInf];
        forall i | 0 <= i < |g| - 1 ensures Below(g[i], g[i + 1]) {
          if 0 < i < |g| - 2 {
            assert g[i] == Finite(q[i - 1]) && g[i + 1] == Finite(q[i]);
          }
        }
      }
    }
  }

  /** One `insert_into_*` query per consecutive pair of grid points. */
  function PartBatches(template: string, grid: seq<Bound>): (r: seq<Batch>)
    ensures |r| == if |grid| < 2 then 0 else |grid| - 1
  {
    if |grid| < 2 then []
    else seq(|grid| - 1, i requires 0 <= i < |grid| - 1 => Batch(template, Between(grid[i], grid[i + 1])))
  }

  /** The parts tile the oid line: the first starts at -inf, each ends where
      the next begins, the last ends at +inf, and none is empty. */
  lemma PartBatchesTile(template: string, grid: seq<Bound>)
    requires |grid| >= 2 && grid[0] == NegInf && grid[|grid| - 1] == PosInf && GridIncreasing(grid)
    ensures var ps := PartBatches(template, grid);
      && |ps| == |grid| - 1
      && (forall i :: 0 <= i < |ps| ==> ps[i].source == template && ps[i].range.Between? && Below(ps[i].range.begin, ps[i].range.end))
      && ps[0].range.begin == NegInf
      && ps[|ps| - 1].range.end == PosInf
      && forall i :: 0 <= i < |ps| - 1 ==> ps[i].range.end == ps[i + 1].range.begin
  {
  }

  // ---------------------------------------------------------------------
  // Field file names

  /** `extract_field_number`: the digits after a leading `field` in the
      basename; without them `re.search` gives `None` and `.group` raises
      `AttributeError`. */
  function FieldNumber(path: string): (r: Result<nat>)
    ensures var base := Basename(path);
      r.Success? <==> StartsWith(base, "field") && |base| > 5 && IsDigit(base[5])
    ensures r.Failure? ==> r.error == AttributeError
  {
    var base := Basename(path);
    if StartsWith(base, "field") && DigitPrefix(base[5..]) != [] then Success(DigitsValue(DigitPrefix(base[5..])))
    else Failure(AttributeError)
  }

  /** The digits of `str(n)` contain no '/'. */
  lemma NatToStringNoSlash(n: nat)
    ensures '/' !in NatToString(n)
  {
    var d := NatToString(n);
    assert forall i :: 0 <= i < |d| ==> IsDigit(d[i]);
  }

  lemma FieldNameParts(digits: string, rest: string)
    requires '/' !in digits && '/' !in rest && digits != []
    ensures var name := "field" + digits + rest;
      '/' !in name && name != [] && StartsWith(name, "field") && name[5..] == digits + rest
  {
    var name := "field" + digits + rest;
    assert name == "field" + (digits + rest);
    assert name[..5] == "field";
  }

  /** The number written into a field file name is read back. */
  lemma FieldNumberOfName(dir: string, n: nat, rest: string)
    requires '/' !in rest && (rest == [] || !IsDigit(rest[0]))
    ensures FieldNumber(PathJoin(dir, "field" + NatToString(n) + rest)) == Success(n)
  {
    var digits := NatToString(n);
    NatToStringNoSlash(n);
    FieldNameParts(digits, rest);
    BasenameOfJoin(dir, "field" + digits + rest);
    DigitPrefixOf(digits, rest);
    DigitsValueOfNatToString(n);
  }

  /** `tar_gz_to_csv`: asserts the `.tar.gz` suffix, then strips two
      extensions from the basename and puts `<stem>.csv` into the CSV
      directory. */
  function TarGzToCsv(csvDir: string, path: string): (r: Result<string>)
    ensures r.Success? <==> EndsWith(path, ".tar.gz")
    ensures r.Success? ==> EndsWith(r.value, ".csv")
  {
    if !EndsWith(path, ".tar.gz") then Failure(AssertionError(""))
    else
      var stem := SplitExtRoot(SplitExtRoot(Basename(path)));
      EndsWithConcat(stem, ".csv");
      JoinKeepsSuffix(csvDir, stem + ".csv", ".csv");
      Success(CsvName(csvDir, path))
  }

  /** Joining onto a directory keeps the name's suffix. */
  lemma JoinKeepsSuffix(dir: string, name: string, suffix: string)
    requires EndsWith(name, suffix)
    ensures EndsWith(PathJoin(dir, name), suffix)
  {
    if !StartsWith(name, "/") {
      if dir == [] || EndsWith(dir, "/") {
        EndsWithPrepend(dir, name, suffix);
      } else {
        assert dir + "/" + name == (dir + "/") + name;
        EndsWithPrepend(dir + "/", name, suffix);
      }
    }
  }

  function CsvName(csvDir: string, path: string): string {
    PathJoin(csvDir, SplitExtRoot(SplitExtRoot(Basename(path))) + ".csv")
  }

  lemma SplitExtOf(stem: string, ext: string)
    requires stem != [] && stem[0] != '.' && '/' !in stem && '.' !in ext && '/' !in ext
    ensures SplitExtRoot(stem + "." + ext) == stem
  {
    var p := stem + "." + ext;
    assert p == stem + ['.'] + ext;
    LastIndexAt(stem, '.', ext);
    assert '/' !in p;
    assert LastIndex(p, '/') == -1;
    assert p[0] != '.';
    assert p[..|stem|] == stem;
  }

  /** `<stem>.tar.gz` loses both extensions. */
  lemma TarGzStem(stem: string)
    requires stem != [] && '.' !in stem && '/' !in stem
    ensures SplitExtRoot(SplitExtRoot(stem + ".tar.gz")) == stem
  {
    var st := stem + ".tar";
    assert stem + ".tar.gz" == st + "." + "gz";
    assert '/' !in st;
    assert st[0] == stem[0];
    SplitExtOf(st, "gz");
    assert st == stem + "." + "tar";
    SplitExtOf(stem, "tar");
  }

  lemma TarGzPath(dir: string, stem: string)
    requires '/' !in stem
    ensures EndsWith(PathJoin(dir, stem + ".tar.gz"), ".tar.gz")
    ensures Basename(PathJoin(dir, stem + ".tar.gz")) == stem + ".tar.gz"
  {
    var name := stem + ".tar.gz";
    assert '/' !in name;
    BasenameOfJoin(dir, name);
    var path := PathJoin(dir, name);
    assert path[|path| - |name|..] == name;
    assert name[|name| - 7..] == ".tar.gz";
    assert path[|path| - 7..] == name[|name| - 7..];
  }

  /** A field archive `<dir>/<stem>.tar.gz` becomes `<csvDir>/<stem>.csv`. */
  lemma TarGzToCsvName(csvDir: string, dir: string, stem: string)
    requires stem != [] && '.' !in stem && '/' !in stem
    ensures TarGzToCsv(csvDir, PathJoin(dir, stem + ".tar.gz")) == Success(PathJoin(csvDir, stem + ".csv"))
  {
    TarGzPath(dir, stem);
    TarGzStem(stem);
  }

  /** `csv_files`: the CSV path of every archive, in order; the first archive
      without the suffix fails the assertion. */
  function CsvFiles(csvDir: string, tars: seq<string>): (r: Result<seq<string>>)
    ensures r.Success? <==> forall i :: 0 <= i < |tars| ==> EndsWith(tars[i], ".tar.gz")
    ensures r.Success? ==> |r.value| == |tars| && forall i :: 0 <= i < |tars| ==> TarGzToCsv(csvDir, tars[i]) == Success(r.value[i])
  {
    if forall i :: 0 <= i < |tars| ==> EndsWith(tars[i], ".tar.gz") then
      Success(seq(|tars|, i requires 0 <= i < |tars| => CsvName(csvDir, tars[i])))
    else Failure(AssertionError(""))
  }

  // ---------------------------------------------------------------------
  // The field range filter of `insert_csv_into_obs_table`

  /** The field number of every path; the first path without one fails. */
  function FieldNumbers(paths: seq<string>): (r: Result<seq<nat>>)
    ensures r.Success? <==> forall i :: 0 <= i < |paths| ==> FieldNumber(paths[i]).Success?
    ensures r.Success? ==> |r.value| == |paths| && forall i :: 0 <= i < |paths| ==> FieldNumber(paths[i]) == Success(r.value[i])
    ensures r.Failure? ==> r.error == AttributeError
  {
    if forall i :: 0 <= i < |paths| ==> FieldNumber(paths[i]).Success? then
      Success(seq(|paths|, i requires 0 <= i < |paths| => FieldNumber(paths[i]).value))
    else Failure(AttributeError)
  }

  /** `min(ns)` */
  function MinOf(ns: seq<nat>): (r: Result<int>)
    ensures ns == [] <==> r == Failure(ValueError("min() arg is an empty sequence"))
    ensures r.Success? ==> r.value in ns && forall i :: 0 <= i < |ns| ==> r.value <= ns[i]
  {
    if ns == [] then Failure(ValueError("min() arg is an empty sequence"))
    else if |ns| == 1 then Success(ns[0])
    else
      var m := MinOf(ns[1..]).value;
      assert forall i :: 1 <= i < |ns| ==> ns[i] == ns[1..][i - 1];
      Success(if ns[0] <= m then ns[0] else m)
  }

  /** `max(ns)` */
  function MaxOf(ns: seq<nat>): (r: Result<int>)
    ensures ns == [] <==> r == Failure(ValueError("max() arg is an empty sequence"))
    ensures r.Success? ==> r.value in ns && forall i :: 0 <= i < |ns| ==> ns[i] <= r.value
  {
    if ns == [] then Failure(ValueError("max() arg is an empty sequence"))
    else if |ns| == 1 then Success(ns[0])
    else
      var m := MaxOf(ns[1..]).value;
      assert forall i :: 1 <= i < |ns| ==> ns[i] == ns[1..][i - 1];
      Success(if ns[0] >= m then ns[0] else m)
  }

  /** The paths whose field number lies in `[lo, hi]`, in order. */
  function Keep(paths: seq<string>, ns: seq<nat>, lo: int, hi: int): (r: seq<string>)
    requires |paths| == |ns|
    ensures |r| <= |paths| && forall x :: x in r ==> x in paths
  {
    if paths == [] then []
    else (if lo <= ns[0] <= hi then [paths[0]] else []) + Keep(paths[1..], ns[1..], lo, hi)
  }

  lemma {:induction false} KeepMembers(paths: seq<string>, ns: seq<nat>, lo: int, hi: int, x: string)
    requires |paths| == |ns|
    ensures x in Keep(paths, ns, lo, hi) <==> exists i :: 0 <= i < |paths| && paths[i] == x && lo <= ns[i] <= hi
  {
    if paths != [] {
      KeepMembers(paths[1..], ns[1..], lo, hi, x);
      if x in Keep(paths[1..], ns[1..], lo, hi) {
        var i :| 0 <= i < |paths| - 1 && paths[1..][i] == x && lo <= ns[1..][i] <= hi;
        assert paths[i + 1] == x && lo <= ns[i + 1] <= hi;
      }
      if exists i :: 0 <= i < |paths| && paths[i] == x && lo <= ns[i] <= hi {
        var i :| 0 <= i < |paths| && paths[i] == x && lo <= ns[i] <= hi;
        if i > 0 {
          assert paths[1..][i - 1] == x && lo <= ns[1..][i - 1] <= hi;
        }
      }
    }
  }

  /** The CSV files `insert_csv_into_obs_table(start, end)` inserts. */
  function CsvRange(paths: seq<string>, start: Option<int>, end: Option<int>): (r: Result<seq<string>>)
    ensures start.None? && end.None? ==> r == Success(paths)
    ensures r.Success? ==> |r.value| <= |paths| && forall x :: x in r.value ==> x in paths
  {
    if start.None? && end.None? then Success(paths)
    else
      var ns :- FieldNumbers(paths);
      var lo :- if start.Some? then Success(start.value) else MinOf(ns);
      var hi :- if end.Some? then Success(end.value) else MaxOf(ns);
      Success(Keep(paths, ns, lo, hi))
  }

  /** With a bound given and the field numbers parsed, the range keeps the
      paths between the given bounds, a missing one taken from the numbers. */
  lemma CsvRangeKeep(paths: seq<string>, start: Option<int>, end: Option<int>)
    requires (start.Some? || end.Some?) && FieldNumbers(paths).Success? && (paths != [] || (start.Some? && end.Some?))
    ensures var ns := FieldNumbers(paths).value;
            var lo := if start.Some? then start.value else MinOf(ns).value;
            var hi := if end.Some? then end.value else MaxOf(ns).value;
            CsvRange(paths, start, end) == Success(Keep(paths, ns, lo, hi))
  {
  }

  /** With no bound at all every path is kept, unparsed. */
  lemma CsvRangeUnbounded(paths: seq<string>)
    ensures CsvRange(paths, None, None) == Success(paths)
  {
  }

  /** A field number within the given bounds; a missing bound is open. */
  predicate Within(n: int, start: Option<int>, end: Option<int>) {
    (start.None? || start.value <= n) && (end.None? || n <= end.value)
  }

  /** The range is inclusive at both ends and a missing bound leaves that
      side open. */
  lemma CsvRangeSpec(paths: seq<string>, start: Option<int>, end: Option<int>, x: string)
    requires (start.Some? || end.Some?) && FieldNumbers(paths).Success? && (paths != [] || (start.Some? && end.Some?))
    ensures var ns := FieldNumbers(paths).value;
            && CsvRange(paths, start, end).Success?
            && (x in CsvRange(paths, start, end).value <==>
                  exists i :: 0 <= i < |paths| && paths[i] == x && Within(ns[i], start, end))
  {
    var ns := FieldNumbers(paths).value;
    var lo := if start.Some? then start.value else MinOf(ns).value;
    var hi := if end.Some? then end.value else MaxOf(ns).value;
    CsvRangeKeep(paths, start, end);
    KeepMembers(paths, ns, lo, hi, x);
    forall i | 0 <= i < |paths| ensures Within(ns[i], start, end) <==> lo <= ns[i] <= hi {
      WithinDefaults(ns, i, start, end);
    }
  }

  /** A bound left open is the least or greatest field number, which every
      number lies on the right side of. */
  lemma WithinDefaults(ns: seq<nat>, i: nat, start: Option<int>, end: Option<int>)
    requires i < |ns|
    ensures var lo := if start.Some? then start.value else MinOf(ns).value;
            var hi := if end.Some? then end.value else MaxOf(ns).value;
            Within(ns[i], start, end) <==> lo <= ns[i] <= hi
  {
  }

  /** A file without a field number is an error once a bound is given; with
      one bound missing and no files, `min`/`max` of nothing is. */
  lemma CsvRangeErrors(paths: seq<string>, start: Option<int>, end: Option<int>)
    requires start.Some? || end.Some?
    ensures FieldNumbers(paths).Failure? ==> CsvRange(paths, start, end) == Failure(AttributeError)
    ensures paths == [] && start.None? ==> CsvRange(paths, start, end) == Failure(ValueError("min() arg is an empty sequence"))
    ensures paths == [] && start.Some? && end.None? ==> CsvRange(paths, start, end) == Failure(ValueError("max() arg is an empty sequence"))
  {
  }

  // ---------------------------------------------------------------------
  // Removing the CSV files

  /** `remove_csv`: `os.remove` of each path in order; a missing file raises
      `FileNotFoundError` and stops the rest. */
  function RemoveAll(disk: set<string>, paths: seq<string>): (Result<()>, set<string>) {
    if paths == [] then (Success(()), disk)
    else if paths[0] !in disk then (Failure(FileNotFoundError(paths[0])), disk)
    else RemoveAll(disk - {paths[0]}, paths[1..])
  }

  function Elements(paths: seq<string>): set<string> {
    set i | 0 <= i < |paths| :: paths[i]
  }

  lemma ElementsStep(paths: seq<string>, i: nat)
    requires i < |paths|
    ensures Elements(paths[..i + 1]) == Elements(paths[..i]) + {paths[i]}
  {
    assert paths[..i + 1] == paths[..i] + [paths[i]];
    ElementsSnoc(paths[..i], paths[i]);
  }

  lemma ElementsSnoc(paths: seq<string>, x: string)
    ensures Elements(paths + [x]) == Elements(paths) + {x}
  {
    var p := paths + [x];
    forall y | y in Elements(p) ensures y in Elements(paths) + {x} {
      var i :| 0 <= i < |p| && p[i] == y;
      if i < |paths| {
        assert paths[i] == y;
      }
    }
    forall y | y in Elements(paths) ensures y in Elements(p) {
      var i :| 0 <= i < |paths| && paths[i] == y;
      assert p[i] == y;
    }
    assert p[|paths|] == x;
  }

  /** For distinct paths: removal succeeds exactly when every file is there,
      and then none of them is left and nothing else went. */
  lemma {:induction false} RemoveAllSpec(disk: set<string>, paths: seq<string>)
    requires Distinct(paths)
    ensures RemoveAll(disk, paths).0.Success? <==> Elements(paths) <= disk
    ensures RemoveAll(disk, paths).0.Success? ==> RemoveAll(disk, paths).1 == disk - Elements(paths)
  {
    if paths != [] {
      var tail := paths[1..];
      assert Distinct(tail) by {
        forall i, j | 0 <= i < j < |tail| ensures tail[i] != tail[j] {
          assert tail[i] == paths[i + 1] && tail[j] == paths[j + 1];
        }
      }
      assert Elements(paths) == {paths[0]} + Elements(tail) by {
        forall x | x in Elements(paths) ensures x in {paths[0]} + Elements(tail) {
          var i :| 0 <= i < |paths| && paths[i] == x;
          if i > 0 {
            assert tail[i - 1] == x;
          }
        }
        forall x | x in Elements(tail) ensures x in Elements(paths) {
          var i :| 0 <= i < |tail| && tail[i] == x;
          assert paths[i + 1] == x;
        }
      }
      assert paths[0] !in Elements(tail) by {
        forall i | 0 <= i < |tail| ensures tail[i] != paths[0] {
          assert tail[i] == paths[i + 1];
        }
      }
      if paths[0] in disk {
        RemoveAllSpec(disk - {paths[0]}, tail);
      }
    }
  }

  // ---------------------------------------------------------------------
  // Action groups

  /** The groups of `__call__`, in the order it runs them. */
  const GROUPS: seq<string> :=
    ["gen-csv", "csv-obs", "rm-csv", "tar.gz-obs", "meta", "circle", "xmatch", "source-obs", "source-meta"]

  /** The groups among `gs` that `actions` names, in the order of `gs`. */
  function Select(gs: seq<string>, actions: seq<string>): seq<string> {
    if gs == [] then []
    else Select(gs[..|gs| - 1], actions) + (if gs[|gs| - 1] in actions then [gs[|gs| - 1]] else [])
  }

  function Dispatched(actions: seq<string>): seq<string> {
    Select(GROUPS, actions)
  }

  /** The selected groups are those of `gs` that `actions` names, and which
      are selected depends only on the names, not on their order or
      repetition in `actions`. */
  lemma {:induction false} SelectSpec(gs: seq<string>, a: seq<string>, b: seq<string>)
    requires forall g :: g in a <==> g in b
    ensures Select(gs, a) == Select(gs, b)
    ensures forall g :: g in Select(gs, a) <==> g in gs && g in a
  {
    if gs != [] {
      var init := gs[..|gs| - 1];
      SelectSpec(init, a, b);
      assert gs == init + [gs[|gs| - 1]];
    }
  }

  lemma SelectStep(gs: seq<string>, i: nat, a: seq<string>)
    requires i < |gs|
    ensures Select(gs[..i + 1], a) == Select(gs[..i], a) + if gs[i] in a then [gs[i]] else []
  {
    assert gs[..i + 1][..i] == gs[..i];
  }

  /** A prefix of the groups selects a prefix of the selection. */
  lemma {:induction false} SelectPrefix(gs: seq<string>, j: nat, a: seq<string>)
    requires j <= |gs|
    ensures |Select(gs[..j], a)| <= |Select(gs, a)|
    ensures Select(gs[..j], a) == Select(gs, a)[..|Select(gs[..j], a)|]
    decreases |gs|
  {
    if j < |gs| {
      var init := gs[..|gs| - 1];
      assert init[..j] == gs[..j];
      SelectPrefix(init, j, a);
    } else {
      assert gs[..j] == gs;
    }
  }

  // ---------------------------------------------------------------------
  // The putter

  /** `ZtfPutter`: a client of the `ztf` database with its settings, the CSV
      files present on disk and the groups it has started. */
  class ZtfPutter {
    const client: CHClient
    const dr: int
    /** `radius_table_suffix`: the formatted radius, given as text */
    const radiusSuffix: string
    const onExists: string
    const csvDir: string
    /** `tar_gz_files()`: the sorted field archives of the data directory */
    const tarGzFiles: seq<string>
    const startField: Option<int>
    const endField: Option<int>
    const circleParts: int
    const sourceObsParts: int
    /** The CSV files present in the CSV directory. */
    var csvOnDisk: set<string>
    /** The action groups started so far, in order. */
    var started: seq<string>

    predicate Valid() {
      SuffixText(radiusSuffix)
    }

    /** `__init__`: the CSV directory defaults to `<dir>/csv`. */
    constructor(client: CHClient, dir: string, csvDir: Option<string>, dr: int, onExists: string,
                startField: Option<int>, endField: Option<int>, radiusSuffix: string,
                circleParts: int, sourceObsParts: int, tarGzFiles: seq<string>, csvOnDisk: set<string>)
      requires SuffixText(radiusSuffix)
      ensures Valid()
      ensures this.client == client && this.dr == dr && this.onExists == onExists
      ensures this.csvDir == if csvDir.Some? then csvDir.value else PathJoin(dir, "csv")
      ensures this.startField == startField && this.endField == endField
      ensures this.radiusSuffix == radiusSuffix && this.circleParts == circleParts
      ensures this.sourceObsParts == sourceObsParts && this.tarGzFiles == tarGzFiles
      ensures this.csvOnDisk == csvOnDisk && started == []
    {
      this.client := client;
      this.dr := dr;
      this.onExists := onExists;
      this.csvDir := if csvDir.Some? then csvDir.value else PathJoin(dir, "csv");
      this.startField := startField;
      this.endField := endField;
      this.radiusSuffix := radiusSuffix;
      this.circleParts := circleParts;
      this.sourceObsParts := sourceObsParts;
      this.tarGzFiles := tarGzFiles;
      this.csvOnDisk := csvOnDisk;
      started := [];
    }

    /** `process_on_exists(on_exists, table)` */
    method ProcessOnExists(policy: string, table: string) returns (r: Result<bool>)
      requires IsIdent(table)
      modifies client
      ensures (r, client.State()) == OnExists(policy, old(client.State()), Table(table))
    {
      CleanIdent(DB);
      if policy == "fail" {
        return Success(false);
      } else if policy == "keep" {
        return Success(true);
      } else if policy == "drop" {
        var ex := client.ExistsTable(DB, table);
        assert ex.Success?;
        if ex.value {
          var _ := client.DropTable(DB, table, false);
        } else {
          assert old(client.tables) - {Table(table)} == old(client.tables);
        }
        return Success(false);
      }
      return Failure(ValueError(OnExistsMessage(policy)));
    }

    /** `create_*_table(on_exists)`: `exe_query` of the creation template
        with `IF NOT EXISTS` when the policy says the table may exist. */
    method CreateTable(policy: string, table: string, template: string) returns (r: Result<()>)
      requires IsIdent(table)
      modifies client
      ensures (r, client.State()) == CreateWithPolicy(policy, old(client.State()), Table(table))
    {
      var existsOk := ProcessOnExists(policy, table);
      if existsOk.Failure? {
        return Failure(existsOk.error);
      }
      CleanIdent(DB);
      ParseCreateTableQuery(existsOk.value, DB, table, template);
      r := client.CreateTable(existsOk.value, DB, table, template);
    }

    /** The inserts of one group into one table, one after another (the
        worker pool's jobs, or the partitioned queries in grid order). */
    method InsertAll(n: TableName, batches: seq<Batch>) returns (r: Result<()>)
      modifies client
      ensures (r, client.State()) == InsertBatches(old(client.State()), n, batches)
    {
      ghost var t0 := client.tables;
      assert n in t0 ==> t0[n := t0[n] + batches[..0]] == t0 by {
        assert batches[..0] == [];
        if n in t0 {
          assert t0[n] + [] == t0[n];
        }
      }
      for i := 0 to |batches|
        invariant client.databases == old(client.databases)
        invariant n in t0 ==> client.tables == t0[n := t0[n] + batches[..i]]
        invariant n !in t0 ==> client.tables == t0 && i == 0
      {
        var ri := client.Insert(n, batches[i]);
        if ri.Failure? {
          return ri;
        }
        assert batches[..i + 1] == batches[..i] + [batches[i]];
        assert t0[n] + batches[..i] + [batches[i]] == t0[n] + batches[..i + 1];
      }
      assert batches[..|batches|] == batches;
      r := Success(());
    }

    /** A group's table: create it under the policy, then insert the batches. */
    method CreateAndFill(policy: string, table: string, template: string, batches: Result<seq<Batch>>)
      returns (r: Result<()>)
      requires IsIdent(table)
      modifies client
      ensures (r, client.State()) == CreateAndFillSpec(policy, old(client.State()), Table(table), batches)
    {
      r := CreateTable(policy, table, template);
      if r.Failure? {
        return;
      }
      if batches.Failure? {
        return Failure(batches.error);
      }
      r := InsertAll(Table(table), batches.value);
    }

    /** `generate_csv`: one CSV file per archive. */
    method GenerateCsv() returns (r: Result<()>)
      modifies this
      ensures started == old(started)
      ensures var csvs := CsvFiles(csvDir, tarGzFiles);
        && r == (if csvs.Success? then Success(()) else Failure(csvs.error))
        && csvOnDisk == if csvs.Success? then old(csvOnDisk) + Elements(csvs.value) else old(csvOnDisk)
    {
      var csvs := CsvFiles(csvDir, tarGzFiles);
      if csvs.Failure? {
        return Failure(csvs.error);
      }
      GenerateAll(csvs.value);
      r := Success(());
    }

    /** The pool of `generate_csv_worker` jobs: each writes its CSV file. */
    method GenerateAll(paths: seq<string>)
      modifies this
      ensures started == old(started)
      ensures csvOnDisk == old(csvOnDisk) + Elements(paths)
    {
      assert paths[..0] == [];
      for i := 0 to |paths|
        invariant csvOnDisk == old(csvOnDisk) + Elements(paths[..i])
        invariant started == old(started)
      {
        ElementsStep(paths, i);
        csvOnDisk := csvOnDisk + {paths[i]};
      }
      assert paths[..|paths|] == paths;
    }

    /** `remove_csv`: removes every CSV file of the archives. */
    method RemoveCsv() returns (r: Result<()>)
      modifies this
      ensures started == old(started)
      ensures var csvs := CsvFiles(csvDir, tarGzFiles);
        if csvs.Failure? then r == Failure(csvs.error) && csvOnDisk == old(csvOnDisk)
        else (r, csvOnDisk) == RemoveAll(old(csvOnDisk), csvs.value)
    {
      var csvs := CsvFiles(csvDir, tarGzFiles);
      if csvs.Failure? {
        return Failure(csvs.error);
      }
      r := RemoveEach(csvs.value);
    }

    /** The `os.remove` loop of `remove_csv`. */
    method RemoveEach(paths: seq<string>) returns (r: Result<()>)
      modifies this
      ensures started == old(started)
      ensures (r, csvOnDisk) == RemoveAll(old(csvOnDisk), paths)
    {
      for i := 0 to |paths|
        invariant RemoveAll(csvOnDisk, paths[i..]) == RemoveAll(old(csvOnDisk), paths)
        invariant started == old(started)
      {
        assert paths[i..][1..] == paths[i + 1..];
        if paths[i] !in csvOnDisk {
          return Failure(FileNotFoundError(paths[i]));
        }
        csvOnDisk := csvOnDisk - {paths[i]};
      }
      r := Success(());
    }

    /** The batches of the `csv-obs` group: the CSV files in the field range. */
    function CsvBatches(): Result<seq<Batch>> {
      var csvs :- CsvFiles(csvDir, tarGzFiles);
      var kept :- CsvRange(csvs, startField, endField);
      Success(FileBatches(kept))
    }

    /** The partitioned inserts of a group, over the quantile grid of
        `column` in `source`. */
    static function PartitionedBatches(parts: int, quantiles: Quantiles, source: TableName, column: string,
                                       template: string): Result<seq<Batch>> {
      var grid :- QuantileGrid(parts, quantiles, source, column);
      Success(PartBatches(template, grid))
    }

    /** The table a group creates, if it is a table group. */
    function GroupTable(g: string): Option<TableName> {
      if g == "csv-obs" || g == "tar.gz-obs" then Some(Table(ObsTable(dr)))
      else if g == "meta" then Some(Table(MetaTable(dr)))
      else if g == "circle" then Some(Table(CircleMatchTable(dr, radiusSuffix)))
      else if g == "xmatch" then Some(Table(XmatchTable(dr, radiusSuffix)))
      else if g == "source-obs" then Some(Table(SourceObsTable(dr, radiusSuffix)))
      else if g == "source-meta" then Some(Table(SourceMetaTable(dr, radiusSuffix)))
      else None
    }

    /** What a table group does to the catalogue: `csv-obs` and `tar.gz-obs`
        first create the database, then the group creates its table under
        the policy and inserts its batches (the CSV files in the field range,
        the archives, one script, or one script per quantile part). */
    function TableGroup(g: string, quantiles: Quantiles, s: Store): (Result<()>, Store) {
      if g == "csv-obs" then
        CreateAndFillSpec(onExists, WithDb(s), Table(ObsTable(dr)), CsvBatches())
      else if g == "tar.gz-obs" then
        CreateAndFillSpec(onExists, WithDb(s), Table(ObsTable(dr)), Success(FileBatches(tarGzFiles)))
      else if g == "meta" then
        CreateAndFillSpec(onExists, s, Table(MetaTable(dr)), Success([Batch("insert_into_obs_meta_table.sql", All)]))
      else if g == "circle" then
        CreateAndFillSpec(onExists, s, Table(CircleMatchTable(dr, radiusSuffix)),
                          PartitionedBatches(circleParts, quantiles, Table(MetaTable(dr)), "oid",
                                             "insert_into_circle_match_table.sql"))
      else if g == "xmatch" then
        CreateAndFillSpec(onExists, s, Table(XmatchTable(dr, radiusSuffix)),
                          Success([Batch("insert_into_xmatch_table.sql", All)]))
      else if g == "source-obs" then
        CreateAndFillSpec(onExists, s, Table(SourceObsTable(dr, radiusSuffix)),
                          PartitionedBatches(sourceObsParts, quantiles, Table(XmatchTable(dr, radiusSuffix)), "oid1",
                                             "insert_into_source_obs_table.sql"))
      else if g == "source-meta" then
        CreateAndFillSpec(onExists, s, Table(SourceMetaTable(dr, radiusSuffix)),
                          Success([Batch("insert_into_source_meta_table.sql", All)]))
      else (Success(()), s)
    }

    /** What one group of `__call__` answers and leaves behind, as the
        catalogue and the CSV files on disk: `gen-csv` writes one CSV per
        archive, `rm-csv` removes them (failing at the first missing one),
        and every other group creates and fills its table, leaving the
        disk alone. */
    function GroupSpec(g: string, quantiles: Quantiles, s: Store, disk: set<string>): (Result<()>, Store, set<string>) {
      var csvs := CsvFiles(csvDir, tarGzFiles);
      if g == "gen-csv" then
        if csvs.Success? then (Success(()), s, disk + Elements(csvs.value)) else (Failure(csvs.error), s, disk)
      else if g == "rm-csv" then
        if csvs.Failure? then (Failure(csvs.error), s, disk)
        else var (r, d) := RemoveAll(disk, csvs.value); (r, s, d)
      else
        var (r, s') := TableGroup(g, quantiles, s); (r, s', disk)
    }

    /** The groups run one after another from `s` and `disk`, the first
        failure stopping the rest. */
    function RunSpec(gs: seq<string>, quantiles: Quantiles, s: Store, disk: set<string>): (Result<()>, Store, set<string>) {
      if gs == [] then (Success(()), s, disk)
      else
        var (r, s1, d1) := RunSpec(gs[..|gs| - 1], quantiles, s, disk);
        if r.Failure? then (r, s1, d1) else GroupSpec(gs[|gs| - 1], quantiles, s1, d1)
    }

    /** A group that succeeds loses no database and no table, and a table
        group leaves its table in place. */
    lemma GroupGrows(g: string, quantiles: Quantiles, s: Store, disk: set<string>)
      requires GroupSpec(g, quantiles, s, disk).0.Success?
      ensures s.databases <= GroupSpec(g, quantiles, s, disk).1.databases
      ensures s.tables.Keys <= GroupSpec(g, quantiles, s, disk).1.tables.Keys
      ensures GroupTable(g).Some? ==> GroupTable(g).value in GroupSpec(g, quantiles, s, disk).1.tables
    {
      if g == "csv-obs" {
        CreateAndFillOutcome(onExists, WithDb(s), Table(ObsTable(dr)), CsvBatches());
      } else if g == "tar.gz-obs" {
        CreateAndFillOutcome(onExists, WithDb(s), Table(ObsTable(dr)), Success(FileBatches(tarGzFiles)));
      } else if g == "meta" {
        CreateAndFillOutcome(onExists, s, Table(MetaTable(dr)), Success([Batch("insert_into_obs_meta_table.sql", All)]));
      } else if g == "circle" {
        CreateAndFillOutcome(onExists, s, Table(CircleMatchTable(dr, radiusSuffix)),
                             PartitionedBatches(circleParts, quantiles, Table(MetaTable(dr)), "oid",
                                                "insert_into_circle_match_table.sql"));
      } else if g == "xmatch" {
        CreateAndFillOutcome(onExists, s, Table(XmatchTable(dr, radiusSuffix)),
                             Success([Batch("insert_into_xmatch_table.sql", All)]));
      } else if g == "source-obs" {
        CreateAndFillOutcome(onExists, s, Table(SourceObsTable(dr, radiusSuffix)),
                             PartitionedBatches(sourceObsParts, quantiles, Table(XmatchTable(dr, radiusSuffix)), "oid1",
                                                "insert_into_source_obs_table.sql"));
      } else if g == "source-meta" {
        CreateAndFillOutcome(onExists, s, Table(SourceMetaTable(dr, radiusSuffix)),
                             Success([Batch("insert_into_source_meta_table.sql", All)]));
      }
    }

    /** A `__call__` that succeeds loses no database and no table (the
        policies only ever replace the table they create), and leaves the
        table of every table group it ran in place. */
    lemma {:induction false} RunSpecGrows(gs: seq<string>, quantiles: Quantiles, s: Store, disk: set<string>)
      requires RunSpec(gs, quantiles, s, disk).0.Success?
      ensures s.databases <= RunSpec(gs, quantiles, s, disk).1.databases
      ensures s.tables.Keys <= RunSpec(gs, quantiles, s, disk).1.tables.Keys
      ensures forall g :: g in gs && GroupTable(g).Some? ==> GroupTable(g).value in RunSpec(gs, quantiles, s, disk).1.tables
    {
      if gs != [] {
        var init := gs[..|gs| - 1];
        var last := gs[|gs| - 1];
        var (r1, s1, d1) := RunSpec(init, quantiles, s, disk);
        RunSpecGrows(init, quantiles, s, disk);
        GroupGrows(last, quantiles, s1, d1);
        InitLast(gs);
      }
    }

    /** After groups that succeeded, the next group starts from where they left off. */
    lemma RunSpecNext(gs: seq<string>, g: string, quantiles: Quantiles, s: Store, disk: set<string>,
                      s1: Store, d1: set<string>)
      requires RunSpec(gs, quantiles, s, disk) == (Success(()), s1, d1)
      ensures RunSpec(gs + [g], quantiles, s, disk) == GroupSpec(g, quantiles, s1, d1)
    {
      assert (gs + [g])[..|gs|] == gs;
    }

    lemma RunSpecFailNext(gs: seq<string>, g: string, quantiles: Quantiles, s: Store, disk: set<string>)
      requires RunSpec(gs, quantiles, s, disk).0.Failure?
      ensures RunSpec(gs + [g], quantiles, s, disk) == RunSpec(gs, quantiles, s, disk)
    {
      assert (gs + [g])[..|gs|] == gs;
    }

    /** Once a group has failed, later groups change nothing. */
    lemma {:induction false} RunSpecStops(gs: seq<string>, more: seq<string>, quantiles: Quantiles, s: Store, disk: set<string>)
      requires RunSpec(gs, quantiles, s, disk).0.Failure?
      ensures RunSpec(gs + more, quantiles, s, disk) == RunSpec(gs, quantiles, s, disk)
      decreases |more|
    {
      if more != [] {
        var m := more[..|more| - 1];
        RunSpecStops(gs, m, quantiles, s, disk);
        assert gs + more == (gs + m) + [more[|more| - 1]];
        RunSpecFailNext(gs + m, more[|more| - 1], quantiles, s, disk);
      } else {
        assert gs + more == gs;
      }
    }

    /** The body of one `if '<group>' in actions:` block of `__call__`. */
    method RunGroup(g: string, quantiles: Quantiles) returns (r: Result<()>)
      requires Valid()
      modifies this, client
      ensures started == old(started) + [g]
      ensures (r, client.State(), csvOnDisk) == GroupSpec(g, quantiles, old(client.State()), old(csvOnDisk))
    {
      started := started + [g];
      TableNamesIdent(dr, radiusSuffix);
      if g == "gen-csv" {
        r := GenerateCsv();
      } else if g == "csv-obs" {
        var _ := client.CreateDb(DB);
        r := CreateAndFill(onExists, ObsTable(dr), "create_obs_table.sql", CsvBatches());
      } else if g == "rm-csv" {
        r := RemoveCsv();
      } else if g == "tar.gz-obs" {
        var _ := client.CreateDb(DB);
        r := CreateAndFill(onExists, ObsTable(dr), "create_obs_table.sql", Success(FileBatches(tarGzFiles)));
      } else if g == "meta" {
        r := CreateAndFill(onExists, MetaTable(dr), "create_obs_meta_table.sql",
                           Success([Batch("insert_into_obs_meta_table.sql", All)]));
      } else if g == "circle" {
        r := CreateAndFill(onExists, CircleMatchTable(dr, radiusSuffix), "create_circle_match_table.sql",
                           PartitionedBatches(circleParts, quantiles, Table(MetaTable(dr)), "oid",
                                              "insert_into_circle_match_table.sql"));
      } else if g == "xmatch" {
        r := CreateAndFill(onExists, XmatchTable(dr, radiusSuffix), "create_xmatch_table.sql",
                           Success([Batch("insert_into_xmatch_table.sql", All)]));
      } else if g == "source-obs" {
        r := CreateAndFill(onExists, SourceObsTable(dr, radiusSuffix), "create_source_obs_table.sql",
                           PartitionedBatches(sourceObsParts, quantiles, Table(XmatchTable(dr, radiusSuffix)), "oid1",
                                              "insert_into_source_obs_table.sql"));
      } else if g == "source-meta" {
        r := CreateAndFill(onExists, SourceMetaTable(dr, radiusSuffix), "create_source_meta_table.sql",
                           Success([Batch("insert_into_source_meta_table.sql", All)]));
      } else {
        r := Success(());
      }
    }

    /** `__call__(actions)`: the groups `actions` names, in the fixed order of
        `GROUPS` whatever the order of `actions`; the first failing group
        stops the rest. */
    method Call(actions: seq<string>, quantiles: Quantiles) returns (r: Result<()>)
      requires Valid()
      modifies this, client
      ensures (r, client.State(), csvOnDisk) == RunSpec(Dispatched(actions), quantiles, old(client.State()), old(csvOnDisk))
      ensures r.Success? ==> started == old(started) + Dispatched(actions)
      ensures r.Failure? ==>
        exists k :: 0 < k <= |Dispatched(actions)| && started == old(started) + Dispatched(actions)[..k]
    {
      r := RunSelected(GROUPS, actions, quantiles);
    }

    /** One more group after the groups `done`, which succeeded from `s0`
        and `d0` and left the current catalogue and disk. */
    method RunNext(g: string, quantiles: Quantiles, ghost done: seq<string>, ghost s0: Store, ghost d0: set<string>)
      returns (r: Result<()>)
      requires Valid()
      requires RunSpec(done, quantiles, s0, d0) == (Success(()), client.State(), csvOnDisk)
      modifies this, client
      ensures started == old(started) + [g]
      ensures (r, client.State(), csvOnDisk) == RunSpec(done + [g], quantiles, s0, d0)
    {
      RunSpecNext(done, g, quantiles, s0, d0, client.State(), csvOnDisk);
      r := RunGroup(g, quantiles);
    }

    /** A failure in the group at `i` decides the outcome of the whole run;
        the groups started are a prefix of the selection. */
    lemma StopsAt(gs: seq<string>, i: nat, actions: seq<string>, quantiles: Quantiles, s0: Store, d0: set<string>)
      requires i < |gs|
      requires RunSpec(Select(gs[..i + 1], actions), quantiles, s0, d0).0.Failure?
      ensures var sel := Select(gs[..i + 1], actions);
        && |sel| <= |Select(gs, actions)| && sel == Select(gs, actions)[..|sel|]
        && RunSpec(Select(gs, actions), quantiles, s0, d0) == RunSpec(sel, quantiles, s0, d0)
    {
      var all := Select(gs, actions);
      var k := |Select(gs[..i + 1], actions)|;
      SelectPrefix(gs, i + 1, actions);
      assert all == all[..k] + all[k..];
      RunSpecStops(all[..k], all[k..], quantiles, s0, d0);
    }

    /** The `if '<group>' in actions:` blocks for the groups `gs`, in order. */
    method RunSelected(gs: seq<string>, actions: seq<string>, quantiles: Quantiles) returns (r: Result<()>)
      requires Valid()
      modifies this, client
      ensures (r, client.State(), csvOnDisk) == RunSpec(Select(gs, actions), quantiles, old(client.State()), old(csvOnDisk))
      ensures r.Success? ==> started == old(started) + Select(gs, actions)
      ensures r.Failure? ==>
        exists k :: 0 < k <= |Select(gs, actions)| && started == old(started) + Select(gs, actions)[..k]
    {
      ghost var s0, d0 := client.State(), csvOnDisk;
      r := Success(());
      for i := 0 to |gs|
        invariant started == old(started) + Select(gs[..i], actions)
        invariant r == Success(())
        invariant (r, client.State(), csvOnDisk) == RunSpec(Select(gs[..i], actions), quantiles, s0, d0)
      {
        SelectStep(gs, i, actions);
        ghost var sel := Select(gs[..i], actions);
        if gs[i] in actions {
          r := RunNext(gs[i], quantiles, sel, s0, d0);
          if r.Failure? {
            StopsAt(gs, i, actions, quantiles, s0, d0);
            return;
          }
          assert r.value == ();
        } else {
          assert Select(gs[..i + 1], actions) == sel;
        }
      }
      assert gs[..|gs|] == gs;
    }
  }

  /** The catalogue after `create_db('ztf')`. */
  function WithDb(s: Store): Store {
    s.(databases := s.databases + {DB})
  }

  /** The file inserts of a group, one per file. */
  function FileBatches(paths: seq<string>): (r: seq<Batch>)
    ensures |r| == |paths| && forall i :: 0 <= i < |paths| ==> r[i] == Batch(paths[i], All)
  {
    seq(|paths|, i requires 0 <= i < |paths| => Batch(paths[i], All))
  }
}
