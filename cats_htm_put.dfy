/** The catsHTM putter: the column names of each catalog as they go to
    ClickHouse (lowercased, with the coordinate columns renamed), the check
    that they are unique, the choice of catalogs to load (with `all`
    expanded), and the row-binary file paths. */
module CatsHtmPut {
  import opened Common
  import opened PyStr
  import opened PyDict
  import Putter

  const DB := "htm"

  // ---------------------------------------------------------------------
  // Column names

  /** `names.index(x, from)`-style search: the first position at or after
      `from` holding `x`. */
  function Find(s: seq<string>, x: string, from: nat): (r: Option<nat>)
    requires from <= |s|
    ensures r.Some? ==> from <= r.value < |s| && s[r.value] == x &&
                        forall k :: from <= k < r.value ==> s[k] != x
    ensures r.None? ==> forall k :: from <= k < |s| ==> s[k] != x
    decreases |s| - from
  {
    if from == |s| then None
    else if s[from] == x then Some(from)
    else Find(s, x, from + 1)
  }

  /** The error `list.index` raises for a missing item. */
  function NotInList(x: string): Error {
    ValueError("'" + x + "' is not in list")
  }

  predicate IsNotInList(e: Error) {
    e.ValueError? && |e.msg| > 0 && e.msg[0] == '\''
  }

  /** `list.index(x)` on the slots from `from` on. */
  function Slot(s: seq<string>, x: string, from: nat): (r: Result<nat>)
    requires from <= |s|
    ensures r.Failure? ==> IsNotInList(r.error)
  {
    match Find(s, x, from)
    case None => Failure(NotInList(x))
    case Some(i) => Success(i)
  }

  /** Overwriting a slot that does not hold `z` with a value other than `z`,
      or a slot before the search starts, leaves the search for `z` as it
      was. */
  lemma {:induction false} FindSkip(s: seq<string>, i: nat, y: string, z: string, from: nat)
    requires i < |s| && from <= |s|
    requires i < from || (s[i] != z && y != z)
    ensures Find(s[i := y], z, from) == Find(s, z, from)
    decreases |s| - from
  {
    if from < |s| {
      FindSkip(s, i, y, z, from + 1);
    }
  }

  /** Overwriting the first `x` found from `from` makes the next search find
      the following `x`. */
  lemma {:induction false} FindAfter(s: seq<string>, x: string, y: string, from: nat, i: nat)
    requires from <= |s|
    requires Find(s, x, from) == Some(i)
    requires y != x
    ensures Find(s[i := y], x, from) == Find(s, x, i + 1)
    decreases |s| - from
  {
    if from < i {
      FindAfter(s, x, y, from + 1, i);
    } else {
      assert s[i := y][i] != x;
      FindSkip(s, i, y, x, i + 1);
    }
  }

  /** `tuple(col.lower() for col in self.col_names)` */
  function ChColumnNames(colNames: seq<string>): (r: seq<string>)
    ensures |r| == |colNames|
  {
    seq(|colNames|, i requires 0 <= i < |colNames| => Lower(colNames[i]))
  }

  predicate IsLowerChar(c: char) { !('A' <= c <= 'Z') }

  /** A name `str.lower` leaves alone. */
  predicate IsLowerName(s: string) {
    forall i :: 0 <= i < |s| ==> IsLowerChar(s[i])
  }

  lemma LowerOfLowerName(s: string)
    requires IsLowerName(s)
    ensures Lower(s) == s
  {
    assert forall i :: 0 <= i < |s| ==> Lower(s)[i] == s[i];
  }

  /** Every ClickHouse column name is lower case, so lowering again changes
      nothing. */
  lemma ChColumnNamesLower(colNames: seq<string>)
    ensures forall i :: 0 <= i < |colNames| ==> IsLowerName(ChColumnNames(colNames)[i])
    ensures ChColumnNames(ChColumnNames(colNames)) == ChColumnNames(colNames)
  {
    var cols := ChColumnNames(colNames);
    forall i | 0 <= i < |colNames| ensures IsLowerName(cols[i]) {
      assert forall j :: 0 <= j < |cols[i]| ==> cols[i][j] == LowerChar(colNames[i][j]);
    }
    forall i | 0 <= i < |colNames| ensures ChColumnNames(cols)[i] == cols[i] {
      LowerOfLowerName(cols[i]);
    }
  }

  /** The names `_prepare_column_names_for_ch` produces from the lowercased
      names `cols`: AKARI renames the first `ra`/`dec` to `*_rad` and the
      second ones to `*_arcsec`; HSCv2 renames `matchra`/`matchdec`; every
      other catalog renames the first `ra`/`dec`.  A name that is not there
      is the `ValueError` of `list.index`, raised for the first rename in
      source order that finds nothing. */
  function Prepared(name: string, cols: seq<string>): (r: Result<seq<string>>)
    ensures r.Success? ==> |r.value| == |cols|
    ensures r.Failure? ==> IsNotInList(r.error)
  {
    if name == "AKARI" then
      var ra1 :- Slot(cols, "ra", 0);
      var dec1 :- Slot(cols, "dec", 0);
      var ra2 :- Slot(cols, "ra", ra1 + 1);
      var dec2 :- Slot(cols, "dec", dec1 + 1);
      Success(cols[ra1 := "ra_rad"][dec1 := "dec_rad"][ra2 := "ra_arcsec"][dec2 := "dec_arcsec"])
    else if name == "HSCv2" then
      var ra :- Slot(cols, "matchra", 0);
      var dec :- Slot(cols, "matchdec", 0);
      Success(cols[ra := "ra_rad"][dec := "dec_rad"])
    else
      var ra :- Slot(cols, "ra", 0);
      var dec :- Slot(cols, "dec", 0);
      Success(cols[ra := "ra_rad"][dec := "dec_rad"])
  }

  /** `SingleCatHtm._prepare_column_names_for_ch`: a copy of the lowercased
      names whose slots are overwritten one `list.index` at a time. */
  method PrepareColumnNames(name: string, colNames: seq<string>) returns (r: Result<seq<string>>)
    ensures r == Prepared(name, ChColumnNames(colNames))
  {
    var cols := ChColumnNames(colNames);
    if name == "AKARI" {
      r := RenameAkari(cols);
    } else if name == "HSCv2" {
      r := RenameMatch(cols);
    } else {
      r := RenameRaDec(name, cols);
    }
  }

  /** The AKARI renames: the first `ra`/`dec` become `*_rad`, the next ones
      `*_arcsec`. */
  method RenameAkari(cols0: seq<string>) returns (r: Result<seq<string>>)
    ensures r == Prepared("AKARI", cols0)
  {
    var cols := cols0;
    var ra1 :- Slot(cols, "ra", 0);
    cols := cols[ra1 := "ra_rad"];
    FindSkip(cols0, ra1, "ra_rad", "dec", 0);
    var dec1 :- Slot(cols, "dec", 0);
    cols := cols[dec1 := "dec_rad"];
    ghost var cols1 := cols0[ra1 := "ra_rad"];
    FindAfter(cols0, "ra", "ra_rad", 0, ra1);
    FindSkip(cols1, dec1, "dec_rad", "ra", 0);
    var ra2 :- Slot(cols, "ra", 0);
    cols := cols[ra2 := "ra_arcsec"];
    ghost var cols2 := cols1[dec1 := "dec_rad"];
    FindAfter(cols1, "dec", "dec_rad", 0, dec1);
    FindSkip(cols0, ra1, "ra_rad", "dec", dec1 + 1);
    FindSkip(cols2, ra2, "ra_arcsec", "dec", 0);
    var dec2 :- Slot(cols, "dec", 0);
    cols := cols[dec2 := "dec_arcsec"];
    return Success(cols);
  }

  /** The HSCv2 renames of `matchra` and `matchdec`. */
  method RenameMatch(cols0: seq<string>) returns (r: Result<seq<string>>)
    ensures r == Prepared("HSCv2", cols0)
  {
    var cols := cols0;
    var ra :- Slot(cols, "matchra", 0);
    cols := cols[ra := "ra_rad"];
    FindSkip(cols0, ra, "ra_rad", "matchdec", 0);
    var dec :- Slot(cols, "matchdec", 0);
    cols := cols[dec := "dec_rad"];
    return Success(cols);
  }

  /** The renames of every other catalog: the first `ra` and `dec`. */
  method RenameRaDec(name: string, cols0: seq<string>) returns (r: Result<seq<string>>)
    requires name != "AKARI" && name != "HSCv2"
    ensures r == Prepared(name, cols0)
  {
    var cols := cols0;
    var ra :- Slot(cols, "ra", 0);
    cols := cols[ra := "ra_rad"];
    FindSkip(cols0, ra, "ra_rad", "dec", 0);
    var dec :- Slot(cols, "dec", 0);
    cols := cols[dec := "dec_rad"];
    return Success(cols);
  }

  /** Outside the coordinate columns the prepared names are the lowercased
      source names; the renamed slots hold the new names, and a catalog
      succeeds exactly when the names it renames are present (twice each for
      AKARI). */
  lemma PreparedDefault(name: string, cols: seq<string>)
    requires name != "AKARI" && name != "HSCv2"
    ensures Prepared(name, cols).Success? <==> "ra" in cols && "dec" in cols
    ensures Prepared(name, cols).Success? ==>
              var r, ra, dec := Prepared(name, cols).value, Find(cols, "ra", 0).value, Find(cols, "dec", 0).value;
              && r[ra] == "ra_rad" && r[dec] == "dec_rad"
              && (forall k :: 0 <= k < |cols| && k != ra && k != dec ==> r[k] == cols[k])
  {
    if "ra" in cols {
      var i :| 0 <= i < |cols| && cols[i] == "ra";
      assert Find(cols, "ra", 0).Some?;
    }
    if "dec" in cols {
      var i :| 0 <= i < |cols| && cols[i] == "dec";
      assert Find(cols, "dec", 0).Some?;
    }
  }

  /** `x` occurs at two positions of `s`. */
  predicate Twice(s: seq<string>, x: string) {
    exists i, j :: 0 <= i < j < |s| && s[i] == x && s[j] == x
  }

  lemma TwiceFind(s: seq<string>, x: string)
    ensures Twice(s, x) <==> Find(s, x, 0).Some? && Find(s, x, Find(s, x, 0).value + 1).Some?
  {
    if Twice(s, x) {
      var i, j :| 0 <= i < j < |s| && s[i] == x && s[j] == x;
      var first := Find(s, x, 0).value;
      assert first <= i;
      assert Find(s, x, first + 1).Some?;
    }
    if Find(s, x, 0).Some? && Find(s, x, Find(s, x, 0).value + 1).Some? {
      var first := Find(s, x, 0).value;
      var second := Find(s, x, first + 1).value;
      assert s[first] == x && s[second] == x;
    }
  }

  /** AKARI's names go through exactly when `ra` and `dec` each occur twice. */
  lemma PreparedAkari(cols: seq<string>)
    ensures Prepared("AKARI", cols).Success? <==> Twice(cols, "ra") && Twice(cols, "dec")
  {
    TwiceFind(cols, "ra");
    TwiceFind(cols, "dec");
  }

  predicate AllLower(cols: seq<string>) {
    forall i :: 0 <= i < |cols| ==> IsLowerName(cols[i])
  }

  lemma UpdateLower(cols: seq<string>, i: nat, y: string)
    requires AllLower(cols) && IsLowerName(y) && i < |cols|
    ensures AllLower(cols[i := y])
  {
  }

  /** A step of `PreparedLower`: the new names are lower case. */
  lemma RenamesLower()
    ensures IsLowerName("ra_rad") && IsLowerName("dec_rad")
    ensures IsLowerName("ra_arcsec") && IsLowerName("dec_arcsec")
  {
  }

  /** The prepared names are all lower case. */
  lemma PreparedLower(name: string, cols: seq<string>)
    requires AllLower(cols)
    requires Prepared(name, cols).Success?
    ensures AllLower(Prepared(name, cols).value)
  {
    RenamesLower();
    if name == "AKARI" {
      var ra1 := Find(cols, "ra", 0).value;
      var dec1 := Find(cols, "dec", 0).value;
      var ra2 := Find(cols, "ra", ra1 + 1).value;
      var dec2 := Find(cols, "dec", dec1 + 1).value;
      UpdateLower(cols, ra1, "ra_rad");
      UpdateLower(cols[ra1 := "ra_rad"], dec1, "dec_rad");
      UpdateLower(cols[ra1 := "ra_rad"][dec1 := "dec_rad"], ra2, "ra_arcsec");
      UpdateLower(cols[ra1 := "ra_rad"][dec1 := "dec_rad"][ra2 := "ra_arcsec"], dec2, "dec_arcsec");
    } else {
      var a, b := if name == "HSCv2" then "matchra" else "ra", if name == "HSCv2" then "matchdec" else "dec";
      var ra := Find(cols, a, 0).value;
      var dec := Find(cols, b, 0).value;
      UpdateLower(cols, ra, "ra_rad");
      UpdateLower(cols[ra := "ra_rad"], dec, "dec_rad");
    }
  }

  /** `Counter(ch_names)` keys seen more than once. */
  function Repeated(names: seq<string>): set<string> {
    set x | x in names && multiset(names)[x] > 1
  }

  /** `_check_columns`: a `NotImplementedError` naming the repeated columns. */
  function CheckColumns(names: seq<string>): Result<()> {
    if Repeated(names) != {} then Failure(NotImplementedError(Repeated(names))) else Success(())
  }

  /** The check fails exactly when two slots hold the same name. */
  lemma {:induction false} CheckColumnsDistinct(names: seq<string>)
    ensures CheckColumns(names).Success? <==> Distinct(names)
  {
    DistinctCounts(names);
    if Repeated(names) == {} {
      forall x ensures multiset(names)[x] <= 1 {
        assert x !in Repeated(names);
      }
    } else {
      var x :| x in Repeated(names);
    }
  }

  lemma {:induction false} DistinctCounts(names: seq<string>)
    ensures Distinct(names) <==> forall x :: multiset(names)[x] <= 1
  {
    if names != [] {
      var init := names[..|names| - 1];
      var l := names[|names| - 1];
      assert names == init + [l];
      DistinctCounts(init);
      if Distinct(names) {
        assert Distinct(init) by {
          forall i, j | 0 <= i < j < |init| ensures init[i] != init[j] {
            assert init[i] == names[i] && init[j] == names[j];
          }
        }
        assert l !in init by {
          forall i | 0 <= i < |init| ensures init[i] != l {
            assert init[i] == names[i];
          }
        }
      } else {
        var i, j :| 0 <= i < j < |names| && names[i] == names[j];
        if j < |names| - 1 {
          assert init[i] == init[j];
          assert !Distinct(init);
          var x :| multiset(init)[x] > 1;
          assert multiset(names)[x] == multiset(init)[x] + multiset([l])[x];
        } else {
          assert init[i] == l;
          assert l in init;
          assert multiset(names)[l] == multiset(init)[l] + 1;
        }
      }
    }
  }

  /** One `` `name` Float64 `` column definition. */
  function ColumnDef(col: string): string {
    "`" + Lower(col) + "` Float64"
  }

  function ColumnDefs(cols: seq<string>): (r: seq<string>)
    ensures |r| == |cols|
  {
    seq(|cols|, i requires 0 <= i < |cols| => ColumnDef(cols[i]))
  }

  /** `ch_columns_str`: the definitions joined by `,\n    `. */
  function ColumnsStr(cols: seq<string>): string {
    Join(",\n    ", ColumnDefs(cols))
  }

  /** Distinct lower-case names give distinct column definitions, each
      naming its column as it is. */
  lemma ColumnDefsDistinct(cols: seq<string>)
    requires forall i :: 0 <= i < |cols| ==> IsLowerName(cols[i])
    requires Distinct(cols)
    ensures forall i :: 0 <= i < |cols| ==> ColumnDef(cols[i]) == "`" + cols[i] + "` Float64"
    ensures Distinct(ColumnDefs(cols))
  {
    forall i | 0 <= i < |cols| ensures ColumnDef(cols[i]) == "`" + cols[i] + "` Float64" {
      LowerOfLowerName(cols[i]);
    }
    var defs := ColumnDefs(cols);
    forall i, j | 0 <= i < j < |cols| ensures defs[i] != defs[j] {
      var a, b := cols[i], cols[j];
      if |a| == |b| {
        assert a == ColumnDef(a)[1..|a| + 1];
        assert b == ColumnDef(b)[1..|b| + 1];
      } else {
        assert |ColumnDef(a)| != |ColumnDef(b)|;
      }
    }
  }

  /** A `SingleCatHtm` once constructed: the catalog's name and directory,
      its source column names and the prepared ClickHouse names. */
  datatype Catalog = Catalog(name: string, path: string, colNames: seq<string>, columns: seq<string>)

  /** `SingleCatHtm.__init__`: prepare the names and check them. */
  function NewCatalog(name: string, path: string, colNames: seq<string>): (r: Result<Catalog>)
    ensures r.Success? ==> Prepared(name, ChColumnNames(colNames)).Success? &&
                           r.value == Catalog(name, path, colNames, Prepared(name, ChColumnNames(colNames)).value)
    ensures r.Success? ==> Distinct(r.value.columns)
    ensures r.Failure? ==> IsNotInList(r.error) || r.error.NotImplementedError?
    ensures r.Failure? <==> Prepared(name, ChColumnNames(colNames)).Failure? ||
                            !Distinct(Prepared(name, ChColumnNames(colNames)).value)
  {
    var cols :- Prepared(name, ChColumnNames(colNames));
    CheckColumnsDistinct(cols);
    var _ :- CheckColumns(cols);
    Success(Catalog(name, path, colNames, cols))
  }

  /** The table definitions of a constructed catalog are distinct and name
      its prepared columns. */
  lemma CatalogColumns(name: string, path: string, colNames: seq<string>)
    requires NewCatalog(name, path, colNames).Success?
    ensures var c := NewCatalog(name, path, colNames).value;
            Distinct(ColumnDefs(c.columns)) &&
            forall i :: 0 <= i < |c.columns| ==> ColumnDef(c.columns[i]) == "`" + c.columns[i] + "` Float64"
  {
    ChColumnNamesLower(colNames);
    PreparedLower(name, ChColumnNames(colNames));
    var c := NewCatalog(name, path, colNames).value;
    ColumnDefsDistinct(c.columns);
  }

  // ---------------------------------------------------------------------
  // Choosing the catalogs

  /** The directory test of the `name_path` loop, as intended: `path` is a
      directory (`isDir` stands for `os.path.isdir`) and one of the names
      `os.listdir(path)` gives (`listdir`) ends in `.hdf5`. */
  predicate Hdf5Dir(isDir: string -> bool, listdir: string -> seq<string>, path: string) {
    isDir(path) && exists i :: 0 <= i < |listdir(path)| && EndsWith(listdir(path)[i], ".hdf5")
  }

  /** `name_path`: the catalogs of the name-to-directory dict whose
      directory holds an `.hdf5` file. */
  function UsableDirs(nameDir: Dict<string, string>, isDir: string -> bool, listdir: string -> seq<string>): (r: Dict<string, string>)
    ensures KeySet(r) <= KeySet(nameDir)
  {
    if nameDir == [] then []
    else
      var init := nameDir[..|nameDir| - 1];
      var last := nameDir[|nameDir| - 1];
      assert KeySet(nameDir) == KeySet(init) + {last.0} by {
        assert forall i :: 0 <= i < |init| ==> init[i] == nameDir[i];
      }
      UsableDirs(init, isDir, listdir) + if Hdf5Dir(isDir, listdir, last.1) then [last] else []
  }

  lemma {:induction false} UsableDirsValid(nameDir: Dict<string, string>, isDir: string -> bool, listdir: string -> seq<string>)
    requires Valid(nameDir)
    ensures Valid(UsableDirs(nameDir, isDir, listdir))
  {
    if nameDir != [] {
      var init := nameDir[..|nameDir| - 1];
      var last := nameDir[|nameDir| - 1];
      ValidInit(nameDir);
      UsableDirsValid(init, isDir, listdir);
      var u := UsableDirs(init, isDir, listdir);
      if Hdf5Dir(isDir, listdir, last.1) {
        PutNew(u, last.0, last.1);
        PutValid(u, last.0, last.1);
        assert Valid(u + [last]);
        assert UsableDirs(nameDir, isDir, listdir) == u + [last];
      } else {
        assert UsableDirs(nameDir, isDir, listdir) == u + [] == u;
      }
    }
  }

  /** A catalog is in `name_path` exactly when its directory is usable, and
      keeps that directory. */
  lemma {:induction false} UsableDirsGet(nameDir: Dict<string, string>, isDir: string -> bool, listdir: string -> seq<string>, n: string)
    requires Valid(nameDir)
    ensures Get(UsableDirs(nameDir, isDir, listdir), n) ==
              if Get(nameDir, n).Some? && Hdf5Dir(isDir, listdir, Get(nameDir, n).value) then Get(nameDir, n) else None
  {
    if nameDir != [] {
      var init := nameDir[..|nameDir| - 1];
      var last := nameDir[|nameDir| - 1];
      ValidInit(nameDir);
      UsableDirsGet(init, isDir, listdir, n);
      assert nameDir == init + [last];
      AppendGet(init, last, n);
      var u := UsableDirs(init, isDir, listdir);
      if Hdf5Dir(isDir, listdir, last.1) {
        assert UsableDirs(nameDir, isDir, listdir) == u + [last];
        AppendGet(u, last, n);
      } else {
        assert UsableDirs(nameDir, isDir, listdir) == u + [] == u;
      }
    }
  }

  lemma {:induction false} AppendGet(d: Dict<string, string>, p: (string, string), n: string)
    requires p.0 !in KeySet(d)
    ensures Get(d + [p], n) == if n == p.0 then Some(p.1) else Get(d, n)
  {
    PutNew(d, p.0, p.1);
    PutGet(d, p.0, p.1, n);
  }

  /** `cat.remove(x)`: the first `x` taken out. */
  function RemoveFirst(s: seq<string>, x: string): (r: seq<string>)
    requires x in s
    ensures multiset(r) == multiset(s) - multiset{x}
  {
    assert Find(s, x, 0).Some? by {
      var i :| 0 <= i < |s| && s[i] == x;
    }
    var i := Find(s, x, 0).value;
    assert s == s[..i] + [x] + s[i + 1..];
    s[..i] + s[i + 1..]
  }

  /** The loop appending, in `name_path` order, the catalogs not in
      `cat_set`. */
  function Unnamed(names: seq<string>, named: set<string>): (r: seq<string>)
    ensures forall n :: n in r <==> n in names && n !in named
  {
    if names == [] then []
    else
      var init := names[..|names| - 1];
      assert forall n :: n in names <==> n in init || n == names[|names| - 1] by {
        assert names == init + [names[|names| - 1]];
      }
      Unnamed(init, named) + if names[|names| - 1] in named then [] else [names[|names| - 1]]
  }

  /** The catalog names `_get_catalogs` ends up with: the request as given,
      or with its first `all` replaced by the usable catalogs not named
      explicitly. */
  function Expanded(cat: seq<string>, available: seq<string>): seq<string> {
    if "all" in cat then RemoveFirst(cat, "all") + Unnamed(available, (set n | n in cat) - {"all"})
    else cat
  }

  /** With `all` requested, every usable catalog is loaded, and the named
      catalogs come first in the order given. */
  lemma ExpandedCovers(cat: seq<string>, available: seq<string>)
    requires "all" in cat
    ensures forall n :: n in available ==> n in Expanded(cat, available)
    ensures |cat| >= 1 && Expanded(cat, available)[..|cat| - 1] == RemoveFirst(cat, "all")
  {
    var named := (set n | n in cat) - {"all"};
    forall n | n in available ensures n in Expanded(cat, available) {
      if n in named {
        assert n in cat && n != "all";
        assert multiset(RemoveFirst(cat, "all"))[n] == multiset(cat)[n];
        assert n in RemoveFirst(cat, "all");
      } else {
        assert n in Unnamed(available, named);
      }
    }
    assert |RemoveFirst(cat, "all")| == |cat| - 1 by {
      assert |multiset(RemoveFirst(cat, "all"))| == |multiset(cat)| - 1;
    }
  }

  /** The message of the `ValueError` for requested catalogs that are not
      there (the set's text is not part of it). */
  function NotFoundMessage(dir: string): string {
    "catHTM catalogs are not found in " + dir
  }

  /** One element of the generator: `name_path[name]` raises `KeyError`
      for a name without a directory, else `SingleCatHtm` is built from it. */
  function BuildOne(namePath: Dict<string, string>, name: string, colCells: (string, string) -> seq<string>): (r: Result<Catalog>)
    ensures r.Success? ==> r.value.name == name && Get(namePath, name) == Some(r.value.path)
    ensures r.Failure? <==> Get(namePath, name).None? || NewCatalog(name, Get(namePath, name).value, colCells(Get(namePath, name).value, name)).Failure?
    ensures r.Failure? ==> r.error == KeyError(name) || IsNotInList(r.error) || r.error.NotImplementedError?
  {
    match Get(namePath, name)
    case None => Failure(KeyError(name))
    case Some(path) => NewCatalog(name, path, colCells(path, name))
  }

  /** The catalogs built, in order, for the expanded names; a failing
      element stops the generator. */
  function Build(namePath: Dict<string, string>, names: seq<string>, colCells: (string, string) -> seq<string>): Result<seq<Catalog>> {
    if names == [] then Success([])
    else
      var prev :- Build(namePath, names[..|names| - 1], colCells);
      var c :- BuildOne(namePath, names[|names| - 1], colCells);
      Success(prev + [c])
  }

  /** The part of `_get_catalogs` after `name_path` is known: expand `all`,
      reject names without a directory, build the catalogs.  `colCells(path,
      name)` stands for the column names read from the catalog's
      `_htmColCell.mat` file. */
  function FromNamePath(dir: string, namePath: Dict<string, string>, cat: seq<string>,
                        colCells: (string, string) -> seq<string>): Result<seq<Catalog>>
  {
    var named := (set n | n in cat) - {"all"};
    if named - KeySet(namePath) != {} then Failure(ValueError(NotFoundMessage(dir)))
    else Build(namePath, Expanded(cat, Keys(namePath)), colCells)
  }

  /** `_get_catalogs` with the directory test as intended. */
  function Catalogs(dir: string, nameDir: Dict<string, string>, isDir: string -> bool, listdir: string -> seq<string>, cat: seq<string>,
                    colCells: (string, string) -> seq<string>): Result<seq<Catalog>>
  {
    FromNamePath(dir, UsableDirs(nameDir, isDir, listdir), cat, colCells)
  }

  /** A failure of the generator is final: one more name does not change it. */
  lemma BuildFailSticky(namePath: Dict<string, string>, s: seq<string>, x: string, colCells: (string, string) -> seq<string>)
    requires Build(namePath, s, colCells).Failure?
    ensures Build(namePath, s + [x], colCells) == Build(namePath, s, colCells)
  {
    assert (s + [x])[..|s|] == s;
  }

  /** Nor do any further names. */
  lemma {:induction false} BuildStops(namePath: Dict<string, string>, s: seq<string>, more: seq<string>, colCells: (string, string) -> seq<string>)
    requires Build(namePath, s, colCells).Failure?
    ensures Build(namePath, s + more, colCells) == Build(namePath, s, colCells)
    decreases |more|
  {
    if more == [] {
      assert s + more == s;
    } else {
      var m := more[..|more| - 1];
      BuildStops(namePath, s, m, colCells);
      assert s + more == (s + m) + [more[|more| - 1]];
      BuildFailSticky(namePath, s + m, more[|more| - 1], colCells);
    }
  }

  /** The loop filling `name_path`. */
  method FilterUsable(nameDir: Dict<string, string>, isDir: string -> bool, listdir: string -> seq<string>) returns (namePath: Dict<string, string>)
    requires Valid(nameDir)
    ensures namePath == UsableDirs(nameDir, isDir, listdir)
  {
    namePath := [];
    var i := 0;
    while i < |nameDir|
      invariant 0 <= i <= |nameDir|
      invariant namePath == UsableDirs(nameDir[..i], isDir, listdir)
    {
      var (name, path) := nameDir[i];
      assert nameDir[..i + 1][..i] == nameDir[..i];
      var found := false;
      if isDir(path) {
        found := AnyHdf5(listdir(path));
      }
      if found {
        assert name !in KeySet(nameDir[..i]) by {
          forall k | 0 <= k < i ensures nameDir[..i][k].0 != name {
            assert Keys(nameDir)[k] == nameDir[k].0;
            assert Keys(nameDir)[i] == name;
          }
        }
        PutNew(namePath, name, path);
        namePath := Put(namePath, name, path);
      }
      i := i + 1;
    }
    assert nameDir[..i] == nameDir;
  }

  /** `any(f.endswith('.hdf5') for f in names)`, stopping at the first hit. */
  method AnyHdf5(names: seq<string>) returns (found: bool)
    ensures found <==> exists i :: 0 <= i < |names| && EndsWith(names[i], ".hdf5")
  {
    var j := 0;
    while j < |names|
      invariant 0 <= j <= |names|
      invariant forall k :: 0 <= k < j ==> !EndsWith(names[k], ".hdf5")
    {
      if EndsWith(names[j], ".hdf5") {
        return true;
      }
      j := j + 1;
    }
    return false;
  }

  /** `cat.remove('all')` and the loop appending the unnamed catalogs. */
  method ExpandAll(cat: seq<string>, available: seq<string>) returns (names: seq<string>, catSet: set<string>)
    ensures names == Expanded(cat, available)
    ensures catSet == (set n | n in cat) - {"all"}
  {
    names := cat;
    catSet := set n | n in cat;
    if "all" in catSet {
      names := RemoveFirst(names, "all");
      catSet := catSet - {"all"};
      var j := 0;
      while j < |available|
        invariant 0 <= j <= |available|
        invariant names == RemoveFirst(cat, "all") + Unnamed(available[..j], catSet)
      {
        assert available[..j + 1][..j] == available[..j];
        if available[j] !in catSet {
          names := names + [available[j]];
        }
        j := j + 1;
      }
      assert available[..j] == available;
    }
  }

  /** The generator building one `SingleCatHtm` per name. */
  method BuildAll(namePath: Dict<string, string>, names: seq<string>, colCells: (string, string) -> seq<string>)
    returns (r: Result<seq<Catalog>>)
    ensures r == Build(namePath, names, colCells)
  {
    var built: seq<Catalog> := [];
    var k := 0;
    while k < |names|
      invariant 0 <= k <= |names|
      invariant Build(namePath, names[..k], colCells) == Success(built)
    {
      assert names[..k + 1][..k] == names[..k];
      assert names[..k + 1] + names[k + 1..] == names;
      var path := Get(namePath, names[k]);
      if path.None? {
        BuildStops(namePath, names[..k + 1], names[k + 1..], colCells);
        return Failure(KeyError(names[k]));
      }
      var c := NewCatalog(names[k], path.value, colCells(path.value, names[k]));
      if c.Failure? {
        BuildStops(namePath, names[..k + 1], names[k + 1..], colCells);
        return Failure(c.error);
      }
      built := built + [c.value];
      k := k + 1;
    }
    assert names[..k] == names;
    return Success(built);
  }

  /** `CatsHtmPutter._get_catalogs`: filter the usable directories into
      `name_path`, expand `all`, reject unknown names, then build the
      catalogs in order. */
  method GetCatalogs(dir: string, nameDir: Dict<string, string>, isDir: string -> bool, listdir: string -> seq<string>, cat: seq<string>,
                     colCells: (string, string) -> seq<string>) returns (r: Result<seq<Catalog>>)
    requires Valid(nameDir)
    ensures r == Catalogs(dir, nameDir, isDir, listdir, cat, colCells)
  {
    var namePath := FilterUsable(nameDir, isDir, listdir);
    var names, catSet := ExpandAll(cat, Keys(namePath));
    var notInDir := catSet - KeySet(namePath);
    if notInDir != {} {
      return Failure(ValueError(NotFoundMessage(dir)));
    }
    r := BuildAll(namePath, names, colCells);
  }

  /** A name requested but not usable is a `ValueError` before any catalog
      is built; otherwise the catalogs follow the expanded names, each with
      the directory `name_path` gives it. */
  lemma CatalogsSpec(dir: string, nameDir: Dict<string, string>, isDir: string -> bool, listdir: string -> seq<string>, cat: seq<string>,
                     colCells: (string, string) -> seq<string>)
    requires Valid(nameDir)
    ensures var r := Catalogs(dir, nameDir, isDir, listdir, cat, colCells);
            (r == Failure(ValueError(NotFoundMessage(dir))) <==>
               exists n :: n in cat && n != "all" &&
                           (Get(nameDir, n).None? || !Hdf5Dir(isDir, listdir, Get(nameDir, n).value)))
    ensures var r := Catalogs(dir, nameDir, isDir, listdir, cat, colCells);
            var names := Expanded(cat, Keys(UsableDirs(nameDir, isDir, listdir)));
            r.Success? ==>
              && |r.value| == |names|
              && (forall i :: 0 <= i < |names| ==>
                    r.value[i].name == names[i] && Get(nameDir, names[i]) == Some(r.value[i].path) &&
                    Hdf5Dir(isDir, listdir, r.value[i].path))
  {
    var namePath := UsableDirs(nameDir, isDir, listdir);
    var named := (set n | n in cat) - {"all"};
    forall n ensures Get(namePath, n) ==
        if Get(nameDir, n).Some? && Hdf5Dir(isDir, listdir, Get(nameDir, n).value) then Get(nameDir, n) else None {
      UsableDirsGet(nameDir, isDir, listdir, n);
    }
    if named - KeySet(namePath) != {} {
      var n :| n in named - KeySet(namePath);
      assert n in cat && n != "all";
    } else {
      forall n | n in cat && n != "all" ensures Get(nameDir, n).Some? && Hdf5Dir(isDir, listdir, Get(nameDir, n).value) {
        assert n in named;
      }
      var names := Expanded(cat, Keys(namePath));
      BuildNames(namePath, names, colCells);
      BuildNeverValueError(namePath, names, colCells, dir);
    }
  }

  lemma {:induction false} BuildNames(namePath: Dict<string, string>, names: seq<string>, colCells: (string, string) -> seq<string>)
    ensures var r := Build(namePath, names, colCells);
            r.Success? ==>
              && |r.value| == |names|
              && (forall i :: 0 <= i < |names| ==>
                    r.value[i].name == names[i] && Get(namePath, names[i]) == Some(r.value[i].path))
  {
    if names != [] {
      var init := names[..|names| - 1];
      BuildNames(namePath, init, colCells);
      var r := Build(namePath, names, colCells);
      if r.Success? {
        var prev := Build(namePath, init, colCells).value;
        var c := BuildOne(namePath, names[|names| - 1], colCells).value;
        assert r.value == prev + [c];
        forall i | 0 <= i < |names|
          ensures r.value[i].name == names[i] && Get(namePath, names[i]) == Some(r.value[i].path)
        {
          if i < |names| - 1 {
            assert r.value[i] == prev[i] && names[i] == init[i];
          }
        }
      }
    }
  }

  lemma {:induction false} BuildNeverValueError(namePath: Dict<string, string>, names: seq<string>,
                                               colCells: (string, string) -> seq<string>, dir: string)
    ensures Build(namePath, names, colCells) != Failure(ValueError(NotFoundMessage(dir)))
  {
    if names != [] {
      BuildNeverValueError(namePath, names[..|names| - 1], colCells, dir);
      assert NotFoundMessage(dir)[0] == 'c';
    }
  }

  /** A second `all` in the request survives `cat.remove('all')`; unless a
      catalog is itself called `all`, looking it up fails. */
  lemma LeftoverAll(dir: string, nameDir: Dict<string, string>, isDir: string -> bool, listdir: string -> seq<string>, cat: seq<string>,
                    colCells: (string, string) -> seq<string>)
    requires Valid(nameDir)
    requires multiset(cat)["all"] >= 2
    requires Get(nameDir, "all").None?
    ensures Catalogs(dir, nameDir, isDir, listdir, cat, colCells).Failure?
  {
    var namePath := UsableDirs(nameDir, isDir, listdir);
    UsableDirsGet(nameDir, isDir, listdir, "all");
    var names := Expanded(cat, Keys(namePath));
    assert "all" in cat;
    var rest := RemoveFirst(cat, "all");
    assert multiset(rest)["all"] >= 1;
    assert "all" in rest;
    var i :| 0 <= i < |rest| && rest[i] == "all";
    assert names[i] == "all";
    BuildMissing(namePath, names, colCells, i);
  }

  lemma {:induction false} BuildMissing(namePath: Dict<string, string>, names: seq<string>,
                                       colCells: (string, string) -> seq<string>, i: nat)
    requires i < |names| && Get(namePath, names[i]).None?
    ensures Build(namePath, names, colCells).Failure?
    decreases |names|
  {
    if i < |names| - 1 {
      BuildMissing(namePath, names[..|names| - 1], colCells, i);
    }
  }

  // ---------------------------------------------------------------------
  // The directory test as written

  /** The message of the `TypeError` `str.endswith` raises for a bytes suffix. */
  const ENDSWITH_BYTES := "endswith first arg must be str or a tuple of str, not bytes"

  /** Some catalog's path is a directory with at least one entry. */
  predicate SomeNonEmptyDir(nameDir: Dict<string, string>, isDir: string -> bool, listdir: string -> seq<string>) {
    exists i :: 0 <= i < |nameDir| && isDir(nameDir[i].1) && listdir(nameDir[i].1) != []
  }

  /** The `name_path` loop as written.  The paths are `str`, so
      `os.listdir(path)` gives `str` names, and `f.endswith(b'.hdf5')` raises
      `TypeError` on the first name of the first non-empty catalog
      directory; an empty directory makes `any` false without calling it. */
  function UsableDirsAsWritten(nameDir: Dict<string, string>, isDir: string -> bool, listdir: string -> seq<string>)
    : Result<Dict<string, string>>
  {
    if nameDir == [] then Success([])
    else
      var prev :- UsableDirsAsWritten(nameDir[..|nameDir| - 1], isDir, listdir);
      var path := nameDir[|nameDir| - 1].1;
      if isDir(path) && listdir(path) != [] then Failure(TypeError(ENDSWITH_BYTES))
      else Success(prev)
  }

  /** As written, the loop raises `TypeError` exactly when some catalog
      directory has an entry, and otherwise leaves `name_path` empty. */
  lemma {:induction false} UsableDirsAsWrittenSpec(nameDir: Dict<string, string>, isDir: string -> bool,
                                                  listdir: string -> seq<string>)
    ensures var r := UsableDirsAsWritten(nameDir, isDir, listdir);
            && (r.Failure? <==> SomeNonEmptyDir(nameDir, isDir, listdir))
            && (r.Failure? ==> r.error == TypeError(ENDSWITH_BYTES))
            && (r.Success? ==> r.value == [])
  {
    if nameDir != [] {
      var init := nameDir[..|nameDir| - 1];
      var path := nameDir[|nameDir| - 1].1;
      UsableDirsAsWrittenSpec(init, isDir, listdir);
      assert forall i :: 0 <= i < |init| ==> init[i] == nameDir[i];
      if SomeNonEmptyDir(nameDir, isDir, listdir) && !(isDir(path) && listdir(path) != []) {
        var i :| 0 <= i < |nameDir| && isDir(nameDir[i].1) && listdir(nameDir[i].1) != [];
        assert i < |init|;
      }
    }
  }

  /** `_get_catalogs` as written. */
  function CatalogsAsWritten(dir: string, nameDir: Dict<string, string>, isDir: string -> bool,
                             listdir: string -> seq<string>, cat: seq<string>,
                             colCells: (string, string) -> seq<string>): Result<seq<Catalog>>
  {
    var namePath :- UsableDirsAsWritten(nameDir, isDir, listdir);
    FromNamePath(dir, namePath, cat, colCells)
  }

  /** As written, `_get_catalogs` never loads a catalog: a catalog directory
      with any entry raises `TypeError`, and with `name_path` empty a request
      either names a missing catalog or gives no catalogs at all. */
  lemma CatalogsAsWrittenLoadsNothing(dir: string, nameDir: Dict<string, string>, isDir: string -> bool,
                                      listdir: string -> seq<string>, cat: seq<string>,
                                      colCells: (string, string) -> seq<string>)
    ensures var r := CatalogsAsWritten(dir, nameDir, isDir, listdir, cat, colCells);
            && (SomeNonEmptyDir(nameDir, isDir, listdir) ==> r == Failure(TypeError(ENDSWITH_BYTES)))
            && (r.Success? ==> r.value == [])
  {
    UsableDirsAsWrittenSpec(nameDir, isDir, listdir);
    var u := UsableDirsAsWritten(nameDir, isDir, listdir);
    if u.Success? {
      var names := Expanded(cat, Keys(u.value));
      BuildNames(u.value, names, colCells);
    }
  }

  /** A catalog directory holding one `.hdf5` file: the intended test loads
      the catalog, the test as written raises `TypeError`. */
  lemma Hdf5DirDiffers(dir: string, name: string, path: string, colCells: (string, string) -> seq<string>)
    requires name != "all"
    ensures var isDir := (p: string) => p == path;
            var listdir := (p: string) => if p == path then [name + ".hdf5"] else [];
            && Hdf5Dir(isDir, listdir, path)
            && CatalogsAsWritten(dir, [(name, path)], isDir, listdir, [name], colCells) == Failure(TypeError(ENDSWITH_BYTES))
            && Catalogs(dir, [(name, path)], isDir, listdir, [name], colCells) != Failure(ValueError(NotFoundMessage(dir)))
  {
    var isDir := (p: string) => p == path;
    var listdir := (p: string) => if p == path then [name + ".hdf5"] else [];
    EndsWithConcat(name, ".hdf5");
    assert EndsWith(listdir(path)[0], ".hdf5");
    assert SomeNonEmptyDir([(name, path)], isDir, listdir) by {
      assert isDir([(name, path)][0].1) && listdir([(name, path)][0].1) != [];
    }
    CatalogsAsWrittenLoadsNothing(dir, [(name, path)], isDir, listdir, [name], colCells);
    assert Valid([(name, path)]);
    CatalogsSpec(dir, [(name, path)], isDir, listdir, [name], colCells);
  }

  // ---------------------------------------------------------------------
  // Row-binary files and the putter's actions

  /** `tmp_dir or dir`: an absent or empty temporary directory falls back to
      the data directory. */
  function RowBinDir(dir: string, tmpDir: Option<string>): string {
    if tmpDir.Some? && tmpDir.value != "" then tmpDir.value else dir
  }

  /** `row_bin_paths`: `<row_bin_dir>/<name>.dat` per catalog, in order. */
  function RowBinPaths(rowBinDir: string, catalogs: seq<Catalog>): (r: seq<string>)
    ensures |r| == |catalogs|
  {
    seq(|catalogs|, i requires 0 <= i < |catalogs| => PathJoin(rowBinDir, catalogs[i].name + ".dat"))
  }

  lemma DatName(name: string)
    requires '/' !in name
    ensures '/' !in name + ".dat" && !StartsWith(name + ".dat", "/") && name + ".dat" != []
  {
    var f := name + ".dat";
    assert f[..1][0] == f[0];
  }

  /** Each path is the catalog's own `.dat` file. */
  lemma RowBinPathsBasename(rowBinDir: string, catalogs: seq<Catalog>)
    requires forall i :: 0 <= i < |catalogs| ==> '/' !in catalogs[i].name
    ensures forall i :: 0 <= i < |catalogs| ==>
              Basename(RowBinPaths(rowBinDir, catalogs)[i]) == catalogs[i].name + ".dat"
  {
    forall i | 0 <= i < |catalogs|
      ensures Basename(RowBinPaths(rowBinDir, catalogs)[i]) == catalogs[i].name + ".dat"
    {
      DatName(catalogs[i].name);
      BasenameOfJoin(rowBinDir, catalogs[i].name + ".dat");
    }
  }

  lemma PathJoinDatInjective(dir: string, a: string, b: string)
    requires '/' !in a && '/' !in b
    ensures PathJoin(dir, a + ".dat") == PathJoin(dir, b + ".dat") ==> a == b
  {
    if PathJoin(dir, a + ".dat") == PathJoin(dir, b + ".dat") {
      DatName(a);
      DatName(b);
      PathJoinInjective(dir, a + ".dat", b + ".dat");
      assert a == (a + ".dat")[..|a|];
      assert b == (b + ".dat")[..|b|];
    }
  }

  /** Catalogs with distinct plain names get distinct files. */
  lemma RowBinPathsDistinct(rowBinDir: string, catalogs: seq<Catalog>)
    requires forall i :: 0 <= i < |catalogs| ==> '/' !in catalogs[i].name
    requires forall i, j :: 0 <= i < j < |catalogs| ==> catalogs[i].name != catalogs[j].name
    ensures Distinct(RowBinPaths(rowBinDir, catalogs))
  {
    var paths := RowBinPaths(rowBinDir, catalogs);
    forall i, j | 0 <= i < j < |catalogs| ensures paths[i] != paths[j] {
      PathJoinDatInjective(rowBinDir, catalogs[i].name, catalogs[j].name);
    }
  }

  const DEFAULT_ACTIONS := ["gen", "create", "insert", "rm"]

  /** The class attributes of `CatsHtmPutter` that are not actions. */
  const DATA_ATTRS: Dict<string, Putter.Attr> := [("db", Putter.Value), ("default_actions", Putter.Value)]

  /** The `action_` methods of `CatsHtmPutter`, in definition order. */
  const ACTION_NAMES := ["print_columns", "create", "gen", "insert", "rm"]

  /** The body of `CatsHtmPutter` as the metaclass sees it. */
  const CATS_HTM_PUTTER := Putter.ClassBody(DATA_ATTRS + Putter.ActionAttrs(ACTION_NAMES), Some(DEFAULT_ACTIONS))

  /** Every default action has a method, so the class is created. */
  lemma CatsHtmPutterAccepted()
    ensures Putter.MetaNew(CATS_HTM_PUTTER).Success?
  {
    assert Keys(DATA_ATTRS) == ["db", "default_actions"];
    forall i | 0 <= i < |DATA_ATTRS| ensures !StartsWith(DATA_ATTRS[i].0, Putter.ACTION_PREFIX) {
      var k := DATA_ATTRS[i].0;
      assert k[0] != 'a';
      if |k| >= 7 {
        assert k[..7][0] == k[0];
      }
    }
    assert Distinct(ACTION_NAMES);
    assert forall d :: d in DEFAULT_ACTIONS ==> d in ACTION_NAMES by {
      assert DEFAULT_ACTIONS == [ACTION_NAMES[2], ACTION_NAMES[1], ACTION_NAMES[3], ACTION_NAMES[4]];
    }
    Putter.ActionBodyAccepted(DATA_ATTRS, ACTION_NAMES, DEFAULT_ACTIONS);
  }
}
