/** `download_cats/cats_htm.py`: the catsHTM fetcher of the `download_cats`
    command.  It selects catalog rows by lowercased name and, per catalog,
    downloads every file of the wget script through `download_file` with the
    manifest checksum. */
module CatsHtmFetch {
  import opened Common
  import opened PyStr
  import opened PyDict
  import opened DownloadUtils
  import CatsHtmScript

  const BASE_URL: string := "https://euler1.weizmann.ac.il/catsHTM/"
  const HTML_TABLE_NAME: string := "catsHTM_catalogs.html"

  /** A row of the published catalog table. */
  datatype TableRow = TableRow(name: string, wgetFile: string, checksumFile: string)

  /** The arguments of `download_catalog` for one row. */
  datatype CatalogArgs = CatalogArgs(name: string, dest: string, wgetUrl: string, checksumUrl: string)

  /** `get_catalog_list(dest)`: each row gains `dest/Name` and the two URLs
      joined to `BASE_URL`. */
  function CatalogList(rows: seq<TableRow>, dest: string): (args: seq<CatalogArgs>)
    ensures |args| == |rows|
    ensures forall i :: 0 <= i < |rows| ==> args[i].name == rows[i].name
  {
    seq(|rows|, i requires 0 <= i < |rows| =>
      CatalogArgs(rows[i].name, PathJoin(dest, rows[i].name),
                  UrlJoin(BASE_URL, rows[i].wgetFile), UrlJoin(BASE_URL, rows[i].checksumFile)))
  }

  /** Every catalog gets its own directory, named after it. */
  lemma CatalogListDest(rows: seq<TableRow>, dest: string, i: int, j: int)
    requires 0 <= i < |rows| && 0 <= j < |rows|
    requires forall k :: 0 <= k < |rows| ==> rows[k].name != [] && '/' !in rows[k].name
    ensures Basename(CatalogList(rows, dest)[i].dest) == rows[i].name
    ensures CatalogList(rows, dest)[i].dest == CatalogList(rows, dest)[j].dest ==> rows[i].name == rows[j].name
  {
    BasenameOfJoin(dest, rows[i].name);
    BasenameOfJoin(dest, rows[j].name);
  }

  /** The fetcher's catalog set: the `--cat` values, lowercased by the
      argument parser; naming `all` selects every catalog. */
  datatype Selection = Everything | Names(names: set<string>)

  function MakeSelection(cat: seq<string>): Selection {
    var names := set i | 0 <= i < |cat| :: Lower(cat[i]);
    if "all" in names then Everything else Names(names)
  }

  predicate Selects(sel: Selection, name: string) {
    sel.Everything? || name in sel.names
  }

  /** `(x for x in rows if x.Name.lower() in self.catalogs)` */
  function SelectRows(rows: seq<CatalogArgs>, sel: Selection): (r: seq<CatalogArgs>)
    ensures |r| <= |rows|
    ensures forall x :: x in r <==> x in rows && Selects(sel, Lower(x.name))
  {
    if rows == [] then []
    else
      var rest := SelectRows(rows[1..], sel);
      assert forall x :: x in rows <==> x == rows[0] || x in rows[1..];
      if Selects(sel, Lower(rows[0].name)) then [rows[0]] + rest else rest
  }

  /** The filter keeps the rows in their order and as often as they occur:
      it is taken piece by piece, a selected row giving itself and any other
      nothing. */
  lemma {:induction false} SelectRowsAppend(a: seq<CatalogArgs>, b: seq<CatalogArgs>, sel: Selection)
    ensures SelectRows(a + b, sel) == SelectRows(a, sel) + SelectRows(b, sel)
  {
    if a != [] {
      var h := if Selects(sel, Lower(a[0].name)) then [a[0]] else [];
      ConsAppend(a, b);
      SelectRowsHead(a + b, sel);
      SelectRowsAppend(a[1..], b, sel);
      SelectRowsHead(a, sel);
      AppendAssoc(h, SelectRows(a[1..], sel), SelectRows(b, sel));
    } else {
      assert a + b == b;
    }
  }

  /** One step of the filter: the first row, if selected, then the rest. */
  lemma SelectRowsHead(rows: seq<CatalogArgs>, sel: Selection)
    requires rows != []
    ensures SelectRows(rows, sel) == (if Selects(sel, Lower(rows[0].name)) then [rows[0]] else []) + SelectRows(rows[1..], sel)
  {
  }

  /** A selected row is kept as many times as it occurs, any other never. */
  lemma {:induction false} SelectRowsCount(rows: seq<CatalogArgs>, sel: Selection, x: CatalogArgs)
    ensures multiset(SelectRows(rows, sel))[x] == if Selects(sel, Lower(x.name)) then multiset(rows)[x] else 0
  {
    if rows != [] {
      SelectRowsCount(rows[1..], sel, x);
      SelectRowsHead(rows, sel);
      assert rows == [rows[0]] + rows[1..];
      assert multiset(rows) == multiset{rows[0]} + multiset(rows[1..]);
    }
  }

  lemma SelectRowsOne(x: CatalogArgs, sel: Selection)
    ensures SelectRows([x], sel) == if Selects(sel, Lower(x.name)) then [x] else []
  {
    assert [x][1..] == [];
  }

  /** A row is fetched iff its name, lowercased, equals some requested
      name lowercased, or `all` (in any case) was requested. */
  lemma SelectRowsSpec(rows: seq<CatalogArgs>, cat: seq<string>, x: CatalogArgs)
    ensures x in SelectRows(rows, MakeSelection(cat)) <==>
      x in rows &&
      ((exists i :: 0 <= i < |cat| && Lower(cat[i]) == "all") ||
       (exists i :: 0 <= i < |cat| && Lower(cat[i]) == Lower(x.name)))
  {
    var names := set i | 0 <= i < |cat| :: Lower(cat[i]);
    assert "all" in names <==> exists i :: 0 <= i < |cat| && Lower(cat[i]) == "all";
    assert Lower(x.name) in names <==> exists i :: 0 <= i < |cat| && Lower(cat[i]) == Lower(x.name);
  }

  /** The download calls of `download_catalog`, one per filename of the
      URL map, in its order. */
  function FileJobs(dest: string, urls: Dict<string, string>, checksums: Dict<string, string>): (jobs: seq<Job>)
    ensures |jobs| == |urls|
  {
    seq(|urls|, i requires 0 <= i < |urls| =>
      Job(urls[i].1, PathJoin(dest, urls[i].0), Get(checksums, urls[i].0)))
  }

  /** Jobs in order; an exception ends the loop. */
  function RunUntilError(files: map<string, Bytes>, jobs: seq<Job>, fetch: string -> Response, hex: Md5Hex)
    : (r: (Result<()>, map<string, Bytes>))
  {
    if jobs == [] then (Success(()), files)
    else
      var (res, files1) := RunUntilError(files, jobs[..|jobs| - 1], fetch, hex);
      if res.Failure? then (res, files1)
      else
        var job := jobs[|jobs| - 1];
        var (out, files2) := SyncFile(files1, job, fetch(job.url), hex);
        if out.Failure? then (Failure(out.error), files2) else (Success(()), files2)
  }

  /** A loop that ran to the end did what the pool of `download_file` calls
      does, with every call succeeding. */
  lemma {:induction false} RunUntilErrorComplete(files: map<string, Bytes>, jobs: seq<Job>, fetch: string -> Response, hex: Md5Hex)
    requires RunUntilError(files, jobs, fetch, hex).0.Success?
    ensures RunUntilError(files, jobs, fetch, hex).1 == SyncRun(files, jobs, fetch, hex).1
    ensures forall i :: 0 <= i < |jobs| ==> SyncRun(files, jobs, fetch, hex).0[i].Success?
  {
    if jobs != [] {
      var init := jobs[..|jobs| - 1];
      RunUntilErrorComplete(files, init, fetch, hex);
      var outs := SyncRun(files, init, fetch, hex).0;
      var all := SyncRun(files, jobs, fetch, hex).0;
      assert forall i :: 0 <= i < |init| ==> all[i] == outs[i];
    }
  }

  /** What `download_catalog(name, dest, wget_url, checksum_url)` does,
      given the texts of the wget script and of the manifest. */
  function CatalogSpec(files: map<string, Bytes>, dest: string, script: string, manifest: string,
                       fetch: string -> Response, hex: Md5Hex): (r: (Result<()>, map<string, Bytes>))
  {
    match CatsHtmScript.WgetUrls(script)
    case Failure(e) => (Failure(e), files)
    case Success(urls) =>
      match ChecksumManifest(manifest)
      case Failure(e) => (Failure(e), files)
      case Success(checksums) =>
        if KeySet(urls) != KeySet(checksums) then (Failure(AssertionError("")), files)
        else RunUntilError(files, FileJobs(dest, urls, checksums), fetch, hex)
  }

  /** `download_catalog`, with each file downloaded by `download_file` under
      its manifest checksum. */
  method DownloadCatalog(files: Files, dest: string, script: string, manifest: string,
                         fetch: string -> Response, hex: Md5Hex) returns (r: Result<()>)
    modifies files
    ensures (r, files.contents) == CatalogSpec(old(files.contents), dest, script, manifest, fetch, hex)
  {
    var urls :- CatsHtmScript.WgetUrls(script);
    var checksums :- ParseChecksums(manifest);
    if KeySet(urls) != KeySet(checksums) {
      return Failure(AssertionError(""));
    }
    r := RunJobs(files, FileJobs(dest, urls, checksums), fetch, hex);
  }

  /** The download loop of `download_catalog`: one `download_file` per job,
      stopping at the first error. */
  method RunJobs(files: Files, jobs: seq<Job>, fetch: string -> Response, hex: Md5Hex) returns (r: Result<()>)
    modifies files
    ensures (r, files.contents) == RunUntilError(old(files.contents), jobs, fetch, hex)
  {
    var i := 0;
    r := Success(());
    while i < |jobs|
      invariant 0 <= i <= |jobs|
      invariant (r, files.contents) == RunUntilError(old(files.contents), jobs[..i], fetch, hex)
      invariant r.Success?
    {
      assert jobs[..i + 1][..i] == jobs[..i];
      var out := DownloadFile(files, jobs[i], fetch, hex);
      if out.Failure? {
        r := Failure(out.error);
        RunUntilErrorStops(old(files.contents), jobs, fetch, hex, i + 1);
        return;
      }
      i := i + 1;
    }
    assert jobs[..i] == jobs;
  }

  lemma {:induction false} RunUntilErrorStops(files: map<string, Bytes>, jobs: seq<Job>, fetch: string -> Response, hex: Md5Hex, j: nat)
    requires j <= |jobs| && RunUntilError(files, jobs[..j], fetch, hex).0.Failure?
    ensures RunUntilError(files, jobs, fetch, hex) == RunUntilError(files, jobs[..j], fetch, hex)
    decreases |jobs| - j
  {
    if j < |jobs| {
      assert jobs[..j + 1][..j] == jobs[..j];
      RunUntilErrorStops(files, jobs, fetch, hex, j + 1);
    } else {
      assert jobs[..j] == jobs;
    }
  }

  lemma FileJobsDistinct(dest: string, urls: Dict<string, string>, checksums: Dict<string, string>)
    requires PyDict.Valid(urls) && forall k :: k in KeySet(urls) ==> '/' !in k
    requires KeySet(urls) == KeySet(checksums)
    ensures AllChecked(FileJobs(dest, urls, checksums))
    ensures Distinct(Paths(FileJobs(dest, urls, checksums)))
  {
    var jobs := FileJobs(dest, urls, checksums);
    forall i | 0 <= i < |urls| ensures jobs[i].checksum.Some? {
      assert urls[i].0 in KeySet(urls);
    }
    forall a, b | 0 <= a < b < |jobs| ensures Paths(jobs)[a] != Paths(jobs)[b] {
      assert urls[a].0 in KeySet(urls) && urls[b].0 in KeySet(urls);
      assert Keys(urls)[a] != Keys(urls)[b];
      assert !StartsWith(urls[a].0, "/") && !StartsWith(urls[b].0, "/") by {
        if urls[a].0 != [] { assert urls[a].0[0] != '/'; }
        if urls[b].0 != [] { assert urls[b].0[0] != '/'; }
      }
      if Paths(jobs)[a] == Paths(jobs)[b] {
        PathJoinInjective(dest, urls[a].0, urls[b].0);
      }
    }
  }

  lemma {:induction false} FileJobsVerified(files: map<string, Bytes>, dest: string, urls: Dict<string, string>,
                                            checksums: Dict<string, string>, fetch: string -> Response, hex: Md5Hex)
    requires PyDict.Valid(urls) && forall k :: k in KeySet(urls) ==> '/' !in k
    requires KeySet(urls) == KeySet(checksums)
    requires RunUntilError(files, FileJobs(dest, urls, checksums), fetch, hex).0.Success?
    ensures var files' := RunUntilError(files, FileJobs(dest, urls, checksums), fetch, hex).1;
      (forall i :: 0 <= i < |urls| ==>
        var path := PathJoin(dest, urls[i].0);
        path in files' && Get(checksums, urls[i].0) == Some(hex(files'[path]))) &&
      SyncRun(files', FileJobs(dest, urls, checksums), fetch, hex).1 == files'
  {
    var jobs := FileJobs(dest, urls, checksums);
    FileJobsDistinct(dest, urls, checksums);
    RunUntilErrorComplete(files, jobs, fetch, hex);
    SyncRunVerified(files, jobs, fetch, hex);
    var files' := SyncRun(files, jobs, fetch, hex).1;
    forall i | 0 <= i < |urls|
      ensures PathJoin(dest, urls[i].0) in files' && Get(checksums, urls[i].0) == Some(hex(files'[PathJoin(dest, urls[i].0)]))
    {
      assert jobs[i].path == PathJoin(dest, urls[i].0);
    }
    SyncRunSkipsVerified(files', jobs, fetch, hex);
  }

  /** A catalog downloaded without error is a verified mirror: each file
      of the wget script sits at `dest/filename` with the digest the manifest
      gives, and fetching the catalog again downloads nothing. */
  lemma CatalogVerified(files: map<string, Bytes>, dest: string, script: string, manifest: string,
                        fetch: string -> Response, hex: Md5Hex)
    requires CatalogSpec(files, dest, script, manifest, fetch, hex).0.Success?
    ensures var urls := CatsHtmScript.WgetUrls(script).value;
      var checksums := ChecksumManifest(manifest).value;
      var files' := CatalogSpec(files, dest, script, manifest, fetch, hex).1;
      (forall i :: 0 <= i < |urls| ==>
        var path := PathJoin(dest, urls[i].0);
        path in files' && Get(checksums, urls[i].0) == Some(hex(files'[path]))) &&
      SyncRun(files', FileJobs(dest, urls, checksums), fetch, hex).1 == files'
  {
    CatsHtmScript.WgetUrlsSpec(script);
    FileJobsVerified(files, dest, CatsHtmScript.WgetUrls(script).value, ChecksumManifest(manifest).value, fetch, hex);
  }

  /** `download_catalog` as written passes `retries=3`, a keyword
      `download_file` does not accept: the first download call raises
      TypeError before anything is fetched or written. */
  function CatalogAsWritten(files: map<string, Bytes>, dest: string, script: string, manifest: string)
    : (r: (Result<()>, map<string, Bytes>))
  {
    match CatsHtmScript.WgetUrls(script)
    case Failure(e) => (Failure(e), files)
    case Success(urls) =>
      match ChecksumManifest(manifest)
      case Failure(e) => (Failure(e), files)
      case Success(checksums) =>
        if KeySet(urls) != KeySet(checksums) then (Failure(AssertionError("")), files)
        else if urls == [] then (Success(()), files)
        else (Failure(TypeError("download_file() got an unexpected keyword argument 'retries'")), files)
  }

  /** As written, no catalog file is ever downloaded, and a consistent
      non-empty catalog always fails. */
  lemma CatalogAsWrittenFails(files: map<string, Bytes>, dest: string, script: string, manifest: string)
    ensures CatalogAsWritten(files, dest, script, manifest).1 == files
    ensures (CatsHtmScript.WgetUrls(script).Success? && ChecksumManifest(manifest).Success? &&
             KeySet(CatsHtmScript.WgetUrls(script).value) == KeySet(ChecksumManifest(manifest).value) &&
             CatsHtmScript.WgetUrls(script).value != []) ==>
      CatalogAsWritten(files, dest, script, manifest).0.Failure? &&
      CatalogAsWritten(files, dest, script, manifest).0.error.TypeError?
  {
  }
}
