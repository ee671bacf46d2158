/** `download_cats/des.py`: the DES main-table tiles linked from the
    release's tile index page.  The index is given as its `<td>` cells, each
    with its first `<a>` element if it has one. */
module DesFetch {
  import opened Common
  import opened PyStr
  import opened DownloadUtils

  const CURRENT_DR: int := 2

  function BaseUrl(dr: int): string {
    "https://desdr-server.ncsa.illinois.edu/despublic/dr" + IntToString(dr) + "_tiles/"
  }

  /** A tile directory: the last path component of the href (`Path(href).name`)
      starting with `DES`. */
  predicate IsTile(name: string) {
    StartsWith(name, "DES")
  }

  /** The file of a tile; the release in the name is always `dr2`. */
  function TileFilename(name: string): string {
    Unquote(name) + "_dr2_main.fits"
  }

  /** The URL of a tile's file: the tile name is used as it appears in the
      href, only the filename is unquoted. */
  function TileUrl(base: string, name: string): string {
    UrlJoin(base, name + "/" + TileFilename(name))
  }

  /** The tile names found in the index page, in document order. */
  function TileNames(cells: seq<Option<Anchor>>): Result<seq<string>> {
    ScanHrefs(cells, PathName, IsTile)
  }

  /** `_get_urls_filenames`: parallel lists of URLs and filenames. */
  method GetUrlsFilenames(base: string, cells: seq<Option<Anchor>>) returns (r: Result<(seq<string>, seq<string>)>)
    ensures TileNames(cells).Failure? ==> r == Failure(KeyError("href"))
    ensures TileNames(cells).Success? ==>
      var names := TileNames(cells).value;
      r.Success? && |r.value.0| == |names| && |r.value.1| == |names| &&
      forall i :: 0 <= i < |names| ==>
        r.value.0[i] == TileUrl(base, names[i]) && r.value.1[i] == TileFilename(names[i])
  {
    var urls: seq<string> := [];
    var filenames: seq<string> := [];
    ghost var names: seq<string> := [];
    for i := 0 to |cells|
      invariant TileNames(cells[..i]) == Success(names)
      invariant |urls| == |names| && |filenames| == |names|
      invariant forall k :: 0 <= k < |names| ==>
        urls[k] == TileUrl(base, names[k]) && filenames[k] == TileFilename(names[k])
    {
      assert cells[..i + 1][..i] == cells[..i];
      if cells[i].Some? {
        var a := cells[i].value;
        if a.href.None? {
          ScanHrefsPrefixFailure(cells, PathName, IsTile, i + 1);
          return Failure(KeyError("href"));
        }
        var name := PathName(a.href.value);
        if IsTile(name) {
          var filename := TileFilename(name);
          urls := urls + [TileUrl(base, name)];
          filenames := filenames + [filename];
          names := names + [name];
        }
      }
    }
    assert cells[..|cells|] == cells;
    return Success((urls, filenames));
  }

  const FILE_SUFFIX := "_dr2_main.fits"

  /** The filename of a plain tile name has no `/`. */
  lemma FilenameNoSlash(name: string)
    requires '/' !in name
    ensures '/' !in name + FILE_SUFFIX
  {
    assert forall i :: 0 <= i < |FILE_SUFFIX| ==> FILE_SUFFIX[i] != '/';
    forall i | 0 <= i < |name + FILE_SUFFIX| ensures (name + FILE_SUFFIX)[i] != '/' {
      if i >= |name| {
        assert (name + FILE_SUFFIX)[i] == FILE_SUFFIX[i - |name|];
      } else {
        assert (name + FILE_SUFFIX)[i] == name[i];
      }
    }
  }

  /** The URL of a plain tile name ends in `/` and the tile's filename. */
  lemma TileUrlBasename(base: string, name: string)
    requires '%' !in name && '/' !in name
    ensures Basename(TileUrl(base, name)) == TileFilename(name)
  {
    UnquotePlain(name);
    FilenameNoSlash(name);
    var f := TileFilename(name);
    var pre := base + name + "/";
    assert pre[|pre| - 1] == '/';
    assert TileUrl(base, name) == pre + f;
    BasenameAfterSlash(pre, f);
  }

  /** Filenames end in `_dr2_main.fits` whatever the release, and for a
      plain tile name the URL ends in `name/filename`. */
  lemma TileFileSpec(base: string, name: string)
    requires '%' !in name && '/' !in name
    ensures EndsWith(TileFilename(name), "_dr2_main.fits")
    ensures TileFilename(name) == name + "_dr2_main.fits"
    ensures Basename(TileUrl(base, name)) == TileFilename(name)
  {
    UnquotePlain(name);
    EndsWithConcat(name, FILE_SUFFIX);
    TileUrlBasename(base, name);
  }

  /** The jobs of `__call__`: each tile's URL with `dest/filename`,
      without a checksum. */
  function TileJobs(base: string, dest: string, names: seq<string>): (jobs: seq<Job>)
    ensures |jobs| == |names|
    ensures forall i :: 0 <= i < |jobs| ==> jobs[i].checksum.None?
  {
    seq(|names|, i requires 0 <= i < |names| => Job(TileUrl(base, names[i]), PathJoin(dest, TileFilename(names[i])), None))
  }

  /** `__call__`: an index page without tiles fails the assertion before any
      download. */
  method Fetch(files: Files, dr: int, dest: string, cells: seq<Option<Anchor>>,
               fetch: string -> Response, hex: Md5Hex) returns (r: Result<seq<bool>>)
    modifies files
    ensures TileNames(cells).Failure? ==> r == Failure(KeyError("href")) && files.contents == old(files.contents)
    ensures TileNames(cells) == Success([]) ==> r == Failure(AssertionError("")) && files.contents == old(files.contents)
    ensures TileNames(cells).Success? && TileNames(cells).value != [] ==>
      var run := SyncRun(old(files.contents), TileJobs(BaseUrl(dr), dest, TileNames(cells).value), fetch, hex);
      r == PoolResult(run.0) && files.contents == run.1
  {
    var lists :- GetUrlsFilenames(BaseUrl(dr), cells);
    var (urls, filenames) := lists;
    if |urls| == 0 {
      return Failure(AssertionError(""));
    }
    var paths := seq(|filenames|, i requires 0 <= i < |filenames| => PathJoin(dest, filenames[i]));
    var jobs := seq(|urls|, i requires 0 <= i < |urls| => Job(urls[i], paths[i], None));
    assert jobs == TileJobs(BaseUrl(dr), dest, TileNames(cells).value);
    r := SyncAll(files, jobs, fetch, hex);
  }
}
