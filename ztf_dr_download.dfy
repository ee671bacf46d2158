/** `download_ztf_dr.py`: the stand-alone mirror of the ZTF DR3 light
    curves.  Unlike `download_file`, its `download` asks the server before
    opening the file and checks the digest with an assertion. */
module ZtfDrDownload {
  import opened Common
  import opened PyStr
  import opened PyDict
  import opened DownloadUtils

  const DATA_ROOT: string := "."
  const BASE_URL: string := "https://irsa.ipac.caltech.edu/data/ZTF/lc_dr3/"
  const CHECKSUMS_URL: string := UrlJoin(BASE_URL, "checksums.md5")

  /** What `download(url, path, checksum)` does to the filesystem and whether
      it raises. */
  function DownloadSpec(files: map<string, Bytes>, url: string, path: string, checksum: string,
                        resp: Response, hex: Md5Hex): (r: (Result<()>, map<string, Bytes>))
    ensures path in files && checksum == hex(files[path]) ==> r == (Success(()), files)
    ensures IsHttpError(resp.status) && !(path in files && checksum == hex(files[path])) ==>
      r == (Failure(HTTPError(resp.status)), files)
    ensures r.1 != files ==> r.1 == files[path := Flatten(resp.chunks)]
    ensures r.0.Success? <==> path in r.1 && checksum == hex(r.1[path])
  {
    if path in files && checksum == hex(files[path]) then (Success(()), files)
    else if IsHttpError(resp.status) then (Failure(HTTPError(resp.status)), files)
    else
      var data := Flatten(resp.chunks);
      (if checksum == hex(data) then Success(()) else Failure(AssertionError("checksum is wrong")),
       files[path := data])
  }

  /** `download(url, path, checksum)` */
  method Download(files: Files, url: string, path: string, checksum: string,
                  fetch: string -> Response, hex: Md5Hex) returns (r: Result<()>)
    modifies files
    ensures (r, files.contents) == DownloadSpec(old(files.contents), url, path, checksum, fetch(url), hex)
  {
    var h := HashFile(files, path, DEFAULT_READ_CHUNK, hex);
    if Some(checksum) == h {
      return Success(());
    }
    var resp := fetch(url);
    if IsHttpError(resp.status) {
      return Failure(HTTPError(resp.status));
    }
    files.Create(path);
    var m := new Md5Context();
    var i := 0;
    while i < |resp.chunks|
      invariant 0 <= i <= |resp.chunks|
      invariant files.contents == old(files.contents)[path := Flatten(resp.chunks[..i])]
      invariant m.absorbed == Flatten(resp.chunks[..i])
    {
      files.Append(path, resp.chunks[i]);
      m.Update(resp.chunks[i]);
      assert resp.chunks[..i + 1] == resp.chunks[..i] + [resp.chunks[i]];
      FlattenSnoc(resp.chunks[..i], resp.chunks[i]);
      i := i + 1;
    }
    assert resp.chunks[..i] == resp.chunks;
    if checksum != m.HexDigest(hex) {
      return Failure(AssertionError("checksum is wrong"));
    }
    return Success(());
  }

  /** A second `download` of a file the first one completed does nothing. */
  lemma DownloadIdempotent(files: map<string, Bytes>, url: string, path: string, checksum: string,
                           resp: Response, resp2: Response, hex: Md5Hex)
    requires DownloadSpec(files, url, path, checksum, resp, hex).0.Success?
    ensures var files' := DownloadSpec(files, url, path, checksum, resp, hex).1;
      DownloadSpec(files', url, path, checksum, resp2, hex) == (Success(()), files')
  {
  }

  /** The jobs of `main`: one per manifest entry,
      `(urljoin(BASE_URL, f), os.path.join(DATA_ROOT, f), checksum)`. */
  function MainJobs(manifest: Dict<string, string>): seq<Job> {
    ManifestJobs(BASE_URL, DATA_ROOT, manifest, _ => true)
  }

  lemma MainJobsSpec(manifest: Dict<string, string>)
    requires PyDict.Valid(manifest)
    requires forall i :: 0 <= i < |manifest| ==> !StartsWith(manifest[i].0, "/")
    ensures var jobs := MainJobs(manifest);
      |jobs| == |manifest| &&
      (forall i :: 0 <= i < |manifest| ==>
        jobs[i] == Job(BASE_URL + manifest[i].0, PathJoin(".", manifest[i].0), Some(manifest[i].1))) &&
      Distinct(Paths(jobs))
  {
    ManifestJobsKeepAll(BASE_URL, DATA_ROOT, manifest, _ => true);
    ManifestJobsDistinctPaths(BASE_URL, DATA_ROOT, manifest, _ => true);
  }

  /** The pool running `download` over the jobs one after another. */
  function DownloadRun(files: map<string, Bytes>, jobs: seq<Job>, fetch: string -> Response, hex: Md5Hex)
    : (r: (seq<Result<()>>, map<string, Bytes>))
    requires forall i :: 0 <= i < |jobs| ==> jobs[i].checksum.Some?
    ensures |r.0| == |jobs|
  {
    if jobs == [] then ([], files)
    else
      var (outs, files1) := DownloadRun(files, jobs[..|jobs| - 1], fetch, hex);
      var job := jobs[|jobs| - 1];
      var (out, files2) := DownloadSpec(files1, job.url, job.path, job.checksum.value, fetch(job.url), hex);
      (outs + [out], files2)
  }

  function FirstError(outs: seq<Result<()>>): (r: Option<Error>)
    ensures r.None? <==> forall i :: 0 <= i < |outs| ==> outs[i].Success?
    ensures r.Some? ==> exists i :: 0 <= i < |outs| && outs[i] == Failure(r.value)
  {
    if outs == [] then None
    else if outs[0].Failure? then Some(outs[0].error)
    else
      assert forall i :: 1 <= i < |outs| ==> outs[i] == outs[1..][i - 1];
      var e := FirstError(outs[1..]);
      if e.Some? then
        var i :| 0 <= i < |outs| - 1 && outs[1..][i] == Failure(e.value);
        assert outs[i + 1] == Failure(e.value);
        e
      else e
  }

  /** `pool.starmap(download, jobs)`, one job after another; the first
      error is raised once every job was attempted. */
  method RunDownloads(files: Files, jobs: seq<Job>, fetch: string -> Response, hex: Md5Hex)
    returns (r: Result<()>)
    requires forall i :: 0 <= i < |jobs| ==> jobs[i].checksum.Some?
    modifies files
    ensures var run := DownloadRun(old(files.contents), jobs, fetch, hex);
      files.contents == run.1 &&
      r == match FirstError(run.0) case None => Success(()) case Some(e) => Failure(e)
  {
    var outs: seq<Result<()>> := [];
    var i := 0;
    while i < |jobs|
      invariant 0 <= i <= |jobs|
      invariant (outs, files.contents) == DownloadRun(old(files.contents), jobs[..i], fetch, hex)
    {
      assert jobs[..i + 1][..i] == jobs[..i];
      var out := Download(files, jobs[i].url, jobs[i].path, jobs[i].checksum.value, fetch, hex);
      outs := outs + [out];
      i := i + 1;
    }
    assert jobs[..i] == jobs;
    var e := FirstError(outs);
    r := if e.Some? then Failure(e.value) else Success(());
  }

  /** `main`: parses the manifest, then maps `download` over its jobs. */
  method Mirror(files: Files, manifestText: string, fetch: string -> Response, hex: Md5Hex)
    returns (r: Result<()>)
    modifies files
    ensures ChecksumManifest(manifestText).Failure? ==>
      r == Failure(ChecksumManifest(manifestText).error) && files.contents == old(files.contents)
    ensures ChecksumManifest(manifestText).Success? ==>
      var run := DownloadRun(old(files.contents), MainJobs(ChecksumManifest(manifestText).value), fetch, hex);
      files.contents == run.1 &&
      r == match FirstError(run.0) case None => Success(()) case Some(e) => Failure(e)
  {
    var checksums :- ParseChecksums(manifestText);
    r := RunDownloads(files, MainJobs(checksums), fetch, hex);
  }
}
