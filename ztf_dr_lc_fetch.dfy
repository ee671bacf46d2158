/** `download_cats/ztf_dr_lc.py`: every file of a ZTF light-curve data
    release, as listed in its MD5 manifest. */
module ZtfDrLcFetch {
  import opened Common
  import opened PyStr
  import opened PyDict
  import opened DownloadUtils

  const CURRENT_DR: int := 4

  function BaseUrl(dr: int): string {
    "https://irsa.ipac.caltech.edu/data/ZTF/lc_dr" + IntToString(dr) + "/"
  }

  function ChecksumsUrl(dr: int): string {
    UrlJoin(BaseUrl(dr), "checksums.md5")
  }

  /** The jobs of `__call__`: no entry is filtered out. */
  function Jobs(dr: int, dest: string, checksums: Dict<string, string>): seq<Job> {
    ManifestJobs(BaseUrl(dr), dest, checksums, _ => true)
  }

  /** One job `(base + fname, dest/fname, checksum)` per manifest entry, in
      manifest order, with distinct paths. */
  lemma JobsSpec(dr: int, dest: string, checksums: Dict<string, string>)
    requires PyDict.Valid(checksums)
    requires forall i :: 0 <= i < |checksums| ==> !StartsWith(checksums[i].0, "/")
    ensures var jobs := Jobs(dr, dest, checksums);
      |jobs| == |checksums| &&
      (forall i :: 0 <= i < |checksums| ==>
        jobs[i] == Job(BaseUrl(dr) + checksums[i].0, PathJoin(dest, checksums[i].0), Some(checksums[i].1))) &&
      Distinct(Paths(jobs))
  {
    ManifestJobsKeepAll(BaseUrl(dr), dest, checksums, _ => true);
    ManifestJobsDistinctPaths(BaseUrl(dr), dest, checksums, _ => true);
  }

  /** `__call__`, given the text of the manifest. */
  method Fetch(files: Files, dr: int, dest: string, manifest: string, fetch: string -> Response, hex: Md5Hex)
    returns (r: Result<seq<bool>>)
    modifies files
    ensures ChecksumManifest(manifest).Failure? ==>
      r == Failure(ChecksumManifest(manifest).error) && files.contents == old(files.contents)
    ensures ChecksumManifest(manifest).Success? ==>
      var run := SyncRun(old(files.contents), Jobs(dr, dest, ChecksumManifest(manifest).value), fetch, hex);
      r == PoolResult(run.0) && files.contents == run.1
  {
    var checksums :- ParseChecksums(manifest);
    r := SyncAll(files, Jobs(dr, dest, checksums), fetch, hex);
  }
}
