/** `download_cats/ps1_strm.py`: the `.csv.gz` files of the PS1-STRM
    catalog listed in its MD5 manifest. */
module Ps1StrmFetch {
  import opened Common
  import opened PyStr
  import opened PyDict
  import opened DownloadUtils

  const BASE_URL: string := "https://archive.stsci.edu/hlsps/ps1-strm/"
  const CHECKSUMS_URL: string := UrlJoin(BASE_URL, "hlsp_ps1-strm_ps1_gpc1_all_multi_v1_md5sum.txt")

  predicate IsCsvGz(fname: string) {
    EndsWith(fname, ".csv.gz")
  }

  /** The jobs of `__call__`. */
  function Jobs(dest: string, checksums: Dict<string, string>): seq<Job> {
    ManifestJobs(BASE_URL, dest, checksums, IsCsvGz)
  }

  /** Exactly the `.csv.gz` entries become jobs
      `(base + fname, dest/fname, checksum)`, one each, with distinct
      paths. */
  lemma JobsSpec(dest: string, checksums: Dict<string, string>)
    requires PyDict.Valid(checksums)
    requires forall i :: 0 <= i < |checksums| ==> !StartsWith(checksums[i].0, "/")
    ensures forall j :: j in Jobs(dest, checksums) <==>
      exists i :: 0 <= i < |checksums| && EndsWith(checksums[i].0, ".csv.gz") &&
        j == Job(BASE_URL + checksums[i].0, PathJoin(dest, checksums[i].0), Some(checksums[i].1))
    ensures Distinct(Paths(Jobs(dest, checksums)))
  {
    ManifestJobsDistinctPaths(BASE_URL, dest, checksums, IsCsvGz);
  }

  /** `__call__`, given the text of the manifest. */
  method Fetch(files: Files, dest: string, manifest: string, fetch: string -> Response, hex: Md5Hex)
    returns (r: Result<seq<bool>>)
    modifies files
    ensures ChecksumManifest(manifest).Failure? ==>
      r == Failure(ChecksumManifest(manifest).error) && files.contents == old(files.contents)
    ensures ChecksumManifest(manifest).Success? ==>
      var run := SyncRun(old(files.contents), Jobs(dest, ChecksumManifest(manifest).value), fetch, hex);
      r == PoolResult(run.0) && files.contents == run.1
  {
    var checksums :- ParseChecksums(manifest);
    r := SyncAll(files, Jobs(dest, checksums), fetch, hex);
  }
}
