/** `download_cats/gaia_dr.py`: Gaia source files listed in the release's
    MD5 manifest, restricted to `.csv.gz` files. */
module GaiaDrFetch {
  import opened Common
  import opened PyStr
  import opened PyDict
  import opened DownloadUtils

  const CURRENT_DR: string := "dr3"

  /** `--dr`, lowercased by the argument parser. */
  function ParseDr(arg: string): string {
    Lower(arg)
  }

  function BaseUrl(dr: string): string {
    "http://cdn.gea.esac.esa.int/Gaia/g" + dr + "/gaia_source/"
  }

  function ChecksumsUrl(dr: string): string {
    UrlJoin(BaseUrl(dr), "_MD5SUM.txt")
  }

  predicate IsCsvGz(fname: string) {
    EndsWith(fname, ".csv.gz")
  }

  /** The jobs of `__call__`. */
  function Jobs(dr: string, dest: string, checksums: Dict<string, string>): seq<Job> {
    ManifestJobs(BaseUrl(dr), dest, checksums, IsCsvGz)
  }

  /** The release names its directory `g<dr>` with `dr` lowercased, and the
      manifest sits in that directory. */
  lemma UrlsSpec(arg: string)
    ensures BaseUrl(ParseDr(arg)) == "http://cdn.gea.esac.esa.int/Gaia/g" + Lower(arg) + "/gaia_source/"
    ensures ChecksumsUrl(ParseDr(arg)) == BaseUrl(Lower(arg)) + "_MD5SUM.txt"
  {
  }

  /** Exactly the `.csv.gz` entries become jobs
      `(base + fname, dest/fname, checksum)`, with distinct paths. */
  lemma JobsSpec(dr: string, dest: string, checksums: Dict<string, string>)
    requires PyDict.Valid(checksums)
    requires forall i :: 0 <= i < |checksums| ==> !StartsWith(checksums[i].0, "/")
    ensures forall j :: j in Jobs(dr, dest, checksums) <==>
      exists i :: 0 <= i < |checksums| && EndsWith(checksums[i].0, ".csv.gz") &&
        j == Job(BaseUrl(dr) + checksums[i].0, PathJoin(dest, checksums[i].0), Some(checksums[i].1))
    ensures Distinct(Paths(Jobs(dr, dest, checksums)))
  {
    ManifestJobsDistinctPaths(BaseUrl(dr), dest, checksums, IsCsvGz);
  }

  /** `__call__`, given the text of the manifest. */
  method Fetch(files: Files, dr: string, dest: string, manifest: string, fetch: string -> Response, hex: Md5Hex)
    returns (r: Result<seq<bool>>)
    modifies files
    ensures ChecksumManifest(manifest).Failure? ==>
      r == Failure(ChecksumManifest(manifest).error) && files.contents == old(files.contents)
    ensures ChecksumManifest(manifest).Success? ==>
      var run := SyncRun(old(files.contents), Jobs(dr, dest, ChecksumManifest(manifest).value), fetch, hex);
      r == PoolResult(run.0) && files.contents == run.1
  {
    var checksums :- ParseChecksums(manifest);
    r := SyncAll(files, Jobs(dr, dest, checksums), fetch, hex);
  }
}
