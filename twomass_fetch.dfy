/** `download_cats/twomass.py`: the gzip files linked from the 2MASS
    all-sky download page. */
module TwomassFetch {
  import opened Common
  import opened PyStr
  import opened DownloadUtils

  const BASE_URL: string := "https://irsa.ipac.caltech.edu/2MASS/download/allsky/"

  predicate IsGz(href: string) {
    EndsWith(href, ".gz")
  }

  function Identity(href: string): string {
    href
  }

  /** The kept hrefs, in document order. */
  function GzHrefs(anchors: seq<Anchor>): Result<seq<string>> {
    ScanHrefs(seq(|anchors|, i requires 0 <= i < |anchors| => Some(anchors[i])), Identity, IsGz)
  }

  /** `_get_filenames` */
  method GetFilenames(anchors: seq<Anchor>) returns (r: Result<seq<string>>)
    ensures r == GzHrefs(anchors)
    ensures r.Success? ==> forall i :: 0 <= i < |r.value| ==> EndsWith(r.value[i], ".gz")
  {
    var elems := seq(|anchors|, i requires 0 <= i < |anchors| => Some(anchors[i]));
    var filenames: seq<string> := [];
    for i := 0 to |anchors|
      invariant ScanHrefs(elems[..i], Identity, IsGz) == Success(filenames)
    {
      assert elems[..i + 1][..i] == elems[..i];
      assert elems[i] == Some(anchors[i]);
      var href := anchors[i].href;
      if href.None? {
        ScanHrefsPrefixFailure(elems, Identity, IsGz, i + 1);
        return Failure(KeyError("href"));
      }
      if EndsWith(href.value, ".gz") {
        filenames := filenames + [href.value];
      }
    }
    assert elems[..|anchors|] == elems;
    return Success(filenames);
  }

  /** The jobs of `__call__`: `(urljoin(base_url, f), dest/f)`, without a
      checksum. */
  function Jobs(dest: string, filenames: seq<string>): (jobs: seq<Job>)
    ensures |jobs| == |filenames|
    ensures forall i :: 0 <= i < |jobs| ==> jobs[i].checksum.None?
  {
    seq(|filenames|, i requires 0 <= i < |filenames| =>
      Job(UrlJoin(BASE_URL, filenames[i]), PathJoin(dest, filenames[i]), None))
  }

  /** Without a checksum every job downloads, even over an existing file:
      no job of a successful run reports a skip. */
  lemma JobsAlwaysDownload(files: map<string, Bytes>, dest: string, filenames: seq<string>,
                           fetch: string -> Response, hex: Md5Hex)
    requires PoolResult(SyncRun(files, Jobs(dest, filenames), fetch, hex).0).Success?
    ensures forall i :: 0 <= i < |filenames| ==> PoolResult(SyncRun(files, Jobs(dest, filenames), fetch, hex).0).value[i]
  {
    var jobs := Jobs(dest, filenames);
    var outs := SyncRun(files, jobs, fetch, hex).0;
    forall i | 0 <= i < |filenames| ensures outs[i] == Success(true) {
      SyncRunOutcome(files, jobs, fetch, hex, i);
    }
  }

  /** `__call__` */
  method Fetch(files: Files, dest: string, anchors: seq<Anchor>, fetch: string -> Response, hex: Md5Hex)
    returns (r: Result<seq<bool>>)
    modifies files
    ensures GzHrefs(anchors).Failure? ==> r == Failure(KeyError("href")) && files.contents == old(files.contents)
    ensures GzHrefs(anchors).Success? ==>
      var run := SyncRun(old(files.contents), Jobs(dest, GzHrefs(anchors).value), fetch, hex);
      r == PoolResult(run.0) && files.contents == run.1
  {
    var filenames :- GetFilenames(anchors);
    r := SyncAll(files, Jobs(dest, filenames), fetch, hex);
  }
}
