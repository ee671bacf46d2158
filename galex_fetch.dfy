/** `download_cats/galex.py`: the GUVcat slices linked from the catalog's
    HTML page, except the FUV-only files. */
module GalexFetch {
  import opened Common
  import opened PyStr
  import opened DownloadUtils

  const BASE_URL: string := "http://dolomiti.pha.jhu.edu/uvsky/GUVcat/GUVcat_AIS_FOV055/2019/5deglatslices/"
  const CONTENT_LIST_URL: string := "http://dolomiti.pha.jhu.edu/uvsky/GUVcat/GUVcat_AIS.html"

  /** The three filters of `_get_urls_filenames`. */
  predicate Keeps(href: string) {
    StartsWith(href, BASE_URL) && EndsWith(href, ".fits.gz") && !EndsWith(href, "FUV.fits.gz")
  }

  function Identity(href: string): string {
    href
  }

  /** The kept hrefs, in document order. */
  function KeptHrefs(anchors: seq<Anchor>): Result<seq<string>> {
    ScanHrefs(seq(|anchors|, i requires 0 <= i < |anchors| => Some(anchors[i])), Identity, Keeps)
  }

  /** `*_, filename = href.split('/')` */
  function FileOf(href: string): string {
    Last(SplitOn(href, '/'))
  }

  /** `_get_urls_filenames`: the kept hrefs and their last segments. */
  method GetUrlsFilenames(anchors: seq<Anchor>) returns (r: Result<(seq<string>, seq<string>)>)
    ensures KeptHrefs(anchors).Failure? ==> r == Failure(KeyError("href"))
    ensures KeptHrefs(anchors).Success? ==>
      r.Success? && r.value.0 == KeptHrefs(anchors).value &&
      |r.value.1| == |r.value.0| &&
      forall i :: 0 <= i < |r.value.0| ==> r.value.1[i] == FileOf(r.value.0[i])
  {
    var elems := seq(|anchors|, i requires 0 <= i < |anchors| => Some(anchors[i]));
    var urls: seq<string> := [];
    var filenames: seq<string> := [];
    for i := 0 to |anchors|
      invariant ScanHrefs(elems[..i], Identity, Keeps) == Success(urls)
      invariant |filenames| == |urls|
      invariant forall k :: 0 <= k < |urls| ==> filenames[k] == FileOf(urls[k])
    {
      assert elems[..i + 1][..i] == elems[..i];
      assert elems[i] == Some(anchors[i]);
      var href := anchors[i].href;
      if href.None? {
        ScanHrefsPrefixFailure(elems, Identity, Keeps, i + 1);
        return Failure(KeyError("href"));
      }
      if !StartsWith(href.value, BASE_URL) {
      } else if !EndsWith(href.value, ".fits.gz") {
      } else if EndsWith(href.value, "FUV.fits.gz") {
      } else {
        urls := urls + [href.value];
        filenames := filenames + [FileOf(href.value)];
      }
    }
    assert elems[..|anchors|] == elems;
    return Success((urls, filenames));
  }

  /** Every kept URL lies under the catalog directory and is a `.fits.gz`
      file that is not `FUV.fits.gz`; its filename has no `/` and ends it. */
  lemma KeptSpec(anchors: seq<Anchor>, i: int)
    requires KeptHrefs(anchors).Success? && 0 <= i < |KeptHrefs(anchors).value|
    ensures var href := KeptHrefs(anchors).value[i];
      StartsWith(href, BASE_URL) && EndsWith(href, ".fits.gz") && !EndsWith(href, "FUV.fits.gz")
    ensures var href := KeptHrefs(anchors).value[i];
      EndsWith(href, FileOf(href))
  {
    var href := KeptHrefs(anchors).value[i];
    SplitOnLast(href, '/');
  }

  /** The jobs of `__call__`: each kept href with `dest/filename`,
      without a checksum. */
  function HrefJobs(dest: string, urls: seq<string>): (jobs: seq<Job>)
    ensures |jobs| == |urls|
    ensures forall i :: 0 <= i < |jobs| ==> jobs[i].checksum.None?
  {
    seq(|urls|, i requires 0 <= i < |urls| => Job(urls[i], PathJoin(dest, FileOf(urls[i])), None))
  }

  /** `__call__` */
  method Fetch(files: Files, dest: string, anchors: seq<Anchor>, fetch: string -> Response, hex: Md5Hex)
    returns (r: Result<seq<bool>>)
    modifies files
    ensures KeptHrefs(anchors).Failure? ==> r == Failure(KeyError("href")) && files.contents == old(files.contents)
    ensures KeptHrefs(anchors).Success? ==>
      var run := SyncRun(old(files.contents), HrefJobs(dest, KeptHrefs(anchors).value), fetch, hex);
      r == PoolResult(run.0) && files.contents == run.1
  {
    var lists :- GetUrlsFilenames(anchors);
    var (urls, filenames) := lists;
    var paths := seq(|filenames|, i requires 0 <= i < |filenames| => PathJoin(dest, filenames[i]));
    var jobs := seq(|urls|, i requires 0 <= i < |urls| => Job(urls[i], paths[i], None));
    assert jobs == HrefJobs(dest, urls);
    r := SyncAll(files, jobs, fetch, hex);
  }
}
