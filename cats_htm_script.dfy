/** `download_catsHTM.py`: the stand-alone catsHTM mirror.  Each catalog has
    a wget script naming its file URLs and an MD5 manifest; a `Downloader`
    checks that both name the same files and fetches those whose local copy
    does not match its checksum. */
module CatsHtmScript {
  import opened Common
  import opened PyStr
  import opened PyDict
  import opened DownloadUtils

  const BASE_URL: string := "https://euler1.weizmann.ac.il/catsHTM/"
  const HTML_TABLE_NAME: string := "catsHTM_catalogs.html"
  const DATA_ROOT: string := "."

  /** The (basename, URL) pairs of a wget script: each line's last
      whitespace-separated field is a URL; a line without fields raises
      IndexError. */
  function WgetEntries(lines: seq<string>): Result<seq<(string, string)>> {
    if lines == [] then Success([])
    else
      var init :- WgetEntries(lines[..|lines| - 1]);
      var tokens := Split(lines[|lines| - 1]);
      if tokens == [] then Failure(IndexError)
      else Success(init + [(Basename(Last(tokens)), Last(tokens))])
  }

  /** `{os.path.basename(url): url for url in (line.split()[-1] for line in
      script.splitlines())}` */
  function WgetUrls(script: string): Result<Dict<string, string>> {
    var entries :- WgetEntries(SplitLines(script));
    Success(FromPairs(entries))
  }

  lemma {:induction false} WgetEntriesSpec(lines: seq<string>)
    ensures WgetEntries(lines).Failure? <==> exists i :: 0 <= i < |lines| && Split(lines[i]) == []
    ensures WgetEntries(lines).Failure? ==> WgetEntries(lines).error == IndexError
    ensures WgetEntries(lines).Success? ==>
      |WgetEntries(lines).value| == |lines| &&
      forall i :: 0 <= i < |lines| ==>
        WgetEntries(lines).value[i] == (Basename(Last(Split(lines[i]))), Last(Split(lines[i])))
  {
    if lines != [] {
      var init := lines[..|lines| - 1];
      WgetEntriesSpec(init);
      assert forall i :: 0 <= i < |init| ==> init[i] == lines[i];
    }
  }

  /** The URL map is keyed by the basename of each line's last field; the
      URL of a later line replaces that of an earlier line with the same
      basename, and a blank line raises IndexError. */
  lemma WgetUrlsSpec(script: string)
    ensures WgetUrls(script).Failure? <==>
      exists i :: 0 <= i < |SplitLines(script)| && Split(SplitLines(script)[i]) == []
    ensures WgetUrls(script).Failure? ==> WgetUrls(script).error == IndexError
    ensures WgetUrls(script).Success? ==>
      var lines := SplitLines(script);
      var entries := seq(|lines|, i requires 0 <= i < |lines| && Split(lines[i]) != [] =>
        (Basename(Last(Split(lines[i]))), Last(Split(lines[i]))));
      WgetUrls(script).value == FromPairs(entries) &&
      forall k :: k in KeySet(WgetUrls(script).value) ==> '/' !in k
  {
    var lines := SplitLines(script);
    WgetEntriesSpec(lines);
    if WgetUrls(script).Success? {
      var entries := seq(|lines|, i requires 0 <= i < |lines| && Split(lines[i]) != [] =>
        (Basename(Last(Split(lines[i]))), Last(Split(lines[i]))));
      assert WgetEntries(lines).value == entries;
      forall k | k in KeySet(WgetUrls(script).value) ensures '/' !in k {
        assert k in PairKeys(entries);
      }
    }
  }

  /** One iteration of the download loop: skip when the local digest equals
      the checksum; otherwise the request is made before the file is opened,
      so an HTTP error leaves the filesystem as it was, and a good response
      replaces the file with the body.  No digest is checked afterwards. */
  function StepSpec(files: map<string, Bytes>, path: string, checksum: string, resp: Response, hex: Md5Hex)
    : (r: (Result<()>, map<string, Bytes>))
    ensures r.0.Failure? <==> !(path in files && hex(files[path]) == checksum) && IsHttpError(resp.status)
    ensures path !in files && !IsHttpError(resp.status) ==> r.1 == files[path := Flatten(resp.chunks)]
    ensures r.1 == files || r.1 == files[path := Flatten(resp.chunks)]
  {
    if path in files && hex(files[path]) == checksum then (Success(()), files)
    else if IsHttpError(resp.status) then (Failure(HTTPError(resp.status)), files)
    else (Success(()), files[path := Flatten(resp.chunks)])
  }

  /** The loop over the URL map, in its order; an exception ends it. */
  function LoopSpec(files: map<string, Bytes>, dest: string, urls: Dict<string, string>,
                    checksums: Dict<string, string>, fetch: string -> Response, hex: Md5Hex)
    : (r: (Result<()>, map<string, Bytes>))
    requires forall i :: 0 <= i < |urls| ==> urls[i].0 in KeySet(checksums)
  {
    if urls == [] then (Success(()), files)
    else
      var (res, files1) := LoopSpec(files, dest, urls[..|urls| - 1], checksums, fetch, hex);
      if res.Failure? then (res, files1)
      else
        var (filename, url) := urls[|urls| - 1];
        StepSpec(files1, PathJoin(dest, filename), Get(checksums, filename).value, fetch(url), hex)
  }

  /** What `Downloader.__call__` does, given the text of the wget script
      and of the manifest. */
  function CallSpec(files: map<string, Bytes>, dest: string, script: string, manifest: string,
                    fetch: string -> Response, hex: Md5Hex): (r: (Result<()>, map<string, Bytes>))
  {
    match WgetUrls(script)
    case Failure(e) => (Failure(e), files)
    case Success(urls) =>
      match ChecksumManifest(manifest)
      case Failure(e) => (Failure(e), files)
      case Success(checksums) =>
        if KeySet(urls) != KeySet(checksums) then (Failure(AssertionError("")), files)
        else
          assert forall i :: 0 <= i < |urls| ==> urls[i].0 in KeySet(urls);
          LoopSpec(files, dest, urls, checksums, fetch, hex)
  }

  /** The set-equality guard: when the script and the manifest name
      different files, nothing is fetched or written. */
  lemma CallRejectsMismatch(files: map<string, Bytes>, dest: string, script: string, manifest: string,
                            fetch: string -> Response, hex: Md5Hex)
    requires WgetUrls(script).Success? && ChecksumManifest(manifest).Success?
    requires KeySet(WgetUrls(script).value) != KeySet(ChecksumManifest(manifest).value)
    ensures CallSpec(files, dest, script, manifest, fetch, hex) == (Failure(AssertionError("")), files)
  {
  }

  lemma ValidInit<V>(urls: Dict<string, V>)
    requires urls != [] && PyDict.Valid(urls)
    ensures PyDict.Valid(urls[..|urls| - 1])
  {
    assert Keys(urls[..|urls| - 1]) == Keys(urls)[..|urls| - 1];
  }

  /** Paths of distinct plain filenames under one directory differ. */
  lemma DistinctTargets(dest: string, urls: Dict<string, string>, i: int)
    requires PyDict.Valid(urls) && forall k :: 0 <= k < |urls| ==> '/' !in urls[k].0
    requires 0 <= i < |urls| - 1
    ensures PathJoin(dest, urls[i].0) != PathJoin(dest, urls[|urls| - 1].0)
  {
    assert Keys(urls)[i] != Keys(urls)[|urls| - 1];
    assert !StartsWith(urls[i].0, "/") && !StartsWith(urls[|urls| - 1].0, "/") by {
      if urls[i].0 != [] { assert urls[i].0[0] != '/'; }
      if urls[|urls| - 1].0 != [] { assert urls[|urls| - 1].0[0] != '/'; }
    }
    if PathJoin(dest, urls[i].0) == PathJoin(dest, urls[|urls| - 1].0) {
      PathJoinInjective(dest, urls[i].0, urls[|urls| - 1].0);
    }
  }

  /** A step without error leaves its file present and either matching
      the checksum or holding the body, and no other file changed. */
  lemma StepOutcome(files: map<string, Bytes>, path: string, checksum: string, resp: Response, hex: Md5Hex)
    requires StepSpec(files, path, checksum, resp, hex).0.Success?
    ensures var files' := StepSpec(files, path, checksum, resp, hex).1;
      && path in files'
      && (hex(files'[path]) == checksum || files'[path] == Flatten(resp.chunks))
      && forall q :: q in files && q != path ==> q in files' && files'[q] == files[q]
  {
  }

  /** The file of one URL-map entry is present at `dest/filename` and either
      matches its checksum or holds exactly what its URL served. */
  ghost predicate Landed(files: map<string, Bytes>, dest: string, entry: (string, string),
                         checksums: Dict<string, string>, fetch: string -> Response, hex: Md5Hex)
  {
    var path := PathJoin(dest, entry.0);
    path in files && (Get(checksums, entry.0) == Some(hex(files[path])) || files[path] == Flatten(fetch(entry.1).chunks))
  }

  /** After a run without error, every listed file has landed. */
  lemma {:induction false} LoopOutcome(files: map<string, Bytes>, dest: string, urls: Dict<string, string>,
                                       checksums: Dict<string, string>, fetch: string -> Response, hex: Md5Hex)
    requires forall i :: 0 <= i < |urls| ==> urls[i].0 in KeySet(checksums)
    requires PyDict.Valid(urls) && forall i :: 0 <= i < |urls| ==> '/' !in urls[i].0
    requires LoopSpec(files, dest, urls, checksums, fetch, hex).0.Success?
    ensures forall i :: 0 <= i < |urls| ==>
      Landed(LoopSpec(files, dest, urls, checksums, fetch, hex).1, dest, urls[i], checksums, fetch, hex)
  {
    if urls != [] {
      var init := urls[..|urls| - 1];
      ValidInit(urls);
      LoopOutcome(files, dest, init, checksums, fetch, hex);
      var prev := LoopSpec(files, dest, init, checksums, fetch, hex);
      var last := urls[|urls| - 1];
      var step := StepSpec(prev.1, PathJoin(dest, last.0), Get(checksums, last.0).value, fetch(last.1), hex);
      assert prev.0.Success? && step == LoopSpec(files, dest, urls, checksums, fetch, hex);
      forall i | 0 <= i < |urls| - 1 ensures Landed(prev.1, dest, urls[i], checksums, fetch, hex) {
        assert init[i] == urls[i];
      }
      LastStepLands(prev.1, dest, urls, checksums, fetch, hex);
    }
  }

  /** The step for the last entry lands its file and keeps the earlier ones. */
  lemma LastStepLands(files: map<string, Bytes>, dest: string, urls: Dict<string, string>,
                      checksums: Dict<string, string>, fetch: string -> Response, hex: Md5Hex)
    requires urls != [] && urls[|urls| - 1].0 in KeySet(checksums)
    requires PyDict.Valid(urls) && forall i :: 0 <= i < |urls| ==> '/' !in urls[i].0
    requires forall i :: 0 <= i < |urls| - 1 ==> Landed(files, dest, urls[i], checksums, fetch, hex)
    requires var last := urls[|urls| - 1];
      StepSpec(files, PathJoin(dest, last.0), Get(checksums, last.0).value, fetch(last.1), hex).0.Success?
    ensures var last := urls[|urls| - 1];
      var files' := StepSpec(files, PathJoin(dest, last.0), Get(checksums, last.0).value, fetch(last.1), hex).1;
      forall i :: 0 <= i < |urls| ==> Landed(files', dest, urls[i], checksums, fetch, hex)
  {
    var last := urls[|urls| - 1];
    var path := PathJoin(dest, last.0);
    var checksum := Get(checksums, last.0).value;
    StepOutcome(files, path, checksum, fetch(last.1), hex);
    var files' := StepSpec(files, path, checksum, fetch(last.1), hex).1;
    forall i | 0 <= i < |urls| ensures Landed(files', dest, urls[i], checksums, fetch, hex) {
      if i < |urls| - 1 {
        DistinctTargets(dest, urls, i);
        LandedKept(files, files', dest, urls[i], checksums, fetch, hex, path);
      }
    }
  }

  /** A file that has landed stays landed while only another path changes. */
  lemma LandedKept(before: map<string, Bytes>, after: map<string, Bytes>, dest: string, entry: (string, string),
                   checksums: Dict<string, string>, fetch: string -> Response, hex: Md5Hex, changed: string)
    requires Landed(before, dest, entry, checksums, fetch, hex)
    requires PathJoin(dest, entry.0) != changed
    requires forall q :: q in before && q != changed ==> q in after && after[q] == before[q]
    ensures Landed(after, dest, entry, checksums, fetch, hex)
  {
    var p := PathJoin(dest, entry.0);
    assert p in after && after[p] == before[p];
  }

  /** The loop touches no file outside `dest/filename` for the listed
      filenames. */
  lemma {:induction false} LoopFrame(files: map<string, Bytes>, dest: string, urls: Dict<string, string>,
                                     checksums: Dict<string, string>, fetch: string -> Response, hex: Md5Hex, p: string)
    requires forall i :: 0 <= i < |urls| ==> urls[i].0 in KeySet(checksums)
    requires forall i :: 0 <= i < |urls| ==> p != PathJoin(dest, urls[i].0)
    ensures var files' := LoopSpec(files, dest, urls, checksums, fetch, hex).1;
      (p in files' <==> p in files) && (p in files ==> files'[p] == files[p])
  {
    if urls != [] {
      var init := urls[..|urls| - 1];
      LoopFrame(files, dest, init, checksums, fetch, hex, p);
    }
  }

  /** `Downloader` for one catalog. */
  class Downloader {
    const name: string
    const dest: string
    const files: Files
    /** `read_chunk` and `download_chunk`: 1 << 14 bytes */
    const readChunk: int

    /** `Downloader(name, wget_url, checksum_url)`; the destination
        directory is `DATA_ROOT/name`. */
    constructor (name: string, files: Files)
      ensures this.name == name && this.files == files
      ensures dest == PathJoin(DATA_ROOT, name)
      ensures readChunk == 0x4000
    {
      this.name := name;
      this.dest := PathJoin(DATA_ROOT, name);
      this.files := files;
      this.readChunk := 0x4000;
    }

    /** `Downloader.hash_file`: None for a missing file, else the MD5 of
        its content, read `read_chunk` bytes at a time. */
    method HashFile(path: string, hex: Md5Hex) returns (r: Option<string>)
      requires readChunk == 0x4000
      ensures r == if path in files.contents then Some(hex(files.contents[path])) else None
    {
      r := DownloadUtils.HashFile(files, path, readChunk, hex);
    }

    /** `Downloader.download_file`: request, then open and write every
        chunk; no checksum is verified. */
    method DownloadFile(url: string, path: string, fetch: string -> Response) returns (r: Result<()>)
      modifies files
      ensures IsHttpError(fetch(url).status) ==>
        r == Failure(HTTPError(fetch(url).status)) && files.contents == old(files.contents)
      ensures !IsHttpError(fetch(url).status) ==>
        r == Success(()) && files.contents == old(files.contents)[path := Flatten(fetch(url).chunks)]
    {
      var resp := fetch(url);
      if IsHttpError(resp.status) {
        return Failure(HTTPError(resp.status));
      }
      files.Create(path);
      var i := 0;
      while i < |resp.chunks|
        invariant 0 <= i <= |resp.chunks|
        invariant files.contents == old(files.contents)[path := Flatten(resp.chunks[..i])]
      {
        files.Append(path, resp.chunks[i]);
        assert resp.chunks[..i + 1] == resp.chunks[..i] + [resp.chunks[i]];
        FlattenSnoc(resp.chunks[..i], resp.chunks[i]);
        i := i + 1;
      }
      assert resp.chunks[..i] == resp.chunks;
      return Success(());
    }

    /** The loop of `__call__` over the URL map. */
    method DownloadAll(urls: Dict<string, string>, checksums: Dict<string, string>,
                       fetch: string -> Response, hex: Md5Hex) returns (r: Result<()>)
      requires readChunk == 0x4000
      requires forall i :: 0 <= i < |urls| ==> urls[i].0 in KeySet(checksums)
      modifies files
      ensures (r, files.contents) == LoopSpec(old(files.contents), dest, urls, checksums, fetch, hex)
    {
      var i := 0;
      r := Success(());
      while i < |urls|
        invariant 0 <= i <= |urls|
        invariant (r, files.contents) == LoopSpec(old(files.contents), dest, urls[..i], checksums, fetch, hex)
        invariant r.Success?
      {
        assert urls[..i + 1][..i] == urls[..i];
        var (filename, url) := urls[i];
        var path := PathJoin(dest, filename);
        var h := HashFile(path, hex);
        if h == Get(checksums, filename) {
          i := i + 1;
          continue;
        }
        r := DownloadFile(url, path, fetch);
        if r.Failure? {
          LoopStops(old(files.contents), dest, urls, checksums, fetch, hex, i + 1);
          return;
        }
        i := i + 1;
      }
      assert urls[..i] == urls;
    }

    /** `Downloader.__call__`, given the texts of the wget script and of
        the manifest. */
    method Call(script: string, manifest: string, fetch: string -> Response, hex: Md5Hex) returns (r: Result<()>)
      requires readChunk == 0x4000
      modifies files
      ensures (r, files.contents) == CallSpec(old(files.contents), dest, script, manifest, fetch, hex)
    {
      var urls :- WgetUrls(script);
      var checksums :- ParseChecksums(manifest);
      if KeySet(urls) != KeySet(checksums) {
        return Failure(AssertionError(""));
      }
      assert forall i :: 0 <= i < |urls| ==> urls[i].0 in KeySet(urls);
      r := DownloadAll(urls, checksums, fetch, hex);
    }
  }

  /** An error ends the loop: the later entries change nothing. */
  lemma {:induction false} LoopStops(files: map<string, Bytes>, dest: string, urls: Dict<string, string>,
                                     checksums: Dict<string, string>, fetch: string -> Response, hex: Md5Hex, j: nat)
    requires forall i :: 0 <= i < |urls| ==> urls[i].0 in KeySet(checksums)
    requires j <= |urls|
    requires LoopSpec(files, dest, urls[..j], checksums, fetch, hex).0.Failure?
    ensures LoopSpec(files, dest, urls, checksums, fetch, hex) == LoopSpec(files, dest, urls[..j], checksums, fetch, hex)
    decreases |urls| - j
  {
    if j < |urls| {
      assert urls[..j + 1][..j] == urls[..j];
      LoopStops(files, dest, urls, checksums, fetch, hex, j + 1);
    } else {
      assert urls[..j] == urls;
    }
  }
}
