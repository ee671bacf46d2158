/** The shared mirroring helpers of `download_cats/utils.py`: hashing a local
    file chunk by chunk, streaming a response into a file while keeping a
    running MD5, the skip-or-download decision, and the checksum manifest
    parser.  The filesystem is a `Files` object holding a map from path to
    contents, the network is a function from URL to `Response`, and MD5
    (RFC 1321) is a parameter `hex` giving the hex digest of a byte string. */
module DownloadUtils {
  import opened Common
  import opened PyStr
  import opened PyDict

  newtype byte = x: int | 0 <= x < 256
  type Bytes = seq<byte>

  /** `DEFAULT_READ_CHUNK` and `DEFAULT_DOWNLOAD_CHUNK`: 1 << 14 bytes. */
  const DEFAULT_READ_CHUNK: int := 0x4000
  const DEFAULT_DOWNLOAD_CHUNK: int := 0x4000

  /** The hex MD5 digest of a whole byte string. */
  type Md5Hex = Bytes -> string

  /** An HTTP response: its status code and its body as the chunks
      `iter_content` yields, in arrival order. */
  datatype Response = Response(status: int, chunks: seq<Bytes>)

  /** `raise_for_status` raises for client (4xx) and server (5xx) errors. */
  predicate IsHttpError(status: int) {
    400 <= status < 600
  }

  /** A download job: source URL, destination path and expected checksum. */
  datatype Job = Job(url: string, path: string, checksum: Option<string>)

  /** The local filesystem. */
  class Files {
    var contents: map<string, Bytes>

    constructor (init: map<string, Bytes>)
      ensures contents == init
    {
      contents := init;
    }

    /** `open(path, 'wb')`: creates the file, or truncates an existing one. */
    method Create(path: string)
      modifies this
      ensures contents == old(contents)[path := []]
    {
      contents := contents[path := []];
    }

    /** `fh.write(chunk)` on a file opened for writing. */
    method Append(path: string, chunk: Bytes)
      requires path in contents
      modifies this
      ensures contents == old(contents)[path := old(contents[path]) + chunk]
    {
      contents := contents[path := contents[path] + chunk];
    }
  }

  /** `fh.read(size)` from offset `pos`: a negative size reads to the end,
      otherwise at most `size` bytes; the result is empty only at the end of
      the file or for size 0. */
  function ReadChunk(data: Bytes, pos: nat, size: int): (r: Bytes)
    requires pos <= |data|
    ensures pos + |r| <= |data| && data[pos..pos + |r|] == r
    ensures size < 0 ==> pos + |r| == |data|
    ensures size >= 0 ==> |r| == if pos + size <= |data| then size else |data| - pos
  {
    if size < 0 || pos + size > |data| then data[pos..] else data[pos..pos + size]
  }

  /** A running MD5 state (`hashlib.md5()`).  Its state is the byte string
      absorbed so far and its digest is the MD5 of that string, so feeding
      chunks one by one yields the digest of their concatenation. */
  class Md5Context {
    var absorbed: Bytes

    constructor ()
      ensures absorbed == []
    {
      absorbed := [];
    }

    /** `m.update(chunk)` */
    method Update(chunk: Bytes)
      modifies this
      ensures absorbed == old(absorbed) + chunk
    {
      absorbed := absorbed + chunk;
    }

    /** `m.digest().hex()` */
    function HexDigest(hex: Md5Hex): string
      reads this
    {
      hex(absorbed)
    }
  }

  /** `hash_file(path, chunk_size)`: None for a missing path; otherwise the
      file is read in chunks until an empty read and each chunk is folded into
      one MD5 state, giving the digest of the whole content (of nothing when
      the chunk size is 0, since the first read is then empty). */
  method HashFile(files: Files, path: string, chunkSize: int, hex: Md5Hex) returns (r: Option<string>)
    ensures path !in files.contents <==> r.None?
    ensures path in files.contents ==>
      r == Some(hex(if chunkSize == 0 then [] else files.contents[path]))
  {
    if path !in files.contents {
      return None;
    }
    var data := files.contents[path];
    var m := new Md5Context();
    var pos := 0;
    while true
      invariant 0 <= pos <= |data|
      invariant m.absorbed == data[..pos]
      invariant chunkSize == 0 ==> pos == 0
      decreases |data| - pos
    {
      var chunk := ReadChunk(data, pos, chunkSize);
      if chunk == [] {
        assert chunkSize != 0 ==> pos == |data|;
        break;
      }
      m.Update(chunk);
      pos := pos + |chunk|;
    }
    if chunkSize != 0 {
      assert data[..pos] == data;
    }
    r := Some(m.HexDigest(hex));
  }

  /** `FileDownloader`: streams one URL into one file, keeping a running MD5
      only when a checksum is expected. */
  class FileDownloader {
    const url: string
    const path: string
    const checksum: Option<string>
    const files: Files
    /** present iff a checksum was given; `write` is then `_write_and_sum` */
    const md5: Md5Context?

    predicate Valid() {
      (md5 != null) == checksum.Some?
    }

    /** `FileDownloader(url, path, checksum)` */
    constructor (url: string, path: string, checksum: Option<string>, files: Files)
      ensures this.url == url && this.path == path && this.checksum == checksum
      ensures this.files == files
      ensures Valid()
      ensures md5 != null ==> fresh(md5) && md5.absorbed == []
    {
      this.url := url;
      this.path := path;
      this.checksum := checksum;
      this.files := files;
      if checksum.Some? {
        md5 := new Md5Context();
      } else {
        md5 := null;
      }
    }

    /** `_write`: the chunk is appended to the open file. */
    method WritePlain(chunk: Bytes)
      requires path in files.contents
      modifies files
      ensures files.contents == old(files.contents)[path := old(files.contents[path]) + chunk]
    {
      files.Append(path, chunk);
    }

    /** `_write_and_sum`: the chunk is appended and fed to the running MD5. */
    method WriteAndSum(chunk: Bytes)
      requires md5 != null && path in files.contents
      modifies files, md5
      ensures files.contents == old(files.contents)[path := old(files.contents[path]) + chunk]
      ensures md5.absorbed == old(md5.absorbed) + chunk
    {
      files.Append(path, chunk);
      md5.Update(chunk);
    }

    /** `self.write`, bound in `__init__` according to the checksum. */
    method Write(chunk: Bytes)
      requires Valid() && path in files.contents
      modifies files, md5
      ensures files.contents == old(files.contents)[path := old(files.contents[path]) + chunk]
      ensures md5 != null ==> md5.absorbed == old(md5.absorbed) + chunk
    {
      if checksum.Some? {
        WriteAndSum(chunk);
      } else {
        WritePlain(chunk);
      }
    }

    /** `__enter__`: the file is truncated before the request is made, so an
        HTTP error leaves it empty; otherwise it receives the chunks in order
        and, with a checksum, a digest of the written bytes different from it
        raises `ValueError('md5 checksum mismatch')`. */
    method Enter(fetch: string -> Response, hex: Md5Hex) returns (r: Result<()>)
      requires Valid()
      requires md5 != null ==> md5.absorbed == []
      modifies files, md5
      ensures IsHttpError(fetch(url).status) ==>
        files.contents == old(files.contents)[path := []] && r == Failure(HTTPError(fetch(url).status))
      ensures !IsHttpError(fetch(url).status) ==>
        files.contents == old(files.contents)[path := Flatten(fetch(url).chunks)]
      ensures !IsHttpError(fetch(url).status) ==>
        r == if checksum.Some? && checksum.value != hex(Flatten(fetch(url).chunks))
             then Failure(ValueError("md5 checksum mismatch"))
             else Success(())
    {
      files.Create(path);
      var resp := fetch(url);
      if IsHttpError(resp.status) {
        return Failure(HTTPError(resp.status));
      }
      var i := 0;
      while i < |resp.chunks|
        invariant 0 <= i <= |resp.chunks|
        invariant files.contents == old(files.contents)[path := Flatten(resp.chunks[..i])]
        invariant md5 != null ==> md5.absorbed == Flatten(resp.chunks[..i])
      {
        Write(resp.chunks[i]);
        assert resp.chunks[..i + 1] == resp.chunks[..i] + [resp.chunks[i]];
        FlattenSnoc(resp.chunks[..i], resp.chunks[i]);
        i := i + 1;
      }
      assert resp.chunks[..i] == resp.chunks;
      if checksum.Some? && checksum.value != md5.HexDigest(hex) {
        return Failure(ValueError("md5 checksum mismatch"));
      }
      return Success(());
    }
  }

  /** What `download_file` does to the filesystem and what it returns. */
  function SyncFile(files: map<string, Bytes>, job: Job, resp: Response, hex: Md5Hex)
    : (r: (Result<bool>, map<string, Bytes>))
    ensures r.1.Keys == files.Keys + {job.path}
    ensures forall p :: p in files && p != job.path ==> r.1[p] == files[p]
    ensures r.0 == Success(false) <==>
      job.path in files && job.checksum == Some(hex(files[job.path]))
    ensures r.0 == Success(false) ==> r.1 == files
    ensures r.0 == Success(true) ==> r.1[job.path] == Flatten(resp.chunks)
    ensures r.0 == Success(true) && job.checksum.Some? ==> job.checksum.value == hex(r.1[job.path])
    ensures job.checksum.None? ==> r.0 != Success(false) && r.0 != Failure(ValueError("md5 checksum mismatch"))
  {
    if job.path in files && job.checksum == Some(hex(files[job.path])) then
      (Success(false), files)
    else if IsHttpError(resp.status) then
      (Failure(HTTPError(resp.status)), files[job.path := []])
    else
      var data := Flatten(resp.chunks);
      if job.checksum.Some? && job.checksum.value != hex(data) then
        (Failure(ValueError("md5 checksum mismatch")), files[job.path := data])
      else
        (Success(true), files[job.path := data])
  }

  /** `download_file(url, path, checksum)`: False without touching the file
      when it exists and its digest equals the checksum, else downloads it
      through a `FileDownloader` and returns True. */
  method DownloadFile(files: Files, job: Job, fetch: string -> Response, hex: Md5Hex) returns (r: Result<bool>)
    modifies files
    ensures (r, files.contents) == SyncFile(old(files.contents), job, fetch(job.url), hex)
  {
    if job.path in files.contents {
      var h := HashFile(files, job.path, DEFAULT_READ_CHUNK, hex);
      if job.checksum == h {
        return Success(false);
      }
    }
    var d := new FileDownloader(job.url, job.path, job.checksum, files);
    var e := d.Enter(fetch, hex);
    if e.Failure? {
      return Failure(e.error);
    }
    return Success(true);
  }

  /** A download with a checksum that succeeded leaves a file that the next
      run skips, whatever the server would answer then. */
  lemma SyncFileIdempotent(files: map<string, Bytes>, job: Job, resp: Response, resp2: Response, hex: Md5Hex)
    requires job.checksum.Some?
    requires SyncFile(files, job, resp, hex).0.Success?
    ensures var files' := SyncFile(files, job, resp, hex).1;
      SyncFile(files', job, resp2, hex) == (Success(false), files')
  {
  }

  /** `download_file` as written: `FileDownloader.__exit__` takes no
      exception arguments, so leaving the `with` block after a completed
      download raises TypeError instead of returning True.  (`__exit__` is
      not called when `__enter__` raises.) */
  function SyncFileAsWritten(files: map<string, Bytes>, job: Job, resp: Response, hex: Md5Hex)
    : (r: (Result<bool>, map<string, Bytes>))
  {
    var (out, files') := SyncFile(files, job, resp, hex);
    if out == Success(true) then (Failure(TypeError("__exit__() takes 1 positional argument but 4 were given")), files')
    else (out, files')
  }

  /** As written, `download_file` never reports a download: a missing file
      with a good response is written but the call fails. */
  lemma SyncFileAsWrittenNeverTrue(files: map<string, Bytes>, job: Job, resp: Response, hex: Md5Hex)
    ensures SyncFileAsWritten(files, job, resp, hex).0 != Success(true)
    ensures job.path !in files && !IsHttpError(resp.status) && job.checksum.None? ==>
      SyncFileAsWritten(files, job, resp, hex).0.Failure? &&
      SyncFileAsWritten(files, job, resp, hex).0.error.TypeError? &&
      SyncFileAsWritten(files, job, resp, hex).1[job.path] == Flatten(resp.chunks)
  {
  }

  // ---------------------------------------------------------------------
  // Checksum manifests ("<md5>  <filename>" per line)

  /** The (filename, checksum) pairs of the manifest lines, in order; the
      first line that does not split into exactly two fields raises
      ValueError (which carries that line here). */
  function ManifestEntries(lines: seq<string>): Result<seq<(string, string)>> {
    if lines == [] then Success([])
    else
      var init :- ManifestEntries(lines[..|lines| - 1]);
      var tokens := Split(lines[|lines| - 1]);
      if |tokens| != 2 then Failure(ValueError(lines[|lines| - 1]))
      else Success(init + [(tokens[1], tokens[0])])
  }

  /** The manifest as a dict filename → checksum: `parse_checksums`, and
      equally `dict(line.split()[::-1] for line in text.splitlines())`. */
  function ChecksumManifest(text: string): (r: Result<Dict<string, string>>)
    ensures r.Success? ==> PyDict.Valid(r.value)
    ensures r.Failure? ==> r.error.ValueError?
  {
    ManifestEntriesFailure(SplitLines(text));
    var entries :- ManifestEntries(SplitLines(text));
    Success(FromPairs(entries))
  }

  lemma {:induction false} ManifestEntriesFailure(lines: seq<string>)
    ensures ManifestEntries(lines).Failure? <==>
      exists i :: 0 <= i < |lines| && |Split(lines[i])| != 2
    ensures ManifestEntries(lines).Failure? ==> ManifestEntries(lines).error.ValueError?
    ensures ManifestEntries(lines).Success? ==> |ManifestEntries(lines).value| == |lines|
    ensures ManifestEntries(lines).Success? ==>
      forall i :: 0 <= i < |lines| ==>
        ManifestEntries(lines).value[i] == (Split(lines[i])[1], Split(lines[i])[0])
  {
    if lines != [] {
      var init := lines[..|lines| - 1];
      ManifestEntriesFailure(init);
      assert forall i :: 0 <= i < |init| ==> init[i] == lines[i];
    }
  }

  /** A manifest parses iff each of its lines has exactly two fields; then
      each line's second field maps to its first, a later line overriding an
      earlier one for the same filename. */
  lemma ChecksumManifestSpec(text: string)
    ensures ChecksumManifest(text).Failure? <==>
      exists i :: 0 <= i < |SplitLines(text)| && |Split(SplitLines(text)[i])| != 2
    ensures ChecksumManifest(text).Success? ==>
      var lines := SplitLines(text);
      var entries := seq(|lines|, i requires 0 <= i < |lines| => (Split(lines[i])[1], Split(lines[i])[0]));
      ChecksumManifest(text).value == FromPairs(entries)
  {
    var lines := SplitLines(text);
    ManifestEntriesFailure(lines);
    if ChecksumManifest(text).Success? {
      var entries := seq(|lines|, i requires 0 <= i < |lines| => (Split(lines[i])[1], Split(lines[i])[0]));
      assert ManifestEntries(lines).value == entries;
    }
  }

  lemma {:induction false} ManifestEntriesPrefixFailure(lines: seq<string>, j: nat)
    requires j <= |lines| && ManifestEntries(lines[..j]).Failure?
    ensures ManifestEntries(lines) == ManifestEntries(lines[..j])
    decreases |lines| - j
  {
    if j < |lines| {
      assert lines[..j + 1][..j] == lines[..j];
      ManifestEntriesPrefixFailure(lines, j + 1);
    } else {
      assert lines[..j] == lines;
    }
  }

  /** `parse_checksums(s)`: fills the dict line by line. */
  method ParseChecksums(s: string) returns (r: Result<Dict<string, string>>)
    ensures r == ChecksumManifest(s)
  {
    var lines := SplitLines(s);
    var checksums: Dict<string, string> := [];
    ghost var entries: seq<(string, string)> := [];
    var i := 0;
    while i < |lines|
      invariant 0 <= i <= |lines|
      invariant ManifestEntries(lines[..i]) == Success(entries)
      invariant checksums == FromPairs(entries)
    {
      assert lines[..i + 1][..i] == lines[..i];
      var tokens := Split(lines[i]);
      if |tokens| != 2 {
        ManifestEntriesPrefixFailure(lines, i + 1);
        return Failure(ValueError(lines[i]));
      }
      assert (entries + [(tokens[1], tokens[0])])[..|entries|] == entries;
      checksums := Put(checksums, tokens[1], tokens[0]);
      entries := entries + [(tokens[1], tokens[0])];
      i := i + 1;
    }
    assert lines[..i] == lines;
    return Success(checksums);
  }

  /** One manifest line as `md5sum` writes it: digest, two spaces, name. */
  function ManifestLine(filename: string, checksum: string): string {
    Join("  ", [checksum, filename])
  }

  function ManifestText(entries: seq<(string, string)>): string {
    Unlines(seq(|entries|, i requires 0 <= i < |entries| => ManifestLine(entries[i].0, entries[i].1)))
  }

  lemma ManifestLineSplit(filename: string, checksum: string)
    requires IsToken(filename) && IsToken(checksum)
    ensures '\n' !in ManifestLine(filename, checksum)
    ensures Split(ManifestLine(filename, checksum)) == [checksum, filename]
  {
    SplitJoin("  ", [checksum, filename]);
    assert ManifestLine(filename, checksum) == checksum + "  " + filename;
    assert IsSpace('\n');
  }

  /** Parsing a manifest written in the `md5sum` format gives back the
      entries, as a dict. */
  lemma ManifestRoundTrip(entries: seq<(string, string)>)
    requires forall i :: 0 <= i < |entries| ==> IsToken(entries[i].0) && IsToken(entries[i].1)
    ensures ChecksumManifest(ManifestText(entries)) == Success(FromPairs(entries))
  {
    var lines := seq(|entries|, i requires 0 <= i < |entries| => ManifestLine(entries[i].0, entries[i].1));
    forall i | 0 <= i < |lines|
      ensures '\n' !in lines[i] && Split(lines[i]) == [entries[i].1, entries[i].0]
    {
      ManifestLineSplit(entries[i].0, entries[i].1);
    }
    SplitLinesUnlines(lines);
    assert SplitLines(ManifestText(entries)) == lines;
    ManifestEntriesFailure(lines);
    assert ManifestEntries(lines).value == entries;
  }

  // ---------------------------------------------------------------------
  // Job lists built from a manifest

  function EntryJob(base: string, dest: string, entry: (string, string)): Job {
    Job(UrlJoin(base, entry.0), PathJoin(dest, entry.0), Some(entry.1))
  }

  /** `((urljoin(base, f), os.path.join(dest, f), c) for f, c in
      checksums.items() if keep(f))` */
  function ManifestJobs(base: string, dest: string, manifest: Dict<string, string>, keep: string -> bool)
    : (jobs: seq<Job>)
    ensures |jobs| <= |manifest|
    ensures forall i :: 0 <= i < |jobs| ==> jobs[i].checksum.Some?
    ensures forall j :: j in jobs ==>
      exists i :: 0 <= i < |manifest| && keep(manifest[i].0) && j == EntryJob(base, dest, manifest[i])
    ensures forall i :: 0 <= i < |manifest| && keep(manifest[i].0) ==>
      EntryJob(base, dest, manifest[i]) in jobs
  {
    if manifest == [] then []
    else
      var rest := ManifestJobs(base, dest, manifest[1..], keep);
      assert forall i :: 1 <= i < |manifest| ==> manifest[i] == manifest[1..][i - 1];
      if keep(manifest[0].0) then [EntryJob(base, dest, manifest[0])] + rest else rest
  }

  /** Without a filter every entry becomes a job, in manifest order. */
  lemma {:induction false} ManifestJobsKeepAll(base: string, dest: string, manifest: Dict<string, string>, keep: string -> bool)
    requires forall i :: 0 <= i < |manifest| ==> keep(manifest[i].0)
    ensures var jobs := ManifestJobs(base, dest, manifest, keep);
      |jobs| == |manifest| && forall i :: 0 <= i < |manifest| ==> jobs[i] == EntryJob(base, dest, manifest[i])
  {
    if manifest != [] {
      ManifestJobsKeepAll(base, dest, manifest[1..], keep);
    }
  }

  function Paths(jobs: seq<Job>): (ps: seq<string>)
    ensures |ps| == |jobs| && forall i :: 0 <= i < |jobs| ==> ps[i] == jobs[i].path
  {
    seq(|jobs|, i requires 0 <= i < |jobs| => jobs[i].path)
  }

  /** Distinct relative filenames give distinct destination paths, one job
      per path. */
  lemma {:induction false} ManifestJobsDistinctPaths(base: string, dest: string, manifest: Dict<string, string>, keep: string -> bool)
    requires PyDict.Valid(manifest)
    requires forall i :: 0 <= i < |manifest| ==> !StartsWith(manifest[i].0, "/")
    ensures Distinct(Paths(ManifestJobs(base, dest, manifest, keep)))
  {
    if manifest != [] {
      ValidTail(manifest);
      var tail := manifest[1..];
      ManifestJobsDistinctPaths(base, dest, tail, keep);
      var rest := ManifestJobs(base, dest, tail, keep);
      if keep(manifest[0].0) {
        var jobs := [EntryJob(base, dest, manifest[0])] + rest;
        forall j | 0 < j < |jobs| ensures jobs[j].path != jobs[0].path {
          assert jobs[j] in rest;
          var i :| 0 <= i < |tail| && keep(tail[i].0) && jobs[j] == EntryJob(base, dest, tail[i]);
          assert tail[i].0 in KeySet(tail);
          if jobs[j].path == jobs[0].path {
            PathJoinInjective(dest, tail[i].0, manifest[0].0);
          }
        }
        forall a, b | 0 <= a < b < |jobs| ensures Paths(jobs)[a] != Paths(jobs)[b] {
          if a > 0 {
            assert Paths(jobs)[a] == Paths(rest)[a - 1];
            assert Paths(jobs)[b] == Paths(rest)[b - 1];
          }
        }
      }
    }
  }

  // ---------------------------------------------------------------------
  // Links extracted from an HTML index page

  /** An `<a>` element: its `href` attribute, when it has one. */
  datatype Anchor = Anchor(href: Option<string>)

  /** Scanning the elements of an index page in document order: an absent
      element (a `<td>` without `<a>`) is skipped, `a['href']` on an `<a>`
      without `href` raises KeyError, and `view(href)` is kept when `keep`
      holds for it. */
  function ScanHrefs(elems: seq<Option<Anchor>>, view: string -> string, keep: string -> bool)
    : (r: Result<seq<string>>)
    ensures r.Failure? ==> r.error == KeyError("href")
    ensures r.Success? ==> |r.value| <= |elems| && forall i :: 0 <= i < |r.value| ==> keep(r.value[i])
  {
    if elems == [] then Success([])
    else
      var init :- ScanHrefs(elems[..|elems| - 1], view, keep);
      match elems[|elems| - 1]
      case None => Success(init)
      case Some(a) =>
        if a.href.None? then Failure(KeyError("href"))
        else if keep(view(a.href.value)) then Success(init + [view(a.href.value)])
        else Success(init)
  }

  /** The scan fails iff some `<a>` lacks `href`; otherwise it keeps exactly
      the viewed hrefs that pass the filter. */
  lemma {:induction false} ScanHrefsSpec(elems: seq<Option<Anchor>>, view: string -> string, keep: string -> bool)
    ensures ScanHrefs(elems, view, keep).Failure? <==>
      exists i :: 0 <= i < |elems| && elems[i].Some? && elems[i].value.href.None?
    ensures ScanHrefs(elems, view, keep).Success? ==>
      forall x :: x in ScanHrefs(elems, view, keep).value <==>
        exists i :: 0 <= i < |elems| && elems[i].Some? && elems[i].value.href.Some? &&
          x == view(elems[i].value.href.value) && keep(x)
  {
    if elems != [] {
      var init := elems[..|elems| - 1];
      ScanHrefsSpec(init, view, keep);
      assert forall i :: 0 <= i < |init| ==> init[i] == elems[i];
    }
  }

  /** A missing `href` ends the scan: the elements after it change nothing. */
  lemma {:induction false} ScanHrefsPrefixFailure(elems: seq<Option<Anchor>>, view: string -> string, keep: string -> bool, j: nat)
    requires j <= |elems| && ScanHrefs(elems[..j], view, keep).Failure?
    ensures ScanHrefs(elems, view, keep).Failure?
    decreases |elems| - j
  {
    if j < |elems| {
      assert elems[..j + 1][..j] == elems[..j];
      ScanHrefsPrefixFailure(elems, view, keep, j + 1);
    } else {
      assert elems[..j] == elems;
    }
  }

  /** Document order is kept: scanning two parts of a page one after the
      other gives the scan of the whole. */
  lemma {:induction false} ScanHrefsAppend(a: seq<Option<Anchor>>, b: seq<Option<Anchor>>, view: string -> string, keep: string -> bool)
    requires ScanHrefs(a + b, view, keep).Success?
    ensures ScanHrefs(a, view, keep).Success? && ScanHrefs(b, view, keep).Success?
    ensures ScanHrefs(a + b, view, keep).value == ScanHrefs(a, view, keep).value + ScanHrefs(b, view, keep).value
  {
    if b == [] {
      assert a + b == a;
    } else {
      var b' := b[..|b| - 1];
      assert (a + b)[..|a + b| - 1] == a + b';
      ScanHrefsAppend(a, b', view, keep);
    }
  }

  // ---------------------------------------------------------------------
  // A worker pool mapping `download_file` over a job list

  /** Every job is attempted in order; each sees the files left by the
      previous ones. */
  function SyncRun(files: map<string, Bytes>, jobs: seq<Job>, fetch: string -> Response, hex: Md5Hex)
    : (r: (seq<Result<bool>>, map<string, Bytes>))
    ensures |r.0| == |jobs|
  {
    if jobs == [] then ([], files)
    else
      var (outs, files1) := SyncRun(files, jobs[..|jobs| - 1], fetch, hex);
      var job := jobs[|jobs| - 1];
      var (out, files2) := SyncFile(files1, job, fetch(job.url), hex);
      (outs + [out], files2)
  }

  /** `pool.starmap` returns the results in job order, or raises the first
      error. */
  function PoolResult(outs: seq<Result<bool>>): (r: Result<seq<bool>>)
    ensures r.Success? <==> forall i :: 0 <= i < |outs| ==> outs[i].Success?
    ensures r.Success? ==> |r.value| == |outs| && forall i :: 0 <= i < |outs| ==> r.value[i] == outs[i].value
    ensures r.Failure? ==> exists i :: 0 <= i < |outs| && outs[i] == Failure(r.error)
  {
    if outs == [] then Success([])
    else if outs[0].Failure? then Failure(outs[0].error)
    else
      var rest :- PoolResult(outs[1..]);
      Success([outs[0].value] + rest)
  }

  /** `pool.starmap(download_file, jobs)`, one job after another. */
  method SyncAll(files: Files, jobs: seq<Job>, fetch: string -> Response, hex: Md5Hex)
    returns (r: Result<seq<bool>>)
    modifies files
    ensures r == PoolResult(SyncRun(old(files.contents), jobs, fetch, hex).0)
    ensures files.contents == SyncRun(old(files.contents), jobs, fetch, hex).1
  {
    var outs: seq<Result<bool>> := [];
    var i := 0;
    while i < |jobs|
      invariant 0 <= i <= |jobs|
      invariant (outs, files.contents) == SyncRun(old(files.contents), jobs[..i], fetch, hex)
    {
      assert jobs[..i + 1][..i] == jobs[..i];
      var out := DownloadFile(files, jobs[i], fetch, hex);
      outs := outs + [out];
      i := i + 1;
    }
    assert jobs[..i] == jobs;
    r := PoolResult(outs);
  }

  /** Each job's outcome is that of `download_file` on the files left by
      the jobs before it. */
  lemma {:induction false} SyncRunOutcome(files: map<string, Bytes>, jobs: seq<Job>, fetch: string -> Response, hex: Md5Hex, i: int)
    requires 0 <= i < |jobs|
    ensures var before := SyncRun(files, jobs[..i], fetch, hex).1;
      SyncRun(files, jobs, fetch, hex).0[i] == SyncFile(before, jobs[i], fetch(jobs[i].url), hex).0
  {
    var init := jobs[..|jobs| - 1];
    if i < |init| {
      SyncRunOutcome(files, init, fetch, hex, i);
      assert init[..i] == jobs[..i];
    }
  }

  predicate AllChecked(jobs: seq<Job>) {
    forall i :: 0 <= i < |jobs| ==> jobs[i].checksum.Some?
  }

  /** Files that match their checksums stay so across a successful
      `download_file` of another path, and a successful checked download
      matches its own checksum. */
  lemma SyncFileKeepsVerified(files: map<string, Bytes>, jobs: seq<Job>, job: Job, resp: Response, hex: Md5Hex)
    requires job.checksum.Some? && SyncFile(files, job, resp, hex).0.Success?
    requires forall i :: 0 <= i < |jobs| ==>
      jobs[i].path != job.path && jobs[i].path in files && jobs[i].checksum == Some(hex(files[jobs[i].path]))
    ensures var files' := SyncFile(files, job, resp, hex).1;
      job.path in files' && job.checksum == Some(hex(files'[job.path])) &&
      forall i :: 0 <= i < |jobs| ==> jobs[i].path in files' && jobs[i].checksum == Some(hex(files'[jobs[i].path]))
  {
  }

  /** After a run in which every job succeeded, every file holds content
      whose digest is its job's checksum. */
  lemma {:induction false} SyncRunVerified(files: map<string, Bytes>, jobs: seq<Job>, fetch: string -> Response, hex: Md5Hex)
    requires AllChecked(jobs) && Distinct(Paths(jobs))
    requires forall i :: 0 <= i < |jobs| ==> SyncRun(files, jobs, fetch, hex).0[i].Success?
    ensures forall i :: 0 <= i < |jobs| ==>
      var files' := SyncRun(files, jobs, fetch, hex).1;
      jobs[i].path in files' && jobs[i].checksum == Some(hex(files'[jobs[i].path]))
  {
    if jobs != [] {
      var init := jobs[..|jobs| - 1];
      var (outs, files1) := SyncRun(files, init, fetch, hex);
      var job := jobs[|jobs| - 1];
      var step := SyncFile(files1, job, fetch(job.url), hex);
      var run := SyncRun(files, jobs, fetch, hex);
      assert run == (outs + [step.0], step.1);
      assert step.0 == run.0[|jobs| - 1];
      assert job.checksum.Some?;
      assert forall i :: 0 <= i < |init| ==> init[i] == jobs[i];
      forall i | 0 <= i < |init| ensures outs[i].Success? {
        assert run.0[i] == outs[i];
      }
      assert Paths(init) == Paths(jobs)[..|init|];
      SyncRunVerified(files, init, fetch, hex);
      forall i | 0 <= i < |init| ensures init[i].path != job.path {
        assert Paths(jobs)[i] != Paths(jobs)[|jobs| - 1];
      }
      SyncFileKeepsVerified(files1, init, job, fetch(job.url), hex);
      forall i | 0 <= i < |jobs|
        ensures jobs[i].path in step.1 && jobs[i].checksum == Some(hex(step.1[jobs[i].path]))
      {
        if i < |init| {
          assert jobs[i] == init[i];
        }
      }
    }
  }

  /** The outcomes of a run that downloads nothing: False for every job. */
  function NoDownloads(n: nat): (r: seq<Result<bool>>)
    ensures |r| == n && forall i :: 0 <= i < n ==> r[i] == Success(false)
  {
    if n == 0 then [] else NoDownloads(n - 1) + [Success(false)]
  }

  /** Running jobs whose files already hold content matching their
      checksums downloads nothing: every job reports False and no file
      changes. */
  lemma {:induction false} SyncRunSkipsVerified(files: map<string, Bytes>, jobs: seq<Job>, fetch: string -> Response, hex: Md5Hex)
    requires forall i :: 0 <= i < |jobs| ==> jobs[i].path in files && jobs[i].checksum == Some(hex(files[jobs[i].path]))
    ensures SyncRun(files, jobs, fetch, hex) == (NoDownloads(|jobs|), files)
    decreases |jobs|
  {
    if jobs != [] {
      var init := jobs[..|jobs| - 1];
      assert forall i :: 0 <= i < |init| ==> init[i] == jobs[i];
      SyncRunSkipsVerified(files, init, fetch, hex);
    }
  }

  /** Mirroring is idempotent: after a run in which every checked job
      succeeded, a second run reports no download and changes nothing. */
  lemma SyncRunIdempotent(files: map<string, Bytes>, jobs: seq<Job>, fetch: string -> Response, hex: Md5Hex)
    requires AllChecked(jobs) && Distinct(Paths(jobs))
    requires PoolResult(SyncRun(files, jobs, fetch, hex).0).Success?
    ensures var files' := SyncRun(files, jobs, fetch, hex).1;
      SyncRun(files', jobs, fetch, hex) == (NoDownloads(|jobs|), files')
  {
    SyncRunVerified(files, jobs, fetch, hex);
    SyncRunSkipsVerified(SyncRun(files, jobs, fetch, hex).1, jobs, fetch, hex);
  }
}
