# download_cats in Dafny

A model of the core of `download_cats`. This Python project loads large
astronomical catalogs into ClickHouse in two phases:

* **Mirroring.** Remote catalog files are mirrored to local disk with MD5
  checks. This is done by `download_cats/utils.py`, the per-catalog fetchers
  in `download_cats/`, and the stand-alone scripts `download_ztf_dr.py` and
  `download_catsHTM.py`.
* **Loading.** The files are bulk-loaded into ClickHouse through named
  pipeline *actions*. This is done by `put_cat_to_ch`: the action registry in
  `putter.py`, the `CHClient` helpers, and the ZTF, ZTF-metadata, catsHTM,
  2MASS, SDSS and PS1-STRM putters.

There is one Dafny module per source file. Three shared modules back them:

* `Common`: the Python exceptions as an `Error` datatype, `Result`, `Option`
  and extended integers.
* `PyStr`: `split`, `strip`, `lower`, `startswith`, `int()`, `str()` and path
  joining.
* `PyDict`: a Python dict as an insertion-ordered association list. A later
  write to an existing key overwrites the value in place.

How the model treats the things it cannot run:

* **MD5.** The digest is a function parameter `md5: Bytes -> string`. It is
  not an axiom. A running `Md5Context` keeps the bytes absorbed so far as its
  abstract state. Because of that, "hashing chunk by chunk equals hashing the
  whole file" is proved for `hash_file`, not assumed.
* **Filesystem.** The filesystem is a `Files` object holding a map from path
  to bytes.
* **Network.** A response is a value: the chunks of the body, or a status
  error. Fetching is a function parameter from URL to response.
* **Worker pools.** Thread, process and joblib pools run their jobs one after
  another in job order. Every job is attempted and an error is surfaced.
* **ClickHouse.** The server is a `Store` of databases and tables. Each table
  holds the batches inserted into it. `CHClient` renders the SQL texts the
  source sends, and the store model parses those texts back. This makes
  `CREATE … IF NOT EXISTS`, `DROP TABLE [IF EXISTS]` and `EXISTS TABLE` carry
  their ClickHouse meaning.
* **Imperative code.** Loops that update state stay loops. Examples are the
  chunk loops, the manifest and href scans, the readme scan, the selector loop
  and `_prepare_column_names_for_ch`. Each loop method is proved equal to a
  specification function, and the source's promises are lemmas about that
  function.

Where the code and its design notes disagree, the model follows the code:

* A missing `EXISTS TABLE` result makes `exists_table` raise `IndexError`.
  The code's `except KeyError` never catches it.
* In `download_cats/des.py`, bs4's `a['href']` raises `KeyError` for an
  anchor without an href. It never yields None, so the None check after it
  is dead code.
* With fewer rows than workers plus one, `ztf_metadata` computes a chunk
  step of 0. `np.arange` with step 0 raises `ZeroDivisionError`, and so does
  the model, instead of splitting.
* No retry loop exists. The `retries=3` argument at
  `download_cats/cats_htm.py:43` is a `TypeError` (see Findings).

## Model

| member | source | states |
|---|---|---|
| DownloadUtils.ReadChunk | download_cats/utils.py:21 | a read returns the bytes at the current offset: everything left for a negative size, otherwise exactly `size` bytes or what is left |
| DownloadUtils.Files.Create | download_cats/utils.py:63 | opening for writing creates the file or truncates it to empty; no other file changes |
| DownloadUtils.Files.Append | download_cats/utils.py:76 | a write appends the chunk to that file only |
| DownloadUtils.Md5Context.Update | download_cats/utils.py:24 | the MD5 state has absorbed the old stream followed by the chunk |
| DownloadUtils.HashFile | download_cats/utils.py:12-25 | None exactly for a missing path; otherwise the digest of the whole file content, however it is chunked (of the empty stream for chunk size 0), and the filesystem is unchanged |
| DownloadUtils.FileDownloader.constructor | download_cats/utils.py:51-60 | keeps url, path and checksum; a running MD5 is created exactly when a checksum is given |
| DownloadUtils.FileDownloader.WritePlain | download_cats/utils.py:75-76 | the chunk is appended to the destination file |
| DownloadUtils.FileDownloader.WriteAndSum | download_cats/utils.py:78-80 | the chunk is appended to the file and absorbed by the MD5 state |
| DownloadUtils.FileDownloader.Write | download_cats/utils.py:56-60 | the writer bound by the constructor: appends the chunk, and feeds the MD5 state only when a checksum is set |
| DownloadUtils.FileDownloader.Enter | download_cats/utils.py:62-69 | the file is truncated before the request; an HTTP error status leaves it empty and raises HTTPError; otherwise it holds all chunks in order, and a checksum different from their digest raises ValueError('md5 checksum mismatch') |
| DownloadUtils.SyncFile | download_cats/utils.py:83-97 | only the job's path changes; False exactly when the file exists and its digest equals the checksum, and then nothing changes; True leaves the response body in the file, matching the checksum when one is given |
| DownloadUtils.DownloadFile | download_cats/utils.py:83-97 | the method (existence check, `hash_file`, `FileDownloader`) returns and leaves exactly what `SyncFile` states |
| DownloadUtils.SyncFileIdempotent | download_cats/utils.py:93-95 | after a successful checked download, the next call returns False and changes nothing, whatever the server answers |
| DownloadUtils.SyncFileAsWrittenNeverTrue | download_cats/utils.py:71-73 | with `__exit__` taking no exception arguments, the call can never return True: a fresh good download writes the file and then raises TypeError |
| DownloadUtils.SyncFileAsWritten | download_cats/utils.py:71-73 | `download_file` with the one-argument `__exit__`: the corrected outcome, except that a download that would return True raises TypeError; stated by `SyncFileAsWrittenNeverTrue` |
| DownloadUtils.ChecksumManifest | download_cats/utils.py:100-106 | a parsed manifest is a dict with unique keys; a failure is a ValueError |
| DownloadUtils.ManifestEntriesFailure | download_cats/utils.py:103-104 | parsing the lines fails exactly when some line does not split into two fields, and the error is a ValueError |
| DownloadUtils.ManifestEntries | download_cats/utils.py:103-104 | each line split on whitespace into checksum and filename; stated by `ManifestEntriesFailure`, `ManifestEntriesPrefixFailure` and `ManifestLineSplit` |
| DownloadUtils.ChecksumManifestSpec | download_cats/utils.py:100-106 | the manifest parses iff every line has exactly two fields; the dict then maps each line's second field to its first, a later line for the same file winning |
| DownloadUtils.ManifestEntriesPrefixFailure | download_cats/utils.py:103-104 | the first bad line ends parsing: later lines do not change the outcome |
| DownloadUtils.ParseChecksums | download_cats/utils.py:100-106 | the line-by-line loop filling the dict returns `ChecksumManifest(s)` |
| DownloadUtils.ManifestLineSplit | download_cats/utils.py:104 | an `md5sum` line `checksum  filename` has no newline and splits into checksum then filename |
| DownloadUtils.ManifestRoundTrip | download_cats/utils.py:100-106 | parsing a manifest written in `md5sum` format gives back its entries as a dict |
| DownloadUtils.ManifestJobs | download_cats/gaia_dr.py:29-30 | at most one job per manifest entry, each carrying a checksum; every job comes from a kept entry, and every kept entry gives its `(urljoin, os.path.join, checksum)` job |
| DownloadUtils.ManifestJobsKeepAll | download_cats/ztf_dr_lc.py:30-31 | without a filter every entry gives its job, in manifest order |
| DownloadUtils.ManifestJobsDistinctPaths | download_cats/gaia_dr.py:29-30 | the relative filenames of a dict give pairwise distinct destination paths |
| DownloadUtils.ScanHrefs | download_cats/galex.py:27-37 | a failure is KeyError('href'); the kept hrefs are no more than the elements and all pass the filter |
| DownloadUtils.ScanHrefsSpec | download_cats/galex.py:27-35 | the scan fails iff some `<a>` has no href; otherwise an href is kept iff some anchor's viewed href passes the filter |
| DownloadUtils.ScanHrefsPrefixFailure | download_cats/galex.py:28 | the first anchor without href ends the scan; later elements change nothing |
| DownloadUtils.ScanHrefsAppend | download_cats/galex.py:27 | scanning a page in two parts, one after the other, is scanning the whole page |
| DownloadUtils.SyncRun | download_cats/gaia_dr.py:26-32 | one outcome per job |
| DownloadUtils.PoolResult | download_cats/gaia_dr.py:27-32 | the pool succeeds iff every job did, then with the results in job order; otherwise it raises the error of one of the jobs |
| DownloadUtils.SyncAll | download_cats/gaia_dr.py:26-32 | running the jobs one after another returns the pool result of `SyncRun` and leaves its files |
| DownloadUtils.SyncRunOutcome | download_cats/gaia_dr.py:27-32 | job i's outcome is `download_file` on the files left by the jobs before it |
| DownloadUtils.SyncFileKeepsVerified | download_cats/utils.py:93-97 | a successful checked download of one path keeps the other verified files verified, and its own file matches its checksum |
| DownloadUtils.SyncRunVerified | download_cats/gaia_dr.py:26-32 | after a run in which every checked job succeeded, every destination holds content whose digest is its checksum |
| DownloadUtils.SyncRunSkipsVerified | download_cats/utils.py:93-95 | jobs whose files already match their checksums report False each and change no file |
| DownloadUtils.SyncRunIdempotent | download_cats/utils.py:93-97 | re-running a successful checked mirror reports no download and leaves the files as they were |
| ZtfDrDownload.DownloadSpec | download_ztf_dr.py:35-47 | a file whose digest equals the checksum is left alone; an HTTP error raises and changes nothing; otherwise only the path changes, to the response body; the call succeeds iff the path then holds content matching the checksum |
| ZtfDrDownload.Download | download_ztf_dr.py:35-47 | the method (hash, request, chunked write with a running MD5, final assert) returns and leaves what `DownloadSpec` states |
| ZtfDrDownload.DownloadIdempotent | download_ztf_dr.py:36-38 | after a successful `download`, a second one changes nothing and succeeds, whatever the server answers |
| ZtfDrDownload.MainJobsSpec | download_ztf_dr.py:63-67 | one job per manifest entry, in manifest order, each `(urljoin(BASE_URL, f), os.path.join(DATA_ROOT, f), checksum)`, with pairwise distinct paths |
| ZtfDrDownload.MainJobs | download_ztf_dr.py:63-67 | the jobs of `main`, one per manifest entry with nothing filtered; stated by `MainJobsSpec` |
| ZtfDrDownload.DownloadRun | download_ztf_dr.py:62-68 | one outcome per job |
| ZtfDrDownload.FirstError | download_ztf_dr.py:62-68 | no error iff every job succeeded; an error raised is one of the jobs' errors |
| ZtfDrDownload.RunDownloads | download_ztf_dr.py:62-68 | every job is attempted in order on the files the earlier ones left; the result is the first error, if any |
| ZtfDrDownload.Mirror | download_ztf_dr.py:58-68 | a malformed manifest raises before any file changes; otherwise the files are those of the run over the manifest's jobs and the first job error, if any, is raised |
| CatsHtmScript.WgetEntriesSpec | download_catsHTM.py:72 | taking each line's last field fails with IndexError exactly when some line is blank; otherwise every line gives `(basename(last field), last field)` |
| CatsHtmScript.WgetUrlsSpec | download_catsHTM.py:71-73 | the URL dict is keyed by the basename of each line's last field, a later line replacing an earlier one with the same basename; a blank line raises IndexError |
| CatsHtmScript.WgetEntries | download_catsHTM.py:72 | each line's last field with its basename; stated by `WgetEntriesSpec` |
| CatsHtmScript.WgetUrls | download_catsHTM.py:71-73 | the URL dict of the wget script; stated by `WgetUrlsSpec` |
| CatsHtmScript.StepSpec | download_catsHTM.py:81-84 | a step fails only on an HTTP error for a file whose digest is not the checksum; the request precedes the open, so the files are either unchanged or have the path replaced by the body; no digest is checked after download |
| CatsHtmScript.CallRejectsMismatch | download_catsHTM.py:78 | when the script and the manifest name different file sets, the assertion fails and nothing is fetched or written |
| CatsHtmScript.DistinctTargets | download_catsHTM.py:80-81 | distinct plain filenames of the URL dict give distinct paths under the destination directory |
| CatsHtmScript.StepOutcome | download_catsHTM.py:81-84 | a step without error leaves its file present, holding either content matching the checksum or the body, and no other file changed |
| CatsHtmScript.LoopOutcome | download_catsHTM.py:80-84 | after a loop without error every listed file is present and either matches its checksum or holds its URL's body |
| CatsHtmScript.LoopFrame | download_catsHTM.py:80-84 | the loop changes no file other than `dest/filename` for the listed filenames |
| CatsHtmScript.LoopStops | download_catsHTM.py:80-84 | an exception ends the loop: the later entries change nothing |
| CatsHtmScript.Downloader.constructor | download_catsHTM.py:33-39 | keeps the catalog name; the destination is `os.path.join(DATA_ROOT, name)`; the read chunk is 1 << 14 |
| CatsHtmScript.Downloader.HashFile | download_catsHTM.py:46-58 | None for a missing file, else the digest of its whole content, read chunk by chunk |
| CatsHtmScript.Downloader.DownloadFile | download_catsHTM.py:60-66 | an HTTP error raises and leaves the files unchanged; otherwise the file holds the body, chunk after chunk |
| CatsHtmScript.Downloader.DownloadAll | download_catsHTM.py:80-84 | the loop over the URL dict returns and leaves exactly what `LoopSpec` states |
| CatsHtmScript.Downloader.Call | download_catsHTM.py:68-84 | parse the script and the manifest, check their file sets agree, then run the loop, as `CallSpec` states |
| CatsHtmScript.CallSpec | download_catsHTM.py:68-84 | `Downloader.__call__` as a function: parse the wget script and the manifest, assert equal file sets, then download in order; `Downloader.Call` is proved equal to it |
| CatsHtmFetch.CatalogList | download_cats/cats_htm.py:17-24 | one argument row per table row, keeping the catalog name, with `dest/Name` and both URLs joined to `BASE_URL` |
| CatsHtmFetch.CatalogListDest | download_cats/cats_htm.py:21 | each catalog's directory is named after it, so distinct catalogs get distinct directories |
| CatsHtmFetch.SelectRows | download_cats/cats_htm.py:66 | the filter keeps only rows whose lowercased name is selected, and keeps each such row; it is never longer than the table |
| CatsHtmFetch.SelectRowsSpec | download_cats/cats_htm.py:54-56 | a row is fetched iff its lowercased name equals a requested name lowercased, or `all` in any case was requested |
| CatsHtmFetch.MakeSelection | download_cats/cats_htm.py:54-56 | the option values lowercased, or everything when one of them is `all`; what it selects is stated by `SelectRowsSpec` |
| CatsHtmFetch.SelectRowsAppend | download_cats/cats_htm.py:66 | the filter distributes over concatenation, so the selected rows keep their table order |
| CatsHtmFetch.SelectRowsCount | download_cats/cats_htm.py:66 | a selected row occurs in the result as often as in the table, and an unselected one never |
| CatsHtmFetch.SelectRowsOne | download_cats/cats_htm.py:66 | a one-row table gives that row exactly when it is selected |
| CatsHtmFetch.FileJobs | download_cats/cats_htm.py:41-43 | one `download_file` call per filename of the URL dict, in its order |
| CatsHtmFetch.RunUntilError | download_cats/cats_htm.py:41-43 | the download loop as a function: each file in order on the files the earlier ones left, stopping at the first exception; its properties are `RunUntilErrorComplete` and `RunUntilErrorStops` |
| CatsHtmFetch.RunUntilErrorComplete | download_cats/cats_htm.py:41-43 | a loop that ran to the end did what a pool of `download_file` calls does, with every call succeeding |
| CatsHtmFetch.DownloadCatalog | download_cats/cats_htm.py:27-43 | parse the wget script and the manifest, check their file sets agree, then download each file under its manifest checksum, as `CatalogSpec` states |
| CatsHtmFetch.CatalogSpec | download_cats/cats_htm.py:27-43 | `download_catalog` with the corrected call: the wget script and the manifest are parsed, their file sets compared, then the loop runs; `DownloadCatalog` is proved equal to it and `CatalogVerified` states its outcome |
| CatsHtmFetch.RunJobs | download_cats/cats_htm.py:41-43 | one `download_file` per job in order, stopping at the first error |
| CatsHtmFetch.RunUntilErrorStops | download_cats/cats_htm.py:41-43 | the first error ends the loop: the later jobs change nothing |
| CatsHtmFetch.FileJobsDistinct | download_cats/cats_htm.py:41-43 | with matching file sets, every job has a checksum and the paths are pairwise distinct |
| CatsHtmFetch.FileJobsVerified | download_cats/cats_htm.py:41-43 | after a loop without error each listed file sits at `dest/filename` with the digest the manifest gives |
| CatsHtmFetch.CatalogVerified | download_cats/cats_htm.py:27-43 | a catalog downloaded without error is a verified mirror, and downloading it again fetches nothing |
| CatsHtmFetch.CatalogAsWrittenFails | download_cats/cats_htm.py:43 | with the unknown `retries` keyword the first call raises TypeError: no file is ever written, and a consistent non-empty catalog always fails |
| CatsHtmFetch.CatalogAsWritten | download_cats/cats_htm.py:27-43 | `download_catalog` as written, with the rejected `retries` keyword; its outcome is stated by `CatalogAsWrittenFails` |
| GaiaDrFetch.UrlsSpec | download_cats/gaia_dr.py:20-21 | the release, lowercased by the option parser, names the directory `g<dr>`, and the manifest `_MD5SUM.txt` sits in it |
| GaiaDrFetch.ParseDr | download_cats/gaia_dr.py:36 | `type=str.lower` on `--dr`; the release it gives names the directory, as `UrlsSpec` states |
| GaiaDrFetch.JobsSpec | download_cats/gaia_dr.py:29-30 | exactly the `.csv.gz` manifest entries become jobs `(base + fname, dest/fname, checksum)`, with distinct paths |
| GaiaDrFetch.Fetch | download_cats/gaia_dr.py:23-32 | a malformed manifest raises before any file changes; otherwise the pool result and the files are those of running the jobs in order |
| ZtfDrLcFetch.JobsSpec | download_cats/ztf_dr_lc.py:30-31 | one job `(base + fname, dest/fname, checksum)` per manifest entry, in manifest order, with distinct paths |
| ZtfDrLcFetch.Fetch | download_cats/ztf_dr_lc.py:24-33 | a malformed manifest raises before any file changes; otherwise the pool result and the files are those of running the jobs in order |
| Ps1StrmFetch.JobsSpec | download_cats/ps1_strm.py:26-27 | exactly the `.csv.gz` manifest entries become jobs `(base + fname, dest/fname, checksum)`, one each, with distinct paths |
| Ps1StrmFetch.Fetch | download_cats/ps1_strm.py:20-29 | a malformed manifest raises before any file changes; otherwise the pool result and the files are those of running the jobs in order |
| GalexFetch.GetUrlsFilenames | download_cats/galex.py:21-38 | an anchor without href raises KeyError; otherwise the kept hrefs in page order, each with its last `/`-segment as filename |
| GalexFetch.KeptSpec | download_cats/galex.py:29-37 | every kept URL starts with the catalog directory, ends in `.fits.gz` but not `FUV.fits.gz`, and its filename has no `/` and ends it |
| GalexFetch.HrefJobs | download_cats/galex.py:43-45 | one job per kept URL, with `dest/filename` and no checksum |
| GalexFetch.Fetch | download_cats/galex.py:40-45 | a missing href raises before any file changes; otherwise the pool result and the files are those of the unchecked download run |
| TwomassFetch.GetFilenames | download_cats/twomass.py:20-29 | the loop returns the hrefs ending in `.gz`, in page order, or KeyError for an anchor without href |
| TwomassFetch.Jobs | download_cats/twomass.py:37 | one job `(urljoin(base_url, f), dest/f)` per filename, without a checksum |
| TwomassFetch.JobsAlwaysDownload | download_cats/utils.py:93-97 | without a checksum every job downloads, even over an existing file: no job of a successful run reports a skip |
| TwomassFetch.Fetch | download_cats/twomass.py:31-39 | a missing href raises before any file changes; otherwise the pool result and the files are those of the unchecked download run |
| DesFetch.GetUrlsFilenames | download_cats/des.py:25-42 | KeyError for an `<a>` without href; otherwise, for each `DES` tile in page order, its URL `base + name/filename` and filename `unquote(name)_dr2_main.fits` |
| DesFetch.FilenameNoSlash | download_cats/des.py:39 | the filename of a plain tile name holds no `/` |
| DesFetch.TileFileSpec | download_cats/des.py:39-40 | filenames end in `_dr2_main.fits` whatever the release, and the URL's last segment is the filename |
| DesFetch.TileJobs | download_cats/des.py:48-50 | one job per tile, with `dest/filename` and no checksum |
| DesFetch.Fetch | download_cats/des.py:44-50 | a missing href raises KeyError, and a page without tiles fails the assertion, both before any download; otherwise the pool result and files of the unchecked run |
| PutCatMain.LogLevel | put_cat_to_ch/__main__.py:22-31 | the level is one of DEBUG, INFO, WARNING, ERROR, and ERROR exactly when no `-v` was given |
| PutCatMain.LogLevelSteps | put_cat_to_ch/__main__.py:23-30 | each `-v` lowers the threshold by one level of 10, from ERROR down to DEBUG, where it stays |
| PutCatMain.MoreVerboseShowsMore | put_cat_to_ch/__main__.py:22-31 | more `-v` flags never hide a record that fewer flags show |
| PutCatMain.EmittedBounds | put_cat_to_ch/__main__.py:22-31 | ERROR records are always emitted, DEBUG records exactly from `-vvv` on |
| PutCatMain.ParseOnExists | put_cat_to_ch/__main__.py:15 | the value, lowercased, is accepted iff it is `fail`, `keep` or `drop`, and is then the lowercased value; otherwise a usage error |
| PutCatMain.ParseOnExistsIdempotent | put_cat_to_ch/__main__.py:15 | an accepted policy parses again to itself |
| PutCatMain.ParseOnExistsCaseInsensitive | put_cat_to_ch/__main__.py:15 | values equal up to case parse alike |
| PutCatMain.DefaultOnExists | put_cat_to_ch/__main__.py:15 | the default `fail` is accepted |
| ClassUtils.SubclassesOfAllMembers | put_cat_to_ch/utils.py:2 | the union over the direct subclasses holds exactly the subclasses of one of them |
| ClassUtils.Subclasses | put_cat_to_ch/utils.py:1-2 | `subclasses(cls)`: the direct subclasses and, recursively, theirs; `SubclassesAreDescendants` and `SubclassesClosed` state that this is exactly the set of descendants |
| ClassUtils.SubclassesStep | put_cat_to_ch/utils.py:2 | `x` is a subclass of `c` iff it is a direct subclass or a subclass of a direct subclass |
| ClassUtils.SubclassesDescend | put_cat_to_ch/utils.py:1-2 | every member of `subclasses(c)` descends from `c` along a chain of direct subclasses |
| ClassUtils.ChainInSubclasses | put_cat_to_ch/utils.py:1-2 | every class at the end of a chain from `c` is in `subclasses(c)` |
| ClassUtils.SubclassesAreDescendants | put_cat_to_ch/utils.py:1-2 | `subclasses(c)` is exactly the set of proper descendants of `c` |
| ClassUtils.DirectSubclasses | put_cat_to_ch/utils.py:2 | every direct subclass is in the result |
| ClassUtils.SubclassesAfter | put_cat_to_ch/utils.py:1-2 | a class is never its own subclass, and every member lies in the hierarchy |
| ClassUtils.SubclassesClosed | put_cat_to_ch/utils.py:1-2 | a direct subclass of a member is a member |
| ClassUtils.Diamond | put_cat_to_ch/utils.py:1-2 | in a diamond the bottom class, reached along two chains, is one member of the set |
| ChClient.Entries | put_cat_to_ch/ps1_strm/__init__.py:96 | one `name type` entry per column, in the order of the columns dict |
| ChClient.ColumnsStrSingle | put_cat_to_ch/ps1_strm/__init__.py:95-96 | a single column is its entry, with no separator |
| ChClient.ColumnsStrSnoc | put_cat_to_ch/ps1_strm/__init__.py:95-96 | declaring one more column appends `,\n    ` and its entry, so the text lists the columns in declaration order |
| ChClient.ColumnsStr | put_cat_to_ch/sdss/__init__.py:99-100 | `ch_columns_str`: the `name type` entries joined by `,\n    `; stated by `ColumnsStrSingle` and `ColumnsStrSnoc` |
| ChClient.QualifiedNameToken | put_cat_to_ch/ch_client.py:36 | `db.table` of two identifiers is one word and reads back as that table |
| ChClient.SplitThree | put_cat_to_ch/ch_client.py:30 | three words joined by single spaces split back into those words |
| ChClient.IfExistsWords | put_cat_to_ch/ch_client.py:16-19 | `if_exists(x)` contributes the words `IF EXISTS` when x holds and nothing otherwise |
| ChClient.IfExists | put_cat_to_ch/ch_client.py:16-19 | `if_exists`; stated by `IfExistsWords` |
| ChClient.IfNotExistsWords | put_cat_to_ch/ch_client.py:23-26 | `if_not_exists(x)` contributes `IF NOT EXISTS` when x holds and nothing otherwise |
| ChClient.IfNotExists | put_cat_to_ch/ch_client.py:23-26 | `if_not_exists`; stated by `IfNotExistsWords` |
| ChClient.CreateDbWords | put_cat_to_ch/ch_client.py:30 | the create-database query is the words `CREATE DATABASE IF NOT EXISTS db` |
| ChClient.ParseCreateDbQuery | put_cat_to_ch/ch_client.py:28-31 | `create_db` always asks for `IF NOT EXISTS` on the named database |
| ChClient.DropWords | put_cat_to_ch/ch_client.py:35-36 | the drop query is `DROP TABLE`, then the words of `if_exists`, then `db.table` |
| ChClient.ParseDropTableQuery | put_cat_to_ch/ch_client.py:33-37 | `drop_table` sends `IF EXISTS` exactly when `not_exists_ok` is set |
| ChClient.ParseExistsTableQuery | put_cat_to_ch/ch_client.py:42 | `EXISTS TABLE db.table` asks about that table |
| ChClient.CreateTableWords | put_cat_to_ch/ch_client.py:61-69 | a filled `CREATE TABLE` template is `CREATE TABLE`, the words of `if_not_exists`, `db.table`, then the body |
| ChClient.ParseCreateTableQuery | put_cat_to_ch/ch_client.py:61-69 | a `CREATE TABLE` template carries `IF NOT EXISTS` exactly when asked to |
| ChClient.ParseStatement | put_cat_to_ch/ch_client.py:28-42 | how the server reads a query text; the `Parse*Query` lemmas state that each text `CHClient` renders reads back as the statement it means |
| ChClient.Apply | put_cat_to_ch/ch_client.py:71-73 | what the server does with a statement; `ApplyConsistent`, `CreateDbIdempotent` and `ExistsAnswer` state its effects |
| ChClient.ApplyConsistent | put_cat_to_ch/ch_client.py:71-73 | no statement leaves a table without its database |
| ChClient.CreateDbIdempotent | put_cat_to_ch/ch_client.py:28-31 | `create_db` adds the database and no table, and a second `create_db` changes nothing |
| ChClient.DecodeExistsSpec | put_cat_to_ch/ch_client.py:45-59 | a first value 1 reads as True, 0 as False, any other value raises RuntimeError |
| ChClient.DecodeExists | put_cat_to_ch/ch_client.py:45-59 | the reading of an `EXISTS TABLE` result; stated by `DecodeExistsSpec` |
| ChClient.ExistsAnswer | put_cat_to_ch/ch_client.py:39-59 | the answer to `EXISTS TABLE` reads back as membership of the table, and the store is unchanged |
| ChClient.CHClient.constructor | put_cat_to_ch/ch_client.py:10-12 | the client starts on the given server state |
| ChClient.CHClient.Execute | put_cat_to_ch/ch_client.py:71-73 | the query's statement is applied to the server state and its rows returned |
| ChClient.CHClient.CreateDb | put_cat_to_ch/ch_client.py:28-31 | afterwards the database exists, whatever was there, and no table changed |
| ChClient.CHClient.DropTable | put_cat_to_ch/ch_client.py:33-37 | the table is gone afterwards; a missing table is an error unless `not_exists_ok` |
| ChClient.CHClient.ExistsTable | put_cat_to_ch/ch_client.py:39-59 | True exactly when the table exists; the store does not change |
| ChClient.CHClient.CreateTable | put_cat_to_ch/ch_client.py:66-69 | succeeds iff the database exists and the table is new or `IF NOT EXISTS` was asked; a new table starts empty, an existing one is kept |
| ChClient.CHClient.Insert | put_cat_to_ch/shell_runner.py:11-15 | the table receives the batch at its end, or the server reports UNKNOWN_TABLE and nothing changes |
| Putter.ActionMethods | put_cat_to_ch/putter.py:20-28 | the `actions` dict built by the loop over the class body has unique keys |
| Putter.ActionMethodsSpec | put_cat_to_ch/putter.py:20-28 | `actions[k]` is exactly the function attribute `action_<k>`; an `action_` attribute that is not a function is left out |
| Putter.OtherActions | put_cat_to_ch/putter.py:38 | holds exactly the actions that are not defaults |
| Putter.Entries | put_cat_to_ch/putter.py:37-38 | the comprehension's pairs follow the given names, each with its method from `actions` |
| Putter.NoneMissed | put_cat_to_ch/putter.py:32-38 | when no default is missed, every name of the reordering has a method |
| Putter.CreateClass | put_cat_to_ch/putter.py:13-42 | the loop over the body, the defaults check and the reordering give exactly `MetaNew(body)` |
| Putter.MetaNew | put_cat_to_ch/putter.py:30-38 | `PutterMeta.__new__`: NotImplementedError for default actions without a method, else the registry with the defaults first; stated by `MetaNewRejectsMissing` and `MetaNewRegistry` |
| Putter.MetaNewRejectsMissing | put_cat_to_ch/putter.py:30-34 | creation fails exactly when some default has no method, raising NotImplementedError that names exactly those defaults |
| Putter.NoDefaultsAccepted | put_cat_to_ch/putter.py:30 | a body without `default_actions` gets `()` and is always accepted |
| Putter.DefinedDefaultsAccepted | put_cat_to_ch/putter.py:32-34 | a body is accepted when each default names an `action_` function attribute |
| Putter.ActionAttrs | put_cat_to_ch/putter.py:53-60 | one `action_<name>` method per name, in order |
| Putter.ActionKeysDistinct | put_cat_to_ch/putter.py:21-28 | distinct action names give distinct attribute names |
| Putter.ActionKeysFresh | put_cat_to_ch/putter.py:21-23 | no `action_` attribute clashes with a plain attribute |
| Putter.ActionBodyValid | put_cat_to_ch/putter.py:20-28 | plain attributes followed by one `action_` method per distinct name form a dict with unique keys |
| Putter.ActionBodyAccepted | put_cat_to_ch/putter.py:32-34 | such a body is accepted when every default is one of the names |
| Putter.MetaNewRegistry | put_cat_to_ch/putter.py:36-38 | the registry holds the same methods as `actions`, the defaults first in their declared order and every other action after them |
| Putter.RegistryProperties | put_cat_to_ch/putter.py:37-38 | the reordered dict has the same keys and methods, and starts with the defaults |
| Putter.RegistrySameMethods | put_cat_to_ch/putter.py:37-38 | the reordering keeps every key and its method |
| Putter.EntriesCover | put_cat_to_ch/putter.py:37-38 | the reordering's pairs cover exactly the keys of `actions` |
| Putter.EntriesGet | put_cat_to_ch/putter.py:37-38 | each key reads the same method after the reordering |
| Putter.RegistryDefaultsFirst | put_cat_to_ch/putter.py:37-38 | the first keys of the reordered dict are the defaults, in order |
| Putter.OtherActionsDistinct | put_cat_to_ch/putter.py:38 | the non-default actions are listed without repeats |
| Putter.ExampleActions | put_cat_to_ch/putter.py:49-60 | the example body registers `a`, `b` and `x` |
| Putter.ExampleRegistry | put_cat_to_ch/putter.py:49-60 | the example class is created and its registry lists `x`, `a`, then `b` |
| Putter.Call | put_cat_to_ch/putter.py:7-9 | the loop runs the named actions one after another, as `CallSpec` states |
| Putter.CallSpec | put_cat_to_ch/putter.py:7-9 | `_putter_call` as a function: the registry entries run in the order of `actions`, a missing name raising KeyError and the first failing action stopping the rest; `Call` is proved equal to it |
| Putter.CallRunsInOrder | put_cat_to_ch/putter.py:7-9 | with every name registered and no action raising, each named action runs once, in the caller's order |
| Putter.CallStopsAtUnknown | put_cat_to_ch/putter.py:7-9 | an unregistered name raises KeyError after the actions before it have run, and nothing after it runs |
| ZtfPut.DrNameIdent | put_cat_to_ch/ztf/__init__.py:66-87 | `dr<dr><tail>` with a clean tail is an identifier the server reads back as written |
| ZtfPut.TableNamesIdent | put_cat_to_ch/ztf/__init__.py:66-87 | the database and all six table names are identifiers |
| ZtfPut.DrNameInjective | put_cat_to_ch/ztf/__init__.py:66-87 | different tails give different table names for one release |
| ZtfPut.TableNamesDistinct | put_cat_to_ch/ztf/__init__.py:66-87 | the six tables never share a name, so dropping or filling one never touches another |
| ZtfPut.CreateWithPolicySpec | put_cat_to_ch/ztf/__init__.py:89-115 | `fail` refuses an existing table, `keep` keeps its rows, `drop` replaces it by an empty one; any other policy raises ValueError and leaves the catalogue alone; a missing database is an error under every policy |
| ZtfPut.CreateWithPolicy | put_cat_to_ch/ztf/__init__.py:152-160 | `create_*_table(on_exists)`: the policy, then `CREATE TABLE`; stated by `CreateWithPolicySpec` and `CreatedExists` |
| ZtfPut.OnExists | put_cat_to_ch/ztf/__init__.py:89-115 | `process_on_exists`: a known policy succeeds and only `keep` returns `exists_ok`; only `drop` removes the table, and nothing else in the catalogue changes |
| ZtfPut.CreatedExists | put_cat_to_ch/ztf/__init__.py:152-160 | after a successful creation the table exists, empty except when `keep` found it with rows |
| ZtfPut.CreateAndFillOutcome | put_cat_to_ch/ztf/__init__.py:343-370 | after a successful group the table holds exactly the new batches, preceded by its old rows only for `keep` of an existing table; every other table is unchanged |
| ZtfPut.Levels | put_cat_to_ch/ztf/__init__.py:261 | `linspace(0, 1, parts, endpoint=False)[1:]` is the levels i/parts for i = 1 .. parts-1 |
| ZtfPut.LevelsRange | put_cat_to_ch/ztf/__init__.py:261 | the levels lie strictly between 0 and 1 and increase |
| ZtfPut.QuantileGridSpec | put_cat_to_ch/ztf/__init__.py:245-265 | parts < 1 raises ValueError; one part gives [-inf, +inf] without a query; otherwise the grid exists iff the quantiles strictly increase, and is then -inf, the quantiles, +inf, parts + 1 points |
| ZtfPut.QuantileGrid | put_cat_to_ch/ztf/__init__.py:245-265 | a non-positive part count is a ValueError; a grid runs from -inf to +inf with finite points between |
| ZtfPut.PartBatches | put_cat_to_ch/ztf/__init__.py:267-279 | one insert query per consecutive pair of grid points |
| ZtfPut.PartBatchesTile | put_cat_to_ch/ztf/__init__.py:267-279 | the parts tile the oid line: the first starts at -inf, each ends where the next begins, the last ends at +inf, and none is empty |
| ZtfPut.FieldNumberOfName | put_cat_to_ch/ztf/__init__.py:117-122 | the number written after `field` in a file's basename is read back |
| ZtfPut.FieldNumber | put_cat_to_ch/ztf/__init__.py:118-122 | a number is found exactly when the basename starts with `field` and an ASCII digit; otherwise AttributeError |
| ZtfPut.TarGzStem | put_cat_to_ch/ztf/__init__.py:132 | the two `splitext` calls strip both extensions of `<stem>.tar.gz` |
| ZtfPut.TarGzToCsvName | put_cat_to_ch/ztf/__init__.py:129-135 | the archive `<dir>/<stem>.tar.gz` becomes `<csv_dir>/<stem>.csv` |
| ZtfPut.TarGzToCsv | put_cat_to_ch/ztf/__init__.py:129-135 | only a `.tar.gz` path passes the assertion, and it becomes a `.csv` path |
| ZtfPut.CsvFiles | put_cat_to_ch/ztf/__init__.py:137-140 | succeeds iff every archive ends in `.tar.gz`, the assertion failing otherwise; then one CSV path per archive, in order |
| ZtfPut.FieldNumbers | put_cat_to_ch/ztf/__init__.py:190 | succeeds iff every path has a field number, giving them in order |
| ZtfPut.MinOf | put_cat_to_ch/ztf/__init__.py:192 | `min` of no numbers raises ValueError; otherwise a member no greater than any |
| ZtfPut.MaxOf | put_cat_to_ch/ztf/__init__.py:194 | `max` of no numbers raises ValueError; otherwise a member no smaller than any |
| ZtfPut.KeepMembers | put_cat_to_ch/ztf/__init__.py:195 | a path is kept iff its field number lies between the bounds, both included |
| ZtfPut.CsvRangeKeep | put_cat_to_ch/ztf/__init__.py:189-195 | with a bound given and the numbers parsed, the range keeps the paths between the bounds, a missing bound taken from `min`/`max` of the numbers |
| ZtfPut.CsvRangeUnbounded | put_cat_to_ch/ztf/__init__.py:188-189 | with no bound every path is kept and no name is parsed |
| ZtfPut.CsvRangeSpec | put_cat_to_ch/ztf/__init__.py:186-195 | the range is inclusive at both ends and a missing bound leaves that side open |
| ZtfPut.CsvRangeErrors | put_cat_to_ch/ztf/__init__.py:189-194 | once a bound is given, a file without a field number raises AttributeError, and with no files a missing bound makes `min`/`max` raise ValueError |
| ZtfPut.CsvRange | put_cat_to_ch/ztf/__init__.py:186-195 | with no bound every path is kept; otherwise the result is a sub-list of the paths |
| ZtfPut.WithinDefaults | put_cat_to_ch/ztf/__init__.py:189-194 | an open bound admits every file, since it is the least or greatest field number |
| ZtfPut.RemoveAllSpec | put_cat_to_ch/ztf/__init__.py:199-203 | for distinct paths, removal succeeds iff every file is there, and then exactly those files are gone |
| ZtfPut.SelectSpec | put_cat_to_ch/ztf/__init__.py:343-370 | which groups run depends only on which names `actions` holds, not on their order or repetition |
| ZtfPut.SelectPrefix | put_cat_to_ch/ztf/__init__.py:343-370 | a prefix of the groups selects a prefix of the selection |
| ZtfPut.Select | put_cat_to_ch/ztf/__init__.py:343-370 | the groups named in `actions`, in block order; stated by `SelectSpec` and `SelectPrefix` |
| ZtfPut.ZtfPutter.constructor | put_cat_to_ch/ztf/__init__.py:31-59 | keeps the options; the CSV directory defaults to `<dir>/csv`; no group has run |
| ZtfPut.ZtfPutter.ProcessOnExists | put_cat_to_ch/ztf/__init__.py:89-115 | the policy's answer and its effect on the store: `drop` drops an existing table, an unknown policy raises ValueError |
| ZtfPut.ZtfPutter.CreateTable | put_cat_to_ch/ztf/__init__.py:152-160 | the creation template runs with `IF NOT EXISTS` exactly when the policy says the table may exist, as `CreateWithPolicy` states |
| ZtfPut.ZtfPutter.InsertAll | put_cat_to_ch/ztf/__init__.py:176-180 | the inserts of a group run one after another, as `InsertBatches` states |
| ZtfPut.InsertBatches | put_cat_to_ch/ztf/__init__.py:176-180 | the inserts of a group, one after another; stated by `CreateAndFillOutcome` and `ZtfPutter.InsertAll` |
| ZtfPut.ZtfPutter.CreateAndFill | put_cat_to_ch/ztf/__init__.py:343-370 | a group creates its table under the policy, then inserts its batches |
| ZtfPut.ZtfPutter.GenerateCsv | put_cat_to_ch/ztf/__init__.py:146-150 | succeeds iff every archive name has a CSV name; then each CSV file is on disk afterwards |
| ZtfPut.ZtfPutter.GenerateAll | put_cat_to_ch/ztf/__init__.py:146-150 | the worker jobs add each CSV file to the disk |
| ZtfPut.ZtfPutter.RemoveCsv | put_cat_to_ch/ztf/__init__.py:199-207 | removes every CSV file of the archives, failing at the first missing one |
| ZtfPut.ZtfPutter.RemoveEach | put_cat_to_ch/ztf/__init__.py:201-203 | the `os.remove` loop, as `RemoveAll` states |
| ZtfPut.ZtfPutter.RunGroup | put_cat_to_ch/ztf/__init__.py:343-370 | each `if '<group>' in actions` block leaves the answer, catalogue and CSV files that `GroupSpec` gives: `gen-csv` writes the CSV files, `rm-csv` removes them, and a table group creates and fills its table |
| ZtfPut.ZtfPutter.Call | put_cat_to_ch/ztf/__init__.py:343-370 | the named groups run in block order, whatever the order of `actions`; the answer, the final catalogue and the CSV files are those of `RunSpec` over them, so the first failing group stops the rest |
| ZtfPut.ZtfPutter.GroupSpec | put_cat_to_ch/ztf/__init__.py:343-370 | one block of `__call__` as a function of the catalogue and the CSV files; `GroupGrows` states what it keeps |
| ZtfPut.ZtfPutter.RunSpec | put_cat_to_ch/ztf/__init__.py:343-370 | the blocks run in sequence, each on what the earlier ones left; `RunSpecGrows` and `RunSpecStops` state its properties |
| ZtfPut.ZtfPutter.GroupGrows | put_cat_to_ch/ztf/__init__.py:152-160 | a group that succeeds keeps every database and table, and leaves its own table in place |
| ZtfPut.ZtfPutter.RunSpecGrows | put_cat_to_ch/ztf/__init__.py:343-370 | a call that succeeds keeps every database and table and leaves the table of every group it ran |
| ZtfPut.ZtfPutter.RunSpecNext | put_cat_to_ch/ztf/__init__.py:343-370 | after groups that succeeded, the next group starts from the state they left |
| ZtfPut.ZtfPutter.RunSpecFailNext | put_cat_to_ch/ztf/__init__.py:343-370 | after a failure, one more group changes nothing |
| ZtfPut.ZtfPutter.RunSpecStops | put_cat_to_ch/ztf/__init__.py:343-370 | after a failure, any further groups change nothing |
| ZtfPut.ZtfPutter.RunNext | put_cat_to_ch/ztf/__init__.py:343-370 | running one more block extends the dispatched groups and moves the state on by `RunSpec` |
| ZtfPut.ZtfPutter.StopsAt | put_cat_to_ch/ztf/__init__.py:343-370 | a block that fails fixes the outcome of the whole call |
| ZtfPut.ZtfPutter.RunSelected | put_cat_to_ch/ztf/__init__.py:343-370 | the loop over the blocks dispatches the selected groups in order and ends in the state `RunSpec` gives |
| ZtfPut.FileBatches | put_cat_to_ch/ztf/__init__.py:176-184 | one whole-file insert per path, in order |
| SqliteQuery.InfoPairs | put_cat_to_ch/ztf_metadata/sqlite_query.py:33 | one `(name, column info)` pair per `PRAGMA table_info` row, in row order |
| SqliteQuery.TableInfoColumns | put_cat_to_ch/ztf_metadata/sqlite_query.py:31-33 | with distinct column names, the table info lists the columns in table order, each under its own name |
| SqliteQuery.ValidateColumns | put_cat_to_ch/ztf_metadata/sqlite_query.py:50-55 | passes iff every column is in the table with matching nullability; otherwise the first column that disagrees raises its ValueError |
| SqliteQuery.Without | put_cat_to_ch/ztf_metadata/sqlite_query.py:69-71 | a column remains iff it was included and is not excluded |
| SqliteQuery.Included | put_cat_to_ch/ztf_metadata/sqlite_query.py:67-71 | all table columns unless `include` is given, minus the excluded ones; stated by `Without` and `WithoutNothing` |
| SqliteQuery.WithoutAppend | put_cat_to_ch/ztf_metadata/sqlite_query.py:71 | exclusion works piece by piece, so what remains keeps its order |
| SqliteQuery.WithoutNothing | put_cat_to_ch/ztf_metadata/sqlite_query.py:71 | nothing but the excluded columns goes |
| SqliteQuery.SelectorNullIf | put_cat_to_ch/ztf_metadata/sqlite_query.py:78-80 | `NULLIF` wraps exactly the non-`TEXT` `NOT NULL` columns, and every selector reads its own column |
| SqliteQuery.SelectorsSpec | put_cat_to_ch/ztf_metadata/sqlite_query.py:73-82 | the selectors exist iff every column is in the table, one per column in order; otherwise the first missing column raises |
| SqliteQuery.Selectors | put_cat_to_ch/ztf_metadata/sqlite_query.py:73-82 | the selector list; stated by `SelectorsSpec`, `SelectorsStops` and `SelectorNullIf` |
| SqliteQuery.SelectQuery | put_cat_to_ch/ztf_metadata/sqlite_query.py:84 | `SELECT <selectors joined by ", "> FROM exposures`, the one statement `GetData` executes |
| SqliteQuery.SelectorsStops | put_cat_to_ch/ztf_metadata/sqlite_query.py:74-76 | the first missing column ends the loop: later columns change nothing |
| SqliteQuery.BuildSelectors | put_cat_to_ch/ztf_metadata/sqlite_query.py:73-82 | the selector loop returns `Selectors(info, cols)` |
| SqliteQuery.Exposures.constructor | put_cat_to_ch/ztf_metadata/sqlite_query.py:25-28 | keeps the path; nothing is read or executed yet |
| SqliteQuery.Exposures.Enter | put_cat_to_ch/ztf_metadata/sqlite_query.py:35-41 | runs `PRAGMA table_info(exposures)` and keeps the table info built from its rows |
| SqliteQuery.Exposures.ValidateChColumns | put_cat_to_ch/ztf_metadata/sqlite_query.py:50-55 | the loop returns `ValidateColumns` on the stored table info |
| SqliteQuery.Exposures.GetData | put_cat_to_ch/ztf_metadata/sqlite_query.py:57-88 | an unknown column raises before any query; otherwise one `SELECT` of the selectors, and the frame pairs the included columns with its rows |
| ZtfMetadataPut.WithoutNew | put_cat_to_ch/ztf_metadata/__init__.py:100 | an entry remains iff its name is not one of the three computed columns |
| ZtfMetadataPut.WithoutNewAppend | put_cat_to_ch/ztf_metadata/__init__.py:100 | dropping works entry by entry, so the remaining columns keep their order |
| ZtfMetadataPut.ValidatedColumns | put_cat_to_ch/ztf_metadata/__init__.py:53-101 | the schema is checked against SQLite for every declared column except exactly the three computed ones, in declaration order |
| ZtfMetadataPut.Multiples | put_cat_to_ch/ztf_metadata/__init__.py:118 | `np.arange` with a positive step: `k` values `i * step` |
| ZtfMetadataPut.Pairs | put_cat_to_ch/ztf_metadata/__init__.py:119 | `zip(edges[:-1], edges[1:])`: consecutive edges |
| ZtfMetadataPut.Chunks | put_cat_to_ch/ztf_metadata/__init__.py:119 | one slice of the rows per pair of edges |
| ZtfMetadataPut.StepPositive | put_cat_to_ch/ztf_metadata/__init__.py:117 | the step is positive iff there are more rows than processes |
| ZtfMetadataPut.EdgesSpec | put_cat_to_ch/ztf_metadata/__init__.py:117-118 | the edges exist iff there are more rows than processes, a zero step raising ZeroDivisionError; they start at 0, go up by the step, and the last edge is at or past the end with the one before it inside |
| ZtfMetadataPut.Edges | put_cat_to_ch/ztf_metadata/__init__.py:117-118 | `np.arange(0, len(df) + step, step)` with `step = len(df) // (processes + 1)`; stated by `EdgesSpec` |
| ZtfMetadataPut.PairAt | put_cat_to_ch/ztf_metadata/__init__.py:118-119 | pair `j` of the edges is the `j`-th step |
| ZtfMetadataPut.ChunkOfRow | put_cat_to_ch/ztf_metadata/__init__.py:117-119 | each row lies in exactly one chunk: row `r` in chunk `r / step` |
| ZtfMetadataPut.ChunksCover | put_cat_to_ch/ztf_metadata/__init__.py:117-121 | the chunks put back together are the whole table in order, so the concatenated per-chunk results line up with the rows |
| ZtfMetadataPut.InsertData | put_cat_to_ch/ztf_metadata/__init__.py:127-136 | a missing parquet file raises FileNotFoundError naming it; otherwise the insert script runs on that file |
| ZtfMetadataPut.PrepareData | put_cat_to_ch/ztf_metadata/__init__.py:91-121 | a schema mismatch raises before any `SELECT`, and so does an unknown column of the selectors; otherwise exactly one `SELECT` of every table column except `ra` and `dec` runs, and the frame is its rows under those columns; a frame without `field` raises KeyError, and a merged frame of at most `processes` rows raises ZeroDivisionError (`EdgesSpec`); otherwise the result is that frame, its inner merge with the field centres, more rows than processes, and the chunk pairs, whose chunks put back together are the merged rows |
| ZtfMetadataPut.ColumnIndex | put_cat_to_ch/ztf_metadata/__init__.py:106 | the `field` column is found exactly when the header has it, at a position that holds it |
| ZtfMetadataPut.Merge | put_cat_to_ch/ztf_metadata/__init__.py:106 | `pd.merge(..., how='inner', left_on='field', right_on='fieldid')`; KeyError without a `field` column; `MergeInnerSpec` states its rows |
| ZtfMetadataPut.JoinedSpec | put_cat_to_ch/ztf_metadata/__init__.py:106 | an exposure row joins with exactly the centres of its field, each joined row being the row followed by the centre's cells |
| ZtfMetadataPut.JoinedCount | put_cat_to_ch/ztf_metadata/__init__.py:106 | a row of a known field joins once per centre; a row of an unknown field is dropped |
| ZtfMetadataPut.MergeInnerSpec | put_cat_to_ch/ztf_metadata/__init__.py:106 | a merged row is an exposure row followed by the cells of a centre of its field, and every such pair gives a merged row |
| ZtfMetadataPut.MergeFieldCount | put_cat_to_ch/ztf_metadata/__init__.py:106 | adding an exposure of a known field adds one merged row per centre; one of an unknown field adds none |
| ZtfMetadataPut.StepOnMerged | put_cat_to_ch/ztf_metadata/__init__.py:117-118 | the step is taken on the merged frame: one exposure of a field with 64 centres gives 64 rows and a step of 32 for one process, where its single exposure row would give a step of 0 |
| ZtfMetadataPut.ZtfMetadataPutterAccepted | put_cat_to_ch/ztf_metadata/__init__.py:138-157 | every default action has a method, so the putter class is created |
| CatsHtmPut.Find | put_cat_to_ch/cats_htm/__init__.py:77-86 | a position found is at or after the start and holds the name, and none between the start and it does; None iff the name does not occur from the start on |
| CatsHtmPut.Slot | put_cat_to_ch/cats_htm/__init__.py:77-86 | `list.index` from a start: a missing name raises ValueError `x is not in list` |
| CatsHtmPut.FindSkip | put_cat_to_ch/cats_htm/__init__.py:77-80 | overwriting a slot that does not hold the name with another value leaves the search for that name as it was |
| CatsHtmPut.FindAfter | put_cat_to_ch/cats_htm/__init__.py:77-80 | after the first `ra` is overwritten, `index('ra')` finds the following one |
| CatsHtmPut.ChColumnNames | put_cat_to_ch/cats_htm/__init__.py:69-71 | one lowercased name per column |
| CatsHtmPut.ChColumnNamesLower | put_cat_to_ch/cats_htm/__init__.py:69-71 | every ClickHouse column name is lower case, so lowering it again changes nothing |
| CatsHtmPut.PrepareColumnNames | put_cat_to_ch/cats_htm/__init__.py:73-87 | the slot-by-slot overwriting returns `Prepared(name, lowercased names)` |
| CatsHtmPut.RenameAkari | put_cat_to_ch/cats_htm/__init__.py:76-80 | AKARI: the first `ra`/`dec` become `ra_rad`/`dec_rad`, the next ones `ra_arcsec`/`dec_arcsec` |
| CatsHtmPut.RenameMatch | put_cat_to_ch/cats_htm/__init__.py:81-83 | HSCv2: `matchra`/`matchdec` become `ra_rad`/`dec_rad` |
| CatsHtmPut.RenameRaDec | put_cat_to_ch/cats_htm/__init__.py:84-86 | every other catalog: the first `ra`/`dec` become `ra_rad`/`dec_rad` |
| CatsHtmPut.PreparedDefault | put_cat_to_ch/cats_htm/__init__.py:84-87 | for any other catalog the names go through iff `ra` and `dec` occur; then the first of each becomes `*_rad` and every other slot keeps its lowercased name |
| CatsHtmPut.TwiceFind | put_cat_to_ch/cats_htm/__init__.py:77-80 | a name occurs twice iff the second search, after the first hit, also finds it |
| CatsHtmPut.PreparedAkari | put_cat_to_ch/cats_htm/__init__.py:76-80 | AKARI's names go through exactly when `ra` and `dec` each occur twice |
| CatsHtmPut.PreparedLower | put_cat_to_ch/cats_htm/__init__.py:73-87 | the prepared names of lower-case columns are all lower case |
| CatsHtmPut.Prepared | put_cat_to_ch/cats_htm/__init__.py:73-87 | the renamed columns keep their number, and a missing `ra`/`dec` is the `list.index` ValueError |
| CatsHtmPut.CheckColumnsDistinct | put_cat_to_ch/cats_htm/__init__.py:53-59 | the check raises NotImplementedError exactly when two slots hold the same name |
| CatsHtmPut.CheckColumns | put_cat_to_ch/cats_htm/__init__.py:53-59 | the duplicate-name check; stated by `CheckColumnsDistinct` |
| CatsHtmPut.DistinctCounts | put_cat_to_ch/cats_htm/__init__.py:54-55 | `len(names) == len(Counter(names))` iff every name counts at most once |
| CatsHtmPut.ColumnDefs | put_cat_to_ch/cats_htm/__init__.py:89-91 | one `` `name` Float64 `` definition per prepared column |
| CatsHtmPut.ColumnDefsDistinct | put_cat_to_ch/cats_htm/__init__.py:89-91 | distinct lower-case names give distinct definitions, each naming its column as it is |
| CatsHtmPut.NewCatalog | put_cat_to_ch/cats_htm/__init__.py:39-51 | a catalog is built iff its names can be prepared and are then distinct; it holds its name, path and prepared columns |
| CatsHtmPut.CatalogColumns | put_cat_to_ch/cats_htm/__init__.py:89-101 | the table definitions of a built catalog are distinct and name its prepared columns |
| CatsHtmPut.UsableDirs | put_cat_to_ch/cats_htm/__init__.py:143-149 | the corrected directory test: `name_path` holds only catalogs of the name-to-directory dict |
| CatsHtmPut.UsableDirsValid | put_cat_to_ch/cats_htm/__init__.py:143-149 | `name_path` has unique keys |
| CatsHtmPut.UsableDirsGet | put_cat_to_ch/cats_htm/__init__.py:143-149 | a catalog is in `name_path` exactly when its path is a directory listing an entry that ends in `.hdf5`, and it keeps that directory |
| CatsHtmPut.RemoveFirst | put_cat_to_ch/cats_htm/__init__.py:153 | `cat.remove(x)` takes out one `x` and nothing else |
| CatsHtmPut.Unnamed | put_cat_to_ch/cats_htm/__init__.py:155-157 | the appended catalogs are exactly those of `name_path` not named in the request |
| CatsHtmPut.ExpandedCovers | put_cat_to_ch/cats_htm/__init__.py:151-157 | with `all` requested every usable catalog is loaded, the named ones first in the order given |
| CatsHtmPut.BuildOne | put_cat_to_ch/cats_htm/__init__.py:165 | `name_path[name]` raises KeyError for a name without a directory; otherwise the catalog is built from that directory |
| CatsHtmPut.BuildFailSticky | put_cat_to_ch/cats_htm/__init__.py:165 | a failure of the generator is final: one more name does not change it |
| CatsHtmPut.BuildStops | put_cat_to_ch/cats_htm/__init__.py:165 | nor do any further names |
| CatsHtmPut.FilterUsable | put_cat_to_ch/cats_htm/__init__.py:143-149 | the loop over the directories, listing each one and stopping at its first `.hdf5` entry, returns `UsableDirs` |
| CatsHtmPut.AnyHdf5 | put_cat_to_ch/cats_htm/__init__.py:147 | `any(f.endswith('.hdf5') for f in names)`: true exactly when some entry has the suffix |
| CatsHtmPut.ExpandAll | put_cat_to_ch/cats_htm/__init__.py:151-157 | removing `all` and appending the unnamed catalogs gives `Expanded(cat, available)` and the request's name set without `all` |
| CatsHtmPut.BuildAll | put_cat_to_ch/cats_htm/__init__.py:165 | the generator building one catalog per name returns `Build(namePath, names)` |
| CatsHtmPut.GetCatalogs | put_cat_to_ch/cats_htm/__init__.py:140-166 | with the corrected directory test: filter the directories, expand `all`, reject unknown names with ValueError, then build the catalogs in order, as `CatalogsSpec` states |
| CatsHtmPut.CatalogsSpec | put_cat_to_ch/cats_htm/__init__.py:140-166 | with the corrected directory test, a requested name whose directory is missing or has no `.hdf5` entry raises ValueError before any catalog is built; otherwise the catalogs follow the expanded names, each with its directory |
| CatsHtmPut.Catalogs | put_cat_to_ch/cats_htm/__init__.py:140-166 | `_get_catalogs` with the corrected directory test; stated by `CatalogsSpec` |
| CatsHtmPut.UsableDirsAsWrittenSpec | put_cat_to_ch/cats_htm/__init__.py:147 | the directory test as written raises TypeError exactly when some catalog path is a non-empty directory, and otherwise keeps no catalog |
| CatsHtmPut.CatalogsAsWrittenLoadsNothing | put_cat_to_ch/cats_htm/__init__.py:140-166 | as written, `_get_catalogs` raises TypeError as soon as one catalog directory has an entry, and otherwise loads no catalog |
| CatsHtmPut.Hdf5DirDiffers | put_cat_to_ch/cats_htm/__init__.py:147 | a directory holding `<name>.hdf5` passes the corrected test, and the corrected `_get_catalogs` accepts its name, while the code as written raises TypeError |
| CatsHtmPut.BuildNames | put_cat_to_ch/cats_htm/__init__.py:165 | a successful build gives one catalog per name, in order, each named so and located at its directory |
| CatsHtmPut.BuildNeverValueError | put_cat_to_ch/cats_htm/__init__.py:159-165 | building never raises the not-found ValueError; only the set check does |
| CatsHtmPut.LeftoverAll | put_cat_to_ch/cats_htm/__init__.py:152-165 | a second `all` in the request survives `cat.remove('all')`, and unless a catalog is called `all`, looking it up fails |
| CatsHtmPut.BuildMissing | put_cat_to_ch/cats_htm/__init__.py:165 | a name without a directory makes the build fail |
| CatsHtmPut.RowBinPaths | put_cat_to_ch/cats_htm/__init__.py:173-175 | one path per catalog |
| CatsHtmPut.RowBinDir | put_cat_to_ch/cats_htm/__init__.py:121 | `tmp_dir or dir`: the temporary directory unless it is missing or empty |
| CatsHtmPut.RowBinPathsBasename | put_cat_to_ch/cats_htm/__init__.py:173-175 | each path is `<row_bin_dir>/<name>.dat` for its catalog |
| CatsHtmPut.RowBinPathsDistinct | put_cat_to_ch/cats_htm/__init__.py:173-175 | catalogs with distinct plain names get distinct files |
| CatsHtmPut.CatsHtmPutterAccepted | put_cat_to_ch/cats_htm/__init__.py:199-223 | every default action has a method, so the putter class is created |
| Ps1StrmPut.SqlTypeToCh | put_cat_to_ch/ps1_strm/__init__.py:24-36 | succeeds exactly for the four readme types (bigint, float, varchar[8], int); any other type raises ValueError `SQL type … is not supported` |
| Ps1StrmPut.SqlTypeToChInjective | put_cat_to_ch/ps1_strm/__init__.py:24-36 | two supported SQL types never map to the same ClickHouse type, so a column's ClickHouse type determines its readme type |
| Ps1StrmPut.Insert | put_cat_to_ch/ps1_strm/__init__.py:66 | inserting into a sorted list keeps it sorted and adds exactly the one element |
| Ps1StrmPut.Sort | put_cat_to_ch/ps1_strm/__init__.py:66 | `sorted`: the result is in ascending order and a permutation of the input |
| Ps1StrmPut.Matches | put_cat_to_ch/ps1_strm/__init__.py:66 | the glob yields exactly the directory entries matching `hlsp_ps1-strm_ps1_gpc1*.csv.gz`, joined to the data directory |
| Ps1StrmPut.InputFiles | put_cat_to_ch/ps1_strm/__init__.py:64-68 | fails its assertion `No files found in <dir>` iff no entry matches; otherwise the matching paths, sorted and each exactly once per entry |
| Ps1StrmPut.HeaderIndex | put_cat_to_ch/ps1_strm/__init__.py:74-76 | the line found is the first at or after the start that begins with `Column Name`; None iff there is none |
| Ps1StrmPut.NonBlank | put_cat_to_ch/ps1_strm/__init__.py:81-84 | keeps only lines of the table that are not blank after stripping |
| Ps1StrmPut.ColumnRowsSucceeds | put_cat_to_ch/ps1_strm/__init__.py:81-87 | the row scan succeeds iff every line is blank or has at least two words |
| Ps1StrmPut.ColumnRowsValues | put_cat_to_ch/ps1_strm/__init__.py:81-87 | a successful scan has one row per non-blank line, in order, holding the line's first and second words |
| Ps1StrmPut.ColumnRowsSpec | put_cat_to_ch/ps1_strm/__init__.py:81-87 | both directions: success iff each non-blank line has two words, and then rows are the (name, type) words of the non-blank lines in order |
| Ps1StrmPut.ReadmeColumnsHeader | put_cat_to_ch/ps1_strm/__init__.py:72-88 | with a header line, the scan fails the ruler assertion unless the next line starts with `-------`, and otherwise reads the rows after the ruler |
| Ps1StrmPut.ReadmeColumnsNoHeader | put_cat_to_ch/ps1_strm/__init__.py:74-77 | a readme without a `Column Name` line exhausts the file and fails the ruler assertion |
| Ps1StrmPut.ReadmeColumns | put_cat_to_ch/ps1_strm/__init__.py:72-88 | the readme scan; stated by `ReadmeColumnsHeader`, `ReadmeColumnsNoHeader` and `ScanReadme` |
| Ps1StrmPut.ColumnRowsStops | put_cat_to_ch/ps1_strm/__init__.py:85 | a line with fewer than two words raises, and nothing after it changes the outcome |
| Ps1StrmPut.ScanReadme | put_cat_to_ch/ps1_strm/__init__.py:72-88 | the imperative readme scan equals the readme specification (header search, ruler check, rows) |
| Ps1StrmPut.ColumnRowsNext | put_cat_to_ch/ps1_strm/__init__.py:81-87 | one more line extends the rows by its (name, type) pair, leaves them as they are for a blank line, or raises for a one-word line |
| Ps1StrmPut.ScanRows | put_cat_to_ch/ps1_strm/__init__.py:81-87 | the row loop returns exactly the specified row scan |
| Ps1StrmPut.SelfCells | put_cat_to_ch/ps1_strm/__init__.py:86-88 | as written, every name is paired with the `types` list itself, of length the number of rows |
| Ps1StrmPut.SqlCells | put_cat_to_ch/ps1_strm/__init__.py:86-88 | with the row type appended, every name is paired with its own SQL type, in order |
| Ps1StrmPut.DefinitionsAsWritten | put_cat_to_ch/ps1_strm/__init__.py:86-88 | `dict(zip(names, types))` with `types.append(types)`; stated by `SelfCells` and `AsWrittenRejectsEveryReadme` |
| Ps1StrmPut.Definitions | put_cat_to_ch/ps1_strm/__init__.py:86-88 | the same with `types.append(type)`; stated by `SqlCells`, `DefinitionsGet` and `DefinitionsConvert` |
| Ps1StrmPut.ChColumns | put_cat_to_ch/ps1_strm/__init__.py:90-92 | succeeds iff every value converts; then the same keys in the same order, each value converted |
| Ps1StrmPut.ChColumnsGet | put_cat_to_ch/ps1_strm/__init__.py:90-92 | a converted dict has a key iff the readme dict has it, and its value is the conversion of the readme's value |
| Ps1StrmPut.AsWrittenRejectsEveryReadme | put_cat_to_ch/ps1_strm/__init__.py:87-92 | as written, any readme with a column fails with `SQL type [...] is not supported`, whatever its SQL types |
| Ps1StrmPut.AsWrittenExample | put_cat_to_ch/ps1_strm/__init__.py:87-92 | a one-column readme, even of the supported `bigint`, fails with `SQL type [[...]] is not supported` |
| Ps1StrmPut.CorrectedExample | put_cat_to_ch/ps1_strm/__init__.py:87-92 | with the row type appended, `objID bigint` becomes the column `objID Int64` |
| Ps1StrmPut.DefinitionsGet | put_cat_to_ch/ps1_strm/__init__.py:88 | `dict(zip(names, types))`: a name's value is the type of its last row, None iff the name is not in the table |
| Ps1StrmPut.SupportedConverts | put_cat_to_ch/ps1_strm/__init__.py:88-92 | if every name's final type is supported, the conversion succeeds |
| Ps1StrmPut.ConvertedSupported | put_cat_to_ch/ps1_strm/__init__.py:88-92 | if the conversion succeeds, every name's final type is one of the four supported types |
| Ps1StrmPut.DefinitionsConvert | put_cat_to_ch/ps1_strm/__init__.py:87-92 | with the row type appended, the columns convert iff every name's final type is supported |
| Ps1StrmPut.DefinitionsColumn | put_cat_to_ch/ps1_strm/__init__.py:87-92 | a converted readme has a column for exactly the names of its rows, of the converted type of the name's last row |
| TwoMassPut.FloatFormat | put_cat_to_ch/twomass/__init__.py:13-21 | a `%W.Pf` format maps to `Float32` for widths up to 7 and to `Float64` beyond |
| TwoMassPut.IntFormat | put_cat_to_ch/twomass/__init__.py:13-30 | a `%Wd` format maps to the integer type of width W: Int8 up to 2, Int16 up to 4, Int32 up to 9, Int64 beyond |
| TwoMassPut.StringFormat | put_cat_to_ch/twomass/__init__.py:13-33 | a `%Ws` format maps to `FixedString(W)` |
| TwoMassPut.FormatErrors | put_cat_to_ch/twomass/__init__.py:13-34 | a format without the leading `%` fails the assertion `format … is unknown`; one ending in none of f, d, s raises ValueError `Format … is unknown` |
| TwoMassPut.PrintfToCh | put_cat_to_ch/twomass/__init__.py:13-34 | only a `%`-format ending in `f`, `d` or `s` converts, and an `s` format gives a FixedString; the failures are the assertion and ValueError |
| TwoMassPut.IntTypeNarrowest | put_cat_to_ch/twomass/__init__.py:22-30 | the chosen integer type is the narrowest signed type whose range holds every number of W digits (W up to 18) |
| TwoMassPut.TableRowSpec | put_cat_to_ch/twomass/__init__.py:37-44 | the column name is the stripped name cell up to its first `/` (the whole cell when it has none), and the type is wrapped in `Nullable` exactly when the nulls cell is `yes` |
| TwoMassPut.TableRowToChType | put_cat_to_ch/twomass/__init__.py:37-44 | a row converts exactly when it has five cells and its format converts; the name is the part of the name cell before any `/` |
| TwoMassPut.PscColumns | put_cat_to_ch/twomass/__init__.py:47-58 | succeeds iff every row of five or more cells converts; the dict then holds each row's pair, later rows with the same name overwriting earlier ones |
| TwoMassPut.RowPairsStops | put_cat_to_ch/twomass/__init__.py:52-57 | a row that fails to convert stops the scan: every longer prefix fails too |
| TwoMassPut.RowPairsAppend | put_cat_to_ch/twomass/__init__.py:52-57 | a row with fewer than five cells adds no column; a full row sets its column to its type whatever earlier rows said |
| TwoMassPut.RowPairs | put_cat_to_ch/twomass/__init__.py:51-57 | the `(name, type)` pairs of the full rows, in order; stated by `RowPairsStops`, `RowPairsAppend` and `PscColumns` |
| SdssPut.NpDtypeToChInjective | put_cat_to_ch/sdss/__init__.py:23-36 | `np_dtype_to_ch` succeeds exactly for integer, float and byte-string dtypes, and different such dtypes get different ClickHouse types |
| SdssPut.NpDtypeToCh | put_cat_to_ch/sdss/__init__.py:23-36 | exactly the scalar integer, float and byte-string dtypes convert; anything else is a ValueError |
| SdssPut.FieldToCh | put_cat_to_ch/sdss/__init__.py:39-46 | a field that converts gives at least one column; a failure is the ValueError, TypeError or AssertionError of the source |
| SdssPut.FilterColumns | put_cat_to_ch/sdss/__init__.py:44 | the columns of a five-filter subarray: at least one per filter |
| SdssPut.ScalarField | put_cat_to_ch/sdss/__init__.py:39-46 | a scalar field becomes one column under its lowercased name, of its dtype's ClickHouse type |
| SdssPut.ScalarFilterColumns | put_cat_to_ch/sdss/__init__.py:44 | expanding a scalar base over lower-case filters gives one column `<name>_<filter>` per filter, in filter order, each of the base's type |
| SdssPut.SubarrayField | put_cat_to_ch/sdss/__init__.py:39-44 | a five-element subarray field becomes the five columns `<name>_u`, `_g`, `_r`, `_i`, `_z` in that order, each of the base's type |
| SdssPut.SubarrayShape | put_cat_to_ch/sdss/__init__.py:41-43 | a subarray of any shape other than five elements fails the assertion |
| SdssPut.ScalarFields | put_cat_to_ch/sdss/__init__.py:94-96 | scalar fields give exactly one column each, in field order, under the lowercased field name |
| SdssPut.ScalarColumnsKeys | put_cat_to_ch/sdss/__init__.py:94-96 | with distinct lowercased names, the `ch_columns` dict has exactly those names as keys, in field order |
| SdssPut.TableNameInjective | put_cat_to_ch/sdss/__init__.py:89-91 | different data releases get different table names `dr<N>_calibObj` |
| SdssPut.TableName | put_cat_to_ch/sdss/__init__.py:89-91 | `dr<N>_calibObj`; stated by `TableNameInjective` |
| SdssPut.FieldsToCh | put_cat_to_ch/sdss/__init__.py:94-96 | the chained columns of every field, in field order; stated by `ScalarFields`, `SubarrayField` and `ScalarFilterColumns` |
| SdssPut.ChColumns | put_cat_to_ch/sdss/__init__.py:94-96 | `dict(chain(...))` of those columns; stated by `ScalarColumnsKeys` |
| PyStr.Lower | put_cat_to_ch/__main__.py:15 | `str.lower` on ASCII letters: the same length, each character lowered |
| PyStr.LowerIdempotent | put_cat_to_ch/__main__.py:15 | a lowered option value lowers to itself |
| PyStr.LowerConcat | put_cat_to_ch/sdss/__init__.py:44 | lowering a joined name lowers each part |
| PyStr.Split | download_cats/utils.py:104 | `str.split()`: every piece is a non-empty run without whitespace, with `str.isspace`'s full set of whitespace characters |
| PyStr.SplitJoin | download_cats/utils.py:104 | splitting tokens joined by whitespace gives the tokens back |
| PyStr.SplitOn | put_cat_to_ch/twomass/__init__.py:39 | `str.split(sep)` always gives at least one piece |
| PyStr.SplitOnFirst | put_cat_to_ch/twomass/__init__.py:39 | the first piece is a prefix without the separator, the whole string when the separator is absent |
| PyStr.SplitLinesUnlines | download_cats/utils.py:103 | splitting newline-terminated lines without newlines gives the lines back |
| PyStr.Basename | download_cats/cats_htm.py:35 | `os.path.basename`: a suffix of the path without `/` |
| PyStr.BasenameOfJoin | put_cat_to_ch/ztf/__init__.py:131 | the basename of `os.path.join(dir, name)` is `name` |
| PyStr.PathJoinInjective | download_cats/cats_htm.py:21 | joining different relative names onto one directory gives different paths |
| PyStr.SplitExtRoot | put_cat_to_ch/ztf/__init__.py:132 | the root of `os.path.splitext`; `TarGzStem` states that two of them take `.tar.gz` off |
| PyStr.UrlJoin | download_cats/cats_htm.py:22 | `urljoin` for a relative reference onto a base ending in `/`; see Left out |
| PyStr.UnquotePlain | download_cats/des.py:39 | `unquote` leaves a name without `%` unchanged |
| PyStr.ParseInt | put_cat_to_ch/twomass/__init__.py:18 | `int(s)`: a failure is always a ValueError |
| PyStr.ParseIntOfIntToString | put_cat_to_ch/twomass/__init__.py:31-33 | `int(str(i)) == i` |
| PyStr.DigitsValueOfNatToString | put_cat_to_ch/ztf/__init__.py:120-121 | the digits of `str(n)` read back as `n` |
| PyStr.DigitPrefix | put_cat_to_ch/ztf/__init__.py:120 | the `\d+` of the pattern restricted to ASCII digits: the longest run of leading `0`-`9` |

## Left out

- Network and filesystem I/O are parameters: the HTTP session, `url_text_content`, `open`, `glob`, `os.makedirs` and `os.remove` (the directory tree is not modelled; `Files` is a flat map from path to bytes).
- The `ShellRunner` scripts and the `clickhouse_driver` client are abstracted: a shell insert is `CHClient.Insert` of a batch, and a query is the text the store model interprets. The SQL template files under `sql/` and `sh/` are not part of this model.
- Concurrency: `ThreadPool`, `multiprocessing.Pool` and joblib `Parallel` run their jobs sequentially in job order. Interleavings are not modelled.
- PoolResult: its contract states only that the error raised is the error of some failed job, not that it is the first failed job in job order (which the definition returns). With real workers the first failure in time is not determined anyway.
- MD5 itself: the digest function is a parameter. Nothing is proved about collisions.
- Floating point: `radius_table_suffix` formatting, the float values of quantile levels (rationals are used instead), and astropy time and coordinate arithmetic (`obstime`, the exposure coordinates in `ztf_metadata`).
- Foreign libraries: h5py, `loadmat` and FITS reading in the catsHTM and SDSS putters, pandas merges and parquet writing in `ztf_metadata`, `ztffields`, the dust-map putter, and astropy's HTML table reader.
- BeautifulSoup: the HTML is given as already extracted `<a>`/`<td>` anchors or `<tr>` cell texts.
- `download_catsHTM.py`: `main`, `worker` and `get_catalog_list`, which read an astropy HTML table and start a process pool, are not modelled beyond the per-catalog `Downloader`.
- `CatsHTMFetcher.__call__`: its pool over the selected catalogs is covered one catalog at a time (`SelectRows` plus `DownloadCatalog`).
- Thin wrappers with no logic of their own are not part of this model: the PS1, Gaia DR and DES putters, `download_cats/ztf_metadata.py`, the `ArgSubParser`/`BaseFetcher` argparse plumbing and the registries in the packages' `__init__` files.
- Argparse: only `--on_exists` parsing and the verbosity mapping are modelled. Other options and the text of argparse messages are not.
- Logging calls, and the Python `repr` of sets, lists and dtypes inside error messages (messages carry a fixed text or the offending name).
- `ZtfPutter.__init__` merging the ClickHouse settings into the shared class dict `_default_settings` (put_cat_to_ch/ztf/__init__.py:47-48): those settings only reach the driver, which is abstracted.
- Broken references are not part of this model: the imported `CHPutter` and the 3-argument `process_on_exists` used by the `create_table` methods of the catsHTM, ZTF-metadata, PS1-STRM, 2MASS and SDSS putters; `remove_files_and_directory`, `np_dtype_to_ch` and `dtype_to_le` imported from `put_cat_to_ch/utils.py`; `process_pool`, `Everything`, `configure_logging` and `subclasses` imported in `download_cats`. The logic around them is modelled with `ZtfPut` policies and the `CHClient` texts.
- GalexFetch.Fetch: `download_file` is called without its required `checksum` argument (download_cats/galex.py:45), which would raise `TypeError`. The model passes checksum None, as evidently intended.
- TwomassFetch.Fetch: the same missing `checksum` (download_cats/twomass.py:37). The model passes None.
- DesFetch.Fetch: the same missing `checksum` (download_cats/des.py:50). The model passes None.
- Ps1StrmFetch.Fetch: `Ps1StrmFetcher` does not override the abstract `add_arguments_to_parser` of `BaseFetcher` (download_cats/base.py:23-27), so creating it raises `TypeError`, and its subparser defines no `--dr`, which `__init__` reads (download_cats/ps1_strm.py:16). The model describes the `__call__` body (download_cats/ps1_strm.py:20-29) as if the fetcher could be created; `dr` is not used there.
- Putter.OtherActions: `set(actions) - set(default_actions)` iterates in an arbitrary order in Python. The model keeps declaration order, so key order after the defaults is a choice of the model.
- The file lists that `glob` returns and the quantiles that ClickHouse returns are parameters of the operations that use them.
- ChecksumManifestSpec: `PyStr.SplitLines` breaks lines only at `\n`, whereas `str.splitlines` also breaks at `\r`, `\r\n`, `\x0b`, `\x0c`, `\x1c`-`\x1e`, `\x85`, U+2028 and U+2029. A manifest such as `"a b\rc d"` parses in Python to `{b: a, d: c}` but is a ValueError in the model. The same holds for `ChecksumManifest`, `ParseChecksums` and the wget-script and manifest parsing of `CatsHtmScript.WgetUrls` and `CatsHtmScript.CallSpec`. Unicode line-boundary tables are not modelled.
- ParseOnExists: `PyStr.Lower` lowers ASCII letters only, whereas `str.lower` also lowers non-ASCII letters, some of which lower to ASCII. For example, `--on_exists "\u212aEEP"` (Kelvin sign) is `keep` in Python but rejected in the model. The same restriction applies to `CatsHtmFetch.MakeSelection` and `SelectRows` (`--cat`), `GaiaDrFetch.ParseDr` (`--dr`), `CatsHtmPut.ChColumnNames` and `SdssPut.FieldToCh`: the model leaves non-ASCII letters unchanged. Unicode case mapping is not modelled.
- DesFetch.GetUrlsFilenames: `PyStr.Unquote` decodes only `%XX` escapes below `%80`, whereas `urllib.parse.unquote` decodes UTF-8 escape sequences too. For example, `DES%C3%A9` gives `DESé` in Python and stays `DES%C3%A9` in the model. UTF-8 decoding is not modelled.
- ZtfPut.FieldNumber: `PyStr.DigitPrefix` and `PyStr.IsDigit` read only the ASCII digits `0`-`9`, whereas `\d` in the `str` pattern `^field(\d+)` matches every Unicode decimal digit and `int()` converts them. For example, `data/field١٢.tar.gz` (Arabic-Indic digits) gives field 12 in Python and AttributeError in the model. `FieldNumbers`, `KeepMembers`, `CsvRange`, `CsvRangeKeep` and `CsvRangeErrors` inherit this: such a file counts there as one without a field number.
- TwoMassPut.PrintfToCh: `PyStr.ParseInt` accepts an optional sign and ASCII digits only, whereas `int()` also accepts underscores between digits and non-ASCII decimal digits. For example, the format `%1_0d` gives `Int64` in Python and is a ValueError in the model. `TableRowToChType` inherits this.
- TwomassFetch.Jobs: `PyStr.UrlJoin` is plain concatenation, which equals `urljoin` only for a relative reference without a scheme, a leading `/` or dot segments onto a base ending in `/`. An absolute href such as `http://h/x.gz` on the 2MASS page gives that URL in Python and `base + href` in the model. The other fetchers (`CatsHtmFetch.CatalogList`, `GaiaDrFetch`, `ZtfDrLcFetch`, `Ps1StrmFetch`, `DesFetch`, `ZtfDrDownload`, `DownloadUtils.ManifestJobs`) use the same join. There, a manifest or catalog-table entry that is absolute or starts with `/` would differ in the same way.

## Findings

| source | as written | input that shows it | evidently intended | confidence | as-written member | corrected member |
|---|---|---|---|---|---|---|
| download_cats/utils.py:71-73 | `FileDownloader.__exit__(self)` takes no exception arguments, so leaving the `with` block in `download_file` raises `TypeError` | any download that reaches the `with` block, e.g. a missing destination file | close the file and return, so `download_file` returns True after a verified download | not executed | DownloadUtils.SyncFileAsWrittenNeverTrue | DownloadUtils.SyncFileIdempotent |
| download_cats/cats_htm.py:43 | `download_file(url, path, checksum, retries=3)` passes a keyword that `download_file` does not accept, so it raises `TypeError` | any catalog whose manifest has at least one file | download each file with its manifest checksum | not executed | CatsHtmFetch.CatalogAsWrittenFails | CatsHtmFetch.CatalogVerified |
| put_cat_to_ch/ps1_strm/__init__.py:87 | `types.append(types)` stores the list itself as every column's type, so `_sql_type_to_ch` raises `ValueError` | a readme with the single row `objID bigint` | `types.append(type)`, giving the column `objID Int64` | not executed | Ps1StrmPut.AsWrittenExample | Ps1StrmPut.CorrectedExample |
| put_cat_to_ch/cats_htm/__init__.py:147 | `f.endswith(b'.hdf5')` calls `str.endswith` with a bytes suffix on the `str` names that `os.listdir` returns for a `str` path, so `_get_catalogs` raises `TypeError` for every catalog directory that has an entry | a catalog directory holding `<name>.hdf5` | `f.endswith('.hdf5')`: keep the directories that hold an HDF5 file | not executed | CatsHtmPut.Hdf5DirDiffers | CatsHtmPut.CatalogsSpec |
