# Ubuntu image fetcher — a verified model

`ubuntu.py` reads a line of URLs and, for each one, downloads the resource,
keeps it only if the server declares an image content type, derives a file
name from the URL, skips the write when the `Fetched_Images` directory already
holds a file of that name with the same MD5 digest, and otherwise writes the
file. This project models that per-URL decision and the loop around it. The
directory is a map from file name to bytes (`Fetch.Store`).

Layout:

- `digest.dfy` (module `Digest`): bytes, 16-byte MD5 digests and `hexdigest()`
  as lowercase hexadecimal. It proves that comparing hex digests is the same
  as comparing digests.
- `paths.dfy` (module `Paths`): `os.path.basename` as the text after the last `/`.
- `fetch.dfy` (module `Fetch`): the environment the model leaves abstract
  (`Env`), the reply to a GET (`Response`), the reported outcome (`Outcome`),
  `get_filename_from_url`, `is_duplicate`, and the per-URL step `Step`. The
  step is a function from the old directory to an outcome and a new directory.
  The module also holds the lemmas about `Step`.
- `pipeline.dfy` (module `Pipeline`): the loop of `main` as the left fold
  `Batch` of `Step` over the URLs, with lemmas on order, framing and
  last-write-wins.
- `fetcher.dfy` (module `Fetcher`): the class `ImageFetcher`. Its `store`
  field is the directory, updated in place. `FetchImage` is `fetch_image`,
  with its early returns. `FetchAll` is the `for` loop of `main`. Each method
  is proved against `Step` or `Batch`.
- `scenarios.dfy` (module `Scenarios`): concrete runs, in which one URL is
  saved, then reported as a duplicate, then overwritten, and in which
  rejections do not stop the batch.

Abstractions. `urlparse(url).path` is the function `env.urlPath`.
`url.encode()` is `env.encode`. MD5 is `env.md5`, whose results are only
known to be 16 bytes long. Nothing assumes that equal digests mean equal
bytes. The network becomes data: `responses[i]` is the reply to the GET of
`urls[i]`. It is either `Failed(reason)`, for any request exception, or
`Ok(contentType, content)`, where `contentType` is `None` when the header is
missing. A file name is a deterministic function of the URL because
`FilenameFromUrl` is a function.

Source and intended behaviour differ in two places.

- Statuses. The intended behaviour is that any non-success status fails.
  The source calls `raise_for_status` (ubuntu.py:56), so a status fails only
  when the HTTP library raises for it. The model follows the source here.
  It has no status codes: a reply the library rejects is `Failed`.
- File errors. The program promises to handle errors gracefully
  (ubuntu.py:6), so one URL's error should not stop the batch. In the source,
  though, an `OSError` from `open` (ubuntu.py:42 or 74) is not a
  `RequestException`, so the `except` on ubuntu.py:79 does not catch it and
  the `for` loop of ubuntu.py:92-93 ends. Such an error arises, for
  instance, for the derived name "." of a URL whose path is "/.", for "..",
  for an existing subdirectory, or without write permission. The model
  follows the intent here. Every write succeeds and `Batch` always reports
  one outcome per URL; for the path "/." it reports `Saved(".")` (`Scenarios.DotPathSavedAsDot`). The
  file-I/O line under "## Left out" records this.

## Model

| member | source | states |
|---|---|---|
| `Digest.HexDigit` | ubuntu.py:29 | each nibble n becomes character n of "0123456789abcdef", always a lowercase hex digit |
| `Digest.HexByte` | ubuntu.py:29 | a byte becomes exactly two lowercase hex digits |
| `Digest.HexDigest` | ubuntu.py:29 | `hexdigest()` is twice as long as the digest and holds only lowercase hex digits |
| `Digest.HexByteInjective` | ubuntu.py:45 | two bytes with the same two hex digits are the same byte |
| `Digest.HexDigestInjective` | ubuntu.py:45 | equal hex digests come only from equal digests, so the string comparison on line 45 compares the MD5 digests themselves |
| `Paths.Basename` | ubuntu.py:25 | the basename holds no '/', is a suffix of the path, and is preceded by a '/' unless it is the whole path: it is the longest '/'-free suffix |
| `Paths.BasenameAfterLastSlash` | ubuntu.py:25 | when position k holds the last '/', the basename is exactly the text after k |
| `Paths.BasenameWithoutSlash` | ubuntu.py:25 | a path without '/' is its own basename |
| `Fetch.FilePath` | ubuntu.py:66 | `os.path.join` of the image directory and the name: an absolute name (leading '/') is the path itself; any other name follows the directory and a '/', so the path ends with exactly the name; for a name without '/' (every derived name) the basename of the path is the name |
| `Fetch.FilePathInjective` | ubuntu.py:66 | distinct names, absolute or not, give distinct path strings (the names "." and ".." are the exception noted under Left out: distinct strings that do not name distinct plain files) |
| `Fetch.FallbackName` | ubuntu.py:28-29 | the generated name is 36 characters, the 32 lowercase hex digits of the digest followed by ".jpg", and holds no '/' |
| `Fetch.FilenameFromUrl` | ubuntu.py:20-31 | the file name is never empty and never holds '/'. A non-empty last path segment is the name. Otherwise the name is 36 characters: 32 hex digits of the URL's MD5 followed by ".jpg" |
| `Fetch.FallbackNamesCollideOnlyOnDigest` | ubuntu.py:28-29 | two URLs without a path segment get the same fallback name exactly when the MD5 digests of their encodings are equal (both directions) |
| `Fetch.IsDuplicate` | ubuntu.py:34-45 | with no file under the name it is false. Identical stored bytes make it true. It is true exactly when a file exists and its MD5 digest equals that of the new content |
| `Fetch.ContentTypeOf` | ubuntu.py:59 | a missing Content-Type header reads as "" and a present one as its value |
| `Fetch.StartsWith` | ubuntu.py:60 | `startswith` holds exactly when the prefix is no longer than the string and matches it character by character (so the empty prefix always holds) |
| `Fetch.IsImage` | ubuntu.py:60 | a content type passes exactly when it is "image/" followed by anything |
| `Fetch.Step` | ubuntu.py:48-80 | the outcome is `FetchFailed` exactly for failed replies. A `Saved(name)` outcome writes the content under `FilenameFromUrl(url)` and nothing else. Every other outcome leaves the directory as it was. No file is ever removed |
| `Fetch.StepFailed` | ubuntu.py:53-56 | a failed GET reports its reason and leaves the directory unchanged |
| `Fetch.StepNotImage` | ubuntu.py:59-62 | a reply whose content type does not start with "image/" gives `NotImage(contentType)` and leaves the directory unchanged, whatever the payload |
| `Fetch.StepMissingContentType` | ubuntu.py:59-62 | a reply without a Content-Type header is treated as content type "" and is therefore skipped as not an image |
| `Fetch.StepDuplicate` | ubuntu.py:68-71 | an image whose digest matches the stored file gives `Duplicate(name)` and leaves the directory unchanged |
| `Fetch.StepSave` | ubuntu.py:73-77 | any other image gives `Saved(name)`. Afterwards the file holds the new content, the set of files is the old set plus the name, and every other file is unchanged |
| `Fetch.StepOverwrites` | ubuntu.py:69-75 | an existing file whose digest differs from the new image's is overwritten with the new content and reported as saved |
| `Fetch.StepWritesOnlyIfChanged` | ubuntu.py:60-75 | the directory changes if and only if the outcome is `Saved`: a write happens only when the file is missing or different |
| `Fetch.StepIdempotent` | ubuntu.py:65-75 | fetching the same URL twice with the same image reply: the second outcome is `Duplicate(name)` and the directory stays as the first fetch left it |
| `Fetch.StepRepeatStable` | ubuntu.py:52-77 | for any reply, repeating the step changes the directory no further |
| `Pipeline.Fold` | ubuntu.py:92-93 | whatever the per-URL step, the fold reports exactly one outcome per URL |
| `Pipeline.FoldAppend` | ubuntu.py:92-93 | folding over a concatenation is folding over the first list, then over the second from the directory the first left |
| `Pipeline.Batch` | ubuntu.py:92-93 | the loop over all URLs reports exactly one outcome for each URL: no failure cuts the batch short |
| `Pipeline.BatchAppend` | ubuntu.py:92-93 | processing two input lists one after the other equals processing their concatenation |
| `Pipeline.BatchCons` | ubuntu.py:92-93 | the first URL is processed first, on the directory as given, and the rest on the directory it leaves |
| `Pipeline.BatchEmpty` | ubuntu.py:90-93 | an empty input line reports nothing and writes nothing |
| `Pipeline.BatchSingle` | ubuntu.py:92-93 | an input line of one URL reports that URL's outcome and leaves the directory its step leaves |
| `Pipeline.BatchSnoc` | ubuntu.py:92-93 | one more URL at the end adds its outcome last, and its step runs on the directory the earlier URLs left |
| `Pipeline.BatchOutcomeAt` | ubuntu.py:92-93 | the outcome of URL i is the step applied to the directory left by URLs 0..i-1, so URLs run in input order and earlier failures do not affect it |
| `Pipeline.BatchFrame` | ubuntu.py:92-93 | a file that no URL of the batch reports as `Saved` has the same existence and content after the batch as before |
| `Pipeline.BatchWithoutSavesWritesNothing` | ubuntu.py:92-93 | a batch in which no URL is saved leaves the directory exactly as it was |
| `Pipeline.LastSaveWins` | ubuntu.py:74-75 | after the batch, a file holds the content of the last URL that was saved under its name |
| `Pipeline.BatchKeepsFiles` | ubuntu.py:92-93 | no file that existed before the batch is gone after it |
| `Pipeline.BatchRepeatedImage` | ubuntu.py:92-93 | the same image URL twice on one input line: the second is reported as a duplicate and the directory is as the first left it |
| `Fetcher.ImageFetcher.constructor` | ubuntu.py:16-17 | the fetcher starts on the directory as it exists at start-up |
| `Fetcher.ImageFetcher.FetchImage` | ubuntu.py:48-80 | the imperative `fetch_image`, with its early returns, reports the outcome and leaves the directory in the state that `Step` gives |
| `Fetcher.ImageFetcher.FetchAll` | ubuntu.py:83-93 | the `for` loop reports the outcomes and leaves the directory in the state that `Batch` gives |
| `Scenarios.CatSteps` | ubuntu.py:48-80 | for `http://example.com/cat.jpg` with path "/cat.jpg": the first fetch saves `cat.jpg`, the same bytes again are a duplicate, and bytes with another digest overwrite the file |
| `Scenarios.SaveDuplicateOverwrite` | ubuntu.py:90-93 | the same three fetches as one input line report Saved, Duplicate, Saved, and the file ends with the last content |
| `Scenarios.FailureThenImage` | ubuntu.py:78-80 | a failed fetch before an image is reported as FetchFailed, and the image is handled on the unchanged directory |
| `Scenarios.RejectionsDoNotStopTheBatch` | ubuntu.py:59-62 | an HTML page and a failed fetch before an image are reported as NotImage and FetchFailed, and the image is still handled on the unchanged directory |
| `Scenarios.EmptyPathFallsBackToDigest` | ubuntu.py:28-29 | a URL whose path is "/" is stored under a 36-character name ending in ".jpg" that holds no '/' |
| `Scenarios.DotPathSavedAsDot` | ubuntu.py:74-75 | a URL whose path is "/." gets the name "." and its image is reported `Saved(".")` with the content stored under ".": the model's write always succeeds, where the program's `open` fails on the directory |

## Left out

- The network call `requests.get` and its 10-second timeout are left out (ubuntu.py:53). They are I/O in a foreign library. A reply is data, `Failed` or `Ok`.
- Which HTTP statuses `raise_for_status` rejects is left out (ubuntu.py:56). That is the library's rule. Every rejected reply is `Failed`.
- The case-insensitive header lookup of `requests` is left out. The model sees only whether a Content-Type header exists and, if so, its value.
- The real semantics of `urlparse` are left out (ubuntu.py:24): netloc, query and fragment parsing are library behaviour. The URL's path is the uninterpreted `env.urlPath`.
- `str.encode` is the uninterpreted `env.encode`, because UTF-8 encoding is not part of the decision.
- MD5 is the uninterpreted `env.md5`, of which only the 16-byte length is known. The model never assumes that equal digests mean equal content.
- `os.makedirs` at import time (ubuntu.py:17) is left out. The directory is the map, present from the start.
- File reads and writes (ubuntu.py:42-43, 74-75) are left out. They become map lookups and updates, and a write always succeeds. Partial writes and crashes are not modelled. Some errors would abort the loop in the source, because the `except` on line 79 catches only request exceptions. Examples are a full disk, no permission, or a derived name that is a directory (".", ".." or an existing subdirectory). The model does not show that abort.
- File names are compared exactly, character by character, as on a case-sensitive file system (ubuntu.py:38, 74). On a case-insensitive one "CAT.JPG" and "cat.jpg" are one file, so the source's existence check finds the other spelling and the write replaces it. There `BatchFrame` and `LastSaveWins` do not hold as stated.
- Console input and output are left out (ubuntu.py:61, 70, 77, 80, 87-88, 90). The input line arrives already split into a sequence of URLs. The printed messages are the `Outcome` values. Each carries the data of its message other than the URL: the content type, the file name or the failure reason. The messages at ubuntu.py:61 and 80 also print the URL, which is the one at the same position in the input as the outcome.
