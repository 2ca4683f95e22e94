/** The per-URL decision of the image fetcher: derive a file name, reject
    failed and non-image responses, skip duplicates, otherwise write.
    The `Fetched_Images` directory is a map from file name to file content. */
module Fetch {
  import opened Digest
  import opened Paths

  datatype Option<T> = None | Some(value: T)

  type Bytes = seq<byte>

  /** The image directory: the content of every file in it, by file name. */
  type Store = map<string, Bytes>

  /** What the model leaves uninterpreted: the path component that `urlparse`
      finds in a URL, the encoding of a URL string to bytes, and MD5. */
  datatype Env = Env(urlPath: string -> string, encode: string -> Bytes, md5: Bytes -> Md5)

  /** The reply to one GET. `Failed` stands for every request exception: a
      transport error, a timeout, or a status that the HTTP library rejects.
      `contentType` is `None` when the reply has no Content-Type header. */
  datatype Response = Failed(reason: string) | Ok(contentType: Option<string>, content: Bytes)

  /** What the fetcher reports for one URL. */
  datatype Outcome =
    | FetchFailed(reason: string)
    | NotImage(contentType: string)
    | Duplicate(name: string)
    | Saved(name: string)

  datatype StepResult = StepResult(outcome: Outcome, store: Store)

  const IMAGE_DIR: string := "Fetched_Images"
  const IMAGE_PREFIX: string := "image/"
  const FALLBACK_EXTENSION: string := ".jpg"

  /** `os.path.join(IMAGE_DIR, name)`: an absolute name replaces the
      directory; any other name is appended after a '/'. A derived name holds
      no '/', so its path sits directly in the image directory and its
      basename is the name again. */
  function FilePath(name: string): (r: string)
    ensures |name| > 0 && name[0] == '/' ==> r == name
    ensures !(|name| > 0 && name[0] == '/') ==>
              |r| == |IMAGE_DIR| + 1 + |name| && r[..|IMAGE_DIR| + 1] == IMAGE_DIR + "/" &&
              r[|IMAGE_DIR| + 1..] == name
    ensures '/' !in name ==> Basename(r) == name
  {
    if |name| > 0 && name[0] == '/' then name
    else
      var r := IMAGE_DIR + "/" + name;
      assert r[|IMAGE_DIR|] == '/' && r[|IMAGE_DIR| + 1..] == name;
      if '/' !in name then BasenameAfterLastSlash(r, |IMAGE_DIR|); r else r
  }

  /** Distinct names give distinct path strings: an absolute name starts
      with '/', a joined one with the directory's first letter. */
  lemma FilePathInjective(a: string, b: string)
    requires FilePath(a) == FilePath(b)
    ensures a == b
  {
  }

  /** The name generated when a URL has no last path segment: the MD5 hex
      digest followed by ".jpg". */
  function FallbackName(d: Md5): (r: string)
    ensures |r| == 36 && r[32..] == FALLBACK_EXTENSION && r[..32] == HexDigest(d)
    ensures forall i :: 0 <= i < 32 ==> IsLowerHex(r[i])
    ensures '/' !in r
  {
    var digest := HexDigest(d);
    var r := digest + FALLBACK_EXTENSION;
    assert r[..32] == digest && r[32..] == FALLBACK_EXTENSION;
    assert '/' !in r by {
      forall i | 0 <= i < |r| ensures r[i] != '/' {
        if i < 32 { assert IsLowerHex(digest[i]); }
      }
    }
    r
  }

  /** The name a URL's image is stored under: the last segment of the URL's
      path, or, when that segment is empty, the MD5 hex digest of the URL
      followed by ".jpg". */
  function FilenameFromUrl(env: Env, url: string): (r: string)
    ensures r != [] && '/' !in r
    ensures Basename(env.urlPath(url)) != [] ==> r == Basename(env.urlPath(url))
    ensures Basename(env.urlPath(url)) == [] ==>
              |r| == 36 && r[32..] == FALLBACK_EXTENSION &&
              r[..32] == HexDigest(env.md5(env.encode(url))) &&
              forall i :: 0 <= i < 32 ==> IsLowerHex(r[i])
  {
    var name := Basename(env.urlPath(url));
    if name != [] then name else FallbackName(env.md5(env.encode(url)))
  }

  /** Two URLs without a path segment share a file exactly when their MD5
      digests coincide. */
  lemma FallbackNamesCollideOnlyOnDigest(env: Env, u: string, v: string)
    requires Basename(env.urlPath(u)) == [] && Basename(env.urlPath(v)) == []
    ensures FilenameFromUrl(env, u) == FilenameFromUrl(env, v)
            <==> env.md5(env.encode(u)) == env.md5(env.encode(v))
  {
    if FilenameFromUrl(env, u) == FilenameFromUrl(env, v) {
      assert FilenameFromUrl(env, u)[..32] == FilenameFromUrl(env, v)[..32];
      HexDigestInjective(env.md5(env.encode(u)), env.md5(env.encode(v)));
    }
  }

  /** `is_duplicate`: whether `name` already holds content with the same MD5
      digest as `content`. It never claims equal digests mean equal bytes. */
  function IsDuplicate(env: Env, store: Store, name: string, content: Bytes): (r: bool)
    ensures name !in store ==> !r
    ensures name in store && store[name] == content ==> r
    ensures r <==> name in store && env.md5(store[name]) == env.md5(content)
  {
    if name !in store then false
    else
      var stored, incoming := HexDigest(env.md5(store[name])), HexDigest(env.md5(content));
      if stored == incoming then HexDigestInjective(env.md5(store[name]), env.md5(content)); true
      else false
  }

  /** `headers.get("Content-Type", "")`: a missing header reads as "". */
  function ContentTypeOf(header: Option<string>): (r: string)
    ensures header.None? ==> r == ""
    ensures header.Some? ==> r == header.value
  {
    match header
    case None => ""
    case Some(value) => value
  }

  /** `str.startswith`: `s` begins with every character of `prefix`, in order. */
  predicate StartsWith(s: string, prefix: string): (r: bool)
    ensures r <==> |prefix| <= |s| && forall i :: 0 <= i < |prefix| ==> s[i] == prefix[i]
  {
    |prefix| <= |s| && s[..|prefix|] == prefix
  }

  /** The content-type test of `fetch_image`: the type is "image/" followed by anything. */
  predicate IsImage(contentType: string): (r: bool)
    ensures r <==> exists rest :: contentType == IMAGE_PREFIX + rest
  {
    if StartsWith(contentType, IMAGE_PREFIX) then
      assert contentType == IMAGE_PREFIX + contentType[|IMAGE_PREFIX|..];
      true
    else false
  }

  /** The decision and write of `fetch_image` for a URL whose GET gave `response`. */
  function Step(env: Env, store: Store, url: string, response: Response): (r: StepResult)
    ensures r.outcome.FetchFailed? <==> response.Failed?
    ensures r.outcome.Saved? ==> response.Ok? && r.outcome.name == FilenameFromUrl(env, url) &&
                                 r.store == store[r.outcome.name := response.content]
    ensures !r.outcome.Saved? ==> r.store == store
    ensures store.Keys <= r.store.Keys
  {
    match response
    case Failed(reason) => StepResult(FetchFailed(reason), store)
    case Ok(header, content) =>
      var contentType := ContentTypeOf(header);
      if !IsImage(contentType) then StepResult(NotImage(contentType), store)
      else
        var name := FilenameFromUrl(env, url);
        if IsDuplicate(env, store, name, content) then StepResult(Duplicate(name), store)
        else StepResult(Saved(name), store[name := content])
  }

  /** A failed GET reports its reason and writes nothing. */
  lemma StepFailed(env: Env, store: Store, url: string, reason: string)
    ensures Step(env, store, url, Failed(reason)) == StepResult(FetchFailed(reason), store)
  {
  }

  /** A reply whose content type does not start with "image/" is skipped,
      whatever its payload. */
  lemma StepNotImage(env: Env, store: Store, url: string, header: Option<string>, content: Bytes)
    requires !IsImage(ContentTypeOf(header))
    ensures Step(env, store, url, Ok(header, content)) == StepResult(NotImage(ContentTypeOf(header)), store)
  {
  }

  /** A reply without a Content-Type header counts as content type "". */
  lemma StepMissingContentType(env: Env, store: Store, url: string, content: Bytes)
    ensures Step(env, store, url, Ok(None, content)) == StepResult(NotImage(""), store)
  {
  }

  /** An image whose digest matches the stored file is skipped. */
  lemma StepDuplicate(env: Env, store: Store, url: string, header: Option<string>, content: Bytes)
    requires IsImage(ContentTypeOf(header))
    requires IsDuplicate(env, store, FilenameFromUrl(env, url), content)
    ensures Step(env, store, url, Ok(header, content))
            == StepResult(Duplicate(FilenameFromUrl(env, url)), store)
  {
  }

  /** Any other image is written under its name; no other entry changes. */
  lemma StepSave(env: Env, store: Store, url: string, header: Option<string>, content: Bytes)
    requires IsImage(ContentTypeOf(header))
    requires !IsDuplicate(env, store, FilenameFromUrl(env, url), content)
    ensures var r := Step(env, store, url, Ok(header, content));
            var name := FilenameFromUrl(env, url);
            && r.outcome == Saved(name)
            && name in r.store && r.store[name] == content
            && r.store.Keys == store.Keys + {name}
            && forall k :: k in store && k != name ==> r.store[k] == store[k]
  {
  }

  /** A stored file whose digest differs from the new image is overwritten. */
  lemma StepOverwrites(env: Env, store: Store, url: string, header: Option<string>, content: Bytes)
    requires IsImage(ContentTypeOf(header))
    requires FilenameFromUrl(env, url) in store
    requires env.md5(store[FilenameFromUrl(env, url)]) != env.md5(content)
    ensures var r := Step(env, store, url, Ok(header, content));
            r.outcome == Saved(FilenameFromUrl(env, url)) &&
            r.store[FilenameFromUrl(env, url)] == content
  {
  }

  /** The store changes exactly when the outcome is `Saved`: a write
      happens only when the file is missing or its content differs. */
  lemma StepWritesOnlyIfChanged(env: Env, store: Store, url: string, response: Response)
    ensures Step(env, store, url, response).store != store
            <==> Step(env, store, url, response).outcome.Saved?
  {
  }

  /** Fetching the same image twice: the second fetch reports a duplicate
      and leaves the store as the first fetch left it. */
  lemma StepIdempotent(env: Env, store: Store, url: string, header: Option<string>, content: Bytes)
    requires IsImage(ContentTypeOf(header))
    ensures var first := Step(env, store, url, Ok(header, content));
            var second := Step(env, first.store, url, Ok(header, content));
            second.outcome == Duplicate(FilenameFromUrl(env, url)) && second.store == first.store
  {
  }

  /** Repeating any step changes nothing more. */
  lemma StepRepeatStable(env: Env, store: Store, url: string, response: Response)
    ensures var first := Step(env, store, url, response);
            Step(env, first.store, url, response).store == first.store
  {
    if response.Ok? && IsImage(ContentTypeOf(response.contentType)) {
      StepIdempotent(env, store, url, response.contentType, response.content);
    }
  }
}
