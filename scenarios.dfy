/** Concrete runs of the fetcher on a few inputs, for an arbitrary
    environment in which the URLs have the paths shown. */
module Scenarios {
  import opened Paths
  import opened Fetch
  import opened Pipeline

  const CAT_URL: string := "http://example.com/cat.jpg"
  const JPEG: Option<string> := Some("image/jpeg")

  /** The three fetches of that scenario, one step at a time. */
  lemma CatSteps(env: Env, store: Store, b: Bytes, b2: Bytes)
    requires env.urlPath(CAT_URL) == "/cat.jpg"
    requires "cat.jpg" !in store
    requires env.md5(b) != env.md5(b2)
    ensures var s1 := Step(env, store, CAT_URL, Ok(JPEG, b));
            var s2 := Step(env, s1.store, CAT_URL, Ok(JPEG, b));
            && s1 == StepResult(Saved("cat.jpg"), store["cat.jpg" := b])
            && s2 == StepResult(Duplicate("cat.jpg"), s1.store)
            && Step(env, s2.store, CAT_URL, Ok(JPEG, b2)) == StepResult(Saved("cat.jpg"), store["cat.jpg" := b2])
  {
    BasenameAfterLastSlash("/cat.jpg", 0);
    assert FilenameFromUrl(env, CAT_URL) == "cat.jpg";
    var s1 := Step(env, store, CAT_URL, Ok(JPEG, b));
    assert s1.store == store["cat.jpg" := b];
    assert s1.store["cat.jpg" := b2] == store["cat.jpg" := b2];
  }

  /** The same image URL three times: saved, then a duplicate, then, once the
      server sends different bytes, saved again over the old file. */
  lemma SaveDuplicateOverwrite(env: Env, store: Store, b: Bytes, b2: Bytes)
    requires env.urlPath(CAT_URL) == "/cat.jpg"
    requires "cat.jpg" !in store
    requires env.md5(b) != env.md5(b2)
    ensures var r := Batch(env, store, [CAT_URL, CAT_URL, CAT_URL], [Ok(JPEG, b), Ok(JPEG, b), Ok(JPEG, b2)]);
            && r.outcomes == [Saved("cat.jpg"), Duplicate("cat.jpg"), Saved("cat.jpg")]
            && r.store == store["cat.jpg" := b2]
  {
    CatSteps(env, store, b, b2);
    var s1 := Step(env, store, CAT_URL, Ok(JPEG, b));
    var s2 := Step(env, s1.store, CAT_URL, Ok(JPEG, b));
    var s3 := Step(env, s2.store, CAT_URL, Ok(JPEG, b2));
    BatchEmpty(env, s3.store);
    BatchCons(env, s2.store, CAT_URL, Ok(JPEG, b2), [], []);
    assert [CAT_URL] + [] == [CAT_URL] && [Ok(JPEG, b2)] + [] == [Ok(JPEG, b2)];
    BatchCons(env, s1.store, CAT_URL, Ok(JPEG, b), [CAT_URL], [Ok(JPEG, b2)]);
    BatchCons(env, store, CAT_URL, Ok(JPEG, b), [CAT_URL, CAT_URL], [Ok(JPEG, b), Ok(JPEG, b2)]);
    assert [CAT_URL] + [CAT_URL, CAT_URL] == [CAT_URL, CAT_URL, CAT_URL];
    assert [Ok(JPEG, b)] + [Ok(JPEG, b), Ok(JPEG, b2)] == [Ok(JPEG, b), Ok(JPEG, b), Ok(JPEG, b2)];
  }

  /** A failed fetch, then an image: the failure is reported and the image
      is handled on the directory as it was. */
  lemma FailureThenImage(env: Env, store: Store, missing: string, url: string, content: Bytes)
    ensures var last := Step(env, store, url, Ok(JPEG, content));
            Batch(env, store, [missing, url], [Failed("404 Client Error"), Ok(JPEG, content)])
            == BatchResult([FetchFailed("404 Client Error"), last.outcome], last.store)
  {
    var failed, image := Failed("404 Client Error"), Ok(JPEG, content);
    BatchSingle(env, store, url, image);
    StepFailed(env, store, missing, "404 Client Error");
    assert [missing, url][1..] == [url] && [failed, image][1..] == [image];
  }

  /** An HTML page, then a failed fetch, then an image: the first two are
      skipped without a write, and the image after them is still handled, on
      the directory as it was. */
  lemma RejectionsDoNotStopTheBatch(env: Env, store: Store, page: string, missing: string, url: string, content: Bytes)
    ensures var r := Batch(env, store, [page, missing, url],
                           [Ok(Some("text/html"), content), Failed("404 Client Error"), Ok(JPEG, content)]);
            && r.outcomes[0] == NotImage("text/html")
            && r.outcomes[1] == FetchFailed("404 Client Error")
            && r.outcomes[2] == Step(env, store, url, Ok(JPEG, content)).outcome
            && r.store == Step(env, store, url, Ok(JPEG, content)).store
  {
    var html, failed, image := Ok(Some("text/html"), content), Failed("404 Client Error"), Ok(JPEG, content);
    FailureThenImage(env, store, missing, url, content);
    assert !IsImage("text/html") by {
      assert "text/html"[0] != IMAGE_PREFIX[0];
    }
    StepNotImage(env, store, page, Some("text/html"), content);
    assert [page, missing, url][1..] == [missing, url] && [html, failed, image][1..] == [failed, image];
  }

  /** A URL whose path ends in '/' is stored under a 36-character name: 32
      hex digits of the URL's digest and ".jpg". */
  lemma EmptyPathFallsBackToDigest(env: Env)
    requires env.urlPath("http://example.com/") == "/"
    ensures var name := FilenameFromUrl(env, "http://example.com/");
            |name| == 36 && name[32..] == ".jpg" && '/' !in name
  {
  }

  /** A URL whose path is "/." has the derived name "."; the model saves the
      image under it, where the program's `open` would fail on the directory. */
  lemma DotPathSavedAsDot(env: Env, store: Store, url: string, content: Bytes)
    requires env.urlPath(url) == "/."
    requires "." !in store
    ensures Step(env, store, url, Ok(Some("image/png"), content)) == StepResult(Saved("."), store["." := content])
  {
    BasenameAfterLastSlash("/.", 0);
    assert "image/png" == IMAGE_PREFIX + "png";
  }
}
