/** The fetcher as the program runs it: the image directory is state that
    `fetch_image` updates in place, one URL at a time. */
module Fetcher {
  import opened Fetch
  import opened Pipeline

  class ImageFetcher {
    /** The parts of the program's surroundings the model leaves abstract. */
    const env: Env
    /** The `Fetched_Images` directory. */
    var store: Store

    /** The directory as it is when the program starts. */
    constructor (env: Env, initial: Store)
      ensures this.env == env && store == initial
    {
      this.env := env;
      store := initial;
    }

    /** `fetch_image`: report on one URL whose GET gave `response`, writing
        the image into the directory only when it is new or changed. */
    method FetchImage(url: string, response: Response) returns (outcome: Outcome)
      modifies this
      ensures StepResult(outcome, store) == Step(env, old(store), url, response)
    {
      if response.Failed? {
        return FetchFailed(response.reason);
      }
      var contentType := ContentTypeOf(response.contentType);
      if !IsImage(contentType) {
        return NotImage(contentType);
      }
      var filename := FilenameFromUrl(env, url);
      if IsDuplicate(env, store, filename, response.content) {
        return Duplicate(filename);
      }
      store := store[filename := response.content];
      return Saved(filename);
    }

    /** The loop of `main`: every URL in input order, the outcome of each
        reported; a failed URL does not stop the ones after it. */
    method FetchAll(urls: seq<string>, responses: seq<Response>) returns (outcomes: seq<Outcome>)
      requires |responses| == |urls|
      modifies this
      ensures BatchResult(outcomes, store) == Batch(env, old(store), urls, responses)
    {
      ghost var initial := store;
      outcomes := [];
      for i := 0 to |urls|
        invariant BatchResult(outcomes, store) == Batch(env, initial, urls[..i], responses[..i])
      {
        var outcome := FetchImage(urls[i], responses[i]);
        outcomes := outcomes + [outcome];
        BatchSnoc(env, initial, urls[..i], responses[..i], urls[i], responses[i]);
        assert urls[..i + 1] == urls[..i] + [urls[i]];
        assert responses[..i + 1] == responses[..i] + [responses[i]];
      }
      assert urls[..|urls|] == urls && responses[..|responses|] == responses;
    }
  }
}
