/** The loop of `main`: every URL of the input line, in order, through the
    per-URL step, with the directory threaded from one URL to the next. */
module Pipeline {
  import opened Fetch

  datatype BatchResult = BatchResult(outcomes: seq<Outcome>, store: Store)

  /** Left fold of a per-URL step over the URLs, threading the directory;
      `responses[i]` is the reply the network gives to the GET of `urls[i]`. */
  function Fold(step: (Store, string, Response) -> StepResult, store: Store,
                urls: seq<string>, responses: seq<Response>): (r: BatchResult)
    requires |responses| == |urls|
    ensures |r.outcomes| == |urls|
    decreases |urls|
  {
    if urls == [] then BatchResult([], store)
    else
      var first := step(store, urls[0], responses[0]);
      var rest := Fold(step, first.store, urls[1..], responses[1..]);
      BatchResult([first.outcome] + rest.outcomes, rest.store)
  }

  /** Folding over two lists one after the other is folding over their
      concatenation, whatever the step. */
  lemma {:induction false} FoldAppend(step: (Store, string, Response) -> StepResult, store: Store,
                                      u1: seq<string>, r1: seq<Response>, u2: seq<string>, r2: seq<Response>)
    requires |r1| == |u1| && |r2| == |u2|
    ensures var front := Fold(step, store, u1, r1);
            var back := Fold(step, front.store, u2, r2);
            Fold(step, store, u1 + u2, r1 + r2) == BatchResult(front.outcomes + back.outcomes, back.store)
    decreases |u1|
  {
    if u1 == [] {
      assert u1 + u2 == u2 && r1 + r2 == r2;
    } else {
      var first := step(store, u1[0], r1[0]);
      assert (u1 + u2)[1..] == u1[1..] + u2 && (r1 + r2)[1..] == r1[1..] + r2;
      FoldAppend(step, first.store, u1[1..], r1[1..], u2, r2);
    }
  }

  /** The per-URL step of `fetch_image` under the environment `env`. */
  function StepOf(env: Env): (Store, string, Response) -> StepResult {
    (store, url, response) => Step(env, store, url, response)
  }

  /** The loop of `main`: `fetch_image` on every URL in order. */
  function Batch(env: Env, store: Store, urls: seq<string>, responses: seq<Response>): (r: BatchResult)
    requires |responses| == |urls|
    ensures |r.outcomes| == |urls|
  {
    Fold(StepOf(env), store, urls, responses)
  }

  /** Processing two lists one after the other is processing their concatenation. */
  lemma BatchAppend(env: Env, store: Store, u1: seq<string>, r1: seq<Response>,
                    u2: seq<string>, r2: seq<Response>)
    requires |r1| == |u1| && |r2| == |u2|
    ensures var front := Batch(env, store, u1, r1);
            var back := Batch(env, front.store, u2, r2);
            Batch(env, store, u1 + u2, r1 + r2) == BatchResult(front.outcomes + back.outcomes, back.store)
  {
    FoldAppend(StepOf(env), store, u1, r1, u2, r2);
  }

  /** The first URL is processed first, on the directory as given. */
  lemma BatchCons(env: Env, store: Store, url: string, response: Response,
                  urls: seq<string>, responses: seq<Response>)
    requires |responses| == |urls|
    ensures var first := Step(env, store, url, response);
            var rest := Batch(env, first.store, urls, responses);
            Batch(env, store, [url] + urls, [response] + responses)
            == BatchResult([first.outcome] + rest.outcomes, rest.store)
  {
  }

  /** The empty input line does nothing. */
  lemma BatchEmpty(env: Env, store: Store)
    ensures Batch(env, store, [], []) == BatchResult([], store)
  {
  }

  /** A single URL reports its own step and leaves the directory that step leaves. */
  lemma BatchSingle(env: Env, store: Store, url: string, response: Response)
    ensures var s := Step(env, store, url, response);
            Batch(env, store, [url], [response]) == BatchResult([s.outcome], s.store)
  {
    var s := StepOf(env)(store, url, response);
    assert [url][1..] == [] && [response][1..] == [];
    assert Fold(StepOf(env), s.store, [], []) == BatchResult([], s.store);
  }

  /** One more URL: its outcome is appended and its step applied to the
      directory the earlier URLs left. */
  lemma BatchSnoc(env: Env, store: Store, urls: seq<string>, responses: seq<Response>,
                  url: string, response: Response)
    requires |responses| == |urls|
    ensures var before := Batch(env, store, urls, responses);
            var last := Step(env, before.store, url, response);
            Batch(env, store, urls + [url], responses + [response])
            == BatchResult(before.outcomes + [last.outcome], last.store)
  {
    var before := Batch(env, store, urls, responses);
    var last := Step(env, before.store, url, response);
    BatchAppend(env, store, urls, responses, [url], [response]);
    assert [url][1..] == [] && [response][1..] == [];
    assert StepOf(env)(before.store, url, response) == last;
    assert Fold(StepOf(env), last.store, [], []) == BatchResult([], last.store);
    assert Batch(env, before.store, [url], [response]) == BatchResult([last.outcome], last.store);
  }

  /** The outcome reported for URL `i` is the step on the directory left by
      the URLs before it: URLs are handled in order, and an earlier failure
      does not stop a later URL. */
  lemma BatchOutcomeAt(env: Env, store: Store, urls: seq<string>, responses: seq<Response>, i: nat)
    requires |responses| == |urls| && i < |urls|
    ensures var before := Batch(env, store, urls[..i], responses[..i]).store;
            Batch(env, store, urls, responses).outcomes[i] == Step(env, before, urls[i], responses[i]).outcome
  {
    assert urls == urls[..i] + urls[i..] && responses == responses[..i] + responses[i..];
    BatchAppend(env, store, urls[..i], responses[..i], urls[i..], responses[i..]);
  }

  /** An entry no URL of the batch reported as `Saved` is as it was before. */
  lemma {:induction false} BatchFrame(env: Env, store: Store, urls: seq<string>, responses: seq<Response>, k: string)
    requires |responses| == |urls|
    requires Saved(k) !in Batch(env, store, urls, responses).outcomes
    ensures var after := Batch(env, store, urls, responses).store;
            (k in after <==> k in store) && (k in store ==> after[k] == store[k])
    decreases |urls|
  {
    if urls != [] {
      var r := Batch(env, store, urls, responses);
      var first := Step(env, store, urls[0], responses[0]);
      var rest := Batch(env, first.store, urls[1..], responses[1..]);
      assert r.outcomes == [first.outcome] + rest.outcomes;
      BatchFrame(env, first.store, urls[1..], responses[1..], k);
    }
  }

  /** A batch in which nothing is saved leaves the directory unchanged. */
  lemma BatchWithoutSavesWritesNothing(env: Env, store: Store, urls: seq<string>, responses: seq<Response>)
    requires |responses| == |urls|
    requires forall i :: 0 <= i < |urls| ==> !Batch(env, store, urls, responses).outcomes[i].Saved?
    ensures Batch(env, store, urls, responses).store == store
  {
    var after := Batch(env, store, urls, responses).store;
    forall k | k in store || k in after ensures k in store && k in after && after[k] == store[k] {
      assert Saved(k) !in Batch(env, store, urls, responses).outcomes;
      BatchFrame(env, store, urls, responses, k);
    }
  }

  /** The file `k` ends up with the content of the last URL saved under `k`. */
  lemma {:induction false} LastSaveWins(env: Env, store: Store, urls: seq<string>, responses: seq<Response>,
                                        i: nat, k: string)
    requires |responses| == |urls| && i < |urls|
    requires Batch(env, store, urls, responses).outcomes[i] == Saved(k)
    requires Saved(k) !in Batch(env, store, urls, responses).outcomes[i + 1..]
    ensures responses[i].Ok?
    ensures var after := Batch(env, store, urls, responses).store;
            k in after && after[k] == responses[i].content
    decreases i
  {
    var r := Batch(env, store, urls, responses);
    var first := Step(env, store, urls[0], responses[0]);
    var rest := Batch(env, first.store, urls[1..], responses[1..]);
    assert r.outcomes == [first.outcome] + rest.outcomes && r.store == rest.store;
    assert rest.outcomes == r.outcomes[1..];
    if i == 0 {
      assert first.outcome == Saved(k);
      BatchFrame(env, first.store, urls[1..], responses[1..], k);
    } else {
      assert r.outcomes[1..][i - 1] == r.outcomes[i];
      assert r.outcomes[1..][i..] == r.outcomes[i + 1..];
      assert responses[1..][i - 1] == responses[i];
      LastSaveWins(env, first.store, urls[1..], responses[1..], i - 1, k);
    }
  }

  /** No file is ever deleted. */
  lemma {:induction false} BatchKeepsFiles(env: Env, store: Store, urls: seq<string>, responses: seq<Response>)
    requires |responses| == |urls|
    ensures store.Keys <= Batch(env, store, urls, responses).store.Keys
    decreases |urls|
  {
    if urls != [] {
      var first := Step(env, store, urls[0], responses[0]);
      BatchKeepsFiles(env, first.store, urls[1..], responses[1..]);
    }
  }

  /** The same image URL twice in one input line: the second is reported as
      a duplicate and the directory is as the first left it. */
  lemma BatchRepeatedImage(env: Env, store: Store, url: string, header: Option<string>, content: Bytes)
    requires IsImage(ContentTypeOf(header))
    ensures var r := Batch(env, store, [url, url], [Ok(header, content), Ok(header, content)]);
            var first := Step(env, store, url, Ok(header, content));
            r.outcomes == [first.outcome, Duplicate(FilenameFromUrl(env, url))] && r.store == first.store
  {
    var response := Ok(header, content);
    var first := Step(env, store, url, response);
    StepIdempotent(env, store, url, header, content);
    var second := Step(env, first.store, url, response);
    assert [url, url][1..] == [url] && [response, response][1..] == [response];
    assert Batch(env, second.store, [], []) == BatchResult([], second.store);
    assert Batch(env, first.store, [url], [response]) == BatchResult([second.outcome], second.store);
  }
}
