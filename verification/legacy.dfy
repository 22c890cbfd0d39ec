/** The first version of the bot (the root `skycast.py`): hand-written retry loops
    around Reddit's session requests and around HTTP GETs, its own link-card rule,
    a fixed post text, and a loop that posts and saves every new submission. */
module Legacy {
  import opened Common
  import opened Strings
  import opened Faults
  import opened Taxonomy
  import opened Retry
  import opened Policy
  import opened Pipeline
  import opened Stream

  const LegacyPostUrlPrefix := "https://bsky.app/profile/bot-tests.bsky.social/post/"
  const PostSuffix := "\n#ShareAPodcast"
  const GetRetrySleep := 5

  /** REQUESTS_EXCEPTIONS of this version: requests' ConnectionError and Timeout, by
      `isinstance` (so ConnectTimeout, ReadTimeout and SSLError count). */
  predicate IsConnectionException(f: Fault)
  {
    IsConnectionError(f) || IsTimeout(f)
  }

  // ---------------------------------------------------------------------------
  // `patched_session_request`.  Its PRAWCORE_EXCEPTIONS tuple is the same as the
  // current bot's, `Taxonomy.IsPrawcoreException`.

  /** A caught exception is re-raised when it wraps an inner exception that is not a
      connection error (only RequestException carries one). */
  predicate SessionReraises(f: Fault)
  {
    f.RequestException? && !IsConnectionException(f.original)
  }

  /** The faults after which the session request is sent again. */
  predicate SessionRetries(f: Fault)
  {
    IsPrawcoreException(f) && !SessionReraises(f)
  }

  /** What the patched request does with its prescribed outcomes: its result and the
      faults it logs and prints. */
  datatype SessionRun<T> = SessionRun(result: CallResult<T>, printed: seq<Fault>)

  function Session<T>(outcomes: seq<Outcome<T>>): SessionRun<T>
    decreases |outcomes|
  {
    if outcomes == [] then SessionRun(Exhausted, [])
    else
      match outcomes[0]
      case Ok(v) => SessionRun(Returned(v), [])
      case Raise(f) =>
        if !IsPrawcoreException(f) then SessionRun(Raised(f), [])
        else if SessionReraises(f) then SessionRun(Raised(f), [f])
        else
          var rest := Session(outcomes[1..]);
          SessionRun(rest.result, [f] + rest.printed)
  }

  /** `patched_session_request`: sends the request until it returns, at once again
      after each caught exception, with no sleep. */
  method PatchedSessionRequest<T>(outcomes: seq<Outcome<T>>) returns (result: CallResult<T>, printed: seq<Fault>)
    ensures SessionRun(result, printed) == Session(outcomes)
  {
    printed := [];
    var rest := outcomes;
    while rest != []
      invariant Session(outcomes).result == Session(rest).result
      invariant Session(outcomes).printed == printed + Session(rest).printed
      decreases |rest|
    {
      match rest[0] {
        case Ok(v) =>
          return Returned(v), printed;
        case Raise(f) =>
          if !IsPrawcoreException(f) {
            return Raised(f), printed;
          }
          if f.RequestException? && !IsConnectionException(f.original) {
            return Raised(f), printed + [f];
          }
          assert printed + Session(rest).printed == (printed + [f]) + Session(rest[1..]).printed;
          printed := printed + [f];
      }
      rest := rest[1..];
    }
    result := Exhausted;
  }

  /** BadJSON, ServerError and TooManyRequests, and a RequestException wrapping a
      connection error, are sent again at once, however many times they come: the
      first success is returned unchanged, and each fault was printed once, in order. */
  lemma {:induction false} SessionRetriesImmediately<T>(faults: seq<Fault>, v: T, rest: seq<Outcome<T>>)
    requires forall j :: 0 <= j < |faults| ==> SessionRetries(faults[j])
    ensures Session(Faulting<T>(faults) + [Ok(v)] + rest) == SessionRun(Returned(v), faults)
  {
    SessionRetriesFrom(faults, [Ok(v)] + rest);
    assert Faulting<T>(faults) + [Ok(v)] + rest == Faulting<T>(faults) + ([Ok(v)] + rest);
  }

  lemma {:induction false} SessionRetriesFrom<T>(faults: seq<Fault>, after: seq<Outcome<T>>)
    requires forall j :: 0 <= j < |faults| ==> SessionRetries(faults[j])
    ensures Session(Faulting<T>(faults) + after).result == Session(after).result
    ensures Session(Faulting<T>(faults) + after).printed == faults + Session(after).printed
    decreases |faults|
  {
    var all := Faulting<T>(faults) + after;
    if faults == [] {
      assert all == after;
    } else {
      FaultingSplit(faults, after);
      SessionRetriesFrom(faults[1..], after);
      var f := faults[0];
      assert SessionRetries(f);
      assert IsPrawcoreException(f) && !SessionReraises(f);
      assert Session(all) == SessionRun(Session(all[1..]).result, [f] + Session(all[1..]).printed);
      assert faults == [faults[0]] + faults[1..];
    }
  }

  /** An exception outside PRAWCORE_EXCEPTIONS propagates on its first occurrence,
      unprinted; a RequestException wrapping anything but a connection error is
      printed and then re-raised. */
  lemma {:induction false} SessionPropagates<T>(f: Fault, rest: seq<Outcome<T>>)
    ensures !IsPrawcoreException(f) ==> Session([Raise(f)] + rest) == SessionRun(Raised(f), [])
    ensures SessionReraises(f) ==> Session([Raise(f)] + rest) == SessionRun(Raised(f), [f])
  {
  }

  /** Whatever the outcomes, the patched request raises only what it does not retry, and
      everything it printed is a prawcore exception. */
  lemma {:induction false} SessionRaisesUnretried<T>(outcomes: seq<Outcome<T>>)
    ensures var r := Session(outcomes);
            && (r.result.Raised? ==> !SessionRetries(r.result.fault))
            && (forall j :: 0 <= j < |r.printed| ==> IsPrawcoreException(r.printed[j]))
    decreases |outcomes|
  {
    if outcomes != [] && outcomes[0].Raise? && SessionRetries(outcomes[0].fault) {
      SessionRaisesUnretried(outcomes[1..]);
    }
  }

  // ---------------------------------------------------------------------------
  // `get`.

  /** What `get` does with its prescribed outcomes: its result, the sleeps, and the
      faults it printed. */
  datatype GetRun<T> = GetRun(result: CallResult<T>, sleeps: seq<int>, printed: seq<Fault>)

  function GetRetry<T>(outcomes: seq<Outcome<T>>): GetRun<T>
    decreases |outcomes|
  {
    if outcomes == [] then GetRun(Exhausted, [], [])
    else
      match outcomes[0]
      case Ok(response) => GetRun(Returned(response), [], [])
      case Raise(f) =>
        if !IsConnectionException(f) then GetRun(Raised(f), [], [])
        else
          var rest := GetRetry(outcomes[1..]);
          GetRun(rest.result, [GetRetrySleep] + rest.sleeps, [f] + rest.printed)
  }

  /** `get`: sends the GET until a response comes, sleeping 5 seconds after each
      connection error or timeout. */
  method GetResponse<T>(outcomes: seq<Outcome<T>>) returns (result: CallResult<T>, sleeps: seq<int>, printed: seq<Fault>)
    ensures GetRun(result, sleeps, printed) == GetRetry(outcomes)
  {
    sleeps, printed := [], [];
    var rest := outcomes;
    while rest != []
      invariant GetRetry(outcomes).result == GetRetry(rest).result
      invariant GetRetry(outcomes).sleeps == sleeps + GetRetry(rest).sleeps
      invariant GetRetry(outcomes).printed == printed + GetRetry(rest).printed
      decreases |rest|
    {
      match rest[0] {
        case Ok(response) =>
          return Returned(response), sleeps, printed;
        case Raise(f) =>
          if !IsConnectionException(f) {
            return Raised(f), sleeps, printed;
          }
          assert sleeps + GetRetry(rest).sleeps == (sleeps + [GetRetrySleep]) + GetRetry(rest[1..]).sleeps;
          assert printed + GetRetry(rest).printed == (printed + [f]) + GetRetry(rest[1..]).printed;
          sleeps := sleeps + [GetRetrySleep];
          printed := printed + [f];
      }
      rest := rest[1..];
    }
    result := Exhausted;
  }

  /** `get` sleeps exactly 5 seconds per connection error or timeout, prints each of
      them, and raises only other faults. */
  lemma {:induction false} GetSleepsFive<T>(outcomes: seq<Outcome<T>>)
    ensures var r := GetRetry(outcomes);
            && |r.sleeps| == |r.printed|
            && (forall k :: 0 <= k < |r.sleeps| ==> r.sleeps[k] == 5)
            && (forall k :: 0 <= k < |r.printed| ==> IsConnectionException(r.printed[k]))
            && (r.result.Raised? ==> !IsConnectionException(r.result.fault))
    decreases |outcomes|
  {
    if outcomes != [] && outcomes[0].Raise? && IsConnectionException(outcomes[0].fault) {
      GetSleepsFive(outcomes[1..]);
    }
  }

  /** After any number of connection errors and timeouts, `get` returns the first
      response it obtains, whatever its status, having slept 5 seconds per failure. */
  lemma {:induction false} GetReturnsFirstResponse<T>(faults: seq<Fault>, response: T, rest: seq<Outcome<T>>)
    requires forall j :: 0 <= j < |faults| ==> IsConnectionException(faults[j])
    ensures GetRetry(Faulting<T>(faults) + [Ok(response)] + rest)
            == GetRun(Returned(response), Repeat(GetRetrySleep, |faults|), faults)
    decreases |faults|
  {
    var after := [Ok(response)] + rest;
    var all := Faulting<T>(faults) + after;
    assert Faulting<T>(faults) + [Ok(response)] + rest == all;
    if faults == [] {
      assert all == after;
    } else {
      FaultingSplit(faults, after);
      GetReturnsFirstResponse(faults[1..], response, rest);
      assert Faulting<T>(faults[1..]) + [Ok(response)] + rest == all[1..];
      assert Repeat(GetRetrySleep, |faults|) == [GetRetrySleep] + Repeat(GetRetrySleep, |faults| - 1);
      assert faults == [faults[0]] + faults[1..];
    }
  }

  // ---------------------------------------------------------------------------
  // The link card, the post and the loop.

  /** What the calls made for one submission end with: the two GETs (through `get`),
      and the upload and the post, which this version does not retry. */
  datatype LegacyReplies = LegacyReplies(extract: CallResult<ExtractReply>, image: CallResult<ImageReply>,
                                         upload: Outcome<BlobRef>, post: Outcome<string>)

  /** `extract_info` of this version: the same fallback and thumbnail rules as the
      current bot (`get_blob` is unchanged but for its calls), but a successful card
      links to the URL the metadata service reports. */
  function ExtractInfo(url: string, replies: LegacyReplies, shrink: seq<Byte> -> seq<Byte>): Step<Info>
  {
    var final := FinalUrl(url);
    var asked := [Get(ExtractEndpoint + final)];
    match replies.extract
    case Returned(NotJson) => Step(Raised(JSONDecodeError), asked, [])
    case Returned(Json(data)) =>
      if "Error" in data then Step(Returned(Fallback(final)), asked, [])
      else if "image" !in data then Step(Raised(KeyError("image")), asked, [])
      else if data["image"] == "" then Step(Returned(Fallback(final)), asked, [])
      else
        var blob := GetBlob(data["image"], replies.image, Settle(replies.upload), shrink);
        var requests := asked + blob.requests;
        if !blob.result.Returned? then Step(blob.result.Failed(), requests, [])
        else if "title" !in data then Step(Raised(KeyError("title")), requests, [])
        else if "description" !in data then Step(Raised(KeyError("description")), requests, [])
        else if "url" !in data then Step(Raised(KeyError("url")), requests, [])
        else Step(Returned(Info(blob.result.value, data["title"], data["description"], data["url"])), requests, [])
    case _ => Step(replies.extract.Failed(), asked, [])
  }

  /** The card of this version: the fallback card links to the final URL, while a card
      with a preview links to the reported `url`, which need not be the final URL. */
  lemma {:induction false} ExtractLinks(url: string, replies: LegacyReplies, shrink: seq<Byte> -> seq<Byte>)
    ensures var r := ExtractInfo(url, replies, shrink);
            && r.requests[0] == Get(ExtractEndpoint + FinalUrl(url))
            && (r.result.Returned? ==>
                  var data := replies.extract.value.data;
                  if "Error" in data || data["image"] == "" then r.result.value == Fallback(FinalUrl(url))
                  else "url" in data && r.result.value.uri == data["url"])
  {
  }

  /** An "Error" reply or an empty image gives `(None, final_url, "", final_url)`
      with no download. */
  lemma {:induction false} LegacyExtractFallback(url: string, replies: LegacyReplies, shrink: seq<Byte> -> seq<Byte>)
    requires replies.extract.Returned? && replies.extract.value.Json?
    requires var d := replies.extract.value.data;
             "Error" in d || ("image" in d && d["image"] == "")
    ensures ExtractInfo(url, replies, shrink).result == Returned(Info(None, FinalUrl(url), "", FinalUrl(url)))
    ensures ExtractInfo(url, replies, shrink).requests == [Get(ExtractEndpoint + FinalUrl(url))]
  {
  }

  /** With a preview, the card carries the uploaded thumbnail (none when the download
      did not answer 200) and the reply's title, description and `url`; the upload is
      tried once, and its fault, if any, propagates. */
  lemma {:induction false} LegacyExtractWithPreview(url: string, replies: LegacyReplies, shrink: seq<Byte> -> seq<Byte>)
    requires replies.extract.Returned? && replies.extract.value.Json?
    requires var d := replies.extract.value.data;
             "Error" !in d && "image" in d && d["image"] != "" && "title" in d && "description" in d && "url" in d
    requires replies.image.Returned?
    ensures var d := replies.extract.value.data;
            var r := ExtractInfo(url, replies, shrink);
            && r.requests[1] == Get(d["image"])
            && (replies.image.value.status != HttpOk ==>
                  r.result == Returned(Info(None, d["title"], d["description"], d["url"])))
            && (replies.image.value.status == HttpOk && replies.upload.Ok? ==>
                  r.result == Returned(Info(Some(replies.upload.value), d["title"], d["description"], d["url"])))
            && (replies.image.value.status == HttpOk && replies.upload.Raise? ==>
                  r.result == Raised(replies.upload.fault))
  {
  }

  /** A reported URL different from the final one is the link of the card. */
  lemma {:induction false} ReportedUrlWins(image: string, reported: string, replies: LegacyReplies, shrink: seq<Byte> -> seq<Byte>)
    requires image != "" && reported != "https://example.org/show"
    requires replies.extract == Returned(Json(map["image" := image, "title" := "t", "description" := "d", "url" := reported]))
    requires replies.image.Returned? && replies.upload.Ok?
    ensures ExtractInfo("https://example.org/show", replies, shrink).result.Returned?
    ensures ExtractInfo("https://example.org/show", replies, shrink).result.value.uri == reported
    ensures Pipeline.ExtractInfo("https://example.org/show",
                                 Replies(replies.extract, replies.image, Settle(replies.upload), Exhausted),
                                 shrink).result.value.uri == "https://example.org/show"
  {
    var data := map["image" := image, "title" := "t", "description" := "d", "url" := reported];
    assert "Error" !in data;
    assert "https://example.org/show"[0] == 'h';
  }

  /** The text of every post of this version. */
  function LegacyText(s: Submission): string
  {
    s.title + PostSuffix
  }

  /** `process_submission` of this version: the card, then one post with the title and
      the fixed hashtag; the URL of the new post is returned. */
  function ProcessSubmission(s: Submission, replies: LegacyReplies, shrink: seq<Byte> -> seq<Byte>): Step<string>
  {
    var card := ExtractInfo(s.url, replies, shrink);
    if !card.result.Returned? then Step(card.result.Failed(), card.requests, [])
    else
      var requests := card.requests + [Publish([Text(LegacyText(s))], card.result.value)];
      match replies.post
      case Ok(uri) => Step(Returned(LegacyPostUrlPrefix + LastSegment(uri)), requests, [])
      case Raise(f) => Step(Raised(f), requests, [])
  }

  /** The post is exactly the title followed by a line break and `#ShareAPodcast`, and
      the returned URL ends with the record key of the post's URI. */
  lemma {:induction false} LegacyPost(s: Submission, replies: LegacyReplies, shrink: seq<Byte> -> seq<Byte>, head: string, rkey: string)
    requires forall k :: 0 <= k < |rkey| ==> rkey[k] != '/'
    requires replies.post == Ok(head + "/" + rkey)
    requires ExtractInfo(s.url, replies, shrink).result.Returned?
    ensures var r := ProcessSubmission(s, replies, shrink);
            && r.requests[|r.requests| - 1].Publish?
            && Plain(r.requests[|r.requests| - 1].text) == s.title + "\n#ShareAPodcast"
            && r.result == Returned("https://bsky.app/profile/bot-tests.bsky.social/post/" + rkey)
  {
    LastSegmentAfterSlash(head, rkey);
    var text := [Text(LegacyText(s))];
    assert Plain(text) == LegacyText(s) + Plain([]);
  }

  /** One streamed submission, with what its calls end with (`save` goes through the
      patched session request). */
  datatype LegacyElement = LegacyElement(submission: Submission, replies: LegacyReplies, save: CallResult<()>)

  /** The loop body of this version's `main`. */
  function LegacyHandling(e: LegacyElement, shrink: seq<Byte> -> seq<Byte>): seq<Action>
  {
    var step := ProcessSubmission(e.submission, e.replies, shrink);
    if !step.result.Returned? then [Halt(step.result)]
    else if !e.save.Returned? then [Post(e.submission.id, step.result.value), Halt(e.save)]
    else [Post(e.submission.id, step.result.value), Save(e.submission.id)]
  }

  predicate Stopped(actions: seq<Action>)
  {
    |actions| > 0 && Ends(actions[|actions| - 1])
  }

  /** A loop body of this version: the actions of one pass over a streamed submission. */
  type LegacyBody = LegacyElement -> seq<Action>

  /** The body of this version's `main`, with `shrink` standing for the thumbnail reduction. */
  function LegacyLoopBody(shrink: seq<Byte> -> seq<Byte>): LegacyBody
  {
    e => LegacyHandling(e, shrink)
  }

  /** The actions of a loop with body `body` after the first `n` streamed submissions. */
  function LegacyTrace(body: LegacyBody, stream: seq<LegacyElement>, n: nat): seq<Action>
    requires n <= |stream|
  {
    if n == 0 then []
    else
      var before := LegacyTrace(body, stream, n - 1);
      if Stopped(before) then before else before + body(stream[n - 1])
  }

  /** This version's `main` over a finite stream. */
  method LegacyLoop(stream: seq<LegacyElement>, shrink: seq<Byte> -> seq<Byte>) returns (actions: seq<Action>)
    ensures actions == LegacyTrace(LegacyLoopBody(shrink), stream, |stream|)
  {
    actions := RunLoop(LegacyLoopBody(shrink), stream);
  }

  /** The `for` loop of `main`, with `body` for what it does with each submission: it
      breaks out once an action has ended it. */
  method RunLoop(body: LegacyBody, stream: seq<LegacyElement>) returns (actions: seq<Action>)
    ensures actions == LegacyTrace(body, stream, |stream|)
  {
    actions := [];
    for i := 0 to |stream|
      invariant actions == LegacyTrace(body, stream, i)
    {
      if Stopped(actions) {
        LegacyStaysStopped(body, stream, i, |stream|);
        return;
      }
      actions := actions + body(stream[i]);
    }
  }

  lemma {:induction false} LegacyStaysStopped(body: LegacyBody, stream: seq<LegacyElement>, i: nat, n: nat)
    requires i <= n <= |stream|
    requires Stopped(LegacyTrace(body, stream, i))
    ensures LegacyTrace(body, stream, n) == LegacyTrace(body, stream, i)
    decreases n - i
  {
    if i < n {
      LegacyStaysStopped(body, stream, i, n - 1);
    }
  }

  /** A pass that does not stop the loop posts the submission and then saves it. */
  predicate PostsThenSaves(e: LegacyElement, h: seq<Action>)
  {
    |h| > 0 && (!Ends(h[|h| - 1]) ==>
      |h| == 2 && h[0].Post? && h[0].id == e.submission.id && h[1] == Save(e.submission.id))
  }

  lemma {:induction false} LegacyHandlingPostsThenSaves(e: LegacyElement, shrink: seq<Byte> -> seq<Byte>)
    ensures PostsThenSaves(e, LegacyHandling(e, shrink))
  {
  }

  /** For a body whose every pass posts and then saves unless it stops the loop: until
      the loop stops, it has posted and saved each streamed submission, in order. */
  lemma {:induction false} TracePostsAndSaves(body: LegacyBody, stream: seq<LegacyElement>, n: nat)
    requires forall e {:trigger PostsThenSaves(e, body(e))} :: PostsThenSaves(e, body(e))
    requires n <= |stream|
    requires !Stopped(LegacyTrace(body, stream, n))
    ensures var actions := LegacyTrace(body, stream, n);
            && |actions| == 2 * n
            && forall k :: 0 <= k < n ==>
                 actions[2 * k].Post? && actions[2 * k].id == stream[k].submission.id
                 && actions[2 * k + 1] == Save(stream[k].submission.id)
    decreases n
  {
    if n > 0 {
      var before := LegacyTrace(body, stream, n - 1);
      var h := body(stream[n - 1]);
      var actions := LegacyTrace(body, stream, n);
      assert !Stopped(before);
      assert actions == before + h;
      assert PostsThenSaves(stream[n - 1], h);
      assert |h| == 2 && !Ends(h[1]) by {
        assert actions[|actions| - 1] == h[|h| - 1];
      }
      TracePostsAndSaves(body, stream, n - 1);
      forall k | 0 <= k < n
        ensures actions[2 * k].Post? && actions[2 * k].id == stream[k].submission.id
        ensures actions[2 * k + 1] == Save(stream[k].submission.id)
      {
        if k < n - 1 {
          assert actions[2 * k] == before[2 * k] && actions[2 * k + 1] == before[2 * k + 1];
        } else {
          assert actions[2 * k] == h[0] && actions[2 * k + 1] == h[1];
        }
      }
    }
  }

  /** Until a fault stops it, this version's loop posts and then saves every streamed
      submission, in stream order, with no filtering. */
  lemma {:induction false} PostsAndSavesEverything(stream: seq<LegacyElement>, n: nat, shrink: seq<Byte> -> seq<Byte>)
    requires n <= |stream|
    requires !Stopped(LegacyTrace(LegacyLoopBody(shrink), stream, n))
    ensures var actions := LegacyTrace(LegacyLoopBody(shrink), stream, n);
            && |actions| == 2 * n
            && forall k :: 0 <= k < n ==>
                 actions[2 * k].Post? && actions[2 * k].id == stream[k].submission.id
                 && actions[2 * k + 1] == Save(stream[k].submission.id)
  {
    var body := LegacyLoopBody(shrink);
    forall e
      ensures PostsThenSaves(e, body(e))
    {
      LegacyHandlingPostsThenSaves(e, shrink);
    }
    TracePostsAndSaves(body, stream, n);
  }
}
