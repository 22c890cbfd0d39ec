/** How the current bot turns one submission into a Bluesky post: the Reddit URL
    helpers, the link-card metadata and thumbnail, the post text with its length
    budget, the post URL, and the error branch of the startup fetch.

    Every network call is given by the result the retried call ends with; the
    requests the bot issues are recorded in order, with the sub-statuses it shows. */
module Pipeline {
  import opened Common
  import opened Strings
  import opened Faults
  import opened Taxonomy
  import opened Status
  import opened Policy
  import opened Retry

  const FullUrlPrefix := "https://www.reddit.com"
  const ShortUrlPrefix := "https://redd.it/"
  const ExtractEndpoint := "https://cardyb.bsky.app/v1/extract?url="
  const PostUrlPrefix := "https://bsky.app/profile/"
  const PostMaxTextLength := 300
  const MaxImageSize := 976560
  const HttpOk := 200
  const HttpUnauthorized := 401

  // ---------------------------------------------------------------------------
  // Reddit URLs.

  /** `reddit_full_url`: the permalink is kept whole after the site prefix. */
  function FullUrl(permalink: string): (r: string)
    ensures StartsWith(r, FullUrlPrefix) && r[|FullUrlPrefix|..] == permalink
  {
    FullUrlPrefix + permalink
  }

  /** `reddit_short_url`: the submission id is kept whole after the short-link prefix. */
  function ShortUrl(s: Submission): (r: string)
    ensures StartsWith(r, ShortUrlPrefix) && r[|ShortUrlPrefix|..] == s.id
  {
    ShortUrlPrefix + s.id
  }

  /** The link a submission shares: a crosspost's `/r/...` link is made absolute. */
  function FinalUrl(url: string): string
  {
    if StartsWith(url, "/r/") then FullUrl(url) else url
  }

  /** A crosspost link becomes the full Reddit URL of that path, any other link is kept,
      and resolving twice changes nothing. */
  lemma {:induction false} FinalUrlResolves(url: string)
    ensures StartsWith(url, "/r/") ==> FinalUrl(url) == FullUrlPrefix + url
    ensures !StartsWith(url, "/r/") ==> FinalUrl(url) == url
    ensures StartsWith(url, "/r/") ==> !StartsWith(FinalUrl(url), "/r/")
    ensures FinalUrl(FinalUrl(url)) == FinalUrl(url)
  {
    if StartsWith(url, "/r/") {
      var f := FinalUrl(url);
      assert f[0] == 'h';
      assert !StartsWith(f, "/r/");
    }
  }

  // ---------------------------------------------------------------------------
  // Requests, replies and the record of one stage.

  newtype Byte = x: int | 0 <= x < 256

  /** The blob reference Bluesky returns for an uploaded image. */
  datatype BlobRef = BlobRef(link: string)

  /** The link card of a post: thumbnail, title, description and link. */
  datatype Info = Info(thumb: Option<BlobRef>, title: string, description: string, uri: string)

  /** A piece of the post text: plain text, or a hashtag facet with the tag it names. */
  datatype Segment = Text(text: string) | Tag(text: string, tag: string)

  /** What the bot asks of the network, in order. */
  datatype Request = Get(url: string) | Upload(data: seq<Byte>) | Publish(text: seq<Segment>, embed: Info)

  /** The body of the metadata service's reply: a JSON object (its string fields; a JSON
      null stands as the empty string), or a body that is not JSON. */
  datatype ExtractReply = Json(data: map<string, string>) | NotJson

  /** An HTTP response to an image download. */
  datatype ImageReply = ImageReply(status: int, content: seq<Byte>)

  /** What the retried calls of one submission end with. */
  datatype Replies = Replies(extract: CallResult<ExtractReply>, image: CallResult<ImageReply>,
                             upload: CallResult<BlobRef>, post: CallResult<string>)

  /** A stage of the pipeline: its result, the requests it made and the sub-statuses it showed. */
  datatype Step<+T> = Step(result: CallResult<T>, requests: seq<Request>, subStatuses: seq<string>)

  /** The configured values the post text is built from. */
  datatype Config = Config(hashtags: seq<string>, separator: string, template: string)

  /** What the model takes from libraries it does not contain: `str.format(post=...)`,
      `textwrap.shorten` and PIL's reduction of an image to a thumbnail. */
  datatype Hooks = Hooks(formatPost: (string, Submission) -> string,
                         shorten: (string, int) -> string,
                         shrink: seq<Byte> -> seq<Byte>)

  // ---------------------------------------------------------------------------
  // The thumbnail.

  /** The image data uploaded: reduced only when strictly larger than MAX_IMAGE_SIZE. */
  function ThumbnailData(content: seq<Byte>, shrink: seq<Byte> -> seq<Byte>): seq<Byte>
  {
    if |content| > MaxImageSize then shrink(content) else content
  }

  /** `get_blob`: downloads the image; any answer but 200 gives no blob; otherwise the
      (reduced) image is uploaded and its blob reference returned. */
  function GetBlob(imageUrl: string, image: CallResult<ImageReply>, upload: CallResult<BlobRef>,
                   shrink: seq<Byte> -> seq<Byte>): Step<Option<BlobRef>>
  {
    if !image.Returned? then Step(image.Failed(), [Get(imageUrl)], ["downloading thumbnail"])
    else if image.value.status != HttpOk then Step(Returned(None), [Get(imageUrl)], ["downloading thumbnail"])
    else
      var content := image.value.content;
      var subs := ["downloading thumbnail"]
                  + (if |content| > MaxImageSize then ["reducing thumbnail size"] else [])
                  + ["uploading blob"];
      var result := if upload.Returned? then Returned(Some(upload.value)) else upload.Failed();
      Step(result, [Get(imageUrl), Upload(ThumbnailData(content, shrink))], subs)
  }

  /** The image is always downloaded first; it is uploaded exactly when the download
      answered 200, and the only blob returned is the upload's. A failed download is the
      result; after a 200 the result is the upload's blob, or the upload's failure. */
  lemma {:induction false} GetBlobDecisions(imageUrl: string, image: CallResult<ImageReply>, upload: CallResult<BlobRef>,
                         shrink: seq<Byte> -> seq<Byte>)
    ensures var r := GetBlob(imageUrl, image, upload, shrink);
            && r.requests[0] == Get(imageUrl)
            && ((exists k :: 0 <= k < |r.requests| && r.requests[k].Upload?)
                <==> image.Returned? && image.value.status == HttpOk)
            && (r.result == Returned(None) <==> image.Returned? && image.value.status != HttpOk)
            && (forall b :: r.result == Returned(Some(b)) ==> upload == Returned(b))
            && (r.result.Raised? ==> (image.Raised? && r.result.fault == image.fault)
                                     || (upload.Raised? && r.result.fault == upload.fault))
            && (!image.Returned? ==> r.result == image.Failed())
            && (image.Returned? && image.value.status == HttpOk ==>
                  r.result == (if upload.Returned? then Returned(Some(upload.value)) else upload.Failed()))
  {
    var r := GetBlob(imageUrl, image, upload, shrink);
    if image.Returned? && image.value.status == HttpOk {
      assert r.requests[1].Upload?;
    }
  }

  /** The uploaded data is the downloaded content unless that is strictly larger than
      976560 bytes, in which case it is the reduced image. */
  lemma {:induction false} GetBlobResizesStrictly(imageUrl: string, image: CallResult<ImageReply>, upload: CallResult<BlobRef>,
                               shrink: seq<Byte> -> seq<Byte>, k: int)
    requires 0 <= k < |GetBlob(imageUrl, image, upload, shrink).requests|
    requires GetBlob(imageUrl, image, upload, shrink).requests[k].Upload?
    ensures image.Returned?
    ensures var data := GetBlob(imageUrl, image, upload, shrink).requests[k].data;
            var content := image.value.content;
            (|content| <= 976560 ==> data == content) && (|content| > 976560 ==> data == shrink(content))
  {
  }

  // ---------------------------------------------------------------------------
  // The link card.

  /** The card used when the metadata service has no preview: the link itself as title
      and link, with no thumbnail and no description. */
  function Fallback(finalUrl: string): Info
  {
    Info(None, finalUrl, "", finalUrl)
  }

  /** `extract_info`: asks the metadata service about the final URL; an "Error" reply
      or an empty image gives the fallback card; otherwise the thumbnail is fetched and
      the title and description are read from the reply (a missing key raises KeyError). */
  function ExtractInfo(url: string, replies: Replies, shrink: seq<Byte> -> seq<Byte>): Step<Info>
  {
    var final := FinalUrl(url);
    var asked := [Get(ExtractEndpoint + final)];
    var subs := ["extracting metadata"];
    match replies.extract
    case Returned(NotJson) => Step(Raised(JSONDecodeError), asked, subs)
    case Returned(Json(data)) =>
      if "Error" in data then Step(Returned(Fallback(final)), asked, subs)
      else if "image" !in data then Step(Raised(KeyError("image")), asked, subs)
      else if data["image"] == "" then Step(Returned(Fallback(final)), asked, subs)
      else
        var blob := GetBlob(data["image"], replies.image, replies.upload, shrink);
        var requests := asked + blob.requests;
        var shown := subs + blob.subStatuses;
        if !blob.result.Returned? then Step(blob.result.Failed(), requests, shown)
        else if "title" !in data then Step(Raised(KeyError("title")), requests, shown)
        else if "description" !in data then Step(Raised(KeyError("description")), requests, shown)
        else Step(Returned(Info(blob.result.value, data["title"], data["description"], final)), requests, shown)
    case _ => Step(replies.extract.Failed(), asked, subs)
  }

  /** The metadata service is always asked about the final URL first, and a successful
      card always links to that URL. */
  lemma {:induction false} ExtractAsksAboutFinalUrl(url: string, replies: Replies, shrink: seq<Byte> -> seq<Byte>)
    ensures var r := ExtractInfo(url, replies, shrink);
            && r.requests[0] == Get(ExtractEndpoint + FinalUrl(url))
            && (r.result.Returned? ==> r.result.value.uri == FinalUrl(url))
  {
  }

  /** An "Error" reply or an empty image gives `(None, final_url, "", final_url)` with
      no download at all. */
  lemma {:induction false} ExtractFallback(url: string, replies: Replies, shrink: seq<Byte> -> seq<Byte>)
    requires replies.extract.Returned? && replies.extract.value.Json?
    requires var data := replies.extract.value.data;
             "Error" in data || ("image" in data && data["image"] == "")
    ensures ExtractInfo(url, replies, shrink).result == Returned(Info(None, FinalUrl(url), "", FinalUrl(url)))
    ensures ExtractInfo(url, replies, shrink).requests == [Get(ExtractEndpoint + FinalUrl(url))]
  {
  }

  /** With a preview, the card carries the uploaded thumbnail (none when the download
      did not answer 200), the reply's title and description, and the final URL; the
      reply may carry any other keys. */
  lemma {:induction false} ExtractWithPreview(url: string, replies: Replies, shrink: seq<Byte> -> seq<Byte>)
    requires replies.extract.Returned? && replies.extract.value.Json?
    requires var d := replies.extract.value.data;
             "Error" !in d && "image" in d && d["image"] != "" && "title" in d && "description" in d
    requires replies.image.Returned? && replies.upload.Returned?
    ensures var d := replies.extract.value.data;
            var r := ExtractInfo(url, replies, shrink);
            var thumb := if replies.image.value.status == HttpOk then Some(replies.upload.value) else None;
            && r.result == Returned(Info(thumb, d["title"], d["description"], FinalUrl(url)))
            && r.requests[1] == Get(d["image"])
  {
  }

  // ---------------------------------------------------------------------------
  // The post text.

  /** The plain text of a list of segments. */
  function Plain(segments: seq<Segment>): string
  {
    if segments == [] then "" else segments[0].text + Plain(segments[1..])
  }

  /** The tags named by the hashtag facets of a list of segments, in order. */
  function Tags(segments: seq<Segment>): seq<string>
  {
    if segments == [] then []
    else (if segments[0].Tag? then [segments[0].tag] else []) + Tags(segments[1..])
  }

  /** Each tag with its `#`. */
  function Hashed(tags: seq<string>): (r: seq<string>)
    ensures |r| == |tags| && forall i :: 0 <= i < |tags| ==> r[i] == "#" + tags[i]
  {
    if tags == [] then [] else ["#" + tags[0]] + Hashed(tags[1..])
  }

  /** The hashtag facets, with a single space between neighbours. */
  function TagSegments(tags: seq<string>): seq<Segment>
  {
    if tags == [] then []
    else if |tags| == 1 then [Tag("#" + tags[0], tags[0])]
    else [Tag("#" + tags[0], tags[0]), Text(" ")] + TagSegments(tags[1..])
  }

  /** The hashtags of a submission: each configured template formatted with it. */
  function Hashtags(config: Config, hooks: Hooks, s: Submission): (r: seq<string>)
    ensures |r| == |config.hashtags|
  {
    seq(|config.hashtags|, i requires 0 <= i < |config.hashtags| => hooks.formatPost(config.hashtags[i], s))
  }

  /** The length reserved for the hashtags: their space-joined text plus one `#` each,
      and the separator when there is at least one. */
  function Reserved(tags: seq<string>, separator: string): int
  {
    |Join(" ", tags)| + |tags| + (if tags != [] then |separator| else 0)
  }

  /** The width the templated text is shortened to. */
  function Remaining(tags: seq<string>, separator: string): int
  {
    PostMaxTextLength - Reserved(tags, separator)
  }

  /** The text `shorten` makes of the templated text. */
  function Shortened(s: Submission, config: Config, hooks: Hooks): string
  {
    hooks.shorten(hooks.formatPost(config.template, s),
                  Remaining(Hashtags(config, hooks, s), config.separator))
  }

  /** `build_post_text`: the shortened text, then the separator and the hashtag
      facets when there are hashtags. */
  function PostText(s: Submission, config: Config, hooks: Hooks): seq<Segment>
  {
    var tags := Hashtags(config, hooks, s);
    [Text(Shortened(s, config, hooks))]
    + (if tags != [] then [Text(config.separator)] else [])
    + TagSegments(tags)
  }

  lemma {:induction false} PlainAppend(a: seq<Segment>, b: seq<Segment>)
    ensures Plain(a + b) == Plain(a) + Plain(b)
    decreases |a|
  {
    if a == [] {
      assert a + b == b;
    } else {
      assert (a + b)[1..] == a[1..] + b;
      PlainAppend(a[1..], b);
    }
  }

  lemma {:induction false} TagsAppend(a: seq<Segment>, b: seq<Segment>)
    ensures Tags(a + b) == Tags(a) + Tags(b)
    decreases |a|
  {
    if a == [] {
      assert a + b == b;
    } else {
      assert (a + b)[1..] == a[1..] + b;
      TagsAppend(a[1..], b);
    }
  }

  /** The hashtag facets read as `#tag` joined by single spaces, with nothing trailing,
      and name exactly the hashtags, in order. */
  lemma {:induction false} TagSegmentsText(tags: seq<string>)
    ensures Plain(TagSegments(tags)) == Join(" ", Hashed(tags))
    ensures Tags(TagSegments(tags)) == tags
    decreases |tags|
  {
    if |tags| == 1 {
      assert Plain([Tag("#" + tags[0], tags[0])]) == "#" + tags[0] + Plain([]);
      assert Tags([Tag("#" + tags[0], tags[0])]) == [tags[0]] + Tags([]);
    } else if |tags| > 1 {
      var head := [Tag("#" + tags[0], tags[0]), Text(" ")];
      TagSegmentsText(tags[1..]);
      PlainAppend(head, TagSegments(tags[1..]));
      TagsAppend(head, TagSegments(tags[1..]));
      assert Plain(head) == "#" + tags[0] + (" " + Plain(head[2..]));
      assert Tags(head) == [tags[0]] + ([] + Tags(head[2..]));
      assert Hashed(tags)[1..] == Hashed(tags[1..]);
      assert tags == [tags[0]] + tags[1..];
    }
  }

  /** Putting a `#` before each tag lengthens the joined text by one per tag. */
  lemma {:induction false} HashedJoinLength(tags: seq<string>)
    ensures |Join(" ", Hashed(tags))| == |Join(" ", tags)| + |tags|
    decreases |tags|
  {
    if |tags| > 1 {
      HashedJoinLength(tags[1..]);
      assert Hashed(tags)[1..] == Hashed(tags[1..]);
    }
  }

  /** The reserved length is exactly the length of what follows the shortened text,
      and the separator is there only when there are hashtags. */
  lemma {:induction false} SuffixIsReserved(s: Submission, config: Config, hooks: Hooks)
    ensures var text := PostText(s, config, hooks);
            var tags := Hashtags(config, hooks, s);
            && text[0] == Text(Shortened(s, config, hooks))
            && |Plain(text[1..])| == Reserved(tags, config.separator)
            && (tags == [] ==> |text| == 1)
            && (tags != [] ==> text[1] == Text(config.separator) && text[2..] == TagSegments(tags))
            && Tags(text) == tags
  {
    var tags := Hashtags(config, hooks, s);
    var sep := if tags != [] then [Text(config.separator)] else [];
    var text := PostText(s, config, hooks);
    assert text[1..] == sep + TagSegments(tags);
    PlainAppend(sep, TagSegments(tags));
    TagSegmentsText(tags);
    HashedJoinLength(tags);
    assert Plain(sep) == if tags != [] then config.separator else "";
    TagsAppend([text[0]], text[1..]);
    assert text == [text[0]] + text[1..];
    TagsAppend(sep, TagSegments(tags));
    assert Tags(sep) == [];
  }

  /** The post is the shortened text plus exactly the reserved length, so it fits the
      300-character limit whenever the shortened text fits its width. */
  lemma {:induction false} PostTextFits(s: Submission, config: Config, hooks: Hooks)
    ensures |Plain(PostText(s, config, hooks))|
            == |Shortened(s, config, hooks)| + (PostMaxTextLength - Remaining(Hashtags(config, hooks, s), config.separator))
    ensures |Shortened(s, config, hooks)| <= Remaining(Hashtags(config, hooks, s), config.separator)
            ==> |Plain(PostText(s, config, hooks))| <= PostMaxTextLength
  {
    var text := PostText(s, config, hooks);
    SuffixIsReserved(s, config, hooks);
    assert text == [text[0]] + text[1..];
    PlainAppend([text[0]], text[1..]);
    assert Plain([text[0]]) == text[0].text + Plain([]);
  }

  // ---------------------------------------------------------------------------
  // Posting.

  /** `BSKY_POST_URL` filled with the handle and the last path segment of the post's URI. */
  function PostUrl(handle: string, uri: string): string
  {
    PostUrlPrefix + handle + "/post/" + LastSegment(uri)
  }

  /** For a record URI `.../<rkey>`, the post URL ends with exactly that record key. */
  lemma {:induction false} PostUrlOfRecord(handle: string, head: string, rkey: string)
    requires forall k :: 0 <= k < |rkey| ==> rkey[k] != '/'
    ensures PostUrl(handle, head + "/" + rkey) == "https://bsky.app/profile/" + handle + "/post/" + rkey
  {
    LastSegmentAfterSlash(head, rkey);
  }

  /** `process_submission`: the link card, then the post text, then one post; the URL
      of the new post is returned. */
  function ProcessSubmission(s: Submission, config: Config, hooks: Hooks, handle: string, replies: Replies): Step<string>
  {
    var card := ExtractInfo(s.url, replies, hooks.shrink);
    if !card.result.Returned? then Step(card.result.Failed(), card.requests, card.subStatuses)
    else
      var requests := card.requests + [Publish(PostText(s, config, hooks), card.result.value)];
      var shown := card.subStatuses + ["constructing post text", "posting to Bluesky"];
      var result := if replies.post.Returned? then Returned(PostUrl(handle, replies.post.value)) else replies.post.Failed();
      Step(result, requests, shown)
  }

  /** The number of posts among some requests. */
  function Publishes(requests: seq<Request>): nat
  {
    if requests == [] then 0 else (if requests[0].Publish? then 1 else 0) + Publishes(requests[1..])
  }

  lemma {:induction false} PublishesAppend(a: seq<Request>, b: seq<Request>)
    ensures Publishes(a + b) == Publishes(a) + Publishes(b)
    decreases |a|
  {
    if a == [] {
      assert a + b == b;
    } else {
      assert (a + b)[1..] == a[1..] + b;
      PublishesAppend(a[1..], b);
    }
  }

  /** Fetching the card never posts. */
  lemma {:induction false} ExtractNeverPublishes(url: string, replies: Replies, shrink: seq<Byte> -> seq<Byte>)
    ensures Publishes(ExtractInfo(url, replies, shrink).requests) == 0
  {
    var final := FinalUrl(url);
    var asked := [Get(ExtractEndpoint + final)];
    assert Publishes(asked) == 0;
    if replies.extract.Returned? && replies.extract.value.Json? {
      var data := replies.extract.value.data;
      if "Error" !in data && "image" in data && data["image"] != "" {
        var blob := GetBlob(data["image"], replies.image, replies.upload, shrink);
        PublishesAppend(asked, blob.requests);
        assert Publishes(blob.requests) == 0 by {
          if |blob.requests| == 2 {
            assert blob.requests[1..][1..] == [];
          }
        }
      }
    }
  }

  /** A submission is posted at most once, and only after its card was built: then the
      post carries the built text and that card, and the result is the new post's URL. */
  lemma {:induction false} PublishesOnce(s: Submission, config: Config, hooks: Hooks, handle: string, replies: Replies)
    ensures var card := ExtractInfo(s.url, replies, hooks.shrink);
            var r := ProcessSubmission(s, config, hooks, handle, replies);
            && Publishes(r.requests) == (if card.result.Returned? then 1 else 0)
            && (card.result.Returned? ==>
                  r.requests[|r.requests| - 1] == Publish(PostText(s, config, hooks), card.result.value))
            && (r.result.Returned? ==>
                  card.result.Returned? && replies.post.Returned?
                  && r.result.value == PostUrl(handle, replies.post.value))
  {
    var card := ExtractInfo(s.url, replies, hooks.shrink);
    ExtractNeverPublishes(s.url, replies, hooks.shrink);
    if card.result.Returned? {
      var last := [Publish(PostText(s, config, hooks), card.result.value)];
      PublishesAppend(card.requests, last);
      assert Publishes(last) == 1 + Publishes([]);
    }
  }

  // ---------------------------------------------------------------------------
  // The startup fetch.

  /** What `recent_submissions` ends with, and the error lines it prints. */
  datatype Fetched = Fetched(result: CallResult<Option<seq<Submission>>>, console: seq<ConsoleLine>)

  /** The error branch of `recent_submissions`: the other prawcore exceptions are caught,
      except an exact ResponseException whose status is not 401, which is re-raised; a
      caught exception prints its description (the subreddit name filled in) and the
      result is None.  The description is looked up by exact class, so a caught class
      without one raises KeyError. */
  function RecentSubmissions(fetch: CallResult<seq<Submission>>, subreddit: string): Fetched
  {
    match fetch
    case Returned(list) => Fetched(Returned(Some(list)), [])
    case Exhausted => Fetched(Exhausted, [])
    case Raised(f) =>
      if !IsOtherPrawcoreException(f) then Fetched(Raised(f), [])
      else if f.ResponseException? && f.status != HttpUnauthorized then Fetched(Raised(f), [])
      else
        match DescriptionOf(f)
        case None => Fetched(Raised(KeyError(ClassName(f))), [])
        case Some(d) => Fetched(Returned(None), [ConsoleLine(d.Format(subreddit), true)])
  }

  /** Each branch: a fetched list is returned; a fault outside the other prawcore
      exceptions, or an exact ResponseException other than 401, propagates unprinted;
      a caught fault with a description prints it as an error and gives None. */
  lemma {:induction false} RecentBranches(fetch: CallResult<seq<Submission>>, subreddit: string)
    ensures var r := RecentSubmissions(fetch, subreddit);
            && (fetch.Returned? ==> r == Fetched(Returned(Some(fetch.value)), []))
            && (fetch.Raised? && !IsOtherPrawcoreException(fetch.fault) ==> r == Fetched(fetch.Failed(), []))
            && (fetch.Raised? && fetch.fault.ResponseException? && fetch.fault.status != 401
                ==> r == Fetched(fetch.Failed(), []))
            && (r.result == Returned(None) <==>
                  fetch.Raised? && IsOtherPrawcoreException(fetch.fault)
                  && !(fetch.fault.ResponseException? && fetch.fault.status != 401)
                  && DescriptionOf(fetch.fault).Some?)
            && (r.result == Returned(None) ==> |r.console| == 1 && r.console[0].isError)
  {
  }

  /** Behind the retry engine, the startup fetch raises the fault its call raised, except
      for a ResponseException subclass without a description (BadRequest, InvalidToken,
      ...): it is caught, the lookup by exact class misses, and KeyError is raised. */
  lemma {:induction false} RecentRaisesOnlyTheFetchFault(outcomes: seq<Outcome<seq<Submission>>>, subreddit: string)
    ensures var fetch := Run(outcomes, 1).result;
            var r := RecentSubmissions(fetch, subreddit);
            r.result.Raised? ==>
              && fetch.Raised?
              && (fetch.fault.OtherResponse? ==> r.result.fault == KeyError(fetch.fault.className))
              && (!fetch.fault.OtherResponse? ==> r.result.fault == fetch.fault)
  {
    RetriedNeverEscapes(outcomes, 1);
  }

  /** As written, a first attempt that raises such a subclass ends the startup fetch
      with a KeyError and prints nothing: the error the operator sees is not Reddit's. */
  lemma {:induction false} RecentCrashesOnUndescribedResponse(name: string, rest: seq<Outcome<seq<Submission>>>, subreddit: string)
    ensures var fetch := Run([Raise(OtherResponse(name))] + rest, 1).result;
            && fetch == Raised(OtherResponse(name))
            && RecentSubmissions(fetch, subreddit) == Fetched(Raised(KeyError(name)), [])
  {
  }

  /** `recent_submissions` with the miss handled: a caught exception without a
      description is re-raised as itself, as the exact ResponseException is. */
  function RecentSubmissionsCorrected(fetch: CallResult<seq<Submission>>, subreddit: string): Fetched
  {
    if fetch.Raised? && IsOtherPrawcoreException(fetch.fault) && DescriptionOf(fetch.fault).None?
    then Fetched(Raised(fetch.fault), [])
    else RecentSubmissions(fetch, subreddit)
  }

  /** The corrected fetch raises nothing but the fault its call raised, prints only when
      it gives None, and agrees with the code as written wherever the lookup succeeds. */
  lemma {:induction false} CorrectedRaisesOnlyTheFetchFault(fetch: CallResult<seq<Submission>>, subreddit: string)
    ensures var r := RecentSubmissionsCorrected(fetch, subreddit);
            && (r.result.Raised? ==> fetch.Raised? && r.result.fault == fetch.fault)
            && (r.console != [] ==> r.result == Returned(None))
            && (!fetch.Raised? || DescriptionOf(fetch.fault).Some?
                ==> r == RecentSubmissions(fetch, subreddit))
  {
  }

  /** The subreddit messages name the subreddit. */
  lemma {:induction false} RecentNamesSubreddit(f: Fault, subreddit: string)
    requires f.Redirect? || f.Forbidden? || f.NotFound?
    ensures RecentSubmissions(Raised(f), subreddit).console == [ConsoleLine(
              "The subreddit r/" + subreddit +
              (match f
               case Redirect => " probably doesn't exist"
               case Forbidden => " is probably set to private (only approved members can access it)"
               case _ => " is probably banned"), true)]
  {
  }
}
