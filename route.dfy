/**
 * The metadata proxy endpoint of src/app/api/youtube/route.ts: the
 * reshaping of one provider reply into a `VideoMetadata` record
 * (`fetchVideoStats`) and the `GET` handler that validates the id and maps
 * error messages to HTTP statuses. The provider request itself is an
 * input: its reply, or the message of the error it raised.
 */
module Route {
  import opened Wrappers
  import opened Strings
  import Duration

  /** `VideoMetadata`, the record the endpoint returns. */
  datatype VideoMetadata = VideoMetadata(
    id: string,
    title: string,
    channel: string,
    views: nat,
    likes: nat,
    comments: nat,
    duration: string,
    uploadDate: string,
    thumbnail: Option<string>,  // None: the chain of `||` ended on an absent url (undefined)
    description: string)

  /** The `url` of each of `snippet.thumbnails.{maxres,high,default}`, when present. */
  datatype Thumbnails = Thumbnails(maxres: Option<string>, high: Option<string>, default: Option<string>)

  /** The provider's counters; each is a digit string and may be absent. */
  datatype Statistics = Statistics(
    viewCount: Option<DigitString>,
    likeCount: Option<DigitString>,
    commentCount: Option<DigitString>)

  /** One element of the provider's `items`: the fields of its snippet, statistics and content details. */
  datatype Item = Item(
    title: string,
    channelTitle: string,
    description: string,
    publishedAt: string,
    thumbnails: Thumbnails,
    duration: string,
    statistics: Statistics)

  /** What the provider request produced: an error with its message, or a body whose `items` may be absent. */
  datatype ProviderReply = Failed(message: string) | Replied(items: Option<seq<Item>>)

  datatype Body = Record(video: VideoMetadata) | Error(error: string)

  /** The JSON body and the status of the `NextResponse`. */
  datatype Response = Response(status: nat, body: Body)

  // The texts are written in pieces that set apart the words the error rules look for.
  const KeyNotConfigured := "YouTube " + "API key" + " not configured"
  const VideoNotFound := "Video not found"
  const RequiredBody := "videoId parameter is re" + "quired"
  const InvalidFormatBody := "Invalid " + "video ID " + "format"
  const NotFoundBody := "Video " + "not found" + ". Please check the video ID."
  const NotConfiguredBody := "YouTube API is " + "not configured" + ". Please set up your API key."
  const QuotaBody := "YouTube API " + "quota" + " exceeded. Please try again later."

  /** A character of `[a-zA-Z0-9_-]`. */
  predicate IsIdChar(c: char)
  {
    ('a' <= c <= 'z') || ('A' <= c <= 'Z') || ('0' <= c <= '9') || c == '_' || c == '-'
  }

  /**
   * `/^[a-zA-Z0-9_-]{11}$/.test(s)`. An accepted id holds no white space
   * and none of the characters that delimit a URL's parts, so it stands
   * in the query string as it is.
   */
  predicate IsVideoIdFormat(s: string)
    ensures IsVideoIdFormat(s) ==> forall i :: 0 <= i < |s| ==>
      !IsWhiteSpace(s[i]) && s[i] !in {'&', '?', '#', '=', '/', '%', '+'}
  {
    |s| == 11 && forall i :: 0 <= i < |s| ==> IsIdChar(s[i])
  }

  predicate IsFilled(url: Option<string>)
  {
    url.Some? && url.value != ""
  }

  /**
   * `maxres?.url || high?.url || default?.url`: `||` skips an absent or
   * empty url and returns its last operand as it is.
   */
  function BestThumbnail(t: Thumbnails): (r: Option<string>)
    ensures r == t.maxres || r == t.high || r == t.default
    ensures IsFilled(t.maxres) ==> r == t.maxres
    ensures !IsFilled(t.maxres) && IsFilled(t.high) ==> r == t.high
    ensures !IsFilled(t.maxres) && !IsFilled(t.high) ==> r == t.default
    ensures IsFilled(r) <==> IsFilled(t.maxres) || IsFilled(t.high) || IsFilled(t.default)
  {
    if IsFilled(t.maxres) then t.maxres
    else if IsFilled(t.high) then t.high
    else t.default
  }

  /** `parseInt(count || '0')`. */
  function Counter(count: Option<DigitString>): (r: nat)
    ensures count.None? || count == Some("") ==> r == 0
    ensures forall n: nat :: count == Some(NatToString(n)) ==> r == n
  {
    match count
    case None => 0
    case Some(digits) => ParseDigits(digits)
  }

  /** `new Date(t).toISOString().split('T')[0]`, for a timestamp already in UTC. */
  function UploadDate(publishedAt: string): (r: string)
    ensures r <= publishedAt && 'T' !in r
    ensures |r| < |publishedAt| ==> publishedAt[|r|] == 'T'
  {
    SplitHead(publishedAt, 'T');
    Split(publishedAt, 'T')[0]
  }

  /** The record built from the first item (route.ts lines 64-93). */
  function Normalize(videoId: string, item: Item): (r: VideoMetadata)
    ensures r.id == videoId
    ensures r.title == item.title && r.channel == item.channelTitle && r.description == item.description
    ensures r.views == Counter(item.statistics.viewCount)
    ensures r.likes == Counter(item.statistics.likeCount)
    ensures r.comments == Counter(item.statistics.commentCount)
    ensures r.thumbnail == BestThumbnail(item.thumbnails)
    ensures r.duration == Duration.FormatDuration(item.duration)
    ensures r.uploadDate == UploadDate(item.publishedAt)
  {
    VideoMetadata(
      id := videoId,
      title := item.title,
      channel := item.channelTitle,
      views := Counter(item.statistics.viewCount),
      likes := Counter(item.statistics.likeCount),
      comments := Counter(item.statistics.commentCount),
      duration := Duration.FormatDuration(item.duration),
      uploadDate := UploadDate(item.publishedAt),
      thumbnail := BestThumbnail(item.thumbnails),
      description := item.description)
  }

  /** `fetchVideoStats(videoId)`, with the configured key and the provider's reply as inputs. */
  function FetchVideoStats(apiKey: Option<string>, videoId: string, reply: ProviderReply): (r: Result<VideoMetadata, string>)
    ensures !IsFilled(apiKey) ==> r == Err(KeyNotConfigured)
    ensures IsFilled(apiKey) && reply.Failed? ==> r == Err(reply.message)
    ensures IsFilled(apiKey) && reply.Replied? && (reply.items.None? || reply.items == Some([]))
            ==> r == Err(VideoNotFound)
    ensures r.Ok? <==> IsFilled(apiKey) && reply.Replied? && reply.items.Some? && |reply.items.value| > 0
    ensures r.Ok? ==> r.value == Normalize(videoId, reply.items.value[0])
  {
    if !IsFilled(apiKey) then Err(KeyNotConfigured)
    else match reply
      case Failed(message) => Err(message)
      case Replied(items) =>
        if items.None? || |items.value| == 0 then Err(VideoNotFound)
        else Ok(Normalize(videoId, items.value[0]))
  }

  /** The `catch` block of `GET`: the first rule whose text the message contains decides. */
  function ErrorResponse(message: string): (r: Response)
    ensures r.body.Error?
    ensures r.status == 404 <==> Contains(message, "Video not found")
    ensures r.status == 429 <==> !Contains(message, "Video not found") && !Contains(message, "API key")
                                 && Contains(message, "quotaExceeded")
    ensures r.status == 500 <==> !Contains(message, "Video not found")
                                 && (Contains(message, "API key") || !Contains(message, "quotaExceeded"))
    ensures r.status == 404 ==> r.body.error == NotFoundBody
    ensures r.status == 429 ==> r.body.error == QuotaBody
    ensures r.status == 500 && Contains(message, "API key") ==> r.body.error == NotConfiguredBody
    ensures r.status == 500 && !Contains(message, "API key") ==> r.body.error == message
  {
    if Contains(message, "Video not found") then Response(404, Error(NotFoundBody))
    else if Contains(message, "API key") then Response(500, Error(NotConfiguredBody))
    else if Contains(message, "quotaExceeded") then Response(429, Error(QuotaBody))
    else Response(500, Error(message))
  }

  /** `GET /api/youtube?videoId=…`; `videoId` is the query parameter, None when it is missing. */
  function Get(videoId: Option<string>, apiKey: Option<string>, reply: ProviderReply): (r: Response)
    ensures !IsFilled(videoId) ==> r == Response(400, Error(RequiredBody))
    ensures IsFilled(videoId) && !IsVideoIdFormat(videoId.value) ==> r == Response(400, Error(InvalidFormatBody))
    ensures r.status == 200 <==> r.body.Record?
  {
    if !IsFilled(videoId) then Response(400, Error(RequiredBody))
    else if !IsVideoIdFormat(videoId.value) then Response(400, Error(InvalidFormatBody))
    else match FetchVideoStats(apiKey, videoId.value, reply)
      case Ok(video) => Response(200, Record(video))
      case Err(message) => ErrorResponse(message)
  }

  // ---------------------------------------------------------------------
  // Properties

  /** A rejected id never reaches the provider: the response depends on neither the key nor the reply. */
  lemma RejectedIdSkipsFetch(videoId: Option<string>, k1: Option<string>, r1: ProviderReply, k2: Option<string>, r2: ProviderReply)
    requires !IsFilled(videoId) || !IsVideoIdFormat(videoId.value)
    ensures Get(videoId, k1, r1) == Get(videoId, k2, r2)
    ensures Get(videoId, k1, r1).status == 400
  {
  }

  /** The message of a missing key selects the not-configured rule and no other. */
  lemma KeyMessageRule()
    ensures ErrorResponse(KeyNotConfigured) == Response(500, Error(NotConfiguredBody))
  {
    MissingChar(KeyNotConfigured, "Video not found", 0);
    ContainsMiddle("YouTube ", "API key", " not configured");
  }

  lemma NotFoundMessageRule()
    ensures ErrorResponse(VideoNotFound) == Response(404, Error(NotFoundBody))
  {
    ContainsMiddle("", "Video not found", "");
    assert "" + "Video not found" + "" == VideoNotFound;
  }

  /** A well-formed id with no key configured gives 500 with the not-configured text, whatever the provider would say. */
  lemma MissingKeyIs500(videoId: string, apiKey: Option<string>, reply: ProviderReply)
    requires IsVideoIdFormat(videoId) && !IsFilled(apiKey)
    ensures Get(Some(videoId), apiKey, reply) == Response(500, Error(NotConfiguredBody))
  {
    KeyMessageRule();
  }

  /** An absent or empty `items` list gives 404. */
  lemma NoItemsIs404(videoId: string, apiKey: string, items: Option<seq<Item>>)
    requires IsVideoIdFormat(videoId) && apiKey != ""
    requires items.None? || items == Some([])
    ensures Get(Some(videoId), Some(apiKey), Replied(items)) == Response(404, Error(NotFoundBody))
  {
    NotFoundMessageRule();
  }

  /** An error raised by the provider request is classified by its message alone. */
  lemma ProviderErrorClassified(videoId: string, apiKey: string, message: string)
    requires IsVideoIdFormat(videoId) && apiKey != ""
    ensures Get(Some(videoId), Some(apiKey), Failed(message)) == ErrorResponse(message)
  {
  }

  /** `parseInt` skips leading zeros: a zero-padded decimal text of `n` still counts `n`. */
  lemma CounterLeadingZeros(k: nat, n: nat)
    ensures AllDigits(Zeros(k) + NatToString(n)) && Counter(Some(Zeros(k) + NatToString(n))) == n
  {
    ParseZeroRun(k, NatToString(n));
  }

  /**
   * On success the record carries the requested id, zero for every absent
   * or empty counter, the highest-resolution thumbnail that has a url and
   * the formatted duration.
   */
  lemma SuccessRecord(videoId: string, apiKey: string, items: seq<Item>)
    requires IsVideoIdFormat(videoId) && apiKey != "" && |items| > 0
    ensures var r := Get(Some(videoId), Some(apiKey), Replied(Some(items)));
      var item := items[0];
      && r.status == 200
      && r.body.video.id == videoId
      && r.body.video == Normalize(videoId, item)
      && (item.statistics.viewCount.None? || item.statistics.viewCount == Some("") ==> r.body.video.views == 0)
      && (item.statistics.likeCount.None? || item.statistics.likeCount == Some("") ==> r.body.video.likes == 0)
      && (item.statistics.commentCount.None? || item.statistics.commentCount == Some("") ==> r.body.video.comments == 0)
      && (IsFilled(item.thumbnails.maxres) ==> r.body.video.thumbnail == item.thumbnails.maxres)
      && (!IsFilled(item.thumbnails.maxres) && IsFilled(item.thumbnails.high) ==> r.body.video.thumbnail == item.thumbnails.high)
      && (!IsFilled(item.thumbnails.maxres) && !IsFilled(item.thumbnails.high) ==> r.body.video.thumbnail == item.thumbnails.default)
      && r.body.video.duration == Duration.FormatDuration(item.duration)
  {
  }

  /** A provider item without `viewCount` still gives a record, with 0 views. */
  lemma OmittedViewCount(apiKey: string, item: Item)
    requires apiKey != "" && item.statistics.viewCount.None?
    ensures var r := Get(Some("dQw4w9WgXcQ"), Some(apiKey), Replied(Some([item])));
      r.status == 200 && r.body.video.views == 0
  {
    assert IsVideoIdFormat("dQw4w9WgXcQ");
  }

  /** The calendar date of a UTC timestamp `date"T"time` is the part before the `T`. */
  lemma UploadDateOfTimestamp(date: string, time: string)
    requires 'T' !in date
    ensures UploadDate(date + "T" + time) == date
  {
    SplitAtSep(date, 'T', time);
  }
}
