/**
 * The submit logic of src/components/VideoForm.tsx: the blank-input and
 * extraction pre-checks, the round trip through `fetchVideoMetadata` to
 * the metadata endpoint, and the ordered classification of the error text
 * into the message the form shows, with its setup-guide hint.
 */
module VideoForm {
  import opened Wrappers
  import opened Strings
  import Route
  import YouTube

  const EnterUrl := "Please enter a YouTube URL or video ID"
  const InvalidUrl := "Invalid YouTube URL or video ID. Please check and try again."
  // Written in pieces that set apart the words the setup hint looks for.
  const SetupMessage := "YouTube API is " + "not configured" + ". Please check the setup guide."
  const NotFoundMessage := "Video not found. " + "Please check the " + "video ID or URL."
  const QuotaMessage := "API quota " + "exceeded. Please " + "try again later."
  const DisabledMessage := "Video statistics " + "are disabled " + "by the uploader."

  /** The ordered `includes` chain of lines 45-55: the first rule whose text the message contains decides. */
  function Classify(message: string): (r: string)
    ensures Contains(message, "not configured") ==> r == SetupMessage
    ensures !Contains(message, "not configured") && Contains(message, "not found") ==> r == NotFoundMessage
    ensures !Contains(message, "not configured") && !Contains(message, "not found") && Contains(message, "quota")
            ==> r == QuotaMessage
    ensures (!Contains(message, "not configured") && !Contains(message, "not found") && !Contains(message, "quota")
             && Contains(message, "disabled")) ==> r == DisabledMessage
    ensures (!Contains(message, "not configured") && !Contains(message, "not found")
             && !Contains(message, "quota") && !Contains(message, "disabled")) ==> r == message
    ensures r == message || r == SetupMessage || r == NotFoundMessage || r == QuotaMessage || r == DisabledMessage
  {
    if Contains(message, "not configured") then SetupMessage
    else if Contains(message, "not found") then NotFoundMessage
    else if Contains(message, "quota") then QuotaMessage
    else if Contains(message, "disabled") then DisabledMessage
    else message
  }

  /**
   * `error.includes('not configured')`: the setup-guide link is shown under
   * the error. The link sits inside the error box, which is drawn only for
   * a non-empty error; a text holding the phrase is never empty.
   */
  predicate ShowsSetupHint(error: string)
    ensures ShowsSetupHint(error) ==> error != ""
  {
    Contains(error, "not configured")
  }

  datatype Outcome = Shown(error: string) | Delivered(video: YouTube.VideoStats)

  /**
   * One submission of the input `url`: the endpoint is reached with the
   * extracted id, and the provider behind it is described by `apiKey`
   * and `reply`.
   */
  function Submit(url: string, apiKey: Option<string>, reply: Route.ProviderReply): (r: Outcome)
    ensures IsBlank(url) ==> r == Shown(EnterUrl)
    ensures !IsBlank(url) && YouTube.ExtractVideoId(url).None? ==> r == Shown(InvalidUrl)
    ensures r.Delivered? ==> YouTube.ExtractVideoId(url).Some? && r.video.id == YouTube.ExtractVideoId(url).value
  {
    if IsBlank(url) then Shown(EnterUrl)
    else match YouTube.ExtractVideoId(url)
      case None => Shown(InvalidUrl)
      case Some(videoId) =>
        var response := Route.Get(Some(videoId), apiKey, reply);
        YouTube.GetWellFormed(Some(videoId), apiKey, reply);
        match YouTube.FetchVideoMetadata(response)
        case Ok(video) => Delivered(video)
        case Err(message) => Shown(Classify(message))
  }

  class VideoForm {
    var url: string
    var error: string

    constructor ()
      ensures url == "" && error == ""
    {
      url, error := "", "";
    }

    /** `handleSubmit`; returns the record handed to `onVideoFetch`, if any. */
    method HandleSubmit(apiKey: Option<string>, reply: Route.ProviderReply) returns (fetched: Option<YouTube.VideoStats>)
      modifies this
      ensures match Submit(old(url), apiKey, reply)
        case Shown(message) => error == message && url == old(url) && fetched == None
        case Delivered(video) => error == "" && url == "" && fetched == Some(video)
    {
      error := "";
      if IsBlank(url) {
        error := EnterUrl;
        return None;
      }
      var videoId := YouTube.ExtractVideoId(url);
      if videoId.None? {
        error := InvalidUrl;
        return None;
      }
      var response := Route.Get(Some(videoId.value), apiKey, reply);
      YouTube.GetWellFormed(Some(videoId.value), apiKey, reply);
      var videoData := YouTube.FetchVideoMetadata(response);
      match videoData {
        case Ok(video) =>
          fetched := Some(video);
          url := "";
        case Err(message) =>
          error := Classify(message);
          fetched := None;
      }
    }
  }
}
