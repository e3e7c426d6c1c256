/**
 * How the texts the metadata endpoint can answer with reach the user
 * through the video form: which words of the form's classification rules
 * each text contains, and the end-to-end outcomes of a submission.
 */
module FormMessages {
  import opened Wrappers
  import opened Strings
  import Route
  import YouTube
  import opened VideoForm

  // ---------------------------------------------------------------------
  // The endpoint's messages as the form shows them

  /** The endpoint's 404 text names an absent video and nothing else the rules look for. */
  lemma NotFoundBodyWords()
    ensures Contains(Route.NotFoundBody, "not found") && !Contains(Route.NotFoundBody, "not configured")
  {
    ContainsMiddle("Video ", "not found", ". Please check the video ID.");
    assert "not configured"[9] == 'g';
    assert 'g' !in "Video " && 'g' !in "not found" && 'g' !in ". Please check the video ID.";
    MissingChar(Route.NotFoundBody, "not configured", 9);
  }

  lemma NotFoundBodyShown()
    ensures Classify(Route.NotFoundBody) == NotFoundMessage
  {
    NotFoundBodyWords();
  }

  lemma NotConfiguredBodyWords()
    ensures Contains(Route.NotConfiguredBody, "not configured")
  {
    ContainsMiddle("YouTube API is ", "not configured", ". Please set up your API key.");
  }

  lemma NotConfiguredBodyShown()
    ensures Classify(Route.NotConfiguredBody) == SetupMessage
  {
    NotConfiguredBodyWords();
  }

  /** The endpoint's 429 text names the quota only. */
  lemma QuotaBodyWords()
    ensures Contains(Route.QuotaBody, "quota")
    ensures !Contains(Route.QuotaBody, "not configured") && !Contains(Route.QuotaBody, "not found")
  {
    ContainsMiddle("YouTube API ", "quota", " exceeded. Please try again later.");
    assert 'f' !in "YouTube API " && 'f' !in "quota" && 'f' !in " exceeded. Please try again later.";
    assert "not configured"[7] == 'f' && "not found"[4] == 'f';
    MissingChar(Route.QuotaBody, "not configured", 7);
    MissingChar(Route.QuotaBody, "not found", 4);
  }

  lemma QuotaBodyShown()
    ensures Classify(Route.QuotaBody) == QuotaMessage
  {
    QuotaBodyWords();
  }

  /** The 400 texts contain none of the rules' words and are shown as they are. */
  lemma InvalidFormatBodyNamesNoFault()
    ensures !Contains(Route.InvalidFormatBody, "not configured") && !Contains(Route.InvalidFormatBody, "not found")
  {
    assert "not configured"[9] == 'g' && "not found"[6] == 'u';
    assert 'g' !in "Invalid " && 'g' !in "video ID " && 'g' !in "format";
    assert 'u' !in "Invalid " && 'u' !in "video ID " && 'u' !in "format";
    MissingChar(Route.InvalidFormatBody, "not configured", 9);
    MissingChar(Route.InvalidFormatBody, "not found", 6);
  }

  lemma InvalidFormatBodyNamesNoLimit()
    ensures !Contains(Route.InvalidFormatBody, "quota") && !Contains(Route.InvalidFormatBody, "disabled")
  {
    assert "quota"[0] == 'q' && "disabled"[4] == 'b';
    assert 'q' !in "Invalid " && 'q' !in "video ID " && 'q' !in "format";
    assert 'b' !in "Invalid " && 'b' !in "video ID " && 'b' !in "format";
    MissingChar(Route.InvalidFormatBody, "quota", 0);
    MissingChar(Route.InvalidFormatBody, "disabled", 4);
  }

  lemma InvalidFormatBodyRaw()
    ensures Classify(Route.InvalidFormatBody) == Route.InvalidFormatBody
  {
    InvalidFormatBodyNamesNoFault();
    InvalidFormatBodyNamesNoLimit();
  }

  lemma RequiredBodyWords()
    ensures !Contains(Route.RequiredBody, "not configured") && !Contains(Route.RequiredBody, "not found")
    ensures !Contains(Route.RequiredBody, "disabled")
  {
    assert 'f' !in "videoId parameter is re" && 'f' !in "quired";
    assert 'b' !in "videoId parameter is re" && 'b' !in "quired";
    assert "not configured"[7] == 'f' && "not found"[4] == 'f' && "disabled"[4] == 'b';
    MissingChar(Route.RequiredBody, "not configured", 7);
    MissingChar(Route.RequiredBody, "not found", 4);
    MissingChar(Route.RequiredBody, "disabled", 4);
  }

  lemma RequiredBodyRaw()
    ensures Classify(Route.RequiredBody) == Route.RequiredBody
  {
    RequiredBodyWords();
    NoQuotaInRequired();
  }

  lemma NoQuotaInRequired()
    ensures !Contains(Route.RequiredBody, "quota")
  {
    assert 'q' !in "videoId parameter is re";
    SkipHead("videoId parameter is re", "quired", "quota");
    ContainsCons("quired", "quota");
    assert "quired"[..5][2] != "quota"[2];
    assert "quired"[1..] == "uired";
    MissingChar("uired", "quota", 0);
  }

  /** Of the form's own messages only the setup message names the configuration. */
  lemma SetupMessageHinted()
    ensures ShowsSetupHint(SetupMessage)
  {
    ContainsMiddle("YouTube API is ", "not configured", ". Please check the setup guide.");
  }

  lemma NotFoundMessageUnhinted()
    ensures !ShowsSetupHint(NotFoundMessage)
  {
    assert 'g' !in "Video not found. " && 'g' !in "Please check the " && 'g' !in "video ID or URL.";
    assert "not configured"[9] == 'g';
    MissingChar(NotFoundMessage, "not configured", 9);
  }

  lemma QuotaMessageUnhinted()
    ensures !ShowsSetupHint(QuotaMessage)
  {
    assert 'f' !in "API quota " && 'f' !in "exceeded. Please " && 'f' !in "try again later.";
    assert "not configured"[7] == 'f';
    MissingChar(QuotaMessage, "not configured", 7);
  }

  lemma DisabledMessageUnhinted()
    ensures !ShowsSetupHint(DisabledMessage)
  {
    assert 'f' !in "Video statistics " && 'f' !in "are disabled " && 'f' !in "by the uploader.";
    assert "not configured"[7] == 'f';
    MissingChar(DisabledMessage, "not configured", 7);
  }

  /** The setup hint is shown exactly when the error text that reached the form names the configuration. */
  lemma SetupHintIff(message: string)
    ensures ShowsSetupHint(Classify(message)) <==> Contains(message, "not configured")
  {
    SetupMessageHinted();
    NotFoundMessageUnhinted();
    QuotaMessageUnhinted();
    DisabledMessageUnhinted();
  }

  // ---------------------------------------------------------------------
  // End to end

  /** Without a key the endpoint's 500 reaches the form as the setup message, with the hint. */
  lemma MissingKeyShowsSetup(url: string, apiKey: Option<string>, reply: Route.ProviderReply)
    requires !IsBlank(url) && YouTube.ExtractVideoId(url).Some?
    requires Route.IsVideoIdFormat(YouTube.ExtractVideoId(url).value) && !Route.IsFilled(apiKey)
    ensures Submit(url, apiKey, reply) == Shown(SetupMessage) && ShowsSetupHint(SetupMessage)
  {
    Route.MissingKeyIs500(YouTube.ExtractVideoId(url).value, apiKey, reply);
    NotConfiguredBodyShown();
    SetupMessageHinted();
  }

  /** A provider without the video reaches the form as the not-found message. */
  lemma UnknownVideoShowsNotFound(url: string, apiKey: string, items: Option<seq<Route.Item>>)
    requires !IsBlank(url) && YouTube.ExtractVideoId(url).Some?
    requires Route.IsVideoIdFormat(YouTube.ExtractVideoId(url).value) && apiKey != ""
    requires items.None? || items == Some([])
    ensures Submit(url, Some(apiKey), Route.Replied(items)) == Shown(NotFoundMessage)
  {
    Route.NoItemsIs404(YouTube.ExtractVideoId(url).value, apiKey, items);
    NotFoundBodyShown();
  }

  /** A provider failure reaches the form as the endpoint's classified text, classified again by the form. */
  lemma ProviderFailureShown(url: string, apiKey: string, message: string)
    requires !IsBlank(url) && YouTube.ExtractVideoId(url).Some?
    requires Route.IsVideoIdFormat(YouTube.ExtractVideoId(url).value) && apiKey != "" && message != ""
    ensures Submit(url, Some(apiKey), Route.Failed(message)) == Shown(Classify(Route.ErrorResponse(message).body.error))
  {
    Route.ProviderErrorClassified(YouTube.ExtractVideoId(url).value, apiKey, message);
  }

  /** The fallback text of the metadata fetch contains none of the rules' words. */
  lemma FetchFailedNamesNoFault()
    ensures !Contains(YouTube.FetchFailed, "not configured") && !Contains(YouTube.FetchFailed, "not found")
  {
    assert !Contains(YouTube.FetchFailed, "not configured") by {
      assert "not configured"[9] == 'g';
      assert 'g' !in "Failed to " && 'g' !in "fetch " && 'g' !in "video metadata";
      MissingChar(YouTube.FetchFailed, "not configured", 9);
    }
    assert "not found"[6] == 'u';
    assert 'u' !in "Failed to " && 'u' !in "fetch " && 'u' !in "video metadata";
    MissingChar(YouTube.FetchFailed, "not found", 6);
  }

  lemma FetchFailedNamesNoLimit()
    ensures !Contains(YouTube.FetchFailed, "quota") && !Contains(YouTube.FetchFailed, "disabled")
  {
    assert !Contains(YouTube.FetchFailed, "quota") by {
      assert "quota"[0] == 'q';
      assert 'q' !in "Failed to " && 'q' !in "fetch " && 'q' !in "video metadata";
      MissingChar(YouTube.FetchFailed, "quota", 0);
    }
    assert "disabled"[4] == 'b';
    assert 'b' !in "Failed to " && 'b' !in "fetch " && 'b' !in "video metadata";
    MissingChar(YouTube.FetchFailed, "disabled", 4);
  }

  lemma FetchFailedRaw()
    ensures Classify(YouTube.FetchFailed) == YouTube.FetchFailed
  {
    FetchFailedNamesNoFault();
    FetchFailedNamesNoLimit();
  }

  /**
   * A provider failure without a message: the endpoint answers 500 with an
   * empty text, which the fetch replaces by its fallback, shown as it is.
   */
  lemma EmptyProviderFailureShown(url: string, apiKey: string)
    requires !IsBlank(url) && YouTube.ExtractVideoId(url).Some?
    requires Route.IsVideoIdFormat(YouTube.ExtractVideoId(url).value) && apiKey != ""
    ensures Submit(url, Some(apiKey), Route.Failed("")) == Shown(YouTube.FetchFailed)
  {
    Route.ProviderErrorClassified(YouTube.ExtractVideoId(url).value, apiKey, "");
    MissingChar("", "Video not found", 0);
    MissingChar("", "API key", 0);
    MissingChar("", "quotaExceeded", 0);
    assert Route.ErrorResponse("") == Route.Response(500, Route.Error(""));
    FetchFailedRaw();
  }

  /** A provider's quota error reaches the form as the quota message. */
  lemma QuotaExceededShown(url: string, apiKey: string, message: string)
    requires !IsBlank(url) && YouTube.ExtractVideoId(url).Some?
    requires Route.IsVideoIdFormat(YouTube.ExtractVideoId(url).value) && apiKey != ""
    requires Contains(message, "quotaExceeded") && !Contains(message, "Video not found") && !Contains(message, "API key")
    ensures Submit(url, Some(apiKey), Route.Failed(message)) == Shown(QuotaMessage)
  {
    Route.ProviderErrorClassified(YouTube.ExtractVideoId(url).value, apiKey, message);
    QuotaBodyShown();
  }

  /**
   * An extracted id that fails the endpoint's format check (the URL
   * pattern does not check the length) is answered with the endpoint's 400
   * text, which the form shows as it is.
   */
  lemma MalformedIdShowsFormatError(url: string, apiKey: Option<string>, reply: Route.ProviderReply)
    requires !IsBlank(url) && YouTube.ExtractVideoId(url).Some?
    requires !Route.IsVideoIdFormat(YouTube.ExtractVideoId(url).value)
    ensures Submit(url, apiKey, reply) == Shown(Route.InvalidFormatBody)
  {
    var id := YouTube.ExtractVideoId(url).value;
    var resp := Route.Get(Some(id), apiKey, reply);
    assert resp == Route.Response(400, Route.Error(Route.InvalidFormatBody));
    assert YouTube.FetchVideoMetadata(resp) == Err(Route.InvalidFormatBody);
    InvalidFormatBodyRaw();
  }

  /**
   * A short link whose id is too short passes extraction but not the
   * endpoint's format check. The url is a parameter pinned by `requires`,
   * written in pieces, as in the examples of the YouTube module.
   */
  lemma ShortIdShowsFormatError(url: string, apiKey: Option<string>, reply: Route.ProviderReply)
    requires url == "youtu.be/" + "abc"
    ensures Submit(url, apiKey, reply) == Shown(Route.InvalidFormatBody)
  {
    YouTube.ShortIdAccepted(url);
    assert !IsBlank(url) by { assert !IsWhiteSpace(url[0]); }
    MalformedIdShowsFormatError(url, apiKey, reply);
  }

  /** A provider reply with an item delivers its record under the extracted id. */
  lemma FoundVideoDelivered(url: string, apiKey: string, items: seq<Route.Item>)
    requires !IsBlank(url) && YouTube.ExtractVideoId(url).Some?
    requires Route.IsVideoIdFormat(YouTube.ExtractVideoId(url).value) && apiKey != "" && |items| > 0
    ensures Submit(url, Some(apiKey), Route.Replied(Some(items)))
            == Delivered(YouTube.FromMetadata(Route.Normalize(YouTube.ExtractVideoId(url).value, items[0])))
  {
    var id := YouTube.ExtractVideoId(url).value;
    var resp := Route.Get(Some(id), Some(apiKey), Route.Replied(Some(items)));
    assert Route.FetchVideoStats(Some(apiKey), id, Route.Replied(Some(items))) == Ok(Route.Normalize(id, items[0]));
    assert resp == Route.Response(200, Route.Record(Route.Normalize(id, items[0])));
  }
}
