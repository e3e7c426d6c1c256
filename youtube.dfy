/**
 * The client helpers of src/lib/youtube.ts: `extractVideoId`, which reads a
 * video id out of a pasted URL or a bare id, and `fetchVideoMetadata`,
 * which turns the endpoint's response into a `VideoStats` or an error
 * message. The HTTP round trip is an input: the `Route.Response` the
 * endpoint produced.
 */
module YouTube {
  import opened Wrappers
  import opened Strings
  import Route

  /** `VideoStats`; `savedAt` is set only on videos that were saved. */
  datatype VideoStats = VideoStats(
    id: string,
    title: string,
    channel: string,
    views: nat,
    likes: nat,
    comments: nat,
    duration: string,
    uploadDate: string,
    thumbnail: Option<string>,
    description: string,
    savedAt: Option<string>)

  // ---------------------------------------------------------------------
  // extractVideoId

  /** The alternatives of the URL pattern, in the order the pattern tries them. */
  const Watch := "youtube.com/watch?v="
  const Short := "youtu.be/"
  const Embed := "youtube.com/embed/"

  /** A character `[^&\n?#]` does not match. */
  predicate IsStop(c: char)
  {
    c == '&' || c == '\n' || c == '?' || c == '#'
  }

  /** `marker` followed by at least one capture character stands at the head of `t`. */
  predicate OpensWith(t: string, marker: string)
  {
    && |t| > |marker|
    && t[..|marker|] == marker
    && !IsStop(t[|marker|])
  }

  const Alternatives: seq<string> := [Watch, Short, Embed]

  /** The first alternative, from the `i`-th on, that opens `t`: regex alternation tries them in order. */
  function Opening(t: string, i: nat): (r: Option<nat>)
    requires i <= |Alternatives|
    ensures r.Some? ==> i <= r.value < |Alternatives| && OpensWith(t, Alternatives[r.value])
    ensures r.Some? ==> forall j :: i <= j < r.value ==> !OpensWith(t, Alternatives[j])
    ensures r.None? ==> forall j :: i <= j < |Alternatives| ==> !OpensWith(t, Alternatives[j])
    decreases |Alternatives| - i
  {
    if i == |Alternatives| then None
    else if OpensWith(t, Alternatives[i]) then Some(i)
    else Opening(t, i + 1)
  }

  /** Some alternative of the URL pattern, followed by a capture character, opens `t`. */
  predicate AnyOpens(t: string)
  {
    exists k :: 0 <= k < |Alternatives| && OpensWith(t, Alternatives[k])
  }

  /** An alternative of length `n` opens `t`. */
  predicate OpensWithLength(t: string, n: nat)
  {
    exists k :: 0 <= k < |Alternatives| && OpensWith(t, Alternatives[k]) && n == |Alternatives[k]|
  }

  /** The length of the alternative the pattern matches at the head of `t`. */
  function MarkerAtHead(t: string): (r: Option<nat>)
    ensures r.Some? ==> r.value < |t| && t[0] == 'y' && !IsStop(t[r.value])
  {
    match Opening(t, 0)
    case Some(k) => Some(|Alternatives[k]|)
    case None => None
  }

  /** The pattern matches at the head of `t` exactly when one of its alternatives opens `t`, and it spans that alternative. */
  lemma MarkerIsAlternative(t: string)
    ensures MarkerAtHead(t).Some? <==> AnyOpens(t)
    ensures MarkerAtHead(t).Some? ==> OpensWithLength(t, MarkerAtHead(t).value)
  {
  }

  predicate NoStop(s: string)
  {
    forall i :: 0 <= i < |s| ==> !IsStop(s[i])
  }

  /** The greedy `([^&\n?#]+)`: the longest prefix of `t` without a stop character. */
  function CaptureRun(t: string): (r: string)
    ensures r <= t && NoStop(r)
    ensures |r| < |t| ==> IsStop(t[|r|])
  {
    if |t| == 0 || IsStop(t[0]) then "" else [t[0]] + CaptureRun(t[1..])
  }

  /**
   * The leftmost position from `i` on where `marker` reports a match at the
   * head of the rest of `s`. `UrlMatch` passes `MarkerAtHead`, so this is
   * where `String.prototype.match` reports the URL pattern.
   */
  function FirstMarker(s: string, i: nat, marker: string -> Option<nat>): (r: Option<nat>)
    requires i <= |s|
    ensures r.Some? ==> i <= r.value < |s| && marker(s[r.value..]).Some?
    ensures r.Some? ==> forall j :: i <= j < r.value ==> marker(s[j..]).None?
    ensures r.None? ==> forall j :: i <= j < |s| ==> marker(s[j..]).None?
    decreases |s| - i
  {
    if i == |s| then None
    else if marker(s[i..]).Some? then Some(i)
    else FirstMarker(s, i + 1, marker)
  }

  /**
   * `url.match(pattern)[1]` for the URL pattern: the capture after the
   * leftmost alternative, None when no alternative matches anywhere.
   */
  function UrlMatch(s: string): (r: Option<string>)
    ensures r.None? <==> forall i :: 0 <= i <= |s| ==> MarkerAtHead(s[i..]).None?
    ensures r.Some? ==> |r.value| > 0 && NoStop(r.value)
  {
    assert MarkerAtHead(s[|s|..]).None?;
    match FirstMarker(s, 0, MarkerAtHead)
    case Some(i) => Some(CaptureRun(s[i + MarkerAtHead(s[i..]).value..]))
    case None => None
  }

  /** `extractVideoId(url)`: the URL pattern first, then the whole input as a bare id. */
  function ExtractVideoId(url: string): (r: Option<string>)
    ensures UrlMatch(url).Some? ==> r == UrlMatch(url)
    ensures UrlMatch(url).None? ==> (r.Some? <==> Route.IsVideoIdFormat(url))
    ensures r.Some? ==> r.value == url || r == UrlMatch(url)
    ensures r.Some? ==> |r.value| > 0 && NoStop(r.value)
  {
    match UrlMatch(url)
    case Some(id) => Some(id)
    case None => if Route.IsVideoIdFormat(url) then Some(url) else None
  }

  /** A string without 'y' cannot hold an alternative anywhere. */
  lemma NoMarkerWithoutY(s: string)
    requires 'y' !in s
    ensures UrlMatch(s).None?
  {
    forall i | 0 <= i < |s| ensures MarkerAtHead(s[i..]).None? {
      assert s[i..][0] == s[i] && s[i] in s;
    }
  }

  /** The capture ends exactly at the first stop character. */
  lemma {:induction false} CaptureOf(id: string, rest: string)
    requires NoStop(id)
    requires rest == [] || IsStop(rest[0])
    ensures CaptureRun(id + rest) == id
    decreases |id|
  {
    if |id| == 0 {
      assert id + rest == rest;
    } else {
      assert (id + rest)[1..] == id[1..] + rest;
      CaptureOf(id[1..], rest);
      assert [id[0]] + id[1..] == id;
    }
  }

  /** The `k`-th alternative, followed by a capture character, matches at the head. */
  lemma MarkerOfHead(k: nat, id: string, rest: string)
    requires k < |Alternatives|
    requires |id| > 0 && !IsStop(id[0])
    ensures MarkerAtHead(Alternatives[k] + id + rest) == Some(|Alternatives[k]|)
  {
    var marker := Alternatives[k];
    var t := marker + id + rest;
    assert t[|marker|] == id[0];
    assert OpensWith(t, marker);
    if k == 1 {
      assert !OpensWith(t, Alternatives[0]) by { assert t[5] != Watch[5]; }
    } else if k == 2 {
      assert !OpensWith(t, Alternatives[0]) by { assert t[12] != Watch[12]; }
      assert !OpensWith(t, Alternatives[1]) by { assert t[5] != Short[5]; }
    }
  }

  /** The scan from `i` stops at `k` when an alternative matches there and at no position before. */
  lemma {:induction false} FirstMarkerAt(s: string, i: nat, k: nat, marker: string -> Option<nat>)
    requires i <= k < |s| && marker(s[k..]).Some?
    requires forall j :: i <= j < k ==> marker(s[j..]).None?
    ensures FirstMarker(s, i, marker) == Some(k)
    decreases k - i
  {
    if i < k {
      FirstMarkerAt(s, i + 1, k, marker);
    }
  }

  /** No alternative opens inside `prefix`, even one running on into `t`. */
  predicate NoMarkerBefore(prefix: string, t: string)
  {
    forall j :: 0 <= j < |prefix| ==> MarkerAtHead((prefix + t)[j..]).None?
  }

  /** A prefix without 'y' holds no opening of an alternative. */
  lemma NoMarkerInYFree(prefix: string, t: string)
    requires 'y' !in prefix
    ensures NoMarkerBefore(prefix, t)
  {
    var u := prefix + t;
    forall j | 0 <= j < |prefix| ensures MarkerAtHead(u[j..]).None? {
      assert u[j] == prefix[j] && prefix[j] in prefix;
      assert u[j..][0] == u[j];
    }
  }

  /** A prefix where no alternative opens is skipped: the match is the one at the head of what follows it. */
  lemma SkipPrefix(prefix: string, t: string)
    requires NoMarkerBefore(prefix, t)
    requires MarkerAtHead(t).Some?
    ensures UrlMatch(prefix + t) == Some(CaptureRun(t[MarkerAtHead(t).value..]))
  {
    var u := prefix + t;
    assert u[|prefix|..] == t;
    FirstMarkerAt(u, 0, |prefix|, MarkerAtHead);
    assert FirstMarker(u, 0, MarkerAtHead) == Some(|prefix|);
  }

  /**
   * The text after the leftmost alternative, the `k`-th, up to the first
   * stop character, is the id, whatever precedes it so long as no
   * alternative opens there.
   */
  lemma UrlForm(prefix: string, k: nat, id: string, rest: string)
    requires k < |Alternatives|
    requires NoMarkerBefore(prefix, Alternatives[k] + id + rest)
    requires |id| > 0 && NoStop(id)
    requires rest == [] || IsStop(rest[0])
    ensures ExtractVideoId(prefix + Alternatives[k] + id + rest) == Some(id)
  {
    var t := Alternatives[k] + id + rest;
    assert prefix + Alternatives[k] + id + rest == prefix + t;
    assert UrlMatch(prefix + t) == Some(id) by { CaptureAfterAlternative(prefix, k, id, rest); }
  }

  /** The capture after the `k`-th alternative, placed after `prefix`, is `id`. */
  lemma CaptureAfterAlternative(prefix: string, k: nat, id: string, rest: string)
    requires k < |Alternatives|
    requires NoMarkerBefore(prefix, Alternatives[k] + id + rest)
    requires |id| > 0 && NoStop(id)
    requires rest == [] || IsStop(rest[0])
    ensures UrlMatch(prefix + (Alternatives[k] + id + rest)) == Some(id)
  {
    var t := Alternatives[k] + id + rest;
    var n := |Alternatives[k]|;
    assert MarkerAtHead(t) == Some(n) by { MarkerOfHead(k, id, rest); }
    assert CaptureRun(t[n..]) == id by {
      assert t[n..] == id + rest;
      CaptureOf(id, rest);
    }
    SkipPrefix(prefix, t);
  }

  /** Each alternative holds a '.': at index 7 of the long ones, index 5 of the short one. */
  lemma NoMarkerWithoutDot(t: string)
    requires '.' !in t
    ensures MarkerAtHead(t).None?
  {
    if |t| > 7 {
      assert t[7] in t;
      assert !OpensWith(t, Alternatives[0]) by { assert Watch[7] == '.'; }
      assert !OpensWith(t, Alternatives[2]) by { assert Embed[7] == '.'; }
    }
    if |t| > 5 {
      assert t[5] in t;
      assert !OpensWith(t, Alternatives[1]) by { assert Short[5] == '.'; }
    }
  }

  /** Input without a '.' can only be taken as a bare id: itself when it has the format, nothing otherwise. */
  lemma BareInput(s: string)
    requires '.' !in s
    ensures ExtractVideoId(s) == if Route.IsVideoIdFormat(s) then Some(s) else None
  {
    forall i | 0 <= i <= |s| ensures MarkerAtHead(s[i..]).None? {
      forall k | 0 <= k < |s[i..]| ensures s[i..][k] != '.' {
        assert s[i..][k] == s[i + k] && s[i + k] in s;
      }
      NoMarkerWithoutDot(s[i..]);
    }
  }

  /** A bare eleven-character id comes back unchanged. */
  lemma BareIdUnchanged(s: string)
    requires Route.IsVideoIdFormat(s)
    ensures ExtractVideoId(s) == Some(s)
  {
    forall i | 0 <= i < |s| ensures s[i] != '.' {
      assert Route.IsIdChar(s[i]);
    }
    BareInput(s);
  }

  // The examples below take the url as a parameter pinned by `requires`, written as
  // the concatenation of its parts: the verifier then reasons about the pieces rather
  // than unfolding the scanner over one long literal.

  lemma ShortLinkExample(url: string)
    requires url == "https://" + "youtu.be/" + "abc123XYZ_-" + "?t=5"
    ensures ExtractVideoId(url) == Some("abc123XYZ_-")
  {
    NoMarkerInYFree("https://", Alternatives[1] + "abc123XYZ_-" + "?t=5");
    UrlForm("https://", 1, "abc123XYZ_-", "?t=5");
  }

  lemma WatchLinkExample(url: string)
    requires url == "https://www." + "youtube.com/watch?v=" + "dQw4w9WgXcQ" + "&t=42"
    ensures ExtractVideoId(url) == Some("dQw4w9WgXcQ")
  {
    NoMarkerInYFree("https://www.", Alternatives[0] + "dQw4w9WgXcQ" + "&t=42");
    UrlForm("https://www.", 0, "dQw4w9WgXcQ", "&t=42");
  }

  /** The URL pattern does not check the length: a three-character id is extracted too. */
  lemma ShortIdAccepted(url: string)
    requires url == "youtu.be/" + "abc"
    ensures ExtractVideoId(url) == Some("abc")
  {
    NoMarkerInYFree("", Alternatives[1] + "abc" + "");
    UrlForm("", 1, "abc", "");
    assert "" + Alternatives[1] + "abc" + "" == url;
  }

  lemma TenCharactersRejected()
    ensures ExtractVideoId("dQw4w9WgXc") == None
  {
    BareInput("dQw4w9WgXc");
  }

  /** The bare-id pattern is anchored: surrounding spaces reject the id. */
  lemma PaddedIdRejected()
    ensures ExtractVideoId(" dQw4w9WgXcQ ") == None
  {
    BareInput(" dQw4w9WgXcQ ");
  }

  /** A 'y' that opens none of the alternatives is not a URL marker: "y.z" yields nothing. */
  lemma LoneYRejected()
    ensures ExtractVideoId("y.z") == None
  {
    var s := "y.z";
    forall i | 0 <= i <= |s| ensures MarkerAtHead(s[i..]).None? {
      forall k | 0 <= k < |Alternatives| ensures !OpensWith(s[i..], Alternatives[k]) {
        assert |Alternatives[k]| >= |s|;
      }
    }
  }

  // ---------------------------------------------------------------------
  // fetchVideoMetadata

  const FetchFailed := "Failed to fetch video metadata"

  /** The endpoint answers 200 exactly with a record, which `Route.Get` guarantees. */
  predicate WellFormed(resp: Route.Response)
  {
    (200 <= resp.status < 300) <==> resp.body.Record?
  }

  /** The JSON of a `VideoMetadata` read as a `VideoStats`: it has no `savedAt`. */
  function FromMetadata(v: Route.VideoMetadata): (r: VideoStats)
    ensures r.savedAt.None?
    ensures r.id == v.id && r.title == v.title && r.channel == v.channel && r.description == v.description
    ensures r.views == v.views && r.likes == v.likes && r.comments == v.comments
    ensures r.duration == v.duration && r.uploadDate == v.uploadDate && r.thumbnail == v.thumbnail
  {
    VideoStats(v.id, v.title, v.channel, v.views, v.likes, v.comments, v.duration, v.uploadDate, v.thumbnail, v.description, None)
  }

  /** `fetchVideoMetadata`: the record of an ok response, else the error text, or a fixed text when that is empty. */
  function FetchVideoMetadata(resp: Route.Response): (r: Result<VideoStats, string>)
    requires WellFormed(resp)
    ensures r.Ok? <==> 200 <= resp.status < 300
    ensures r.Ok? ==> r.value == FromMetadata(resp.body.video)
    ensures r.Err? ==> r.error != ""
    ensures r.Err? && resp.body.error != "" ==> r.error == resp.body.error
  {
    match resp.body
    case Record(video) => Ok(FromMetadata(video))
    case Error(e) => Err(if e == "" then FetchFailed else e)
  }

  /** Every response of the endpoint is well formed. */
  lemma GetWellFormed(videoId: Option<string>, apiKey: Option<string>, reply: Route.ProviderReply)
    ensures WellFormed(Route.Get(videoId, apiKey, reply))
  {
  }

  /** The client fetch of an id the endpoint accepts yields the record with that id. */
  lemma FetchedIdMatches(videoId: string, apiKey: string, items: seq<Route.Item>)
    requires Route.IsVideoIdFormat(videoId) && apiKey != "" && |items| > 0
    ensures var resp := Route.Get(Some(videoId), Some(apiKey), Route.Replied(Some(items)));
      WellFormed(resp) && FetchVideoMetadata(resp).Ok? && FetchVideoMetadata(resp).value.id == videoId
  {
  }
}
