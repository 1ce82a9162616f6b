/** The keyword topic classifier and the video-list normaliser of the
    YouTube service: `detectTopicFromText` with its keyword table, the item
    mapper of `fetchDerivVideos`, and the choice between the mapped search
    results and the built-in mock list, taken over an abstract fetch
    outcome. */
module YoutubeService {
  import opened Optional
  import opened JsString

  // ---------------------------------------------------------------------
  // Topic detection
  // ---------------------------------------------------------------------

  /** The topic table in its declaration order (which is also the order in
      which `Object.entries` yields it): each topic with its keywords. */
  const TopicKeywords: seq<(string, seq<string>)> := [
    ("Risk Management", ["risk", "management", "position size", "stop loss", "losing", "loss"]),
    ("Multipliers", ["multiplier", "leverage"]),
    ("Volatility", ["volatility", "volatile", "vol index"]),
    ("Technical Analysis", ["technical", "chart", "candlestick", "pattern", "indicator"]),
    ("Platform", ["mt5", "platform", "deriv app", "dtrader"])
  ]

  /** Some keyword of the topic in row `j` of the table occurs in `lower`. */
  ghost predicate TopicMatches(j: nat, lower: string)
    requires j < |TopicKeywords|
  {
    exists k :: 0 <= k < |TopicKeywords[j].1| && Occurs(lower, TopicKeywords[j].1[k])
  }

  /** `keywords.some((kw) => lower.includes(kw))`. */
  function AnyKeywordIncluded(keywords: seq<string>, lower: string): (b: bool)
    ensures b <==> exists k :: 0 <= k < |keywords| && Occurs(lower, keywords[k])
  {
    if keywords == [] then false
    else
      assert forall k :: 1 <= k < |keywords| ==> keywords[k] == keywords[1..][k - 1];
      Includes(lower, keywords[0]) || AnyKeywordIncluded(keywords[1..], lower)
  }

  /** The loop over the table from row `from` on: the first topic one of
      whose keywords occurs in `lower`, or `None` when there is none. */
  function FirstTopicFrom(lower: string, from: nat): (r: Option<string>)
    requires from <= |TopicKeywords|
    ensures r.None? <==> forall j :: from <= j < |TopicKeywords| ==> !TopicMatches(j, lower)
    ensures r.Some? ==> exists j :: from <= j < |TopicKeywords| && TopicKeywords[j].0 == r.value
                                  && TopicMatches(j, lower)
                                  && forall i :: from <= i < j ==> !TopicMatches(i, lower)
    decreases |TopicKeywords| - from
  {
    if from == |TopicKeywords| then None
    else if AnyKeywordIncluded(TopicKeywords[from].1, lower) then
      assert TopicMatches(from, lower);
      Some(TopicKeywords[from].0)
    else FirstTopicFrom(lower, from + 1)
  }

  /** No keyword of any topic occurs in `lower`. */
  ghost predicate NoKeywordOccurs(lower: string) {
    forall j, k :: 0 <= j < |TopicKeywords| && 0 <= k < |TopicKeywords[j].1| ==>
      !Occurs(lower, TopicKeywords[j].1[k])
  }

  /** `detectTopicFromText`: lower-case the text, then return the first
      topic in table order that has a keyword occurring in it. The result
      is `None` exactly when no keyword occurs at all; otherwise it is a
      key of the table whose row matches and no earlier row matches. */
  function DetectTopicFromText(text: string): (r: Option<string>)
    ensures r.None? <==> NoKeywordOccurs(ToLowerCase(text))
    ensures r.Some? ==> exists j :: 0 <= j < |TopicKeywords| && TopicKeywords[j].0 == r.value
                                  && TopicMatches(j, ToLowerCase(text))
                                  && forall i :: 0 <= i < j ==> !TopicMatches(i, ToLowerCase(text))
  {
    FirstTopicFrom(ToLowerCase(text), 0)
  }

  /** Every keyword is non-empty and lower case. */
  lemma KeywordsWellFormed()
    ensures forall j, k :: 0 <= j < |TopicKeywords| && 0 <= k < |TopicKeywords[j].1| ==>
      TopicKeywords[j].1[k] != [] && IsLowerCase(TopicKeywords[j].1[k])
  {
  }

  /** Case does not matter: a text and its lower-case form get the same
      topic. */
  lemma DetectIgnoresCase(text: string)
    ensures DetectTopicFromText(text) == DetectTopicFromText(ToLowerCase(text))
  {
    ToLowerCaseIdempotent(text);
  }

  /** The empty text has no topic, because no keyword is empty. */
  lemma EmptyTextHasNoTopic()
    ensures DetectTopicFromText("") == None
  {
    KeywordsWellFormed();
    forall j, k | 0 <= j < |TopicKeywords| && 0 <= k < |TopicKeywords[j].1|
      ensures !Occurs(ToLowerCase(""), TopicKeywords[j].1[k])
    {
      NothingOccursInEmpty(TopicKeywords[j].1[k]);
    }
  }

  /** A keyword written verbatim anywhere in the text (in any case of the
      surrounding characters) is found: the text gets a topic, and that
      topic's row is no later than the keyword's row. */
  lemma KeywordInTextIsDetected(text: string, j: nat, k: nat)
    requires j < |TopicKeywords| && k < |TopicKeywords[j].1|
    requires Occurs(text, TopicKeywords[j].1[k])
    ensures DetectTopicFromText(text).Some?
    ensures exists i :: 0 <= i <= j && TopicKeywords[i].0 == DetectTopicFromText(text).value
  {
    KeywordsWellFormed();
    OccursInLowerCase(text, TopicKeywords[j].1[k]);
    assert TopicMatches(j, ToLowerCase(text));
  }

  /** First-match priority: any text that mentions "risk" or "loss" (in
      any case) is classified as "Risk Management", whatever other
      keywords it contains. */
  lemma RiskOrLossWins(text: string)
    requires Occurs(ToLowerCase(text), "risk") || Occurs(ToLowerCase(text), "loss")
    ensures DetectTopicFromText(text) == Some("Risk Management")
  {
    var lower := ToLowerCase(text);
    if Occurs(lower, "risk") {
      assert TopicKeywords[0].1[0] == "risk";
    } else {
      assert TopicKeywords[0].1[5] == "loss";
    }
    assert TopicMatches(0, lower);
  }

  // ---------------------------------------------------------------------
  // Video items
  // ---------------------------------------------------------------------

  datatype VideoItem = VideoItem(
    id: string,
    title: string,
    thumbnail: string,
    duration: string,
    topic: string,
    channel: string,
    views: string)

  /** One raw search result, reduced to the fields the mapper reads:
      `id.videoId`, `snippet.title`, `snippet.thumbnails?.medium?.url`
      (`None` when any link of that chain is absent) and
      `snippet.channelTitle`. */
  datatype SearchItem = SearchItem(
    videoId: Option<string>,
    title: string,
    mediumThumbnailUrl: Option<string>,
    channelTitle: Option<string>)

  const MockThumbnail := "https://img.youtube.com/vi/dQw4w9WgXcQ/mqdefault.jpg"

  /** `MOCK_VIDEOS`: the eight built-in videos shown whenever the API is not
      used or does not deliver. */
  const MockVideos: seq<VideoItem> := [
    VideoItem("v-001", "Intro to Risk Management for Traders", MockThumbnail, "12:34", "Risk Management", "Deriv", "45K"),
    VideoItem("v-002", "How to Trade Multipliers on Deriv", MockThumbnail, "8:21", "Multipliers", "Deriv", "32K"),
    VideoItem("v-003", "Understanding Volatility Indices", MockThumbnail, "15:07", "Volatility", "Deriv", "28K"),
    VideoItem("v-004", "Risk Management: Position Sizing Strategies", MockThumbnail, "10:45", "Risk Management", "Deriv", "19K"),
    VideoItem("v-005", "Technical Analysis Masterclass", MockThumbnail, "22:10", "Technical Analysis", "Deriv", "67K"),
    VideoItem("v-006", "Deriv MT5: Complete Beginner Guide", MockThumbnail, "18:30", "Platform", "Deriv", "54K"),
    VideoItem("v-007", "Managing Risk in Volatile Markets", MockThumbnail, "9:15", "Risk Management", "Deriv", "12K"),
    VideoItem("v-008", "How to Read Candlestick Charts", MockThumbnail, "14:22", "Technical Analysis", "Deriv", "41K")
  ]

  /** The id given to the result at position `i` that has no usable
      `videoId`: "yt-" followed by digits that read back as `i`. */
  function FallbackId(i: nat): (id: string)
    ensures |id| > 3 && id[..3] == "yt-" && AllDigits(id[3..])
    ensures DigitsValue(id[3..]) == i
    ensures |id| > 4 ==> id[3] != '0'
  {
    var digits := DecimalString(i);
    assert ("yt-" + digits)[3..] == digits;
    "yt-" + digits
  }

  /** The mapping lambda applied to the result at position `i`. The video
      keeps the result's title; its id is the result's non-empty `videoId`,
      or the positional fallback id, so it is never empty; its thumbnail is
      the medium URL or ""; its channel is `channelTitle` when present (even
      when empty) and "Deriv" otherwise; duration and views are empty and
      the topic is "General". */
  function ToVideoItem(item: SearchItem, i: nat): (v: VideoItem)
    ensures v.title == item.title
    ensures v.id != ""
    ensures item.videoId.Some? && item.videoId.value != "" ==> v.id == item.videoId.value
    ensures item.videoId.None? || item.videoId.value == "" ==> v.id == FallbackId(i)
    ensures item.mediumThumbnailUrl.Some? ==> v.thumbnail == item.mediumThumbnailUrl.value
    ensures item.mediumThumbnailUrl.None? ==> v.thumbnail == ""
    ensures item.channelTitle.Some? ==> v.channel == item.channelTitle.value
    ensures item.channelTitle.None? ==> v.channel == "Deriv"
    ensures v.duration == "" && v.views == "" && v.topic == "General"
  {
    VideoItem(
      id := if item.videoId.Some? && item.videoId.value != "" then item.videoId.value else FallbackId(i),
      title := item.title,
      thumbnail := item.mediumThumbnailUrl.GetOr(""),
      duration := "",
      topic := "General",
      channel := item.channelTitle.GetOr("Deriv"),
      views := "")
  }

  /** `data.items.map(...)`: one video per search result, in the same
      order, the video at position `i` made from the result at position `i`
      (and numbered `i` when it needs a fallback id). */
  function MapSearchItems(items: seq<SearchItem>): (r: seq<VideoItem>)
    ensures |r| == |items|
    ensures forall i :: 0 <= i < |items| ==> r[i] == ToVideoItem(items[i], i)
  {
    seq(|items|, i requires 0 <= i < |items| => ToVideoItem(items[i], i))
  }

  /** Every mapped video has a non-empty id, and two results that both
      lack a usable `videoId` never share an id. */
  lemma MappedIdsNonEmptyAndFallbacksDistinct(items: seq<SearchItem>, i: nat, j: nat)
    requires i < |items| && j < |items|
    ensures MapSearchItems(items)[i].id != ""
    ensures i != j && (items[i].videoId.None? || items[i].videoId.value == "")
                   && (items[j].videoId.None? || items[j].videoId.value == "")
            ==> MapSearchItems(items)[i].id != MapSearchItems(items)[j].id
  {
  }

  // ---------------------------------------------------------------------
  // fetchDerivVideos, over an abstract fetch outcome
  // ---------------------------------------------------------------------

  /** The parsed JSON body of the search response: `items` may be absent. */
  datatype SearchResponse = SearchResponse(items: Option<seq<SearchItem>>)

  /** What the network call came to: `fetch` threw (network error,
      abort after the timeout), or a response arrived with its `ok` flag
      and, when `res.json()` succeeded, its body. */
  datatype FetchOutcome =
    | FetchThrew
    | Responded(ok: bool, body: Option<SearchResponse>)

  /** The API key is set and non-empty, the response was OK and readable,
      and it carried a non-empty `items` list: the only case in which the
      live results are used. */
  predicate ServedFromApi(apiKey: Option<string>, outcome: FetchOutcome) {
    && apiKey.Some? && apiKey.value != ""
    && outcome.Responded? && outcome.ok
    && outcome.body.Some? && outcome.body.value.items.Some?
    && |outcome.body.value.items.value| > 0
  }

  /** `fetchDerivVideos`: the mapped search results when the API delivered
      them, and `MOCK_VIDEOS` in every other case (no key, fetch error,
      non-OK status, unreadable body, missing or empty `items`). The
      outcome is not consulted when there is no key, since no request is
      made then. */
  function FetchDerivVideos(apiKey: Option<string>, outcome: FetchOutcome): (r: seq<VideoItem>)
    ensures ServedFromApi(apiKey, outcome) ==> r == MapSearchItems(outcome.body.value.items.value)
    ensures !ServedFromApi(apiKey, outcome) ==> r == MockVideos
  {
    if apiKey.None? || apiKey.value == "" then MockVideos
    else match outcome
      case FetchThrew => MockVideos
      case Responded(ok, body) =>
        if !ok then MockVideos
        else match body
          case None => MockVideos
          case Some(data) =>
            if data.items.None? || |data.items.value| == 0 then MockVideos
            else MapSearchItems(data.items.value)
  }

  /** The video list is never empty, and it is the mock list exactly when
      the API did not deliver (a mapped list can never be mistaken for it,
      since mapped videos have no duration). */
  lemma {:induction false} FetchIsMockIffNotServed(apiKey: Option<string>, outcome: FetchOutcome)
    ensures |FetchDerivVideos(apiKey, outcome)| > 0
    ensures FetchDerivVideos(apiKey, outcome) == MockVideos <==> !ServedFromApi(apiKey, outcome)
  {
    if ServedFromApi(apiKey, outcome) {
      var r := FetchDerivVideos(apiKey, outcome);
      assert r[0].duration == "";
      assert MockVideos[0].duration == "12:34";
    }
  }
}
