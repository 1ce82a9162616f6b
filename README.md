# Deriv-Hub core logic, modelled in Dafny

Deriv-Hub is a trading-education dashboard. Most of it is presentation, but three pieces of it are logic that can be stated exactly. This project models those three and proves what they promise.

- **YouTube service** (`youtube_service.dfy`, module `YoutubeService`).
  - `detectTopicFromText` lower-cases a text. It then returns the first topic of a five-row keyword table that has a keyword occurring in the text, or nothing.
  - The mapper inside `fetchDerivVideos` turns raw search results into `VideoItem`s. It fills in defaults and gives a result without a `videoId` the id `yt-<position>`.
  - `fetchDerivVideos` chooses between the mapped results and the built-in mock list. The network outcome is an input to the model.
- **Compliance route** (`compliance_route.dfy`, module `ComplianceRoute`).
  - `POST /api/social/compliance` validates the request and asks Gemini for a verdict. It asks Ollama only when the Gemini call throws.
  - An unparseable reply becomes a non-compliant "manual review" verdict. The reason is normalised.
  - Each failure maps to a fixed status and a non-compliant verdict. The method is proved fail-safe: it answers "compliant" only when a provider it consulted returned a reply that parses to a compliant verdict.
- **NewsHub panel** (`news_hub.dfy`, module `NewsHubComponent`). These are the values the panel derives from `news`, `compact` and its `isExpanded` state, plus the toggle that flips that state. The model shows a quirk of the component: the toggle button exists only while the panel is collapsed. Its "Show Less" label is therefore never rendered, and once expanded the panel cannot collapse again.

Two small supporting modules complete the project. `optional.dfy` holds an `Option` type for JavaScript's `undefined`/`null`. `js_string.dfy` models the JavaScript string built-ins the core uses: `toLowerCase`, `includes`, `trim` and the decimal rendering of an integer in a template literal.

The language models, `JSON.parse`, the network and the environment are parameters of the model:
- a provider is a function from the content to check to "threw" or "returned this text";
- the JSON parser is a function from text to an optional `{isCompliant, reason}` object;
- the fetch is a `FetchOutcome` value;
- the API key is an `Option<string>`.

A reply that fails to parse does not trigger the fallback. Parsing happens inside each provider function, which returns the manual-review verdict instead of throwing (`app/api/social/compliance/route.ts:40-49`). The fallback runs only when the provider call itself throws (`app/api/social/compliance/route.ts:113-124`). `ComplianceRoute.Post` states this.

## Model

| member | source | states |
|---|---|---|
| `JsString.ToLowerCase` | lib/services/youtubeService.ts:141 | the result has the input's length and holds no upper-case ASCII letter; every upper-case ASCII letter becomes its own lower-case partner, and every other character is kept |
| `JsString.ToLowerCaseIdempotent` | lib/services/youtubeService.ts:141 | lower-casing twice gives the same result as lower-casing once |
| `JsString.OccursInLowerCase` | lib/services/youtubeService.ts:141-143 | a lower-case string occurring in a text also occurs in the text's lower-case form |
| `JsString.Includes` | lib/services/youtubeService.ts:143 | `includes` is true exactly when the searched string occurs as a contiguous substring |
| `JsString.NothingOccursInEmpty` | lib/services/youtubeService.ts:143 | a non-empty string never occurs in the empty string |
| `JsString.Trim` | app/api/social/compliance/route.ts:38 | the trimmed text is a contiguous slice of the input with only white space around it, and it neither starts nor ends with white space |
| `JsString.TrimIdempotent` | app/api/social/compliance/route.ts:85 | trimming an already trimmed text changes nothing |
| `JsString.DecimalString` | lib/services/youtubeService.ts:118 | the rendering of a position is a non-empty run of decimal digits that denotes the position, without a leading zero, with one digit exactly for positions below 10 |
| `JsString.DecimalStringInjective` | lib/services/youtubeService.ts:118 | different positions have different decimal renderings |
| `YoutubeService.AnyKeywordIncluded` | lib/services/youtubeService.ts:143 | `keywords.some(includes)` holds exactly when some keyword of the list occurs in the text |
| `YoutubeService.FirstTopicFrom` | lib/services/youtubeService.ts:142-145 | the scan returns nothing exactly when no remaining row matches; otherwise it returns the key of a matching row with no matching row before it |
| `YoutubeService.DetectTopicFromText` | lib/services/youtubeService.ts:140-146 | the result is null exactly when no keyword of any topic occurs in the lower-cased text; otherwise it is one of the table keys, the key of the first row in table order whose keywords occur |
| `YoutubeService.KeywordsWellFormed` | lib/services/youtubeService.ts:132-138 | every keyword in the table is non-empty and lower case |
| `YoutubeService.DetectIgnoresCase` | lib/services/youtubeService.ts:141 | a text and its lower-case form get the same topic |
| `YoutubeService.EmptyTextHasNoTopic` | lib/services/youtubeService.ts:132-145 | the empty text has no topic |
| `YoutubeService.KeywordInTextIsDetected` | lib/services/youtubeService.ts:140-146 | a text containing any keyword verbatim gets a topic from that keyword's row or an earlier one |
| `YoutubeService.RiskOrLossWins` | lib/services/youtubeService.ts:132-143 | first-match priority: a text mentioning "risk" or "loss" in any case is "Risk Management", whatever else it mentions |
| `YoutubeService.FallbackId` | lib/services/youtubeService.ts:118 | the fallback id is "yt-" followed by digits without a leading zero that read back as the result's position |
| `YoutubeService.ToVideoItem` | lib/services/youtubeService.ts:117-125 | the title passes through; the id is the non-empty `videoId`, else the fallback id, so it is never empty; the thumbnail is the medium URL or ""; the channel is `channelTitle` when present, even if empty, else "Deriv"; duration and views are "" and the topic is "General" |
| `YoutubeService.MapSearchItems` | lib/services/youtubeService.ts:110-125 | the mapper keeps length and order: the video at position i is made from the result at position i, numbered i |
| `YoutubeService.MappedIdsNonEmptyAndFallbacksDistinct` | lib/services/youtubeService.ts:118 | every mapped id is non-empty, and two results without a usable `videoId` never get the same id |
| `YoutubeService.FetchDerivVideos` | lib/services/youtubeService.ts:86-129 | the result is the mapped list when the key is set, the response is OK and readable and `items` is non-empty; in every other case it is `MOCK_VIDEOS` |
| `YoutubeService.FetchIsMockIffNotServed` | lib/services/youtubeService.ts:89-128 | the video list is never empty, and it equals `MOCK_VIDEOS` exactly when the API did not deliver results |
| `ComplianceRoute.ParseOrDefault` | app/api/social/compliance/route.ts:40-49 | a reply that parses gives its verdict; one that does not parse gives the non-compliant manual-review verdict; a compliant result always comes from a reply that parsed as compliant (same code at lines 87-96) |
| `ComplianceRoute.CheckWithProvider` | app/api/social/compliance/route.ts:12-50 | a provider check throws exactly when the provider call throws; otherwise its verdict is the parse-or-default of the trimmed reply |
| `ComplianceRoute.IsValidContent` | app/api/social/compliance/route.ts:103 | the guard `!content \|\| typeof content !== 'string'` lets a request through exactly when `content` is a non-empty string |
| `ComplianceRoute.NormalizeReason` | app/api/social/compliance/route.ts:141 | `reason \|\| ''` keeps a present reason, turns a missing one into "", and is empty exactly when the reason was missing or empty |
| `ComplianceRoute.Post` | app/api/social/compliance/route.ts:99-155 | unreadable body gives 500 and non-compliant; missing, empty or non-string content gives 400; neither consults a provider; the primary is always consulted first; the fallback is consulted with the same content exactly when the primary threw; both throwing gives 200 and non-compliant with the technical-issues reason; otherwise the verdict is passed through with the reason or ""; compliant only if a consulted provider vouched for it |
| `NewsHubComponent.HighItems` | components/NewsHub.tsx:18 | the filter keeps only high-impact items, never more copies of an item than the list holds, and one item per high-impact position, so its items are exactly the list's high-impact items counted with multiplicity |
| `NewsHubComponent.HighCount` | components/NewsHub.tsx:18 | `highCount` equals the number of positions whose impact is "HIGH", so it lies between 0 and the list length |
| `NewsHubComponent.HighBadgeShownIffSomeHigh` | components/NewsHub.tsx:34 | the "N HIGH" badge shows exactly when some item has impact "HIGH" |
| `NewsHubComponent.DisplayLimit` | components/NewsHub.tsx:21 | `displayLimit` is 4 while compact and collapsed, and it differs from the list length only in that case |
| `NewsHubComponent.Slice` | components/NewsHub.tsx:22 | `slice(0, limit)` is a prefix of the list of length min(limit, length) |
| `NewsHubComponent.DisplayedNews` | components/NewsHub.tsx:21-22 | the displayed items are the first min(displayLimit, length) items, in order |
| `NewsHubComponent.HasMore` | components/NewsHub.tsx:21-23 | `hasMore` holds exactly when compact, not expanded, and there are more than four items |
| `NewsHubComponent.NotCollapsedShowsAll` | components/NewsHub.tsx:21-23 | in non-compact mode, or once expanded, every item is displayed and `hasMore` is false |
| `NewsHubComponent.ToggleButton` | components/NewsHub.tsx:53-69 | the button is rendered exactly when loaded, compact, collapsed and with more than four items; "Show Less" is never rendered; a rendered "See More" count is positive and equals the number of hidden items |
| `NewsHubComponent.NewsHub.constructor` | components/NewsHub.tsx:16-17 | the panel mounts with its props and `isExpanded` false |
| `NewsHubComponent.NewsHub.Toggle` | components/NewsHub.tsx:56 | the toggle flips `isExpanded` and changes nothing else |
| `NewsHubComponent.NewsHub.ClickButton` | components/NewsHub.tsx:53-63 | a click on the rendered button expands the panel, shows every item and leaves no button, so the panel can never collapse again |

## Left out

- `toLowerCase` is modelled for ASCII letters only. Other Unicode case mappings are not modelled, including those that map a non-ASCII character to an ASCII letter, such as the Kelvin sign.
- The Gemini and Ollama SDK calls, the prompt texts, the sampling options, the model names, client construction and environment variables are foreign libraries and configuration. Each provider call is an input that either threw or returned text.
- `JSON.parse` is an abstract function from text to an optional `{isCompliant, reason}` object with a boolean `isCompliant`. Replies that parse to something else are not modelled. Examples are `null`, where reading `isCompliant` throws and the route answers 500, and a non-boolean `isCompliant`, which the route passes through unchanged.
- `ComplianceRoute.Post` models a thrown provider error as an error object with a `message`. A provider that throws `null` or `undefined` is not modelled. There, reading `geminiError.message` (route.ts:118) or `ollamaError.message` (route.ts:127-128) throws inside the catch, and the outer catch answers 500 instead of consulting Ollama or answering 200 with the technical-issues reason.
- `ComplianceRoute.Post` treats the request body as readable JSON with a `content` field, or as unreadable. The HTTP request and `NextResponse` objects are not modelled.
- `fetch`, `AbortController`, the 8000 ms timeout and the 600 ms mock delay are network and timing. Only the resulting `FetchOutcome` enters the model.
- `YoutubeService.MapSearchItems` assumes every search result has `id` and `snippet`. A result without them makes the real mapper throw, and the catch then serves `MOCK_VIDEOS`. The model does not cover that case.
- NewsHub rendering (cards, skeleton, icons, styling) is left out. `isLoading` enters only as the condition for rendering the button. News items are reduced to `id` and `impact`, because `lib/services/marketService` is not part of this model.
- `NewsHubComponent.NewsHub` holds `news` and `compact` as constant fields. In React, the props (and `isLoading`) can change between renders while `isExpanded` persists. The model does not capture a re-render with new props. The functions and `ToggleButton`'s contract hold for every list, so the quirk holds after any such change too.
- `NewsHubComponent.HighItems`: its contract fixes which items the filter keeps, with multiplicity, but not that it keeps them in list order.
- `console` logging is left out wherever it does not change the control flow.
- The dashboard pages (coach, social, learn) and the navigation bar are pure layout with hard-coded constants, so they are not modelled.
- Topic caching, content generation and the client-side compliance gate do not appear in the modelled files, so they are not part of this model.
