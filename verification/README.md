# URL shortener core, modelled in Dafny

This project models the sequential core of a small URL shortener. The system has
three parts:

- **The redirect worker and the Pages `shorten` function.**
  - They normalise a long URL and ask the URL parser whether it is valid.
  - They reserve a code the client proposes, or allocate a fresh 8-character code.
    Allocation makes at most 10 draws against the `KV_URLS` namespace.
  - They write the code, and on `GET /<code>` they answer with a 302 and hand one
    analytics event to the background.
- **The analytics worker.**
  - It keeps five counters as text in the `KV_ANALYTICS` namespace.
  - It reads them with defaults and writes only the fields it is given.
  - It adds one redirect and its time per event, and overwrites the deploy metadata.
  - It serves the totals and the average as the speedometer.
- **The frontend utilities behind the personality URL input.**
  - URL splitting and top-level-domain validation.
  - The typing-behaviour rules and their bounded history.
  - The message engine: filtering, priority order, capitalisation, combination, and
    the precedence of message sources.
  - The QR link decoration, the weekly mood, and the browser copy of the code generator.

A key-value namespace is a `map<string, string>`. Every handler is a pure function
from the namespace and a parsed request to the namespace afterwards and a response.
The response is a status code and an abstract body.

The outside world enters as parameters:

- the bytes `crypto.getRandomValues` yields (one 8-byte block per allocation attempt);
- the rolls standing for `Math.random`;
- the `Date.now()` readings, and the day of the week;
- the request origin and the Cloudflare colo;
- the WHATWG URL parser's verdict (`validUrl: string -> bool`);
- the start-up time that the analytics worker's defaults capture;
- the message data (`messages.json`) and the pair templates, as lookup tables.

Modules, one per source file, plus shared vocabulary:

| file | module | models |
|---|---|---|
| `wrappers.dfy` | `Wrappers` | `Option` |
| `json.dfy` | `Json` | parsed request bodies, JavaScript truthiness, `typeof x === 'string'` |
| `http.dfy` | `Http` | requests, statuses, abstract response bodies |
| `strings.dfy` | `Strings` | `String.prototype.trim`, ASCII case folding, the `^https?:\/\/` prefix |
| `short_code.dfy` | `ShortCode` | `generateShortCode`, the same in all three copies |
| `registry.dfy` | `Registry` | `normalizeUrl`, the bounded allocation loop and the store write, shared by both shorten handlers |
| `redirect_worker.dfy` | `RedirectWorker` | `handleShorten`, `handleRedirect`, `sendAnalyticsEvent`, `fetch` |
| `pages_shorten.dfy` | `PagesShorten` | `isValidProposedCode`, `onRequestPost` |
| `decimal.dfy` | `Decimal` | `Number.prototype.toString` and `parseInt(s, 10)` on integers |
| `analytics_worker.dfy` | `AnalyticsWorker` | the counters, the three handlers and `fetch` |
| `url_utils.dfy` | `UrlUtils` | `parseUrl`, `validateTld`, `normalizeUrl(protocol, domain)` |
| `personality.dfy` | `Personality` | moods, behaviours, patterns, URL flags, input states |
| `behavior_detection.dfy` | `BehaviorDetection` | `detectBehaviors`, `detectBehavior`, `createInitialState`, `updateHistory` |
| `message_engine.dfy` | `MessageEngine` | `normalizeForCombination`, `endsWithPunctuation`, `getContextualCombination`, `combineMessages`, `pickMessage` |
| `qr_params.dfy` | `QrParams` | `getFunnyQueryParam`, `addFunnyQueryParam` |
| `mood_system.dfy` | `MoodSystem` | `getCurrentMood` |

## Model

| member | source | states |
|---|---|---|
| ShortCode.Generate | backend/redirect-worker/src/index.ts:35-46 | One character per random byte, and every character is in the route guard's class `[A-Za-z0-9_-]`. |
| ShortCode.GenerateShortCode | frontend/src/lib/codeGenerator.ts:5-16 | The browser copy's loop yields `length` characters, character `i` being `chars[bytes[i] % 64]`. It agrees with the backend generator on the same bytes. |
| ShortCode.AlphabetIndex | backend/redirect-worker/src/index.ts:36 | Every character of the route guard's class sits somewhere in the 64-character alphabet. |
| ShortCode.AlphabetEntryIsCodeChar | frontend/functions/api/shorten.ts:25 | Every alphabet character passes the route guard's character class. |
| ShortCode.EveryCodeIsGenerated | backend/redirect-worker/src/index.ts:35-46 | Every string over `[A-Za-z0-9_-]` is the code of some byte sequence of the same length: the generator reaches exactly the routable codes. |
| Strings.Trim | backend/redirect-worker/src/index.ts:52 | `trim` leaves neither end as whitespace and never lengthens. The result is a window of the input with only whitespace before and after it. It is empty exactly for all-whitespace input, and an already trimmed string is left alone. |
| Strings.TrimIdempotent | backend/redirect-worker/src/index.ts:52 | Trimming twice is trimming once. |
| Strings.SchemeLength | backend/redirect-worker/src/index.ts:55 | The match of `/^https?:\/\//i` is 8 characters exactly on an `https://` prefix in any case, 7 exactly on `http://`, and otherwise absent. |
| Registry.Lookup | backend/redirect-worker/src/index.ts:218-225 | A lookup finds a URL exactly when the key holds a non-empty value, as `!longUrl` tests. |
| Registry.NormalizeUrl | backend/redirect-worker/src/index.ts:51-61 | The result is the trimmed input when that starts with `http://` or `https://` in any case, else `https://` plus the trimmed input. It always carries a scheme and is trimmed. |
| Registry.NormalizeUrlIdempotent | backend/redirect-worker/src/index.ts:51-61 | Normalising twice is normalising once. |
| Registry.NormalizeUrlAddsHttpsOnce | frontend/functions/api/shorten.ts:40-46 | A trimmed scheme-less URL gains `https://` once, and a second normalisation adds nothing. |
| Registry.AllocateFrom | backend/redirect-worker/src/index.ts:166-173 | Draws candidates in order, stopping at the first free one. The chosen code is free, every earlier candidate was taken, and with no code every candidate was taken. |
| Registry.Allocate | backend/redirect-worker/src/index.ts:162-180 | At most 10 candidates are checked, and each is the generator's code for its attempt's bytes. Allocation fails exactly when all 10 are taken. A found code is free, 8 characters long and routable. |
| Registry.AllocatedCandidate | backend/redirect-worker/src/index.ts:166-173 | A found code is the candidate of the last attempt made, and not every candidate was taken. |
| Registry.ExhaustedCandidates | backend/redirect-worker/src/index.ts:175-180 | Exhaustion means all 10 candidates were checked and every one was taken. |
| Registry.Commit | backend/redirect-worker/src/index.ts:183-198 | The write adds `code ↦ url` and nothing else changes. The 200 body carries `origin/code` and the normalised URL. |
| Registry.AllocateAndCommit | backend/redirect-worker/src/index.ts:162-198 | Either 500 with the store untouched, exactly when every candidate is taken, or 200 with one new key. That key was free when checked, and the lookups are the candidates in order. |
| Registry.TakenThenFree | frontend/functions/api/shorten.ts:123-153 | Lookups that were all taken, followed by a free code that was written, make the code the last lookup. This holds with or without a proposed code in front. |
| RedirectWorker.HandleShorten | backend/redirect-worker/src/index.ts:135-204 | An unreadable body is a 500 and a bad `longUrl` or URL a 400, both before any lookup and without a write. Exhaustion is a 500 without a write. Success writes exactly the normalised URL under a code that was free. |
| RedirectWorker.ShortenLongUrl | backend/redirect-worker/src/index.ts:143-203 | The handler after the body is read: 400 precisely for a missing or non-string `longUrl` or a URL the parser rejects, else the allocation outcome. |
| RedirectWorker.HandleRedirect | backend/redirect-worker/src/index.ts:209-244 | One read, no write. A missing or empty value is a 404 with no event. Otherwise a 302 to the stored URL with one event carrying the code, the URL, the elapsed time, the timestamp and the version tag. The event has a region exactly when the colo is present and non-empty, and then the region is the colo. |
| RedirectWorker.SendAnalyticsEvent | backend/redirect-worker/src/index.ts:109-130 | Nothing is posted when the analytics URL is unset or empty. Otherwise the event itself is posted to the analytics URL followed by `/analytics/redirect`, the path the analytics worker serves redirect events on. |
| RedirectWorker.EventJson | backend/redirect-worker/src/index.ts:125 | `JSON.stringify(event)`: every field under its own name, with a missing region or version left out. |
| RedirectWorker.FoundRedirectIsCounted | backend/redirect-worker/src/index.ts:120-126 | A resolved redirect with a non-empty code and a non-zero timestamp posts an event that the analytics worker routes to its redirect handler. The handler answers 200 and adds one redirect and the lookup time to the counters, taking the analytics URL as that worker's origin. |
| RedirectWorker.RouteOf | backend/redirect-worker/src/index.ts:259-275 | OPTIONS is the preflight, and `POST /api/shorten` is the shorten handler. A GET goes to the redirect exactly when the path after `/` is non-empty and matches `^[A-Za-z0-9_-]+$`. |
| RedirectWorker.Fetch | backend/redirect-worker/src/index.ts:249-283 | Preflight gets a 204, the two routes reach their handlers, and everything else is a 404. Only the shorten route changes the store, and only a successful GET emits an event. |
| RedirectWorker.ShortenThenRedirect | backend/redirect-worker/src/index.ts:183-243 | A code that shorten just returned redirects to the normalised long URL and emits its event. |
| RedirectWorker.ShortenedCodeIsRouted | backend/redirect-worker/src/index.ts:269-273 | `GET /<code>` reaches the redirect handler for every generated code. |
| RedirectWorker.SequentialShortensDiffer | backend/redirect-worker/src/index.ts:166-183 | Two successful shortens in a row never return the same code. |
| RedirectWorker.UnwrittenCodeIsNotFound | backend/redirect-worker/src/index.ts:218-225 | A code that was never written is a 404 with no event. |
| PagesShorten.ProposedCode | frontend/functions/api/shorten.ts:63-66 | A proposed code is accepted exactly when it is a string of exactly 8 characters over `[A-Za-z0-9_-]`. |
| PagesShorten.OnRequestPost | frontend/functions/api/shorten.ts:95-174 | A 400 happens before any lookup and never writes, and a 500 never writes. Success writes exactly one key, the normalised URL under a code that was free. |
| PagesShorten.TryProposed | frontend/functions/api/shorten.ts:123-150 | A free proposed code is used with a single lookup and no draw. A taken one falls back to at most 10 generated candidates after it. |
| PagesShorten.ProposedCodeIsReserved | frontend/functions/api/shorten.ts:123-128 | For a valid request with a free valid proposal, the store gains exactly that code. |
| PagesShorten.RejectedProposalFallsBack | frontend/functions/api/shorten.ts:130-149 | An absent, invalid or taken proposal falls back to generation. The result is then the redirect worker's allocation, after the proposal's lookup if there was one. |
| PagesShorten.AgreesWithRedirectWorker | frontend/functions/api/shorten.ts:24-46 | Without a proposed code, the Pages handler and the redirect worker's handler behave identically. |
| Decimal.NatToDecimal | backend/analytics-worker/src/index.ts:94-98 | `toString` of a natural is a non-empty digit string without a leading zero. |
| Decimal.IntToDecimal | backend/analytics-worker/src/index.ts:94-98 | A negative count is written with a leading `-`, and a non-negative one as plain digits. |
| Decimal.ParseDecimal | backend/analytics-worker/src/index.ts:79-80 | Parsing succeeds exactly on an optionally negated non-empty digit string. |
| Decimal.DigitsRoundTrip | backend/analytics-worker/src/index.ts:79-98 | Reading back the digits written for a natural gives the natural. |
| Decimal.DecimalRoundTrip | backend/analytics-worker/src/index.ts:79-98 | A count written with `toString` parses back to the same integer. |
| AnalyticsWorker.ReadCount | backend/analytics-worker/src/index.ts:79-80 | A missing or empty key reads as 0 and a decimal value reads as its number. This agrees with the reference reading: the decimal the text spells, and 0 for anything else. |
| AnalyticsWorker.ReadText | backend/analytics-worker/src/index.ts:81-83 | A missing or empty key reads as the default, and any other value as itself. |
| AnalyticsWorker.ReadCounters | backend/analytics-worker/src/index.ts:64-86 | A count is the decimal its key's text spells. It is 0 when the key is missing, empty or not a decimal. A metadata field is its key's text when non-empty, and otherwise its `DEFAULT_COUNTERS` value (the start-up time for the deploy timestamp). |
| AnalyticsWorker.RedirectTimeMs | backend/analytics-worker/src/index.ts:145 | The time an event adds to `total_ms`: a number adds itself, `true` adds 1, and a falsy or missing value adds 0. |
| AnalyticsWorker.FreshStoreReadsDefaults | backend/analytics-worker/src/index.ts:53-59 | A namespace without the five keys reads as 0 redirects, 0 ms, `v1.000`, the start-up time and `Initial deployment`. |
| AnalyticsWorker.KeysDistinct | backend/analytics-worker/src/index.ts:46-50 | The five keys are pairwise different, so writing one never disturbs another. |
| AnalyticsWorker.PutValue | backend/analytics-worker/src/index.ts:91-111 | Only the worker's five keys can receive a value. |
| AnalyticsWorker.WriteCounters | backend/analytics-worker/src/index.ts:91-111 | A supplied field's key gets the field's text. Every key whose field is not supplied, and every key outside the five, keeps its state. |
| AnalyticsWorker.ReadCountAfterWrite | backend/analytics-worker/src/index.ts:79-98 | After a write, a count reads back as the written number, or as before when it was not written. |
| AnalyticsWorker.ReadTextAfterWrite | backend/analytics-worker/src/index.ts:81-107 | After a write, a text reads back as the written text, or as before when it was not written. |
| AnalyticsWorker.ReadAfterWrite | backend/analytics-worker/src/index.ts:64-111 | Reading after a partial write gives the old counters with exactly the supplied fields replaced. |
| AnalyticsWorker.RecordEvent | backend/analytics-worker/src/index.ts:142-151 | Recording raises the redirect count by 1 and the total time by the event's time (0 when absent). Every other key is unchanged. |
| AnalyticsWorker.HandleAnalyticsRedirect | backend/analytics-worker/src/index.ts:126-163 | An unreadable body is a 500, and a missing or falsy `code`, `longUrl` or `timestamp` is a 400. Neither writes. A valid event is recorded and answered with success. |
| AnalyticsWorker.RecordAllAdds | backend/analytics-worker/src/index.ts:142-151 | Recording `n` valid events adds `n` redirects and the sum of their times, and leaves the metadata as it was. |
| AnalyticsWorker.FreshRecordCounts | backend/analytics-worker/src/index.ts:142-151 | From an empty namespace, `n` valid events read back as `n` redirects and the sum of their times. |
| AnalyticsWorker.HandleDeployMetadata | backend/analytics-worker/src/index.ts:196-228 | A missing or falsy `version` or `deploy_timestamp` is a 400 with no write. Otherwise the three metadata keys are overwritten, the commit summary defaulting to `No commit message`. The redirect counters and every other key are unchanged. |
| AnalyticsWorker.ComputeAverage | backend/analytics-worker/src/index.ts:116-121 | Zero before the first redirect; afterwards the average times the count is the total time. |
| AnalyticsWorker.HandleSpeedometer | backend/analytics-worker/src/index.ts:168-191 | A read-only 200 that echoes the version, deploy time, commit summary and redirect count, plus the average of the stored totals. |
| AnalyticsWorker.Fetch | backend/analytics-worker/src/index.ts:233-263 | The three method and path pairs reach their handlers and everything else is a 404. Only POST and PATCH can change the store. |
| UrlUtils.ParseUrl | frontend/src/lib/urlUtils.ts:14-46 | The protocol is `http://` or `https://`, and `fullUrl` is the protocol (in any case) followed by the domain. `fullUrl` is the trimmed input exactly when that input already has a scheme, and then the domain is what follows the scheme. Otherwise the protocol is `https://` and the domain is the trimmed input, less one leading `//`. |
| UrlUtils.ParseUrlSeesTrimmed | frontend/src/lib/urlUtils.ts:15 | Inputs that trim alike parse alike. |
| UrlUtils.ParseHttpsUrl | frontend/src/lib/urlUtils.ts:20-29 | A trimmed `https://` URL splits into `https://` and the rest, and is its own full URL. |
| UrlUtils.ParseUrlFixedPoint | frontend/src/lib/urlUtils.ts:14-46 | Re-parsing a parse's `fullUrl` gives the same parse, for schemed, protocol-relative and bare inputs alike. |
| UrlUtils.Hostname | frontend/src/lib/urlUtils.ts:59-76 | Take the trimmed domain with its leading and trailing slashes removed. A host is found exactly when that is non-empty and does not start with `/`, `?` or `#`. The host is then its longest prefix holding no `/`, `?` or `#`. |
| UrlUtils.TldCheck | frontend/src/lib/urlUtils.ts:88-127 | A host without a dot errs at its length. A last label whose part before `:` is shorter than 2 or not `[a-z0-9-]+` errs at the label's start. Positions lie within the host. |
| UrlUtils.ValidateTldAsWritten | frontend/src/lib/urlUtils.ts:58-128 | The source's order of exemptions and checks. No host means no error. A host that is not a dotted quad, not bracketed and not `localhost` gets exactly the top-level-domain check. Any error lies within the host. |
| UrlUtils.ValidateTld | frontend/src/lib/urlUtils.ts:58-128 | As written, except that the dotted-quad exemption looks at the host before its first `:`. No host means no error. A non-exempt host gets exactly the top-level-domain check, and every error reported is the source's error. |
| UrlUtils.SingleLabelMissesTld | frontend/src/lib/urlUtils.ts:91-98 | A single plain label other than `localhost` errs at its length. |
| UrlUtils.AppendingTldClearsError | frontend/src/lib/urlUtils.ts:91-127 | Adding `.com` to a single label turns that error into a pass. |
| UrlUtils.IpWithPortAccepted | frontend/src/lib/urlUtils.ts:78-81 | With the correction, a dotted-quad address with a numeric port needs no top-level domain. |
| UrlUtils.IpWithPortRejected | frontend/src/lib/urlUtils.ts:78-116 | As written, `192.168.1.1:8080` is reported as missing its top-level domain at position 10. |
| UrlUtils.IpWithPortFixed | frontend/src/lib/urlUtils.ts:78-81 | With the correction, `192.168.1.1:8080` passes. |
| UrlUtils.JoinUrl | frontend/src/lib/urlUtils.ts:133-142 | The trimmed protocol, then the trimmed domain less one leading `https://` or `http://` in any letter case. A domain without a scheme is appended unchanged, and the result always starts with the trimmed protocol. |
| UrlUtils.SchemeInDomainIsDropped | frontend/src/lib/urlUtils.ts:137-141 | `http://` or `https://` typed before a trimmed domain, in any letter case, is dropped: the join is the trimmed protocol followed by the bare domain. |
| UrlUtils.BareDomainKept | frontend/src/lib/urlUtils.ts:137-141 | A trimmed domain without a scheme is appended to the trimmed protocol as it is. |
| BehaviorDetection.RuleIndex | frontend/src/lib/behaviorDetection.ts:48-104 | Every rule-driven behaviour has its place in the order the rules push. |
| BehaviorDetection.RuleOrderIsOrdered | frontend/src/lib/behaviorDetection.ts:48-104 | The rules push in one fixed order, which never includes `typing` or `cleared_all`. |
| BehaviorDetection.Select | frontend/src/lib/behaviorDetection.ts:48-104 | Selection only returns behaviours from the rules. |
| BehaviorDetection.SelectMembership | frontend/src/lib/behaviorDetection.ts:48-104 | A rule's behaviour is selected exactly when its guard holds. |
| BehaviorDetection.SelectInRuleOrder | frontend/src/lib/behaviorDetection.ts:48-104 | Selection keeps the rules' order. |
| BehaviorDetection.Rules | frontend/src/lib/behaviorDetection.ts:34-104 | The pushed behaviours come in rule order, without `typing` or `cleared_all`. |
| BehaviorDetection.DetectBehaviors | frontend/src/lib/behaviorDetection.ts:26-112 | The result is never empty and comes in rule order. `typing` and `cleared_all` only ever appear alone. |
| BehaviorDetection.GuardsAgree | frontend/src/lib/behaviorDetection.ts:48-104 | Each rule's guard is the independent statement of when its behaviour applies. |
| BehaviorDetection.RulesMembership | frontend/src/lib/behaviorDetection.ts:48-104 | For a non-empty value, a behaviour is pushed exactly when its rule applies. |
| BehaviorDetection.DetectBehaviorsMembership | frontend/src/lib/behaviorDetection.ts:26-112 | Each behaviour other than `typing` is reported exactly when it applies. For example, `pasted_big` needs a previous state and more than 10 characters of growth, and `oscillating` needs `history[len-3].value == next.value`. |
| BehaviorDetection.TypingWhenNothingApplies | frontend/src/lib/behaviorDetection.ts:34-39 | `typing` is reported exactly when the value stays empty from an empty start, or when it is non-empty and no rule applies. |
| BehaviorDetection.EmptiedInput | frontend/src/lib/behaviorDetection.ts:34-45 | An empty value after an empty or absent previous value is exactly `['typing']`. After a non-empty one it is exactly `['cleared_all']`. |
| BehaviorDetection.OpposedRulesExclusive | frontend/src/lib/behaviorDetection.ts:56-73 | `added_tld` and `removed_tld` never come together, and neither do `fixed_error` and `broke_validity`. |
| BehaviorDetection.ValidityGatedRules | frontend/src/lib/behaviorDetection.ts:94-104 | `too_short` and `using_http` appear only for a valid URL. |
| BehaviorDetection.PortNeedsParsedUrl | frontend/src/lib/behaviorDetection.ts:87-90 | `has_port` appears only with the port flag and a parsed URL. |
| BehaviorDetection.GrowthAndReturnRules | frontend/src/lib/behaviorDetection.ts:47-81 | `pasted_big` is reported exactly when there is a previous state more than 10 characters shorter. `oscillating` is reported exactly when the value is non-empty and the third-from-last history entry holds it. |
| BehaviorDetection.DetectBehavior | frontend/src/lib/behaviorDetection.ts:11-18 | The single behaviour is the first of the list, one of its members that no other precedes. |
| BehaviorDetection.DetectBehaviorFirstApplying | frontend/src/lib/behaviorDetection.ts:11-18 | The single behaviour applies and comes no later than any applying behaviour. |
| BehaviorDetection.InitialState | frontend/src/lib/behaviorDetection.ts:117-123 | The initial state is empty, unparsed and invalid. |
| BehaviorDetection.FirstKeystrokeStartsTyping | frontend/src/lib/behaviorDetection.ts:34-40 | The first non-empty value after the initial state is `started_typing`. |
| BehaviorDetection.UpdateHistory | frontend/src/lib/behaviorDetection.ts:128-137 | The new history has length `min(len + 1, 20)`, ends with the new state and is a suffix of the old history plus the new state. |
| BehaviorDetection.UpdateAllKeepsLast | frontend/src/lib/behaviorDetection.ts:128-137 | Any run of updates keeps exactly the last 20 states seen. |
| MessageEngine.Pick | frontend/src/lib/messageEngine.ts:13-15 | `random` on a non-empty array yields one of its elements. |
| MessageEngine.PickAny | frontend/src/lib/messageEngine.ts:13-15 | `random` yields a value exactly for a non-empty array. |
| MessageEngine.NormalizeForCombination | frontend/src/lib/messageEngine.ts:20-26 | Length and every character but the first are kept, and a leading `?` or `!` leaves the message unchanged. Otherwise the first character is lower-cased. |
| MessageEngine.NormalizeIdempotent | frontend/src/lib/messageEngine.ts:20-26 | Normalising twice is normalising once. |
| MessageEngine.EndsWithPunctuation | frontend/src/lib/messageEngine.ts:31-33 | True exactly when some `.`, `!` or `?` is followed by nothing but whitespace. |
| MessageEngine.TrimmedEndIsPunctuated | frontend/src/lib/messageEngine.ts:31-33 | Punctuation ending the trimmed message is followed only by whitespace in the message. |
| MessageEngine.PunctuatedIsTrimmedEnd | frontend/src/lib/messageEngine.ts:31-33 | Punctuation followed only by whitespace is the trimmed message's last character. |
| MessageEngine.PairOf | frontend/src/lib/messageEngine.ts:46-153 | A joint template exists exactly for the unordered pairs {spaces, http}, {too short, http} and {spaces, swearwords}. |
| MessageEngine.PairOfSymmetric | frontend/src/lib/messageEngine.ts:46-153 | The order of the two behaviours does not matter. |
| MessageEngine.Contextual | frontend/src/lib/messageEngine.ts:38-154 | A combination is offered only for a recognised pair, and it is a non-empty one of that pair's templates for the mood. |
| MessageEngine.ListBody | frontend/src/lib/messageEngine.ts:253-264 | The loop over the later messages: each but the last normalised after the connector drawn on its pass and a space, the last after ` and `. It ends with ` and ` plus the last message normalised. |
| MessageEngine.ListBodyPieces | frontend/src/lib/messageEngine.ts:253-264 | Each message but the last appears in the loop's output normalised, right after its connector and a space. |
| MessageEngine.CombineMessages | frontend/src/lib/messageEngine.ts:159-267 | No messages give the empty string and one message gives itself. Three are joined by one list connector and one final connector of the mood. Four or more are the first followed by the loop's output for some list connectors of the mood, ending with ` and ` plus the last, normalised. |
| MessageEngine.CombineThree | frontend/src/lib/messageEngine.ts:203-237 | The first message, a list connector of the mood, a space and the second normalised, then a final connector of the mood, a space and the third normalised. |
| MessageEngine.CombineList | frontend/src/lib/messageEngine.ts:239-266 | The first message followed by the loop's output over the rest, with one list connector of the mood drawn per later message. It starts with the first and ends with ` and ` plus the last, normalised. |
| MessageEngine.MiddleMessagesFollowConnectors | frontend/src/lib/messageEngine.ts:239-266 | With four or more messages, each one strictly between the first and the last appears normalised right after a list connector of the mood and a space. |
| MessageEngine.TwoMessagesJoined | frontend/src/lib/messageEngine.ts:168-199 | Two messages of an unrecognised pair are the first, a mood connector, a space and the second normalised. |
| MessageEngine.RecognisedPairUsesTemplate | frontend/src/lib/messageEngine.ts:168-177 | Two messages of a recognised pair become one of the pair's templates, whichever order the behaviours came in. |
| MessageEngine.Keep | frontend/src/lib/messageEngine.ts:285 | Filtering keeps every accepted element as often as it occurred and drops the rest. |
| MessageEngine.KeepSorted | frontend/src/lib/messageEngine.ts:285-313 | Filtering keeps a priority-sorted list sorted. |
| MessageEngine.FilteredBehaviors | frontend/src/lib/messageEngine.ts:285-313 | `typing` is dropped. When a structural behaviour is present the transitional ones are dropped as well, and every other behaviour is kept as often as it occurred. |
| MessageEngine.TypingIsNotStructural | frontend/src/lib/messageEngine.ts:310 | Dropping `typing` first does not change whether a structural behaviour is present. |
| MessageEngine.PriorityInjective | frontend/src/lib/messageEngine.ts:316-332 | No two behaviours share a priority, so the sort never has to break a tie between different behaviours. |
| MessageEngine.StructuralFirst | frontend/src/lib/messageEngine.ts:315-332 | Every structural behaviour sorts before every other behaviour, including `pasted_big` at the default 50. |
| MessageEngine.InsertByPriority | frontend/src/lib/messageEngine.ts:335-337 | Inserting into a sorted list keeps it sorted and adds exactly the new element. |
| MessageEngine.SortByPriority | frontend/src/lib/messageEngine.ts:335-337 | The result is sorted by priority, with a missing entry counting as 50, and is a permutation of the input. |
| MessageEngine.SortedUnique | frontend/src/lib/messageEngine.ts:335-337 | Any two priority-sorted permutations of the same behaviours are equal, so every correct sort agrees with this one. |
| MessageEngine.SpeakingBehaviors | frontend/src/lib/messageEngine.ts:285-348 | The behaviours whose messages are combined are sorted by priority. They are the considered behaviours with messages in the mood's table, each as often as it occurred. |
| MessageEngine.Draw | frontend/src/lib/messageEngine.ts:339-348 | One message is drawn per speaking behaviour, from that behaviour's own list. |
| MessageEngine.SpeakingWhenSomeHasMessage | frontend/src/lib/messageEngine.ts:339-359 | Behaviour messages are used exactly when some considered behaviour has messages. |
| MessageEngine.FirstSpeakerHasTopPriority | frontend/src/lib/messageEngine.ts:335-348 | The first speaking behaviour comes no later than any considered behaviour that has messages. |
| MessageEngine.SilencedBehaviors | frontend/src/lib/messageEngine.ts:285-313 | `typing` never speaks, and a structural behaviour silences `fixed_error`, `added_tld`, `removed_tld`, `started_typing` and `oscillating`. |
| MessageEngine.PickMessage | frontend/src/lib/messageEngine.ts:274-415 | The result echoes mood, pattern, behaviours and parsed URL. A message is missing only for a parsed URL whose valid default list is empty. |
| MessageEngine.BehaviorMessageLeads | frontend/src/lib/messageEngine.ts:339-359 | Behaviour messages win when there are any. One speaker gives one of its own messages, and three or more open with one of the first speaker's messages. |
| MessageEngine.PatternMessage | frontend/src/lib/messageEngine.ts:361-414 | Without behaviour messages, the only way to have no message is a parsed URL whose valid default list is empty. |
| MessageEngine.PatternDecides | frontend/src/lib/messageEngine.ts:351-361 | Without behaviour messages, the pattern alone decides the message. |
| MessageEngine.InvalidPatternFirst | frontend/src/lib/messageEngine.ts:362-377 | An invalid pattern with messages gets one of them. |
| MessageEngine.ValidPatternNext | frontend/src/lib/messageEngine.ts:380-394 | A parsed URL with a valid pattern that has messages gets one of them. |
| MessageEngine.ValidDefaultNext | frontend/src/lib/messageEngine.ts:395-404 | Otherwise a parsed URL gets a message from the valid default list, and none exactly when that list is empty. |
| MessageEngine.FallbackLast | frontend/src/lib/messageEngine.ts:407-414 | When no pattern source has a message, the message is `URL input detected.` |
| MessageEngine.PatternKindsPartition | frontend/src/lib/messageEngine.ts:362-380 | Every pattern is either invalid or valid, never both. |
| QrParams.FunnyParamsArePairs | frontend/src/lib/qrParams.ts:6-16 | Every funny parameter is a single `key=value` pair with no `?`, `&` or `#`. |
| QrParams.GetFunnyQueryParam | frontend/src/lib/qrParams.ts:22-25 | `?` followed by one of the nine funny parameters. |
| QrParams.Separator | frontend/src/lib/qrParams.ts:35 | `&` exactly when the URL already contains `?`, else `?`. |
| QrParams.AddFunnyQueryParam | frontend/src/lib/qrParams.ts:32-37 | The URL is a prefix and is followed by the separator, then exactly one funny parameter. The result contains `?`. |
| QrParams.LastSeparator | frontend/src/lib/qrParams.ts:32-37 | Finds the last `?` or `&`, after which none follows. |
| QrParams.DropLastPair | frontend/src/lib/qrParams.ts:32-37 | Cutting at the last separator leaves a prefix of the link. |
| QrParams.DropFunnyParam | frontend/src/lib/qrParams.ts:32-37 | Cutting the decorated link at its last separator gives the original URL back. |
| QrParams.LastSeparatorBeforePair | frontend/src/lib/qrParams.ts:35-36 | A separator followed by one query pair is the link's last separator. |
| MoodSystem.GetCurrentMood | frontend/src/lib/moodSystem.ts:12-33 | A day number outside 0 to 6 falls back to chill. |
| MoodSystem.DayOf | frontend/src/lib/moodSystem.ts:15-29 | Every mood belongs to a day of the week. |
| MoodSystem.EveryMoodHasADay | frontend/src/lib/moodSystem.ts:15-29 | The day a mood belongs to yields that mood. |
| MoodSystem.EachDayItsOwnMood | frontend/src/lib/moodSystem.ts:15-29 | Days 0 to 6 map onto the seven moods one-to-one: Sunday wholesome, Monday sassy, Tuesday bored, Wednesday bruh, Thursday bro, Friday party, Saturday chill. |

## Left out

- CORS headers, content types and the JSON text of responses. A response is a status and an abstract body.
- `crypto.getRandomValues`, `Math.random`, `Date.now`, `new Date()` and the WHATWG `URL` constructor. They are parameters: byte blocks, rolls, clock readings, a day number, a start-up time and a validity predicate.
- `ctx.waitUntil` and the network `fetch` of `sendAnalyticsEvent`. The event is an output value, and a failed send is not modelled because it never reaches the redirect's response.
- Concurrent read-modify-write races on either namespace. Every handler runs alone.
- The contents of `messages.json` and the literal pair templates. They are lookup tables passed in, because the data does not change the engine's logic. The connector lists are modelled literally.
- `MessageEngine.PickMessage`: an absent table in the message data reads as empty lists, and an absent `valid` table as an absent default list. Each `random` call gets its own roll rather than one shared stream.
- `AnalyticsWorker.HandleSpeedometer`: the average is the exact quotient. The `Math.round(x * 1000) / 1000` rounding to three decimals is floating point and is not modelled.
- `AnalyticsWorker.ReadCount`: stored text that is not a plain decimal (which this worker never writes) reads as 0. `parseInt`'s acceptance of leading whitespace, a `+` sign or trailing junk, and its `NaN`, are not modelled.
- `AnalyticsWorker.RedirectTimeMs`: a truthy string, array or object counts as 0. In the source, `+` would concatenate it onto `total_ms` as text, which the next read's `parseInt` cuts back to its leading digits. JSON numbers are integers here, so a fractional time is not representable. The source adds it, and the next read's `parseInt` truncates the stored sum.
- `AnalyticsWorker.HandleDeployMetadata`: a truthy non-string `version`, `deploy_timestamp` or `commit_summary` is answered with 500, with the store unchanged. In the source, the key-value `put` rejects the non-string value and the handler's `catch` answers 500. But `writeCounters` issues every `put` before awaiting them, so the puts of the string fields may already have landed.
- Key-value `get` and `put` failures: every store operation succeeds here. In the source, such a failure inside the analytics handlers, `handleShorten` or the Pages function is caught and answered with 500. In `handleRedirect`, which has no `try`, it escapes the handler.
- `RedirectWorker.HandleRedirect`: the 302 carries the stored string as it is. `Response.redirect` re-serialises the URL, for instance adding a trailing `/` to a bare origin, and throws a `TypeError` on a stored value it cannot parse.
- `Decimal.IntToDecimal`: JavaScript numbers are doubles. Counts beyond 2^53, and the exponent form `toString` uses for numbers of 21 or more digits, are not modelled. Integers are unbounded here.
- String lengths count Unicode code points, while JavaScript counts UTF-16 code units. This differs only for characters outside the Basic Multilingual Plane.
- `toLowerCase` in the `localhost` check and in `normalizeForCombination` is folded on ASCII letters only. The `/i` regular expressions without the `u` flag are ASCII-exact on the letters they name, so those are exact.
- `has_invisible_chars` appears in the message engine's structural list and priority table, but it is not a behaviour the detector can report. It is omitted.
- `getErrorPositionInInput` in `urlUtils.ts` returns its `errorPosition` argument unchanged, and its other parameters are unused. It has no logic to model.
- `frontend/functions/[code].ts`, `frontend/functions/api/url-count.ts` and `frontend/functions/speedometer.ts` are not part of this model. They are a second redirect path, a paginated key count and a proxy.
- The React pages and components, `useRandomTagline.ts` and `api.ts` are not part of this model. They are rendering, UI state and HTTP client code.

## Findings

| source | as written | input that shows it | evidently intended | confidence | as-written member | corrected member |
|---|---|---|---|---|---|---|
| frontend/src/lib/urlUtils.ts:78-81 | The IPv4 exemption tests `^(\d+\.){3}\d+$` against the host with its port still attached. An address with a port then falls through to the top-level-domain check, where the last label `1:8080` loses its port and is too short. | `192.168.1.1:8080` gives an error at position 10 | An IPv4 address with a port needs no top-level domain, just as `localhost:` with a port is exempt two lines below | not executed | UrlUtils.IpWithPortRejected | UrlUtils.IpWithPortAccepted |
