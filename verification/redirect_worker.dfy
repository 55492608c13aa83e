/** The redirect worker: `POST /api/shorten`, `GET /:code` with a fire-and-forget
    analytics event, and the router in `fetch`. The random bytes, the clock, the request
    origin and the WHATWG URL parser's verdict are parameters. */
module RedirectWorker {
  import opened Wrappers
  import opened Strings
  import opened ShortCode
  import opened Json
  import opened Http
  import opened Registry
  import AnalyticsWorker

  /** What `sendAnalyticsEvent` posts to the analytics worker. */
  datatype AnalyticsEvent = AnalyticsEvent(
    code: string,
    longUrl: string,
    timestamp: int,
    redirectTimeMs: int,
    region: Option<string>,
    version: Option<string>)

  /** The three `Date.now()` readings of a redirect: before the KV read, after it, and
      when the event is built. */
  datatype Clock = Clock(start: int, afterLookup: int, stamp: int)

  /** A handled request: the registry outcome plus the event handed to `ctx.waitUntil`. */
  datatype Handled = Handled(outcome: Outcome, event: Option<AnalyticsEvent>)

  /** The version tag every event carries. */
  const EventVersion: string := "v1.0.0"

  const ShortUrlNotFound: Response := Response(NotFound, ErrorBody("Short URL not found"))

  /** `handleShorten`: validate `longUrl`, normalise it, let the URL parser judge it,
      then allocate a code and write it. */
  function HandleShorten(store: Store, body: Option<Json>, origin: string,
                         validUrl: string -> bool, draws: seq<Bytes8>): (r: Outcome)
    requires |draws| == MaxAttempts
    ensures r.response.status in {Ok, BadRequest, ServerError}
    ensures r.response.status != Ok ==> r.store == store
    ensures Unreadable(body) ==> r == Outcome(store, InternalError, [])
    ensures r.response.status == BadRequest <==>
              !Unreadable(body) &&
              (LongUrlField(body.value).None? || !validUrl(NormalizeUrl(LongUrlField(body.value).value)))
    ensures r.response.status == BadRequest ==> r.lookups == []
    ensures |r.lookups| <= MaxAttempts
    ensures forall j :: 0 <= j < |r.lookups| ==> r.lookups[j] == Candidate(draws, j)
    ensures !Unreadable(body) && LongUrlField(body.value).Some? &&
            validUrl(NormalizeUrl(LongUrlField(body.value).value)) ==>
              (r.response.status == ServerError <==>
                 forall j :: 0 <= j < MaxAttempts ==> !IsFree(store, Candidate(draws, j)))
    ensures r.response.status == Ok ==>
              RegistersLast(store, r, origin, NormalizeUrl(LongUrlField(body.value).value))
  {
    if Unreadable(body) then Outcome(store, InternalError, [])
    else ShortenLongUrl(store, LongUrlField(body.value), origin, validUrl, draws)
  }

  /** The part of `handleShorten` after the body was read, given its `longUrl` field. */
  function ShortenLongUrl(store: Store, longUrl: Option<string>, origin: string,
                          validUrl: string -> bool, draws: seq<Bytes8>): (r: Outcome)
    requires |draws| == MaxAttempts
    ensures r.response.status in {Ok, BadRequest, ServerError}
    ensures r.response.status != Ok ==> r.store == store
    ensures r.response.status == BadRequest <==>
              longUrl.None? || !validUrl(NormalizeUrl(longUrl.value))
    ensures r.response.status == BadRequest ==> r.lookups == []
    ensures |r.lookups| <= MaxAttempts
    ensures forall j :: 0 <= j < |r.lookups| ==> r.lookups[j] == Candidate(draws, j)
    ensures longUrl.Some? && validUrl(NormalizeUrl(longUrl.value)) ==>
              (r.response.status == ServerError <==>
                 forall j :: 0 <= j < MaxAttempts ==> !IsFree(store, Candidate(draws, j)))
    ensures r.response.status == Ok ==> RegistersLast(store, r, origin, NormalizeUrl(longUrl.value))
  {
    match longUrl
    case None => Outcome(store, MissingLongUrl, [])
    case Some(u) =>
      var url := NormalizeUrl(u);
      if !validUrl(url) then Outcome(store, InvalidUrlFormat, [])
      else
        assert [] + Allocate(store, draws).checked == Allocate(store, draws).checked;
        AllocateAndCommit(store, origin, url, [], draws)
  }

  /** `handleRedirect`: one KV read; a missing or empty value is a 404 with no event,
      otherwise a 302 to the stored URL and one event naming the code and that URL. */
  function HandleRedirect(store: Store, code: string, clock: Clock, colo: Option<string>): (r: Handled)
    ensures r.outcome.store == store
    ensures r.outcome.lookups == [code]
    ensures r.outcome.response.status in {Found, NotFound}
    ensures r.outcome.response.status == NotFound <==> IsFree(store, code)
    ensures r.outcome.response.status == NotFound ==> r.event.None?
    ensures r.outcome.response.status == Found ==>
              && r.outcome.response.body == RedirectTo(store[code])
              && r.event.Some?
              && r.event.value.code == code
              && r.event.value.longUrl == store[code]
              && r.event.value.redirectTimeMs == clock.afterLookup - clock.start
              && r.event.value.timestamp == clock.stamp
              && r.event.value.version == Some(EventVersion)
    ensures r.event.Some? ==> (r.event.value.region.Some? <==> colo.Some? && colo.value != "")
    ensures r.event.Some? && r.event.value.region.Some? ==> r.event.value.region == colo
  {
    match Lookup(store, code)
    case None => Handled(Outcome(store, ShortUrlNotFound, [code]), None)
    case Some(longUrl) =>
      var region := if colo.Some? && colo.value != "" then colo else None;
      var event := AnalyticsEvent(code, longUrl, clock.stamp, clock.afterLookup - clock.start,
                                  region, Some(EventVersion));
      Handled(Outcome(store, Response(Found, RedirectTo(longUrl)), [code]), Some(event))
  }

  /** The POST `sendAnalyticsEvent` issues. */
  datatype Post = Post(url: string, event: AnalyticsEvent)

  /** `sendAnalyticsEvent`: nothing is sent when `ANALYTICS_WORKER_URL` is unset or empty;
      a failed send is swallowed and never reaches the redirect's response. */
  function SendAnalyticsEvent(analyticsUrl: string, event: AnalyticsEvent): (p: Option<Post>)
    ensures p.Some? <==> analyticsUrl != ""
    ensures p.Some? ==> p.value.event == event && StartsWith(p.value.url, analyticsUrl)
    ensures p.Some? ==> p.value.url == analyticsUrl + AnalyticsWorker.RedirectEventPath
  {
    if analyticsUrl == "" then None else Some(Post(analyticsUrl + "/analytics/redirect", event))
  }

  /** `JSON.stringify(event)`: the six fields by name, an `undefined` region or version
      left out. */
  function EventJson(e: AnalyticsEvent): (j: Json)
    ensures j.JObj? && !j.JNull?
    ensures Prop(j, "code") == Some(JStr(e.code)) && Prop(j, "longUrl") == Some(JStr(e.longUrl))
    ensures Prop(j, "timestamp") == Some(JNum(e.timestamp))
    ensures Prop(j, "redirectTimeMs") == Some(JNum(e.redirectTimeMs))
    ensures Prop(j, "region").Some? <==> e.region.Some?
    ensures e.region.Some? ==> Prop(j, "region") == Some(JStr(e.region.value))
    ensures Prop(j, "version").Some? <==> e.version.Some?
    ensures e.version.Some? ==> Prop(j, "version") == Some(JStr(e.version.value))
  {
    var base := map["code" := JStr(e.code), "longUrl" := JStr(e.longUrl),
                    "timestamp" := JNum(e.timestamp), "redirectTimeMs" := JNum(e.redirectTimeMs)];
    var withRegion := if e.region.Some? then base["region" := JStr(e.region.value)] else base;
    JObj(if e.version.Some? then withRegion["version" := JStr(e.version.value)] else withRegion)
  }

  /** Which handler `fetch` dispatches to. */
  datatype Route = Preflight | ShortenRoute | RedirectRoute(code: string) | NoRoute

  /** The router: OPTIONS first, then `POST /api/shorten`, then a `GET` whose path after
      the first character matches `^[A-Za-z0-9_-]+$`; everything else is a 404. */
  function RouteOf(verb: string, path: string): (r: Route)
    ensures r == Preflight <==> verb == "OPTIONS"
    ensures r == ShortenRoute <==> verb == "POST" && path == "/api/shorten"
    ensures r.RedirectRoute? <==> verb == "GET" && |path| > 1 && MatchesCodePattern(path[1..])
    ensures r.RedirectRoute? ==> r.code == path[1..]
  {
    if verb == "OPTIONS" then Preflight
    else if verb == "POST" && path == "/api/shorten" then ShortenRoute
    else if verb == "GET" && |path| > 1 && MatchesCodePattern(path[1..]) then RedirectRoute(path[1..])
    else NoRoute
  }

  /** Everything a request sees besides the store: the request's origin, the URL
      parser's verdict, the random bytes of each allocation attempt, the clock and the
      Cloudflare colo. */
  datatype Env = Env(origin: string, validUrl: string -> bool, draws: seq<Bytes8>,
                     clock: Clock, colo: Option<string>)

  /** The worker's `fetch`. */
  function Fetch(store: Store, req: Request, env: Env): (r: Handled)
    requires |env.draws| == MaxAttempts
    ensures req.verb == "OPTIONS" ==>
              r == Handled(Outcome(store, Response(NoContentStatus, NoContent), []), None)
    ensures RouteOf(req.verb, req.path) == ShortenRoute ==>
              r == Handled(HandleShorten(store, req.body, env.origin, env.validUrl, env.draws), None)
    ensures RouteOf(req.verb, req.path).RedirectRoute? ==>
              r == HandleRedirect(store, req.path[1..], env.clock, env.colo)
    ensures RouteOf(req.verb, req.path) == NoRoute ==>
              r == Handled(Outcome(store, RouteNotFound, []), None)
    ensures r.event.Some? ==> req.verb == "GET" && r.outcome.response.status == Found
    ensures r.outcome.store != store ==> req.verb == "POST" && req.path == "/api/shorten"
  {
    match RouteOf(req.verb, req.path)
    case Preflight => Handled(Outcome(store, Response(NoContentStatus, NoContent), []), None)
    case ShortenRoute =>
      Handled(HandleShorten(store, req.body, env.origin, env.validUrl, env.draws), None)
    case RedirectRoute(code) => HandleRedirect(store, code, env.clock, env.colo)
    case NoRoute => Handled(Outcome(store, RouteNotFound, []), None)
  }

  /** What `shorten` promises a later visitor: the code it returns now redirects to the
      normalised URL, with one analytics event for it. */
  lemma ShortenThenRedirect(store: Store, body: Option<Json>, origin: string,
                            validUrl: string -> bool, draws: seq<Bytes8>, clock: Clock,
                            colo: Option<string>)
    requires |draws| == MaxAttempts
    requires HandleShorten(store, body, origin, validUrl, draws).response.status == Ok
    ensures var out := HandleShorten(store, body, origin, validUrl, draws);
            var code := out.lookups[|out.lookups| - 1];
            var redirect := HandleRedirect(out.store, code, clock, colo);
            && redirect.outcome.response
               == Response(Found, RedirectTo(NormalizeUrl(LongUrlField(body.value).value)))
            && redirect.event.Some? && redirect.event.value.code == code
  {
    var out := HandleShorten(store, body, origin, validUrl, draws);
    var code := out.lookups[|out.lookups| - 1];
    var url := NormalizeUrl(LongUrlField(body.value).value);
    assert HasScheme(url);
    assert url != "";
    assert out.store[code] == url;
  }

  /** The same visit through the router: `GET /<code>` reaches the redirect handler. */
  lemma ShortenedCodeIsRouted(code: string)
    requires MatchesCodePattern(code)
    ensures RouteOf("GET", "/" + code) == RedirectRoute(code)
  {
    assert ("/" + code)[1..] == code;
  }

  /** Two successful shortens in a row never hand out the same code: the first write
      makes its code non-free for the second. */
  lemma SequentialShortensDiffer(store: Store, body1: Option<Json>, body2: Option<Json>,
                                 origin: string, validUrl: string -> bool,
                                 draws1: seq<Bytes8>, draws2: seq<Bytes8>)
    requires |draws1| == MaxAttempts && |draws2| == MaxAttempts
    requires HandleShorten(store, body1, origin, validUrl, draws1).response.status == Ok
    requires var s1 := HandleShorten(store, body1, origin, validUrl, draws1).store;
             HandleShorten(s1, body2, origin, validUrl, draws2).response.status == Ok
    ensures var o1 := HandleShorten(store, body1, origin, validUrl, draws1);
            var o2 := HandleShorten(o1.store, body2, origin, validUrl, draws2);
            o1.lookups[|o1.lookups| - 1] != o2.lookups[|o2.lookups| - 1]
  {
    var o1 := HandleShorten(store, body1, origin, validUrl, draws1);
    var o2 := HandleShorten(o1.store, body2, origin, validUrl, draws2);
    var c1 := o1.lookups[|o1.lookups| - 1];
    var url1 := NormalizeUrl(LongUrlField(body1.value).value);
    assert o1.store[c1] == url1 && url1 != "";
    assert !IsFree(o1.store, c1);
  }

  /** A resolved redirect is counted: the event it posts is routed by the analytics
      worker to `handleAnalyticsRedirect`, which adds one redirect and the lookup time.
      The analytics URL is taken to be the analytics worker's origin, so the request it
      sees has the path the redirect worker appended. A zero timestamp (the clock's
      epoch) or an empty code would be rejected as invalid. */
  lemma FoundRedirectIsCounted(store: Store, code: string, clock: Clock, colo: Option<string>,
                               analyticsUrl: string, analytics: AnalyticsWorker.Store,
                               bootTime: string)
    requires !IsFree(store, code) && code != "" && clock.stamp != 0 && analyticsUrl != ""
    ensures var event := HandleRedirect(store, code, clock, colo).event.value;
            var post := SendAnalyticsEvent(analyticsUrl, event).value;
            var req := Request("POST", post.url[|analyticsUrl|..], Some(EventJson(post.event)));
            var r := AnalyticsWorker.Fetch(analytics, req, bootTime);
            var before := AnalyticsWorker.ReadCounters(analytics, bootTime);
            && r.response.status == Ok
            && AnalyticsWorker.ReadCounters(r.store, bootTime)
               == before.(totalRedirects := before.totalRedirects + 1,
                          totalMs := before.totalMs + (clock.afterLookup - clock.start))
  {
    var event := HandleRedirect(store, code, clock, colo).event.value;
    var post := SendAnalyticsEvent(analyticsUrl, event).value;
    var j := EventJson(post.event);
    assert post.url[|analyticsUrl|..] == AnalyticsWorker.RedirectEventPath;
    assert event.longUrl == store[code] && store[code] != "";
    assert AnalyticsWorker.ValidEvent(j);
    assert AnalyticsWorker.RedirectTimeMs(j) == clock.afterLookup - clock.start;
  }

  /** A code that was never written is never resolved. */
  lemma UnwrittenCodeIsNotFound(store: Store, code: string, clock: Clock, colo: Option<string>)
    requires code !in store
    ensures HandleRedirect(store, code, clock, colo).outcome.response == ShortUrlNotFound
    ensures HandleRedirect(store, code, clock, colo).event.None?
  {
  }
}
