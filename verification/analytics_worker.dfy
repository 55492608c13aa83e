/** The analytics worker: five scalar counters kept in a key-value store as text, read
    with defaults, written field by field, raised by redirect events and overwritten by
    deploy metadata, and served as the speedometer. The start-up time that
    `DEFAULT_COUNTERS` captures is the `bootTime` parameter. */
module AnalyticsWorker {
  import opened Wrappers
  import opened Json
  import opened Http
  import opened Decimal

  /** The `KV_ANALYTICS` namespace: every value is a string. */
  type Store = map<string, string>

  const KeyTotalRedirects: string := "analytics:total_redirects"
  const KeyTotalMs: string := "analytics:total_ms"
  const KeyVersion: string := "analytics:version"
  const KeyDeployTimestamp: string := "analytics:deploy_timestamp"
  const KeyCommitSummary: string := "analytics:commit_summary"

  /** The five keys this worker owns; no other key is ever written. */
  predicate IsCounterKey(k: string) {
    k in {KeyTotalRedirects, KeyTotalMs, KeyVersion, KeyDeployTimestamp, KeyCommitSummary}
  }

  datatype Counters = Counters(
    totalRedirects: int,
    totalMs: int,
    version: string,
    deployTimestamp: string,
    commitSummary: string)

  const DefaultVersion: string := "v1.000"
  const DefaultCommitSummary: string := "Initial deployment"

  /** `DEFAULT_COUNTERS`, whose deploy timestamp is the worker's start-up time. */
  function Defaults(bootTime: string): Counters {
    Counters(0, 0, DefaultVersion, bootTime, DefaultCommitSummary)
  }

  /** What a counter key reads as: the decimal its text spells, and 0 when the key is
      missing or its text is not a decimal (the empty text included). */
  predicate CountReading(store: Store, key: string, n: int) {
    n == (if key in store then ParseDecimal(store[key]).GetOr(0) else 0)
  }

  /** What a metadata key reads as: its text when present and non-empty, the default
      otherwise. */
  predicate TextReading(store: Store, key: string, default: string, s: string) {
    || (key in store && store[key] != "" && s == store[key])
    || ((key !in store || store[key] == "") && s == default)
  }

  /** `str ? parseInt(str, 10) : 0`: a missing or empty key reads as 0. */
  function ReadCount(store: Store, key: string): (n: int)
    ensures key !in store || store[key] == "" ==> n == 0
    ensures key in store && ParseDecimal(store[key]).Some? ==> n == ParseDecimal(store[key]).value
    ensures CountReading(store, key, n)
  {
    if key in store && store[key] != "" then ParseDecimal(store[key]).GetOr(0) else 0
  }

  /** `str || default`: a missing or empty key reads as the default. */
  function ReadText(store: Store, key: string, default: string): (s: string)
    ensures key in store && store[key] != "" ==> s == store[key]
    ensures key !in store || store[key] == "" ==> s == default
    ensures TextReading(store, key, default, s)
  {
    if key in store && store[key] != "" then store[key] else default
  }

  /** `readCounters`: each field is what its key reads as, with `DEFAULT_COUNTERS`'
      value standing in for a missing or empty one. */
  function ReadCounters(store: Store, bootTime: string): (c: Counters)
    ensures CountReading(store, KeyTotalRedirects, c.totalRedirects)
    ensures CountReading(store, KeyTotalMs, c.totalMs)
    ensures TextReading(store, KeyVersion, DefaultVersion, c.version)
    ensures TextReading(store, KeyDeployTimestamp, bootTime, c.deployTimestamp)
    ensures TextReading(store, KeyCommitSummary, DefaultCommitSummary, c.commitSummary)
  {
    Counters(ReadCount(store, KeyTotalRedirects), ReadCount(store, KeyTotalMs),
             ReadText(store, KeyVersion, DefaultVersion),
             ReadText(store, KeyDeployTimestamp, bootTime),
             ReadText(store, KeyCommitSummary, DefaultCommitSummary))
  }

  /** A namespace none of whose counter keys holds a value reads as the defaults. */
  lemma FreshStoreReadsDefaults(store: Store, bootTime: string)
    requires forall k :: IsCounterKey(k) ==> k !in store
    ensures ReadCounters(store, bootTime) == Defaults(bootTime)
  {
    assert IsCounterKey(KeyTotalRedirects) && IsCounterKey(KeyTotalMs) && IsCounterKey(KeyVersion);
    assert IsCounterKey(KeyDeployTimestamp) && IsCounterKey(KeyCommitSummary);
  }

  /** `Partial<Counters>`: `None` is an `undefined` field. */
  datatype PartialCounters = PartialCounters(
    totalRedirects: Option<int>,
    totalMs: Option<int>,
    version: Option<string>,
    deployTimestamp: Option<string>,
    commitSummary: Option<string>)

  /** `k` holds in `s` what it held in `store`, or is absent from both. */
  predicate Kept(store: Store, s: Store, k: string) {
    (k in s <==> k in store) && (k in store ==> s[k] == store[k])
  }

  /** The five key names are pairwise different (their lengths are 25, 18, 17, 26, 24). */
  lemma KeysDistinct()
    ensures KeyTotalRedirects != KeyTotalMs && KeyTotalRedirects != KeyVersion
    ensures KeyTotalRedirects != KeyDeployTimestamp && KeyTotalRedirects != KeyCommitSummary
    ensures KeyTotalMs != KeyVersion && KeyTotalMs != KeyDeployTimestamp && KeyTotalMs != KeyCommitSummary
    ensures KeyVersion != KeyDeployTimestamp && KeyVersion != KeyCommitSummary
    ensures KeyDeployTimestamp != KeyCommitSummary
  {
    assert |KeyTotalRedirects| == 25 && |KeyTotalMs| == 18 && |KeyVersion| == 17;
    assert |KeyDeployTimestamp| == 26 && |KeyCommitSummary| == 24;
  }

  /** The text `writeCounters` puts under key `k`, if it puts anything there: the
      decimal form of a supplied counter, or a supplied metadata string. */
  function PutValue(p: PartialCounters, k: string): (v: Option<string>)
    ensures v.Some? ==> IsCounterKey(k)
  {
    if k == KeyTotalRedirects then
      (match p.totalRedirects case Some(n) => Some(IntToDecimal(n)) case None => None)
    else if k == KeyTotalMs then
      (match p.totalMs case Some(n) => Some(IntToDecimal(n)) case None => None)
    else if k == KeyVersion then p.version
    else if k == KeyDeployTimestamp then p.deployTimestamp
    else if k == KeyCommitSummary then p.commitSummary
    else None
  }

  /** `writeCounters`: one put per supplied field, the numbers as decimal text; every
      other key keeps its value. */
  function WriteCounters(store: Store, p: PartialCounters): (s: Store)
    ensures forall k :: PutValue(p, k).Some? ==> k in s && s[k] == PutValue(p, k).value
    ensures forall k :: PutValue(p, k).None? ==> Kept(store, s, k)
    ensures forall k :: !IsCounterKey(k) ==> Kept(store, s, k)
  {
    var owned := {KeyTotalRedirects, KeyTotalMs, KeyVersion, KeyDeployTimestamp, KeyCommitSummary};
    map k | k in store.Keys + (set o | o in owned && PutValue(p, o).Some?) ::
      if PutValue(p, k).Some? then PutValue(p, k).value else store[k]
  }

  /** A counter read after a write: the supplied number, or the earlier reading. */
  lemma ReadCountAfterWrite(store: Store, s: Store, key: string, v: Option<int>)
    requires v.Some? ==> key in s && s[key] == IntToDecimal(v.value)
    requires v.None? ==> Kept(store, s, key)
    ensures ReadCount(s, key) == v.GetOr(ReadCount(store, key))
  {
    if v.Some? {
      DecimalRoundTrip(v.value);
    }
  }

  /** A metadata read after a write: the supplied text, or the earlier reading. */
  lemma ReadTextAfterWrite(store: Store, s: Store, key: string, v: Option<string>, default: string)
    requires v.Some? ==> v.value != "" && key in s && s[key] == v.value
    requires v.None? ==> Kept(store, s, key)
    ensures ReadText(s, key, default) == v.GetOr(ReadText(store, key, default))
  {
  }

  /** The counters with the supplied fields replaced. */
  function Overlay(c: Counters, p: PartialCounters): Counters {
    Counters(p.totalRedirects.GetOr(c.totalRedirects), p.totalMs.GetOr(c.totalMs),
             p.version.GetOr(c.version), p.deployTimestamp.GetOr(c.deployTimestamp),
             p.commitSummary.GetOr(c.commitSummary))
  }

  /** Texts a read would not replace by a default. */
  predicate NonEmptyTexts(p: PartialCounters) {
    && (p.version.Some? ==> p.version.value != "")
    && (p.deployTimestamp.Some? ==> p.deployTimestamp.value != "")
    && (p.commitSummary.Some? ==> p.commitSummary.value != "")
  }

  /** Reading after a write sees exactly the supplied fields, and the earlier reading
      for every other one. */
  lemma ReadAfterWrite(store: Store, p: PartialCounters, bootTime: string)
    requires NonEmptyTexts(p)
    ensures ReadCounters(WriteCounters(store, p), bootTime)
            == Overlay(ReadCounters(store, bootTime), p)
  {
    var s := WriteCounters(store, p);
    KeysDistinct();
    ReadCountAfterWrite(store, s, KeyTotalRedirects, p.totalRedirects);
    ReadCountAfterWrite(store, s, KeyTotalMs, p.totalMs);
    ReadTextAfterWrite(store, s, KeyVersion, p.version, DefaultVersion);
    ReadTextAfterWrite(store, s, KeyDeployTimestamp, p.deployTimestamp, bootTime);
    ReadTextAfterWrite(store, s, KeyCommitSummary, p.commitSummary, DefaultCommitSummary);
  }

  const InvalidEvent: Response := Response(BadRequest, ErrorBody("Invalid event data"))
  const MissingMetadata: Response :=
    Response(BadRequest, ErrorBody("Missing required fields: version, deploy_timestamp"))
  const Success: Response := Response(Ok, SuccessBody)

  /** A handled request: the namespace afterwards and the answer. */
  datatype Reply = Reply(store: Store, response: Response)

  /** `!event.code || !event.longUrl || !event.timestamp`, negated. */
  predicate ValidEvent(event: Json) {
    Truthy(Prop(event, "code")) && Truthy(Prop(event, "longUrl")) && Truthy(Prop(event, "timestamp"))
  }

  /** `event.redirectTimeMs || 0` as the addend of `total_ms`: a number is itself, and
      `true` adds as 1. */
  function RedirectTimeMs(event: Json): (n: int)
    ensures Prop(event, "redirectTimeMs") == Some(JBool(true)) ==> n == 1
    ensures !Truthy(Prop(event, "redirectTimeMs")) ==> n == 0
    ensures forall m :: Prop(event, "redirectTimeMs") == Some(JNum(m)) ==> n == m
  {
    match Prop(event, "redirectTimeMs")
    case Some(JNum(n)) => n
    case Some(JBool(true)) => 1
    case _ => 0
  }

  /** Lines 142-151 of `handleAnalyticsRedirect`: read the counters, write back one more
      redirect and the event's time; nothing else changes. */
  function RecordEvent(store: Store, event: Json, bootTime: string): (s: Store)
    ensures var before := ReadCounters(store, bootTime);
            ReadCounters(s, bootTime)
            == before.(totalRedirects := before.totalRedirects + 1,
                       totalMs := before.totalMs + RedirectTimeMs(event))
    ensures forall k :: k != KeyTotalRedirects && k != KeyTotalMs ==> Kept(store, s, k)
  {
    var c := ReadCounters(store, bootTime);
    var p := PartialCounters(Some(c.totalRedirects + 1), Some(c.totalMs + RedirectTimeMs(event)),
                             None, None, None);
    ReadAfterWrite(store, p, bootTime);
    WriteCounters(store, p)
  }

  /** `handleAnalyticsRedirect`: a valid event adds one redirect and its time. */
  function HandleAnalyticsRedirect(store: Store, body: Option<Json>, bootTime: string): (r: Reply)
    ensures Unreadable(body) ==> r == Reply(store, InternalError)
    ensures r.response.status == BadRequest <==> !Unreadable(body) && !ValidEvent(body.value)
    ensures r.response.status != Ok ==> r.store == store
    ensures r.response.status == Ok ==>
              && r.response == Success && !Unreadable(body) && ValidEvent(body.value)
              && r.store == RecordEvent(store, body.value, bootTime)
  {
    if Unreadable(body) then Reply(store, InternalError)
    else if !ValidEvent(body.value) then Reply(store, InvalidEvent)
    else Reply(RecordEvent(store, body.value, bootTime), Success)
  }

  /** The string a metadata field must be for the write to go ahead. */
  function MetadataText(v: Option<Json>): Option<string> {
    NonEmptyString(v)
  }

  const NoCommitMessage: string := "No commit message"

  /** `handleDeployMetadata`: `version` and `deploy_timestamp` are required; the three
      metadata keys are overwritten and the redirect counters are left alone. */
  function HandleDeployMetadata(store: Store, body: Option<Json>, bootTime: string): (r: Reply)
    ensures Unreadable(body) ==> r == Reply(store, InternalError)
    ensures r.response.status == BadRequest <==>
              !Unreadable(body) &&
              (!Truthy(Prop(body.value, "version")) || !Truthy(Prop(body.value, "deploy_timestamp")))
    ensures r.response.status != Ok ==> r.store == store
    ensures r.response.status == Ok ==>
              && r.response == Success
              && var before := ReadCounters(store, bootTime);
                 var after := ReadCounters(r.store, bootTime);
                 && after.totalRedirects == before.totalRedirects
                 && after.totalMs == before.totalMs
                 && Some(JStr(after.version)) == Prop(body.value, "version")
                 && Some(JStr(after.deployTimestamp)) == Prop(body.value, "deploy_timestamp")
                 && after.commitSummary
                    == MetadataText(Prop(body.value, "commit_summary")).GetOr(NoCommitMessage)
    ensures forall k :: !(k in {KeyVersion, KeyDeployTimestamp, KeyCommitSummary}) ==>
              (k in r.store <==> k in store) && (k in store ==> r.store[k] == store[k])
  {
    if Unreadable(body) then Reply(store, InternalError)
    else
      var version := Prop(body.value, "version");
      var timestamp := Prop(body.value, "deploy_timestamp");
      var summary := Prop(body.value, "commit_summary");
      if !Truthy(version) || !Truthy(timestamp) then Reply(store, MissingMetadata)
      else if MetadataText(version).None? || MetadataText(timestamp).None? then
        Reply(store, InternalError)
      else if Truthy(summary) && MetadataText(summary).None? then Reply(store, InternalError)
      else
        var p := PartialCounters(None, None, MetadataText(version), MetadataText(timestamp),
                                 Some(MetadataText(summary).GetOr(NoCommitMessage)));
        ReadAfterWrite(store, p, bootTime);
        Reply(WriteCounters(store, p), Success)
  }

  /** `computeAverage`: zero before the first redirect, the exact mean afterwards. */
  function ComputeAverage(totalMs: int, totalRedirects: int): (avg: real)
    ensures totalRedirects == 0 ==> avg == 0.0
    ensures totalRedirects != 0 ==> avg * totalRedirects as real == totalMs as real
  {
    if totalRedirects == 0 then 0.0 else totalMs as real / totalRedirects as real
  }

  /** `handleSpeedometer`: a read-only view of the counters. */
  function HandleSpeedometer(store: Store, bootTime: string): (r: Reply)
    ensures r.store == store && r.response.status == Ok && r.response.body.Speedometer?
    ensures var c := ReadCounters(store, bootTime);
            var b := r.response.body;
            && b.version == c.version
            && b.deployTimestamp == c.deployTimestamp
            && b.commitSummary == c.commitSummary
            && b.totalRedirects == c.totalRedirects
            && b.averageRedirectMs == ComputeAverage(c.totalMs, c.totalRedirects)
  {
    var c := ReadCounters(store, bootTime);
    Reply(store, Response(Ok, Speedometer(c.version, c.deployTimestamp, c.commitSummary,
                                          c.totalRedirects, ComputeAverage(c.totalMs, c.totalRedirects))))
  }

  /** The path redirect events are posted to. */
  const RedirectEventPath: string := "/analytics/redirect"

  /** The worker's `fetch`: three method and path pairs, a 404 for everything else. */
  function Fetch(store: Store, req: Request, bootTime: string): (r: Reply)
    ensures req.verb == "POST" && req.path == RedirectEventPath ==>
              r == HandleAnalyticsRedirect(store, req.body, bootTime)
    ensures req.verb == "GET" && req.path == "/speedometer" ==> r == HandleSpeedometer(store, bootTime)
    ensures req.verb == "PATCH" && req.path == "/metadata/deploy" ==>
              r == HandleDeployMetadata(store, req.body, bootTime)
    ensures !(req.verb == "POST" && req.path == RedirectEventPath) &&
            !(req.verb == "GET" && req.path == "/speedometer") &&
            !(req.verb == "PATCH" && req.path == "/metadata/deploy") ==>
              r == Reply(store, RouteNotFound)
    ensures r.store != store ==> req.verb in {"POST", "PATCH"}
  {
    if req.verb == "POST" && req.path == RedirectEventPath then
      HandleAnalyticsRedirect(store, req.body, bootTime)
    else if req.verb == "GET" && req.path == "/speedometer" then HandleSpeedometer(store, bootTime)
    else if req.verb == "PATCH" && req.path == "/metadata/deploy" then
      HandleDeployMetadata(store, req.body, bootTime)
    else Reply(store, RouteNotFound)
  }

  /** Feeds the event bodies to `handleAnalyticsRedirect` one after another. */
  function RecordAll(store: Store, events: seq<Json>, bootTime: string): Store
    decreases |events|
  {
    if |events| == 0 then store
    else RecordAll(HandleAnalyticsRedirect(store, Some(events[0]), bootTime).store,
                   events[1..], bootTime)
  }

  /** The total time the events report. */
  function SumMs(events: seq<Json>): int
    decreases |events|
  {
    if |events| == 0 then 0 else RedirectTimeMs(events[0]) + SumMs(events[1..])
  }

  /** Recording is additive: `n` valid events add `n` redirects and the sum of their
      times, and leave the metadata as it was. */
  lemma {:induction false} RecordAllAdds(store: Store, events: seq<Json>, bootTime: string)
    requires forall i :: 0 <= i < |events| ==> !events[i].JNull? && ValidEvent(events[i])
    ensures var before := ReadCounters(store, bootTime);
            var after := ReadCounters(RecordAll(store, events, bootTime), bootTime);
            after == before.(totalRedirects := before.totalRedirects + |events|,
                             totalMs := before.totalMs + SumMs(events))
    decreases |events|
  {
    if |events| > 0 {
      var next := HandleAnalyticsRedirect(store, Some(events[0]), bootTime).store;
      RecordAllAdds(next, events[1..], bootTime);
    }
  }

  /** From a fresh namespace, `n` valid events read back as `n` redirects and the sum of
      their times. */
  lemma FreshRecordCounts(events: seq<Json>, bootTime: string)
    requires forall i :: 0 <= i < |events| ==> !events[i].JNull? && ValidEvent(events[i])
    ensures var c := ReadCounters(RecordAll(map[], events, bootTime), bootTime);
            c.totalRedirects == |events| && c.totalMs == SumMs(events)
  {
    RecordAllAdds(map[], events, bootTime);
  }
}
