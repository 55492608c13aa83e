/** The code registry both shorten handlers share: URL normalisation, the bounded
    search for a free code, and the single KV write. The redirect worker and the Pages
    function carry identical copies of `normalizeUrl` and of the allocation loop; each is
    defined once here. */
module Registry {
  import opened Wrappers
  import opened Strings
  import opened ShortCode
  import opened Json
  import opened Http

  /** The `KV_URLS` namespace: short code to destination URL. */
  type Store = map<string, string>

  /** `maxAttempts`: how many generated candidates a shorten request may check. */
  const MaxAttempts: nat := 10

  /** What a handler did: the store afterwards, its answer, and the keys it read from the
      store, in order. */
  datatype Outcome = Outcome(store: Store, response: Response, lookups: seq<string>)

  /** `!(await env.KV_URLS.get(code))`: the key is missing or holds the empty string. */
  predicate IsFree(store: Store, code: string) {
    code !in store || store[code] == ""
  }

  /** A KV read followed by the source's truthiness test. */
  function Lookup(store: Store, code: string): (r: Option<string>)
    ensures r.Some? <==> !IsFree(store, code)
    ensures r.Some? ==> code in store && r.value == store[code] && r.value != ""
  {
    if code in store && store[code] != "" then Some(store[code]) else None
  }

  /** `normalizeUrl`: the trimmed input, with `https://` put in front unless it already
      starts with `http://` or `https://` in any letter case. */
  function NormalizeUrl(url: string): (r: string)
    ensures HasScheme(r)
    ensures IsTrimmed(r)
    ensures r == Trim(url) || r == "https://" + Trim(url)
    ensures r == Trim(url) <==> HasScheme(Trim(url))
  {
    var trimmed := Trim(url);
    if HasScheme(trimmed) then trimmed
    else
      HttpsPrefixHasScheme(trimmed);
      PrefixKeepsTrimmed("https://", trimmed);
      "https://" + trimmed
  }

  /** Normalising twice is normalising once, so a stored URL is a fixed point. */
  lemma NormalizeUrlIdempotent(url: string)
    ensures NormalizeUrl(NormalizeUrl(url)) == NormalizeUrl(url)
  {
  }

  /** A URL given without a scheme gets exactly one `https://`. */
  lemma NormalizeUrlAddsHttpsOnce(url: string)
    requires IsTrimmed(url) && !HasScheme(url)
    ensures NormalizeUrl(url) == "https://" + url
    ensures NormalizeUrl(NormalizeUrl(url)) == "https://" + url
  {
  }

  /** The code attempt `i` of the allocation loop checks: `generateShortCode()` over the
      `i`-th block of random bytes. */
  function Candidate(draws: seq<Bytes8>, i: nat): string
    requires i < |draws|
  {
    Generate(draws[i])
  }

  /** The allocation loop's result: the chosen code, if any, and the candidates it read
      from the store, in order. */
  datatype Allocation = Allocation(code: Option<string>, checked: seq<string>)

  /** The codes the loop would try, one per block of random bytes. */
  function Candidates(draws: seq<Bytes8>): (cands: seq<string>)
    ensures |cands| == |draws|
    ensures forall j :: 0 <= j < |draws| ==> cands[j] == Candidate(draws, j)
  {
    seq(|draws|, j requires 0 <= j < |draws| => Candidate(draws, j))
  }

  /** The `do { … } while (attempts < maxAttempts)` loop from attempt `i` on: it reads
      candidates in order and stops at the first free one. */
  function AllocateFrom(store: Store, cands: seq<string>, i: nat): (a: Allocation)
    requires i <= |cands|
    decreases |cands| - i
    ensures |a.checked| <= |cands| - i
    ensures a.checked == cands[i..i + |a.checked|]
    ensures a.code.Some? ==> |a.checked| > 0 && a.code.value == a.checked[|a.checked| - 1]
    ensures a.code.Some? ==> IsFree(store, a.code.value)
    ensures a.code.Some? ==> forall j :: 0 <= j < |a.checked| - 1 ==> !IsFree(store, a.checked[j])
    ensures a.code.None? ==> |a.checked| == |cands| - i
    ensures a.code.None? ==> forall j :: i <= j < |cands| ==> !IsFree(store, cands[j])
  {
    if i == |cands| then Allocation(None, [])
    else if IsFree(store, cands[i]) then Allocation(Some(cands[i]), [cands[i]])
    else
      var rest := AllocateFrom(store, cands, i + 1);
      Allocation(rest.code, [cands[i]] + rest.checked)
  }

  /** The whole allocation loop: at most `MaxAttempts` candidates, and it fails exactly
      when every one of them is taken. */
  function Allocate(store: Store, draws: seq<Bytes8>): (a: Allocation)
    requires |draws| == MaxAttempts
    ensures |a.checked| <= MaxAttempts
    ensures forall j :: 0 <= j < |a.checked| ==> a.checked[j] == Candidate(draws, j)
    ensures a.code.None? <==> forall j :: 0 <= j < MaxAttempts ==> !IsFree(store, Candidate(draws, j))
    ensures a.code.None? ==> |a.checked| == MaxAttempts
    ensures a.code.Some? ==> |a.checked| > 0 && a.code.value == a.checked[|a.checked| - 1]
    ensures a.code.Some? ==> IsFree(store, a.code.value) && MatchesCodePattern(a.code.value)
    ensures a.code.Some? ==> |a.code.value| == DefaultLength
    ensures a.code.Some? ==> forall j :: 0 <= j < |a.checked| - 1 ==> !IsFree(store, a.checked[j])
  {
    var a := AllocateFrom(store, Candidates(draws), 0);
    if a.code.Some? then AllocatedCandidate(store, draws, a); a
    else ExhaustedCandidates(store, draws, a); a
  }

  /** The loop's answer over the candidate list, restated per random-byte block when a
      code was found. */
  lemma AllocatedCandidate(store: Store, draws: seq<Bytes8>, a: Allocation)
    requires |draws| == MaxAttempts
    requires a == AllocateFrom(store, Candidates(draws), 0) && a.code.Some?
    ensures 0 < |a.checked| <= MaxAttempts
    ensures forall j :: 0 <= j < |a.checked| ==> a.checked[j] == Candidate(draws, j)
    ensures a.code.value == Candidate(draws, |a.checked| - 1)
    ensures IsFree(store, a.code.value) && MatchesCodePattern(a.code.value)
    ensures |a.code.value| == DefaultLength
    ensures !forall j :: 0 <= j < MaxAttempts ==> !IsFree(store, Candidate(draws, j))
  {
    var cands := Candidates(draws);
    assert forall j :: 0 <= j < |a.checked| ==> a.checked[j] == cands[j];
    assert a.code.value == cands[|a.checked| - 1];
  }

  /** The loop's answer over the candidate list, restated per random-byte block when
      every candidate was taken. */
  lemma ExhaustedCandidates(store: Store, draws: seq<Bytes8>, a: Allocation)
    requires |draws| == MaxAttempts
    requires a == AllocateFrom(store, Candidates(draws), 0) && a.code.None?
    ensures |a.checked| == MaxAttempts
    ensures forall j :: 0 <= j < |a.checked| ==> a.checked[j] == Candidate(draws, j)
    ensures forall j :: 0 <= j < MaxAttempts ==> !IsFree(store, Candidate(draws, j))
  {
    var cands := Candidates(draws);
    assert forall j :: 0 <= j < |a.checked| ==> a.checked[j] == cands[j];
  }

  const MissingLongUrl: Response := Response(BadRequest, ErrorBody("Missing or invalid longUrl"))
  const InvalidUrlFormat: Response := Response(BadRequest, ErrorBody("Invalid URL format"))
  const Exhausted: Response := Response(ServerError, ErrorBody("Failed to generate unique code"))

  /** The `longUrl` field when it passes `!longUrl || typeof longUrl !== 'string'`. */
  function LongUrlField(body: Json): Option<string> {
    NonEmptyString(Prop(body, "longUrl"))
  }

  /** `code` was free before the request, the store afterwards differs only in
      `code ↦ url`, and the client is told `origin/code` and the stored URL. */
  predicate Registers(store: Store, out: Outcome, origin: string, code: string, url: string) {
    && IsFree(store, code)
    && MatchesCodePattern(code)
    && out.store == store[code := url]
    && out.response == Response(Ok, Shortened(origin + "/" + code, url))
  }

  /** A successful shorten that read `out.lookups` in order: every key read before the
      last was taken, and the last one is an eight-character code now holding `url`. */
  predicate RegistersLast(store: Store, out: Outcome, origin: string, url: string) {
    && |out.lookups| > 0
    && (forall j :: 0 <= j < |out.lookups| - 1 ==> !IsFree(store, out.lookups[j]))
    && |out.lookups[|out.lookups| - 1]| == DefaultLength
    && Registers(store, out, origin, out.lookups[|out.lookups| - 1], url)
  }

  /** `await KV_URLS.put(code, normalizedUrl)` and the 200 answer. */
  function Commit(store: Store, origin: string, code: string, url: string, lookups: seq<string>): (out: Outcome)
    requires IsFree(store, code) && MatchesCodePattern(code)
    ensures Registers(store, out, origin, code, url)
    ensures out.lookups == lookups
    ensures forall k :: k != code ==> (k in out.store <==> k in store)
    ensures forall k :: k != code && k in store ==> out.store[k] == store[k]
  {
    Outcome(store[code := url], Response(Ok, Shortened(origin + "/" + code, url)), lookups)
  }

  /** The allocation loop followed by the write: 500 with nothing written when every
      candidate is taken, otherwise the first free candidate is registered. `reserved`
      are the keys already read and found taken before the loop started. */
  function AllocateAndCommit(store: Store, origin: string, url: string,
                             reserved: seq<string>, draws: seq<Bytes8>): (r: Outcome)
    requires |draws| == MaxAttempts
    requires forall j :: 0 <= j < |reserved| ==> !IsFree(store, reserved[j])
    ensures r.response.status in {Ok, ServerError}
    ensures r.response.status != Ok ==> r.store == store && r.response == Exhausted
    ensures r.lookups == reserved + Allocate(store, draws).checked
    ensures r.response.status == ServerError <==>
              forall j :: 0 <= j < MaxAttempts ==> !IsFree(store, Candidate(draws, j))
    ensures r.response.status == Ok ==> RegistersLast(store, r, origin, url)
  {
    var a := Allocate(store, draws);
    match a.code
    case None => Outcome(store, Exhausted, reserved + a.checked)
    case Some(code) =>
      var out := Commit(store, origin, code, url, reserved + a.checked);
      TakenThenFree(store, origin, url, reserved, a.checked, out);
      out
  }

  /** Reads that found only taken keys, then one free code that was written: the shape
      `RegistersLast` names. */
  lemma TakenThenFree(store: Store, origin: string, url: string, reserved: seq<string>,
                      checked: seq<string>, out: Outcome)
    requires forall j :: 0 <= j < |reserved| ==> !IsFree(store, reserved[j])
    requires |checked| > 0 && |checked[|checked| - 1]| == DefaultLength
    requires forall j :: 0 <= j < |checked| - 1 ==> !IsFree(store, checked[j])
    requires out.lookups == reserved + checked
    requires Registers(store, out, origin, checked[|checked| - 1], url)
    ensures RegistersLast(store, out, origin, url)
  {
    var lookups := reserved + checked;
    assert lookups[|lookups| - 1] == checked[|checked| - 1];
    forall j | 0 <= j < |lookups| - 1 ensures !IsFree(store, lookups[j]) {
      if j >= |reserved| {
        assert lookups[j] == checked[j - |reserved|];
      }
    }
  }
}
