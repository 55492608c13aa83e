/** The Pages function behind `POST /api/shorten`: the redirect worker's handler plus an
    optional client-proposed code, reserved when it is well formed and free. */
module PagesShorten {
  import opened Wrappers
  import opened ShortCode
  import opened Json
  import opened Http
  import opened Registry
  import RedirectWorker

  /** `isValidProposedCode`: a string of exactly eight characters from `[A-Za-z0-9_-]`. */
  function ProposedCode(v: Option<Json>): (r: Option<string>)
    ensures r.Some? <==> exists s :: v == Some(JStr(s)) && |s| == DefaultLength && IsCodeString(s)
    ensures r.Some? ==> v == Some(JStr(r.value)) && MatchesCodePattern(r.value)
  {
    match NonEmptyString(v)
    case Some(s) => if |s| == DefaultLength && IsCodeString(s) then Some(s) else None
    case None => None
  }

  /** `onRequestPost`. */
  function OnRequestPost(store: Store, body: Option<Json>, origin: string,
                         validUrl: string -> bool, draws: seq<Bytes8>): (r: Outcome)
    requires |draws| == MaxAttempts
    ensures r.response.status in {Ok, BadRequest, ServerError}
    ensures r.response.status != Ok ==> r.store == store
    ensures Unreadable(body) ==> r == Outcome(store, InternalError, [])
    ensures r.response.status == BadRequest <==>
              !Unreadable(body) &&
              (LongUrlField(body.value).None? || !validUrl(NormalizeUrl(LongUrlField(body.value).value)))
    ensures r.response.status == BadRequest ==> r.lookups == []
    ensures r.response.status == Ok ==>
              RegistersLast(store, r, origin, NormalizeUrl(LongUrlField(body.value).value))
  {
    if Unreadable(body) then Outcome(store, InternalError, [])
    else match LongUrlField(body.value)
      case None => Outcome(store, MissingLongUrl, [])
      case Some(longUrl) =>
        var url := NormalizeUrl(longUrl);
        if !validUrl(url) then Outcome(store, InvalidUrlFormat, [])
        else
          match ProposedCode(Prop(body.value, "proposedCode"))
          case Some(p) => TryProposed(store, origin, url, p, draws)
          case None => AllocateAndCommit(store, origin, url, [], draws)
  }

  /** Lines 120-150 of the handler, for a well-formed proposed code: it is read first and
      used when free; otherwise the generation loop runs after that one read. */
  function TryProposed(store: Store, origin: string, url: string, p: string,
                       draws: seq<Bytes8>): (r: Outcome)
    requires |draws| == MaxAttempts
    requires |p| == DefaultLength && MatchesCodePattern(p)
    ensures r.response.status in {Ok, ServerError}
    ensures r.response.status != Ok ==> r.store == store && r.response == Exhausted
    ensures IsFree(store, p) ==> r.lookups == [p] && Registers(store, r, origin, p, url)
    ensures !IsFree(store, p) ==> r == AllocateAndCommit(store, origin, url, [p], draws)
    ensures r.response.status == Ok ==> RegistersLast(store, r, origin, url)
  {
    if IsFree(store, p) then Commit(store, origin, p, url, [p])
    else AllocateAndCommit(store, origin, url, [p], draws)
  }

  /** A well-formed proposed code that is free is the code used: one store read, no
      generated candidate, and the only write is `proposed ↦ normalizedUrl`. */
  lemma ProposedCodeIsReserved(store: Store, body: Option<Json>, origin: string,
                               validUrl: string -> bool, draws: seq<Bytes8>)
    requires |draws| == MaxAttempts
    requires !Unreadable(body) && LongUrlField(body.value).Some?
    requires validUrl(NormalizeUrl(LongUrlField(body.value).value))
    requires ProposedCode(Prop(body.value, "proposedCode")).Some?
    requires IsFree(store, ProposedCode(Prop(body.value, "proposedCode")).value)
    ensures var code := ProposedCode(Prop(body.value, "proposedCode")).value;
            var r := OnRequestPost(store, body, origin, validUrl, draws);
            && r.lookups == [code]
            && Registers(store, r, origin, code, NormalizeUrl(LongUrlField(body.value).value))
  {
  }

  /** A malformed or taken proposed code falls back to the generation loop: after the
      read of a taken proposal, the reads are exactly those of the loop (the generated
      candidates in order, at most `MaxAttempts` of them), and the request fails exactly
      when all of them are taken. */
  lemma RejectedProposalFallsBack(store: Store, body: Option<Json>, origin: string,
                                  validUrl: string -> bool, draws: seq<Bytes8>)
    requires |draws| == MaxAttempts
    requires !Unreadable(body) && LongUrlField(body.value).Some?
    requires validUrl(NormalizeUrl(LongUrlField(body.value).value))
    requires var p := ProposedCode(Prop(body.value, "proposedCode")); p.None? || !IsFree(store, p.value)
    ensures var p := ProposedCode(Prop(body.value, "proposedCode"));
            var r := OnRequestPost(store, body, origin, validUrl, draws);
            && r.lookups == (if p.Some? then [p.value] else []) + Allocate(store, draws).checked
            && (r.response == Exhausted <==>
                  forall j :: 0 <= j < MaxAttempts ==> !IsFree(store, Candidate(draws, j)))
  {
    var url := NormalizeUrl(LongUrlField(body.value).value);
    var p := ProposedCode(Prop(body.value, "proposedCode"));
    if p.Some? {
      assert OnRequestPost(store, body, origin, validUrl, draws)
             == TryProposed(store, origin, url, p.value, draws);
    }
  }

  /** Without a usable proposed code, the Pages function behaves exactly as the redirect
      worker's handler: same answer, same write, same reads. */
  lemma AgreesWithRedirectWorker(store: Store, body: Option<Json>, origin: string,
                                 validUrl: string -> bool, draws: seq<Bytes8>)
    requires |draws| == MaxAttempts
    requires !Unreadable(body) ==> ProposedCode(Prop(body.value, "proposedCode")).None?
    ensures OnRequestPost(store, body, origin, validUrl, draws)
            == RedirectWorker.HandleShorten(store, body, origin, validUrl, draws)
  {

  }
}
