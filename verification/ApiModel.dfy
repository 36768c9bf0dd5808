/** The state and the steps of apps/frontendall/services/api.js, with the session check that
    safeInit (apps/frontendall/services/error-boundary.js) puts on top of it.

    JavaScript runs one callback at a time, so an event is one callback together with the
    callbacks behind it that touch no shared state. Promises are rows of two tables, `requests`
    (one row per logical request) and `refreshes` (one row per POST /auth/refresh); an index
    into a table is the identity of the promise. */
module ApiModel {
  import opened Prelude

  type Token = nat

  /** A parsed response body: JSON null (or no body), another falsy value, or a document. */
  datatype Json = Null | Falsy | Doc(id: nat, email: bool)

  predicate Truthy(j: Json) { j.Doc? }

  datatype Outcome =
    | Resolved(body: Json)
    | HttpError(status: nat)
    | NetworkError
    | SessionLost        // carries status 401 and sessionLost
    | RefreshFailed      // the transient error: no status

  datatype Phase =
    | Sent(retried: bool)                    // fetch outstanding
    | Waiting(refresh: nat)                  // attached to the shared refresh promise
    | Unauthorized                           // refused for want of a refresh token; handler not run yet
    | Reading(status: nat, retried: bool)    // res.text() outstanding
    | Settled(outcome: Outcome)

  /** `sends` lists the token carried by each fetch made for the request, in order. */
  datatype Request = Request(isGet: bool, url: string, sends: seq<Option<Token>>, phase: Phase)

  datatype RefreshResult = Renewed(token: Token) | Lost | Failed

  /** `Settling` is the window between the handler (which stores the tokens) and the `finally`
      that empties `refreshInFlight`. */
  datatype Stage = Posted | ReadingBody | Settling(result: RefreshResult) | Finished(result: RefreshResult)

  /** `starter` is the request whose 401 started the refresh. */
  datatype Refresh = Refresh(starter: nat, stage: Stage)

  datatype Entry = Entry(data: Json, ts: int)

  datatype State = State(
    access: Option<Token>, refresh: Option<Token>,    // localStorage
    refreshInFlight: Option<nat>,
    inFlight: map<string, nat>, cache: map<string, Entry>,
    requests: seq<Request>, refreshes: seq<Refresh>,
    now: int, onLogin: bool, redirects: nat,
    issued: set<Token>)   // history: every access token stored so far

  /** The body of a refresh answer; `access` or `refresh` is None when missing or empty. */
  datatype Minted = Minted(access: Option<Token>, refresh: Option<Token>)

  datatype Event =
    | Get(url: string)
    | Send(url: string)                          // post, patch, del, upload
    | Response(i: nat, status: nat)
    | ResponseLost(i: nat)
    | Body(i: nat, json: Json)
    | Resume(i: nat)                             // the reaction to the settled refresh promise
    | RefreshResponse(k: nat, status: nat)
    | RefreshLost(k: nat)
    | RefreshBody(k: nat, data: Option<Minted>)  // None: unreadable
    | RefreshFinally(k: nat)
    | ClearCache
    | Realtime(name: string)
    | Clock(ms: int)                             // what Date.now() reads from here on
    | StoredElsewhere(token: Token, newRefresh: Option<Token>)   // another tab refreshed or logged in
    | RemovedElsewhere                                           // logout, here or in another tab
    | CheckSession(i: nat)                                       // safeInit sees the outcome of /auth/me

  const CACHE_TTL := 30000

  predicate Contains(s: string, sub: string) {
    sub <= s || (s != [] && Contains(s[1..], sub))
  }

  predicate IsAuthEndpoint(url: string) {
    Contains(url, "/auth/login") || Contains(url, "/auth/refresh") || Contains(url, "/auth/password-reset")
  }

  predicate Ok(status: nat) { 200 <= status <= 299 }

  // ---- the response cache ----

  predicate FreshEntry(s: State, url: string) {
    url in s.cache && s.now - s.cache[url].ts < CACHE_TTL
  }

  /** What getCached returns; JSON null stands for a miss. */
  function GetCached(s: State, url: string): Json {
    if FreshEntry(s, url) then s.cache[url].data else Null
  }

  function DropStale(s: State, url: string): State {
    if FreshEntry(s, url) then s else s.(cache := s.cache - {url})
  }

  // ---- starting and settling requests ----

  function MakeRequest(s: State, isGet: bool, url: string): State {
    s.(requests := s.requests + [Request(isGet, url, [s.access], Sent(false))])
  }

  datatype GetResult = FromCache(data: Json) | Promise(i: nat)

  function GetAnswer(s: State, url: string): GetResult {
    if Truthy(GetCached(s, url)) then FromCache(GetCached(s, url))
    else if url in s.inFlight then Promise(s.inFlight[url])
    else Promise(|s.requests|)
  }

  function StartGet(s: State, url: string): State {
    MakeRequest(s, true, url).(inFlight := s.inFlight[url := |s.requests|])
  }

  function ApiGet(s: State, url: string): State {
    var s := DropStale(s, url);
    if Truthy(GetCached(s, url)) || url in s.inFlight then s else StartGet(s, url)
  }

  function SetPhase(s: State, i: nat, p: Phase): State
    requires i < |s.requests|
  {
    s.(requests := s.requests[i := s.requests[i].(phase := p)])
  }

  /** The promise of request i settles; a GET also updates the cache and the dedup table. */
  function Settle(s: State, i: nat, o: Outcome): State
    requires i < |s.requests|
  {
    var r := s.requests[i];
    var s := SetPhase(s, i, Settled(o));
    if !r.isGet then s
    else s.(cache := if o.Resolved? then s.cache[r.url := Entry(o.body, s.now)] else s.cache,
            inFlight := s.inFlight - {r.url})
  }

  function Replay(s: State, i: nat, t: Token): State
    requires i < |s.requests|
  {
    s.(requests := s.requests[i := s.requests[i].(sends := s.requests[i].sends + [Some(t)], phase := Sent(true))])
  }

  // ---- refresh ----

  function SetTokens(s: State, access: Token, refresh: Option<Token>): State {
    s.(access := Some(access), refresh := if refresh.Some? then refresh else s.refresh, issued := s.issued + {access})
  }

  function ClearTokens(s: State): State { s.(access := None, refresh := None) }

  function RedirectToLogin(s: State): State {
    if s.onLogin then s else s.(redirects := s.redirects + 1)
  }

  function StartRefresh(s: State, i: nat): State {
    s.(refreshes := s.refreshes + [Refresh(i, Posted)], refreshInFlight := Some(|s.refreshes|))
  }

  function RefreshAccessToken(s: State, i: nat): State
    requires i < |s.requests|
  {
    if s.refreshInFlight.Some? then SetPhase(s, i, Waiting(s.refreshInFlight.value))
    else if s.refresh.None? then SetPhase(s, i, Unauthorized)
    else SetPhase(StartRefresh(s, i), i, Waiting(|s.refreshes|))
  }

  function HandleRefresh(s: State, i: nat): State
    requires i < |s.requests| && |s.requests[i].sends| > 0
  {
    var used := s.requests[i].sends[0];
    if s.access.Some? && used.Some? && s.access != used then Replay(s, i, s.access.value)
    else RefreshAccessToken(s, i)
  }

  function HandleResponse(s: State, i: nat, status: nat): State
    requires i < |s.requests| && s.requests[i].phase.Sent? && |s.requests[i].sends| > 0
  {
    var r := s.requests[i];
    if status == 204 then Settle(s, i, Resolved(Null))
    else if status == 401 && !IsAuthEndpoint(r.url) && !r.phase.retried then HandleRefresh(s, i)
    else SetPhase(s, i, Reading(status, r.phase.retried))
  }

  function BodyRead(s: State, i: nat, json: Json): State
    requires i < |s.requests| && s.requests[i].phase.Reading?
  {
    var status := s.requests[i].phase.status;
    Settle(s, i, if Ok(status) then Resolved(json) else HttpError(status))
  }

  function ResultOf(s: State, i: nat): RefreshResult
    requires i < |s.requests|
  {
    match s.requests[i].phase
    case Waiting(k) =>
      if k < |s.refreshes| && s.refreshes[k].stage.Finished? then s.refreshes[k].stage.result else Failed
    case _ => Lost
  }

  function ResumeAfterRefresh(s: State, i: nat): State
    requires i < |s.requests|
  {
    match ResultOf(s, i)
    case Renewed(t) => Replay(s, i, t)
    case Lost => Settle(RedirectToLogin(ClearTokens(s)), i, SessionLost)
    case Failed => Settle(s, i, RefreshFailed)
  }

  function SetStage(s: State, k: nat, st: Stage): State
    requires k < |s.refreshes|
  {
    s.(refreshes := s.refreshes[k := s.refreshes[k].(stage := st)])
  }

  function RefreshAnswered(s: State, k: nat, status: nat): State
    requires k < |s.refreshes|
  {
    SetStage(s, k, if Ok(status) then ReadingBody
                   else if status == 401 || status == 403 then Settling(Lost) else Settling(Failed))
  }

  function RefreshBodyRead(s: State, k: nat, data: Option<Minted>): State
    requires k < |s.refreshes|
  {
    if data.Some? && data.value.access.Some? then
      SetStage(SetTokens(s, data.value.access.value, data.value.refresh), k, Settling(Renewed(data.value.access.value)))
    else SetStage(s, k, Settling(Failed))
  }

  function RefreshEnded(s: State, k: nat): State
    requires k < |s.refreshes| && s.refreshes[k].stage.Settling?
  {
    SetStage(s, k, Finished(s.refreshes[k].stage.result)).(refreshInFlight := None)
  }

  // ---- safeInit's session check ----

  predicate CheckFails(s: State, o: Outcome) {
    !(o.Resolved? && Truthy(o.body) && o.body.email) && (s.access.None? || o == HttpError(401) || o.SessionLost?)
  }

  function SessionCheck(s: State, i: nat): State
    requires i < |s.requests| && s.requests[i].phase.Settled?
  {
    if CheckFails(s, s.requests[i].phase.outcome) then ClearTokens(s).(redirects := s.redirects + 1) else s
  }

  // ---- one step ----

  predicate Enabled(s: State, e: Event) {
    match e
    case Response(i, _) => i < |s.requests| && s.requests[i].phase.Sent? && |s.requests[i].sends| > 0
    case ResponseLost(i) => i < |s.requests| && s.requests[i].phase.Sent?
    case Body(i, _) => i < |s.requests| && s.requests[i].phase.Reading?
    case Resume(i) =>
      && i < |s.requests|
      && match s.requests[i].phase {
           case Waiting(k) => k < |s.refreshes| && s.refreshes[k].stage.Finished?
           case Unauthorized => true
           case _ => false
         }
    case RefreshResponse(k, _) => k < |s.refreshes| && s.refreshes[k].stage.Posted?
    case RefreshLost(k) => k < |s.refreshes| && s.refreshes[k].stage.Posted?
    case RefreshBody(k, _) => k < |s.refreshes| && s.refreshes[k].stage.ReadingBody?
    case RefreshFinally(k) => k < |s.refreshes| && s.refreshes[k].stage.Settling?
    case CheckSession(i) =>
      && i < |s.requests| && s.requests[i].phase.Settled?
      && s.requests[i].isGet && !IsAuthEndpoint(s.requests[i].url)    // /auth/me is not one of those
    case _ => true
  }

  function Step(s: State, e: Event): State
    requires Enabled(s, e)
  {
    match e
    case Get(url) => ApiGet(s, url)
    case Send(url) => MakeRequest(s, false, url)
    case Response(i, status) => HandleResponse(s, i, status)
    case ResponseLost(i) => Settle(s, i, NetworkError)
    case Body(i, json) => BodyRead(s, i, json)
    case Resume(i) => ResumeAfterRefresh(s, i)
    case RefreshResponse(k, status) => RefreshAnswered(s, k, status)
    case RefreshLost(k) => SetStage(s, k, Settling(Failed))
    case RefreshBody(k, data) => RefreshBodyRead(s, k, data)
    case RefreshFinally(k) => RefreshEnded(s, k)
    case ClearCache => s.(cache := map[])
    case Realtime(name) => if name != "connected" && name != "connect" then s.(cache := map[]) else s
    case Clock(ms) => s.(now := ms)
    case StoredElsewhere(t, r) => SetTokens(s, t, r)
    case RemovedElsewhere => ClearTokens(s)
    case CheckSession(i) => SessionCheck(s, i)
  }

  /** A freshly loaded page: empty tables, whatever tokens the browser kept. */
  predicate Init(s: State) {
    && s.refreshInFlight.None? && s.inFlight == map[] && s.cache == map[]
    && s.requests == [] && s.refreshes == []
    && s.issued == (if s.access.Some? then {s.access.value} else {})
  }

  /** `ss` are the states of a run and `es` the events between them, in any interleaving. */
  ghost predicate Run(ss: seq<State>, es: seq<Event>) {
    && |ss| == |es| + 1 && Init(ss[0])
    && forall n {:trigger es[n]} | 0 <= n < |es| :: Enabled(ss[n], es[n]) && ss[n + 1] == Step(ss[n], es[n])
  }

  lemma ExtendRun(ss: seq<State>, es: seq<Event>, e: Event)
    requires Run(ss, es) && Enabled(ss[|es|], e)
    ensures Run(ss + [Step(ss[|es|], e)], es + [e])
  {
    hide Step, Enabled, Init;
    var es', ss' := es + [e], ss + [Step(ss[|es|], e)];
    forall n {:trigger es'[n]} | 0 <= n < |es'|
      ensures Enabled(ss'[n], es'[n]) && ss'[n + 1] == Step(ss'[n], es'[n])
    {
      if n < |es| {
        assert es'[n] == es[n];
      }
    }
  }

  lemma RunLength(ss: seq<State>, es: seq<Event>)
    requires Run(ss, es)
    ensures |ss| == |es| + 1
  {
  }
}
