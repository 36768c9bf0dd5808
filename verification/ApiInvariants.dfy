/** What every step of the client keeps, and what a whole run therefore keeps. */
module ApiInvariants {
  import opened Prelude
  import opened ApiModel

  predicate Open(r: Refresh) { !r.stage.Finished? }

  /** A refresh is outstanding exactly while `refreshInFlight` holds it, and it is then the newest. */
  ghost predicate SingleFlight(s: State) {
    && (forall k | 0 <= k < |s.refreshes| && Open(s.refreshes[k]) :: s.refreshInFlight == Some(k))
    && (s.refreshInFlight.Some? ==>
          s.refreshInFlight.value == |s.refreshes| - 1 && Open(s.refreshes[|s.refreshes| - 1]))
  }

  /** One fetch or two, the second always with a token; a 401 is final only on the second or at an auth endpoint. */
  ghost predicate RequestOk(s: State, r: Request) {
    && (|r.sends| == 2 ==> r.sends[1].Some?)
    && match r.phase
       case Sent(retried) => |r.sends| == if retried then 2 else 1
       case Waiting(k) => |r.sends| == 1 && k < |s.refreshes|
       case Unauthorized => |r.sends| == 1
       case Reading(status, retried) =>
         (|r.sends| == if retried then 2 else 1) && (status == 401 && !retried ==> IsAuthEndpoint(r.url))
       case Settled(o) => 1 <= |r.sends| <= 2 && (o == HttpError(401) && |r.sends| == 1 ==> IsAuthEndpoint(r.url))
  }

  ghost predicate WellFormed(s: State) {
    && (forall i | 0 <= i < |s.requests| :: RequestOk(s, s.requests[i]))
    && (forall k | 0 <= k < |s.refreshes| :: s.refreshes[k].starter < |s.requests|)
  }

  predicate Known(s: State, t: Option<Token>) { t.Some? ==> t.value in s.issued }

  /** The token a refresh has stored, once it has stored one. */
  function Stored(r: Refresh): Option<Token> {
    match r.stage
    case Settling(Renewed(t)) => Some(t)
    case Finished(Renewed(t)) => Some(t)
    case _ => None
  }

  ghost predicate TokensKnown(s: State) {
    && Known(s, s.access)
    && (s.access.None? && s.refresh.Some? ==> s.issued == {})
    && (forall i, j | 0 <= i < |s.requests| && 0 <= j < |s.requests[i].sends| :: Known(s, s.requests[i].sends[j]))
    && (forall k | 0 <= k < |s.refreshes| :: Known(s, Stored(s.refreshes[k])))
  }

  /** The dedup table holds exactly the unsettled GETs, one per URL. */
  ghost predicate Deduped(s: State) {
    && (forall url | url in s.inFlight ::
          s.inFlight[url] < |s.requests| && s.requests[s.inFlight[url]].isGet
          && s.requests[s.inFlight[url]].url == url && !s.requests[s.inFlight[url]].phase.Settled?)
    && (forall i | 0 <= i < |s.requests| && s.requests[i].isGet && !s.requests[i].phase.Settled? ::
          s.requests[i].url in s.inFlight && s.inFlight[s.requests[i].url] == i)
  }

  ghost predicate Inv(s: State) {
    SingleFlight(s) && WellFormed(s) && TokensKnown(s) && Deduped(s)
  }

  // ---- each primitive keeps the invariant ----

  lemma MakeRequestKeeps(s: State, url: string)
    requires Inv(s)
    ensures Inv(MakeRequest(s, false, url))
  {
  }

  lemma StartGetKeeps(s: State, url: string)
    requires Inv(s) && url !in s.inFlight
    ensures Inv(StartGet(s, url))
  {
  }

  /** The cache and the clock take no part in the invariant. */
  lemma CacheIsFree(s: State, c: map<string, Entry>, now: int)
    requires Inv(s)
    ensures Inv(s.(cache := c, now := now))
  {
  }

  lemma ApiGetKeeps(s: State, url: string)
    requires Inv(s)
    ensures Inv(ApiGet(s, url))
  {
    CacheIsFree(s, s.cache - {url}, s.now);
    if url !in s.inFlight {
      StartGetKeeps(DropStale(s, url), url);
    }
  }

  lemma SetTokensKeeps(s: State, t: Token, r: Option<Token>)
    requires Inv(s)
    ensures Inv(SetTokens(s, t, r))
  {
  }

  lemma ClearTokensKeeps(s: State)
    requires Inv(s)
    ensures Inv(ClearTokens(s)) && Inv(RedirectToLogin(ClearTokens(s)))
    ensures Inv(ClearTokens(s).(redirects := s.redirects + 1))
  {
    TokensCanGo(s);
    RedirectsAreFree(ClearTokens(s), s.redirects + 1);
  }

  lemma TokensCanGo(s: State)
    requires Inv(s)
    ensures Inv(ClearTokens(s))
  {
    hide IsAuthEndpoint;
  }

  lemma RedirectsAreFree(s: State, redirects: nat)
    requires Inv(s)
    ensures Inv(s.(redirects := redirects))
  {
    hide IsAuthEndpoint;
  }

  lemma SetPhaseKeeps(s: State, i: nat, p: Phase)
    requires Inv(s) && i < |s.requests| && !s.requests[i].phase.Settled? && !p.Settled?
    requires RequestOk(s, s.requests[i].(phase := p))
    ensures Inv(SetPhase(s, i, p))
  {
  }

  lemma SettleKeeps(s: State, i: nat, o: Outcome)
    requires Inv(s) && i < |s.requests| && !s.requests[i].phase.Settled?
    requires RequestOk(s, s.requests[i].(phase := Settled(o)))
    ensures Inv(Settle(s, i, o))
  {
    hide IsAuthEndpoint;
  }

  lemma ReplayKeeps(s: State, i: nat, t: Token)
    requires Inv(s) && i < |s.requests| && !s.requests[i].phase.Settled?
    requires |s.requests[i].sends| == 1 && t in s.issued
    ensures Inv(Replay(s, i, t))
  {
  }

  lemma StartRefreshKeeps(s: State, i: nat)
    requires Inv(s) && i < |s.requests| && s.refreshInFlight.None?
    ensures Inv(StartRefresh(s, i))
  {
  }

  lemma RefreshAccessTokenKeeps(s: State, i: nat)
    requires Inv(s) && i < |s.requests| && s.requests[i].phase == Sent(false)
    ensures Inv(RefreshAccessToken(s, i))
  {
    if s.refreshInFlight.Some? {
      SetPhaseKeeps(s, i, Waiting(s.refreshInFlight.value));
    } else if s.refresh.None? {
      SetPhaseKeeps(s, i, Unauthorized);
    } else {
      StartRefreshKeeps(s, i);
      SetPhaseKeeps(StartRefresh(s, i), i, Waiting(|s.refreshes|));
    }
  }

  lemma HandleResponseKeeps(s: State, i: nat, status: nat)
    requires Inv(s) && Enabled(s, Response(i, status))
    ensures Inv(HandleResponse(s, i, status))
  {
    var r := s.requests[i];
    if status == 204 {
      SettleKeeps(s, i, Resolved(Null));
    } else if status == 401 && !IsAuthEndpoint(r.url) && !r.phase.retried {
      if s.access.Some? && r.sends[0].Some? && s.access != r.sends[0] {
        ReplayKeeps(s, i, s.access.value);
      } else {
        RefreshAccessTokenKeeps(s, i);
      }
    } else {
      SetPhaseKeeps(s, i, Reading(status, r.phase.retried));
    }
  }

  lemma BodyReadKeeps(s: State, i: nat, json: Json)
    requires Inv(s) && Enabled(s, Body(i, json))
    ensures Inv(BodyRead(s, i, json))
  {
    var status := s.requests[i].phase.status;
    SettleKeeps(s, i, if Ok(status) then Resolved(json) else HttpError(status));
  }

  lemma ResumeKeeps(s: State, i: nat)
    requires Inv(s) && Enabled(s, Resume(i))
    ensures Inv(ResumeAfterRefresh(s, i))
  {
    match ResultOf(s, i)
    case Renewed(t) => ReplayKeeps(s, i, t);
    case Lost =>
      ClearTokensKeeps(s);
      SettleKeeps(RedirectToLogin(ClearTokens(s)), i, SessionLost);
    case Failed => SettleKeeps(s, i, RefreshFailed);
  }

  lemma RefreshEndedKeeps(s: State, k: nat)
    requires Inv(s) && k < |s.refreshes| && s.refreshes[k].stage.Settling?
    ensures Inv(RefreshEnded(s, k))
  {
  }

  lemma RefreshBodyReadKeeps(s: State, k: nat, data: Option<Minted>)
    requires Inv(s) && Enabled(s, RefreshBody(k, data))
    ensures Inv(RefreshBodyRead(s, k, data))
  {
    if data.Some? && data.value.access.Some? {
      var t := data.value.access.value;
      SetTokensKeeps(s, t, data.value.refresh);
      SetStageKeeps(SetTokens(s, t, data.value.refresh), k, Settling(Renewed(t)));
    } else {
      SetStageKeeps(s, k, Settling(Failed));
    }
  }

  lemma SetStageKeeps(s: State, k: nat, st: Stage)
    requires Inv(s) && k < |s.refreshes| && Open(s.refreshes[k]) && !st.Finished?
    requires Known(s, Stored(s.refreshes[k].(stage := st)))
    ensures Inv(SetStage(s, k, st))
  {
  }

  predicate RefreshEvent(e: Event) {
    e.RefreshResponse? || e.RefreshLost? || e.RefreshBody? || e.RefreshFinally?
  }

  predicate RequestEvent(e: Event) {
    e.Get? || e.Send? || e.Response? || e.ResponseLost? || e.Body? || e.Resume?
  }

  lemma RefreshStepKeeps(s: State, e: Event)
    requires Inv(s) && Enabled(s, e)
    requires RefreshEvent(e)
    ensures Inv(Step(s, e))
  {
    match e
    case RefreshResponse(k, status) => SetStageKeeps(s, k, RefreshAnswered(s, k, status).refreshes[k].stage);
    case RefreshLost(k) => SetStageKeeps(s, k, Settling(Failed));
    case RefreshBody(k, data) => RefreshBodyReadKeeps(s, k, data);
    case RefreshFinally(k) => RefreshEndedKeeps(s, k);
  }

  lemma RequestStepKeeps(s: State, e: Event)
    requires Inv(s) && Enabled(s, e)
    requires RequestEvent(e)
    ensures Inv(Step(s, e))
  {
    match e
    case Get(url) => ApiGetKeeps(s, url);
    case Send(url) => MakeRequestKeeps(s, url);
    case Response(i, status) => HandleResponseKeeps(s, i, status);
    case ResponseLost(i) => SettleKeeps(s, i, NetworkError);
    case Body(i, json) => BodyReadKeeps(s, i, json);
    case Resume(i) => ResumeKeeps(s, i);
  }

  lemma OtherStepKeeps(s: State, e: Event)
    requires Inv(s) && Enabled(s, e)
    requires !RefreshEvent(e) && !RequestEvent(e)
    ensures Inv(Step(s, e))
  {
    hide IsAuthEndpoint, Inv;
    match e
    case ClearCache => CacheIsFree(s, map[], s.now);
    case Realtime(_) => CacheIsFree(s, map[], s.now);
    case Clock(ms) => CacheIsFree(s, s.cache, ms);
    case StoredElsewhere(t, r) => SetTokensKeeps(s, t, r);
    case RemovedElsewhere => ClearTokensKeeps(s);
    case CheckSession(i) => ClearTokensKeeps(s);
  }

  lemma InvStep(s: State, e: Event)
    requires Inv(s) && Enabled(s, e)
    ensures Inv(Step(s, e))
  {
    if RefreshEvent(e) {
      RefreshStepKeeps(s, e);
    } else if RequestEvent(e) {
      RequestStepKeeps(s, e);
    } else {
      OtherStepKeeps(s, e);
    }
  }

  /** The invariant holds in every state of every run. */
  lemma {:induction false} InvAlways(ss: seq<State>, es: seq<Event>, n: nat)
    requires Run(ss, es) && n < |ss|
    ensures Inv(ss[n])
  {
    hide Step, Enabled;
    if n > 0 {
      InvAlways(ss, es, n - 1);
      InvStep(ss[n - 1], es[n - 1]);
    }
  }

  // ---- what can never be undone ----

  ghost predicate RequestLater(r: Request, r': Request) {
    r'.isGet == r.isGet && r'.url == r.url && r.sends <= r'.sends && (r.phase.Settled? ==> r' == r)
  }

  ghost predicate RefreshLater(f: Refresh, f': Refresh) {
    f'.starter == f.starter
    && (f.stage.Settling? ==> f'.stage == f.stage || f'.stage == Finished(f.stage.result))
    && (f.stage.Finished? ==> f' == f)
  }

  ghost predicate RequestsLater(rs: seq<Request>, rs': seq<Request>) {
    |rs| <= |rs'| && forall i | 0 <= i < |rs| :: RequestLater(rs[i], rs'[i])
  }

  ghost predicate RefreshesLater(fs: seq<Refresh>, fs': seq<Refresh>) {
    |fs| <= |fs'| && forall k | 0 <= k < |fs| :: RefreshLater(fs[k], fs'[k])
  }

  ghost predicate Later(s: State, s': State) {
    s.issued <= s'.issued && RequestsLater(s.requests, s'.requests) && RefreshesLater(s.refreshes, s'.refreshes)
  }

  /** What going to the refresh path can touch: the request's own row, and at most one new refresh. */
  lemma HandleRefreshFacts(s: State, i: nat)
    requires i < |s.requests| && |s.requests[i].sends| > 0
    ensures var s', used := HandleRefresh(s, i), s.requests[i].sends[0];
      && SameButRow(s, s', i) && s.requests[i].sends <= s'.requests[i].sends && !s'.requests[i].phase.Settled?
      && (s'.refreshes == s.refreshes
          || (s'.refreshes == s.refreshes + [Refresh(i, Posted)] && s.refreshInFlight.None? && s.refresh.Some?
              && (s.access.None? || used.None? || s.access == used)))
  {
    hide RefreshAccessToken;
    RefreshAccessTokenFacts(s, i);
  }

  lemma RefreshAccessTokenFacts(s: State, i: nat)
    requires i < |s.requests|
    ensures var s' := RefreshAccessToken(s, i);
      && SameButRow(s, s', i) && s'.requests[i].sends == s.requests[i].sends && !s'.requests[i].phase.Settled?
      && (s'.refreshes == s.refreshes
          || (s'.refreshes == s.refreshes + [Refresh(i, Posted)] && s.refreshInFlight.None? && s.refresh.Some?))
  {
  }

  /** Tokens and page are as before, and of the requests only row i may differ, in what was sent and its phase. */
  ghost predicate SameButRow(s: State, s': State, i: nat)
    requires i < |s.requests|
  {
    && s'.issued == s.issued && s'.access == s.access && s'.refresh == s.refresh
    && s'.redirects == s.redirects && s'.onLogin == s.onLogin
    && |s'.requests| == |s.requests| && s'.requests == s.requests[i := s'.requests[i]]
    && s'.requests[i].isGet == s.requests[i].isGet && s'.requests[i].url == s.requests[i].url
  }

  lemma ResponseFacts(s: State, i: nat, status: nat)
    requires Enabled(s, Response(i, status))
    ensures var s', used := HandleResponse(s, i, status), s.requests[i].sends[0];
      && SameButRow(s, s', i) && s.requests[i].sends <= s'.requests[i].sends
      && (s'.refreshes == s.refreshes
          || (s'.refreshes == s.refreshes + [Refresh(i, Posted)] && s.refreshInFlight.None? && s.refresh.Some?
              && (s.access.None? || used.None? || s.access == used)))
  {
    hide IsAuthEndpoint, HandleRefresh;
    HandleRefreshFacts(s, i);
  }

  lemma RowLater(rs: seq<Request>, rs': seq<Request>, i: nat)
    requires i < |rs| == |rs'| && rs' == rs[i := rs'[i]] && RequestLater(rs[i], rs'[i])
    ensures RequestsLater(rs, rs')
  {
  }

  lemma ResponseLater(s: State, i: nat, status: nat)
    requires Enabled(s, Response(i, status))
    ensures RequestsLater(s.requests, HandleResponse(s, i, status).requests)
  {
    hide HandleResponse;
    ResponseFacts(s, i, status);
    RowLater(s.requests, HandleResponse(s, i, status).requests, i);
  }

  lemma ResumeLater(s: State, i: nat)
    requires Enabled(s, Resume(i))
    ensures RequestsLater(s.requests, ResumeAfterRefresh(s, i).requests)
  {
    RowLater(s.requests, ResumeAfterRefresh(s, i).requests, i);
  }

  /** Callbacks of refreshes and the world outside touch no request. */
  lemma OthersLeaveRequests(s: State, e: Event)
    requires Enabled(s, e) && !RequestEvent(e)
    ensures Step(s, e).requests == s.requests
  {
  }

  /** And requests, but for a 401, touch no refresh; nor does the world outside. */
  lemma OthersLeaveRefreshes(s: State, e: Event)
    requires Enabled(s, e) && !RefreshEvent(e) && !e.Response?
    ensures Step(s, e).refreshes == s.refreshes
  {
    hide IsAuthEndpoint;
  }

  lemma OthersIssueNothing(s: State, e: Event)
    requires Enabled(s, e) && !e.Response?
    ensures s.issued <= Step(s, e).issued
  {
    hide IsAuthEndpoint;
  }

  lemma NewRequest(s: State, e: Event)
    requires e.Get? || e.Send?
    ensures Enabled(s, e)
    ensures var rs := Step(s, e).requests;
      rs == s.requests || rs == s.requests + [Request(e.Get?, e.url, [s.access], Sent(false))]
  {
  }

  lemma SettleRow(s: State, i: nat, o: Outcome)
    requires i < |s.requests|
    ensures Settle(s, i, o).requests == s.requests[i := s.requests[i].(phase := Settled(o))]
    ensures Settle(s, i, o).refreshes == s.refreshes
  {
  }

  lemma RequestsLaterStep(s: State, e: Event)
    requires Enabled(s, e)
    ensures RequestsLater(s.requests, Step(s, e).requests)
  {
    hide HandleResponse, ResumeAfterRefresh, ApiGet, Settle;
    match e
    case Get(_) =>
      NewRequest(s, e);
    case Send(_) =>
      NewRequest(s, e);
    case Response(i, status) => ResponseLater(s, i, status);
    case Resume(i) => ResumeLater(s, i);
    case ResponseLost(i) => SettleRow(s, i, NetworkError);
    case Body(i, json) =>
      var status := s.requests[i].phase.status;
      SettleRow(s, i, if Ok(status) then Resolved(json) else HttpError(status));
    case _ => OthersLeaveRequests(s, e);
  }

  lemma RefreshesLaterStep(s: State, e: Event)
    requires Enabled(s, e)
    ensures RefreshesLater(s.refreshes, Step(s, e).refreshes) && s.issued <= Step(s, e).issued
  {
    if e.Response? {
      hide HandleResponse;
      ResponseRefreshes(s, e.i, e.status);
      ResponseIssuesNothing(s, e.i, e.status);
    } else {
      OthersIssueNothing(s, e);
      if RefreshEvent(e) {
        RefreshEventLater(s, e);
      } else {
        hide Step;
        OthersLeaveRefreshes(s, e);
      }
    }
  }

  lemma RefreshEventLater(s: State, e: Event)
    requires Enabled(s, e) && RefreshEvent(e)
    ensures RefreshesLater(s.refreshes, Step(s, e).refreshes)
  {
  }

  lemma ResponseIssuesNothing(s: State, i: nat, status: nat)
    requires Enabled(s, Response(i, status))
    ensures var s' := HandleResponse(s, i, status);
      && s'.issued == s.issued && s'.access == s.access && s'.refresh == s.refresh
      && s'.redirects == s.redirects && s'.onLogin == s.onLogin
  {
    hide HandleResponse;
    ResponseFacts(s, i, status);
  }

  lemma LaterStep(s: State, e: Event)
    requires Enabled(s, e)
    ensures Later(s, Step(s, e))
  {
    RequestsLaterStep(s, e);
    RefreshesLaterStep(s, e);
  }

  lemma {:induction false} LaterAlways(ss: seq<State>, es: seq<Event>, m: nat, n: nat)
    requires Run(ss, es) && m <= n < |ss|
    ensures Later(ss[m], ss[n])
  {
    hide Step, Enabled;
    if m < n {
      LaterAlways(ss, es, m, n - 1);
      LaterStep(ss[n - 1], es[n - 1]);
    }
  }

  // ---- a step touches one row ----

  predicate Targets(e: Event, i: nat) {
    match e
    case Response(j, _) => i == j
    case ResponseLost(j) => i == j
    case Body(j, _) => i == j
    case Resume(j) => i == j
    case _ => false
  }

  lemma ResponseRow(s: State, i: nat, status: nat)
    requires Enabled(s, Response(i, status))
    ensures var rs := HandleResponse(s, i, status).requests; |rs| == |s.requests| && rs == s.requests[i := rs[i]]
  {
    hide HandleResponse;
    ResponseFacts(s, i, status);
  }

  lemma ResumeRow(s: State, i: nat)
    requires Enabled(s, Resume(i))
    ensures var rs := ResumeAfterRefresh(s, i).requests; |rs| == |s.requests| && rs == s.requests[i := rs[i]]
  {
  }

  /** Where a response can take its own row. */
  lemma ResponsePhase(s: State, i: nat, status: nat)
    requires Enabled(s, Response(i, status))
    ensures var p := HandleResponse(s, i, status).requests[i].phase;
      || p == Settled(Resolved(Null)) || p.Reading?
      || (s.requests[i].phase == Sent(false) && status == 401 &&
            (p == Sent(true) || p.Waiting? || (p.Unauthorized? && s.refresh.None? && s.refreshInFlight.None?)))
  {
    hide IsAuthEndpoint, RefreshAccessToken;
    RefreshPhase(s, i);
  }

  lemma RefreshPhase(s: State, i: nat)
    requires i < |s.requests|
    ensures var s' := RefreshAccessToken(s, i);
      && |s'.requests| == |s.requests|
      && (s'.requests[i].phase.Waiting?
          || (s'.requests[i].phase.Unauthorized? && s.refresh.None? && s.refreshInFlight.None?))
  {
  }

  /** A response leaves the refreshes alone, or adds the one it starts. */
  lemma ResponseRefreshes(s: State, i: nat, status: nat)
    requires Enabled(s, Response(i, status))
    ensures var fs := HandleResponse(s, i, status).refreshes;
      fs == s.refreshes || (fs == s.refreshes + [Refresh(i, Posted)] && s.refreshInFlight.None? && s.refresh.Some?)
  {
    hide HandleResponse;
    ResponseFacts(s, i, status);
  }

  /** A row the event does not name is unchanged, or is the new row of a request just sent. */
  lemma OtherRows(s: State, e: Event, i: nat)
    requires Enabled(s, e) && i < |Step(s, e).requests| && !Targets(e, i)
    ensures
      || (i < |s.requests| && Step(s, e).requests[i] == s.requests[i])
      || (i == |s.requests| && (e.Get? || e.Send?)
          && Step(s, e).requests[i] == Request(e.Get?, e.url, [s.access], Sent(false)))
  {
    hide HandleResponse, ResumeAfterRefresh, Settle;
    match e
    case Get(_) =>
    case Send(_) =>
    case Response(j, status) => ResponseRow(s, j, status);
    case Resume(j) => ResumeRow(s, j);
    case ResponseLost(j) => SettleRow(s, j, NetworkError);
    case Body(j, json) =>
      var status := s.requests[j].phase.status;
      SettleRow(s, j, if Ok(status) then Resolved(json) else HttpError(status));
    case _ => OthersLeaveRequests(s, e);
  }
}
