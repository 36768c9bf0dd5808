/** What the events of a run make of every refresh, every request and the stored tokens, told from the events alone. */
module ApiOutcomes {
  import opened Prelude
  import opened LastWrite
  import opened ApiModel
  import opened ApiInvariants
  import opened ApiSurvival

  // ---- how a refresh ends ----

  /** The result event e gives to refresh k, if it decides it. */
  function Verdict(e: Event, k: nat): Option<RefreshResult> {
    match e
    case RefreshResponse(j, status) =>
      if j != k || 200 <= status < 300 then None else if status in {401, 403} then Some(Lost) else Some(Failed)
    case RefreshLost(j) => if j == k then Some(Failed) else None
    case RefreshBody(j, Some(Minted(Some(t), _))) => if j == k then Some(Renewed(t)) else None
    case RefreshBody(j, _) => if j == k then Some(Failed) else None
    case _ => None
  }

  function ResultIn(s: State, k: nat): Option<RefreshResult> {
    if k >= |s.refreshes| then None
    else
      match s.refreshes[k].stage
      case Settling(r) => Some(r)
      case Finished(r) => Some(r)
      case _ => None
  }

  lemma ResultStep(s: State, e: Event, k: nat)
    requires Enabled(s, e)
    ensures Verdict(e, k).Some? ==> ResultIn(s, k).None?
    ensures ResultIn(Step(s, e), k) == if Verdict(e, k).Some? then Verdict(e, k) else ResultIn(s, k)
  {
    if RefreshEvent(e) {
      ResultOfRefreshEvent(s, e, k);
    } else if e.Response? {
      hide HandleResponse;
      ResponseRefreshes(s, e.i, e.status);
    } else {
      hide Step;
      OthersLeaveRefreshes(s, e);
    }
  }

  lemma ResultOfRefreshEvent(s: State, e: Event, k: nat)
    requires Enabled(s, e) && RefreshEvent(e)
    ensures Verdict(e, k).Some? ==> ResultIn(s, k).None?
    ensures ResultIn(Step(s, e), k) == if Verdict(e, k).Some? then Verdict(e, k) else ResultIn(s, k)
  {
  }

  /** A refresh has result r if and only if some event so far gave it r: lost exactly when it was answered 401 or 403,
      renewed with t exactly when an OK answer brought t, failed exactly when its answer was anything else, never came,
      or brought no token. */
  lemma {:induction false} RefreshEndsIff(ss: seq<State>, es: seq<Event>, n: nat, k: nat, r: RefreshResult)
    requires Run(ss, es) && n < |ss|
    ensures ResultIn(ss[n], k) == Some(r) <==> exists j | 0 <= j < n :: Verdict(es[j], k) == Some(r)
    ensures ResultIn(ss[n], k).None? ==> forall j | 0 <= j < n :: Verdict(es[j], k).None?
  {
    hide Step, Enabled, Verdict, ResultIn;
    if n > 0 {
      RefreshEndsIff(ss, es, n - 1, k, r);
      ResultStep(ss[n - 1], es[n - 1], k);
      ResultsAgree(ss, es, n - 1, k, r);
    } else {
      NoResultYet(ss[0], k);
    }
  }

  lemma NoResultYet(s: State, k: nat)
    requires Init(s)
    ensures ResultIn(s, k).None?
  {
  }

  lemma {:induction false} ResultsAgree(ss: seq<State>, es: seq<Event>, n: nat, k: nat, r: RefreshResult)
    requires Run(ss, es) && n < |ss|
    ensures forall j | 0 <= j < n :: Verdict(es[j], k).Some? ==> Verdict(es[j], k) == ResultIn(ss[n], k)
  {
    hide Step, Enabled, Verdict, ResultIn;
    if n > 0 {
      ResultsAgree(ss, es, n - 1, k, r);
      ResultStep(ss[n - 1], es[n - 1], k);
    }
  }

  /** Event j is the server's refusal of refresh k. */
  predicate Refusal(e: Event, k: nat) { e == RefreshResponse(k, 401) || e == RefreshResponse(k, 403) }

  /** Once refused, a refresh is never anything but lost; and nothing else loses it. */
  lemma RefusedIff(ss: seq<State>, es: seq<Event>, n: nat, k: nat)
    requires Run(ss, es) && n < |ss|
    ensures k < |ss[n].refreshes| && IsLost(ss[n].refreshes[k].stage) <==> exists j | 0 <= j < n :: Refusal(es[j], k)
  {
    hide Step, Enabled;
    RefreshEndsIff(ss, es, n, k, Lost);
    forall j | 0 <= j < n
      ensures Refusal(es[j], k) <==> Verdict(es[j], k) == Some(Lost)
    {
    }
  }

  // ---- when a refusal ends the session ----

  /** A phase from which a request never comes to wait for a refresh. */
  predicate PastWaiting(p: Phase) { p == Sent(true) || p.Unauthorized? || p.Reading? || p.Settled? }

  lemma PastWaitingStep(s: State, e: Event, i: nat)
    requires Enabled(s, e) && i < |s.requests| && PastWaiting(s.requests[i].phase)
    ensures i < |Step(s, e).requests| && PastWaiting(Step(s, e).requests[i].phase)
  {
    hide HandleResponse, ResumeAfterRefresh, Settle;
    RequestsLaterStep(s, e);
    if !Targets(e, i) {
      hide Step;
      OtherRows(s, e, i);
    } else if e.Resume? {
      ResumePast(s, i);
    } else {
      TargetPhase(s, e, i);
      if e.Response? {
        ResponseToReplay(s, i, e.status);
      }
    }
  }

  lemma ResumePast(s: State, i: nat)
    requires Enabled(s, Resume(i))
    ensures var s' := ResumeAfterRefresh(s, i);
      i < |s'.requests| && (s'.requests[i].phase == Sent(true) || s'.requests[i].phase.Settled?)
  {
    hide Settle;
    SettleRow(s, i, RefreshFailed);
    SettleRow(RedirectToLogin(ClearTokens(s)), i, SessionLost);
  }

  lemma ResponseToReplay(s: State, i: nat, status: nat)
    requires Enabled(s, Response(i, status)) && s.requests[i].phase == Sent(true)
    ensures var s' := Step(s, Response(i, status)); i < |s'.requests| && PastWaiting(s'.requests[i].phase)
  {
    hide IsAuthEndpoint;
  }

  lemma RefusedForWantOfToken(s: State, i: nat)
    requires Enabled(s, Response(i, 401)) && s.refresh.None? && s.refreshInFlight.None?
    ensures var s' := Step(s, Response(i, 401)); i < |s'.requests| && PastWaiting(s'.requests[i].phase)
  {
    hide IsAuthEndpoint;
  }

  lemma {:induction false} PastWaitingAlways(ss: seq<State>, es: seq<Event>, m: nat, n: nat, i: nat)
    requires Run(ss, es) && m <= n < |ss| && i < |ss[m].requests| && PastWaiting(ss[m].requests[i].phase)
    ensures i < |ss[n].requests| && PastWaiting(ss[n].requests[i].phase)
  {
    hide Step, Enabled;
    if m < n {
      PastWaitingAlways(ss, es, m, n - 1, i);
      PastWaitingStep(ss[n - 1], es[n - 1], i);
    }
  }

  lemma RefusedIsLost(ss: seq<State>, es: seq<Event>, n: nat, i: nat)
    requires Run(ss, es) && n < |es| && es[n] == Resume(i) && Refused(ss, es, n, i)
    ensures ResultOf(ss[n], i) == Lost
  {
    hide Step;
    if j :| 0 <= j < n && es[j] == Response(i, 401) && ss[j].refresh.None? && ss[j].refreshInFlight.None? {
      WantOfTokenIsLost(ss, es, j, n, i);
    } else {
      var j :| 0 <= j < n && es[j].RefreshResponse? && es[j].status in {401, 403}
               && ss[n].requests[i].phase == Waiting(es[j].k);
      RefusalIsLost(ss, es, j, n, i, es[j].k);
    }
  }

  lemma WantOfTokenIsLost(ss: seq<State>, es: seq<Event>, j: nat, n: nat, i: nat)
    requires Run(ss, es) && j < n < |es| && es[n] == Resume(i)
    requires es[j] == Response(i, 401) && ss[j].refresh.None? && ss[j].refreshInFlight.None?
    ensures ResultOf(ss[n], i) == Lost
  {
    hide Step;
    RefusedForWantOfToken(ss[j], i);
    PastWaitingAlways(ss, es, j + 1, n, i);
  }

  lemma RefusalIsLost(ss: seq<State>, es: seq<Event>, j: nat, n: nat, i: nat, k: nat)
    requires Run(ss, es) && j < n < |es| && es[n] == Resume(i) && Refusal(es[j], k)
    requires i < |ss[n].requests| && ss[n].requests[i].phase == Waiting(k)
    ensures ResultOf(ss[n], i) == Lost
  {
    hide Step, Refusal;
    RefusedIff(ss, es, n, k);
  }

  /** A request that learns how its refresh ended loses the session if and only if the refresh was refused: the server
      answered it 401 or 403, or there was no refresh token when the request's own 401 was handled. Then both tokens go,
      the page leaves unless it is the login page, and the request fails as session lost. */
  lemma SessionLostIff(ss: seq<State>, es: seq<Event>, n: nat, i: nat)
    requires Run(ss, es) && n < |es| && es[n] == Resume(i)
    ensures ss[n + 1].requests[i].phase == Settled(SessionLost) <==> Refused(ss, es, n, i)
    ensures Refused(ss, es, n, i) ==>
      && ss[n + 1].access.None? && ss[n + 1].refresh.None?
      && ss[n + 1].redirects == ss[n].redirects + (if ss[n].onLogin then 0 else 1)
    ensures !Refused(ss, es, n, i) ==>
      ss[n + 1].access == ss[n].access && ss[n + 1].refresh == ss[n].refresh && ss[n + 1].redirects == ss[n].redirects
  {
    if Refused(ss, es, n, i) {
      RefusedIsLost(ss, es, n, i);
      RefusalEndsSession(ss, es, n, i);
    } else {
      if ResultOf(ss[n], i) == Lost {
        ResumeLostIsRefused(ss, es, n, i);
      }
      ResumeNotLost(ss[n], i);
    }
  }

  lemma ResumeNotLost(s: State, i: nat)
    requires Enabled(s, Resume(i)) && ResultOf(s, i) != Lost
    ensures var s' := Step(s, Resume(i));
      && i < |s'.requests| && s'.requests[i].phase != Settled(SessionLost)
      && s'.access == s.access && s'.refresh == s.refresh && s'.redirects == s.redirects
  {
  }

  // ---- the session check ----

  /** The outcomes of /auth/me at which safeInit ends the session: a 401, a lost session, or, with the access token
      gone, anything but a user with an email. */
  predicate Rejected(s: State, o: Outcome) {
    match o
    case Resolved(Doc(_, true)) => false
    case HttpError(401) => true
    case SessionLost => true
    case _ => s.access.None?
  }

  lemma SessionCheckIff(ss: seq<State>, es: seq<Event>, n: nat, i: nat)
    requires Run(ss, es) && n < |es| && es[n] == CheckSession(i)
    ensures if Rejected(ss[n], ss[n].requests[i].phase.outcome)
            then ss[n + 1] == ss[n].(access := None, refresh := None, redirects := ss[n].redirects + 1)
            else ss[n + 1] == ss[n]
  {
  }

  // ---- where the stored tokens come from ----

  /** Step n takes both tokens away: a logout, a refused refresh, or a session check that ends the session. */
  ghost predicate Removes(ss: seq<State>, es: seq<Event>, n: nat)
    requires |ss| == |es| + 1 && n < |es|
  {
    match es[n]
    case RemovedElsewhere => true
    case Resume(i) => Refused(ss, es, n, i)
    case CheckSession(i) =>
      i < |ss[n].requests| && ss[n].requests[i].phase.Settled? && Rejected(ss[n], ss[n].requests[i].phase.outcome)
    case _ => false
  }

  /** The tokens event e brings: those of a refresh answer with an access token, or those of another tab. */
  function Brought(e: Event): Option<Minted> {
    match e
    case RefreshBody(_, Some(Minted(Some(t), r))) => Some(Minted(Some(t), r))
    case StoredElsewhere(t, r) => Some(Minted(Some(t), r))
    case _ => None
  }

  /** What step n writes to the stored access token: the one brought, or nothing left. */
  ghost function AccessWrite(ss: seq<State>, es: seq<Event>, n: nat): Option<Option<Token>>
    requires |ss| == |es| + 1 && n < |es|
  {
    if Brought(es[n]).Some? then Some(Brought(es[n]).value.access) else if Removes(ss, es, n) then Some(None) else None
  }

  /** And to the stored refresh token, which stays when only an access token was brought. */
  ghost function RefreshWrite(ss: seq<State>, es: seq<Event>, n: nat): Option<Option<Token>>
    requires |ss| == |es| + 1 && n < |es|
  {
    if Brought(es[n]).Some? then
      (if Brought(es[n]).value.refresh.Some? then Some(Brought(es[n]).value.refresh) else None)
    else if Removes(ss, es, n) then Some(None) else None
  }

  lemma BringsTokens(s: State, e: Event)
    requires Enabled(s, e) && Brought(e).Some?
    ensures Step(s, e).access == Brought(e).value.access
    ensures Step(s, e).refresh == if Brought(e).value.refresh.Some? then Brought(e).value.refresh else s.refresh
  {
  }

  lemma TokenWrites(ss: seq<State>, es: seq<Event>, n: nat)
    requires Run(ss, es) && n < |es|
    ensures ss[n + 1].access
            == if AccessWrite(ss, es, n).Some? then AccessWrite(ss, es, n).value else ss[n].access
    ensures ss[n + 1].refresh
            == if RefreshWrite(ss, es, n).Some? then RefreshWrite(ss, es, n).value else ss[n].refresh
  {
    hide Step, Refused;
    if Brought(es[n]).Some? {
      BringsTokens(ss[n], es[n]);
    } else {
      match es[n]
      case Resume(i) => SessionLostIff(ss, es, n, i);
      case CheckSession(i) => SessionCheckIff(ss, es, n, i);
      case RemovedElsewhere => LogoutRemoves(ss[n]);
      case _ => OthersLeaveTokens(ss[n], es[n]);
    }
  }

  lemma LogoutRemoves(s: State)
    ensures Step(s, RemovedElsewhere).access.None? && Step(s, RemovedElsewhere).refresh.None?
  {
  }

  ghost function AccessWrites(ss: seq<State>, es: seq<Event>): seq<Option<Option<Token>>>
    requires |ss| == |es| + 1
  {
    seq(|es|, l requires 0 <= l < |es| => AccessWrite(ss, es, l))
  }

  ghost function RefreshWrites(ss: seq<State>, es: seq<Event>): seq<Option<Option<Token>>>
    requires |ss| == |es| + 1
  {
    seq(|es|, l requires 0 <= l < |es| => RefreshWrite(ss, es, l))
  }

  function AccessValues(ss: seq<State>): seq<Option<Token>> {
    seq(|ss|, l requires 0 <= l < |ss| => ss[l].access)
  }

  lemma AccessWriteAt(ss: seq<State>, es: seq<Event>, l: nat)
    requires Run(ss, es) && l < |es|
    ensures |AccessWrites(ss, es)| == |es| && |AccessValues(ss)| == |es| + 1
    ensures FollowsAt(AccessValues(ss), AccessWrites(ss, es), l)
  {
    hide Step, Enabled, Init, AccessWrite;
    TokenWrites(ss, es, l);
  }

  /** At any time the stored access token is the last one brought since tokens were last removed, or the initial one. */
  lemma AccessIsLatest(ss: seq<State>, es: seq<Event>, n: nat, v: Option<Token>)
    requires Run(ss, es) && n < |ss|
    ensures ss[n].access == v <==> LastWritten(AccessWrites(ss, es), n, ss[0].access, v)
  {
    var values, writes := AccessValues(ss), AccessWrites(ss, es);
    assert |values| == |writes| + 1 && values[n] == ss[n].access && values[0] == ss[0].access;
    hide Run, AccessValues, AccessWrites, LastWritten, FollowsAt;
    forall l | 0 <= l < |writes|
      ensures FollowsAt(values, writes, l)
    {
      AccessWriteAt(ss, es, l);
    }
    HoldsLastWritten(values, writes, n, v);
  }

  function RefreshValues(ss: seq<State>): seq<Option<Token>> {
    seq(|ss|, l requires 0 <= l < |ss| => ss[l].refresh)
  }

  lemma RefreshWriteAt(ss: seq<State>, es: seq<Event>, l: nat)
    requires Run(ss, es) && l < |es|
    ensures |RefreshWrites(ss, es)| == |es| && |RefreshValues(ss)| == |es| + 1
    ensures FollowsAt(RefreshValues(ss), RefreshWrites(ss, es), l)
  {
    hide Step, Enabled, Init, RefreshWrite;
    TokenWrites(ss, es, l);
  }

  /** And so is the stored refresh token, for which a step that brings no refresh token counts for nothing. */
  lemma RefreshIsLatest(ss: seq<State>, es: seq<Event>, n: nat, v: Option<Token>)
    requires Run(ss, es) && n < |ss|
    ensures ss[n].refresh == v <==> LastWritten(RefreshWrites(ss, es), n, ss[0].refresh, v)
  {
    var values, writes := RefreshValues(ss), RefreshWrites(ss, es);
    assert |values| == |writes| + 1 && values[n] == ss[n].refresh && values[0] == ss[0].refresh;
    hide Run, RefreshValues, RefreshWrites, LastWritten, FollowsAt;
    forall l | 0 <= l < |writes|
      ensures FollowsAt(values, writes, l)
    {
      RefreshWriteAt(ss, es, l);
    }
    HoldsLastWritten(values, writes, n, v);
  }

  // ---- how a request is settled ----

  /** The status of the last answer to a fetch of request i among the first n events. */
  function LastStatus(es: seq<Event>, n: nat, i: nat): nat
    requires n <= |es|
  {
    if n == 0 then 0
    else
      match es[n - 1]
      case Response(j, status) => if j == i then status else LastStatus(es, n - 1, i)
      case _ => LastStatus(es, n - 1, i)
  }

  lemma ReadingStatusStep(s: State, e: Event, i: nat)
    requires Enabled(s, e) && i < |Step(s, e).requests| && Step(s, e).requests[i].phase.Reading?
    ensures if e.Response? && e.i == i then Step(s, e).requests[i].phase.status == e.status
            else i < |s.requests| && s.requests[i].phase == Step(s, e).requests[i].phase
  {
    if e.Response? && e.i == i {
      hide IsAuthEndpoint, HandleRefresh;
      HandleRefreshReadsNothing(s, i);
    } else if Targets(e, i) {
      hide HandleResponse, IsAuthEndpoint;
      NoReading(s, e, i);
    } else {
      hide Step;
      OtherRows(s, e, i);
    }
  }

  lemma HandleRefreshReadsNothing(s: State, i: nat)
    requires i < |s.requests| && |s.requests[i].sends| > 0
    ensures i < |HandleRefresh(s, i).requests| && !HandleRefresh(s, i).requests[i].phase.Reading?
  {
    hide RefreshAccessToken;
    RefreshPhase(s, i);
  }

  lemma NoReading(s: State, e: Event, i: nat)
    requires Enabled(s, e) && Targets(e, i) && !e.Response?
    ensures i < |Step(s, e).requests| && !Step(s, e).requests[i].phase.Reading?
  {
    hide HandleResponse, ResumeAfterRefresh, Settle;
    match e
    case ResponseLost(_) => SettleRow(s, i, NetworkError);
    case Body(_, json) =>
      var status := s.requests[i].phase.status;
      SettleRow(s, i, if Ok(status) then Resolved(json) else HttpError(status));
    case Resume(_) => ResumePast(s, i);
  }

  lemma {:induction false} ReadingStatus(ss: seq<State>, es: seq<Event>, n: nat, i: nat)
    requires Run(ss, es) && n < |ss| && i < |ss[n].requests| && ss[n].requests[i].phase.Reading?
    ensures ss[n].requests[i].phase.status == LastStatus(es, n, i)
  {
    hide Step, Enabled;
    ReadingStatusStep(ss[n - 1], es[n - 1], i);
    if !(es[n - 1].Response? && es[n - 1].i == i) {
      ReadingStatus(ss, es, n - 1, i);
    }
  }

  /** The outcome step n gives to request i, if it settles it. */
  ghost function Settles(ss: seq<State>, es: seq<Event>, n: nat, i: nat): Option<Outcome>
    requires |ss| == |es| + 1 && n < |es|
  {
    match es[n]
    case Response(j, 204) => if j == i then Some(Resolved(Null)) else None
    case ResponseLost(j) => if j == i then Some(NetworkError) else None
    case Body(j, json) =>
      if j != i then None
      else if 200 <= LastStatus(es, n, i) < 300 then Some(Resolved(json)) else Some(HttpError(LastStatus(es, n, i)))
    case Resume(j) =>
      if j != i then None
      else if Refused(ss, es, n, i) then Some(SessionLost)
      else if RefreshFellThrough(ss, es, n, i) then Some(RefreshFailed) else None
    case _ => None
  }

  /** The refresh request i waits for in state n had failed without a refusal. */
  ghost predicate RefreshFellThrough(ss: seq<State>, es: seq<Event>, n: nat, i: nat)
    requires |ss| == |es| + 1 && n <= |es|
  {
    i < |ss[n].requests| && ss[n].requests[i].phase.Waiting?
    && exists j | 0 <= j < n :: Verdict(es[j], ss[n].requests[i].phase.refresh) == Some(Failed)
  }

  lemma SettlesByResponse(s: State, i: nat, status: nat, o: Outcome)
    requires Enabled(s, Response(i, status))
    ensures var s' := Step(s, Response(i, status));
      i < |s'.requests| && (s'.requests[i].phase == Settled(o) <==> status == 204 && o == Resolved(Null))
  {
    hide IsAuthEndpoint, HandleRefresh;
    HandleRefreshFacts(s, i);
  }

  lemma SettlesByBody(s: State, i: nat, json: Json, o: Outcome)
    requires Enabled(s, Body(i, json))
    ensures var s', status := Step(s, Body(i, json)), s.requests[i].phase.status;
      i < |s'.requests|
      && (s'.requests[i].phase == Settled(o)
          <==> o == if 200 <= status < 300 then Resolved(json) else HttpError(status))
  {
  }

  lemma SettlesByLoss(s: State, i: nat, o: Outcome)
    requires Enabled(s, ResponseLost(i))
    ensures var s' := Step(s, ResponseLost(i));
      i < |s'.requests| && (s'.requests[i].phase == Settled(o) <==> o == NetworkError)
  {
  }

  lemma SettlesByResume(s: State, i: nat, o: Outcome)
    requires Enabled(s, Resume(i))
    ensures var s' := Step(s, Resume(i));
      i < |s'.requests|
      && (s'.requests[i].phase == Settled(o)
          <==> (o == SessionLost && ResultOf(s, i) == Lost) || (o == RefreshFailed && ResultOf(s, i) == Failed))
  {
    hide Settle;
    SettleRow(s, i, RefreshFailed);
    SettleRow(RedirectToLogin(ClearTokens(s)), i, SessionLost);
  }

  lemma ResumeFailedIff(ss: seq<State>, es: seq<Event>, n: nat, i: nat)
    requires Run(ss, es) && n < |es| && es[n] == Resume(i)
    ensures ResultOf(ss[n], i) == Failed <==> RefreshFellThrough(ss, es, n, i)
    ensures ResultOf(ss[n], i) == Lost <==> Refused(ss, es, n, i)
  {
    hide Step, Refused;
    if ResultOf(ss[n], i) == Lost {
      ResumeLostIsRefused(ss, es, n, i);
    }
    if Refused(ss, es, n, i) {
      RefusedIsLost(ss, es, n, i);
    }
    if ss[n].requests[i].phase.Waiting? {
      RefreshEndsIff(ss, es, n, ss[n].requests[i].phase.refresh, Failed);
    }
  }

  lemma SettlesAt(ss: seq<State>, es: seq<Event>, n: nat, i: nat, o: Outcome)
    requires Run(ss, es) && n < |es| && i < |ss[n].requests| && !ss[n].requests[i].phase.Settled?
    ensures i < |ss[n + 1].requests|
    ensures ss[n + 1].requests[i].phase == Settled(o) <==> Settles(ss, es, n, i) == Some(o)
  {
    hide Step, Refused, RefreshFellThrough;
    if !Targets(es[n], i) {
      RequestsLaterStep(ss[n], es[n]);
      OtherRows(ss[n], es[n], i);
    } else {
      match es[n]
      case Response(_, status) => SettlesByResponse(ss[n], i, status, o);
      case ResponseLost(_) => SettlesByLoss(ss[n], i, o);
      case Body(_, json) =>
        SettlesByBody(ss[n], i, json, o);
        ReadingStatus(ss, es, n, i);
      case Resume(_) =>
        SettlesByResume(ss[n], i, o);
        ResumeFailedIff(ss, es, n, i);
    }
  }

  /** A request has outcome o if and only if some step of the run gave it o: a call resolves with the body of its
      last answer if the status was 2xx (with null for 204) and else is rejected with that status, is rejected without a
      status when the connection or the refresh failed, and as session lost when the refresh was refused. */
  lemma {:induction false} SettledIff(ss: seq<State>, es: seq<Event>, n: nat, i: nat, o: Outcome)
    requires Run(ss, es) && n < |ss| && i < |ss[n].requests|
    ensures ss[n].requests[i].phase == Settled(o) <==> exists j | 0 <= j < n :: SettledAt(ss, es, j, i, o)
  {
    hide Step, Enabled, Settles;
    if n > 0 {
      if i < |ss[n - 1].requests| {
        SettledIff(ss, es, n - 1, i, o);
        LaterAlways(ss, es, n - 1, n);
        assert RequestLater(ss[n - 1].requests[i], ss[n].requests[i]);
        if !ss[n - 1].requests[i].phase.Settled? {
          SettlesAt(ss, es, n - 1, i, o);
        }
        assert SettledAt(ss, es, n - 1, i, o) <==>
            !ss[n - 1].requests[i].phase.Settled? && ss[n].requests[i].phase == Settled(o);
      } else {
        NotYetMade(ss, es, n - 1, i);
        NewIsUnsettled(ss[n - 1], es[n - 1], i);
      }
    }
  }

  /** Step j finds request i unsettled and gives it outcome o. */
  ghost predicate SettledAt(ss: seq<State>, es: seq<Event>, j: nat, i: nat, o: Outcome)
    requires |ss| == |es| + 1 && j < |es|
  {
    i < |ss[j].requests| && !ss[j].requests[i].phase.Settled? && Settles(ss, es, j, i) == Some(o)
  }

  lemma NotYetMade(ss: seq<State>, es: seq<Event>, n: nat, i: nat)
    requires Run(ss, es) && n < |ss| && i >= |ss[n].requests|
    ensures forall j | 0 <= j <= n :: i >= |ss[j].requests|
  {
    hide Step, Enabled;
    forall j | 0 <= j <= n
      ensures i >= |ss[j].requests|
    {
      LaterAlways(ss, es, j, n);
    }
  }

  lemma NewIsUnsettled(s: State, e: Event, i: nat)
    requires Enabled(s, e) && |s.requests| <= i < |Step(s, e).requests|
    ensures !Step(s, e).requests[i].phase.Settled?
  {
    hide Step;
    if !Targets(e, i) {
      OtherRows(s, e, i);
    }
  }

  // ---- auth endpoints ----

  lemma {:induction false} ContainsIff(s: string, sub: string)
    ensures Contains(s, sub) <==> exists i | 0 <= i <= |s| :: sub <= s[i..]
  {
    if sub <= s {
      assert s[0..] == s;
    } else if s != [] {
      ContainsIff(s[1..], sub);
      if i :| 0 <= i <= |s[1..]| && sub <= s[1..][i..] {
        assert s[1..][i..] == s[i + 1..];
      }
      if i :| 0 <= i <= |s| && sub <= s[i..] {
        assert i > 0 && s[i..] == s[1..][i - 1..];
      }
    }
  }

  /** The text at i is one of the three patterns. */
  predicate AuthPathAt(url: string, i: nat)
    requires i <= |url|
  {
    "/auth/login" <= url[i..] || "/auth/refresh" <= url[i..] || "/auth/password-reset" <= url[i..]
  }

  lemma AuthEndpointIff(url: string)
    ensures IsAuthEndpoint(url) <==> exists i | 0 <= i <= |url| :: AuthPathAt(url, i)
  {
    ContainsIff(url, "/auth/login");
    ContainsIff(url, "/auth/refresh");
    ContainsIff(url, "/auth/password-reset");
    hide Contains;
    if i :| 0 <= i <= |url| && "/auth/login" <= url[i..] {
      assert AuthPathAt(url, i);
    }
    if i :| 0 <= i <= |url| && "/auth/refresh" <= url[i..] {
      assert AuthPathAt(url, i);
    }
    if i :| 0 <= i <= |url| && "/auth/password-reset" <= url[i..] {
      assert AuthPathAt(url, i);
    }
  }

  /** A first 401 goes straight to its body, starting and ending nothing, if and only if the URL holds one of the
      three paths; anywhere else it replays, refreshes, or is refused for want of a refresh token. */
  lemma AuthRefusalIsPlainIff(ss: seq<State>, es: seq<Event>, n: nat, i: nat)
    requires Run(ss, es) && n < |es| && es[n] == Response(i, 401) && |ss[n].requests[i].sends| == 1
    ensures ss[n + 1] == SetPhase(ss[n], i, Reading(401, false)) <==>
      exists p | 0 <= p <= |ss[n].requests[i].url| :: AuthPathAt(ss[n].requests[i].url, p)
  {
    AuthEndpointIff(ss[n].requests[i].url);
    InvAlways(ss, es, n);
    hide IsAuthEndpoint, HandleRefresh;
    assert RequestOk(ss[n], ss[n].requests[i]);
    HandleRefreshReadsNothing(ss[n], i);
  }

  /** A first 401 is replayed at once if and only if a token is stored, the request carried one, and they differ; the
      replay carries the stored one. In particular a request sent without a token never is. */
  lemma ReplayedAtOnceIff(ss: seq<State>, es: seq<Event>, n: nat, i: nat)
    requires Run(ss, es) && n < |es| && es[n] == Response(i, 401)
    requires |ss[n].requests[i].sends| == 1 && !IsAuthEndpoint(ss[n].requests[i].url)
    ensures var used, r' := ss[n].requests[i].sends[0], ss[n + 1].requests[i];
      if used.Some? && ss[n].access.Some? && used != ss[n].access
      then r'.sends == [used, ss[n].access] && r'.phase == Sent(true)
      else r'.sends == [used] && (r'.phase.Waiting? || r'.phase.Unauthorized?)
  {
    InvAlways(ss, es, n);
    hide IsAuthEndpoint, RefreshAccessToken;
    assert RequestOk(ss[n], ss[n].requests[i]);
    var used := ss[n].requests[i].sends[0];
    assert [used] + [ss[n].access] == [used, ss[n].access];
    RefreshPhase(ss[n], i);
    RefreshAccessTokenFacts(ss[n], i);
  }

  // ---- the network is free to do anything ----

  /** In every state of every run, whatever is still to be answered can be answered in every way. */
  lemma EveryAnswerIsPossible(ss: seq<State>, es: seq<Event>, n: nat)
    requires Run(ss, es) && n < |ss|
    ensures var s := ss[n]; forall i | 0 <= i < |s.requests| ::
      && (s.requests[i].phase.Sent? ==>
            Enabled(s, ResponseLost(i)) && forall status: nat :: Enabled(s, Response(i, status)))
      && (s.requests[i].phase.Reading? ==> forall json :: Enabled(s, Body(i, json)))
    ensures var s := ss[n]; forall k | 0 <= k < |s.refreshes| ::
      && (s.refreshes[k].stage.Posted? ==>
            Enabled(s, RefreshLost(k)) && forall status: nat :: Enabled(s, RefreshResponse(k, status)))
      && (s.refreshes[k].stage.ReadingBody? ==> forall data :: Enabled(s, RefreshBody(k, data)))
  {
    InvAlways(ss, es, n);
    hide Step, Init;
    forall i | 0 <= i < |ss[n].requests|
      ensures |ss[n].requests[i].sends| > 0
    {
      SentAtLeastOnce(ss[n], i);
    }
  }

  lemma SentAtLeastOnce(s: State, i: nat)
    requires Inv(s) && i < |s.requests|
    ensures |s.requests[i].sends| > 0
  {
    assert RequestOk(s, s.requests[i]);
  }

  // ---- the clock ----

  function ClockWrite(e: Event): Option<int> { if e.Clock? then Some(e.ms) else None }

  function ClockWrites(es: seq<Event>): seq<Option<int>> {
    seq(|es|, l requires 0 <= l < |es| => ClockWrite(es[l]))
  }

  lemma ClockStep(s: State, e: Event)
    requires Enabled(s, e)
    ensures Step(s, e).now == if e.Clock? then e.ms else s.now
  {
    hide HandleResponse, ResumeAfterRefresh, Settle, IsAuthEndpoint;
    match e
    case Response(i, status) => ResponseKeepsClock(s, i, status);
    case ResponseLost(i) => SettleKeepsClock(s, i, NetworkError);
    case Body(i, json) =>
      var status := s.requests[i].phase.status;
      SettleKeepsClock(s, i, if Ok(status) then Resolved(json) else HttpError(status));
    case Resume(i) => ResumeKeepsClock(s, i);
    case _ =>
  }

  lemma SettleKeepsClock(s: State, i: nat, o: Outcome)
    requires i < |s.requests|
    ensures Settle(s, i, o).now == s.now
  {
  }

  lemma ResumeKeepsClock(s: State, i: nat)
    requires i < |s.requests|
    ensures ResumeAfterRefresh(s, i).now == s.now
  {
  }

  lemma ResponseKeepsClock(s: State, i: nat, status: nat)
    requires Enabled(s, Response(i, status))
    ensures HandleResponse(s, i, status).now == s.now
  {
    hide IsAuthEndpoint;
  }

  /** `now` is what the clock last read. */
  lemma NowIsLatest(ss: seq<State>, es: seq<Event>, n: nat, v: int)
    requires Run(ss, es) && n < |ss|
    ensures ss[n].now == v <==> LastWritten(ClockWrites(es), n, ss[0].now, v)
  {
    var values, writes := seq(|ss|, l requires 0 <= l < |ss| => ss[l].now), ClockWrites(es);
    hide Step, Enabled, Init, LastWritten;
    forall l | 0 <= l < |writes|
      ensures FollowsAt(values, writes, l)
    {
      ClockStep(ss[l], es[l]);
    }
    HoldsLastWritten(values, writes, n, v);
  }
}
