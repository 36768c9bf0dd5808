/** What can end a session, and that every request's chain of fetches ends. */
module ApiSurvival {
  import opened Prelude
  import opened ApiModel
  import opened ApiInvariants

  // ---- where a refusal comes from ----

  /** The refresh of request i was refused before step n: there was no refresh token when its 401 was handled,
      or the refresh it waited for was answered 401 or 403. */
  ghost predicate Refused(ss: seq<State>, es: seq<Event>, n: nat, i: nat)
    requires |ss| == |es| + 1 && n <= |es|
  {
    || (exists j | 0 <= j < n :: es[j] == Response(i, 401) && ss[j].refresh.None? && ss[j].refreshInFlight.None?)
    || (exists j | 0 <= j < n ::
          && es[j].RefreshResponse? && es[j].status in {401, 403}
          && i < |ss[n].requests| && ss[n].requests[i].phase == Waiting(es[j].k))
  }

  predicate IsLost(st: Stage) { st == Settling(Lost) || st == Finished(Lost) }

  lemma RefreshEventLost(s: State, e: Event, k: nat)
    requires Enabled(s, e) && RefreshEvent(e) && k < |Step(s, e).refreshes|
    requires IsLost(Step(s, e).refreshes[k].stage)
    ensures k < |s.refreshes|
    ensures IsLost(s.refreshes[k].stage) || e == RefreshResponse(k, 401) || e == RefreshResponse(k, 403)
  {
  }

  lemma LostStep(s: State, e: Event, k: nat)
    requires Enabled(s, e) && k < |Step(s, e).refreshes| && IsLost(Step(s, e).refreshes[k].stage)
    ensures (k < |s.refreshes| && IsLost(s.refreshes[k].stage))
            || e == RefreshResponse(k, 401) || e == RefreshResponse(k, 403)
  {
    hide HandleResponse;
    if RefreshEvent(e) {
      RefreshEventLost(s, e, k);
    } else if e.Response? {
      ResponseRefreshes(s, e.i, e.status);
    } else {
      hide Step;
      OthersLeaveRefreshes(s, e);
    }
  }

  lemma {:induction false} LostWasAnswered(ss: seq<State>, es: seq<Event>, n: nat, k: nat) returns (j: nat)
    requires Run(ss, es) && n < |ss| && k < |ss[n].refreshes| && IsLost(ss[n].refreshes[k].stage)
    ensures j < n && (es[j] == RefreshResponse(k, 401) || es[j] == RefreshResponse(k, 403))
  {
    hide Step, Enabled;
    LostStep(ss[n - 1], es[n - 1], k);
    if es[n - 1] == RefreshResponse(k, 401) || es[n - 1] == RefreshResponse(k, 403) {
      j := n - 1;
    } else {
      j := LostWasAnswered(ss, es, n - 1, k);
    }
  }

  /** Where an event takes the row it is about. */
  lemma TargetPhase(s: State, e: Event, i: nat)
    requires Enabled(s, e) && Targets(e, i)
    ensures i < |Step(s, e).requests| && i < |s.requests|
    ensures var p := Step(s, e).requests[i].phase;
      match e
      case Response(_, status) =>
        || p == Settled(Resolved(Null)) || p.Reading?
        || (status == 401 && (p == Sent(true) || p.Waiting?
                              || (p.Unauthorized? && s.refresh.None? && s.refreshInFlight.None?)))
      case Resume(_) => p == Settled(SessionLost) ==> ResultOf(s, i) == Lost
      case _ => p.Settled? && p != Settled(SessionLost)
    ensures e.Resume? ==> !Step(s, e).requests[i].phase.Unauthorized?
  {
    hide HandleResponse, IsAuthEndpoint;
    if e.Response? {
      ResponseRow(s, i, e.status);
      ResponsePhase(s, i, e.status);
    }
  }

  lemma UnauthorizedStep(s: State, e: Event, i: nat)
    requires Enabled(s, e) && i < |Step(s, e).requests| && Step(s, e).requests[i].phase.Unauthorized?
    ensures (i < |s.requests| && s.requests[i].phase.Unauthorized?)
            || (e == Response(i, 401) && s.refresh.None? && s.refreshInFlight.None?)
  {
    hide Step, Enabled;
    if Targets(e, i) {
      TargetPhase(s, e, i);
    } else {
      OtherRows(s, e, i);
    }
  }

  lemma {:induction false} UnauthorizedHadNoRefresh(ss: seq<State>, es: seq<Event>, n: nat, i: nat) returns (j: nat)
    requires Run(ss, es) && n < |ss| && i < |ss[n].requests| && ss[n].requests[i].phase.Unauthorized?
    ensures j < n && es[j] == Response(i, 401) && ss[j].refresh.None? && ss[j].refreshInFlight.None?
  {
    hide Step, Enabled;
    UnauthorizedStep(ss[n - 1], es[n - 1], i);
    if es[n - 1] == Response(i, 401) && ss[n - 1].refresh.None? && ss[n - 1].refreshInFlight.None? {
      j := n - 1;
    } else {
      j := UnauthorizedHadNoRefresh(ss, es, n - 1, i);
    }
  }

  lemma SettledLostStep(s: State, e: Event, i: nat)
    requires Enabled(s, e) && i < |Step(s, e).requests| && Step(s, e).requests[i].phase == Settled(SessionLost)
    ensures (i < |s.requests| && s.requests[i].phase == Settled(SessionLost))
            || (e == Resume(i) && i < |s.requests| && ResultOf(s, i) == Lost)
  {
    hide Step, Enabled;
    if Targets(e, i) {
      TargetPhase(s, e, i);
    } else {
      OtherRows(s, e, i);
    }
  }

  lemma {:induction false} SettledLostResumed(ss: seq<State>, es: seq<Event>, n: nat, i: nat) returns (j: nat)
    requires Run(ss, es) && n < |ss| && i < |ss[n].requests| && ss[n].requests[i].phase == Settled(SessionLost)
    ensures j < n && es[j] == Resume(i) && i < |ss[j].requests| && ResultOf(ss[j], i) == Lost
  {
    hide Step;
    SettledLostStep(ss[n - 1], es[n - 1], i);
    if es[n - 1] == Resume(i) && ResultOf(ss[n - 1], i) == Lost {
      j := n - 1;
    } else {
      j := SettledLostResumed(ss, es, n - 1, i);
    }
  }

  lemma ResumeLostIsRefused(ss: seq<State>, es: seq<Event>, n: nat, i: nat)
    requires Run(ss, es) && n < |es| && es[n] == Resume(i) && ResultOf(ss[n], i) == Lost
    ensures Refused(ss, es, n, i)
  {
    hide Step;
    match ss[n].requests[i].phase
    case Waiting(k) => var j := LostWasAnswered(ss, es, n, k);
    case Unauthorized => var j := UnauthorizedHadNoRefresh(ss, es, n, i);
  }

  // ---- only a refusal ends a session ----

  /** The events that can store or drop a token or leave the page. */
  predicate MovesTokens(s: State, e: Event)
    requires Enabled(s, e)
  {
    match e
    case RefreshBody(_, data) => data.Some? && data.value.access.Some?
    case StoredElsewhere(_, _) => true
    case RemovedElsewhere => true
    case Resume(i) => ResultOf(s, i) == Lost
    case CheckSession(i) => CheckFails(s, s.requests[i].phase.outcome)
    case _ => false
  }

  /** Everything else, be it any response to any request, a failed or unreadable refresh or a failed replay,
      leaves both tokens as they were and the page where it is. */
  lemma OthersLeaveTokens(s: State, e: Event)
    requires Enabled(s, e) && !MovesTokens(s, e)
    ensures Step(s, e).access == s.access && Step(s, e).refresh == s.refresh && Step(s, e).redirects == s.redirects
  {
    hide IsAuthEndpoint, HandleResponse;
    if e.Response? {
      ResponseIssuesNothing(s, e.i, e.status);
    }
  }

  /** Step n takes a token away or redirects to the login page. */
  predicate EndsSession(s: State, s': State) {
    || (s.access.Some? && s'.access.None?)
    || (s.refresh.Some? && s'.refresh.None?)
    || s'.redirects != s.redirects
  }

  lemma EndsSessionStep(s: State, e: Event)
    requires Enabled(s, e) && EndsSession(s, Step(s, e))
    ensures e.RemovedElsewhere? || (e.Resume? && ResultOf(s, e.i) == Lost)
            || (e.CheckSession? && CheckFails(s, s.requests[e.i].phase.outcome))
  {
    if !MovesTokens(s, e) {
      hide Step;
      OthersLeaveTokens(s, e);
    } else {
      hide ResumeAfterRefresh, SessionCheck;
    }
  }

  /** In every run, tokens disappear or the page redirects only by a logout, after a refused refresh, or when
      safeInit finds the tokens gone, a 401 that survived the replay, or a refusal api.js already acted on. */
  lemma SessionEndsOnlyWhenRefused(ss: seq<State>, es: seq<Event>, n: nat)
    requires Run(ss, es) && n < |es| && EndsSession(ss[n], ss[n + 1])
    ensures
      || es[n].RemovedElsewhere?
      || (es[n].Resume? && Refused(ss, es, n, es[n].i))
      || (es[n].CheckSession? &&
            (|| ss[n].access.None?
             || (ss[n].requests[es[n].i].phase == Settled(HttpError(401)) && |ss[n].requests[es[n].i].sends| == 2)
             || (exists j | 0 <= j < n :: es[j] == Resume(es[n].i) && Refused(ss, es, j, es[n].i))))
  {
    hide Step;
    EndsSessionStep(ss[n], es[n]);
    match es[n]
    case Resume(i) => ResumeLostIsRefused(ss, es, n, i);
    case CheckSession(i) =>
      InvAlways(ss, es, n);
      assert RequestOk(ss[n], ss[n].requests[i]);
      if ss[n].requests[i].phase == Settled(SessionLost) {
        var j := SettledLostResumed(ss, es, n, i);
        ResumeLostIsRefused(ss, es, j, i);
      }
    case _ =>
  }

  /** A refused refresh does end the session: both tokens go, and the page leaves unless it is the login page. */
  lemma RefusalEndsSession(ss: seq<State>, es: seq<Event>, n: nat, i: nat)
    requires Run(ss, es) && n < |es| && es[n] == Resume(i) && ResultOf(ss[n], i) == Lost
    ensures ss[n + 1].access.None? && ss[n + 1].refresh.None?
    ensures ss[n + 1].redirects == ss[n].redirects + (if ss[n].onLogin then 0 else 1)
    ensures ss[n + 1].requests[i].phase == Settled(SessionLost)
  {
    assert ss[n + 1] == ResumeAfterRefresh(ss[n], i);
  }

  // ---- transient failures never end a session ----

  /** Anything but a logout, a refused refresh, or a session check that sees a 401 on the replayed /auth/me. */
  ghost predicate Transient(s: State, e: Event) {
    match e
    case RemovedElsewhere => false
    case RefreshResponse(_, status) => status != 401 && status != 403
    case CheckSession(i) => i < |s.requests| ==> s.requests[i].phase != Settled(HttpError(401))
    case _ => true
  }

  ghost predicate Calm(s: State) {
    && s.access.Some? && s.refresh.Some?
    && (forall k | 0 <= k < |s.refreshes| :: !IsLost(s.refreshes[k].stage))
    && (forall i | 0 <= i < |s.requests| :: CalmRequest(s.requests[i]))
  }

  predicate CalmRequest(r: Request) {
    !r.phase.Unauthorized? && r.phase != Settled(SessionLost)
  }

  lemma CalmRequestStep(s: State, e: Event, i: nat)
    requires Enabled(s, e) && Calm(s) && Transient(s, e) && Targets(e, i)
    ensures CalmRequest(Step(s, e).requests[i])
  {
    TargetPhase(s, e, i);
    if e.Resume? {
      CalmResult(s, i);
    }
    hide Step;
  }

  lemma CalmResult(s: State, i: nat)
    requires Calm(s) && Enabled(s, Resume(i))
    ensures ResultOf(s, i) != Lost
  {
  }

  lemma CalmRefreshStep(s: State, e: Event)
    requires Enabled(s, e) && Calm(s) && Transient(s, e)
    ensures forall k | 0 <= k < |Step(s, e).refreshes| :: !IsLost(Step(s, e).refreshes[k].stage)
  {
    forall k | 0 <= k < |Step(s, e).refreshes|
      ensures !IsLost(Step(s, e).refreshes[k].stage)
    {
      if IsLost(Step(s, e).refreshes[k].stage) {
        LostStep(s, e, k);
      }
    }
  }

  lemma CalmTokens(s: State, e: Event)
    requires Enabled(s, e) && Calm(s) && Transient(s, e)
    ensures Step(s, e).access.Some? && Step(s, e).refresh.Some? && Step(s, e).redirects == s.redirects
  {
    if EndsSession(s, Step(s, e)) {
      EndsSessionStep(s, e);
    }
  }

  lemma CalmStep(s: State, e: Event)
    requires Enabled(s, e) && Calm(s) && Transient(s, e)
    ensures Calm(Step(s, e)) && Step(s, e).redirects == s.redirects
  {
    CalmTokens(s, e);
    CalmRefreshStep(s, e);
    forall i | 0 <= i < |Step(s, e).requests|
      ensures CalmRequest(Step(s, e).requests[i])
    {
      if Targets(e, i) {
        CalmRequestStep(s, e, i);
      } else {
        OtherRows(s, e, i);
      }
    }
  }

  /** Whatever 5xx, 429, dropped or unreadable answers a run contains, in any order, both tokens stay
      and the page never redirects. */
  lemma {:induction false} TransientRunKeepsSession(ss: seq<State>, es: seq<Event>, n: nat)
    requires Run(ss, es) && n < |ss| && ss[0].access.Some? && ss[0].refresh.Some?
    requires forall j {:trigger es[j]} | 0 <= j < n :: Transient(ss[j], es[j])
    ensures Calm(ss[n]) && ss[n].redirects == ss[0].redirects
  {
    hide Step, Enabled;
    if n > 0 {
      TransientRunKeepsSession(ss, es, n - 1);
      CalmStep(ss[n - 1], es[n - 1]);
    }
  }
}
