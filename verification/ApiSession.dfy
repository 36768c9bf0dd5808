/** The token protocol over every interleaving: one refresh at a time, at most one successful
    refresh per expired token, and sessions that only a refusal can end. */
module ApiSession {
  import opened Prelude
  import opened ApiModel
  import opened ApiInvariants

  // ---- one POST /auth/refresh at a time ----

  lemma AtMostOneRefreshOutstanding(ss: seq<State>, es: seq<Event>, n: nat, k1: nat, k2: nat)
    requires Run(ss, es) && n < |ss|
    requires k1 < |ss[n].refreshes| && k2 < |ss[n].refreshes|
    requires Open(ss[n].refreshes[k1]) && Open(ss[n].refreshes[k2])
    ensures k1 == k2 && ss[n].refreshInFlight == Some(k1)
  {
    InvAlways(ss, es, n);
  }

  // ---- at most one successful refresh per token ----

  /** The server (and every other tab) never hands out an access token seen before. */
  ghost predicate FreshEvent(s: State, e: Event) {
    match e
    case RefreshBody(_, Some(Minted(Some(t), _))) => t !in s.issued
    case StoredElsewhere(t, _) => t !in s.issued
    case _ => true
  }

  ghost predicate DistinctTokens(ss: seq<State>, es: seq<Event>)
    requires |ss| == |es| + 1
  {
    forall n | 0 <= n < |es| :: FreshEvent(ss[n], es[n])
  }

  /** The token whose 401 made request `starter` start refresh k. */
  function Carrier(s: State, k: nat): Option<Token>
    requires k < |s.refreshes|
  {
    var i := s.refreshes[k].starter;
    if i < |s.requests| && |s.requests[i].sends| > 0 then s.requests[i].sends[0] else None
  }

  /** Once a refresh for token t has succeeded, t is no longer stored and no older refresh for t succeeded. */
  ghost predicate Once(s: State) {
    && (forall k | 0 <= k < |s.refreshes| && Stored(s.refreshes[k]).Some? && Carrier(s, k).Some? ::
          s.access != Carrier(s, k))
    && (forall k1, k2 | 0 <= k1 < k2 < |s.refreshes| && Carrier(s, k1).Some? && Carrier(s, k1) == Carrier(s, k2) ::
          Stored(s.refreshes[k1]).None?)
  }

  predicate NewToken(s: State, s': State) { s'.access.Some? && s'.access.value !in s.issued }

  /** How one step can touch what Once speaks of. */
  ghost predicate TokenShape(s: State, s': State) {
    && (s'.access == s.access || s'.access.None? || NewToken(s, s'))
    && |s.refreshes| <= |s'.refreshes| <= |s.refreshes| + 1
    && (forall k | 0 <= k < |s.refreshes| ::
          Stored(s'.refreshes[k]) == Stored(s.refreshes[k]) || (k == |s.refreshes| - 1 && NewToken(s, s')))
    && (|s'.refreshes| > |s.refreshes| ==>
          s'.access == s.access && s'.refreshes[|s.refreshes|].stage.Posted?
          && (s.access.None? ==> s.refresh.Some?)
          && (Carrier(s', |s.refreshes|).None? || s.access.None? || Carrier(s', |s.refreshes|) == s.access))
  }

  /** A step that leaves tokens alone and at most starts a refresh for request i has the shape. */
  lemma StarterSpeaksTrue(s: State, s': State, i: nat)
    requires i < |s.requests| && |s.requests[i].sends| > 0 && SameButRow(s, s', i)
    requires s.requests[i].sends <= s'.requests[i].sends
    requires s'.refreshes == s.refreshes
      || (s'.refreshes == s.refreshes + [Refresh(i, Posted)] && s.refresh.Some?
          && (s.access.None? || s.requests[i].sends[0].None? || s.access == s.requests[i].sends[0]))
    ensures TokenShape(s, s')
  {
  }

  lemma ResponseTokenShape(s: State, i: nat, status: nat)
    requires Inv(s) && Enabled(s, Response(i, status))
    ensures TokenShape(s, HandleResponse(s, i, status))
  {
    hide HandleResponse, Inv;
    ResponseFacts(s, i, status);
    StarterSpeaksTrue(s, HandleResponse(s, i, status), i);
  }

  lemma ResponseIsHandled(s: State, i: nat, status: nat)
    requires Enabled(s, Response(i, status))
    ensures Step(s, Response(i, status)) == HandleResponse(s, i, status)
  {
  }

  lemma RequestsLeaveAccess(s: State, e: Event)
    requires Enabled(s, e) && RequestEvent(e) && !e.Response?
    ensures Step(s, e).access == s.access || Step(s, e).access.None?
  {
    hide IsAuthEndpoint;
  }

  lemma RequestTokenShape(s: State, e: Event)
    requires Inv(s) && Enabled(s, e) && RequestEvent(e)
    ensures TokenShape(s, Step(s, e))
  {
    hide Step, Inv;
    if e.Response? {
      ResponseIsHandled(s, e.i, e.status);
      ResponseTokenShape(s, e.i, e.status);
    } else {
      OthersLeaveRefreshes(s, e);
      RequestsLeaveAccess(s, e);
    }
  }

  lemma OtherTokenShape(s: State, e: Event)
    requires Inv(s) && Enabled(s, e) && FreshEvent(s, e) && !RequestEvent(e)
    ensures TokenShape(s, Step(s, e))
  {
  }

  lemma CarrierStays(s: State, s': State, k: nat)
    requires Inv(s) && Later(s, s') && k < |s.refreshes|
    ensures Carrier(s', k) == Carrier(s, k) && Known(s, Carrier(s, k))
  {
  }

  lemma OnceFrame(s: State, s': State)
    requires Once(s) && TokenShape(s, s')
    requires Known(s, s.access) && (s.access.None? && s.refresh.Some? ==> s.issued == {})
    requires forall k | 0 <= k < |s.refreshes| :: Carrier(s', k) == Carrier(s, k) && Known(s, Carrier(s, k))
    ensures Once(s')
  {
  }

  lemma OnceStep(s: State, s': State)
    requires Inv(s) && Later(s, s') && TokenShape(s, s') && Once(s)
    ensures Once(s')
  {
    forall k | 0 <= k < |s.refreshes|
      ensures Carrier(s', k) == Carrier(s, k) && Known(s, Carrier(s, k))
    {
      CarrierStays(s, s', k);
    }
    OnceFrame(s, s');
  }

  lemma OnceEvent(s: State, e: Event)
    requires Inv(s) && Once(s) && Enabled(s, e) && FreshEvent(s, e)
    ensures Once(Step(s, e))
  {
    LaterStep(s, e);
    if RequestEvent(e) {
      RequestTokenShape(s, e);
    } else {
      OtherTokenShape(s, e);
    }
    OnceStep(s, Step(s, e));
  }

  lemma {:induction false} OnceAlways(ss: seq<State>, es: seq<Event>, n: nat)
    requires Run(ss, es) && DistinctTokens(ss, es) && n < |ss|
    ensures Once(ss[n])
  {
    hide Step, Enabled;
    if n > 0 {
      OnceAlways(ss, es, n - 1);
      InvAlways(ss, es, n - 1);
      OnceEvent(ss[n - 1], es[n - 1]);
    }
  }

  /** However many requests 401 on one access token, their 401s bring about at most one successful refresh. */
  lemma OneSuccessfulRefreshPerToken(ss: seq<State>, es: seq<Event>, n: nat)
    requires Run(ss, es) && DistinctTokens(ss, es) && n < |ss|
    ensures forall k1, k2 |
        && 0 <= k1 < |ss[n].refreshes| && 0 <= k2 < |ss[n].refreshes|
        && Stored(ss[n].refreshes[k1]).Some? && Stored(ss[n].refreshes[k2]).Some?
        && Carrier(ss[n], k1).Some? && Carrier(ss[n], k1) == Carrier(ss[n], k2) :: k1 == k2
  {
    OnceAlways(ss, es, n);
  }

  // ---- which token a replay carries ----

  /** Request i, sent with `used` and attached to refresh k: it either still waits, or refresh k is over and
      i was replayed with k's token, or failed with k. */
  ghost predicate Follows(s: State, i: nat, k: nat, used: Option<Token>) {
    && i < |s.requests| && k < |s.refreshes|
    && var r := s.requests[i];
       || (r.sends == [used] && r.phase == Waiting(k))
       || (s.refreshes[k].stage.Finished? && Stored(s.refreshes[k]).Some? && r.sends == [used, Stored(s.refreshes[k])])
       || (s.refreshes[k].stage.Finished? && Stored(s.refreshes[k]).None? && r.sends == [used] && r.phase.Settled?)
  }

  lemma FollowsResponse(s: State, i: nat, status: nat, k: nat, used: Option<Token>)
    requires Inv(s) && Enabled(s, Response(i, status)) && Follows(s, i, k, used) && s.requests[i].phase == Sent(true)
    ensures Follows(HandleResponse(s, i, status), i, k, used)
  {
    hide IsAuthEndpoint;
  }

  lemma OpenRow(s: State, i: nat)
    requires Inv(s) && i < |s.requests|
    ensures RequestOk(s, s.requests[i])
  {
  }

  lemma FollowsSettle(s: State, i: nat, o: Outcome, k: nat, used: Option<Token>)
    requires Follows(s, i, k, used) && !s.requests[i].phase.Waiting?
    ensures Follows(Settle(s, i, o), i, k, used)
  {
    SettleRow(s, i, o);
  }

  lemma FollowsResume(s: State, i: nat, k: nat, used: Option<Token>)
    requires Enabled(s, Resume(i)) && Follows(s, i, k, used) && s.requests[i].phase == Waiting(k)
    requires |s.requests[i].sends| == 1
    ensures Follows(ResumeAfterRefresh(s, i), i, k, used)
  {
    match ResultOf(s, i)
    case Renewed(t) => assert [used] + [Some(t)] == [used, Some(t)];
    case _ => assert Stored(s.refreshes[k]).None?;
  }

  lemma FollowsTarget(s: State, e: Event, i: nat, k: nat, used: Option<Token>)
    requires Inv(s) && Enabled(s, e) && Follows(s, i, k, used) && Targets(e, i)
    ensures Follows(Step(s, e), i, k, used)
  {
    hide HandleResponse, ResumeAfterRefresh, Settle, IsAuthEndpoint, Inv;
    OpenRow(s, i);
    match e
    case Response(_, status) => FollowsResponse(s, i, status, k, used);
    case ResponseLost(_) => FollowsSettle(s, i, NetworkError, k, used);
    case Body(_, json) =>
      var status := s.requests[i].phase.status;
      FollowsSettle(s, i, if Ok(status) then Resolved(json) else HttpError(status), k, used);
    case Resume(_) => FollowsResume(s, i, k, used);
  }

  lemma FollowsStep(s: State, e: Event, i: nat, k: nat, used: Option<Token>)
    requires Inv(s) && Enabled(s, e) && Follows(s, i, k, used)
    ensures Follows(Step(s, e), i, k, used)
  {
    RefreshesLaterStep(s, e);
    RequestsLaterStep(s, e);
    if Targets(e, i) {
      FollowsTarget(s, e, i, k, used);
    } else {
      OtherRows(s, e, i);
    }
  }

  lemma {:induction false} FollowsAlways(
    ss: seq<State>, es: seq<Event>, m: nat, n: nat, i: nat, k: nat, used: Option<Token>)
    requires Run(ss, es) && m <= n < |ss| && Follows(ss[m], i, k, used)
    ensures Follows(ss[n], i, k, used)
  {
    hide Step, Enabled;
    if m < n {
      FollowsAlways(ss, es, m, n - 1, i, k, used);
      InvAlways(ss, es, n - 1);
      FollowsStep(ss[n - 1], es[n - 1], i, k, used);
    }
  }

  lemma StoredStep(s: State, e: Event, k: nat)
    requires Enabled(s, e) && FreshEvent(s, e) && k < |s.refreshes|
    ensures k < |Step(s, e).refreshes| && s.issued <= Step(s, e).issued
    ensures var m, m' := Stored(s.refreshes[k]), Stored(Step(s, e).refreshes[k]);
      m' == m || (m.None? && m'.value !in s.issued)
  {
    RefreshesLaterStep(s, e);
    if RefreshEvent(e) {
      StoredByRefresh(s, e, k);
    } else {
      hide Step;
      if !e.Response? {
        OthersLeaveRefreshes(s, e);
      }
    }
  }

  lemma StoredByRefresh(s: State, e: Event, k: nat)
    requires Enabled(s, e) && FreshEvent(s, e) && RefreshEvent(e) && k < |s.refreshes|
    ensures k < |Step(s, e).refreshes|
    ensures var m, m' := Stored(s.refreshes[k]), Stored(Step(s, e).refreshes[k]);
      m' == m || (m.None? && m'.value !in s.issued)
  {
  }

  /** What refresh k has stored by state s', if anything, was unknown in state s. */
  predicate NewSince(s: State, s': State, k: nat) {
    k < |s'.refreshes| && s.issued <= s'.issued
    && (Stored(s'.refreshes[k]).None? || Stored(s'.refreshes[k]).value !in s.issued)
  }

  lemma NewSinceStep(s: State, s': State, e: Event, k: nat)
    requires NewSince(s, s', k) && Enabled(s', e) && FreshEvent(s', e)
    ensures NewSince(s, Step(s', e), k)
  {
    StoredStep(s', e, k);
  }

  /** A refresh that had not stored its token by state s stores one that was unknown in s. */
  lemma {:induction false} StoredLaterIsNew(s: State, ss: seq<State>, es: seq<Event>, m: nat, n: nat, k: nat)
    requires Run(ss, es) && DistinctTokens(ss, es) && m <= n < |ss| && NewSince(s, ss[m], k)
    ensures NewSince(s, ss[n], k)
  {
    hide Step, Enabled, FreshEvent, NewSince;
    if m < n {
      StoredLaterIsNew(s, ss, es, m, n - 1, k);
      NewSinceStep(s, ss[n - 1], es[n - 1], k);
    }
  }

  /** The guard of the one bad branch: the 401 of a request carrying t is handled while the refresh
      that stored t has not yet emptied `refreshInFlight`, and t has not been replaced since. */
  predicate JoinsTooLate(s: State, t: Token) {
    && (s.access.None? || s.access == Some(t))
    && s.refreshInFlight.Some? && s.refreshInFlight.value < |s.refreshes|
    && s.refreshes[s.refreshInFlight.value].stage == Settling(Renewed(t))
  }

  /** The refresh a refused request attaches to: the one in flight, else a new one. */
  function Joined(s: State): nat {
    if s.refreshInFlight.Some? then s.refreshInFlight.value else |s.refreshes|
  }

  /** The three ways a first 401 can go. */
  lemma FirstRefusal(s: State, i: nat, t: Token)
    requires Inv(s) && Enabled(s, Response(i, 401)) && !IsAuthEndpoint(s.requests[i].url)
    requires s.requests[i].sends == [Some(t)]
    ensures var s' := Step(s, Response(i, 401));
      && i < |s'.requests| && t in s.issued && s.issued <= s'.issued
      && if s.access.Some? && s.access != Some(t) then s'.requests[i].sends == [Some(t), s.access]
         else if s.refreshInFlight.None? && s.refresh.None? then
           s'.requests[i].sends == [Some(t)] && s'.requests[i].phase.Unauthorized?
         else
           (s.refreshInFlight.Some? ==> Joined(s) < |s.refreshes| && Open(s.refreshes[Joined(s)]))
           && Follows(s', i, Joined(s), Some(t))
           && s'.refreshes[Joined(s)].stage
              == (if s.refreshInFlight.Some? then s.refreshes[Joined(s)].stage else Posted)
  {
    hide IsAuthEndpoint;
    assert RequestOk(s, s.requests[i]) && Known(s, s.requests[i].sends[0]);
  }

  /** Event j is the first 401 of request i, sent with token t, and by state n the request has been replayed. */
  predicate ReplayedAfter(ss: seq<State>, es: seq<Event>, j: nat, n: nat, i: nat, t: Token) {
    && j < n < |ss| && j < |es| && es[j] == Response(i, 401)
    && i < |ss[j].requests| && !IsAuthEndpoint(ss[j].requests[i].url) && ss[j].requests[i].sends == [Some(t)]
    && i < |ss[n].requests| && |ss[n].requests[i].sends| == 2
  }

  /** A 401 on token t is replayed with a token other than t, except exactly in that window. */
  lemma ReplayTokenDiffersUnlessTooLate(ss: seq<State>, es: seq<Event>, j: nat, n: nat)
    requires Run(ss, es) && DistinctTokens(ss, es) && j < n < |ss|
    ensures forall i: nat, t: Token | ReplayedAfter(ss, es, j, n, i, t) ::
      ss[n].requests[i].sends[1] == Some(t) <==> JoinsTooLate(ss[j], t)
  {
    forall i: nat, t: Token | ReplayedAfter(ss, es, j, n, i, t)
      ensures ss[n].requests[i].sends[1] == Some(t) <==> JoinsTooLate(ss[j], t)
    {
      hide Step, Inv, JoinsTooLate, Run, DistinctTokens;
      ReplayToken(ss, es, j, n, i, t);
    }
  }

  lemma ReplayToken(ss: seq<State>, es: seq<Event>, j: nat, n: nat, i: nat, t: Token)
    requires Run(ss, es) && DistinctTokens(ss, es) && ReplayedAfter(ss, es, j, n, i, t)
    ensures ss[n].requests[i].sends[1] == Some(t) <==> JoinsTooLate(ss[j], t)
  {
    hide Step, Inv, DistinctTokens;
    var s := ss[j];
    InvAlways(ss, es, j);
    FirstRefusal(s, i, t);
    LaterAlways(ss, es, j + 1, n);
    if s.access.Some? && s.access != Some(t) {
      assert ss[j + 1].requests[i].sends == [Some(t), s.access];
    } else if s.refreshInFlight.None? && s.refresh.None? {
      UnauthorizedAlways(ss, es, j + 1, n, i);
    } else {
      assert ss[j + 1] == Step(s, Response(i, 401));
      AttachedReplay(ss, es, j, n, i, t, Joined(s));
    }
  }

  /** The replay of a request that attached itself to refresh k. */
  lemma AttachedReplay(ss: seq<State>, es: seq<Event>, j: nat, n: nat, i: nat, t: Token, k: nat)
    requires Run(ss, es) && DistinctTokens(ss, es) && j < n < |ss|
    requires i < |ss[n].requests| && |ss[n].requests[i].sends| == 2
    requires (ss[j].access.None? || ss[j].access == Some(t)) && k == Joined(ss[j])
    requires ss[j].refreshInFlight.Some? ==> k < |ss[j].refreshes| && Open(ss[j].refreshes[k])
    requires t in ss[j].issued && ss[j].issued <= ss[j + 1].issued && Follows(ss[j + 1], i, k, Some(t))
    requires ss[j + 1].refreshes[k].stage == if ss[j].refreshInFlight.Some? then ss[j].refreshes[k].stage else Posted
    ensures ss[n].requests[i].sends[1] == Some(t) <==> JoinsTooLate(ss[j], t)
  {
    hide Step, Inv, Run, DistinctTokens;
    FollowsAlways(ss, es, j + 1, n, i, k, Some(t));
    if Stored(ss[j + 1].refreshes[k]).None? {
      StoredLaterIsNew(ss[j + 1], ss, es, j + 1, n, k);
    } else {
      StoredStays(ss, es, j + 1, n, k);
    }
  }

  lemma StoredStays(ss: seq<State>, es: seq<Event>, m: nat, n: nat, k: nat)
    requires Run(ss, es) && m <= n < |ss| && k < |ss[m].refreshes| && Stored(ss[m].refreshes[k]).Some?
    ensures k < |ss[n].refreshes| && Stored(ss[n].refreshes[k]) == Stored(ss[m].refreshes[k])
  {
    hide Step, Run;
    LaterAlways(ss, es, m, n);
    assert RefreshLater(ss[m].refreshes[k], ss[n].refreshes[k]);
  }

  /** No response is handled while a refresh is between storing its tokens and its `finally`, as when
      the microtask queue is emptied before the next network task. */
  ghost predicate Drained(ss: seq<State>, es: seq<Event>)
    requires |ss| == |es| + 1
  {
    forall n {:trigger es[n]} | 0 <= n < |es| && es[n].Response? ::
      forall k | 0 <= k < |ss[n].refreshes| :: !ss[n].refreshes[k].stage.Settling?
  }

  /** In such runs every replay carries a token other than the one that was refused. */
  lemma DrainedReplaysChangeToken(ss: seq<State>, es: seq<Event>, j: nat, n: nat)
    requires Run(ss, es) && DistinctTokens(ss, es) && Drained(ss, es) && j < n < |ss|
    ensures forall i: nat, t: Token | ReplayedAfter(ss, es, j, n, i, t) ::
      ss[n].requests[i].sends[1].Some? && ss[n].requests[i].sends[1] != Some(t)
  {
    InvAlways(ss, es, n);
    ReplayTokenDiffersUnlessTooLate(ss, es, j, n);
    forall i: nat, t: Token | ReplayedAfter(ss, es, j, n, i, t)
      ensures ss[n].requests[i].sends[1].Some? && ss[n].requests[i].sends[1] != Some(t)
    {
      assert RequestOk(ss[n], ss[n].requests[i]);
    }
  }

  /** The callbacks a network answer brings, each in a task of its own. */
  predicate NetworkAnswer(e: Event) {
    e.Response? || e.ResponseLost? || e.Body? || e.RefreshResponse? || e.RefreshLost? || e.RefreshBody?
  }

  /** No reaction is due: no refresh is about to run its `finally`, and nobody is about to learn of one. */
  ghost predicate Idle(s: State) {
    && (forall k | 0 <= k < |s.refreshes| :: !s.refreshes[k].stage.Settling?)
    && (forall i | 0 <= i < |s.requests| :: !Enabled(s, Resume(i)))
  }

  /** The runs of a browser: all reactions due are run before the next answer from the network is handled. */
  ghost predicate EventLoop(ss: seq<State>, es: seq<Event>)
    requires |ss| == |es| + 1
  {
    forall n {:trigger es[n]} | 0 <= n < |es| && NetworkAnswer(es[n]) :: Idle(ss[n])
  }

  /** In a browser, every replay carries a token other than the one that was refused. */
  lemma BrowserReplaysChangeToken(ss: seq<State>, es: seq<Event>, j: nat, n: nat)
    requires Run(ss, es) && DistinctTokens(ss, es) && EventLoop(ss, es) && j < n < |ss|
    ensures forall i: nat, t: Token | ReplayedAfter(ss, es, j, n, i, t) ::
      ss[n].requests[i].sends[1].Some? && ss[n].requests[i].sends[1] != Some(t)
  {
    hide Step, Enabled;
    DrainedReplaysChangeToken(ss, es, j, n);
  }

  lemma {:induction false} UnauthorizedAlways(ss: seq<State>, es: seq<Event>, m: nat, n: nat, i: nat)
    requires Run(ss, es) && m <= n < |ss| && i < |ss[m].requests|
    requires ss[m].requests[i].phase.Unauthorized?
    ensures i < |ss[n].requests| && ss[n].requests[i].sends == ss[m].requests[i].sends
    ensures ss[n].requests[i].phase in {Unauthorized, Settled(SessionLost)}
  {
    hide Step, Enabled;
    if m < n {
      UnauthorizedAlways(ss, es, m, n - 1, i);
      LaterAlways(ss, es, n - 1, n);
      UnauthorizedStep(ss[n - 1], es[n - 1], i);
    }
  }

  lemma UnauthorizedStep(s: State, e: Event, i: nat)
    requires Enabled(s, e) && i < |s.requests| && s.requests[i].phase in {Unauthorized, Settled(SessionLost)}
    ensures i < |Step(s, e).requests| && Step(s, e).requests[i].sends == s.requests[i].sends
    ensures Step(s, e).requests[i].phase in {Unauthorized, Settled(SessionLost)}
  {
    RequestsLaterStep(s, e);
    if !Targets(e, i) {
      OtherRows(s, e, i);
    }
  }
}
