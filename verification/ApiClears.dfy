/** When a cleared cache stays clear of what was asked for before: the exact condition, over every continuation
    of a run. */
module ApiClears {
  import opened Prelude
  import opened ApiModel
  import opened ApiInvariants
  import opened ApiCache
  import opened ApiSession
  import opened ApiChains
  import opened ApiTraces

  /** Request i can still be answered with a body: it is not settled and no refusal or failure awaits it. */
  predicate CanSucceed(s: State, i: nat) {
    i < |s.requests| &&
    match s.requests[i].phase
    case Sent(_) => true
    case Waiting(k) => k < |s.refreshes| && CanRenew(s.refreshes[k].stage)
    case Unauthorized => false
    case Reading(status, _) => Ok(status)
    case Settled(_) => false
  }

  /** The refresh can still end, or has ended, with a token. */
  predicate CanRenew(st: Stage) {
    match st
    case Posted => true
    case ReadingBody => true
    case Settling(result) => result.Renewed?
    case Finished(result) => result.Renewed?
  }

  // ---- a request that can no longer succeed never will ----

  lemma StageStaysLost(s: State, e: Event, k: nat)
    requires Enabled(s, e) && k < |s.refreshes| && !CanRenew(s.refreshes[k].stage)
    ensures k < |Step(s, e).refreshes| && !CanRenew(Step(s, e).refreshes[k].stage)
  {
    hide Step, Enabled;
    RefreshesLaterStep(s, e);
    assert RefreshLater(s.refreshes[k], Step(s, e).refreshes[k]);
  }

  /** An event of the request itself, when it cannot succeed, can only be the end of its wait or of its body. */
  lemma DoomedTarget(s: State, e: Event, i: nat)
    requires Enabled(s, e) && i < |s.requests| && !CanSucceed(s, i) && Targets(e, i)
    ensures i < |Step(s, e).requests| && Step(s, e).requests[i].phase.Settled?
  {
    hide HandleResponse, ResumeAfterRefresh, Settle;
    match e
    case Body(_, json) =>
      var status := s.requests[i].phase.status;
      SettleRow(s, i, if Ok(status) then Resolved(json) else HttpError(status));
    case Resume(_) => DoomedResume(s, i);
    case _ =>
  }

  lemma DoomedResume(s: State, i: nat)
    requires Enabled(s, Resume(i)) && !CanSucceed(s, i)
    ensures i < |ResumeAfterRefresh(s, i).requests| && ResumeAfterRefresh(s, i).requests[i].phase.Settled?
  {
  }

  lemma DoomedStep(s: State, e: Event, i: nat)
    requires Inv(s) && Enabled(s, e) && i < |s.requests| && !CanSucceed(s, i)
    ensures i < |Step(s, e).requests| && !CanSucceed(Step(s, e), i)
  {
    hide Step, Enabled, Inv;
    RequestsLaterStep(s, e);
    if Targets(e, i) {
      DoomedTarget(s, e, i);
    } else {
      OtherRows(s, e, i);
      if s.requests[i].phase.Waiting? {
        WaitsForKnown(s, i);
        StageStaysLost(s, e, s.requests[i].phase.refresh);
      }
    }
  }

  lemma WaitsForKnown(s: State, i: nat)
    requires Inv(s) && i < |s.requests| && s.requests[i].phase.Waiting?
    ensures s.requests[i].phase.refresh < |s.refreshes|
  {
    assert RequestOk(s, s.requests[i]);
  }

  lemma {:induction false} DoomedAlways(ss: seq<State>, es: seq<Event>, m: nat, n: nat, i: nat)
    requires Run(ss, es) && m <= n < |ss| && i < |ss[m].requests| && !CanSucceed(ss[m], i)
    ensures i < |ss[n].requests| && !CanSucceed(ss[n], i)
  {
    hide Step, Enabled, CanSucceed;
    if m < n {
      DoomedAlways(ss, es, m, n - 1, i);
      InvAlways(ss, es, n - 1);
      DoomedStep(ss[n - 1], es[n - 1], i);
    }
  }

  /** The request whose answer event e brings. */
  function Answered(e: Event): nat
    requires e.Response? || e.Body?
  {
    e.i
  }

  lemma StoringCouldSucceed(s: State, e: Event, url: string)
    requires Enabled(s, e) && StoredBody(s, e, url).Some?
    ensures (e.Response? || e.Body?) && CanSucceed(s, Answered(e))
    ensures s.requests[Answered(e)].isGet && s.requests[Answered(e)].url == url
  {
  }

  // ---- what a hit after a clear was asked for ----

  /** The body served at event n came in answer to a request sent when `count` requests had already been made. */
  ghost predicate AskedSince(ss: seq<State>, es: seq<Event>, n: nat, url: string, count: nat)
    requires |ss| == |es| + 1 && n <= |es|
  {
    exists q | 0 <= q < n :: AnsweredAt(ss, es, q, n, url, count)
  }

  ghost predicate AnsweredAt(ss: seq<State>, es: seq<Event>, q: nat, n: nat, url: string, count: nat)
    requires |ss| == |es| + 1 && q < n <= |es|
  {
    && LastStored(ss, es, q, n, url, GetCached(ss[n], url))
    && (es[q].Response? || es[q].Body?) && count <= Answered(es[q])
  }

  /** In state s no GET for the URL is under way that can still succeed. */
  predicate NonePending(s: State, url: string) { url in s.inFlight ==> !CanSucceed(s, s.inFlight[url]) }

  /** Then every hit after a clear in state m was asked for after the clear. */
  lemma HitsAreAskedSince(ss: seq<State>, es: seq<Event>, m: nat, n: nat, url: string)
    requires Run(ss, es) && m < n < |es| && Clears(es[m]) && NonePending(ss[m], url)
    requires es[n] == Get(url) && GetAnswer(ss[n], url).FromCache?
    ensures AskedSince(ss, es, n, url, |ss[m].requests|)
  {
    hide Step, CanSucceed;
    var q := CacheHitIsLatest(ss, es, n, url);
    ClearsStoreNothing(ss[m], es[m], url);
    assert q > m;
    StoringCouldSucceed(ss[q], es[q], url);
    var i := Answered(es[q]);
    if i < |ss[m].requests| {
      LaterAlways(ss, es, m, q);
      assert RequestLater(ss[m].requests[i], ss[q].requests[i]);
      OldGetIsDoomed(ss, es, m, url, i);
      DoomedAlways(ss, es, m, q, i);
    }
    assert AnsweredAt(ss, es, q, n, url, |ss[m].requests|);
  }

  lemma ClearsStoreNothing(s: State, e: Event, url: string)
    requires Clears(e)
    ensures StoredBody(s, e, url).None?
  {
  }

  lemma OldGetIsDoomed(ss: seq<State>, es: seq<Event>, m: nat, url: string, i: nat)
    requires Run(ss, es) && m < |ss| && NonePending(ss[m], url)
    requires i < |ss[m].requests| && ss[m].requests[i].isGet && ss[m].requests[i].url == url
    ensures !CanSucceed(ss[m], i)
  {
    InFlightIffUnsettled(ss, es, m, url, i);
  }

  // ---- what a hit after a clear was fetched for ----

  /** In state s a fetch for the URL is under way that can still be answered with a body: it was sent before,
      and its answer or the body of an OK answer is still to come. */
  predicate AnswerUnderWay(s: State, i: nat) {
    i < |s.requests| && (s.requests[i].phase.Sent? || (s.requests[i].phase.Reading? && Ok(s.requests[i].phase.status)))
  }

  predicate NoAnswerUnderWay(s: State, url: string) { url in s.inFlight ==> !AnswerUnderWay(s, s.inFlight[url]) }

  /** The body served at event n answers a fetch sent after state m: one of a request made since,
      or another fetch of a request made before. */
  ghost predicate FetchedSince(ss: seq<State>, es: seq<Event>, m: nat, n: nat, url: string)
    requires |ss| == |es| + 1 && m <= n <= |es|
  {
    exists q | 0 <= q < n :: FetchAnsweredAt(ss, es, m, q, n, url)
  }

  ghost predicate FetchAnsweredAt(ss: seq<State>, es: seq<Event>, m: nat, q: nat, n: nat, url: string)
    requires |ss| == |es| + 1 && m <= n <= |es| && q < n
  {
    && LastStored(ss, es, q, n, url, GetCached(ss[n], url))
    && (es[q].Response? || es[q].Body?)
    && NewFetch(ss[m], ss[q], Answered(es[q]))
  }

  /** The fetch of request i that state s' knows of was sent after state s. */
  predicate NewFetch(s: State, s': State, i: nat) {
    i < |s'.requests| && (i < |s.requests| ==> |s'.requests[i].sends| > |s.requests[i].sends|)
  }

  /** Request i brings no answer to one of its first k fetches: it cannot succeed, or is yet to be fetched again,
      or was. */
  predicate OldFetchesOver(s: State, i: nat, k: nat) {
    i < |s.requests|
    && (|| !CanSucceed(s, i)
        || (s.requests[i].phase.Waiting? && |s.requests[i].sends| >= k)
        || |s.requests[i].sends| > k)
  }

  lemma OldFetchesOverStep(s: State, e: Event, i: nat, k: nat)
    requires Inv(s) && Enabled(s, e) && OldFetchesOver(s, i, k)
    ensures OldFetchesOver(Step(s, e), i, k)
  {
    hide Step, Enabled, Inv, CanSucceed;
    if !CanSucceed(s, i) {
      DoomedStep(s, e, i);
    } else {
      RequestsLaterStep(s, e);
      assert RequestLater(s.requests[i], Step(s, e).requests[i]);
      if Targets(e, i) && s.requests[i].phase.Waiting? {
        WaitEnds(s, e, i);
      } else if !Targets(e, i) {
        OtherRows(s, e, i);
      }
    }
  }

  /** A request that waits is next fetched again, or fails. */
  lemma WaitEnds(s: State, e: Event, i: nat)
    requires Enabled(s, e) && Targets(e, i) && i < |s.requests| && s.requests[i].phase.Waiting?
    ensures i < |Step(s, e).requests|
    ensures !CanSucceed(Step(s, e), i) || |Step(s, e).requests[i].sends| == |s.requests[i].sends| + 1
  {
    hide HandleResponse, Settle;
    SettleRow(s, i, RefreshFailed);
    SettleRow(RedirectToLogin(ClearTokens(s)), i, SessionLost);
  }

  lemma {:induction false} OldFetchesStayOver(ss: seq<State>, es: seq<Event>, m: nat, n: nat, i: nat, k: nat)
    requires Run(ss, es) && m <= n < |ss| && OldFetchesOver(ss[m], i, k)
    ensures OldFetchesOver(ss[n], i, k)
  {
    hide Step, Enabled, OldFetchesOver;
    if m < n {
      OldFetchesStayOver(ss, es, m, n - 1, i, k);
      InvAlways(ss, es, n - 1);
      OldFetchesOverStep(ss[n - 1], es[n - 1], i, k);
    }
  }

  lemma OldGetIsOver(ss: seq<State>, es: seq<Event>, m: nat, url: string, i: nat)
    requires Run(ss, es) && m < |ss| && NoAnswerUnderWay(ss[m], url)
    requires i < |ss[m].requests| && ss[m].requests[i].isGet && ss[m].requests[i].url == url
    ensures OldFetchesOver(ss[m], i, |ss[m].requests[i].sends|)
  {
    InFlightIffUnsettled(ss, es, m, url, i);
  }

  lemma StoringIsNoWaiting(s: State, e: Event, url: string)
    requires Enabled(s, e) && StoredBody(s, e, url).Some? && (e.Response? || e.Body?)
    ensures !s.requests[Answered(e)].phase.Waiting?
  {
  }

  /** With no fetch for the URL under way at a clear, no later hit is older than the clear. */
  lemma HitsAreFetchedSince(ss: seq<State>, es: seq<Event>, m: nat, n: nat, url: string)
    requires Run(ss, es) && m < n < |es| && Clears(es[m]) && NoAnswerUnderWay(ss[m], url)
    requires es[n] == Get(url) && GetAnswer(ss[n], url).FromCache?
    ensures FetchedSince(ss, es, m, n, url)
  {
    hide Step, CanSucceed;
    var q := CacheHitIsLatest(ss, es, n, url);
    ClearsStoreNothing(ss[m], es[m], url);
    assert q > m;
    StoringCouldSucceed(ss[q], es[q], url);
    StoringIsNoWaiting(ss[q], es[q], url);
    var i := Answered(es[q]);
    if i < |ss[m].requests| {
      LaterAlways(ss, es, m, q);
      assert RequestLater(ss[m].requests[i], ss[q].requests[i]);
      OldGetIsOver(ss, es, m, url, i);
      OldFetchesStayOver(ss, es, m, q, i, |ss[m].requests[i].sends|);
    }
    assert FetchAnsweredAt(ss, es, m, q, n, url);
  }

  // ---- and a pending one does come through ----

  /** The next network answer on the way to the body of request i, when no reaction is due; t is the token minted. */
  function Onward(s: State, i: nat, t: Token, d: Json): Event
    requires CanSucceed(s, i)
  {
    match s.requests[i].phase
    case Waiting(k) => if s.refreshes[k].stage.Posted? then RefreshResponse(k, 200)
                       else RefreshBody(k, Some(Minted(Some(t), None)))
    case Sent(_) => Response(i, 200)
    case _ => Body(i, d)
  }

  lemma OnwardStep(s: State, i: nat, t: Token, d: Json)
    requires Inv(s) && Idle(s) && CanSucceed(s, i)
    ensures var e := Onward(s, i, t, d);
      && Enabled(s, e) && Callback(e) && (t !in s.issued ==> FreshEvent(s, e))
      && if e.Body? then e == Body(i, d)
         else CanSucceed(Step(s, e), i) && (AnswerUnderWay(s, i) ==> SameFetch(s, Step(s, e), i))
  {
    hide IsAuthEndpoint, Inv, Idle;
    SentOnce(s, i);
    if s.requests[i].phase.Waiting? {
      StillOpen(s, i, s.requests[i].phase.refresh);
    }
  }

  lemma SentOnce(s: State, i: nat)
    requires Inv(s) && i < |s.requests|
    ensures |s.requests[i].sends| > 0
  {
    assert RequestOk(s, s.requests[i]);
  }

  /** When no reaction is due, a request waits only for a refresh that the network still has to answer. */
  lemma StillOpen(s: State, i: nat, k: nat)
    requires Idle(s) && i < |s.requests| && s.requests[i].phase == Waiting(k) && k < |s.refreshes|
    ensures s.refreshes[k].stage.Posted? || s.refreshes[k].stage.ReadingBody?
  {
    assert !Enabled(s, Resume(i));
  }

  predicate Reaction(e: Event) { e.RefreshFinally? || e.Resume? }

  /** A reaction that is due. */
  lemma DueReaction(s: State) returns (e: Event)
    requires !Idle(s)
    ensures Reaction(e) && Enabled(s, e)
  {
    if k :| 0 <= k < |s.refreshes| && s.refreshes[k].stage.Settling? {
      e := RefreshFinally(k);
    } else {
      var i :| 0 <= i < |s.requests| && Enabled(s, Resume(i));
      e := Resume(i);
    }
  }

  lemma ReactionKeepsHope(s: State, e: Event, i: nat)
    requires CanSucceed(s, i) && Enabled(s, e) && Reaction(e)
    ensures CanSucceed(Step(s, e), i) && Callback(e) && FreshEvent(s, e) && !NetworkAnswer(e)
  {
    if e.Resume? && e.i != i {
      ResumeRow(s, e.i);
    }
  }

  lemma SameRequest(s: State, e: Event, i: nat)
    requires Enabled(s, e) && CanSucceed(s, i)
    ensures i < |Step(s, e).requests|
    ensures Step(s, e).requests[i].isGet == s.requests[i].isGet && Step(s, e).requests[i].url == s.requests[i].url
  {
    hide Step, Enabled;
    RequestsLaterStep(s, e);
    assert RequestLater(s.requests[i], Step(s, e).requests[i]);
  }

  lemma {:induction false} Unissued(issued: set<Token>) returns (t: Token)
    ensures forall x | x in issued :: x < t
    decreases |issued|
  {
    if issued == {} {
      t := 0;
    } else {
      var x :| x in issued;
      var t' := Unissued(issued - {x});
      t := if t' > x then t' else x + 1;
      assert forall y | y in issued :: y == x || y in issued - {x};
    }
  }

  /** The run continues (ss, es), and it is a browser's with distinct tokens if (ss, es) is. */
  ghost predicate Continues(ss: seq<State>, es: seq<Event>, ss': seq<State>, es': seq<Event>)
    requires |ss| == |es| + 1
  {
    && Run(ss', es') && ss <= ss' && es <= es'
    && (DistinctTokens(ss, es) && EventLoop(ss, es) ==> DistinctTokens(ss', es') && EventLoop(ss', es'))
  }

  lemma ContinueBy(ss: seq<State>, es: seq<Event>, e: Event) returns (ss': seq<State>, es': seq<Event>)
    requires Run(ss, es) && Enabled(ss[|es|], e) && FreshEvent(ss[|es|], e)
    requires NetworkAnswer(e) ==> Idle(ss[|es|])
    ensures Continues(ss, es, ss', es') && es' == es + [e] && ss' == ss + [Step(ss[|es|], e)]
  {
    hide Step, Enabled, FreshEvent, Idle, NetworkAnswer, DistinctTokens, EventLoop;
    ExtendRun(ss, es, e);
    ExtendDistinct(ss, es, Step(ss[|es|], e), e);
    es', ss' := es + [e], ss + [Step(ss[|es|], e)];
  }

  /** The callback after which GET i is one callback nearer to its body d. */
  lemma NextCallback(s: State, i: nat, d: Json) returns (e: Event)
    requires Inv(s) && CanSucceed(s, i)
    ensures Enabled(s, e) && Callback(e) && FreshEvent(s, e) && (NetworkAnswer(e) ==> Idle(s))
    ensures e == Body(i, d) || CanSucceed(Step(s, e), i)
    ensures e == Body(i, d) || (AnswerUnderWay(s, i) ==> SameFetch(s, Step(s, e), i))
  {
    hide Step, Enabled, FreshEvent, Idle, Inv, CanSucceed, SameFetch;
    if Idle(s) {
      var t := Unissued(s.issued);
      e := Onward(s, i, t, d);
      OnwardStep(s, i, t, d);
    } else {
      e := DueReaction(s);
      ReactionKeepsHope(s, e, i);
      if AnswerUnderWay(s, i) {
        ReactionKeepsFetch(s, e, i);
      }
    }
  }

  /** In s' the fetch of request i that was under way in s still is. */
  predicate SameFetch(s: State, s': State, i: nat) {
    AnswerUnderWay(s', i) && i < |s.requests| && s'.requests[i].sends == s.requests[i].sends
  }

  lemma ReactionKeepsFetch(s: State, e: Event, i: nat)
    requires AnswerUnderWay(s, i) && Enabled(s, e) && Reaction(e)
    ensures SameFetch(s, Step(s, e), i)
  {
    if e.Resume? {
      ResumeRow(s, e.i);
    }
  }

  /** A run from a state in which GET i can still succeed can be continued up to the event that stores its body d. */
  lemma {:induction false} ComesThrough(ss: seq<State>, es: seq<Event>, i: nat, d: Json)
    returns (ss': seq<State>, es': seq<Event>)
    requires Run(ss, es) && CanSucceed(ss[|es|], i) && ss[|es|].requests[i].isGet
    ensures Continues(ss, es, ss', es') && |es| < |es'| && es'[|es'| - 1] == Body(i, d)
    ensures StoredBody(ss'[|es'| - 1], es'[|es'| - 1], ss[|es|].requests[i].url) == Some(d)
    ensures AnswerUnderWay(ss[|es|], i) ==> SameFetch(ss[|es|], ss'[|es'| - 1], i)
    decreases Debt(ss[|es|])
  {
    hide Step, Enabled, FreshEvent, Idle, CanSucceed, StoredBody, Debt, DistinctTokens, EventLoop, Run;
    LastState(ss, es);
    var s := ss[|es|];
    var e := NextCallback(s, i, d);
    ss', es' := ContinueBy(ss, es, e);
    if e == Body(i, d) {
      BodyIsStored(s, i, d);
    } else {
      SameRequest(s, e, i);
      CallbackPays(s, e);
      ss', es' := ComesThrough(ss', es', i, d);
    }
  }

  lemma LastState(ss: seq<State>, es: seq<Event>)
    requires Run(ss, es)
    ensures |ss| == |es| + 1 && Inv(ss[|es|])
  {
    InvAlways(ss, es, |es|);
  }

  lemma BodyIsStored(s: State, i: nat, d: Json)
    requires Enabled(s, Body(i, d)) && CanSucceed(s, i) && s.requests[i].isGet
    ensures StoredBody(s, Body(i, d), s.requests[i].url) == Some(d)
  {
  }

  /** The cache can serve what was asked for before the clear. */
  lemma PendingIsServed(ss: seq<State>, es: seq<Event>, m: nat, url: string)
    returns (ss': seq<State>, es': seq<Event>)
    requires Run(ss, es) && |es| == m + 1 && Clears(es[m]) && !NonePending(ss[m], url)
    ensures Continues(ss, es, ss', es') && m + 1 < |es'| && es'[|es'| - 1] == Get(url)
    ensures GetAnswer(ss'[|es'| - 1], url).FromCache?
    ensures !AskedSince(ss', es', |es'| - 1, url, |ss[m].requests|)
  {
    hide Step, CanSucceed, DistinctTokens, EventLoop, Inv, AskedSince;
    var i, d := ss[m].inFlight[url], Doc(0, false);
    PendingGet(ss, es, m, url);
    ClearKeepsPending(ss[m], es[m], i);
    ss', es' := ComesThrough(ss, es, i, d);
    var b, n := |es'| - 1, |es'|;
    ServedAtOnce(ss'[b], i, url, d);
    ss', es' := ContinueBy(ss', es', Get(url));
    OnlySource(ss', es', b, n, url, i, d);
  }

  lemma ServedAtOnce(s: State, i: nat, url: string, d: Json)
    requires Enabled(s, Body(i, d)) && StoredBody(s, Body(i, d), url) == Some(d) && Truthy(d)
    ensures GetAnswer(Step(s, Body(i, d)), url) == FromCache(d)
  {
  }

  lemma PendingGet(ss: seq<State>, es: seq<Event>, m: nat, url: string)
    requires Run(ss, es) && m < |ss| && url in ss[m].inFlight
    ensures var i := ss[m].inFlight[url];
      i < |ss[m].requests| && ss[m].requests[i].isGet && ss[m].requests[i].url == url
  {
    InvAlways(ss, es, m);
  }

  lemma ClearKeepsPending(s: State, e: Event, i: nat)
    requires Enabled(s, e) && Clears(e)
    ensures Step(s, e).requests == s.requests && (CanSucceed(s, i) ==> CanSucceed(Step(s, e), i))
  {
  }

  /** A body stored by the event just before the lookup is the only one a hit can come from. */
  lemma OnlySource(ss: seq<State>, es: seq<Event>, b: nat, n: nat, url: string, i: nat, d: Json)
    requires |ss| == |es| + 1 && n == b + 1 && n <= |es| && es[b] == Body(i, d)
    requires StoredBody(ss[b], es[b], url) == Some(d)
    ensures forall count | count > i :: !AskedSince(ss, es, n, url, count)
  {
  }

  /** The cache can serve the answer of a fetch sent before the clear. */
  lemma OldAnswerIsServed(ss: seq<State>, es: seq<Event>, m: nat, url: string)
    returns (ss': seq<State>, es': seq<Event>)
    requires Run(ss, es) && |es| == m + 1 && Clears(es[m]) && !NoAnswerUnderWay(ss[m], url)
    ensures Continues(ss, es, ss', es') && m + 1 < |es'| && es'[|es'| - 1] == Get(url)
    ensures GetAnswer(ss'[|es'| - 1], url).FromCache?
    ensures !FetchedSince(ss', es', m, |es'| - 1, url)
  {
    hide Step, CanSucceed, DistinctTokens, EventLoop, Inv, FetchedSince;
    var i, d := ss[m].inFlight[url], Doc(0, false);
    PendingGet(ss, es, m, url);
    UnderWayCanSucceed(ss[m], i);
    ClearKeepsPending(ss[m], es[m], i);
    ss', es' := ComesThrough(ss, es, i, d);
    var b, n := |es'| - 1, |es'|;
    ServedAtOnce(ss'[b], i, url, d);
    ss', es' := ContinueBy(ss', es', Get(url));
    OnlyFetch(ss', es', m, b, n, url, i, d);
  }

  lemma UnderWayCanSucceed(s: State, i: nat)
    requires AnswerUnderWay(s, i)
    ensures CanSucceed(s, i)
  {
  }

  lemma OnlyFetch(ss: seq<State>, es: seq<Event>, m: nat, b: nat, n: nat, url: string, i: nat, d: Json)
    requires |ss| == |es| + 1 && n == b + 1 && m <= n <= |es| && es[b] == Body(i, d)
    requires StoredBody(ss[b], es[b], url) == Some(d)
    requires i < |ss[m].requests| && i < |ss[b].requests| && ss[b].requests[i].sends == ss[m].requests[i].sends
    ensures !FetchedSince(ss, es, m, n, url)
  {
  }

  /** (ss', es') is a run after (ss, es), asks for `url` in its event n, and is served from the cache. */
  ghost predicate LaterHit(ss: seq<State>, es: seq<Event>, ss': seq<State>, es': seq<Event>, n: nat, url: string) {
    && Run(ss', es') && ss <= ss' && es <= es'
    && |es| <= n < |es'| && es'[n] == Get(url) && GetAnswer(ss'[n], url).FromCache?
  }

  /** The same in a browser and with a server that mints distinct tokens. */
  ghost predicate LaterBrowserHit(
    ss: seq<State>, es: seq<Event>, ss': seq<State>, es': seq<Event>, n: nat, url: string)
  {
    LaterHit(ss, es, ss', es', n, url) && DistinctTokens(ss', es') && EventLoop(ss', es')
  }

  /** After a clear, no hit in any continuation of the run is stale, that is, answers a fetch sent before the clear,
      if and only if no fetch for the URL was under way at the clear that could still be answered with a body. */
  lemma ClearEndsStaleHitsIff(ss: seq<State>, es: seq<Event>, m: nat, url: string)
    requires Run(ss, es) && |es| == m + 1 && Clears(es[m])
    ensures NoAnswerUnderWay(ss[m], url) <==>
      forall ss', es', n | LaterHit(ss, es, ss', es', n, url) :: FetchedSince(ss', es', m, n, url)
  {
    hide AnswerUnderWay, Step, FetchedSince, DistinctTokens, EventLoop;
    if NoAnswerUnderWay(ss[m], url) {
      forall ss', es', n | LaterHit(ss, es, ss', es', n, url)
        ensures FetchedSince(ss', es', m, n, url)
      {
        HitsAreFetchedSince(ss', es', m, n, url);
      }
    } else {
      var ss', es' := OldAnswerIsServed(ss, es, m, url);
      assert LaterHit(ss, es, ss', es', |es'| - 1, url);
    }
  }

  /** The same among the runs of a browser. */
  lemma ClearEndsStaleHitsInBrowserIff(ss: seq<State>, es: seq<Event>, m: nat, url: string)
    requires Run(ss, es) && |es| == m + 1 && Clears(es[m]) && DistinctTokens(ss, es) && EventLoop(ss, es)
    ensures NoAnswerUnderWay(ss[m], url) <==>
      forall ss', es', n | LaterBrowserHit(ss, es, ss', es', n, url) :: FetchedSince(ss', es', m, n, url)
  {
    hide AnswerUnderWay, Step, FetchedSince, DistinctTokens, EventLoop;
    if NoAnswerUnderWay(ss[m], url) {
      forall ss', es', n | LaterBrowserHit(ss, es, ss', es', n, url)
        ensures FetchedSince(ss', es', m, n, url)
      {
        HitsAreFetchedSince(ss', es', m, n, url);
      }
    } else {
      var ss', es' := OldAnswerIsServed(ss, es, m, url);
      assert LaterBrowserHit(ss, es, ss', es', |es'| - 1, url);
    }
  }

  // ---- the stricter question: was the GET itself made after the clear? ----

  /** After a clear, every hit in every continuation of the run was asked for after the clear, if and only if
      no GET for the URL that could still succeed was under way at the clear. */
  lemma ClearHoldsIff(ss: seq<State>, es: seq<Event>, m: nat, url: string)
    requires Run(ss, es) && |es| == m + 1 && Clears(es[m])
    ensures NonePending(ss[m], url) <==>
      forall ss', es', n | LaterHit(ss, es, ss', es', n, url) :: AskedSince(ss', es', n, url, |ss[m].requests|)
  {
    hide CanSucceed, Step, AskedSince, DistinctTokens, EventLoop;
    if NonePending(ss[m], url) {
      forall ss', es', n | LaterHit(ss, es, ss', es', n, url)
        ensures AskedSince(ss', es', n, url, |ss[m].requests|)
      {
        HitsAreAskedSince(ss', es', m, n, url);
      }
    } else {
      var ss', es' := PendingIsServed(ss, es, m, url);
      assert LaterHit(ss, es, ss', es', |es'| - 1, url);
    }
  }

  /** The same among the runs of a browser: the reservation is not an artefact of the interleavings. */
  lemma ClearHoldsInBrowserIff(ss: seq<State>, es: seq<Event>, m: nat, url: string)
    requires Run(ss, es) && |es| == m + 1 && Clears(es[m]) && DistinctTokens(ss, es) && EventLoop(ss, es)
    ensures NonePending(ss[m], url) <==>
      forall ss', es', n | LaterBrowserHit(ss, es, ss', es', n, url) :: AskedSince(ss', es', n, url, |ss[m].requests|)
  {
    hide CanSucceed, Step, AskedSince, DistinctTokens, EventLoop;
    if NonePending(ss[m], url) {
      forall ss', es', n | LaterBrowserHit(ss, es, ss', es', n, url)
        ensures AskedSince(ss', es', n, url, |ss[m].requests|)
      {
        HitsAreAskedSince(ss', es', m, n, url);
      }
    } else {
      var ss', es' := PendingIsServed(ss, es, m, url);
      assert LaterBrowserHit(ss, es, ss', es', |es'| - 1, url);
    }
  }

  /** For both it is enough that no GET for the URL was in flight. */
  lemma IdleClearHolds(ss: seq<State>, es: seq<Event>, m: nat, n: nat, url: string)
    requires Run(ss, es) && m < n < |es| && Clears(es[m]) && url !in ss[m].inFlight
    requires es[n] == Get(url) && GetAnswer(ss[n], url).FromCache?
    ensures AskedSince(ss, es, n, url, |ss[m].requests|) && FetchedSince(ss, es, m, n, url)
  {
    HitsAreAskedSince(ss, es, m, n, url);
    HitsAreFetchedSince(ss, es, m, n, url);
  }
}
