/** Every logical request is sent at most twice and every chain of callbacks ends. */
module ApiChains {
  import opened Prelude
  import opened ApiModel
  import opened ApiInvariants

  lemma SentAtMostTwice(ss: seq<State>, es: seq<Event>, n: nat, i: nat)
    requires Run(ss, es) && n < |ss| && i < |ss[n].requests|
    ensures 1 <= |ss[n].requests[i].sends| <= 2
  {
    hide Step, Enabled;
    InvAlways(ss, es, n);
    assert RequestOk(ss[n], ss[n].requests[i]);
  }

  /** A 401 on the replay is that endpoint's own verdict: no token, refresh or other request is touched. */
  lemma SecondRefusalStartsNothing(ss: seq<State>, es: seq<Event>, n: nat, i: nat)
    requires Run(ss, es) && n < |es| && es[n] == Response(i, 401) && |ss[n].requests[i].sends| == 2
    ensures ss[n + 1] == SetPhase(ss[n], i, Reading(401, true))
  {
    InvAlways(ss, es, n);
    assert RequestOk(ss[n], ss[n].requests[i]);
  }

  // ---- the callbacks still owed to a state ----

  function Owed(p: Phase): nat {
    match p
    case Sent(false) => 7
    case Waiting(_) => 3
    case Unauthorized => 3
    case Sent(true) => 2
    case Reading(_, _) => 1
    case Settled(_) => 0
  }

  function OwedByRefresh(st: Stage): nat {
    match st
    case Posted => 3
    case ReadingBody => 2
    case Settling(_) => 1
    case Finished(_) => 0
  }

  function RequestDebt(rs: seq<Request>): nat {
    if rs == [] then 0 else Owed(rs[0].phase) + RequestDebt(rs[1..])
  }

  function RefreshDebt(fs: seq<Refresh>): nat {
    if fs == [] then 0 else OwedByRefresh(fs[0].stage) + RefreshDebt(fs[1..])
  }

  lemma {:induction false} RequestDebtUpdate(rs: seq<Request>, i: nat, r: Request)
    requires i < |rs|
    ensures RequestDebt(rs[i := r]) == RequestDebt(rs) - Owed(rs[i].phase) + Owed(r.phase)
  {
    if i == 0 {
      assert rs[i := r][1..] == rs[1..];
    } else {
      assert rs[i := r][1..] == rs[1..][i - 1 := r];
      RequestDebtUpdate(rs[1..], i - 1, r);
    }
  }

  lemma {:induction false} RequestDebtAppend(rs: seq<Request>, r: Request)
    ensures RequestDebt(rs + [r]) == RequestDebt(rs) + Owed(r.phase)
  {
    if rs == [] {
      assert rs + [r] == [r];
    } else {
      assert (rs + [r])[1..] == rs[1..] + [r];
      RequestDebtAppend(rs[1..], r);
    }
  }

  lemma {:induction false} RefreshDebtUpdate(fs: seq<Refresh>, k: nat, f: Refresh)
    requires k < |fs|
    ensures RefreshDebt(fs[k := f]) == RefreshDebt(fs) - OwedByRefresh(fs[k].stage) + OwedByRefresh(f.stage)
  {
    if k == 0 {
      assert fs[k := f][1..] == fs[1..];
    } else {
      assert fs[k := f][1..] == fs[1..][k - 1 := f];
      RefreshDebtUpdate(fs[1..], k - 1, f);
    }
  }

  lemma {:induction false} RefreshDebtAppend(fs: seq<Refresh>, f: Refresh)
    ensures RefreshDebt(fs + [f]) == RefreshDebt(fs) + OwedByRefresh(f.stage)
  {
    if fs == [] {
      assert fs + [f] == [f];
    } else {
      assert (fs + [f])[1..] == fs[1..] + [f];
      RefreshDebtAppend(fs[1..], f);
    }
  }

  function Debt(s: State): nat { RequestDebt(s.requests) + RefreshDebt(s.refreshes) }

  /** A callback of an earlier fetch, body or promise, as opposed to a new request or the outside world. */
  predicate Callback(e: Event) { RefreshEvent(e) || (RequestEvent(e) && !e.Get? && !e.Send?) }

  /** Only request rows change between s and s': row i gets phase p. */
  lemma RequestPays(s: State, s': State, i: nat)
    requires i < |s.requests| == |s'.requests| && s'.requests == s.requests[i := s'.requests[i]]
    requires s'.refreshes == s.refreshes && Owed(s'.requests[i].phase) < Owed(s.requests[i].phase)
    ensures Debt(s') < Debt(s)
  {
    RequestDebtUpdate(s.requests, i, s'.requests[i]);
  }

  lemma RefreshPays(s: State, s': State, k: nat)
    requires k < |s.refreshes| == |s'.refreshes| && s'.refreshes == s.refreshes[k := s'.refreshes[k]]
    requires s'.requests == s.requests && OwedByRefresh(s'.refreshes[k].stage) < OwedByRefresh(s.refreshes[k].stage)
    ensures Debt(s') < Debt(s)
  {
    RefreshDebtUpdate(s.refreshes, k, s'.refreshes[k]);
  }

  lemma StarterWaits(s: State, i: nat, status: nat)
    requires Enabled(s, Response(i, status)) && HandleResponse(s, i, status).refreshes != s.refreshes
    ensures HandleResponse(s, i, status).requests[i].phase.Waiting? && s.requests[i].phase == Sent(false)
  {
    hide IsAuthEndpoint;
  }

  lemma ResponsePays(s: State, i: nat, status: nat)
    requires Enabled(s, Response(i, status))
    ensures Debt(HandleResponse(s, i, status)) < Debt(s)
  {
    hide HandleResponse, RequestDebt, RefreshDebt;
    var s' := HandleResponse(s, i, status);
    ResponseRow(s, i, status);
    ResponsePhase(s, i, status);
    RequestDebtUpdate(s.requests, i, s'.requests[i]);
    RefreshDebtAppend(s.refreshes, Refresh(i, Posted));
    ResponseRefreshes(s, i, status);
    if s'.refreshes != s.refreshes {
      StarterWaits(s, i, status);
    }
  }

  lemma RequestCallbackPays(s: State, e: Event)
    requires Enabled(s, e) && Callback(e) && RequestEvent(e)
    ensures Debt(Step(s, e)) < Debt(s)
  {
    hide HandleResponse, Debt, IsAuthEndpoint, Owed;
    match e
    case Response(i, status) => ResponsePays(s, i, status);
    case ResponseLost(i) => SettlePays(s, i, NetworkError);
    case Body(i, json) =>
      var status := s.requests[i].phase.status;
      SettlePays(s, i, if Ok(status) then Resolved(json) else HttpError(status));
    case Resume(i) => ResumePays(s, i);
  }

  lemma SettlePays(s: State, i: nat, o: Outcome)
    requires i < |s.requests| && !s.requests[i].phase.Settled?
    ensures Debt(Settle(s, i, o)) < Debt(s)
  {
    hide Debt;
    RequestPays(s, Settle(s, i, o), i);
  }

  lemma ResumePays(s: State, i: nat)
    requires Enabled(s, Resume(i))
    ensures Debt(ResumeAfterRefresh(s, i)) < Debt(s)
  {
    hide Debt;
    ResumeRow(s, i);
    RequestPays(s, ResumeAfterRefresh(s, i), i);
  }

  lemma RefreshCallbackPays(s: State, e: Event)
    requires Enabled(s, e) && RefreshEvent(e)
    ensures Debt(Step(s, e)) < Debt(s)
  {
    hide Debt;
    match e
    case RefreshResponse(k, _) => RefreshPays(s, Step(s, e), k);
    case RefreshLost(k) => RefreshPays(s, Step(s, e), k);
    case RefreshBody(k, _) => RefreshPays(s, Step(s, e), k);
    case RefreshFinally(k) => RefreshPays(s, Step(s, e), k);
  }

  /** Every callback pays off part of what is owed. */
  lemma CallbackPays(s: State, e: Event)
    requires Enabled(s, e) && Callback(e)
    ensures Debt(Step(s, e)) < Debt(s)
  {
    hide Step, Debt;
    if RefreshEvent(e) {
      RefreshCallbackPays(s, e);
    } else {
      RequestCallbackPays(s, e);
    }
  }

  /** A new request adds seven callbacks at most; the outside world adds none. */
  lemma OthersBorrow(s: State, e: Event)
    requires Enabled(s, e) && !Callback(e)
    ensures Debt(Step(s, e)) <= Debt(s) + 7 * (|Step(s, e).requests| - |s.requests|)
    ensures |s.requests| <= |Step(s, e).requests| <= |s.requests| + (if e.Get? || e.Send? then 1 else 0)
  {
    if e.Get? || e.Send? {
      RequestDebtAppend(s.requests, Request(e.Get?, e.url, [s.access], Sent(false)));
    }
  }

  lemma CallbackCount(s: State, e: Event)
    requires Enabled(s, e) && Callback(e)
    ensures |Step(s, e).requests| == |s.requests|
  {
    match e
    case Response(i, status) => ResponseRow(s, i, status);
    case Resume(i) => ResumeRow(s, i);
    case _ =>
  }

  /** Event e is a callback of request i, which is in phase p, or of the refresh it waits for. */
  predicate Concerns(e: Event, p: Phase, i: nat) {
    Targets(e, i) || (p.Waiting? && RefreshEvent(e) && e.k == p.refresh)
  }

  /** An unsettled request always has a callback to wait for: its own next one, or that of its refresh. */
  lemma NobodyIsStuck(ss: seq<State>, es: seq<Event>, n: nat, i: nat) returns (e: Event)
    requires Run(ss, es) && n < |ss| && i < |ss[n].requests| && !ss[n].requests[i].phase.Settled?
    ensures Callback(e) && Enabled(ss[n], e) && Concerns(e, ss[n].requests[i].phase, i)
  {
    InvAlways(ss, es, n);
    var s := ss[n];
    assert RequestOk(s, s.requests[i]);
    match s.requests[i].phase
    case Sent(_) => e := ResponseLost(i);
    case Reading(_, _) => e := Body(i, Null);
    case Unauthorized => e := Resume(i);
    case Waiting(k) =>
      match s.refreshes[k].stage {
        case Posted => e := RefreshLost(k);
        case ReadingBody => e := RefreshBody(k, None);
        case Settling(_) => e := RefreshFinally(k);
        case Finished(_) => e := Resume(i);
      }
  }

  function Callbacks(es: seq<Event>, n: nat): nat
    requires n <= |es|
  {
    if n == 0 then 0 else Callbacks(es, n - 1) + if Callback(es[n - 1]) then 1 else 0
  }

  function Calls(es: seq<Event>, n: nat): nat
    requires n <= |es|
  {
    if n == 0 then 0 else Calls(es, n - 1) + if es[n - 1].Get? || es[n - 1].Send? then 1 else 0
  }

  /** No run is kept alive by its own callbacks: after any number of steps they number at most seven per
      request started, and whatever is still owed fits in the remainder. */
  lemma {:induction false} EveryChainEnds(ss: seq<State>, es: seq<Event>, n: nat)
    requires Run(ss, es) && n < |ss|
    ensures Callbacks(es, n) + Debt(ss[n]) <= 7 * |ss[n].requests| <= 7 * Calls(es, n)
  {
    hide Step, Enabled;
    if n > 0 {
      EveryChainEnds(ss, es, n - 1);
      var s, e := ss[n - 1], es[n - 1];
      if Callback(e) {
        CallbackPays(s, e);
        CallbackCount(s, e);
      } else {
        OthersBorrow(s, e);
      }
    }
  }
}
