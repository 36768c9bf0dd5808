/** Families of concrete runs that show what the protocol does not promise. */
module ApiTraces {
  import opened Prelude
  import opened ApiModel
  import opened ApiSession

  /** A page that was loaded with the given tokens and has done nothing yet. */
  function Loaded(access: Option<Token>, refresh: Option<Token>): State {
    State(access, refresh, None, map[], map[], [], [], 0, false, 0, if access.Some? then {access.value} else {})
  }

  /** A run with distinct tokens that ends in state s. */
  ghost predicate EndsIn(ss: seq<State>, es: seq<Event>, s: State) {
    Run(ss, es) && DistinctTokens(ss, es) && ss[|es|] == s
  }

  /** The same, and a browser can run it. */
  ghost predicate BrowserEndsIn(ss: seq<State>, es: seq<Event>, s: State) {
    EndsIn(ss, es, s) && EventLoop(ss, es)
  }

  lemma ExtendDistinct(ss: seq<State>, es: seq<Event>, s': State, e: Event)
    requires |ss| == |es| + 1
    ensures DistinctTokens(ss, es) && FreshEvent(ss[|es|], e) ==> DistinctTokens(ss + [s'], es + [e])
    ensures EventLoop(ss, es) && (NetworkAnswer(e) ==> Idle(ss[|es|])) ==> EventLoop(ss + [s'], es + [e])
  {
    hide FreshEvent, Idle, NetworkAnswer;
    var es', ss' := es + [e], ss + [s'];
    assert forall n | 0 <= n < |es| :: es'[n] == es[n] && ss'[n] == ss[n];
  }

  lemma Extend(ss: seq<State>, es: seq<Event>, s: State, e: Event) returns (ss': seq<State>, es': seq<Event>)
    requires EndsIn(ss, es, s) && Enabled(s, e) && FreshEvent(s, e)
    ensures EndsIn(ss', es', Step(s, e)) && es' == es + [e]
  {
    hide Step, Enabled, FreshEvent;
    ExtendRun(ss, es, e);
    ExtendDistinct(ss, es, Step(s, e), e);
    es' := es + [e];
    ss' := ss + [Step(s, e)];
  }

  lemma ExtendInBrowser(ss: seq<State>, es: seq<Event>, s: State, e: Event)
    returns (ss': seq<State>, es': seq<Event>)
    requires BrowserEndsIn(ss, es, s) && Enabled(s, e) && FreshEvent(s, e) && (NetworkAnswer(e) ==> Idle(s))
    ensures BrowserEndsIn(ss', es', Step(s, e)) && es' == es + [e]
  {
    hide Step, Enabled, FreshEvent, Idle, NetworkAnswer;
    ExtendRun(ss, es, e);
    ExtendDistinct(ss, es, Step(s, e), e);
    es' := es + [e];
    ss' := ss + [Step(s, e)];
  }

  lemma EndsThere(ss: seq<State>, es: seq<Event>, s: State)
    requires BrowserEndsIn(ss, es, s)
    ensures EndsIn(ss, es, s)
  {
  }

  lemma Begin(access: Option<Token>, refresh: Option<Token>) returns (ss: seq<State>, es: seq<Event>)
    ensures BrowserEndsIn(ss, es, Loaded(access, refresh)) && es == []
  {
    ss, es := [Loaded(access, refresh)], [];
  }

  /** Requests 0 and 1 were sent with token t (or none); the refresh request 0 started has just stored m. */
  function JustStored(u: string, t: Option<Token>, m: Token, second: Phase): State {
    Loaded(Some(m), Some(0)).(
      requests := [Request(false, u, [t], Waiting(0)), Request(false, u, [t], second)],
      refreshes := [Refresh(0, Settling(Renewed(m)))], refreshInFlight := Some(0),
      issued := (if t.Some? then {t.value} else {}) + {m})
  }

  /** The same run two steps earlier: the refresh has been posted. */
  function JustPosted(u: string, t: Option<Token>): State {
    Loaded(t, Some(0)).(
      requests := [Request(false, u, [t], Waiting(0)), Request(false, u, [t], Sent(false))],
      refreshes := [Refresh(0, Posted)], refreshInFlight := Some(0))
  }

  lemma ReachJustPosted(u: string, t: Option<Token>) returns (ss: seq<State>, es: seq<Event>)
    requires !IsAuthEndpoint(u)
    ensures BrowserEndsIn(ss, es, JustPosted(u, t))
  {
    hide IsAuthEndpoint, BrowserEndsIn;
    var s := Loaded(t, Some(0));
    ss, es := Begin(t, Some(0));
    ss, es := ExtendInBrowser(ss, es, s, Send(u));
    s := Step(s, Send(u));
    ss, es := ExtendInBrowser(ss, es, s, Send(u));
    s := Step(s, Send(u));
    assert s == Loaded(t, Some(0)).(
                  requests := [Request(false, u, [t], Sent(false)), Request(false, u, [t], Sent(false))]);
    ss, es := ExtendInBrowser(ss, es, s, Response(0, 401));
    assert Step(s, Response(0, 401)) == JustPosted(u, t);
  }

  lemma ReachJustStored(u: string, t: Option<Token>, m: Token) returns (ss: seq<State>, es: seq<Event>)
    requires t != Some(m) && !IsAuthEndpoint(u)
    ensures BrowserEndsIn(ss, es, JustStored(u, t, m, Sent(false)))
  {
    hide IsAuthEndpoint, BrowserEndsIn;
    ss, es := ReachJustPosted(u, t);
    var s := JustPosted(u, t);
    ss, es := ExtendInBrowser(ss, es, s, RefreshResponse(0, 200));
    s := Step(s, RefreshResponse(0, 200));
    assert s == JustPosted(u, t).(refreshes := [Refresh(0, ReadingBody)]);
    var e := RefreshBody(0, Some(Minted(Some(m), None)));
    ss, es := ExtendInBrowser(ss, es, s, e);
    assert Step(s, e) == JustStored(u, t, m, Sent(false));
  }

  /** A third request, sent with the new token m, has joined the refresh that stored m. */
  function JoinedTooLate(u: string, t: Option<Token>, m: Token): State {
    var s := JustStored(u, t, m, Sent(false));
    s.(requests := s.requests + [Request(false, u, [Some(m)], Waiting(0))])
  }

  lemma ReachJoinedTooLate(u: string, t: Option<Token>, m: Token) returns (ss: seq<State>, es: seq<Event>)
    requires t != Some(m) && !IsAuthEndpoint(u)
    ensures EndsIn(ss, es, JoinedTooLate(u, t, m))
  {
    hide IsAuthEndpoint, EndsIn, BrowserEndsIn;
    ss, es := ReachJustStored(u, t, m);
    var s := JustStored(u, t, m, Sent(false));
    EndsThere(ss, es, s);
    ss, es := Extend(ss, es, s, Send(u));
    s := Step(s, Send(u));
    ss, es := Extend(ss, es, s, Response(2, 401));
    assert Step(s, Response(2, 401)) == JoinedTooLate(u, t, m);
  }

  /** The transition system allows more interleavings than a browser. In one of the others a request sent just after
      the new token m was stored is refused before `refreshInFlight` is emptied, and is replayed with the very token it
      was refused with. By BrowserReplaysChangeToken no event loop runs it. */
  lemma TooLateJoinRepeatsToken(u: string, t: Token, m: Token)
    returns (ss: seq<State>, es: seq<Event>, s: State)
    requires t != m && !IsAuthEndpoint(u)
    ensures EndsIn(ss, es, s) && |s.requests| == 3 && s.requests[2].sends == [Some(m), Some(m)]
  {
    hide IsAuthEndpoint, EndsIn;
    ss, es := ReachJoinedTooLate(u, Some(t), m);
    s := JoinedTooLate(u, Some(t), m);
    ss, es := Extend(ss, es, s, RefreshFinally(0));
    s := Step(s, RefreshFinally(0));
    ss, es := Extend(ss, es, s, Resume(2));
    s := Step(s, Resume(2));
  }

  /** The refresh that brought m is over and request 0 was replayed with m. */
  function Replayed(u: string, t: Option<Token>, m: Token): State {
    JustStored(u, t, m, Sent(false)).(
      requests := [Request(false, u, [t, Some(m)], Sent(true)), Request(false, u, [t], Sent(false))],
      refreshes := [Refresh(0, Finished(Renewed(m)))], refreshInFlight := None)
  }

  lemma ReachReplayed(u: string, t: Option<Token>, m: Token) returns (ss: seq<State>, es: seq<Event>)
    requires t != Some(m) && !IsAuthEndpoint(u)
    ensures BrowserEndsIn(ss, es, Replayed(u, t, m))
  {
    hide IsAuthEndpoint, BrowserEndsIn;
    ss, es := ReachJustStored(u, t, m);
    var s := JustStored(u, t, m, Sent(false));
    ss, es := ExtendInBrowser(ss, es, s, RefreshFinally(0));
    s := Step(s, RefreshFinally(0));
    ss, es := ExtendInBrowser(ss, es, s, Resume(0));
    assert [t] + [Some(m)] == [t, Some(m)];
    assert Step(s, Resume(0)) == Replayed(u, t, m);
  }

  /** The other request, sent without a token, has posted another refresh. */
  function PostedAgain(u: string, m: Token): State {
    var s := Replayed(u, None, m);
    s.(requests := [s.requests[0], Request(false, u, [None], Waiting(1))],
       refreshes := s.refreshes + [Refresh(1, Posted)], refreshInFlight := Some(1))
  }

  lemma ReachPostedAgain(u: string, m: Token) returns (ss: seq<State>, es: seq<Event>)
    requires !IsAuthEndpoint(u)
    ensures BrowserEndsIn(ss, es, PostedAgain(u, m))
  {
    hide IsAuthEndpoint, BrowserEndsIn;
    ss, es := ReachReplayed(u, None, m);
    var s := Replayed(u, None, m);
    ss, es := ExtendInBrowser(ss, es, s, Response(1, 401));
    assert Step(s, Response(1, 401)) == PostedAgain(u, m);
  }

  /** A request sent with no token always goes to the refresh path: in a browser it brings about a second successful
      refresh although a token has been stored meanwhile. */
  lemma TokenlessRequestRefreshesAgain(u: string, m: Token, m': Token)
    returns (ss: seq<State>, es: seq<Event>, s: State)
    requires m != m' && !IsAuthEndpoint(u)
    ensures BrowserEndsIn(ss, es, s)
    ensures s.refreshes == [Refresh(0, Finished(Renewed(m))), Refresh(1, Settling(Renewed(m')))]
  {
    hide IsAuthEndpoint, BrowserEndsIn;
    ss, es := ReachPostedAgain(u, m);
    s := PostedAgain(u, m);
    ss, es := ExtendInBrowser(ss, es, s, RefreshResponse(1, 200));
    s := Step(s, RefreshResponse(1, 200));
    var e := RefreshBody(1, Some(Minted(Some(m'), None)));
    ss, es := ExtendInBrowser(ss, es, s, e);
    s := Step(s, e);
  }

  /** One GET sent for u, nothing cached: what remains of a GET after the cache was cleared. */
  function GetOutstanding(u: string): State {
    Loaded(Some(1), Some(0)).(requests := [Request(true, u, [Some(1)], Sent(false))], inFlight := map[u := 0])
  }

  lemma ReachGetThenClear(u: string) returns (ss: seq<State>, es: seq<Event>)
    ensures BrowserEndsIn(ss, es, GetOutstanding(u)) && es == [Get(u), ClearCache]
  {
    hide BrowserEndsIn;
    var s := Loaded(Some(1), Some(0));
    ss, es := Begin(Some(1), Some(0));
    ss, es := ExtendInBrowser(ss, es, s, Get(u));
    assert Step(s, Get(u)) == GetOutstanding(u) by {
      assert s.cache - {u} == s.cache;
    }
    ss, es := ExtendInBrowser(ss, es, GetOutstanding(u), ClearCache);
    assert Step(GetOutstanding(u), ClearCache) == GetOutstanding(u);
  }

  /** A GET sent before a clear still fills the cache after it. */
  lemma ClearedCacheRefilledByOldGet(u: string, d: Json) returns (ss: seq<State>, es: seq<Event>, s: State)
    requires Truthy(d)
    ensures BrowserEndsIn(ss, es, s) && es == [Get(u), ClearCache, Response(0, 200), Body(0, d)]
    ensures GetAnswer(s, u) == FromCache(d)
  {
    hide BrowserEndsIn, IsAuthEndpoint;
    ss, es := ReachGetThenClear(u);
    s := GetOutstanding(u);
    ss, es := ExtendInBrowser(ss, es, s, Response(0, 200));
    s := Step(s, Response(0, 200));
    ss, es := ExtendInBrowser(ss, es, s, Body(0, d));
    s := Step(s, Body(0, d));
  }
}
