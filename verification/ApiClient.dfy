/** api.js itself: one object whose fields the callbacks update in place. Each callback is one method, and its
    contract says which step of ApiModel it takes. The object remembers its history in ghost fields; every method keeps
    Valid, which says that the history is a Run, so what is proved of all runs holds of the object at any time. */
module ApiClient {
  import opened Prelude
  import M = ApiModel
  import I = ApiInvariants
  import Chains = ApiChains
  import Cache = ApiCache

  class Client {
    // localStorage
    var access: Option<M.Token>
    var refresh: Option<M.Token>
    // variables of the module
    var refreshInFlight: Option<nat>
    var inFlight: map<string, nat>
    var responseCache: map<string, M.Entry>
    // the promises handed out so far
    var requests: seq<M.Request>
    var refreshes: seq<M.Refresh>
    // the page around it
    var now: int
    const onLogin: bool
    var redirects: nat
    ghost var issued: set<M.Token>
    // every callback since the page was loaded, and the states between them
    ghost var events: seq<M.Event>
    ghost var states: seq<M.State>

    ghost function View(): M.State
      reads this
    {
      M.State(access, refresh, refreshInFlight, inFlight, responseCache, requests, refreshes,
              now, onLogin, redirects, issued)
    }

    ghost predicate Valid()
      reads this
    {
      M.Run(states, events) && states[|events|] == View()
    }

    ghost method Record(e: M.Event)
      requires M.Run(states, events) && M.Enabled(states[|events|], e) && View() == M.Step(states[|events|], e)
      modifies this`events, this`states
      ensures Valid() && events == old(events) + [e] && View() == old(View())
    {
      hide M.Run, M.Enabled, M.Step;
      M.ExtendRun(states, events, e);
      M.RunLength(states, events);
      states := states + [View()];
      events := events + [e];
    }

    /** Whatever callbacks ran, in whatever order: the invariant holds, at most one refresh is outstanding,
        and every request was sent once or twice. */
    lemma AlwaysSafe()
      requires Valid()
      ensures I.Inv(View())
      ensures forall k | 0 <= k < |refreshes| && I.Open(refreshes[k]) :: refreshInFlight == Some(k)
      ensures forall i | 0 <= i < |requests| :: 1 <= |requests[i].sends| <= 2
    {
      M.RunLength(states, events);
      I.InvAlways(states, events, |events|);
      forall i | 0 <= i < |requests|
        ensures 1 <= |requests[i].sends| <= 2
      {
        Chains.SentAtMostTwice(states, events, |events|, i);
      }
    }

    constructor (access: Option<M.Token>, refresh: Option<M.Token>, now: int, onLogin: bool)
      ensures M.Init(View()) && this.access == access && this.refresh == refresh && this.now == now
      ensures this.onLogin == onLogin && redirects == 0
      ensures Valid() && events == []
    {
      this.access, this.refresh, this.now, this.onLogin := access, refresh, now, onLogin;
      refreshInFlight, inFlight, responseCache, requests, refreshes, redirects := None, map[], map[], [], [], 0;
      issued := if access.Some? then {access.value} else {};
      new;
      events, states := [], [View()];
    }

    // ---- the cache ----

    method GetCached(url: string) returns (data: M.Json)
      modifies this`responseCache
      ensures View() == M.DropStale(old(View()), url) && data == M.GetCached(old(View()), url)
    {
      if url in responseCache && now - responseCache[url].ts < M.CACHE_TTL {
        return responseCache[url].data;
      }
      responseCache := responseCache - {url};
      return M.Null;
    }

    /** From now on a lookup of the URL is answered with data until the time limit, and other URLs as before. */
    method SetCached(url: string, data: M.Json)
      modifies this`responseCache
      ensures responseCache == old(responseCache)[url := M.Entry(data, now)]
      ensures forall t :: M.GetCached(View().(now := t), url) == if t - now < M.CACHE_TTL then data else M.Null
      ensures forall u, t | u != url :: M.GetCached(View().(now := t), u) == M.GetCached(old(View()).(now := t), u)
    {
      responseCache := responseCache[url := M.Entry(data, now)];
    }

    method Clear()
      requires Valid()
      modifies this`responseCache, this`events, this`states
      ensures View() == M.Step(old(View()), M.ClearCache)
      ensures Valid() && events == old(events) + [M.ClearCache]
    {
      responseCache := map[];
      Record(M.ClearCache);
    }

    method EmitRealtimeEvent(name: string)
      requires Valid()
      modifies this`responseCache, this`events, this`states
      ensures View() == M.Step(old(View()), M.Realtime(name))
      ensures Valid() && events == old(events) + [M.Realtime(name)]
    {
      if name != "connected" && name != "connect" {
        responseCache := map[];
      }
      Record(M.Realtime(name));
    }

    // ---- starting requests ----

    method MakeRequest(isGet: bool, url: string) returns (i: nat)
      modifies this`requests
      ensures View() == M.MakeRequest(old(View()), isGet, url) && i == old(|requests|)
    {
      i := |requests|;
      requests := requests + [M.Request(isGet, url, [access], M.Sent(false))];
    }

    /** What the cache answers is the last body received for the URL in the object's own history, and since the last
        clear in it. */
    method Get(url: string) returns (r: M.GetResult)
      requires Valid()
      modifies this`responseCache, this`requests, this`inFlight, this`events, this`states
      ensures View() == M.Step(old(View()), M.Get(url)) && r == M.GetAnswer(old(View()), url)
      ensures Valid() && events == old(events) + [M.Get(url)]
      ensures |states| == |events| + 1
      ensures r.FromCache? ==>
        exists q {:trigger states[q]} | 0 <= q < |events| ::
          Cache.LastStored(states, events, q, |events| - 1, url, r.data)
    {
      M.RunLength(states, events);
      var cached := GetCached(url);
      if M.Truthy(cached) {
        r := M.FromCache(cached);
        Record(M.Get(url));
        ghost var q := Cache.CacheHitIsLatest(states, events, |events| - 1, url);
        return;
      }
      if url in inFlight {
        r := M.Promise(inFlight[url]);
        Record(M.Get(url));
        return;
      }
      var i := MakeRequest(true, url);
      inFlight := inFlight[url := i];
      r := M.Promise(i);
      Record(M.Get(url));
    }

    method SendOther(url: string) returns (i: nat)
      requires Valid()
      modifies this`requests, this`events, this`states
      ensures View() == M.Step(old(View()), M.Send(url)) && i == old(|requests|)
      ensures Valid() && events == old(events) + [M.Send(url)]
    {
      i := MakeRequest(false, url);
      Record(M.Send(url));
    }

    // ---- the chain of one request ----

    method SetPhase(i: nat, p: M.Phase)
      requires i < |requests|
      modifies this`requests
      ensures View() == M.SetPhase(old(View()), i, p)
    {
      requests := requests[i := requests[i].(phase := p)];
    }

    method Settle(i: nat, o: M.Outcome)
      requires i < |requests|
      modifies this`requests, this`responseCache, this`inFlight
      ensures View() == M.Settle(old(View()), i, o)
    {
      SetPhase(i, M.Settled(o));
      var r := requests[i];
      if r.isGet {
        if o.Resolved? {
          SetCached(r.url, o.body);
        }
        inFlight := inFlight - {r.url};
      }
    }

    method Refetch(i: nat, t: M.Token)
      requires i < |requests|
      modifies this`requests
      ensures View() == M.Replay(old(View()), i, t)
    {
      var r := requests[i];
      requests := requests[i := r.(sends := r.sends + [Some(t)], phase := M.Sent(true))];
    }

    method HandleResponse(i: nat, status: nat)
      requires Valid() && M.Enabled(View(), M.Response(i, status))
      modifies this
      ensures View() == M.Step(old(View()), M.Response(i, status))
      ensures Valid() && events == old(events) + [M.Response(i, status)]
    {
      var r := requests[i];
      if status == 204 {
        Settle(i, M.Resolved(M.Null));
      } else if status == 401 && !M.IsAuthEndpoint(r.url) && !r.phase.retried {
        HandleRefresh(i);
      } else {
        SetPhase(i, M.Reading(status, r.phase.retried));
      }
      Record(M.Response(i, status));
    }

    method HandleRefresh(i: nat)
      requires i < |requests| && |requests[i].sends| > 0
      modifies this`requests, this`refreshes, this`refreshInFlight
      ensures View() == M.HandleRefresh(old(View()), i)
    {
      var used := requests[i].sends[0];
      var current := access;
      if current.Some? && used.Some? && current != used {
        Refetch(i, current.value);
      } else {
        RefreshAccessToken(i);
      }
    }

    method RefreshAccessToken(i: nat)
      requires i < |requests|
      modifies this`requests, this`refreshes, this`refreshInFlight
      ensures View() == M.RefreshAccessToken(old(View()), i)
    {
      if refreshInFlight.Some? {
        SetPhase(i, M.Waiting(refreshInFlight.value));
        return;
      }
      if refresh.None? {
        SetPhase(i, M.Unauthorized);
        return;
      }
      refreshInFlight := Some(|refreshes|);
      refreshes := refreshes + [M.Refresh(i, M.Posted)];
      SetPhase(i, M.Waiting(refreshInFlight.value));
    }

    method FetchFailed(i: nat)
      requires Valid() && M.Enabled(View(), M.ResponseLost(i))
      modifies this
      ensures View() == M.Step(old(View()), M.ResponseLost(i))
      ensures Valid() && events == old(events) + [M.ResponseLost(i)]
    {
      Settle(i, M.NetworkError);
      Record(M.ResponseLost(i));
    }

    method BodyRead(i: nat, json: M.Json)
      requires Valid() && M.Enabled(View(), M.Body(i, json))
      modifies this
      ensures View() == M.Step(old(View()), M.Body(i, json))
      ensures Valid() && events == old(events) + [M.Body(i, json)]
    {
      var status := requests[i].phase.status;
      if 200 <= status <= 299 {
        Settle(i, M.Resolved(json));
      } else {
        Settle(i, M.HttpError(status));
      }
      Record(M.Body(i, json));
    }

    // ---- the shared refresh ----

    method SetStage(k: nat, st: M.Stage)
      requires k < |refreshes|
      modifies this`refreshes
      ensures View() == M.SetStage(old(View()), k, st)
    {
      refreshes := refreshes[k := refreshes[k].(stage := st)];
    }

    method RefreshAnswered(k: nat, status: nat)
      requires Valid() && M.Enabled(View(), M.RefreshResponse(k, status))
      modifies this`refreshes, this`events, this`states
      ensures View() == M.Step(old(View()), M.RefreshResponse(k, status))
      ensures Valid() && events == old(events) + [M.RefreshResponse(k, status)]
    {
      if 200 <= status <= 299 {
        SetStage(k, M.ReadingBody);
      } else if status == 401 || status == 403 {
        SetStage(k, M.Settling(M.Lost));
      } else {
        SetStage(k, M.Settling(M.Failed));
      }
      Record(M.RefreshResponse(k, status));
    }

    method RefreshNetworkError(k: nat)
      requires Valid() && M.Enabled(View(), M.RefreshLost(k))
      modifies this`refreshes, this`events, this`states
      ensures View() == M.Step(old(View()), M.RefreshLost(k))
      ensures Valid() && events == old(events) + [M.RefreshLost(k)]
    {
      SetStage(k, M.Settling(M.Failed));
      Record(M.RefreshLost(k));
    }

    method RefreshBodyRead(k: nat, data: Option<M.Minted>)
      requires Valid() && M.Enabled(View(), M.RefreshBody(k, data))
      modifies this
      ensures View() == M.Step(old(View()), M.RefreshBody(k, data))
      ensures Valid() && events == old(events) + [M.RefreshBody(k, data)]
    {
      if data.None? || data.value.access.None? {
        SetStage(k, M.Settling(M.Failed));
        Record(M.RefreshBody(k, data));
        return;
      }
      SetTokens(data.value.access.value, data.value.refresh);
      SetStage(k, M.Settling(M.Renewed(data.value.access.value)));
      Record(M.RefreshBody(k, data));
    }

    method RefreshFinally(k: nat)
      requires Valid() && M.Enabled(View(), M.RefreshFinally(k))
      modifies this
      ensures View() == M.Step(old(View()), M.RefreshFinally(k))
      ensures Valid() && events == old(events) + [M.RefreshFinally(k)]
    {
      SetStage(k, M.Finished(refreshes[k].stage.result));
      refreshInFlight := None;
      Record(M.RefreshFinally(k));
    }

    method Resume(i: nat)
      requires Valid() && M.Enabled(View(), M.Resume(i))
      modifies this
      ensures View() == M.Step(old(View()), M.Resume(i))
      ensures Valid() && events == old(events) + [M.Resume(i)]
    {
      var result := M.Lost;
      if requests[i].phase.Waiting? {
        result := refreshes[requests[i].phase.refresh].stage.result;
      }
      match result {
        case Renewed(t) => Refetch(i, t);
        case Lost =>
          ClearTokens();
          if !onLogin {
            redirects := redirects + 1;
          }
          Settle(i, M.SessionLost);
        case Failed => Settle(i, M.RefreshFailed);
      }
      Record(M.Resume(i));
    }

    // ---- tokens ----

    method SetTokens(newAccess: M.Token, newRefresh: Option<M.Token>)
      modifies this`access, this`refresh, this`issued
      ensures View() == M.SetTokens(old(View()), newAccess, newRefresh)
    {
      access := Some(newAccess);
      issued := issued + {newAccess};
      if newRefresh.Some? {
        refresh := newRefresh;
      }
    }

    method ClearTokens()
      modifies this`access, this`refresh
      ensures View() == M.ClearTokens(old(View()))
    {
      access, refresh := None, None;
    }

    /** The catch branch of safeInit's session check, for the settled promise i of GET /auth/me. */
    method CheckSession(i: nat)
      requires Valid() && M.Enabled(View(), M.CheckSession(i))
      modifies this
      ensures View() == M.Step(old(View()), M.CheckSession(i))
      ensures Valid() && events == old(events) + [M.CheckSession(i)]
    {
      var o := requests[i].phase.outcome;
      if o.Resolved? && M.Truthy(o.body) && o.body.email {
        Record(M.CheckSession(i));
        return;
      }
      var tokensGone := access.None?;
      if tokensGone || o == M.HttpError(401) || o.SessionLost? {
        ClearTokens();
        redirects := redirects + 1;
      }
      Record(M.CheckSession(i));
    }

    // ---- the page's surroundings ----

    /** From here on Date.now() reads ms. */
    method Tick(ms: int)
      requires Valid()
      modifies this`now, this`events, this`states
      ensures View() == M.Step(old(View()), M.Clock(ms))
      ensures Valid() && events == old(events) + [M.Clock(ms)]
    {
      now := ms;
      Record(M.Clock(ms));
    }

    /** Another tab, or the login form, stored tokens. */
    method StoredElsewhere(newAccess: M.Token, newRefresh: Option<M.Token>)
      requires Valid()
      modifies this`access, this`refresh, this`issued, this`events, this`states
      ensures View() == M.Step(old(View()), M.StoredElsewhere(newAccess, newRefresh))
      ensures Valid() && events == old(events) + [M.StoredElsewhere(newAccess, newRefresh)]
    {
      SetTokens(newAccess, newRefresh);
      Record(M.StoredElsewhere(newAccess, newRefresh));
    }

    /** A logout, here or in another tab. */
    method RemovedElsewhere()
      requires Valid()
      modifies this`access, this`refresh, this`events, this`states
      ensures View() == M.Step(old(View()), M.RemovedElsewhere)
      ensures Valid() && events == old(events) + [M.RemovedElsewhere]
    {
      ClearTokens();
      Record(M.RemovedElsewhere);
    }
  }
}
