/** The response cache and the in-flight table in front of GETs. */
module ApiCache {
  import opened Prelude
  import opened ApiModel
  import opened ApiInvariants

  // ---- what a cache hit means ----

  /** The body with which event e resolves a GET for `url`. */
  function StoredBody(s: State, e: Event, url: string): Option<Json> {
    match e
    case Response(i, status) =>
      if i < |s.requests| && status == 204 && s.requests[i].isGet && s.requests[i].url == url then Some(Null) else None
    case Body(i, json) =>
      if i < |s.requests| && s.requests[i].phase.Reading? && Ok(s.requests[i].phase.status)
         && s.requests[i].isGet && s.requests[i].url == url
      then Some(json) else None
    case _ => None
  }

  predicate Clears(e: Event) {
    e.ClearCache? || (e.Realtime? && e.name != "connected" && e.name != "connect")
  }

  /** An entry is written by the body just received, or is an old one that nothing cleared or overwrote. */
  lemma EntryStep(s: State, e: Event, url: string)
    requires Enabled(s, e) && url in Step(s, e).cache
    ensures var x := Step(s, e).cache[url];
      || (StoredBody(s, e, url) == Some(x.data) && x.ts == s.now)
      || (StoredBody(s, e, url).None? && !Clears(e) && url in s.cache && s.cache[url] == x)
  {
    hide HandleResponse, ApiGet, Settle, IsAuthEndpoint;
    match e
    case Response(i, status) => ResponseEntries(s, i, status, url);
    case Body(i, json) => BodyEntries(s, i, json, url);
    case Get(u) => GetEntries(s, u);
    case _ => OtherEntries(s, e);
  }

  /** Every other event keeps the cache or empties it. */
  lemma OtherEntries(s: State, e: Event)
    requires Enabled(s, e) && !e.Response? && !e.Body? && !e.Get?
    ensures Step(s, e).cache == if Clears(e) then map[] else s.cache
  {
    hide IsAuthEndpoint, ResumeAfterRefresh, Settle;
    match e
    case ResponseLost(i) => FailureEntries(s, i, NetworkError);
    case Resume(i) => ResumeEntries(s, i);
    case _ =>
  }

  lemma FailureEntries(s: State, i: nat, o: Outcome)
    requires i < |s.requests| && !o.Resolved?
    ensures Settle(s, i, o).cache == s.cache
  {
  }

  lemma ResumeEntries(s: State, i: nat)
    requires i < |s.requests|
    ensures ResumeAfterRefresh(s, i).cache == s.cache
  {
  }

  lemma GetEntries(s: State, url: string)
    ensures ApiGet(s, url).cache == DropStale(s, url).cache
  {
  }

  lemma BodyEntries(s: State, i: nat, json: Json, url: string)
    requires Enabled(s, Body(i, json))
    ensures var c := BodyRead(s, i, json).cache;
      match StoredBody(s, Body(i, json), url)
      case Some(d) => url in c && c[url] == Entry(d, s.now)
      case None => (url in c <==> url in s.cache) && (url in c ==> c[url] == s.cache[url])
  {
  }

  lemma ResponseEntries(s: State, i: nat, status: nat, url: string)
    requires Enabled(s, Response(i, status))
    ensures var c := HandleResponse(s, i, status).cache;
      if StoredBody(s, Response(i, status), url) == Some(Null) then url in c && c[url] == Entry(Null, s.now)
      else (url in c <==> url in s.cache) && (url in c ==> c[url] == s.cache[url])
  {
  }

  /** Event m is the last to store a body for `url` before state n, the body is d, and no clear came since. */
  ghost predicate LastStored(ss: seq<State>, es: seq<Event>, m: nat, n: nat, url: string, d: Json)
    requires |ss| == |es| + 1 && n <= |es|
  {
    && m < n && StoredBody(ss[m], es[m], url) == Some(d)
    && forall p {:trigger es[p]} | m < p < n :: !Clears(es[p]) && StoredBody(ss[p], es[p], url).None?
  }

  lemma {:induction false} EntryHasSource(ss: seq<State>, es: seq<Event>, n: nat, url: string) returns (m: nat)
    requires Run(ss, es) && n < |ss| && url in ss[n].cache
    ensures LastStored(ss, es, m, n, url, ss[n].cache[url].data) && ss[n].cache[url].ts == ss[m].now
  {
    hide Step, Enabled;
    EntryStep(ss[n - 1], es[n - 1], url);
    if StoredBody(ss[n - 1], es[n - 1], url).Some? {
      m := n - 1;
    } else {
      m := EntryHasSource(ss, es, n - 1, url);
    }
  }

  /** A value served from the cache is the last body received for that exact URL, since the last clear,
      less than 30000 ms ago by the client's clock, and not an empty one. */
  lemma CacheHitIsLatest(ss: seq<State>, es: seq<Event>, n: nat, url: string) returns (m: nat)
    requires Run(ss, es) && n < |es| && es[n] == Get(url) && GetAnswer(ss[n], url).FromCache?
    ensures LastStored(ss, es, m, n, url, GetAnswer(ss[n], url).data) && GetAnswer(ss[n], url).data.Doc?
    ensures ss[n].now - ss[m].now < 30000
  {
    hide Step, Enabled;
    m := EntryHasSource(ss, es, n, url);
  }

  ghost predicate Monotone(ss: seq<State>) {
    forall p, q | 0 <= p <= q < |ss| :: ss[p].now <= ss[q].now
  }

  lemma KeptStep(s: State, e: Event, url: string, x: Entry)
    requires Enabled(s, e) && url in s.cache && s.cache[url] == x && s.now - x.ts < CACHE_TTL
    requires !Clears(e) && StoredBody(s, e, url).None?
    ensures url in Step(s, e).cache && Step(s, e).cache[url] == x
  {
    if e.Response? {
      ResponseEntries(s, e.i, e.status, url);
    }
  }

  lemma StoreStep(s: State, e: Event, url: string, d: Json)
    requires Enabled(s, e) && StoredBody(s, e, url) == Some(d)
    ensures url in Step(s, e).cache && Step(s, e).cache[url] == Entry(d, s.now)
  {
    if e.Response? {
      ResponseEntries(s, e.i, e.status, url);
    }
  }

  lemma {:induction false} FreshEntryKept(ss: seq<State>, es: seq<Event>, m: nat, n: nat, url: string, d: Json)
    requires Run(ss, es) && Monotone(ss) && n < |ss| && LastStored(ss, es, m, n, url, d)
    requires ss[n].now - ss[m].now < CACHE_TTL
    ensures url in ss[n].cache && ss[n].cache[url] == Entry(d, ss[m].now)
  {
    hide Step, Enabled;
    if n == m + 1 {
      StoreStep(ss[m], es[m], url, d);
    } else {
      assert ss[n - 1].now <= ss[n].now;
      FreshEntryKept(ss, es, m, n - 1, url, d);
      KeptStep(ss[n - 1], es[n - 1], url, Entry(d, ss[m].now));
    }
  }

  /** With a clock that never runs back, the cache answers exactly when such a body exists. */
  lemma CacheHitIff(ss: seq<State>, es: seq<Event>, n: nat, url: string, d: Json)
    requires Run(ss, es) && Monotone(ss) && n < |es| && es[n] == Get(url)
    ensures GetAnswer(ss[n], url) == FromCache(d) <==>
      d.Doc? && exists m {:trigger ss[m]} | 0 <= m < n ::
                  LastStored(ss, es, m, n, url, d) && ss[n].now - ss[m].now < 30000
  {
    hide Step, Enabled;
    if GetAnswer(ss[n], url) == FromCache(d) {
      var m := CacheHitIsLatest(ss, es, n, url);
    }
    if m: nat {:trigger ss[m]} :| m < n && Truthy(d) && LastStored(ss, es, m, n, url, d)
                                  && ss[n].now - ss[m].now < CACHE_TTL {
      FreshEntryKept(ss, es, m, n, url, d);
    }
  }

  /** Asking for an entry that has outlived its time removes it, so that not even a clock set back brings it up again;
      every other entry stays as it is. */
  lemma StaleEntryIsDropped(ss: seq<State>, es: seq<Event>, n: nat, url: string)
    requires Run(ss, es) && n < |es| && es[n] == Get(url)
    ensures url in ss[n + 1].cache <==> url in ss[n].cache && ss[n].now - ss[n].cache[url].ts < 30000
    ensures forall u | u != url || u in ss[n + 1].cache ::
      (u in ss[n + 1].cache <==> u in ss[n].cache) && (u in ss[n].cache ==> ss[n + 1].cache[u] == ss[n].cache[u])
  {
  }

  // ---- one fetch per URL, shared by everyone who asks meanwhile ----

  predicate UnsettledGet(s: State, i: nat, url: string) {
    i < |s.requests| && s.requests[i].isGet && s.requests[i].url == url && !s.requests[i].phase.Settled?
  }

  /** A URL is in the table exactly while one logical GET for it is unsettled, and that one is unique. */
  lemma InFlightIffUnsettled(ss: seq<State>, es: seq<Event>, n: nat, url: string, i: nat)
    requires Run(ss, es) && n < |ss|
    ensures UnsettledGet(ss[n], i, url) <==> url in ss[n].inFlight && ss[n].inFlight[url] == i
  {
    hide Step, Enabled;
    InvAlways(ss, es, n);
  }

  /** Whoever asks while a GET for the URL is unsettled is given that promise or a cached value,
      and everyone who holds the promise sees the same outcome from then on. */
  lemma JoinersShareOutcome(ss: seq<State>, es: seq<Event>, m: nat, n: nat, url: string)
    requires Run(ss, es) && m < n < |ss| && es[m] == Get(url) && GetAnswer(ss[m], url).Promise?
    ensures var i := GetAnswer(ss[m], url).i;
      && i < |ss[n].requests| && ss[n].requests[i].isGet && ss[n].requests[i].url == url
      && (!ss[n].requests[i].phase.Settled? ==> GetAnswer(ss[n], url) in {FromCache(GetCached(ss[n], url)), Promise(i)})
      && (ss[n].requests[i].phase.Settled? ==>
            forall p | n <= p < |ss| :: i < |ss[p].requests| && ss[p].requests[i] == ss[n].requests[i])
  {
    var i := GetAnswer(ss[m], url).i;
    InvAlways(ss, es, m);
    InFlightIffUnsettled(ss, es, m, url, i);
    assert i < |ss[m + 1].requests| && ss[m + 1].requests[i].isGet && ss[m + 1].requests[i].url == url;
    LaterAlways(ss, es, m + 1, n);
    InFlightIffUnsettled(ss, es, n, url, i);
    forall p | n <= p < |ss|
      ensures Later(ss[n], ss[p])
    {
      LaterAlways(ss, es, n, p);
    }
  }
}
