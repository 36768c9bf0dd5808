# Verified model of the Launchpad front end's session client and its neighbours

A Dafny model of the parts of the repository where correctness is not visible from one function body,
with proofs about every run or every input:

- **the session client** (`services/api.js`, with the session check of `safeInit`): concurrent requests, one shared
  token refresh, replay, a response cache with a time limit, and a table of GETs in flight;
- **calendar arithmetic** (`services/date-presets.js`), on a proved Gregorian day-number bijection;
- **colour maths** (`brand.js`): HSL to RGB and back over the reals, hex text, ramps that keep their order after rounding;
- **the blocking announcement popup** (`announcements.js`) against the server's list of unacknowledged items;
- **the appointment exclusion constraint** of migration 001, with a packing bound;
- **smaller machines and text forms**: canonical nav order, the coach carousel, the realtime socket, base-62 API keys, the deal
  importer, carrier keys, phone formatting.

## How it is built

Code that updates fields in place is a class whose methods do the same updates (`Client`, `Socket`, `Announcer`,
`CoachBar`, `NavGroup`, `AppointmentTable`, `Target`, `Ramp`, `JsDate`). Each method is proved to take exactly one step of a
transition function over a plain value, and the properties of whole runs are proved about that function. A run is any
sequence of enabled events, so each such theorem covers every interleaving of responses, refreshes, timers and clicks.
`Client`, `Announcer`, `CoachBar` and `Socket` remember their history in ghost fields; their `Valid` says that it is a run, so
what is proved of all runs is a property of the object at any time (`AlwaysSafe` in each of them).

The session client is spread over several modules: `ApiModel` (state and steps), `ApiInvariants` (what each step keeps),
`ApiSession` (tokens), `ApiSurvival` (what ends a session), `ApiOutcomes` (what the events of a run make of tokens, refreshes
and calls), `ApiChains` (termination), `ApiCache`, `ApiClears` (what a clear
achieves), `ApiTraces` (families of runs that show what is *not* promised) and `ApiClient` (the object itself). In it a promise is a row of a table, a
request records every token it was sent with, and the window between `setTokens` and the `finally` that empties
`refreshInFlight` is a stage of its own.

The runs built in `ApiTraces` also meet the hypotheses of the theorems about replays and refreshes, so those are not empty.

`hide` in a proof only keeps the named definitions out of that proof's context.

## Interleavings

A run may take its enabled events in any order, which is more than a browser does: there, everything from the `setTokens`
callback to the `finally` is done before the next network answer is handled. `ApiSession.EventLoop` describes the runs of a
browser. What is proved of all runs holds of those too. One promise holds of those only: *"Replay it with the current token"*
(api.js:174-178). In a browser every replay carries a token other than the refused one
(`ApiSession.DrainedReplaysChangeToken`, `ApiSession.BrowserReplaysChangeToken`).
`ApiSession.ReplayTokenDiffersUnlessTooLate` shows what this rests on: were a 401 handled inside that window, and only then, the
request would be replayed with the token it was refused with (`ApiTraces.TooLateJoinRepeatsToken` is such a run of the
transition system; no browser produces it). All other runs in `ApiTraces` are runs of a browser and of a server that never
hands out a token twice, and so are the continuations in `ApiClears` if the run they continue is.

## Where the code and what is said about it differ

- *"ONE refresh at a time"* (api.js:143-147) is about time, not about tokens: a request sent with no token always takes the
  refresh path (api.js:179-181), so it can bring about a second refresh right after a successful one
  (`ApiTraces.TokenlessRequestRefreshesAgain`). For requests that carried a token there is at most one success per token.
- *"live updates never render stale cached responses"* (api.js:76-78). A GET sent before a clear still fills the cache
  after it (`ApiTraces.ClearedCacheRefilledByOldGet`). Two questions are answered exactly. Staleness:
  `ApiClears.ClearEndsStaleHitsIff` says that no later hit answers a fetch sent before the clear if and only if no fetch for the
  URL was under way at the clear that could still be answered with a body; a GET that waits for a refresh is fetched
  again afterwards and does no harm. Request time: `ApiClears.ClearHoldsIff` says that every later hit belongs to a GET *made* after
  the clear if and only if no GET for the URL that could still succeed, a waiting one included, was under way. For a caller it is enough
  for both that no GET for the URL is in flight (`ApiClears.IdleClearHolds`).
- `disconnectRealtime` does not cancel a load of the socket client that is under way (`Realtime.DisconnectIsFinalIff`).
- `shiftISO` reads the years 0 to 99 as 1900 to 1999, so even a shift by 0 changes such dates (`DatePresets.ShiftByZeroIff`), and
  `presetRange` prints the year without padding (`DatePresets.StartHasIsoShapeIff`).
- `this_week` is not always part of the month or of `all` (`DatePresets.WindowsNest` says exactly when it is).
- `_b62` encodes 0 as `"0"`, which is also the encoding of 52 (`ApiKey.EncodeCollidesIff`).
- Normalizing the nav twice differs from once exactly when a listed href occurs twice (`NavOrder.NormalizedTwiceIff`).
- A click on an arrow while the carousel is paused arms its timers again (`Carousel.PausedClickArms`); they fire without effect.
  A paused carousel has live timers exactly after such a click (`Carousel.PausedLiveIff`).
- The dry run of the importer counts a repeated source id twice, a commit once (`DealImport.DryRunPredictsIff`).
  The source query reads one table without a join, so this needs a source whose ids are not unique.
- The appointment constraint sets no minimum length: empty ranges are accepted anywhere (`Appointments.EmptyAppointmentsAlwaysFit`).

## Model

| member | source | states |
|---|---|---|
| ApiInvariants.InvStep | apps/frontendall/services/api.js:147-255 | every step of any kind keeps the whole invariant: a refresh is open exactly while `refreshInFlight` holds it, requests are sent once or twice, stored tokens are known, the in-flight table is exactly the unsettled GETs |
| ApiInvariants.InvAlways | apps/frontendall/services/api.js:147-255 | that invariant holds in every state of every run, in any interleaving |
| ApiInvariants.LaterAlways | apps/frontendall/services/api.js:149-255 | promises only move forward: a settled request or finished refresh never changes again, sent tokens are never rewritten |
| ApiInvariants.OtherRows | apps/frontendall/services/api.js:215-255 | an event changes no request but its own, apart from adding the request it sends, which carries the token stored at that moment |
| ApiInvariants.ResponsePhase | apps/frontendall/services/api.js:215-237 | a response either settles, goes on to its body, or, on a first 401 only, replays, waits for the refresh, or fails for want of a refresh token |
| ApiInvariants.ResponseRefreshes | apps/frontendall/services/api.js:149-171 | a response starts at most one refresh, and only when none is in flight and a refresh token is stored |
| ApiSession.AtMostOneRefreshOutstanding | apps/frontendall/services/api.js:143-171 | in every run at most one POST /auth/refresh is outstanding, and it is the shared one |
| ApiSession.OnceAlways | apps/frontendall/services/api.js:147-195 | with a server that never reissues a token: once a refresh for token t has succeeded, t is no longer stored, and no earlier refresh for t had succeeded |
| ApiSession.OneSuccessfulRefreshPerToken | apps/frontendall/services/api.js:147-195 | with such a server, all the requests refused with one access token bring about at most one successful refresh |
| ApiSession.FirstRefusal | apps/frontendall/services/api.js:173-195 | the three fates of a first 401: replay with a newer stored token, refusal for want of a refresh token, or attachment to the one open refresh |
| ApiSession.FollowsAlways | apps/frontendall/services/api.js:185-194 | a request attached to a refresh waits for exactly that one, then is replayed with the token it stored, or fails with it, in every continuation |
| ApiSession.StoredLaterIsNew | apps/frontendall/services/api.js:153-171 | a refresh still open stores, if anything, a token nobody had seen when it was open |
| ApiSession.ReplayTokenDiffersUnlessTooLate | apps/frontendall/services/api.js:173-195 | over every interleaving: a request refused on token t is replayed with t again if and only if its 401 was handled between that token's `setTokens` and the `finally` of the same refresh |
| ApiSession.DrainedReplaysChangeToken | apps/frontendall/services/api.js:173-195 | if no response is handled inside that window, as in a browser, every replay carries a token other than the refused one |
| ApiSession.BrowserReplaysChangeToken | apps/frontendall/services/api.js:173-195 | in every run in which all reactions due are run before the next network answer, every replay carries a token other than the refused one |
| ApiTraces.TooLateJoinRepeatsToken | apps/frontendall/services/api.js:149-171 | the transition system without an event loop has, for all tokens and non-auth URLs, a run in which a request is sent twice with the refused token; no browser produces it |
| ApiTraces.TokenlessRequestRefreshesAgain | apps/frontendall/services/api.js:179-185 | for all tokens, a browser's run in which a request sent without a token causes a second successful refresh after the first |
| ApiTraces.ClearedCacheRefilledByOldGet | apps/frontendall/services/api.js:52-53 | for every URL and document, a browser's run get, clear, response, body after which the cache serves that body |
| ApiSurvival.SessionEndsOnlyWhenRefused | apps/frontendall/services/api.js:118-195 | whenever a token disappears or the page redirects, it was a logout, a refresh answered 401/403 or impossible for want of a refresh token, or `safeInit` finding tokens gone, a 401 that survived the replay, or such a refusal |
| ApiSurvival.RefusalEndsSession | apps/frontendall/services/api.js:188-194 | a refused refresh does clear both tokens, leaves unless on the login page, and fails the request as session lost |
| ApiSurvival.EndsSessionStep | apps/frontendall/services/error-boundary.js:151-174 | only a logout, a lost refresh and a failing session check can end a session in one step |
| ApiSurvival.OthersLeaveTokens | apps/frontendall/services/api.js:118-171 | any response, dropped connection, failed or unreadable refresh or failed replay leaves both tokens and the page exactly as they were |
| ApiSurvival.TransientRunKeepsSession | apps/frontendall/services/api.js:118-171 | in a run whose failures are all transient (5xx, 429, network, unreadable), both tokens survive, no request ends as session lost and the page never redirects |
| ApiSurvival.LostWasAnswered | apps/frontendall/services/api.js:157-169 | a refresh counts as lost only if it was itself answered 401 or 403 |
| ApiSurvival.UnauthorizedHadNoRefresh | apps/frontendall/services/api.js:149-152 | a request refused without a refresh had its 401 handled when no refresh token was stored and no refresh was in flight |
| ApiChains.SentAtMostTwice | apps/frontendall/services/api.js:215-255 | every logical request is fetched once or twice in every run |
| ApiChains.SecondRefusalStartsNothing | apps/frontendall/services/api.js:217-224 | a 401 on a replay only goes on to its body: no token, refresh, cache entry or other request changes |
| ApiChains.CallbackPays | apps/frontendall/services/api.js:149-255 | every callback strictly lowers the number of callbacks still owed |
| ApiChains.EveryChainEnds | apps/frontendall/services/api.js:149-255 | in any run the callbacks number at most seven per request started, and what is still owed fits in the remainder |
| ApiChains.NobodyIsStuck | apps/frontendall/services/api.js:149-255 | an unsettled request always has an enabled callback that is its own or its refresh's, so no interleaving deadlocks |
| ApiOutcomes.RefreshEndsIff | apps/frontendall/services/api.js:153-171 | a refresh has a result if and only if some event gave it that result: lost by 401 or 403, renewed with the token an OK answer brought, failed by any other answer, none, or one without a token |
| ApiOutcomes.RefusedIff | apps/frontendall/services/api.js:157-169 | a refresh is lost if and only if it was answered 401 or 403, and stays lost |
| ApiOutcomes.SessionLostIff | apps/frontendall/services/api.js:185-194 | a request that learns of its refresh loses the session, with both tokens and the page, if and only if the refresh was refused or there was no refresh token at its own 401; else tokens and page are untouched |
| ApiOutcomes.SessionCheckIff | apps/frontendall/services/error-boundary.js:151-174 | the outcomes of /auth/me at which safeInit ends the session, exactly: a 401, a lost session, or anything but a user with an email once the access token is gone; else nothing changes |
| ApiOutcomes.AccessIsLatest | apps/frontendall/services/api.js:88-106 | in every run the stored access token is the last one brought by a refresh or another tab since tokens were last removed, or the initial one |
| ApiOutcomes.RefreshIsLatest | apps/frontendall/services/api.js:88-106 | and so is the refresh token, which an answer without one leaves in place |
| ApiOutcomes.SettledIff | apps/frontendall/services/api.js:205-255 | a call has an outcome if and only if some event gave it: the body of its last answer for 2xx, null for 204, else that status; no status for a dropped connection or a failed refresh; session lost for a refused one |
| ApiOutcomes.AuthEndpointIff | apps/frontendall/services/api.js:201-203 | the auth endpoints are exactly the URLs that hold one of the three paths at some place |
| ApiOutcomes.AuthRefusalIsPlainIff | apps/frontendall/services/api.js:197-224 | a first 401 goes straight to its body, touching nothing else, if and only if the URL is one of those |
| ApiOutcomes.ReplayedAtOnceIff | apps/frontendall/services/api.js:173-184 | any other first 401 is replayed at once, with the stored token, if and only if one is stored, the request carried one, and they differ; else it waits or is refused |
| ApiOutcomes.EveryAnswerIsPossible | apps/frontendall/services/api.js:149-255 | in every state of every run the network may answer whatever is outstanding with any status, any body, or not at all, so the theorems leave no answer out |
| ApiOutcomes.NowIsLatest | apps/frontendall/services/api.js:26-34 | `now` is what the clock last read |
| ApiCache.CacheHitIsLatest | apps/frontendall/services/api.js:23-60 | a value served from the cache is the last body received for that exact URL, after the last clear, under 30000 ms ago, and a document |
| ApiCache.CacheHitIff | apps/frontendall/services/api.js:23-60 | with a clock that never runs back, the cache serves d if and only if such a body exists and is d |
| ApiCache.EntryStep | apps/frontendall/services/api.js:33-54 | an entry is either the body just received with the current time, or an old one that this step neither cleared nor overwrote |
| ApiCache.InFlightIffUnsettled | apps/frontendall/services/api.js:50-61 | `inFlight[url]` is request i if and only if i is an unsettled GET for that URL; hence there is at most one |
| ApiCache.JoinersShareOutcome | apps/frontendall/services/api.js:47-61 | callers asking meanwhile get that same promise (or a cached value), and its outcome is fixed once settled |
| ApiCache.StaleEntryIsDropped | apps/frontendall/services/api.js:23-31 | asking for an entry that has outlived 30000 ms removes it for good, and nothing else |
| ApiClears.ClearEndsStaleHitsIff | apps/frontendall/services/api.js:47-81 | over all continuations of a run that ends in a clear: no later cache hit for the URL answers a fetch sent before the clear if and only if no fetch for it was under way at the clear that could still be answered with a body |
| ApiClears.ClearEndsStaleHitsInBrowserIff | apps/frontendall/services/api.js:47-81 | the same among the runs of a browser and a server with distinct tokens |
| ApiClears.HitsAreFetchedSince | apps/frontendall/services/api.js:47-81 | the first half at any point of any run: with none under way, the body of every later hit answers a fetch sent after the clear, be it the replay of an older GET |
| ApiClears.OldAnswerIsServed | apps/frontendall/services/api.js:52-53 | the second half: with one under way, the run can be continued to a hit that answers that very fetch |
| ApiClears.OldFetchesStayOver | apps/frontendall/services/api.js:173-194 | a GET that waits for a refresh never brings an answer to its first fetch, in any continuation |
| ApiClears.ClearHoldsIff | apps/frontendall/services/api.js:47-60 | about request time, not staleness: every later cache hit for the URL belongs to a GET made after the clear if and only if no GET for it that could still succeed was under way at the clear |
| ApiClears.ClearHoldsInBrowserIff | apps/frontendall/services/api.js:47-60 | the same statement about request time among the runs of a browser and a server with distinct tokens |
| ApiClears.HitsAreAskedSince | apps/frontendall/services/api.js:47-60 | the first half at any point of any run: with none such under way, every later hit belongs to a GET made after the clear |
| ApiClears.PendingIsServed | apps/frontendall/services/api.js:52-53 | the second half: with one under way, the run can be continued to a hit that belongs to a GET made before the clear |
| ApiClears.IdleClearHolds | apps/frontendall/services/api.js:76-81 | for a caller: if no GET for the URL is in flight at the clear, every later hit was both asked for and fetched after it |
| ApiClears.DoomedAlways | apps/frontendall/services/api.js:149-237 | a request whose refresh or answer has failed never brings a body, in any continuation |
| ApiClient.Client.GetCached | apps/frontendall/services/api.js:23-31 | the object's lookup gives the step's answer and drops a stale entry, and changes nothing else |
| ApiClient.Client.SetCached | apps/frontendall/services/api.js:33-35 | from now on a lookup of the URL is answered with these data until the time limit and with a miss afterwards, whatever the clock reads; every other URL is answered as before |
| ApiClient.Client.Get | apps/frontendall/services/api.js:38-62 | the object takes exactly the GET step; what the cache answers is the last body received for the URL in the object's own history, and since the last clear in it |
| ApiClient.Client.Clear | apps/frontendall/services/api.js:79-81 | the object takes exactly the clear step |
| ApiClient.Client.EmitRealtimeEvent | apps/frontendall/services/api.js:293-298 | the cache is dropped for every event name but the two connection ones |
| ApiClient.Client.MakeRequest | apps/frontendall/services/api.js:239-255 | a new request carries the token stored now |
| ApiClient.Client.SendOther | apps/frontendall/services/api.js:64-74 | the object takes exactly the step of a request that is not a GET |
| ApiClient.Client.HandleResponse | apps/frontendall/services/api.js:215-237 | the object takes exactly the response step |
| ApiClient.Client.HandleRefresh | apps/frontendall/services/api.js:173-195 | replay with a newer token or go to the shared refresh, as the transition system does |
| ApiClient.Client.RefreshAccessToken | apps/frontendall/services/api.js:149-171 | join, refuse or start, leaving the state the transition system has |
| ApiClient.Client.FetchFailed | apps/frontendall/services/api.js:252-254 | a dropped connection settles the request and nothing else |
| ApiClient.Client.BodyRead | apps/frontendall/services/api.js:205-237 | the body settles the request, fills the cache only for an OK answer to a GET, and frees its URL |
| ApiClient.Client.RefreshAnswered | apps/frontendall/services/api.js:157-166 | 401 and 403 are the only answers that lose the session |
| ApiClient.Client.RefreshNetworkError | apps/frontendall/services/api.js:167-169 | a dropped refresh is transient |
| ApiClient.Client.RefreshBodyRead | apps/frontendall/services/api.js:159-163 | tokens are stored while `refreshInFlight` is still set; a body without an access token is transient |
| ApiClient.Client.RefreshFinally | apps/frontendall/services/api.js:169 | the window closes: the result is published and `refreshInFlight` emptied |
| ApiClient.Client.Resume | apps/frontendall/services/api.js:185-194 | a waiting request replays, ends the session, or fails, as the refresh ended |
| ApiClient.Client.SetTokens | apps/frontendall/services/api.js:95-98 | the access token is replaced, the refresh token only if a new one came |
| ApiClient.Client.ClearTokens | apps/frontendall/services/api.js:100-106 | both tokens are gone and nothing else changes |
| ApiClient.Client.CheckSession | apps/frontendall/services/error-boundary.js:151-174 | the object takes exactly the session-check step |
| ApiClient.Client.AlwaysSafe | apps/frontendall/services/api.js:147-255 | whatever callbacks ran on the object, in whatever order: the invariant holds, at most one refresh is outstanding, and every request was sent once or twice |
| ApiClient.Client.Record | apps/frontendall/services/api.js:147-255 | the remembered history stays a run of the transition system that ends in the object's present state |
| ApiClient.Client.Tick | apps/frontendall/services/api.js:26-34 | the clock step, kept in the history |
| ApiClient.Client.StoredElsewhere | apps/frontendall/services/api.js:414-422 | tokens stored by another tab or a login, kept in the history |
| ApiClient.Client.RemovedElsewhere | apps/frontendall/services/api.js:414-422 | a logout here or in another tab, kept in the history |
| Realtime.OneSocket | apps/frontendall/services/api.js:323-409 | in every run of connects, loads, disconnects and token changes, at most one socket is open, and it is the stored one |
| Realtime.OneSocketFromLoad | apps/frontendall/services/api.js:323-409 | from page load on, a socket is open if and only if it is the one `realtime.socket` holds |
| Realtime.DisconnectIsFinalIff | apps/frontendall/services/api.js:323-409 | after a disconnect no socket reappears without a new connect if and only if no client load was outstanding |
| Realtime.ConnectOpensIff | apps/frontendall/services/api.js:323-341 | after a connect a load whose success opens a socket is under way if and only if there was no socket and either a token or a load already under way |
| Realtime.FailedLoadCanBeRetried | apps/frontendall/services/api.js:396-400 | a failed load opens nothing and the next connect can open a socket |
| Realtime.TokenIsLatest | apps/frontendall/services/api.js:324-325 | whether a token is stored is what the last token event said |
| Realtime.Socket.ConnectRealtime | apps/frontendall/services/api.js:323-327 | the object takes exactly the connect step |
| Realtime.Socket.ClientLoaded | apps/frontendall/services/api.js:327-400 | the object takes exactly the load step |
| Realtime.Socket.DisconnectRealtime | apps/frontendall/services/api.js:403-409 | the object takes exactly the disconnect step |
| Realtime.Socket.AlwaysSafe | apps/frontendall/services/api.js:323-409 | whatever happened to the object, a socket is open if and only if it is the stored one |
| Realtime.Socket.TokenChanged | apps/frontendall/services/api.js:414-422 | the token step, kept in the history |
| CivilDate.NextYearStarts | apps/frontendall/services/date-presets.js:13-14 | the closed formula for the first day of a year advances by 365 or 366 as the leap rule says |
| CivilDate.ToDayOfFromDay | apps/frontendall/services/date-presets.js:13-15 | every day number is that of its (valid) civil date |
| CivilDate.FromDayOfToDay | apps/frontendall/services/date-presets.js:13-15 | every valid civil date is the date of its day number |
| CivilDate.ToDayOrder | apps/frontendall/services/date-presets.js:13-15 | day numbers order valid dates as year, month and day do |
| CivilDate.AfterIsAddition | apps/frontendall/services/date-presets.js:14 | adding n to a day number is n steps of a calendar defined only by month lengths |
| CivilDate.MonthStarts | apps/frontendall/services/date-presets.js:13-14 | the month lengths give the month starts of ECMA-262, section 21.4.1.4 |
| CivilDate.Epoch | apps/frontendall/services/date-presets.js:26 | day 0 is Thursday, 1 January 1970, and weekdays follow one another |
| DatePresets.FieldsOfIso | apps/frontendall/services/date-presets.js:12 | splitting the printed date gives the date back |
| DatePresets.IsoOfFields | apps/frontendall/services/date-presets.js:12-15 | printing the fields of a valid ISO text gives the text back |
| DatePresets.IsoOrderIsChronological | apps/frontendall/services/date-presets.js:11-16 | comparing ISO texts as strings compares the days, both ways |
| DatePresets.ShiftIsoDate | apps/frontendall/services/date-presets.js:11-16 | the Date object updated in place ends with the text the specification function gives, or with the RangeError |
| DatePresets.ShiftIsAddition | apps/frontendall/services/date-presets.js:11-16 | shifting c by n prints the one date that lies n days from c |
| DatePresets.ShiftIsCalendarWalk | apps/frontendall/services/date-presets.js:11-16 | shifting forward is walking the calendar day by day |
| DatePresets.ShiftComposes | apps/frontendall/services/date-presets.js:11-16 | shifting by a then b is shifting by a + b, for any b, even where the result is out of range |
| DatePresets.ShiftBackIff | apps/frontendall/services/date-presets.js:11-16 | shifting c by n gives m if and only if shifting m by -n gives c |
| DatePresets.ShiftByZeroIff | apps/frontendall/services/date-presets.js:13 | a shift by 0 gives the date back if and only if its year is at least 100 |
| DatePresets.ShiftFailsIff | apps/frontendall/services/date-presets.js:13-15 | shifting throws if and only if it leads more than 100,000,000 days from 1970 |
| DatePresets.ShiftToLongYear | apps/frontendall/services/date-presets.js:15 | beyond four-digit years the ten characters kept are a sign, six digits and the month; the day is lost |
| DatePresets.PresetRangePrintsWindow | apps/frontendall/services/date-presets.js:22-33 | every preset prints exactly the first and last day of its calendar window |
| DatePresets.StartHasIsoShapeIff | apps/frontendall/services/date-presets.js:23-28 | the month and year starts are ISO dates if and only if the year is at least 1000 |
| DatePresets.YesterdayIsTheDayBefore | apps/frontendall/services/date-presets.js:25 | the day after `yesterday` is today, across month and year ends |
| DatePresets.WeekStartsOnMonday | apps/frontendall/services/date-presets.js:26 | the week starts on a Monday at most six days back and ends today |
| DatePresets.WeekStartsAgreeIff | apps/frontendall/services/date-presets.js:26 | two days share a week start if and only if no Monday separates them |
| DatePresets.WindowsNest | apps/frontendall/services/date-presets.js:22-33 | today lies in week and month, month in year; exact conditions for year in all, week in all, week in month |
| Colour.HslChannels | apps/frontendall/brand.js:111-119 | channels lie in [0, 1]; the largest and the smallest add up to twice the lightness and do not depend on the hue |
| Colour.HueRoundTrip | apps/frontendall/brand.js:103-119 | hueOf of the unrounded hsl triple is exactly the hue, for every hue and every saturated colour between black and white |
| Colour.GreyHasNoHue | apps/frontendall/brand.js:103-119 | on the whole gamut the hue comes back if and only if it is 0 or the colour is saturated and neither black nor white |
| Colour.HueRange | apps/frontendall/brand.js:103-109 | hueOf of any triple is a hue hsl accepts |
| Colour.SaturationLaw | apps/frontendall/brand.js:111-119 | largest minus smallest channel is the saturation times the most that the lightness allows, stated on the channels alone |
| Colour.SettingsRoundTrip | apps/frontendall/brand.js:103-119 | hue, saturation and lightness can all be read off the hsl triple, off the greys |
| Colour.HslIsInjective | apps/frontendall/brand.js:111-119 | off the greys different settings give different colours |
| Colour.EveryColourIsHsl | apps/frontendall/brand.js:103-119 | hsl undoes hueOf: every colour that is not grey is the hsl colour of its hue, its saturation and its lightness |
| Colour.PureColours | apps/frontendall/brand.js:114-115 | red, yellow, green, cyan, blue and magenta are the full colours at 0, 60, ..., 300 degrees |
| HexText.ToRgbOfPrint | apps/frontendall/brand.js:94-119 | toRgb of any printed colour returns exactly its channels |
| HexText.PrintIsInjective | apps/frontendall/brand.js:116-118 | different colours print differently |
| HexText.ToRgbOfText | apps/frontendall/brand.js:94-100 | with or without '#', six digits are three bytes, each of three digits d is the byte dd, any other length is black |
| HexText.CaseDoesNotMatter | apps/frontendall/brand.js:97 | lower-case digits read like upper-case ones |
| Brand.HslPrints | apps/frontendall/brand.js:94-119 | toRgb of the text hsl prints returns exactly the rounded channels |
| Brand.HslIsNearest | apps/frontendall/brand.js:111-119 | every channel of the printed text is the byte nearest to the exact one, in its own place |
| Brand.HueOfIsExact | apps/frontendall/brand.js:103-109 | the hue found in any text that is not grey is exact: with some saturation and lightness hsl gives back precisely its channels |
| Brand.NeutralsAreDamped | apps/frontendall/brand.js:79-89 | a neutral step has exactly four fifths of the chroma of the undamped step, an accent tint all of it |
| Brand.LightSumIsClose | apps/frontendall/brand.js:111-119 | after rounding, largest plus smallest channel is within one of 510 times the lightness, whatever hue and saturation |
| Brand.RampOrder | apps/frontendall/brand.js:76-89 | one percent more lightness is at least four more in that sum after rounding, so steps never swap or merge |
| Brand.Ramp.Publish | apps/frontendall/brand.js:158-163 | the loop publishes hex and channels of every step and leaves every other variable as it was |
| Brand.ApplyRamp | apps/frontendall/brand.js:145-163 | for any accent of hex digits, the published ramp read back is strictly ordered by step number |
| Brand.ApplyTheme | apps/frontendall/brand.js:141-169 | both ramps of a theme are published from one hue and both are ordered |
| Brand.LightenMovesTowardWhite | apps/frontendall/brand.js:122-127 | no channel gets darker or passes white, and the order of two channels is kept |
| Brand.LightenPrints | apps/frontendall/brand.js:122-127 | the text lighten prints reads back as a colour that is nowhere darker, keeps the order of the channels, and is the colour itself for amount 0 and white for amount 1 |
| Brand.LightenTextIsNearest | apps/frontendall/brand.js:122-127 | channel by channel, the text lighten prints is the nearest to going the given fraction of the way to white |
| Announcements.InvAlways | apps/frontendall/announcements.js:110-166 | the popup invariant holds in every run of checks, timers, clicks and deliveries |
| Announcements.OneThingAtATime | apps/frontendall/announcements.js:110-166 | at most one overlay, on screen exactly while `showing`; never `showing` and `inflight` together; at most one ack in flight, for the overlay on screen |
| Announcements.DismissedOnlyAfterAck | apps/frontendall/announcements.js:138-147 | an overlay leaves the screen only on the answer to its own ack, after the server accepted that ack |
| Announcements.DismissedStaysAway | apps/frontendall/announcements.js:138-166 | a dismissed announcement is never on screen again in the run |
| Announcements.DeliveryShowsFirst | apps/frontendall/announcements.js:112-166 | what the server listed, once delivered, puts up exactly one popup, for the first announcement of the list, with its button disabled; an empty list changes nothing on screen |
| Announcements.CheckAsksIff | apps/frontendall/announcements.js:158-161 | a check sends exactly one query if and only if there is a token, nothing on screen and no query out |
| Announcements.ButtonIff | apps/frontendall/announcements.js:129-142 | in every run the button on screen is disabled exactly before its timer has fired and while its ack is out |
| Announcements.ClickAcksIff | apps/frontendall/announcements.js:138-141 | a click sends one ack, for its own popup, if and only if the timer has fired and no ack is out |
| Announcements.FailedAckCanBeRetried | apps/frontendall/announcements.js:142 | after a failed ack the popup is still up, its button enabled and no ack out |
| Announcements.AcceptedAckCloses | apps/frontendall/announcements.js:143-145 | an accepted ack clears the screen and, with a token, asks for the next announcement at once |
| Announcements.CanBeDismissed | apps/frontendall/announcements.js:135-147 | from any state with a popup up, at most four events take it down: nobody is trapped |
| AnnouncementPopup.Announcer.FindOverlay | apps/frontendall/announcements.js:113 | finds the first overlay in the document, if there is one |
| AnnouncementPopup.Announcer.Render | apps/frontendall/announcements.js:112-148 | the object takes exactly the render step |
| AnnouncementPopup.Announcer.Check | apps/frontendall/announcements.js:158-161 | the object takes exactly the check step, kept in the history |
| AnnouncementPopup.Announcer.QueryAnswered | apps/frontendall/announcements.js:161-165 | the object takes exactly the delivery step, which shows the first pending announcement |
| AnnouncementPopup.Announcer.GuardTimerFired | apps/frontendall/announcements.js:135-137 | the guard timer enables that popup's button and nothing else |
| AnnouncementPopup.Announcer.Click | apps/frontendall/announcements.js:138-141 | a click on an enabled button disables it and sends one ack |
| AnnouncementPopup.Announcer.RemoveOverlay | apps/frontendall/announcements.js:143 | exactly the first overlay on screen is removed |
| AnnouncementPopup.Announcer.AckAnswered | apps/frontendall/announcements.js:141-146 | the object takes exactly the ack step: retry on failure, else close and check again |
| AnnouncementPopup.Announcer.AlwaysSafe | apps/frontendall/announcements.js:110-166 | whatever happened to the object: one overlay exactly while `showing`, never together with `inflight`, and nothing dismissed is on screen |
| AnnouncementPopup.Announcer.ServerLists | apps/frontendall/announcements.js:36-40 | the server answers a query with unacknowledged items, kept in the history |
| AnnouncementPopup.Announcer.ServerAcks | apps/frontendall/announcements.js:41-46 | the server accepts or refuses an ack, kept in the history |
| Appointments.AcceptedIff | apps/backend-api/alembic/versions/001_initial_schema.py:233-240 | a write is accepted if and only if afterwards no agent is double-booked and every active range can be built |
| Appointments.NeverDoubleBooked | apps/backend-api/alembic/versions/001_initial_schema.py:206-240 | after any sequence of inserts, updates and deletes, each agent's pending and confirmed half-open intervals are disjoint |
| Appointments.OneEndsFirst | apps/backend-api/alembic/versions/001_initial_schema.py:233-240 | the same in plain fields: of two pending or confirmed appointments of one agent that last any time, one ends no later than the other starts, after any statements |
| Appointments.ClashIsConflict | apps/backend-api/alembic/versions/001_initial_schema.py:235-239 | the constraint's conflict is: one agent, both pending or confirmed, and a moment that lies in both half-open times |
| Appointments.InsertVerdictIff | apps/backend-api/alembic/versions/001_initial_schema.py:207-240 | exactly when an insert is answered with a duplicate key, a backwards range, or an exclusion violation |
| Appointments.UpdateVerdictIff | apps/backend-api/alembic/versions/001_initial_schema.py:207-240 | exactly when an update is, which does not clash with the row it replaces |
| Appointments.PackingBound | apps/backend-api/alembic/versions/001_initial_schema.py:233-240 | n such appointments of one agent, each at least d long, in a window of length W satisfy n*d <= W |
| Appointments.AtMost44Slots | packages/shared/index.ts:82-84 | at most 44 fifteen-minute appointments of one agent fit in a business day |
| Appointments.FortyFourFit | packages/shared/index.ts:82-84 | the bound is tight: 44 adjacent slots satisfy the constraint |
| Appointments.EmptyAppointmentsAlwaysFit | apps/backend-api/alembic/versions/001_initial_schema.py:214-240 | an appointment of no length is accepted into any table, so no bound holds without a minimum length |
| Appointments.AppointmentTable.FindConflict | apps/backend-api/alembic/versions/001_initial_schema.py:235-239 | the scan finds a conflict if and only if another row conflicts |
| Appointments.AppointmentTable.Write | apps/backend-api/alembic/versions/001_initial_schema.py:235-239 | the constraint's verdict; a refused write leaves the table unchanged |
| Appointments.AppointmentTable.Insert | apps/backend-api/alembic/versions/001_initial_schema.py:207-240 | insert under a fresh key, or the refusal that applies, with the table unchanged |
| Appointments.AppointmentTable.Update | apps/backend-api/alembic/versions/001_initial_schema.py:207-240 | status and time updates pass the same constraint |
| Appointments.AppointmentTable.Delete | apps/backend-api/alembic/versions/001_initial_schema.py:207-240 | exactly that row is gone, the table still satisfies the constraint, and a row like it is accepted again under any free id |
| Appointments.DeletedTimeIsFree | apps/backend-api/alembic/versions/001_initial_schema.py:233-240 | deleting any row keeps the constraint and makes its time available to any new row of that agent |
| NavOrder.ReorderIs | apps/frontendall/prefs-extras.js:1885-1888 | the loop leaves the first link of each listed href behind all the rest, in the listed order, whatever the page |
| NavOrder.ReorderPermutes | apps/frontendall/prefs-extras.js:1885-1888 | no link is lost, added or copied, even with repeated hrefs |
| NavOrder.CanonicalOrder | apps/frontendall/prefs-extras.js:1862-1889 | with no listed href twice: unlisted links first in their old order, listed ones in ORDER |
| NavOrder.OrderOfListedIsForgotten | apps/frontendall/prefs-extras.js:2090-2114 | the result does not depend on where the page or the movers had put the listed links |
| NavOrder.InjectionPlaceIsForgotten | apps/frontendall/prefs-extras.js:1179-1199 | nor on the place an injector chose |
| NavOrder.AdjustmentsAreForgotten | apps/frontendall/prefs-extras.js:2090-2114 | any two sequences of injectors and movers of listed links that bring the same links, in any order and to any places, lead to the same normalized page |
| NavOrder.AdjustmentFacts | apps/frontendall/prefs-extras.js:1093-1101 | such a sequence keeps listed hrefs unique and the unlisted links in their order, and adds exactly the brought links whose href was missing |
| NavOrder.NormalizedAlike | apps/frontendall/prefs-extras.js:1862-1889 | the normalizer depends only on which links there are and on the order of the unlisted ones, self-link renaming included |
| NavOrder.InjectKeepsOnce | apps/frontendall/prefs-extras.js:1843-1860 | an injector never makes a listed href occur twice |
| NavOrder.IdempotentIff | apps/frontendall/prefs-extras.js:1885-1888 | reordering twice is reordering once if and only if no listed href occurs twice |
| NavOrder.NormalizedTwiceIff | apps/frontendall/prefs-extras.js:1862-1889 | the same for the whole normalizer, self-link renaming included |
| NavOrder.NormalizedIsSorted | apps/frontendall/prefs-extras.js:1877-1888 | on the normalized page no unlisted link follows a listed one, and listed links follow one another as in ORDER |
| NavOrder.NormalizedLinks | apps/frontendall/prefs-extras.js:1862-1889 | the page keeps every link, but that the first link with href "#" takes the page's name when no link has it yet |
| NavOrder.AdjustmentPlaces | apps/frontendall/prefs-extras.js:1093-1101 | an injector's or mover's link stands where it was put and the other links keep their order |
| NavOrder.RenameKeepsOnce | apps/frontendall/prefs-extras.js:1865-1876 | giving the page's own item its href never makes a listed href occur twice |
| NavOrder.NavGroup.AppendFirst | apps/frontendall/prefs-extras.js:1886-1887 | the first link with that href moves to the end, in place |
| NavOrder.NavGroup.Normalize | apps/frontendall/prefs-extras.js:1862-1889 | the loop over ORDER in place gives the normalized list |
| Carousel.CarouselSafe | apps/frontendall/coach.js:274-397 | in every run the index names a task, at most one rotate timer and one progress interval are live, and unpaused with two tasks or more both are armed |
| Carousel.FiringAdvancesIff | apps/frontendall/coach.js:365-383 | a timer moves the carousel if and only if it is a rotation and the carousel is not paused |
| Carousel.ArrowsMoveByOne | apps/frontendall/coach.js:338-345 | Next shows the following task and Prev the one before, around the ends, and each undoes the other |
| Carousel.ArrowRestarts | apps/frontendall/coach.js:338-345 | an arrow starts both timers afresh |
| Carousel.PausedIff | apps/frontendall/coach.js:385-396 | the carousel is paused exactly when the last hover or focus event was a pause |
| Carousel.PausedClickArms | apps/frontendall/coach.js:338-345 | either arrow, clicked in any paused state, arms a rotation, whose firing then changes no index |
| Carousel.PausedLiveIff | apps/frontendall/coach.js:338-396 | in every run a paused carousel has a live timer if and only if it has two tasks or more and an arrow was clicked since the last pause |
| Carousel.StretchTurns | apps/frontendall/coach.js:365-397 | in such a stretch the index is given by the number of unpaused rotations, however often the carousel is paused and resumed |
| Carousel.EveryTaskOnce | apps/frontendall/coach.js:365-397 | in any stretch of any run without arrow clicks, with any hovering, n unpaused rotations show every task, each for one rotation only, and return to the one the stretch began with |
| Carousel.CoachBar.StartProgress | apps/frontendall/coach.js:365-383 | old timers die before new ones are armed |
| Carousel.CoachBar.Arrow | apps/frontendall/coach.js:338-345 | the object takes exactly the arrow step |
| Carousel.CoachBar.Enter | apps/frontendall/coach.js:385-390 | the object takes exactly the pause step |
| Carousel.CoachBar.Leave | apps/frontendall/coach.js:391-396 | the object takes exactly the resume step |
| Carousel.CoachBar.RotateFired | apps/frontendall/coach.js:377-382 | the object takes exactly the rotation step |
| Carousel.CoachBar.ProgressFired | apps/frontendall/coach.js:372-376 | the interval changes nothing of this state |
| Carousel.CoachBar.AlwaysSafe | apps/frontendall/coach.js:274-397 | whatever was clicked, hovered or fired on the object: index in range, at most one live timer of each kind, and live timers while paused exactly after an arrow |
| ApiKey.B62 | scripts/api_key_admin.py:32-38 | the divmod loop builds the digit text of the number |
| ApiKey.DigitsDecode | scripts/api_key_admin.py:32-38 | the little-endian digits of n decode to n, and the last is never the zero digit |
| ApiKey.DecodeDigits | scripts/api_key_admin.py:28-38 | every text over the alphabet not ending in the zero digit is the digits of its value |
| ApiKey.EncodeCollidesIff | scripts/api_key_admin.py:38 | two numbers share an encoding if and only if they are equal or are 0 and 52 |
| ApiKey.LengthIff | scripts/api_key_admin.py:35-37 | k digits suffice if and only if n < 62^k |
| ApiKey.FortyThreeDigits | scripts/api_key_admin.py:41-42 | 62^42 < 2^256 < 62^43 |
| ApiKey.KeyLength | scripts/api_key_admin.py:41-42 | a key of 32 random bytes has at most 51 characters, and some have that many |
| ApiKey.KeysCollideIff | scripts/api_key_admin.py:41-42 | keys begin with ek_live_, and two numbers share a key if and only if they are equal or are 0 and 52 |
| DealImport.Target.Run | apps/backend-api/scripts/import_old_portal_deals.py:112-166 | the loop ends with the specified counters and table, or, when a row raises, with the table it found |
| DealImport.Conservation | apps/backend-api/scripts/import_old_portal_deals.py:112-152 | created + existing + without agent is the number of rows, per-agent counts add up to created, and a commit adds exactly that many deals |
| DealImport.OldUntouchedNewExplained | apps/backend-api/scripts/import_old_portal_deals.py:115-152 | old deals are untouched, every new deal comes from a row under its agent's tenant, a dry run changes nothing |
| DealImport.AtLeastOnePolicyIff | apps/backend-api/scripts/import_old_portal_deals.py:128-130 | exactly which counts of a row, negative ones included, make a deal with at least one policy |
| DealImport.NewDealsHavePolicies | apps/backend-api/scripts/import_old_portal_deals.py:115-152 | from a source without negative counts, every deal a run adds covers at least one policy |
| DealImport.NewDealsAre | apps/backend-api/scripts/import_old_portal_deals.py:76-152 | the new ids are exactly the free ids of rows of known agents, and each new deal has, field by field, the counts, status and decision of the first such row and its agent's tenant |
| DealImport.NoAgentIs | apps/backend-api/scripts/import_old_portal_deals.py:119-121 | the rows counted as without agent are exactly those |
| DealImport.ByAgentIs | apps/backend-api/scripts/import_old_portal_deals.py:151-152 | after a commit each agent's count is the number of deals it received, and no other agent is named |
| DealImport.ImportFailsIff | apps/backend-api/scripts/import_old_portal_deals.py:114-165 | a run is rolled back if and only if some row that would be created raises, or in a commit is rejected |
| DealImport.SecondRunInsertsNothing | apps/backend-api/scripts/import_old_portal_deals.py:122-125 | a second committed run on the same source inserts nothing and cannot fail |
| DealImport.DryRunPredictsIff | apps/backend-api/scripts/import_old_portal_deals.py:135-160 | the dry run announces the committed number if and only if no importable id occurs twice |
| CarrierKey.KeyIsNormal | apps/backend-api/scripts/import_old_portal_deals.py:72-73 | every key is words of a-z and 0-9 joined by single underscores, never empty |
| CarrierKey.FixedIffNormal | apps/backend-api/scripts/import_old_portal_deals.py:72-73 | the names that are their own key are exactly the normal forms |
| CarrierKey.KeyOfKey | apps/backend-api/scripts/import_old_portal_deals.py:72-73 | the key of a key is the key |
| CarrierKey.KeyKeepsLetters | apps/backend-api/scripts/import_old_portal_deals.py:72-73 | the key keeps the lower-cased letters and digits of the name in order, and is "unknown" if there are none |
| CarrierKey.KeyJoins | apps/backend-api/scripts/import_old_portal_deals.py:72-73 | two parts with a word each, set off by any other characters, have the keys of the parts joined by one underscore |
| CarrierKey.KeyIsJoined | apps/backend-api/scripts/import_old_portal_deals.py:72-73 | the substitution and the stripping together are one pass that owes an underscore between words; a missing name is "unknown" |
| Phone.FormatKeepsNumber | packages/shared/index.ts:148-157 | formatting never changes the digits, and formatting again changes nothing |
| Phone.SameNumberIff | packages/shared/index.ts:148-157 | two texts of a laid-out number look alike if and only if their digits agree |
| Phone.LayoutIs | packages/shared/index.ts:148-157 | the layout character by character for ten digits and for eleven that begin with 1; any other text stands as it is |

## Left out

- The network, the DOM, localStorage, Socket.IO and PostgreSQL themselves: they are events, plain values and inputs of the model.
- The base URL, query strings, request bodies and headers other than the token; an empty stored token counts as none.
- Hops between promise callbacks that touch no shared state are merged into one event. In particular the clean-up of a failed GET (`delete inFlight[url]`) happens together with the failure that causes it, and the `then` and `finally` of a socket client load are one event.
- `upload` differs from `post` only in its headers and is the same event.
- `safeInit`'s overlays, retry counter and messages; its session check is a GET of a URL that is not an auth endpoint, as `/auth/me` is not. The cached role is not modelled.
- ApiSession.OneSuccessfulRefreshPerToken: like the other theorems about which token a replay carries, it assumes that no access token is handed out twice, by the server or to another tab, which the client cannot know.
- ApiCache.CacheHitIff: assumes a monotone clock for the direction "such a body exists, so it is served"; `CacheHitIsLatest` does not need it.
- Reconnection and authentication of the socket are not part of this model, nor is draft autosave.
- Dates: text that is not of the form dddd-dd-dd, shifts that are not whole numbers, `prettyDate`, and `todayET` with its time zone (today is an input; the window lemmas take years 1000 to 9999).
- Floating-point error: the colour maths is over the reals. How far 8-bit rounding moves the hue of a printed colour is not stated.
- `toRgb` on text with characters other than hex digits, and its trimming; theme tables, CSS strings and fonts.
- Announcement HTML and keyboard focus; a failed query counts as an empty list.
- Appointment columns other than agent, times and status; infinite timestamps; statements on several rows at once.
- Nav: role gates, class toggles and the anchors injectors look for (any position is covered, and a mover that brings its link from outside the group is taken for an injector, which checks the href first: the code of `moveUploadIntoWorkspaces` does not, so a second upload link inside the group would then make that href occur twice); links nested below the group's direct children; every link is taken to carry the class `sb-item`.
- Carousel: the age ticker, the two action buttons (they leave the page), dots (none are rendered), the width of the bar.
- API keys: hashing, the random source, and the commands that store and revoke keys.
- Deal import: names, addresses, `state_code`, the carrier and its key on the row, sampling per agent, date defaults; the status is taken as already upper-cased.
- CarrierKey.KeyIsNormal: ASCII names only; lower-casing of other characters is not part of this model. The same holds for the other carrier-key lemmas.
- `maskPhone` and the validators; migrations 002 to 065; the translation walker; score tiers, badges and tours.
