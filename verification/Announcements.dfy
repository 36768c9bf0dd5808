/** The blocking announcement popup of apps/frontendall/announcements.js against a server that lists
    only announcements the user has not acknowledged. */
module Announcements {

  /** One overlay: the closure of one call of render. It stays known after its node is removed. */
  datatype Popup = Popup(ann: nat, onScreen: bool, disabled: bool, timerFired: bool)

  /** One GET /announcements/pending; a failed one is answered with an empty list. */
  datatype Query = Asked | Answered(list: seq<nat>) | QueryDone

  datatype AckStage = Posted | Accepted | Refused | AckDone

  /** One POST …/ack, sent by a click in popup p. */
  datatype Ack = Ack(p: nat, stage: AckStage)

  datatype State = State(
    showing: bool, inflight: bool, token: bool,
    popups: seq<Popup>, queries: seq<Query>, acks: seq<Ack>,
    acked: set<nat>,        // at the server
    dismissed: set<nat>)    // history: announcements whose popup was closed here

  datatype Event =
    | Check                                  // timer, focus, visibility or socket nudge
    | ServerLists(q: nat, list: seq<nat>)
    | Delivered(q: nat)
    | GuardTimer(p: nat)
    | Click(p: nat)
    | ServerAcks(k: nat, ok: bool)
    | AckDelivered(k: nat, ok: bool)         // ok == false also when the connection drops
    | AckedElsewhere(ann: nat)
    | TokenIs(present: bool)

  predicate OverlayExists(s: State) { exists p | 0 <= p < |s.popups| :: s.popups[p].onScreen }

  function Render(s: State, ann: nat): State {
    if OverlayExists(s) then s else s.(showing := true, popups := s.popups + [Popup(ann, true, true, false)])
  }

  function DoCheck(s: State): State {
    if s.showing || s.inflight || !s.token then s else s.(inflight := true, queries := s.queries + [Asked])
  }

  function Deliver(s: State, q: nat): State
    requires q < |s.queries| && s.queries[q].Answered?
  {
    var list := s.queries[q].list;
    var s := s.(inflight := false, queries := s.queries[q := QueryDone]);
    if list == [] then s else Render(s, list[0])
  }

  function DoClick(s: State, p: nat): State
    requires p < |s.popups|
  {
    if s.popups[p].disabled then s
    else s.(popups := s.popups[p := s.popups[p].(disabled := true)], acks := s.acks + [Ack(p, Posted)])
  }

  /** getElementById("annOverlay").remove(): the first overlay in the document, if any. */
  function RemoveFirst(ps: seq<Popup>): seq<Popup> {
    if ps == [] then []
    else if ps[0].onScreen then [ps[0].(onScreen := false)] + ps[1..]
    else [ps[0]] + RemoveFirst(ps[1..])
  }

  function AckSettled(s: State, k: nat, ok: bool): State
    requires k < |s.acks| && s.acks[k].p < |s.popups|
  {
    var p := s.acks[k].p;
    var s := s.(acks := s.acks[k := Ack(p, AckDone)]);
    if !ok then s.(popups := s.popups[p := s.popups[p].(disabled := false)])
    else DoCheck(s.(popups := RemoveFirst(s.popups), showing := false, dismissed := s.dismissed + {s.popups[p].ann}))
  }

  predicate Enabled(s: State, e: Event) {
    match e
    case ServerLists(q, list) =>
      q < |s.queries| && s.queries[q].Asked? && forall i | 0 <= i < |list| :: list[i] !in s.acked
    case Delivered(q) => q < |s.queries| && s.queries[q].Answered?
    case GuardTimer(p) => p < |s.popups| && !s.popups[p].timerFired
    case Click(p) => p < |s.popups| && s.popups[p].onScreen
    case ServerAcks(k, _) => k < |s.acks| && s.acks[k].stage.Posted? && s.acks[k].p < |s.popups|
    case AckDelivered(k, ok) =>
      k < |s.acks| && !s.acks[k].stage.AckDone? && s.acks[k].p < |s.popups| && (ok ==> s.acks[k].stage.Accepted?)
    case _ => true
  }

  function Step(s: State, e: Event): State
    requires Enabled(s, e)
  {
    match e
    case Check => DoCheck(s)
    case ServerLists(q, list) => s.(queries := s.queries[q := Answered(list)])
    case Delivered(q) => Deliver(s, q)
    case GuardTimer(p) => s.(popups := s.popups[p := s.popups[p].(disabled := false, timerFired := true)])
    case Click(p) => DoClick(s, p)
    case ServerAcks(k, ok) =>
      s.(acks := s.acks[k := s.acks[k].(stage := if ok then Accepted else Refused)],
         acked := if ok then s.acked + {s.popups[s.acks[k].p].ann} else s.acked)
    case AckDelivered(k, ok) => AckSettled(s, k, ok)
    case AckedElsewhere(ann) => s.(acked := s.acked + {ann})
    case TokenIs(present) => s.(token := present)
  }

  predicate Init(s: State) {
    !s.showing && !s.inflight && s.popups == [] && s.queries == [] && s.acks == [] && s.dismissed == {}
  }

  ghost predicate Run(ss: seq<State>, es: seq<Event>) {
    && |ss| == |es| + 1 && Init(ss[0])
    && forall n {:trigger es[n]} | 0 <= n < |es| :: Enabled(ss[n], es[n]) && ss[n + 1] == Step(ss[n], es[n])
  }

  lemma ExtendRun(ss: seq<State>, es: seq<Event>, e: Event)
    requires Run(ss, es) && Enabled(ss[|es|], e)
    ensures |ss| == |es| + 1 && Run(ss + [Step(ss[|es|], e)], es + [e])
  {
    hide Step, Enabled, Init;
    var es', ss' := es + [e], ss + [Step(ss[|es|], e)];
    assert |ss'| == |es'| + 1 && ss'[0] == ss[0];
    forall i {:trigger es'[i]} | 0 <= i < |es'|
      ensures Enabled(ss'[i], es'[i]) && ss'[i + 1] == Step(ss'[i], es'[i])
    {
      if i < |es| {
        assert es'[i] == es[i];
      }
    }
  }

  // ---- the invariant ----

  /** Only the newest popup can be on screen, and it is exactly while `showing`. */
  ghost predicate OneOverlay(s: State) {
    && (forall p | 0 <= p < |s.popups| && s.popups[p].onScreen :: p == |s.popups| - 1 && s.showing)
    && (s.showing ==> |s.popups| > 0 && s.popups[|s.popups| - 1].onScreen && !s.inflight)
  }

  ghost predicate OneQuery(s: State) {
    && (forall q | 0 <= q < |s.queries| && !s.queries[q].QueryDone? :: q == |s.queries| - 1 && s.inflight)
    && (s.inflight ==> |s.queries| > 0 && !s.queries[|s.queries| - 1].QueryDone?)
  }

  /** An ack in flight is the newest, belongs to the popup on screen, and keeps its button disabled. */
  ghost predicate OneAck(s: State) {
    && (forall p | 0 <= p < |s.popups| && !s.popups[p].disabled :: s.popups[p].timerFired)
    && (forall k | 0 <= k < |s.acks| && !s.acks[k].stage.AckDone? ::
          && k == |s.acks| - 1 && s.showing && s.acks[k].p == |s.popups| - 1
          && s.popups[s.acks[k].p].disabled && s.popups[s.acks[k].p].timerFired
          && (s.acks[k].stage.Accepted? ==> s.popups[s.acks[k].p].ann in s.acked))
  }

  /** What was dismissed is acknowledged, and neither shown nor about to be shown. */
  ghost predicate NeverAgain(s: State) {
    && s.dismissed <= s.acked
    && (forall p | 0 <= p < |s.popups| && s.popups[p].onScreen :: s.popups[p].ann !in s.dismissed)
    && (forall q | 0 <= q < |s.queries| && s.queries[q].Answered? ::
          forall i | 0 <= i < |s.queries[q].list| :: s.queries[q].list[i] !in s.dismissed)
  }

  ghost predicate Inv(s: State) { OneOverlay(s) && OneQuery(s) && OneAck(s) && NeverAgain(s) }

  lemma {:induction false} RemoveFirstIsLast(ps: seq<Popup>)
    requires |ps| > 0 && ps[|ps| - 1].onScreen
    requires forall p | 0 <= p < |ps| && ps[p].onScreen :: p == |ps| - 1
    ensures RemoveFirst(ps) == ps[|ps| - 1 := ps[|ps| - 1].(onScreen := false)]
  {
    if |ps| > 1 {
      RemoveFirstIsLast(ps[1..]);
    }
  }

  lemma CheckKeeps(s: State)
    requires Inv(s)
    ensures Inv(DoCheck(s))
  {
  }

  lemma AckKeeps(s: State, k: nat, ok: bool)
    requires Inv(s) && Enabled(s, AckDelivered(k, ok))
    ensures Inv(AckSettled(s, k, ok))
  {
    if ok {
      RemoveFirstIsLast(s.popups);
      var s' := s.(acks := s.acks[k := Ack(s.acks[k].p, AckDone)], popups := RemoveFirst(s.popups), showing := false,
                   dismissed := s.dismissed + {s.popups[s.acks[k].p].ann});
      assert Inv(s');
      CheckKeeps(s');
    }
  }

  lemma DeliverKeeps(s: State, q: nat)
    requires Inv(s) && Enabled(s, Delivered(q))
    ensures Inv(Deliver(s, q))
  {
  }

  lemma OtherKeeps(s: State, e: Event)
    requires Inv(s) && Enabled(s, e) && !e.Check? && !e.Delivered? && !e.AckDelivered?
    ensures Inv(Step(s, e))
  {
  }

  lemma InvStep(s: State, e: Event)
    requires Inv(s) && Enabled(s, e)
    ensures Inv(Step(s, e))
  {
    match e
    case Check => CheckKeeps(s);
    case Delivered(q) => DeliverKeeps(s, q);
    case AckDelivered(k, ok) => AckKeeps(s, k, ok);
    case _ => OtherKeeps(s, e);
  }

  lemma {:induction false} InvAlways(ss: seq<State>, es: seq<Event>, n: nat)
    requires Run(ss, es) && n < |ss|
    ensures Inv(ss[n]) && (OverlayExists(ss[n]) <==> ss[n].showing)
  {
    hide Step, Enabled;
    if n > 0 {
      InvAlways(ss, es, n - 1);
      InvStep(ss[n - 1], es[n - 1]);
    }
  }

  // ---- what holds in every run ----

  /** At most one overlay, never while a query is out, and at most one ack in flight, which is for that overlay. */
  lemma OneThingAtATime(ss: seq<State>, es: seq<Event>, n: nat)
    requires Run(ss, es) && n < |ss|
    ensures var s := ss[n];
      && !(s.showing && s.inflight)
      && (OverlayExists(s) <==> s.showing)
      && (forall p, r | 0 <= p < |s.popups| && 0 <= r < |s.popups| ::
            s.popups[p].onScreen && s.popups[r].onScreen ==> p == r)
      && (forall k, j | 0 <= k < |s.acks| && 0 <= j < |s.acks| ::
            !s.acks[k].stage.AckDone? && !s.acks[j].stage.AckDone? ==> k == j)
      && (forall k | 0 <= k < |s.acks| && !s.acks[k].stage.AckDone? ::
            s.acks[k].p < |s.popups| && s.popups[s.acks[k].p].onScreen)
  {
    InvAlways(ss, es, n);
  }

  lemma AcceptedStep(s: State, e: Event, k: nat)
    requires Enabled(s, e) && k < |Step(s, e).acks| && Step(s, e).acks[k].stage.Accepted?
    ensures (k < |s.acks| && s.acks[k].stage.Accepted? && s.acks[k].p == Step(s, e).acks[k].p)
            || e == ServerAcks(k, true)
  {
  }

  lemma {:induction false} AcceptedByServer(ss: seq<State>, es: seq<Event>, n: nat, k: nat) returns (m: nat)
    requires Run(ss, es) && n < |ss| && k < |ss[n].acks| && ss[n].acks[k].stage.Accepted?
    ensures m < n && es[m] == ServerAcks(k, true)
  {
    hide Step, Enabled;
    AcceptedStep(ss[n - 1], es[n - 1], k);
    if es[n - 1] == ServerAcks(k, true) {
      m := n - 1;
    } else {
      m := AcceptedByServer(ss, es, n - 1, k);
    }
  }

  lemma ClosedStep(s: State, e: Event, p: nat)
    requires Inv(s) && Enabled(s, e) && p < |s.popups| && s.popups[p].onScreen
    requires p < |Step(s, e).popups| ==> !Step(s, e).popups[p].onScreen
    ensures e.AckDelivered? && e.ok && s.acks[e.k].p == p
  {
    if e.AckDelivered? && e.ok {
      RemoveFirstIsLast(s.popups);
    }
  }

  /** A popup leaves the screen only on the answer to its own ack, after the server accepted that ack. */
  lemma DismissedOnlyAfterAck(ss: seq<State>, es: seq<Event>, n: nat, p: nat) returns (m: nat)
    requires Run(ss, es) && n < |es| && p < |ss[n].popups| && ss[n].popups[p].onScreen
    requires p < |ss[n + 1].popups| ==> !ss[n + 1].popups[p].onScreen
    ensures es[n].AckDelivered? && es[n].ok && ss[n].acks[es[n].k].p == p
    ensures m < n && es[m] == ServerAcks(es[n].k, true)
    ensures ss[n].popups[p].ann in ss[n].acked && ss[n].popups[p].ann in ss[n + 1].dismissed
  {
    InvAlways(ss, es, n);
    ClosedStep(ss[n], es[n], p);
    m := AcceptedByServer(ss, es, n, es[n].k);
  }

  lemma DismissedStep(s: State, e: Event)
    requires Enabled(s, e)
    ensures s.dismissed <= Step(s, e).dismissed
  {
  }

  /** A dismissed announcement is never on screen again. */
  lemma {:induction false} DismissedStaysAway(ss: seq<State>, es: seq<Event>, m: nat, n: nat, ann: nat)
    requires Run(ss, es) && m <= n < |ss| && ann in ss[m].dismissed
    ensures ann in ss[n].dismissed
    ensures forall p | 0 <= p < |ss[n].popups| && ss[n].popups[p].onScreen :: ss[n].popups[p].ann != ann
  {
    hide Step, Enabled;
    InvAlways(ss, es, n);
    if m < n {
      DismissedStaysAway(ss, es, m, n - 1, ann);
      DismissedStep(ss[n - 1], es[n - 1]);
    }
  }

  // ---- what does happen ----

  lemma AnsweredStep(s: State, e: Event, q: nat)
    requires Enabled(s, e) && q < |Step(s, e).queries| && Step(s, e).queries[q].Answered?
    ensures (q < |s.queries| && s.queries[q] == Step(s, e).queries[q])
            || e == ServerLists(q, Step(s, e).queries[q].list)
  {
  }

  lemma {:induction false} AnsweredByServer(ss: seq<State>, es: seq<Event>, n: nat, q: nat) returns (m: nat)
    requires Run(ss, es) && n < |ss| && q < |ss[n].queries| && ss[n].queries[q].Answered?
    ensures m < n && es[m] == ServerLists(q, ss[n].queries[q].list)
  {
    hide Step, Enabled;
    AnsweredStep(ss[n - 1], es[n - 1], q);
    if es[n - 1] == ServerLists(q, ss[n].queries[q].list) {
      m := n - 1;
    } else {
      m := AnsweredByServer(ss, es, n - 1, q);
    }
  }

  /** The delivery of what the server listed puts up one popup, for the first announcement of the list and with its
      button disabled, and no other is on screen; an empty list changes nothing on screen. */
  lemma DeliveryShowsFirst(ss: seq<State>, es: seq<Event>, n: nat, q: nat) returns (m: nat)
    requires Run(ss, es) && n < |es| && es[n] == Delivered(q)
    ensures m < n && es[m].ServerLists? && es[m].q == q
    ensures var s, s', list := ss[n], ss[n + 1], es[m].list;
      if list == [] then s'.popups == s.popups && s'.showing == s.showing
      else s'.showing && s'.popups == s.popups + [Popup(list[0], true, true, false)]
           && forall p | 0 <= p < |s.popups| :: !s.popups[p].onScreen
    ensures !ss[n + 1].inflight
  {
    InvAlways(ss, es, n);
    m := AnsweredByServer(ss, es, n, q);
  }

  /** A check asks the server, once, if and only if there is a token, nothing on screen and no query out. */
  lemma CheckAsksIff(ss: seq<State>, es: seq<Event>, n: nat)
    requires Run(ss, es) && n < |es| && es[n] == Check
    ensures var s := ss[n];
      ss[n + 1].queries
      == if s.token && (forall p | 0 <= p < |s.popups| :: !s.popups[p].onScreen)
            && (forall q | 0 <= q < |s.queries| :: s.queries[q].QueryDone?)
         then s.queries + [Asked] else s.queries
    ensures ss[n + 1].popups == ss[n].popups
  {
    InvAlways(ss, es, n);
  }

  predicate AckOut(s: State, p: nat) { exists k | 0 <= k < |s.acks| :: s.acks[k].p == p && !s.acks[k].stage.AckDone? }

  /** The button of the popup on screen is disabled exactly before its timer has fired and while its ack is out. */
  ghost predicate ButtonShape(s: State) {
    forall p | 0 <= p < |s.popups| && s.popups[p].onScreen ::
      s.popups[p].disabled <==> !s.popups[p].timerFired || AckOut(s, p)
  }

  lemma ButtonStep(s: State, e: Event)
    requires Inv(s) && Enabled(s, e) && ButtonShape(s)
    ensures ButtonShape(Step(s, e))
  {
    var s' := Step(s, e);
    match e
    case Click(p) =>
      if !s.popups[p].disabled {
        assert s'.acks[|s.acks|] == Ack(p, Posted);
        assert AckOut(s', p);
      }
    case ServerAcks(k, ok) =>
      assert s'.acks[k].p == s.acks[k].p && !s'.acks[k].stage.AckDone?;
      assert AckOut(s', s.acks[k].p);
    case AckDelivered(k, ok) =>
      if ok {
        RemoveFirstIsLast(s.popups);
      }
    case Delivered(q) =>
    case _ =>
  }

  lemma {:induction false} ButtonIff(ss: seq<State>, es: seq<Event>, n: nat)
    requires Run(ss, es) && n < |ss|
    ensures ButtonShape(ss[n])
  {
    hide Step, Enabled;
    if n > 0 {
      ButtonIff(ss, es, n - 1);
      InvAlways(ss, es, n - 1);
      ButtonStep(ss[n - 1], es[n - 1]);
    }
  }

  /** A click sends an ack for its popup if and only if the guard timer has fired and no ack is out. */
  lemma ClickAcksIff(ss: seq<State>, es: seq<Event>, n: nat, p: nat)
    requires Run(ss, es) && n < |es| && es[n] == Click(p)
    ensures ss[n + 1].acks
            == if ss[n].popups[p].timerFired && !AckOut(ss[n], p) then ss[n].acks + [Ack(p, Posted)] else ss[n].acks
  {
    InvAlways(ss, es, n);
    ButtonIff(ss, es, n);
  }

  /** An ack that failed leaves its popup up with the button enabled, and none out. */
  lemma FailedAckCanBeRetried(ss: seq<State>, es: seq<Event>, n: nat, k: nat)
    requires Run(ss, es) && n < |es| && es[n] == AckDelivered(k, false)
    ensures var s', p := ss[n + 1], ss[n].acks[k].p;
      p < |s'.popups| && s'.popups[p].onScreen && !s'.popups[p].disabled && !AckOut(s', p)
  {
    InvAlways(ss, es, n);
  }

  /** An accepted ack takes its popup down and, with a token, asks for the next announcement at once. */
  lemma AcceptedAckCloses(ss: seq<State>, es: seq<Event>, n: nat, k: nat)
    requires Run(ss, es) && n < |es| && es[n] == AckDelivered(k, true)
    ensures var s, s' := ss[n], ss[n + 1];
      && !s'.showing && (forall p | 0 <= p < |s'.popups| :: !s'.popups[p].onScreen)
      && s'.dismissed == s.dismissed + {s.popups[s.acks[k].p].ann}
      && s'.queries == if s.token then s.queries + [Asked] else s.queries
  {
    InvAlways(ss, es, n);
    RemoveFirstIsLast(ss[n].popups);
  }

  // ---- nobody is trapped ----

  /** The next event on the way to taking the popup down. */
  function Onward(s: State): Event
    requires |s.popups| > 0
  {
    var p := |s.popups| - 1;
    if |s.acks| > 0 && !s.acks[|s.acks| - 1].stage.AckDone? then
      (match s.acks[|s.acks| - 1].stage
       case Posted => ServerAcks(|s.acks| - 1, true)
       case Accepted => AckDelivered(|s.acks| - 1, true)
       case _ => AckDelivered(|s.acks| - 1, false))
    else if s.popups[p].timerFired then Click(p) else GuardTimer(p)
  }

  function Effort(s: State): nat
    requires |s.popups| > 0
  {
    if |s.acks| > 0 && !s.acks[|s.acks| - 1].stage.AckDone? then
      (match s.acks[|s.acks| - 1].stage case Posted => 2 case Accepted => 1 case _ => 4)
    else if s.popups[|s.popups| - 1].timerFired then 3 else 4
  }

  lemma OnwardStep(s: State)
    requires Inv(s) && ButtonShape(s) && s.showing
    ensures Enabled(s, Onward(s))
    ensures var s' := Step(s, Onward(s));
      if s'.showing then |s'.popups| == |s.popups| && Effort(s') < Effort(s)
      else forall p | 0 <= p < |s'.popups| :: !s'.popups[p].onScreen
  {
    var e := Onward(s);
    if e.AckDelivered? && e.ok {
      RemoveFirstIsLast(s.popups);
    }
  }

  /** From any state with a popup up, at most four events take it down: the timer, a click, the server, its answer. */
  lemma CanBeDismissed(ss: seq<State>, es: seq<Event>) returns (ss': seq<State>, es': seq<Event>)
    requires Run(ss, es) && ss[|es|].showing
    ensures Run(ss', es') && ss <= ss' && es <= es' && |es'| <= |es| + 4 && !ss'[|es'|].showing
    ensures forall p | 0 <= p < |ss'[|es'|].popups| :: !ss'[|es'|].popups[p].onScreen
  {
    InvAlways(ss, es, |es|);
    ss', es' := Dismiss(ss, es);
  }

  lemma {:induction false} Dismiss(ss: seq<State>, es: seq<Event>) returns (ss': seq<State>, es': seq<Event>)
    requires Run(ss, es) && ss[|es|].showing && |ss[|es|].popups| > 0
    ensures Run(ss', es') && ss <= ss' && es <= es' && |es'| <= |es| + Effort(ss[|es|]) && !ss'[|es'|].showing
    ensures forall p | 0 <= p < |ss'[|es'|].popups| :: !ss'[|es'|].popups[p].onScreen
    decreases Effort(ss[|es|])
  {
    InvAlways(ss, es, |es|);
    ButtonIff(ss, es, |es|);
    hide Run, Step, Enabled, Inv, ButtonShape, Effort, Onward;
    var s := ss[|es|];
    OnwardStep(s);
    ExtendRun(ss, es, Onward(s));
    ss', es' := ss + [Step(s, Onward(s))], es + [Onward(s)];
    if ss'[|es'|].showing {
      ss', es' := Dismiss(ss', es');
    }
  }
}
