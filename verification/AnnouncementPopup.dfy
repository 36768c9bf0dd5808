/** announcements.js itself: the handlers that flip `showing`, `inflight` and the button. */
module AnnouncementPopup {
  import A = Announcements

  class Announcer {
    var showing: bool
    var inflight: bool
    var token: bool
    var popups: seq<A.Popup>
    var queries: seq<A.Query>
    var acks: seq<A.Ack>
    ghost var acked: set<nat>       // the server's side
    ghost var dismissed: set<nat>
    // every event since the script was loaded, and the states between them
    ghost var events: seq<A.Event>
    ghost var states: seq<A.State>

    ghost function View(): A.State
      reads this
    {
      A.State(showing, inflight, token, popups, queries, acks, acked, dismissed)
    }

    ghost predicate Valid()
      reads this
    {
      A.Run(states, events) && states[|events|] == View()
    }

    ghost method Record(e: A.Event)
      requires A.Run(states, events) && A.Enabled(states[|events|], e) && View() == A.Step(states[|events|], e)
      modifies this`events, this`states
      ensures Valid() && events == old(events) + [e] && View() == old(View())
    {
      hide A.Run, A.Enabled, A.Step;
      A.ExtendRun(states, events, e);
      states := states + [View()];
      events := events + [e];
    }

    /** Whatever happened so far: one overlay, exactly while `showing`, and nothing dismissed is on screen. */
    lemma AlwaysSafe()
      requires Valid()
      ensures A.Inv(View()) && !(showing && inflight) && (A.OverlayExists(View()) <==> showing)
      ensures forall p | 0 <= p < |popups| && popups[p].onScreen :: popups[p].ann !in dismissed
    {
      A.InvAlways(states, events, |events|);
    }

    constructor (token: bool, ghost acked: set<nat>)
      ensures A.Init(View()) && this.token == token && this.acked == acked
      ensures Valid() && events == []
    {
      showing, inflight, popups, queries, acks := false, false, [], [], [];
      this.token := token;
      this.acked, dismissed := acked, {};
      new;
      events, states := [], [View()];
    }

    method FindOverlay() returns (p: nat)
      ensures p <= |popups| && (p < |popups| <==> A.OverlayExists(View()))
      ensures p < |popups| ==> popups[p].onScreen
      ensures forall j | 0 <= j < p :: !popups[j].onScreen
    {
      p := 0;
      while p < |popups| && !popups[p].onScreen
        invariant p <= |popups| && forall j | 0 <= j < p :: !popups[j].onScreen
      {
        p := p + 1;
      }
    }

    method Render(ann: nat)
      modifies this`showing, this`popups
      ensures View() == A.Render(old(View()), ann)
    {
      var p := FindOverlay();
      if p < |popups| {
        return;
      }
      showing := true;
      popups := popups + [A.Popup(ann, true, true, false)];
    }

    method StartCheck()
      modifies this`inflight, this`queries
      ensures View() == A.DoCheck(old(View()))
    {
      if showing || inflight || !token {
        return;
      }
      inflight := true;
      queries := queries + [A.Asked];
    }

    method Check()
      requires Valid()
      modifies this`inflight, this`queries, this`events, this`states
      ensures View() == A.Step(old(View()), A.Check)
      ensures Valid() && events == old(events) + [A.Check]
    {
      StartCheck();
      Record(A.Check);
    }

    method QueryAnswered(q: nat)
      requires Valid() && A.Enabled(View(), A.Delivered(q))
      modifies this
      ensures View() == A.Step(old(View()), A.Delivered(q))
      ensures Valid() && events == old(events) + [A.Delivered(q)]
    {
      var list := queries[q].list;
      queries := queries[q := A.QueryDone];
      inflight := false;
      if |list| > 0 {
        Render(list[0]);
      }
      Record(A.Delivered(q));
    }

    method GuardTimerFired(p: nat)
      requires Valid() && A.Enabled(View(), A.GuardTimer(p))
      modifies this`popups, this`events, this`states
      ensures View() == A.Step(old(View()), A.GuardTimer(p))
      ensures Valid() && events == old(events) + [A.GuardTimer(p)]
    {
      popups := popups[p := popups[p].(disabled := false, timerFired := true)];
      Record(A.GuardTimer(p));
    }

    method Click(p: nat)
      requires Valid() && A.Enabled(View(), A.Click(p))
      modifies this`popups, this`acks, this`events, this`states
      ensures View() == A.Step(old(View()), A.Click(p))
      ensures Valid() && events == old(events) + [A.Click(p)]
    {
      if popups[p].disabled {
        Record(A.Click(p));
        return;
      }
      popups := popups[p := popups[p].(disabled := true)];
      acks := acks + [A.Ack(p, A.Posted)];
      Record(A.Click(p));
    }

    method RemoveOverlay()
      modifies this`popups
      ensures popups == A.RemoveFirst(old(popups))
    {
      var p := FindOverlay();
      if p < |popups| {
        popups := popups[p := popups[p].(onScreen := false)];
        RemoveAt(old(popups), p);
      } else {
        RemoveAt(popups, p);
      }
    }

    /** RemoveFirst changes exactly the first overlay on screen. */
    static lemma {:induction false} RemoveAt(ps: seq<A.Popup>, p: nat)
      requires p <= |ps| && (forall j | 0 <= j < p :: !ps[j].onScreen) && (p < |ps| ==> ps[p].onScreen)
      ensures A.RemoveFirst(ps) == if p < |ps| then ps[p := ps[p].(onScreen := false)] else ps
    {
      if p > 0 {
        RemoveAt(ps[1..], p - 1);
      }
    }

    method AckAnswered(k: nat, ok: bool)
      requires Valid() && A.Enabled(View(), A.AckDelivered(k, ok))
      modifies this
      ensures View() == A.Step(old(View()), A.AckDelivered(k, ok))
      ensures Valid() && events == old(events) + [A.AckDelivered(k, ok)]
    {
      var p := acks[k].p;
      acks := acks[k := A.Ack(p, A.AckDone)];
      if !ok {
        popups := popups[p := popups[p].(disabled := false)];
        Record(A.AckDelivered(k, ok));
        return;
      }
      dismissed := dismissed + {popups[p].ann};
      RemoveOverlay();
      showing := false;
      StartCheck();
      Record(A.AckDelivered(k, ok));
    }

    // ---- the server and the page around it ----

    /** The server answers a query with announcements not yet acknowledged. */
    method ServerLists(q: nat, list: seq<nat>)
      requires Valid() && A.Enabled(View(), A.ServerLists(q, list))
      modifies this`queries, this`events, this`states
      ensures View() == A.Step(old(View()), A.ServerLists(q, list))
      ensures Valid() && events == old(events) + [A.ServerLists(q, list)]
    {
      queries := queries[q := A.Answered(list)];
      Record(A.ServerLists(q, list));
    }

    method ServerAcks(k: nat, ok: bool)
      requires Valid() && A.Enabled(View(), A.ServerAcks(k, ok))
      modifies this`acks, this`acked, this`events, this`states
      ensures View() == A.Step(old(View()), A.ServerAcks(k, ok))
      ensures Valid() && events == old(events) + [A.ServerAcks(k, ok)]
    {
      if ok {
        acked := acked + {popups[acks[k].p].ann};
      }
      acks := acks[k := acks[k].(stage := if ok then A.Accepted else A.Refused)];
      Record(A.ServerAcks(k, ok));
    }

    ghost method AckedElsewhere(ann: nat)
      requires Valid()
      modifies this`acked, this`events, this`states
      ensures View() == A.Step(old(View()), A.AckedElsewhere(ann))
      ensures Valid() && events == old(events) + [A.AckedElsewhere(ann)]
    {
      acked := acked + {ann};
      Record(A.AckedElsewhere(ann));
    }

    /** A login or logout. */
    method TokenIs(present: bool)
      requires Valid()
      modifies this`token, this`events, this`states
      ensures View() == A.Step(old(View()), A.TokenIs(present))
      ensures Valid() && events == old(events) + [A.TokenIs(present)]
    {
      token := present;
      Record(A.TokenIs(present));
    }
  }
}
