/** connectRealtime and disconnectRealtime of apps/frontendall/services/api.js: the life of the socket. */
module Realtime {
  import opened Prelude

  /** `sockets[i]` says whether socket i is open; `loads[i]` whether load i of the client script is outstanding. */
  datatype State = State(token: bool, loading: bool, socket: Option<nat>, sockets: seq<bool>, loads: seq<bool>)

  datatype Event =
    | Connect                       // page load, storage event with a token, or another script
    | Loaded(l: nat, ok: bool)      // the script load settles; ok: the client is there
    | Disconnect                    // logout, or the token removed in another tab
    | TokenIs(present: bool)

  predicate Enabled(s: State, e: Event) { e.Loaded? ==> e.l < |s.loads| && s.loads[e.l] }

  function Step(s: State, e: Event): State
    requires Enabled(s, e)
  {
    match e
    case Connect =>
      if !s.token || s.loading || s.socket.Some? then s else s.(loading := true, loads := s.loads + [true])
    case Loaded(l, ok) =>
      var s := s.(loads := s.loads[l := false], loading := false);
      if !ok || s.socket.Some? then s else s.(socket := Some(|s.sockets|), sockets := s.sockets + [true])
    case Disconnect =>
      if s.socket.Some? && s.socket.value < |s.sockets|
      then s.(sockets := s.sockets[s.socket.value := false], socket := None) else s.(socket := None)
    case TokenIs(present) => s.(token := present)
  }

  predicate Init(s: State) { !s.loading && s.socket.None? && s.sockets == [] && s.loads == [] }

  /** An open socket is the current one; an outstanding load is the one `loading` announces. */
  ghost predicate Inv(s: State) {
    && (forall i | 0 <= i < |s.sockets| && s.sockets[i] :: s.socket == Some(i))
    && (s.socket.Some? ==> s.socket.value < |s.sockets| && s.sockets[s.socket.value])
    && (forall l | 0 <= l < |s.loads| && s.loads[l] :: l == |s.loads| - 1 && s.loading)
    && (s.loading ==> |s.loads| > 0 && s.loads[|s.loads| - 1])
  }

  predicate Feasible(s: State, es: seq<Event>)
    decreases |es|, 0
  {
    es == [] || (Feasible(s, es[..|es| - 1]) && Enabled(After(s, es[..|es| - 1]), es[|es| - 1]))
  }

  function After(s: State, es: seq<Event>): State
    requires Feasible(s, es)
    decreases |es|, 1
  {
    if es == [] then s else Step(After(s, es[..|es| - 1]), es[|es| - 1])
  }

  lemma InvStep(s: State, e: Event)
    requires Inv(s) && Enabled(s, e)
    ensures Inv(Step(s, e))
  {
  }

  lemma {:induction false} OneSocket(s: State, es: seq<Event>)
    requires Inv(s) && Feasible(s, es)
    ensures Inv(After(s, es))
    ensures var t := After(s, es);
      forall i, j | 0 <= i < |t.sockets| && 0 <= j < |t.sockets| && t.sockets[i] && t.sockets[j] :: i == j
  {
    hide Step;
    if es != [] {
      OneSocket(s, es[..|es| - 1]);
      InvStep(After(s, es[..|es| - 1]), es[|es| - 1]);
    }
  }

  /** In every run from page load, at most one socket is open, and it is the one `realtime.socket` holds. */
  lemma OneSocketFromLoad(s: State, es: seq<Event>)
    requires Init(s) && Feasible(s, es)
    ensures var t := After(s, es); forall i | 0 <= i < |t.sockets| :: t.sockets[i] <==> t.socket == Some(i)
  {
    OneSocket(s, es);
  }

  /** After a connect, a client load whose success would open a socket is under way if and only if there was no socket
      and a token was stored, or a load was under way before. */
  lemma ConnectOpensIff(s: State)
    requires Inv(s)
    ensures (exists l | 0 <= l < |Step(s, Connect).loads| :: Opens(Step(s, Connect), l))
            <==> s.socket.None? && (s.token || s.loading)
  {
    var t := Step(s, Connect);
    if s.socket.None? && (s.token || s.loading) {
      assert Opens(t, |t.loads| - 1);
    }
  }

  /** The success of load l opens a socket that is then the stored one. */
  predicate Opens(s: State, l: nat) {
    Enabled(s, Loaded(l, true))
    && var t := Step(s, Loaded(l, true)); |t.sockets| == |s.sockets| + 1 && t.socket == Some(|s.sockets|) && !t.loading
  }

  /** A failed load opens nothing and leaves the way free for the next connect. */
  lemma FailedLoadCanBeRetried(s: State, l: nat)
    requires Inv(s) && Enabled(s, Loaded(l, false)) && s.socket.None? && s.token
    ensures var t := Step(s, Loaded(l, false)); t.sockets == s.sockets && t.socket.None?
    ensures var t := Step(Step(s, Loaded(l, false)), Connect);
      exists m | 0 <= m < |t.loads| :: Opens(t, m)
  {
    InvStep(s, Loaded(l, false));
    ConnectOpensIff(Step(s, Loaded(l, false)));
  }

  /** Whether the last token event of the run stored a token; `first` before there is one. */
  function LastToken(first: bool, es: seq<Event>): bool {
    if es == [] then first
    else if es[|es| - 1].TokenIs? then es[|es| - 1].present else LastToken(first, es[..|es| - 1])
  }

  lemma {:induction false} TokenIsLatest(s: State, es: seq<Event>)
    requires Feasible(s, es)
    ensures After(s, es).token == LastToken(s.token, es)
  {
    if es != [] {
      TokenIsLatest(s, es[..|es| - 1]);
    }
  }

  predicate Quiet(es: seq<Event>) { Connect !in es }

  lemma {:induction false} QuietStaysClosed(s: State, es: seq<Event>)
    requires Inv(s) && !s.loading && s.socket.None? && Quiet(es) && Feasible(s, es)
    ensures After(s, es).socket.None? && !After(s, es).loading
  {
    if es != [] {
      QuietStaysClosed(s, es[..|es| - 1]);
      OneSocket(s, es[..|es| - 1]);
    }
  }

  /** A disconnect lasts until the next connect, whatever else happens, exactly when no load was outstanding;
      otherwise the load still opens a socket afterwards. */
  lemma DisconnectIsFinalIff(s: State)
    requires Inv(s)
    ensures (forall es | Quiet(es) && Feasible(Step(s, Disconnect), es) :: After(Step(s, Disconnect), es).socket.None?)
            <==> !s.loading
  {
    var d := Step(s, Disconnect);
    assert Inv(d);
    if s.loading {
      var e := Loaded(|s.loads| - 1, true);
      assert [e][..0] == [];
      assert Feasible(d, []) && Feasible(d, [e]) && Quiet([e]);
      assert After(d, [e]) == Step(d, e);
      assert After(d, [e]).socket.Some?;
    } else {
      forall es | Quiet(es) && Feasible(d, es)
        ensures After(d, es).socket.None?
      {
        QuietStaysClosed(d, es);
      }
    }
  }

  class Socket {
    var token: bool
    var loading: bool
    var socket: Option<nat>
    var sockets: seq<bool>
    var loads: seq<bool>
    // the state at page load and every event since
    ghost var start: State
    ghost var events: seq<Event>

    ghost function View(): State
      reads this
    {
      State(token, loading, socket, sockets, loads)
    }

    ghost predicate Valid()
      reads this
    {
      Init(start) && Feasible(start, events) && After(start, events) == View()
    }

    ghost method Record(e: Event)
      requires Init(start) && Feasible(start, events) && Enabled(After(start, events), e)
      requires View() == Step(After(start, events), e)
      modifies this`events
      ensures Valid() && events == old(events) + [e] && View() == old(View())
    {
      assert (events + [e])[..|events|] == events;
      events := events + [e];
    }

    /** Whatever happened so far, a socket is open if and only if it is the stored one. */
    lemma AlwaysSafe()
      requires Valid()
      ensures Inv(View()) && forall i | 0 <= i < |sockets| :: sockets[i] <==> socket == Some(i)
    {
      OneSocket(start, events);
      OneSocketFromLoad(start, events);
    }

    constructor (token: bool)
      ensures Init(View()) && this.token == token && Valid() && events == []
    {
      this.token, loading, socket, sockets, loads := token, false, None, [], [];
      start, events := State(token, false, None, [], []), [];
    }

    method ConnectRealtime()
      requires Valid()
      modifies this
      ensures View() == Step(old(View()), Connect)
      ensures Valid() && events == old(events) + [Connect]
    {
      if !token || loading || socket.Some? {
        Record(Connect);
        return;
      }
      loading := true;
      loads := loads + [true];
      Record(Connect);
    }

    method ClientLoaded(l: nat, ok: bool)
      requires Valid() && l < |loads| && loads[l]
      modifies this
      ensures View() == Step(old(View()), Loaded(l, ok))
      ensures Valid() && events == old(events) + [Loaded(l, ok)]
    {
      loads := loads[l := false];
      if ok && socket.None? {
        socket := Some(|sockets|);
        sockets := sockets + [true];
      }
      loading := false;
      Record(Loaded(l, ok));
    }

    method DisconnectRealtime()
      requires Valid()
      modifies this
      ensures View() == Step(old(View()), Disconnect)
      ensures Valid() && events == old(events) + [Disconnect]
    {
      if socket.Some? && socket.value < |sockets| {
        sockets := sockets[socket.value := false];
      }
      socket := None;
      Record(Disconnect);
    }

    /** The access token was stored or removed. */
    method TokenChanged(present: bool)
      requires Valid()
      modifies this
      ensures View() == Step(old(View()), TokenIs(present))
      ensures Valid() && events == old(events) + [TokenIs(present)]
    {
      token := present;
      Record(TokenIs(present));
    }
  }
}
