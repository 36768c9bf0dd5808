/** The task carousel of apps/frontendall/coach.js (buildBar): its index and its two timers under clicks,
    hovering and timer callbacks in any order. */
module Carousel {
  import opened Prelude

  /** A timer handed out by the browser; cleared and fired timeouts are no longer live. */
  datatype Timer = Rotate(live: bool) | Progress(live: bool)

  datatype State = State(
    n: nat, idx: nat, paused: bool,
    rotateTimer: Option<nat>, progressTimer: Option<nat>,
    timers: seq<Timer>)

  datatype Event =
    | Prev | Next
    | Pause      // mouseenter, focusin
    | Resume     // mouseleave, focusout
    | Fire(t: nat)

  function Clear(s: State, t: Option<nat>): State {
    match t
    case None => s
    case Some(i) => if i < |s.timers| then s.(timers := s.timers[i := s.timers[i].(live := false)]) else s
  }

  /** startProgress: clear both timers, then arm them afresh. */
  function Rearm(s: State): State {
    if s.n < 2 then s
    else
      var s := Clear(Clear(s, s.rotateTimer), s.progressTimer);
      s.(progressTimer := Some(|s.timers|), rotateTimer := Some(|s.timers| + 1),
         timers := s.timers + [Progress(true), Rotate(true)])
  }

  function Show(s: State, idx: nat): State { Rearm(s.(idx := idx)) }

  predicate Enabled(s: State, e: Event) { e.Fire? ==> e.t < |s.timers| && s.timers[e.t].live }

  function Step(s: State, e: Event): State
    requires s.n > 0 && Enabled(s, e)
  {
    match e
    case Prev => Show(s, (s.idx + s.n - 1) % s.n)
    case Next => Show(s, (s.idx + 1) % s.n)
    case Pause =>
      Clear(Clear(s, s.rotateTimer), s.progressTimer).(paused := true, rotateTimer := None, progressTimer := None)
    case Resume => if s.paused then Rearm(s.(paused := false)) else s
    case Fire(t) =>
      if s.timers[t].Progress? then s        // only the width of the bar changes
      else
        var s := s.(timers := s.timers[t := Rotate(false)]);
        if s.paused then s else Show(s, (s.idx + 1) % s.n)
  }

  function Start(n: nat): State { Rearm(State(n, 0, false, None, None, [])) }

  ghost predicate Run(n: nat, ss: seq<State>, es: seq<Event>) {
    && n > 0 && |ss| == |es| + 1 && ss[0] == Start(n)
    && forall i {:trigger es[i]} | 0 <= i < |es| ::
         ss[i].n > 0 && Enabled(ss[i], es[i]) && ss[i + 1] == Step(ss[i], es[i])
  }

  lemma ExtendRun(n: nat, ss: seq<State>, es: seq<Event>, e: Event)
    requires Run(n, ss, es) && ss[|es|].n > 0 && Enabled(ss[|es|], e)
    ensures |ss| == |es| + 1 && Run(n, ss + [Step(ss[|es|], e)], es + [e])
  {
    hide Step, Enabled, Start;
    var es', ss' := es + [e], ss + [Step(ss[|es|], e)];
    assert |ss'| == |es'| + 1 && ss'[0] == ss[0];
    forall i {:trigger es'[i]} | 0 <= i < |es'|
      ensures ss'[i].n > 0 && Enabled(ss'[i], es'[i]) && ss'[i + 1] == Step(ss'[i], es'[i])
    {
      if i < |es| {
        assert es'[i] == es[i];
      }
    }
  }

  predicate Armed(s: State) {
    && s.rotateTimer.Some? && s.rotateTimer.value < |s.timers| && s.timers[s.rotateTimer.value] == Rotate(true)
    && s.progressTimer.Some? && s.progressTimer.value < |s.timers| && s.timers[s.progressTimer.value] == Progress(true)
  }

  /** A live timer is the one its variable holds; unpaused with two tasks or more, both are armed. */
  ghost predicate Inv(s: State) {
    && s.idx < s.n
    && (forall t | 0 <= t < |s.timers| && s.timers[t] == Rotate(true) :: s.rotateTimer == Some(t))
    && (forall t | 0 <= t < |s.timers| && s.timers[t] == Progress(true) :: s.progressTimer == Some(t))
    && (s.rotateTimer.Some? ==> s.rotateTimer.value < |s.timers| && s.timers[s.rotateTimer.value].Rotate?)
    && (s.progressTimer.Some? ==> s.progressTimer.value < |s.timers| && s.timers[s.progressTimer.value].Progress?)
    && (!s.paused && s.n >= 2 ==> Armed(s))
    && (s.n < 2 ==> s.timers == [])
  }

  lemma RearmArms(s: State)
    requires Inv(s.(paused := true)) && s.n >= 2
    ensures Inv(Rearm(s)) && Armed(Rearm(s))
  {
    ClearedIsQuiet(s);
    hide Clear;
  }

  /** Clearing both variables leaves no live timer, since a live timer is one of the two. */
  lemma ClearedIsQuiet(s: State)
    requires Inv(s.(paused := true))
    ensures var c := Clear(Clear(s, s.rotateTimer), s.progressTimer);
      c == s.(timers := c.timers) && |c.timers| == |s.timers| && forall t | 0 <= t < |c.timers| :: !c.timers[t].live
  {
  }

  lemma ShowKeeps(s: State, idx: nat)
    requires Inv(s.(paused := true)) && idx < s.n
    ensures Inv(Show(s, idx))
  {
    if s.n >= 2 {
      RearmArms(s.(idx := idx));
    }
  }

  lemma FireKeeps(s: State, t: nat)
    requires Inv(s) && Enabled(s, Fire(t))
    ensures Inv(Step(s, Fire(t)))
  {
    if s.timers[t].Rotate? {
      FiredIsQuiet(s, t);
      hide Show, Inv;
      if !s.paused {
        Wraps(s.idx + 1, s.n);
        ShowKeeps(s.(timers := s.timers[t := Rotate(false)]), (s.idx + 1) % s.n);
      }
    }
  }

  lemma Wraps(k: nat, n: nat)
    requires n > 0
    ensures k % n < n
  {
  }

  /** Once a rotation has fired, it is no longer live, which is all a paused carousel needs. */
  lemma FiredIsQuiet(s: State, t: nat)
    requires Inv(s) && Enabled(s, Fire(t)) && s.timers[t].Rotate?
    ensures var fired := s.(timers := s.timers[t := Rotate(false)]);
      Inv(fired.(paused := true)) && (s.paused ==> Inv(fired)) && s.n > 0
  {
  }

  lemma PauseKeeps(s: State)
    requires Inv(s)
    ensures Inv(Step(s, Pause))
  {
  }

  lemma InvStep(s: State, e: Event)
    requires Inv(s) && Enabled(s, e)
    ensures Inv(Step(s, e))
  {
    hide Show;
    match e
    case Prev => ShowKeeps(s, (s.idx + s.n - 1) % s.n);
    case Next => ShowKeeps(s, (s.idx + 1) % s.n);
    case Pause => PauseKeeps(s);
    case Resume =>
      if s.n >= 2 && s.paused {
        RearmArms(s.(paused := false));
      }
    case Fire(t) => FireKeeps(s, t);
  }

  lemma StartKeeps(n: nat)
    requires n > 0
    ensures Inv(Start(n)) && Start(n).n == n
  {
    if n >= 2 {
      RearmArms(State(n, 0, false, None, None, []));
    }
  }

  lemma TaskCountStays(s: State, e: Event)
    requires s.n > 0 && Enabled(s, e)
    ensures Step(s, e).n == s.n
  {
  }

  /** In every run: the index names a task, at most one timer of each kind is live, and an unpaused carousel
      of two tasks or more has a rotation armed. */
  lemma {:induction false} CarouselSafe(n: nat, ss: seq<State>, es: seq<Event>, i: nat)
    requires Run(n, ss, es) && i < |ss|
    ensures Inv(ss[i]) && ss[i].n == n
    ensures var timers := ss[i].timers;
      forall t, u | 0 <= t < |timers| && 0 <= u < |timers| ::
        timers[t].live && timers[u].live && timers[t].Rotate? == timers[u].Rotate? ==> t == u
  {
    hide Step, Rearm;
    if i > 0 {
      CarouselSafe(n, ss, es, i - 1);
      InvStep(ss[i - 1], es[i - 1]);
      TaskCountStays(ss[i - 1], es[i - 1]);
    } else {
      StartKeeps(n);
    }
  }

  /** A timer moves the carousel exactly when it is a rotation and the carousel is not paused; it then moves by one. */
  lemma FiringAdvancesIff(s: State, t: nat)
    requires Inv(s) && Enabled(s, Fire(t))
    ensures Step(s, Fire(t)).idx == if s.timers[t].Rotate? && !s.paused then (s.idx + 1) % s.n else s.idx
    ensures Step(s, Fire(t)).idx != s.idx <==> s.timers[t].Rotate? && !s.paused
    ensures Step(s, Fire(t)).paused == s.paused
  {
    assert s.n >= 2;
    assert (s.idx + 1) % s.n != s.idx;
  }

  /** Next shows the following task and Prev the one before, around the ends; each undoes the other. */
  lemma ArrowsMoveByOne(s: State)
    requires Inv(s)
    ensures Step(s, Next).idx == if s.idx + 1 == s.n then 0 else s.idx + 1
    ensures Step(s, Prev).idx == if s.idx == 0 then s.n - 1 else s.idx - 1
    ensures Step(Step(s, Next), Prev).idx == s.idx == Step(Step(s, Prev), Next).idx
  {
    hide Inv, Rearm;
    IndexIsTask(s);
    ArrowIndex(s);
    ArrowIndex(Step(s, Next));
    ArrowIndex(Step(s, Prev));
  }

  lemma IndexIsTask(s: State)
    requires Inv(s)
    ensures s.idx < s.n
  {
  }

  lemma ArrowIndex(s: State)
    requires s.idx < s.n
    ensures Step(s, Next).idx == (if s.idx + 1 == s.n then 0 else s.idx + 1) && Step(s, Next).n == s.n
    ensures Step(s, Prev).idx == (if s.idx == 0 then s.n - 1 else s.idx - 1) && Step(s, Prev).n == s.n
  {
    WrapsToZero(s.idx, s.n);
    WrapsAround(s.idx, s.n);
  }

  lemma WrapsAround(t: nat, n: nat)
    requires t < n
    ensures (t + n - 1) % n == if t == 0 then n - 1 else t - 1
  {
    if t > 0 {
      assert (t - 1 + n) % n == t - 1;
    }
  }

  /** With two tasks or more an arrow starts both timers afresh. */
  lemma ArrowRestarts(s: State, e: Event)
    requires Inv(s) && s.n >= 2 && Arrow(e)
    ensures var s' := Step(s, e);
      Armed(s') && s'.rotateTimer.value >= |s.timers| && s'.progressTimer.value >= |s.timers|
  {
    ClearedIsQuiet(s.(idx := if e.Prev? then (s.idx + s.n - 1) % s.n else (s.idx + 1) % s.n));
    hide Clear;
  }

  /** Among the first i events the last hover or focus event is a pause. */
  predicate HoveredAt(es: seq<Event>, i: nat)
    requires i <= |es|
  {
    i > 0 && (es[i - 1].Pause? || (!es[i - 1].Resume? && HoveredAt(es, i - 1)))
  }

  lemma PausedStep(s: State, e: Event)
    requires s.n > 0 && Enabled(s, e)
    ensures Step(s, e).paused <==> e.Pause? || (!e.Resume? && s.paused)
  {
  }

  /** The carousel is paused exactly while it is hovered or has the focus. */
  lemma {:induction false} PausedIff(n: nat, ss: seq<State>, es: seq<Event>, i: nat)
    requires Run(n, ss, es) && i < |ss|
    ensures ss[i].paused <==> HoveredAt(es, i)
  {
    hide Step, Enabled;
    if i > 0 {
      PausedIff(n, ss, es, i - 1);
      PausedStep(ss[i - 1], es[i - 1]);
    }
  }

  // ---- a paused carousel ----

  predicate Arrow(e: Event) { e.Prev? || e.Next? }

  /** Among the first i events an arrow was clicked after the last pause. */
  predicate ArrowSincePause(es: seq<Event>, i: nat)
    requires i <= |es|
  {
    i > 0 && (Arrow(es[i - 1]) || (!es[i - 1].Pause? && ArrowSincePause(es, i - 1)))
  }

  predicate AnyLive(s: State) { exists t | 0 <= t < |s.timers| :: s.timers[t].live }

  /** A paused carousel has no live timer, or an armed progress interval. */
  ghost predicate PausedShape(s: State, arrow: bool) {
    s.paused ==>
      if s.n >= 2 && arrow
      then s.progressTimer.Some? && s.progressTimer.value < |s.timers| && s.timers[s.progressTimer.value].live
      else !AnyLive(s)
  }

  lemma PausedShapeStep(s: State, e: Event, arrow: bool)
    requires Inv(s) && Enabled(s, e) && PausedShape(s, arrow)
    ensures PausedShape(Step(s, e), Arrow(e) || (!e.Pause? && arrow))
  {
    hide Show;
    match e
    case Fire(t) => FirePausedShape(s, t, arrow);
    case Pause =>
    case Resume =>
    case Prev => ShowPausedShape(s, (s.idx + s.n - 1) % s.n);
    case Next => ShowPausedShape(s, (s.idx + 1) % s.n);
  }

  lemma ShowPausedShape(s: State, idx: nat)
    requires Inv(s) && idx < s.n
    ensures PausedShape(Show(s, idx), true)
  {
  }

  lemma FirePausedShape(s: State, t: nat, arrow: bool)
    requires Inv(s) && Enabled(s, Fire(t)) && PausedShape(s, arrow)
    ensures PausedShape(Step(s, Fire(t)), arrow)
  {
    if s.paused && s.timers[t].Rotate? {
      var s' := Step(s, Fire(t));
      assert forall u | 0 <= u < |s.timers| && u != t :: s'.timers[u] == s.timers[u];
      assert s.timers[t].live && AnyLive(s);
    }
  }

  /** While the carousel is paused some timer is live exactly when it has two tasks or more and an arrow was
      clicked since the last pause. */
  lemma {:induction false} PausedLiveIff(n: nat, ss: seq<State>, es: seq<Event>, i: nat)
    requires Run(n, ss, es) && i < |ss|
    ensures PausedShape(ss[i], ArrowSincePause(es, i))
    ensures ss[i].paused ==> (AnyLive(ss[i]) <==> n >= 2 && ArrowSincePause(es, i))
  {
    hide Step, Inv;
    CarouselSafe(n, ss, es, i);
    if i > 0 {
      PausedLiveIff(n, ss, es, i - 1);
      CarouselSafe(n, ss, es, i - 1);
      PausedShapeStep(ss[i - 1], es[i - 1], ArrowSincePause(es, i - 1));
    }
  }

  /** After an arrow clicked in any paused state a rotation is armed, and its firing changes no index. */
  lemma PausedClickArms(s: State, e: Event)
    requires Inv(s) && s.n >= 2 && s.paused && Arrow(e)
    ensures var s' := Step(s, e);
      s'.paused && Armed(s') && Enabled(s', Fire(s'.rotateTimer.value))
      && Step(s', Fire(s'.rotateTimer.value)).idx == s'.idx
  {
    RearmArms(s.(idx := if e.Prev? then (s.idx + s.n - 1) % s.n else (s.idx + 1) % s.n));
  }

  // ---- a stretch without arrows ----

  /** Between states m and i nobody clicks an arrow; hovering, leaving and timers are free. */
  predicate NoArrows(es: seq<Event>, m: nat, i: nat)
    requires m <= i <= |es|
  {
    forall j | m <= j < i :: !Arrow(es[j])
  }

  /** Event e is a rotation that fires while the carousel is not paused. */
  predicate Turns(s: State, e: Event) { e.Fire? && e.t < |s.timers| && s.timers[e.t].Rotate? && !s.paused }

  /** Such firings between states m and i. */
  function Rotations(ss: seq<State>, es: seq<Event>, m: nat, i: nat): nat
    requires m <= i <= |es| < |ss|
  {
    if i == m then 0 else Rotations(ss, es, m, i - 1) + if Turns(ss[i - 1], es[i - 1]) then 1 else 0
  }

  /** The task shown k rotations after task idx. */
  function Turn(idx: nat, k: nat, n: nat): nat
    requires n > 0
  {
    if k == 0 then idx else (Turn(idx, k - 1, n) + 1) % n
  }

  lemma QuietStep(s: State, e: Event)
    requires Inv(s) && Enabled(s, e) && !Arrow(e)
    ensures Step(s, e).idx == if Turns(s, e) then (s.idx + 1) % s.n else s.idx
  {
  }

  /** Without arrows the task shown depends only on the number of unpaused rotations, however often the
      carousel is paused and resumed meanwhile. */
  lemma {:induction false} StretchTurns(n: nat, ss: seq<State>, es: seq<Event>, m: nat, i: nat)
    requires Run(n, ss, es) && m <= i < |ss| && NoArrows(es, m, i)
    ensures ss[i].idx == Turn(ss[m].idx, Rotations(ss, es, m, i), n)
  {
    hide Step, Inv;
    if m < i {
      StretchTurns(n, ss, es, m, i - 1);
      CarouselSafe(n, ss, es, i - 1);
      QuietStep(ss[i - 1], es[i - 1]);
    }
  }

  lemma {:induction false} TurnWraps(idx: nat, k: nat, n: nat)
    requires idx < n && k <= n
    ensures Turn(idx, k, n) == if idx + k < n then idx + k else idx + k - n
  {
    if k > 0 {
      TurnWraps(idx, k - 1, n);
      WrapsToZero(Turn(idx, k - 1, n), n);
    }
  }

  lemma WrapsToZero(t: nat, n: nat)
    requires t < n
    ensures (t + 1) % n == if t + 1 == n then 0 else t + 1
  {
  }

  /** Every number of rotations up to the total is reached on the way. */
  lemma {:induction false} ReachesCount(ss: seq<State>, es: seq<Event>, m: nat, i: nat, k: nat) returns (p: nat)
    requires m <= i <= |es| < |ss| && k <= Rotations(ss, es, m, i)
    ensures m <= p <= i && Rotations(ss, es, m, p) == k
  {
    if k == Rotations(ss, es, m, i) {
      p := i;
    } else {
      p := ReachesCount(ss, es, m, i - 1, k);
    }
  }

  /** Some state of the stretch shows the task before the round is complete. */
  predicate Shown(ss: seq<State>, es: seq<Event>, m: nat, i: nat, n: nat, task: nat)
    requires m <= i <= |es| < |ss|
  {
    exists p | m <= p <= i :: ss[p].idx == task && Rotations(ss, es, m, p) < n
  }

  lemma TaskIsShown(n: nat, ss: seq<State>, es: seq<Event>, m: nat, i: nat, task: nat)
    requires Run(n, ss, es) && m <= i < |ss| && NoArrows(es, m, i) && Rotations(ss, es, m, i) == n && task < n
    ensures Shown(ss, es, m, i, n, task)
  {
    assert |ss| == |es| + 1;
    hide Step, Inv, Run;
    InRange(n, ss, es, m);
    var k := if ss[m].idx <= task then task - ss[m].idx else task - ss[m].idx + n;
    var p := ReachesCount(ss, es, m, i, k);
    StretchIndex(n, ss, es, m, p);
    assert ss[p].idx == task;
  }

  /** In any stretch of any run without arrows, n unpaused rotations show every task, each for one rotation only,
      and come back to the task the stretch began with. */
  lemma EveryTaskOnce(n: nat, ss: seq<State>, es: seq<Event>, m: nat, i: nat)
    requires Run(n, ss, es) && m <= i < |ss| && NoArrows(es, m, i) && Rotations(ss, es, m, i) == n
    ensures ss[i].idx == ss[m].idx
    ensures forall task | 0 <= task < n :: Shown(ss, es, m, i, n, task)
    ensures forall p, q | m <= p <= i && m <= q <= i && ss[p].idx == ss[q].idx ::
      Rotations(ss, es, m, p) < n && Rotations(ss, es, m, q) < n ==>
        Rotations(ss, es, m, p) == Rotations(ss, es, m, q)
  {
    assert |ss| == |es| + 1;
    hide Step, Inv, Run;
    InRange(n, ss, es, m);
    StretchIndex(n, ss, es, m, i);
    forall task | 0 <= task < n
      ensures Shown(ss, es, m, i, n, task)
    {
      TaskIsShown(n, ss, es, m, i, task);
    }
    forall p, q | m <= p <= i && m <= q <= i && ss[p].idx == ss[q].idx
                  && Rotations(ss, es, m, p) < n && Rotations(ss, es, m, q) < n
      ensures Rotations(ss, es, m, p) == Rotations(ss, es, m, q)
    {
      StretchIndex(n, ss, es, m, p);
      StretchIndex(n, ss, es, m, q);
    }
  }

  lemma InRange(n: nat, ss: seq<State>, es: seq<Event>, m: nat)
    requires Run(n, ss, es) && m < |ss|
    ensures n > 0 && ss[m].idx < n
  {
    CarouselSafe(n, ss, es, m);
  }

  lemma StretchIndex(n: nat, ss: seq<State>, es: seq<Event>, m: nat, p: nat)
    requires Run(n, ss, es) && m <= p < |ss| && NoArrows(es, m, p) && Rotations(ss, es, m, p) <= n
    ensures var k := ss[m].idx + Rotations(ss, es, m, p); ss[p].idx == if k < n then k else k - n
  {
    hide Step, Inv;
    InRange(n, ss, es, m);
    StretchTurns(n, ss, es, m, p);
    TurnWraps(ss[m].idx, Rotations(ss, es, m, p), n);
  }

  class CoachBar {
    const n: nat
    var idx: nat
    var paused: bool
    var rotateTimer: Option<nat>
    var progressTimer: Option<nat>
    var timers: seq<Timer>     // the browser's
    // every event since the bar was built, and the states between them
    ghost var events: seq<Event>
    ghost var states: seq<State>

    ghost function View(): State
      reads this
    {
      State(n, idx, paused, rotateTimer, progressTimer, timers)
    }

    ghost predicate Valid()
      reads this
    {
      Run(n, states, events) && states[|events|] == View()
    }

    ghost method Record(e: Event)
      requires n > 0 && Run(n, states, events) && states[|events|].n > 0 && Enabled(states[|events|], e)
      requires View() == Step(states[|events|], e)
      modifies this`events, this`states
      ensures Valid() && events == old(events) + [e] && View() == old(View())
    {
      hide Run, Enabled, Step;
      ExtendRun(n, states, events, e);
      states := states + [View()];
      events := events + [e];
    }

    /** Whatever was clicked, hovered or fired, in whatever order. */
    lemma AlwaysSafe()
      requires Valid()
      ensures Inv(View()) && idx < n
      ensures forall t, u | 0 <= t < |timers| && 0 <= u < |timers| ::
        timers[t].live && timers[u].live && timers[t].Rotate? == timers[u].Rotate? ==> t == u
      ensures paused ==> (AnyLive(View()) <==> n >= 2 && ArrowSincePause(events, |events|))
    {
      CarouselSafe(n, states, events, |events|);
      PausedLiveIff(n, states, events, |events|);
    }

    constructor (n: nat)
      requires n > 0
      ensures View() == Start(n) && Valid() && events == []
    {
      this.n, idx, paused, rotateTimer, progressTimer, timers := n, 0, false, None, None, [];
      new;
      StartProgress();
      events, states := [], [View()];
    }

    method ClearTimer(t: Option<nat>)
      modifies this`timers
      ensures View() == Clear(old(View()), t)
    {
      if t.Some? && t.value < |timers| {
        timers := timers[t.value := timers[t.value].(live := false)];
      }
    }

    method StartProgress()
      modifies this`timers, this`rotateTimer, this`progressTimer
      ensures View() == Rearm(old(View()))
    {
      if n < 2 {
        return;
      }
      ClearTimer(rotateTimer);
      ClearTimer(progressTimer);
      progressTimer := Some(|timers|);
      timers := timers + [Progress(true)];
      rotateTimer := Some(|timers|);
      timers := timers + [Rotate(true)];
    }

    method Arrow(forward: bool)
      requires Valid() && n > 0
      modifies this
      ensures View() == Step(old(View()), if forward then Next else Prev)
      ensures Valid() && events == old(events) + [if forward then Next else Prev]
    {
      idx := if forward then (idx + 1) % n else (idx - 1 + n) % n;
      StartProgress();
      Record(if forward then Next else Prev);
    }

    method Enter()
      requires Valid() && n > 0
      modifies this
      ensures View() == Step(old(View()), Pause)
      ensures Valid() && events == old(events) + [Pause]
    {
      paused := true;
      ClearTimer(rotateTimer);
      rotateTimer := None;
      ClearTimer(progressTimer);
      progressTimer := None;
      Record(Pause);
    }

    method Leave()
      requires Valid() && n > 0
      modifies this
      ensures View() == Step(old(View()), Resume)
      ensures Valid() && events == old(events) + [Resume]
    {
      if !paused {
        Record(Resume);
        return;
      }
      paused := false;
      StartProgress();
      Record(Resume);
    }

    method RotateFired(t: nat)
      requires Valid() && n > 0 && t < |timers| && timers[t] == Rotate(true)
      modifies this
      ensures View() == Step(old(View()), Fire(t))
      ensures Valid() && events == old(events) + [Fire(t)]
    {
      timers := timers[t := Rotate(false)];
      if !paused {
        idx := (idx + 1) % n;
        StartProgress();
      }
      Record(Fire(t));
    }

    /** The interval only widens the progress bar. */
    method ProgressFired(t: nat)
      requires Valid() && n > 0 && t < |timers| && timers[t] == Progress(true)
      modifies this`events, this`states
      ensures View() == old(View()) == Step(old(View()), Fire(t))
      ensures Valid() && events == old(events) + [Fire(t)]
    {
      Record(Fire(t));
    }
  }
}
