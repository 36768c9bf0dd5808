/** The canonical order of the Workspaces links: normalizeWorkspaceOrder in apps/frontendall/prefs-extras.js. */
module NavOrder {
  /** A link node; `id` is its identity as a DOM node. */
  datatype Link = Link(id: nat, href: string)

  const ORDER: seq<string> := [
    "upload-leads.html", "appointments.html", "dashboard.html", "my-deals.html", "all-deals.html",
    "leaderboard.html", "hirees.html", "applicant-inbox.html", "inbox.html", "admin-inbox.html",
    "my-team.html", "team-performance.html", "dispositions.html", "agent-performance.html",
    "analytics.html", "deals.html", "compliance.html", "/sms/#/training"]

  predicate Distinct<T(==)>(s: seq<T>) { forall i, j | 0 <= i < j < |s| :: s[i] != s[j] }

  /** querySelector: the first link with that href. */
  function Pick(ls: seq<Link>, h: string): seq<Link> {
    if ls == [] then [] else if ls[0].href == h then [ls[0]] else Pick(ls[1..], h)
  }

  /** The list without that first link. */
  function Drop(ls: seq<Link>, h: string): seq<Link> {
    if ls == [] then [] else if ls[0].href == h then ls[1..] else [ls[0]] + Drop(ls[1..], h)
  }

  /** appendChild of a node that is already a child moves it to the end. */
  function MoveToEnd(ls: seq<Link>, h: string): seq<Link> { Drop(ls, h) + Pick(ls, h) }

  function Reorder(ls: seq<Link>, order: seq<string>): seq<Link> {
    if order == [] then ls else MoveToEnd(Reorder(ls, order[..|order| - 1]), order[|order| - 1])
  }

  // ---- the result told at once: what stays in front, and the listed links behind it ----

  function Front(ls: seq<Link>, order: seq<string>): seq<Link> {
    if order == [] then ls else Drop(Front(ls, order[..|order| - 1]), order[|order| - 1])
  }

  function Back(ls: seq<Link>, order: seq<string>): seq<Link> {
    if order == [] then [] else Back(ls, order[..|order| - 1]) + Pick(ls, order[|order| - 1])
  }

  lemma {:induction false} PickFacts(ls: seq<Link>, h: string)
    ensures |Pick(ls, h)| <= 1
    ensures forall x | x in Pick(ls, h) :: x in ls && x.href == h
    ensures Pick(ls, h) == [] <==> forall x | x in ls :: x.href != h
    ensures multiset(ls) == multiset(Drop(ls, h)) + multiset(Pick(ls, h))
  {
    if ls != [] {
      assert ls == [ls[0]] + ls[1..];
      PickFacts(ls[1..], h);
    }
  }

  lemma {:induction false} PickSkips(ls: seq<Link>, g: string, h: string)
    requires g != h
    ensures Pick(Drop(ls, g), h) == Pick(ls, h)
  {
    if ls != [] && ls[0].href != g {
      assert ([ls[0]] + Drop(ls[1..], g))[1..] == Drop(ls[1..], g);
      PickSkips(ls[1..], g, h);
    }
  }

  lemma {:induction false} PickFront(ls: seq<Link>, order: seq<string>, h: string)
    requires h !in order
    ensures Pick(Front(ls, order), h) == Pick(ls, h)
  {
    if order != [] {
      var init := order[..|order| - 1];
      PickFront(ls, init, h);
      PickSkips(Front(ls, init), order[|order| - 1], h);
    }
  }

  lemma {:induction false} BackFacts(ls: seq<Link>, order: seq<string>)
    ensures forall x | x in Back(ls, order) :: x in ls && x.href in order
    ensures forall h | h in order :: forall x | x in Pick(ls, h) :: x in Back(ls, order)
  {
    if order != [] {
      BackFacts(ls, order[..|order| - 1]);
      PickFacts(ls, order[|order| - 1]);
    }
  }

  lemma {:induction false} MoveInFront(f: seq<Link>, b: seq<Link>, h: string)
    requires forall x | x in b :: x.href != h
    ensures Drop(f + b, h) == Drop(f, h) + b && Pick(f + b, h) == Pick(f, h)
  {
    if f == [] {
      assert f + b == b;
      NothingToDrop(b, h);
    } else {
      assert (f + b)[1..] == f[1..] + b;
      MoveInFront(f[1..], b, h);
    }
  }

  lemma {:induction false} NothingToDrop(b: seq<Link>, h: string)
    requires forall x | x in b :: x.href != h
    ensures Drop(b, h) == b && Pick(b, h) == []
  {
    if b != [] {
      NothingToDrop(b[1..], h);
    }
  }

  /** The loop over ORDER leaves the first link of each listed href behind the rest, in the listed order. */
  lemma {:induction false} ReorderIs(ls: seq<Link>, order: seq<string>)
    requires Distinct(order)
    ensures Reorder(ls, order) == Front(ls, order) + Back(ls, order)
  {
    if order == [] {
      assert ls + [] == ls;
    } else {
      var init, h := order[..|order| - 1], order[|order| - 1];
      var f, b := Front(ls, init), Back(ls, init);
      ReorderIs(ls, init);
      BackFacts(ls, init);
      MoveInFront(f, b, h);
      PickFront(ls, init, h);
      assert (Drop(f, h) + b) + Pick(f, h) == Drop(f, h) + (b + Pick(f, h));
    }
  }

  /** No link is lost, added or copied, distinct hrefs or not. */
  lemma {:induction false} ReorderPermutes(ls: seq<Link>, order: seq<string>)
    ensures multiset(Reorder(ls, order)) == multiset(ls)
  {
    if order != [] {
      ReorderPermutes(ls, order[..|order| - 1]);
      PickFacts(Reorder(ls, order[..|order| - 1]), order[|order| - 1]);
    }
  }

  // ---- distinct hrefs ----

  function Unlisted(ls: seq<Link>, order: seq<string>): seq<Link> {
    if ls == [] then [] else (if ls[0].href in order then [] else [ls[0]]) + Unlisted(ls[1..], order)
  }

  /** No listed href occurs twice. */
  predicate ListedOnce(ls: seq<Link>, order: seq<string>) {
    forall i, j | 0 <= i < j < |ls| && ls[i].href in order :: ls[i].href != ls[j].href
  }

  lemma TailOnce(ls: seq<Link>, order: seq<string>)
    requires ListedOnce(ls, order) && ls != []
    ensures ListedOnce(ls[1..], order)
    ensures ls[0].href in order ==> forall y | y in ls[1..] :: y.href != ls[0].href
  {
  }

  lemma ConsOnce(x: Link, rest: seq<Link>, order: seq<string>)
    requires ListedOnce(rest, order) && (x.href in order ==> forall y | y in rest :: y.href != x.href)
    ensures ListedOnce([x] + rest, order)
  {
    var ls := [x] + rest;
    forall i, j | 0 <= i < j < |ls| && ls[i].href in order
      ensures ls[i].href != ls[j].href
    {
      assert ls[j] == rest[j - 1] && rest[j - 1] in rest;
    }
  }

  lemma {:induction false} FrontCons(x: Link, rest: seq<Link>, order: seq<string>)
    requires Distinct(order) && (x.href in order ==> forall y | y in rest :: y.href != x.href)
    ensures Front([x] + rest, order) == (if x.href in order then [] else [x]) + Front(rest, order)
  {
    if order != [] {
      var init, h := order[..|order| - 1], order[|order| - 1];
      var f := Front(rest, init);
      FrontCons(x, rest, init);
      assert order == init + [h] && h !in init;
      assert ([x] + f)[1..] == f && [] + f == f && [] + Drop(f, h) == Drop(f, h);
      if h == x.href {
        FrontShrinks(rest, init);
        NothingToDrop(f, h);
      }
    }
  }

  lemma {:induction false} FrontShrinks(ls: seq<Link>, order: seq<string>)
    ensures forall x | x in Front(ls, order) :: x in ls
  {
    if order != [] {
      FrontShrinks(ls, order[..|order| - 1]);
      DropShrinks(Front(ls, order[..|order| - 1]), order[|order| - 1]);
    }
  }

  lemma {:induction false} DropShrinks(ls: seq<Link>, h: string)
    ensures forall x | x in Drop(ls, h) :: x in ls
  {
    if ls != [] {
      DropShrinks(ls[1..], h);
    }
  }

  lemma {:induction false} FrontOfNone(order: seq<string>)
    ensures Front([], order) == []
  {
    if order != [] {
      FrontOfNone(order[..|order| - 1]);
    }
  }

  /** With listed hrefs distinct, what stays in front is exactly the unlisted links in their old order. */
  lemma {:induction false} FrontIsUnlisted(ls: seq<Link>, order: seq<string>)
    requires Distinct(order) && ListedOnce(ls, order)
    ensures Front(ls, order) == Unlisted(ls, order)
  {
    if ls == [] {
      FrontOfNone(order);
    } else {
      assert ls == [ls[0]] + ls[1..];
      FrontCons(ls[0], ls[1..], order);
      FrontIsUnlisted(ls[1..], order);
    }
  }

  /** The final list: the unlisted links first, in their old order, then the listed ones in ORDER. */
  lemma CanonicalOrder(ls: seq<Link>, order: seq<string>)
    requires Distinct(order) && ListedOnce(ls, order)
    ensures Reorder(ls, order) == Unlisted(ls, order) + Back(ls, order)
  {
    ReorderIs(ls, order);
    FrontIsUnlisted(ls, order);
  }

  lemma {:induction false} PickOnly(ls: seq<Link>, h: string, x: Link)
    requires forall i, j | 0 <= i < j < |ls| && ls[i].href == h :: ls[j].href != h
    requires x in ls && x.href == h
    ensures Pick(ls, h) == [x]
  {
    var i :| 0 <= i < |ls| && ls[i] == x;
    if i > 0 {
      assert ls[1..][i - 1] == x;
      PickOnly(ls[1..], h, x);
    }
  }

  lemma {:induction false} SameBack(ls: seq<Link>, ms: seq<Link>, order: seq<string>)
    requires ListedOnce(ls, order) && ListedOnce(ms, order)
    requires forall x: Link | x.href in order :: x in ls <==> x in ms
    ensures Back(ls, order) == Back(ms, order)
  {
    if order != [] {
      var h := order[|order| - 1];
      SameBack(ls, ms, order[..|order| - 1]);
      PickFacts(ls, h);
      PickFacts(ms, h);
      if Pick(ls, h) != [] {
        var x := Pick(ls, h)[0];
        PickOnly(ls, h, x);
        PickOnly(ms, h, x);
      }
    }
  }

  /** The result does not depend on where the page, or an injector, had put the listed links. */
  lemma OrderOfListedIsForgotten(ls: seq<Link>, ms: seq<Link>, order: seq<string>)
    requires Distinct(order) && ListedOnce(ls, order) && ListedOnce(ms, order)
    requires forall x: Link | x.href in order :: x in ls <==> x in ms
    requires Unlisted(ls, order) == Unlisted(ms, order)
    ensures Reorder(ls, order) == Reorder(ms, order)
  {
    CanonicalOrder(ls, order);
    CanonicalOrder(ms, order);
    SameBack(ls, ms, order);
  }

  // ---- idempotence ----

  lemma {:induction false} UnlistedConcat(a: seq<Link>, b: seq<Link>, order: seq<string>)
    ensures Unlisted(a + b, order) == Unlisted(a, order) + Unlisted(b, order)
  {
    if a == [] {
      assert a + b == b;
    } else {
      assert (a + b)[1..] == a[1..] + b;
      UnlistedConcat(a[1..], b, order);
    }
  }

  lemma {:induction false} NoneUnlisted(b: seq<Link>, order: seq<string>)
    requires forall x | x in b :: x.href in order
    ensures Unlisted(b, order) == []
  {
    if b != [] {
      NoneUnlisted(b[1..], order);
    }
  }

  predicate HrefsDiffer(b: seq<Link>) { forall i, j | 0 <= i < j < |b| :: b[i].href != b[j].href }

  lemma {:induction false} BackHrefsDiffer(ls: seq<Link>, order: seq<string>)
    requires Distinct(order)
    ensures HrefsDiffer(Back(ls, order))
  {
    if order != [] {
      var init, h := order[..|order| - 1], order[|order| - 1];
      var b, q := Back(ls, init), Pick(ls, h);
      BackHrefsDiffer(ls, init);
      BackFacts(ls, init);
      PickFacts(ls, h);
      var s: seq<Link> := b + q;
      forall i, j | 0 <= i < j < |s|
        ensures s[i].href != s[j].href
      {
        assert s[i] == b[i] && b[i] in b && order == init + [h] && h !in init;
        if j >= |b| {
          assert s[j] == q[j - |b|] && q[j - |b|] in q;
        } else {
          assert s[j] == b[j];
        }
      }
    }
  }

  /** Canonical lists hold each listed href once. */
  lemma CanonicalIsListedOnce(ls: seq<Link>, order: seq<string>)
    requires Distinct(order)
    ensures ListedOnce(Unlisted(ls, order) + Back(ls, order), order)
  {
    BackHrefsDiffer(ls, order);
    UnlistedAreUnlisted(ls, order);
  }

  lemma {:induction false} UnlistedAreUnlisted(ls: seq<Link>, order: seq<string>)
    ensures var u := Unlisted(ls, order); forall i | 0 <= i < |u| :: u[i].href !in order
    ensures Unlisted(Unlisted(ls, order), order) == Unlisted(ls, order)
  {
    if ls != [] {
      var u := Unlisted(ls[1..], order);
      UnlistedAreUnlisted(ls[1..], order);
      if ls[0].href in order {
        assert [] + u == u;
      } else {
        assert ([ls[0]] + u)[1..] == u;
        assert forall i | 0 < i < |[ls[0]] + u| :: ([ls[0]] + u)[i] == u[i - 1];
      }
    }
  }

  lemma OnceMeansIdempotent(ls: seq<Link>, order: seq<string>)
    requires Distinct(order) && ListedOnce(ls, order)
    ensures Reorder(Reorder(ls, order), order) == Reorder(ls, order)
  {
    var m := Reorder(ls, order);
    CanonicalOrder(ls, order);
    CanonicalIsListedOnce(ls, order);
    UnlistedConcat(Unlisted(ls, order), Back(ls, order), order);
    UnlistedAreUnlisted(ls, order);
    BackFacts(ls, order);
    NoneUnlisted(Back(ls, order), order);
    ReorderPermutes(ls, order);
    assert forall x :: x in ls <==> x in multiset(ls);
    assert forall x :: x in m <==> x in multiset(m);
    OrderOfListedIsForgotten(m, ls, order);
  }

  /** In a list that is its own reordering, every listed link lies in the sorted tail. */
  lemma ListedAreInTail(m: seq<Link>, order: seq<string>, i: nat)
    requires Distinct(m) && m == Front(m, order) + Back(m, order) && i < |m| && m[i].href in order
    ensures |Front(m, order)| <= i
  {
    var n, b := |Front(m, order)|, Back(m, order);
    PickFirst(m, m[i].href, i);
    BackFacts(m, order);
    var f :| 0 <= f <= i && Pick(m, m[i].href) == [m[f]];
    assert m[f] in Pick(m, m[i].href);
    var p :| 0 <= p < |b| && b[p] == m[f];
    assert m[n + p] == m[f];
  }

  lemma FixedMeansOnce(m: seq<Link>, order: seq<string>)
    requires Distinct(order) && Distinct(m) && Reorder(m, order) == m
    ensures ListedOnce(m, order)
  {
    ReorderIs(m, order);
    BackHrefsDiffer(m, order);
    var n, b := |Front(m, order)|, Back(m, order);
    forall i, j | 0 <= i < j < |m| && m[i].href in order
      ensures m[i].href != m[j].href
    {
      ListedAreInTail(m, order, i);
      assert m[i] == b[i - n] && m[j] == b[j - n];
    }
  }

  lemma {:induction false} PickFirst(ls: seq<Link>, h: string, i: nat)
    requires i < |ls| && ls[i].href == h
    ensures exists f :: 0 <= f <= i && Pick(ls, h) == [ls[f]]
  {
    if ls[0].href == h {
      assert Pick(ls, h) == [ls[0]];
    } else {
      PickFirst(ls[1..], h, i - 1);
      var f :| 0 <= f <= i - 1 && Pick(ls[1..], h) == [ls[1..][f]];
      assert Pick(ls, h) == [ls[f + 1]];
    }
  }

  /** Reordering twice is reordering once exactly when no listed href occurs twice. */
  lemma IdempotentIff(ls: seq<Link>, order: seq<string>)
    requires Distinct(order) && Distinct(ls)
    ensures Reorder(Reorder(ls, order), order) == Reorder(ls, order) <==> ListedOnce(ls, order)
  {
    if ListedOnce(ls, order) {
      OnceMeansIdempotent(ls, order);
    }
    var m := Reorder(ls, order);
    ReorderPermutes(ls, order);
    if Reorder(m, order) == m {
      SameMultisetDistinct(ls, m);
      FixedMeansOnce(m, order);
      OnceIsAboutTheMultiset(m, ls, order);
    }
  }

  lemma SameMultisetDistinct(ls: seq<Link>, ms: seq<Link>)
    requires Distinct(ls) && multiset(ls) == multiset(ms)
    ensures Distinct(ms)
  {
    forall i, j | 0 <= i < j < |ms|
      ensures ms[i] != ms[j]
    {
      if ms[i] == ms[j] {
        TwiceCounts(ms, i, j);
        OnceCounts(ls, ms[i]);
      }
    }
  }

  lemma TwiceCounts(s: seq<Link>, i: nat, j: nat)
    requires i < j < |s| && s[i] == s[j]
    ensures multiset(s)[s[i]] >= 2
  {
    assert s == s[..j] + s[j..];
    assert s[i] in s[..j] && s[j] in s[j..];
    assert multiset(s) == multiset(s[..j]) + multiset(s[j..]);
  }

  lemma {:induction false} OnceCounts(s: seq<Link>, x: Link)
    requires Distinct(s)
    ensures multiset(s)[x] <= 1
  {
    if s != [] {
      assert s == [s[0]] + s[1..];
      OnceCounts(s[1..], x);
      if x == s[0] {
        assert x !in s[1..];
        assert x !in multiset(s[1..]);
      }
    }
  }

  lemma OnceIsAboutTheMultiset(m: seq<Link>, ls: seq<Link>, order: seq<string>)
    requires Distinct(m) && Distinct(ls) && multiset(m) == multiset(ls) && ListedOnce(m, order)
    ensures ListedOnce(ls, order)
  {
    forall i, j | 0 <= i < j < |ls| && ls[i].href in order
      ensures ls[i].href != ls[j].href
    {
      assert ls[i] in multiset(m) && ls[j] in multiset(m);
      var p :| 0 <= p < |m| && m[p] == ls[i];
      var q :| 0 <= q < |m| && m[q] == ls[j];
    }
  }

  // ---- the page ----

  /** The place in ORDER of each of its entries, told by length and fifth character. */
  function Place(s: string): nat
    requires |s| > 4
  {
    match |s|
    case 10 => if s[4] == 'x' then 8 else 15
    case 11 => 6
    case 12 => 10
    case 13 => 3
    case 14 => if s[4] == 'b' then 2 else if s[4] == 'd' then 4 else 14
    case 15 => if s[4] == 'l' then 16 else 17
    case 16 => if s[4] == 'e' then 5 else 9
    case 17 => if s[4] == 'a' then 0 else if s[4] == 'i' then 1 else 12
    case 20 => 7
    case 21 => 11
    case 22 => 13
    case _ => 0
  }

  lemma PlaceOf(i: nat)
    requires i < |ORDER|
    ensures |ORDER[i]| > 4 && Place(ORDER[i]) == i
  {
  }

  lemma OrderIsDistinct()
    ensures Distinct(ORDER)
  {
    hide ORDER, Place;
    forall i, j | 0 <= i < j < |ORDER|
      ensures ORDER[i] != ORDER[j]
    {
      PlaceOf(i);
      PlaceOf(j);
    }
  }

  function Hrefs(ls: seq<Link>): set<string> { set x | x in ls :: x.href }

  /** Every injector: nothing when the href is there already, else the new link at the place it chose. */
  function Inject(ls: seq<Link>, x: Link, at: nat): seq<Link>
    requires at <= |ls|
  {
    if x.href in Hrefs(ls) then ls else ls[..at] + [x] + ls[at..]
  }

  lemma InjectKeepsOnce(ls: seq<Link>, x: Link, at: nat, order: seq<string>)
    requires at <= |ls| && ListedOnce(ls, order)
    ensures ListedOnce(Inject(ls, x, at), order)
  {
    if x.href !in Hrefs(ls) {
      var m := Inject(ls, x, at);
      forall i, j | 0 <= i < j < |m| && m[i].href in order
        ensures m[i].href != m[j].href
      {
        InjectedAt(ls, x, at, i);
        InjectedAt(ls, x, at, j);
      }
    }
  }

  lemma InjectedAt(ls: seq<Link>, x: Link, at: nat, i: nat)
    requires at <= |ls| && i <= |ls|
    ensures var m := ls[..at] + [x] + ls[at..];
      if i == at then m[i] == x
      else
        var k := if i < at then i else i - 1;
        k < |ls| && m[i] == ls[k] && ls[k].href in Hrefs(ls)
  {
  }

  lemma UnlistedOfInjected(ls: seq<Link>, x: Link, at: nat, order: seq<string>)
    requires at <= |ls| && x.href in order
    ensures Unlisted(Inject(ls, x, at), order) == Unlisted(ls, order)
  {
    assert ls == ls[..at] + ls[at..];
    UnlistedConcat(ls[..at], ls[at..], order);
    UnlistedConcat(ls[..at] + [x], ls[at..], order);
    UnlistedConcat(ls[..at], [x], order);
  }

  /** Wherever an injector puts a listed link, the normalized order is the same. */
  lemma InjectionPlaceIsForgotten(ls: seq<Link>, x: Link, p: nat, q: nat, order: seq<string>)
    requires Distinct(order) && ListedOnce(ls, order) && x.href in order && p <= |ls| && q <= |ls|
    ensures Reorder(Inject(ls, x, p), order) == Reorder(Inject(ls, x, q), order)
  {
    InjectKeepsOnce(ls, x, p, order);
    InjectKeepsOnce(ls, x, q, order);
    UnlistedOfInjected(ls, x, p, order);
    UnlistedOfInjected(ls, x, q, order);
    assert ls == ls[..p] + ls[p..] && ls == ls[..q] + ls[q..];
    OrderOfListedIsForgotten(Inject(ls, x, p), Inject(ls, x, q), order);
  }

  // ---- everything that runs before the normalizer ----

  /** An injector adds link x at a place of its choice, a mover takes the first link with href h to another place;
      a place beyond the end is the end. */
  datatype Adjustment = Add(x: Link, at: nat) | Move(h: string, to: nat)

  function AtMost(n: nat, bound: nat): nat { if n <= bound then n else bound }

  function Adjust(ls: seq<Link>, a: Adjustment): seq<Link> {
    match a
    case Add(x, at) => Inject(ls, x, AtMost(at, |ls|))
    case Move(h, to) =>
      if Pick(ls, h) == [] then ls
      else var rest := Drop(ls, h); var to := AtMost(to, |rest|); rest[..to] + Pick(ls, h) + rest[to..]
  }

  function AdjustAll(ls: seq<Link>, adjustments: seq<Adjustment>): seq<Link> {
    if adjustments == [] then ls
    else Adjust(AdjustAll(ls, adjustments[..|adjustments| - 1]), adjustments[|adjustments| - 1])
  }

  /** The links the injectors among them bring. */
  function Brought(adjustments: seq<Adjustment>): set<Link> { set a | a in adjustments && a.Add? :: a.x }

  /** They concern listed links only, and no two injectors bring different links with one href. */
  ghost predicate AboutListed(adjustments: seq<Adjustment>, order: seq<string>) {
    && (forall a | a in adjustments :: (if a.Add? then a.x.href else a.h) in order)
    && (forall x, y | x in Brought(adjustments) && y in Brought(adjustments) && x.href == y.href :: x == y)
  }

  lemma {:induction false} DropOnce(ls: seq<Link>, h: string, order: seq<string>)
    requires ListedOnce(ls, order) && h in order
    ensures ListedOnce(Drop(ls, h), order) && h !in Hrefs(Drop(ls, h))
    ensures Unlisted(Drop(ls, h), order) == Unlisted(ls, order)
    ensures forall x :: x in ls <==> x in Drop(ls, h) || x in Pick(ls, h)
  {
    if ls != [] {
      var rest := ls[1..];
      TailOnce(ls, order);
      if ls[0].href != h {
        DropOnce(rest, h, order);
        DropShrinks(rest, h);
        assert Drop(ls, h)[1..] == Drop(rest, h);
        ConsOnce(ls[0], Drop(rest, h), order);
      }
    }
  }

  lemma InjectBrings(ls: seq<Link>, x: Link, at: nat)
    requires at <= |ls|
    ensures forall y :: y in Inject(ls, x, at) <==> y in ls || (y == x && x.href !in Hrefs(ls))
  {
    assert ls == ls[..at] + ls[at..];
  }

  lemma MoveIsInject(ls: seq<Link>, h: string, to: nat, order: seq<string>)
    requires ListedOnce(ls, order) && h in order
    ensures Pick(ls, h) != [] ==>
      Pick(ls, h)[0].href == h && Pick(ls, h) == [Pick(ls, h)[0]]
      && Adjust(ls, Move(h, to)) == Inject(Drop(ls, h), Pick(ls, h)[0], AtMost(to, |Drop(ls, h)|))
  {
    DropOnce(ls, h, order);
    PickFacts(ls, h);
    if Pick(ls, h) != [] {
      assert Pick(ls, h)[0] in Pick(ls, h);
    }
  }

  lemma MoveFacts(ls: seq<Link>, h: string, to: nat, order: seq<string>)
    requires ListedOnce(ls, order) && h in order
    ensures var m := Adjust(ls, Move(h, to));
      ListedOnce(m, order) && Unlisted(m, order) == Unlisted(ls, order) && forall y :: y in m <==> y in ls
  {
    MoveIsInject(ls, h, to, order);
    DropOnce(ls, h, order);
    if Pick(ls, h) != [] {
      var d, x := Drop(ls, h), Pick(ls, h)[0];
      InjectKeepsOnce(d, x, AtMost(to, |d|), order);
      UnlistedOfInjected(d, x, AtMost(to, |d|), order);
      InjectBrings(d, x, AtMost(to, |d|));
    }
  }

  /** Whatever the adjustments and their order, only membership of the brought links can change. */
  lemma {:induction false} AdjustmentFacts(ls: seq<Link>, adjustments: seq<Adjustment>, order: seq<string>)
    requires ListedOnce(ls, order) && AboutListed(adjustments, order)
    ensures var m := AdjustAll(ls, adjustments);
      && ListedOnce(m, order) && Unlisted(m, order) == Unlisted(ls, order)
      && forall y :: y in m <==> y in ls || (y in Brought(adjustments) && y.href !in Hrefs(ls))
  {
    if adjustments != [] {
      var init, last := adjustments[..|adjustments| - 1], adjustments[|adjustments| - 1];
      assert adjustments == init + [last];
      assert Brought(adjustments) == Brought(init) + if last.Add? then {last.x} else {};
      AdjustmentFacts(ls, init, order);
      var m := AdjustAll(ls, init);
      match last
      case Move(h, to) => MoveFacts(m, h, to, order);
      case Add(x, at) =>
        InjectKeepsOnce(m, x, AtMost(at, |m|), order);
        UnlistedOfInjected(m, x, AtMost(at, |m|), order);
        InjectBrings(m, x, AtMost(at, |m|));
        BringsOrHas(ls, m, x, Brought(init));
    }
  }

  /** If x is not added to m for its href is taken, it is there already or its href was there from the start. */
  lemma BringsOrHas(ls: seq<Link>, m: seq<Link>, x: Link, brought: set<Link>)
    requires forall y :: y in m <==> y in ls || (y in brought && y.href !in Hrefs(ls))
    requires forall y | y in brought && y.href == x.href :: y == x
    ensures x in m || x.href in Hrefs(ls) <==> x.href in Hrefs(m)
  {
  }

  /** A page that hardcodes its own item as href="#" gets the real href, unless that is taken. */
  function GiveSelfItsHref(ls: seq<Link>, here: string): seq<Link> {
    if here == "" || here in Hrefs(ls) then ls else RenameFirst(ls, "#", here)
  }

  function RenameFirst(ls: seq<Link>, h: string, here: string): seq<Link> {
    if ls == [] then [] else if ls[0].href == h then [ls[0].(href := here)] + ls[1..]
    else [ls[0]] + RenameFirst(ls[1..], h, here)
  }

  lemma {:induction false} RenameKeepsOnce(ls: seq<Link>, h: string, here: string, order: seq<string>)
    requires ListedOnce(ls, order) && here !in Hrefs(ls)
    ensures ListedOnce(RenameFirst(ls, h, here), order)
    ensures forall x | x in RenameFirst(ls, h, here) :: x.href == here || x in ls
  {
    if ls != [] {
      var x, rest := ls[0], ls[1..];
      assert forall y | y in rest :: y in ls && y.href in Hrefs(ls);
      TailOnce(ls, order);
      if x.href == h {
        ConsOnce(x.(href := here), rest, order);
      } else {
        RenameKeepsOnce(rest, h, here, order);
        ConsOnce(x, RenameFirst(rest, h, here), order);
      }
    }
  }

  lemma HrefsCons(ls: seq<Link>)
    requires ls != []
    ensures Hrefs(ls) == {ls[0].href} + Hrefs(ls[1..])
  {
    assert forall x :: x in ls <==> x == ls[0] || x in ls[1..];
  }

  lemma {:induction false} RenameFacts(ls: seq<Link>, h: string, here: string)
    ensures if h in Hrefs(ls) then here in Hrefs(RenameFirst(ls, h, here)) else RenameFirst(ls, h, here) == ls
  {
    if ls != [] {
      var m := RenameFirst(ls, h, here);
      RenameFacts(ls[1..], h, here);
      HrefsCons(ls);
      HrefsCons(m);
    }
  }

  /** normalizeWorkspaceOrder on a page named `here`. */
  function Normalized(ls: seq<Link>, here: string): seq<Link> { Reorder(GiveSelfItsHref(ls, here), ORDER) }

  /** Distinct nodes of the page. */
  predicate Nodes(ls: seq<Link>) { forall i, j | 0 <= i < j < |ls| :: ls[i].id != ls[j].id }

  /** Renaming keeps the nodes and touches only links with href h. */
  lemma {:induction false} RenameShape(ls: seq<Link>, h: string, here: string)
    ensures var m := RenameFirst(ls, h, here);
      && |m| == |ls|
      && forall i | 0 <= i < |ls| :: m[i].id == ls[i].id && (ls[i].href != h ==> m[i] == ls[i])
  {
    if ls != [] {
      RenameShape(ls[1..], h, here);
    }
  }

  lemma HashIsUnlisted()
    ensures "#" !in ORDER
  {
    assert forall i | 0 <= i < |ORDER| :: |ORDER[i]| > 1;
  }

  lemma SelfHrefKeepsOnceIff(ls: seq<Link>, here: string)
    requires Nodes(ls)
    ensures Nodes(GiveSelfItsHref(ls, here))
    ensures ListedOnce(GiveSelfItsHref(ls, here), ORDER) <==> ListedOnce(ls, ORDER)
  {
    HashIsUnlisted();
    hide ORDER;
    RenameShape(ls, "#", here);
    if here !in Hrefs(ls) && ListedOnce(ls, ORDER) {
      RenameKeepsOnce(ls, "#", here, ORDER);
    }
    var m := GiveSelfItsHref(ls, here);
    if ListedOnce(m, ORDER) {
      forall i, j | 0 <= i < j < |ls| && ls[i].href in ORDER
        ensures ls[i].href != ls[j].href
      {
        assert m[i] == ls[i] && (ls[j].href != "#" ==> m[j] == ls[j]);
      }
    }
  }

  /** Once normalized, the page has no self-link left to rename. */
  lemma NormalizedKeepsHrefs(ls: seq<Link>, here: string)
    ensures GiveSelfItsHref(Normalized(ls, here), here) == Normalized(ls, here)
  {
    hide ORDER;
    var renamed, m := GiveSelfItsHref(ls, here), Normalized(ls, here);
    ReorderPermutes(renamed, ORDER);
    assert forall x :: x in renamed <==> x in multiset(renamed);
    assert forall x :: x in m <==> x in multiset(m);
    assert Hrefs(m) == Hrefs(renamed);
    RenameFacts(ls, "#", here);
    RenameFacts(m, "#", here);
  }

  /** Running the normalizer again on the same page changes nothing exactly when no listed href occurs twice. */
  lemma NormalizedTwiceIff(ls: seq<Link>, here: string)
    requires Nodes(ls)
    ensures Normalized(Normalized(ls, here), here) == Normalized(ls, here) <==> ListedOnce(ls, ORDER)
  {
    OrderIsDistinct();
    hide ORDER, GiveSelfItsHref;
    SelfHrefKeepsOnceIff(ls, here);
    NormalizedKeepsHrefs(ls, here);
    IdempotentIff(GiveSelfItsHref(ls, here), ORDER);
  }

  lemma {:induction false} UnlistedOfRenamed(ls: seq<Link>, h: string, here: string, order: seq<string>)
    requires h !in order
    ensures var u := Unlisted(ls, order);
      Unlisted(RenameFirst(ls, h, here), order) == if here in order then Drop(u, h) else RenameFirst(u, h, here)
    ensures Pick(ls, h) == Pick(Unlisted(ls, order), h)
  {
    if ls != [] && ls[0].href != h {
      UnlistedOfRenamed(ls[1..], h, here, order);
      var m := RenameFirst(ls, h, here);
      assert m[0] == ls[0] && m[1..] == RenameFirst(ls[1..], h, here);
      var v := Unlisted(ls[1..], order);
      assert ls[0].href !in order ==> Unlisted(ls, order)[1..] == v;
      assert [] + v == v && [] + Unlisted(m[1..], order) == Unlisted(m[1..], order);
    } else if ls != [] {
      var v := Unlisted(ls[1..], order);
      var renamed := ls[0].(href := here);
      assert ([ls[0]] + v)[1..] == v && ([renamed] + ls[1..])[1..] == ls[1..];
      assert [] + v == v;
    }
  }

  lemma {:induction false} ListedOfRenamed(ls: seq<Link>, h: string, here: string, y: Link)
    requires y.href != h
    ensures y in RenameFirst(ls, h, here) <==> y in ls || (Pick(ls, h) != [] && y == Pick(ls, h)[0].(href := here))
  {
    if ls != [] {
      ListedOfRenamed(ls[1..], h, here, y);
      assert ls == [ls[0]] + ls[1..];
    }
  }

  /** The normalizer looks at the unlisted links, their order, and which listed links there are; at nothing else. */
  lemma NormalizedAlike(ls: seq<Link>, ms: seq<Link>, here: string)
    requires ListedOnce(ls, ORDER) && ListedOnce(ms, ORDER)
    requires (forall x :: x in ls <==> x in ms) && Unlisted(ls, ORDER) == Unlisted(ms, ORDER)
    ensures Normalized(ls, here) == Normalized(ms, here)
  {
    OrderIsDistinct();
    HashIsUnlisted();
    hide ORDER, RenameFirst;
    assert Hrefs(ls) == Hrefs(ms);
    if here == "" || here in Hrefs(ls) {
      OrderOfListedIsForgotten(ls, ms, ORDER);
    } else {
      RenameKeepsOnce(ls, "#", here, ORDER);
      RenameKeepsOnce(ms, "#", here, ORDER);
      UnlistedOfRenamed(ls, "#", here, ORDER);
      UnlistedOfRenamed(ms, "#", here, ORDER);
      var l, m := RenameFirst(ls, "#", here), RenameFirst(ms, "#", here);
      forall y: Link | y.href in ORDER
        ensures y in l <==> y in m
      {
        ListedOfRenamed(ls, "#", here, y);
        ListedOfRenamed(ms, "#", here, y);
      }
      OrderOfListedIsForgotten(l, m, ORDER);
    }
  }

  /** Injectors and movers that bring the same listed links, in any order and to any places, lead to the same page. */
  lemma AdjustmentsAreForgotten(ls: seq<Link>, a: seq<Adjustment>, b: seq<Adjustment>, here: string)
    requires ListedOnce(ls, ORDER) && AboutListed(a, ORDER) && AboutListed(b, ORDER) && Brought(a) == Brought(b)
    ensures Normalized(AdjustAll(ls, a), here) == Normalized(AdjustAll(ls, b), here)
  {
    hide ORDER, Normalized;
    AdjustmentFacts(ls, a, ORDER);
    AdjustmentFacts(ls, b, ORDER);
    NormalizedAlike(AdjustAll(ls, a), AdjustAll(ls, b), here);
  }

  // ---- the page after the normalizer, link by link ----

  /** Href g comes before href h in the order. */
  ghost predicate Before(order: seq<string>, g: string, h: string) {
    exists a, b | 0 <= a < b < |order| :: order[a] == g && order[b] == h
  }

  ghost predicate SortedBy(order: seq<string>, b: seq<Link>) {
    forall i, j | 0 <= i < j < |b| :: Before(order, b[i].href, b[j].href)
  }

  lemma {:induction false} BackIsSorted(ls: seq<Link>, order: seq<string>)
    ensures SortedBy(order, Back(ls, order))
  {
    if order != [] {
      var init, h := order[..|order| - 1], order[|order| - 1];
      var b, q := Back(ls, init), Pick(ls, h);
      BackIsSorted(ls, init);
      BackFacts(ls, init);
      PickFacts(ls, h);
      assert order == init + [h];
      hide Before;
      var s: seq<Link> := b + q;
      forall i, j | 0 <= i < j < |s|
        ensures Before(order, s[i].href, s[j].href)
      {
        assert i < |b| && s[i] == b[i] && b[i] in b;
        if j < |b| {
          assert s[j] == b[j] && Before(init, b[i].href, b[j].href);
          BeforeGrows(init, h, b[i].href, b[j].href);
        } else {
          assert s[j] == q[j - |b|] && q[j - |b|] in q;
          assert b[i].href in init;
          BeforeLast(init, h, b[i].href);
        }
      }
    }
  }

  lemma BeforeGrows(init: seq<string>, last: string, g: string, h: string)
    requires Before(init, g, h)
    ensures Before(init + [last], g, h)
  {
    var order := init + [last];
    var x, y :| 0 <= x < y < |init| && init[x] == g && init[y] == h;
    assert order[x] == g && order[y] == h;
  }

  lemma BeforeLast(init: seq<string>, last: string, g: string)
    requires g in init
    ensures Before(init + [last], g, last)
  {
    var order := init + [last];
    var x :| 0 <= x < |init| && init[x] == g;
    assert order[x] == g && order[|init|] == last;
  }

  /** On the normalized page no unlisted link follows a listed one, and listed links follow one another as in ORDER. */
  lemma NormalizedIsSorted(ls: seq<Link>, here: string)
    requires ListedOnce(ls, ORDER) && Nodes(ls)
    ensures var m := Normalized(ls, here); forall i, j | 0 <= i < j < |m| ::
      && (m[i].href in ORDER ==> m[j].href in ORDER)
      && (m[i].href in ORDER && m[j].href in ORDER ==> Before(ORDER, m[i].href, m[j].href))
  {
    OrderIsDistinct();
    hide ORDER;
    SelfHrefKeepsOnceIff(ls, here);
    var renamed := GiveSelfItsHref(ls, here);
    CanonicalOrder(renamed, ORDER);
    UnlistedAreUnlisted(renamed, ORDER);
    BackFacts(renamed, ORDER);
    BackIsSorted(renamed, ORDER);
    SortedInParts(Unlisted(renamed, ORDER), Back(renamed, ORDER), ORDER);
  }

  lemma SortedInParts(u: seq<Link>, b: seq<Link>, order: seq<string>)
    requires forall i | 0 <= i < |u| :: u[i].href !in order
    requires forall x | x in b :: x.href in order
    requires SortedBy(order, b)
    ensures var m := u + b; forall i, j | 0 <= i < j < |m| ::
      && (m[i].href in order ==> m[j].href in order)
      && (m[i].href in order && m[j].href in order ==> Before(order, m[i].href, m[j].href))
  {
    var m := u + b;
    forall i, j | 0 <= i < j < |m|
      ensures m[i].href in order ==> m[j].href in order && Before(order, m[i].href, m[j].href)
    {
      if i >= |u| {
        assert m[i] == b[i - |u|] && m[j] == b[j - |u|] && b[j - |u|] in b;
      } else {
        assert m[i] == u[i];
      }
    }
  }

  lemma {:induction false} RenamedLinks(ls: seq<Link>, h: string, here: string)
    ensures var p := Pick(ls, h);
      if p == [] then RenameFirst(ls, h, here) == ls
      else multiset(RenameFirst(ls, h, here)) == multiset(ls) - multiset{p[0]} + multiset{p[0].(href := here)}
    ensures Pick(ls, h) != [] ==> Pick(ls, h)[0] in ls
  {
    if ls != [] {
      var x, rest := ls[0], ls[1..];
      assert ls == [x] + rest && multiset(ls) == multiset{x} + multiset(rest);
      if x.href == h {
        assert multiset([x.(href := here)] + rest) == multiset{x.(href := here)} + multiset(rest);
      } else {
        RenamedLinks(rest, h, here);
        assert multiset([x] + RenameFirst(rest, h, here)) == multiset{x} + multiset(RenameFirst(rest, h, here));
        InRest(x, rest, Pick(rest, h), here, multiset(RenameFirst(rest, h, here)));
      }
    }
  }

  lemma InRest(x: Link, rest: seq<Link>, p: seq<Link>, here: string, renamed: multiset<Link>)
    requires p != [] ==> p[0] in rest && renamed == multiset(rest) - multiset{p[0]} + multiset{p[0].(href := here)}
    ensures p != [] ==>
      multiset{x} + renamed == multiset{x} + multiset(rest) - multiset{p[0]} + multiset{p[0].(href := here)}
  {
    if p != [] {
      assert p[0] in multiset(rest);
    }
  }

  /** The normalizer keeps every link of the page, but that the first link with href "#" takes the name of the page when
      no link has it yet. */
  lemma NormalizedLinks(ls: seq<Link>, here: string)
    ensures var p := Pick(ls, "#");
      multiset(Normalized(ls, here))
      == if here != "" && here !in Hrefs(ls) && p != []
         then multiset(ls) - multiset{p[0]} + multiset{p[0].(href := here)} else multiset(ls)
  {
    hide ORDER;
    ReorderPermutes(GiveSelfItsHref(ls, here), ORDER);
    RenamedLinks(ls, "#", here);
  }

  /** An injector puts its link where it chose and a mover takes the first link with its href where it chose, and
      both leave the other links in their order. */
  lemma AdjustmentPlaces(ls: seq<Link>, a: Adjustment)
    ensures a.Add? && a.x.href !in Hrefs(ls) ==>
      var m, p := Adjust(ls, a), AtMost(a.at, |ls|);
      |m| == |ls| + 1 && m[p] == a.x && m[..p] + m[p + 1..] == ls
    ensures a.Add? && a.x.href in Hrefs(ls) ==> Adjust(ls, a) == ls
    ensures a.Move? && Pick(ls, a.h) != [] ==>
      var m, rest := Adjust(ls, a), Drop(ls, a.h);
      var p := AtMost(a.to, |rest|);
      |m| == |rest| + 1 && [m[p]] == Pick(ls, a.h) && m[..p] + m[p + 1..] == rest
    ensures a.Move? && Pick(ls, a.h) == [] ==> Adjust(ls, a) == ls
  {
    hide Pick, Drop;
    if a.Add? {
      var p := AtMost(a.at, |ls|);
      assert ls[..p] + ls[p..] == ls;
    } else {
      PickFacts(ls, a.h);
      var rest := Drop(ls, a.h);
      var p := AtMost(a.to, |rest|);
      assert rest[..p] + rest[p..] == rest;
    }
  }

  /** The Workspaces group, whose child links are moved in place. */
  class NavGroup {
    var links: seq<Link>

    constructor (links: seq<Link>)
      ensures this.links == links
    {
      this.links := links;
    }

    method AppendFirst(h: string)
      modifies this
      ensures links == MoveToEnd(old(links), h)
    {
      var i := 0;
      PickAndDropFrom(links, h, 0);
      while i < |links| && links[i].href != h
        invariant i <= |links| == |old(links)| && links == old(links)
        invariant Pick(links, h) == Pick(links[i..], h) && Drop(links, h) == links[..i] + Drop(links[i..], h)
      {
        PickAndDropFrom(links, h, i);
        i := i + 1;
      }
      if i < |links| {
        links := links[..i] + links[i + 1..] + [links[i]];
      }
    }

    static lemma PickAndDropFrom(ls: seq<Link>, h: string, i: nat)
      requires i <= |ls|
      ensures ls[0..] == ls
      ensures i < |ls| && ls[i].href != h ==>
        Pick(ls[i..], h) == Pick(ls[i + 1..], h) && ls[..i] + Drop(ls[i..], h) == ls[..i + 1] + Drop(ls[i + 1..], h)
    {
      if i < |ls| {
        assert ls[i..][1..] == ls[i + 1..];
      }
    }

    method Normalize(here: string)
      modifies this
      ensures links == Normalized(old(links), here)
    {
      links := GiveSelfItsHref(links, here);
      ghost var renamed := links;
      var n := 0;
      while n < |ORDER|
        invariant n <= |ORDER| && links == Reorder(renamed, ORDER[..n])
      {
        AppendFirst(ORDER[n]);
        assert ORDER[..n + 1][..n] == ORDER[..n];
        n := n + 1;
      }
      assert ORDER[..n] == ORDER;
    }
  }
}
