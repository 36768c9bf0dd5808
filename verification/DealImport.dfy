/** The import loop of apps/backend-api/scripts/import_old_portal_deals.py. */
module DealImport {
  import opened Prelude

  type Id = nat
  type Agent = nat
  type Tenant = nat

  /** A source row; counts are None when NULL. `raises`: reading its fields raises an exception;
      `rejected`: the database refuses to insert it. */
  datatype Source = Source(
    id: Id, agent: Agent, med: Option<int>, den: Option<int>, vis: Option<int>,
    status: string, raises: bool, rejected: bool)

  predicate Fails(r: Source, commit: bool) { r.raises || (commit && r.rejected) }

  datatype Deal = Deal(
    tenant: Tenant, agent: Agent, med: int, den: int, vis: int, status: string, decision: Option<string>)

  type Deals = map<Id, Deal>

  function OrZero(n: Option<int>): int { if n.Some? then n.value else 0 }

  /** Medical policies after the rule that an empty deal counts as one medical. */
  function Medical(r: Source): int {
    if OrZero(r.med) + OrZero(r.den) + OrZero(r.vis) == 0 then 1 else OrZero(r.med)
  }

  /** status.upper() is taken as given; NULL reads as the empty string. */
  function MapStatus(upper: string): (string, Option<string>) {
    if upper == "APPROVED" then ("approved", Some("APPROVED"))
    else if upper == "REJECTED" || upper == "DENIED" then ("blocked", Some("NOT_APPROVED"))
    else ("submitted", None)
  }

  function NewDeal(r: Source, tenant: Tenant): Deal {
    var (status, decision) := MapStatus(r.status);
    Deal(tenant, r.agent, Medical(r), OrZero(r.den), OrZero(r.vis), status, decision)
  }

  /** The transaction and the counters after some rows. */
  datatype Progress = Progress(deals: Deals, created: nat, exist: nat, noAgent: nat, byAgent: map<Agent, nat>)

  function Bump(m: map<Agent, nat>, a: Agent): map<Agent, nat> { m[a := (if a in m then m[a] else 0) + 1] }

  /** The row is for a known agent and its id is free: it will be created. */
  predicate Wanted(r: Source, agents: map<Agent, Tenant>, deals: Deals) { r.agent in agents && r.id !in deals }

  function OneRow(p: Progress, r: Source, agents: map<Agent, Tenant>, commit: bool): Progress {
    if r.agent !in agents then p.(noAgent := p.noAgent + 1)
    else if r.id in p.deals then p.(exist := p.exist + 1)
    else p.(deals := if commit then p.deals[r.id := NewDeal(r, agents[r.agent])] else p.deals,
            created := p.created + 1, byAgent := Bump(p.byAgent, r.agent))
  }

  /** The first n rows; None when one of them raised. */
  function Rows(deals: Deals, rows: seq<Source>, n: nat, agents: map<Agent, Tenant>, commit: bool): Option<Progress>
    requires n <= |rows|
  {
    if n == 0 then Some(Progress(deals, 0, 0, 0, map[]))
    else
      match Rows(deals, rows, n - 1, agents, commit)
      case None => None
      case Some(p) =>
        if Wanted(rows[n - 1], agents, p.deals) && Fails(rows[n - 1], commit) then None
        else Some(OneRow(p, rows[n - 1], agents, commit))
  }

  function Import(deals: Deals, rows: seq<Source>, agents: map<Agent, Tenant>, commit: bool): Option<Progress> {
    Rows(deals, rows, |rows|, agents, commit)
  }

  class Target {
    var deals: Deals

    constructor (deals: Deals)
      ensures this.deals == deals
    {
      this.deals := deals;
    }

    /** main: one transaction, rolled back when a row raises. */
    method Run(rows: seq<Source>, agents: map<Agent, Tenant>, commit: bool) returns (report: Option<Progress>)
      modifies this
      ensures report == Import(old(deals), rows, agents, commit)
      ensures deals == if report.Some? then report.value.deals else old(deals)
    {
      var before := deals;
      var created, exist, noAgent := 0, 0, 0;
      var byAgent: map<Agent, nat> := map[];
      var n := 0;
      while n < |rows|
        invariant n <= |rows|
        invariant Rows(before, rows, n, agents, commit) == Some(Progress(deals, created, exist, noAgent, byAgent))
      {
        var r := rows[n];
        if r.agent !in agents {
          noAgent := noAgent + 1;
        } else if r.id in deals {
          exist := exist + 1;
        } else {
          if r.raises || (commit && r.rejected) {
            RaisedStays(before, rows, n + 1, |rows|, agents, commit);
            deals := before;
            return None;
          }
          if commit {
            deals := deals[r.id := NewDeal(r, agents[r.agent])];
          }
          created := created + 1;
          byAgent := Bump(byAgent, r.agent);
        }
        n := n + 1;
      }
      return Some(Progress(deals, created, exist, noAgent, byAgent));
    }
  }

  lemma {:induction false} RaisedStays(
    deals: Deals, rows: seq<Source>, m: nat, n: nat, agents: map<Agent, Tenant>, commit: bool)
    requires m <= n <= |rows| && Rows(deals, rows, m, agents, commit).None?
    ensures Rows(deals, rows, n, agents, commit).None?
  {
    if m < n {
      RaisedStays(deals, rows, m, n - 1, agents, commit);
    }
  }

  // ---- conservation ----

  ghost function Sum(m: map<Agent, nat>): nat {
    if m == map[] then 0 else var a :| a in m; m[a] + Sum(m - {a})
  }

  lemma {:induction false} SumWithout(m: map<Agent, nat>, a: Agent)
    requires a in m
    ensures Sum(m) == m[a] + Sum(m - {a})
    decreases |m|
  {
    var b :| b in m && Sum(m) == m[b] + Sum(m - {b});
    if a != b {
      SumWithout(m - {b}, a);
      SumWithout(m - {a}, b);
      assert m - {a} - {b} == m - {b} - {a};
    }
  }

  lemma SumOfBump(m: map<Agent, nat>, a: Agent)
    ensures Sum(Bump(m, a)) == Sum(m) + 1
  {
    SumWithout(Bump(m, a), a);
    if a in m {
      SumWithout(m, a);
      assert Bump(m, a) - {a} == m - {a};
    } else {
      assert Bump(m, a) - {a} == m;
    }
  }

  /** Every row is counted once, the per-agent counts add up, and a commit adds exactly `created` deals. */
  lemma {:induction false} Conservation(
    deals: Deals, rows: seq<Source>, n: nat, agents: map<Agent, Tenant>, commit: bool)
    requires n <= |rows| && Rows(deals, rows, n, agents, commit).Some?
    ensures var p := Rows(deals, rows, n, agents, commit).value;
      && p.created + p.exist + p.noAgent == n
      && Sum(p.byAgent) == p.created
      && |p.deals| == |deals| + (if commit then p.created else 0)
  {
    if n > 0 {
      Conservation(deals, rows, n - 1, agents, commit);
      var p := Rows(deals, rows, n - 1, agents, commit).value;
      var r := rows[n - 1];
      SumOfBump(p.byAgent, r.agent);
      if Wanted(r, agents, p.deals) && commit {
        var d := NewDeal(r, agents[r.agent]);
        assert p.deals[r.id := d].Keys == p.deals.Keys + {r.id};
      }
    }
  }

  /** Deal d was made from one of the first n rows, under its agent's tenant. */
  ghost predicate ComesFrom(d: Deal, id: Id, rows: seq<Source>, n: nat, agents: map<Agent, Tenant>)
    requires n <= |rows|
  {
    exists i {:trigger rows[i]} | 0 <= i < n ::
      rows[i].id == id && rows[i].agent in agents && d == NewDeal(rows[i], agents[rows[i].agent])
  }

  /** Old deals stay as they were; each new one comes from a row. */
  lemma {:induction false} OldUntouchedNewExplained(
    deals: Deals, rows: seq<Source>, n: nat, agents: map<Agent, Tenant>, commit: bool)
    requires n <= |rows| && Rows(deals, rows, n, agents, commit).Some?
    ensures var p := Rows(deals, rows, n, agents, commit).value;
      && (forall id | id in deals :: id in p.deals && p.deals[id] == deals[id])
      && (forall id | id in p.deals && id !in deals :: ComesFrom(p.deals[id], id, rows, n, agents))
      && (!commit ==> p.deals == deals)
  {
    if n > 0 {
      OldUntouchedNewExplained(deals, rows, n - 1, agents, commit);
      var p, q := Rows(deals, rows, n - 1, agents, commit).value, Rows(deals, rows, n, agents, commit).value;
      forall id | id in q.deals && id !in deals
        ensures ComesFrom(q.deals[id], id, rows, n, agents)
      {
        if id in p.deals {
          assert ComesFrom(p.deals[id], id, rows, n - 1, agents);
        } else {
          assert rows[n - 1].id == id;
        }
      }
    }
  }

  /** A new deal covers at least one policy exactly when its counts do not add up to less; for counts that are not
      negative it always does. */
  lemma AtLeastOnePolicyIff(r: Source, tenant: Tenant)
    ensures var d := NewDeal(r, tenant); var rest := OrZero(r.den) + OrZero(r.vis);
      d.med + d.den + d.vis >= 1 <==> OrZero(r.med) + rest > 0 || (OrZero(r.med) + rest == 0 && rest >= 0)
    ensures OrZero(r.med) >= 0 && OrZero(r.den) >= 0 && OrZero(r.vis) >= 0 ==>
      NewDeal(r, tenant).med + NewDeal(r, tenant).den + NewDeal(r, tenant).vis >= 1
  {
  }

  predicate CountsOk(r: Source) { OrZero(r.med) >= 0 && OrZero(r.den) >= 0 && OrZero(r.vis) >= 0 }

  /** From a source without negative counts, every deal a run adds covers at least one policy. */
  lemma NewDealsHavePolicies(deals: Deals, rows: seq<Source>, agents: map<Agent, Tenant>, commit: bool)
    requires Import(deals, rows, agents, commit).Some? && forall i | 0 <= i < |rows| :: CountsOk(rows[i])
    ensures var after := Import(deals, rows, agents, commit).value.deals;
      forall id | id in after && id !in deals :: after[id].med + after[id].den + after[id].vis >= 1
  {
    var after := Import(deals, rows, agents, commit).value.deals;
    OldUntouchedNewExplained(deals, rows, |rows|, agents, commit);
    forall id | id in after && id !in deals
      ensures after[id].med + after[id].den + after[id].vis >= 1
    {
      assert ComesFrom(after[id], id, rows, |rows|, agents);
      var i {:trigger rows[i]} :| 0 <= i < |rows| && rows[i].id == id && rows[i].agent in agents
                                  && after[id] == NewDeal(rows[i], agents[rows[i].agent]);
      assert CountsOk(rows[i]);
    }
  }

  // ---- running it again ----

  lemma {:induction false} NothingLeft(deals: Deals, rows: seq<Source>, n: nat, agents: map<Agent, Tenant>)
    requires n <= |rows| && Rows(deals, rows, n, agents, true).Some?
    ensures forall i | 0 <= i < n :: !Wanted(rows[i], agents, Rows(deals, rows, n, agents, true).value.deals)
  {
    if n > 0 {
      NothingLeft(deals, rows, n - 1, agents);
    }
  }

  lemma {:induction false} NothingWanted(
    deals: Deals, rows: seq<Source>, n: nat, agents: map<Agent, Tenant>, commit: bool)
    requires n <= |rows| && forall i | 0 <= i < n :: !Wanted(rows[i], agents, deals)
    ensures var p := Rows(deals, rows, n, agents, commit); p.Some? && p.value.deals == deals && p.value.created == 0
  {
    if n > 0 {
      NothingWanted(deals, rows, n - 1, agents, commit);
    }
  }

  /** After a committed import, importing the same source again inserts nothing and cannot fail. */
  lemma SecondRunInsertsNothing(deals: Deals, rows: seq<Source>, agents: map<Agent, Tenant>)
    requires Import(deals, rows, agents, true).Some?
    ensures var after := Import(deals, rows, agents, true).value.deals;
      var again := Import(after, rows, agents, true);
      again.Some? && again.value.deals == after && again.value.created == 0
  {
    NothingLeft(deals, rows, |rows|, agents);
    NothingWanted(Import(deals, rows, agents, true).value.deals, rows, |rows|, agents, true);
  }

  // ---- what the dry run predicts ----

  /** Row i is wanted at the start and an earlier wanted row has its id. */
  ghost predicate Repeat(deals: Deals, rows: seq<Source>, i: nat, agents: map<Agent, Tenant>)
    requires i < |rows|
  {
    Wanted(rows[i], agents, deals)
    && exists j {:trigger rows[j]} | 0 <= j < i :: Wanted(rows[j], agents, deals) && rows[j].id == rows[i].id
  }

  ghost function Repeats(deals: Deals, rows: seq<Source>, n: nat, agents: map<Agent, Tenant>): nat
    requires n <= |rows|
  {
    if n == 0 then 0 else Repeats(deals, rows, n - 1, agents) + if Repeat(deals, rows, n - 1, agents) then 1 else 0
  }

  lemma {:induction false} CommittedIds(deals: Deals, rows: seq<Source>, n: nat, agents: map<Agent, Tenant>, id: Id)
    requires n <= |rows| && Rows(deals, rows, n, agents, true).Some?
    ensures id in Rows(deals, rows, n, agents, true).value.deals <==>
      id in deals || exists j {:trigger rows[j]} | 0 <= j < n :: Wanted(rows[j], agents, deals) && rows[j].id == id
  {
    if n > 0 {
      CommittedIds(deals, rows, n - 1, agents, id);
      CommittedIds(deals, rows, n - 1, agents, rows[n - 1].id);
    }
  }

  lemma {:induction false} DryRunOvercounts(deals: Deals, rows: seq<Source>, n: nat, agents: map<Agent, Tenant>)
    requires n <= |rows| && Rows(deals, rows, n, agents, false).Some? && Rows(deals, rows, n, agents, true).Some?
    ensures Rows(deals, rows, n, agents, false).value.created
            == Rows(deals, rows, n, agents, true).value.created + Repeats(deals, rows, n, agents)
  {
    if n > 0 {
      DryRunOvercounts(deals, rows, n - 1, agents);
      CommittedIds(deals, rows, n - 1, agents, rows[n - 1].id);
      OldUntouchedNewExplained(deals, rows, n - 1, agents, false);
    }
  }

  lemma {:induction false} RepeatsZeroIff(deals: Deals, rows: seq<Source>, n: nat, agents: map<Agent, Tenant>)
    requires n <= |rows|
    ensures Repeats(deals, rows, n, agents) == 0 <==> forall i | 0 <= i < n :: !Repeat(deals, rows, i, agents)
  {
    if n > 0 {
      RepeatsZeroIff(deals, rows, n - 1, agents);
    }
  }

  /** The dry run announces the number a commit would insert exactly when no importable id occurs twice in the
      source. */
  lemma DryRunPredictsIff(deals: Deals, rows: seq<Source>, agents: map<Agent, Tenant>)
    requires Import(deals, rows, agents, false).Some? && Import(deals, rows, agents, true).Some?
    ensures Import(deals, rows, agents, false).value.created == Import(deals, rows, agents, true).value.created <==>
      forall i, j | 0 <= j < i < |rows| && Wanted(rows[i], agents, deals) && Wanted(rows[j], agents, deals) ::
        rows[j].id != rows[i].id
  {
    DryRunOvercounts(deals, rows, |rows|, agents);
    RepeatsZeroIff(deals, rows, |rows|, agents);
    if j, i :| 0 <= j < i < |rows| && Wanted(rows[i], agents, deals) && Wanted(rows[j], agents, deals)
               && rows[j].id == rows[i].id {
      assert Repeat(deals, rows, i, agents);
    }
  }

  // ---- what a row becomes, field by field ----

  predicate CountIs(n: int, source: Option<int>) { source == Some(n) || (source.None? && n == 0) }

  /** Deal d is what the importer makes of row r for an agent of the given tenant. */
  predicate MadeFrom(d: Deal, r: Source, tenant: Tenant) {
    && d.tenant == tenant && d.agent == r.agent
    && CountIs(d.den, r.den) && CountIs(d.vis, r.vis)
    && (if CountIs(0, r.med) && CountIs(0, r.den) && CountIs(0, r.vis) then d.med == 1 else CountIs(d.med, r.med))
    && (d.status, d.decision)
       == (match r.status
           case "APPROVED" => ("approved", Some("APPROVED"))
           case "REJECTED" => ("blocked", Some("NOT_APPROVED"))
           case "DENIED" => ("blocked", Some("NOT_APPROVED"))
           case _ => ("submitted", None))
  }

  lemma NewDealIsMade(r: Source, tenant: Tenant)
    requires CountsOk(r)
    ensures MadeFrom(NewDeal(r, tenant), r, tenant)
  {
  }

  /** Row i is the first of a known agent with that id. */
  ghost predicate FirstOf(rows: seq<Source>, agents: map<Agent, Tenant>, id: Id, i: nat) {
    && i < |rows| && rows[i].id == id && rows[i].agent in agents
    && forall j | 0 <= j < i :: !(rows[j].id == id && rows[j].agent in agents)
  }

  /** The first row of a known agent with a free id gives that id its deal. */
  lemma {:induction false} FirstRowWins(deals: Deals, rows: seq<Source>, n: nat, agents: map<Agent, Tenant>, i: nat)
    requires n <= |rows| && Rows(deals, rows, n, agents, true).Some?
    requires i < n && FirstOf(rows, agents, rows[i].id, i) && rows[i].id !in deals
    ensures var after := Rows(deals, rows, n, agents, true).value.deals;
      rows[i].id in after && after[rows[i].id] == NewDeal(rows[i], agents[rows[i].agent])
  {
    if i < n - 1 {
      FirstRowWins(deals, rows, n - 1, agents, i);
    } else {
      CommittedIds(deals, rows, n - 1, agents, rows[i].id);
    }
  }

  lemma {:induction false} NewHasFirst(
    deals: Deals, rows: seq<Source>, n: nat, agents: map<Agent, Tenant>, id: Id) returns (i: nat)
    requires n <= |rows| && Rows(deals, rows, n, agents, true).Some?
    requires id in Rows(deals, rows, n, agents, true).value.deals && id !in deals
    ensures i < n && FirstOf(rows, agents, id, i)
  {
    if id in Rows(deals, rows, n - 1, agents, true).value.deals {
      i := NewHasFirst(deals, rows, n - 1, agents, id);
    } else {
      i := n - 1;
      CommittedIds(deals, rows, n - 1, agents, id);
    }
  }

  /** The new ids are exactly those of the rows of known agents that were free, and each new deal is made, field by
      field, from the first such row. */
  lemma NewDealsAre(deals: Deals, rows: seq<Source>, agents: map<Agent, Tenant>, id: Id)
    requires Import(deals, rows, agents, true).Some? && forall i | 0 <= i < |rows| :: CountsOk(rows[i])
    ensures var after := Import(deals, rows, agents, true).value.deals;
      id in after && id !in deals <==>
        id !in deals && exists i | 0 <= i < |rows| :: FirstOf(rows, agents, id, i) && id in after
                                                        && MadeFrom(after[id], rows[i], agents[rows[i].agent])
    ensures var after := Import(deals, rows, agents, true).value.deals;
      forall i | 0 <= i < |rows| && rows[i].agent in agents :: rows[i].id in after
  {
    var after := Import(deals, rows, agents, true).value.deals;
    if id in after && id !in deals {
      var i := NewHasFirst(deals, rows, |rows|, agents, id);
      FirstRowWins(deals, rows, |rows|, agents, i);
      assert CountsOk(rows[i]);
      NewDealIsMade(rows[i], agents[rows[i].agent]);
    }
    forall i | 0 <= i < |rows| && rows[i].agent in agents
      ensures rows[i].id in after
    {
      CommittedIds(deals, rows, |rows|, agents, rows[i].id);
    }
  }

  // ---- what each counter counts ----

  function RowsOfUnknown(rows: seq<Source>, n: nat, agents: map<Agent, Tenant>): nat
    requires n <= |rows|
  {
    if n == 0 then 0 else RowsOfUnknown(rows, n - 1, agents) + if rows[n - 1].agent in agents then 0 else 1
  }

  /** The new deals of agent a. */
  ghost function NewOf(deals: Deals, after: Deals, a: Agent): set<Id> {
    set id | id in after && id !in deals && after[id].agent == a
  }

  lemma NewOfGrows(deals: Deals, after: Deals, id: Id, d: Deal, a: Agent)
    requires id !in after && forall k | k in deals :: k in after
    ensures |NewOf(deals, after[id := d], a)| == |NewOf(deals, after, a)| + if d.agent == a then 1 else 0
  {
    if d.agent == a {
      assert NewOf(deals, after[id := d], a) == NewOf(deals, after, a) + {id};
    } else {
      assert NewOf(deals, after[id := d], a) == NewOf(deals, after, a);
    }
  }

  lemma {:induction false} NoAgentIs(
    deals: Deals, rows: seq<Source>, n: nat, agents: map<Agent, Tenant>, commit: bool)
    requires n <= |rows| && Rows(deals, rows, n, agents, commit).Some?
    ensures Rows(deals, rows, n, agents, commit).value.noAgent == RowsOfUnknown(rows, n, agents)
  {
    if n > 0 {
      NoAgentIs(deals, rows, n - 1, agents, commit);
    }
  }

  /** The report of a commit gives every agent the number of deals it received, and names no other agent. */
  lemma {:induction false} ByAgentIs(deals: Deals, rows: seq<Source>, n: nat, agents: map<Agent, Tenant>, a: Agent)
    requires n <= |rows| && Rows(deals, rows, n, agents, true).Some?
    ensures var p := Rows(deals, rows, n, agents, true).value;
      (if a in p.byAgent then p.byAgent[a] else 0) == |NewOf(deals, p.deals, a)|
      && (a in p.byAgent ==> p.byAgent[a] > 0)
  {
    if n > 0 {
      ByAgentIs(deals, rows, n - 1, agents, a);
      OldUntouchedNewExplained(deals, rows, n - 1, agents, true);
      var p, r := Rows(deals, rows, n - 1, agents, true).value, rows[n - 1];
      if Wanted(r, agents, p.deals) {
        hide NewOf;
        NewOfGrows(deals, p.deals, r.id, NewDeal(r, agents[r.agent]), a);
      }
    } else {
      assert NewOf(deals, deals, a) == {};
    }
  }

  // ---- when an import fails ----

  /** Row i would be created, a commit having created no earlier row with its id, and cannot be. */
  ghost predicate Breaks(deals: Deals, rows: seq<Source>, agents: map<Agent, Tenant>, commit: bool, i: nat)
    requires i < |rows|
  {
    && rows[i].agent in agents && rows[i].id !in deals && (rows[i].raises || (commit && rows[i].rejected))
    && (commit ==> FirstOf(rows, agents, rows[i].id, i))
  }

  lemma WantedIff(deals: Deals, rows: seq<Source>, agents: map<Agent, Tenant>, commit: bool, i: nat)
    requires i < |rows| && Rows(deals, rows, i, agents, commit).Some?
    ensures Wanted(rows[i], agents, Rows(deals, rows, i, agents, commit).value.deals) && Fails(rows[i], commit)
            <==> Breaks(deals, rows, agents, commit, i)
  {
    if commit {
      CommittedIds(deals, rows, i, agents, rows[i].id);
    } else {
      OldUntouchedNewExplained(deals, rows, i, agents, false);
    }
  }

  lemma {:induction false} RowsFailIff(
    deals: Deals, rows: seq<Source>, n: nat, agents: map<Agent, Tenant>, commit: bool)
    requires n <= |rows|
    ensures Rows(deals, rows, n, agents, commit).None?
            <==> exists i | 0 <= i < n :: Breaks(deals, rows, agents, commit, i)
  {
    if n > 0 {
      RowsFailIff(deals, rows, n - 1, agents, commit);
      if Rows(deals, rows, n - 1, agents, commit).Some? {
        WantedIff(deals, rows, agents, commit, n - 1);
      }
    }
  }

  /** The whole run is rolled back if and only if some row that would be created raises, or, in a commit, is
      rejected. */
  lemma ImportFailsIff(deals: Deals, rows: seq<Source>, agents: map<Agent, Tenant>, commit: bool)
    ensures Import(deals, rows, agents, commit).None?
            <==> exists i | 0 <= i < |rows| :: Breaks(deals, rows, agents, commit, i)
  {
    RowsFailIff(deals, rows, |rows|, agents, commit);
  }
}
