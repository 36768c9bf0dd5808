/** The appointments table of migration 001 and its constraint exclude_overlapping_appointments. */
module Appointments {
  import opened Prelude

  type Id = nat

  /** Times are microseconds; a NULL status is None. */
  datatype Row = Row(agent: nat, start: int, end: int, status: Option<string>)

  type Table = map<Id, Row>

  /** status IN ('pending', 'confirmed'): the rows the constraint is about. NULL is not IN anything. */
  predicate Active(r: Row) { r.status == Some("pending") || r.status == Some("confirmed") }

  /** tstzrange(start_time, end_time) && the same of another row: half-open, an empty range overlaps nothing. */
  predicate Overlaps(a: Row, b: Row) {
    a.start < a.end && b.start < b.end && a.start < b.end && b.start < a.end
  }

  predicate Conflict(a: Row, b: Row) { Active(a) && Active(b) && a.agent == b.agent && Overlaps(a, b) }

  ghost predicate NoOverlap(t: Table) {
    forall i, j | i in t && j in t && i != j :: !Conflict(t[i], t[j])
  }

  /** Every indexed range can be built. */
  ghost predicate Ordered(t: Table) {
    forall i | i in t && Active(t[i]) :: t[i].start <= t[i].end
  }

  datatype Verdict = Accepted | ExclusionViolation | RangeError | DuplicateKey | NoSuchRow

  /** What writing row r under id would do to the constraint: the index expression is computed for active rows only. */
  ghost function WriteVerdict(t: Table, id: Id, r: Row): Verdict {
    if Active(r) && r.start > r.end then RangeError
    else if exists i | i in t && i != id :: Conflict(t[i], r) then ExclusionViolation
    else Accepted
  }

  class AppointmentTable {
    var rows: Table

    constructor ()
      ensures rows == map[]
    {
      rows := map[];
    }

    /** Scans the index for a row that conflicts with r, other than id itself. */
    method FindConflict(id: Id, r: Row) returns (found: bool)
      ensures found <==> exists i | i in rows && i != id :: Conflict(rows[i], r)
    {
      var rest := rows.Keys - {id};
      found := false;
      while rest != {} && !found
        invariant rest <= rows.Keys - {id}
        invariant found ==> exists i | i in rows && i != id :: Conflict(rows[i], r)
        invariant !found ==> forall i | i in rows.Keys - {id} - rest :: !Conflict(rows[i], r)
        decreases rest, !found
      {
        var i :| i in rest;
        found := Conflict(rows[i], r);
        rest := rest - {i};
      }
    }

    method Write(id: Id, r: Row) returns (v: Verdict)
      modifies this
      ensures v == WriteVerdict(old(rows), id, r)
      ensures rows == if v.Accepted? then old(rows)[id := r] else old(rows)
    {
      if Active(r) && r.start > r.end {
        return RangeError;
      }
      var found := FindConflict(id, r);
      if found {
        return ExclusionViolation;
      }
      rows := rows[id := r];
      return Accepted;
    }

    method Insert(id: Id, r: Row) returns (v: Verdict)
      modifies this
      ensures v == InsertVerdict(old(rows), id, r) && rows == Apply(old(rows), InsertOp(id, r))
      ensures rows == if v.Accepted? then old(rows)[id := r] else old(rows)
    {
      if id in rows {
        return DuplicateKey;
      }
      v := Write(id, r);
    }

    method Update(id: Id, r: Row) returns (v: Verdict)
      modifies this
      ensures v == UpdateVerdict(old(rows), id, r) && rows == Apply(old(rows), UpdateOp(id, r))
      ensures rows == if v.Accepted? then old(rows)[id := r] else old(rows)
    {
      if id !in rows {
        return NoSuchRow;
      }
      v := Write(id, r);
    }

    /** A delete cannot break the constraint, and it frees the row's time: a row like it is accepted under any
        free id. */
    method Delete(id: Id)
      modifies this
      ensures rows == old(rows) - {id} == Apply(old(rows), DeleteOp(id))
      ensures NoOverlap(old(rows)) && Ordered(old(rows)) ==>
        && NoOverlap(rows) && Ordered(rows)
        && (id in old(rows) ==> forall j | j !in rows :: InsertVerdict(rows, j, old(rows)[id]).Accepted?)
    {
      if NoOverlap(rows) && Ordered(rows) {
        DeletedTimeIsFree(rows, id);
      }
      rows := rows - {id};
    }
  }

  ghost function InsertVerdict(t: Table, id: Id, r: Row): Verdict {
    if id in t then DuplicateKey else WriteVerdict(t, id, r)
  }

  ghost function UpdateVerdict(t: Table, id: Id, r: Row): Verdict {
    if id !in t then NoSuchRow else WriteVerdict(t, id, r)
  }

  lemma ConflictIsSymmetric(a: Row, b: Row)
    ensures Conflict(a, b) <==> Conflict(b, a)
  {
  }

  /** The constraint accepts exactly the writes after which no agent is double-booked and every active range exists. */
  lemma AcceptedIff(t: Table, id: Id, r: Row)
    requires NoOverlap(t) && Ordered(t)
    ensures WriteVerdict(t, id, r).Accepted? <==> NoOverlap(t[id := r]) && Ordered(t[id := r])
  {
    var u := t[id := r];
    if WriteVerdict(t, id, r).Accepted? {
      forall i, j | i in u && j in u && i != j
        ensures !Conflict(u[i], u[j])
      {
        if i == id {
          ConflictIsSymmetric(r, t[j]);
        }
      }
    } else if Active(r) && r.start > r.end {
      assert id in u && u[id] == r;
    } else {
      var i :| i in t && i != id && Conflict(t[i], r);
      assert i in u && u[i] == t[i] && u[id] == r;
    }
  }

  lemma DeletedTimeIsFree(t: Table, id: Id)
    requires NoOverlap(t) && Ordered(t)
    ensures NoOverlap(t - {id}) && Ordered(t - {id})
    ensures id in t ==> forall j | j !in t - {id} :: InsertVerdict(t - {id}, j, t[id]).Accepted?
  {
    var u := t - {id};
    if id in t {
      assert forall i | i in u :: i in t && i != id && u[i] == t[i] && !Conflict(t[i], t[id]);
    }
  }

  datatype Op = InsertOp(id: Id, row: Row) | UpdateOp(id: Id, row: Row) | DeleteOp(id: Id)

  /** One statement, with its refusal when the constraint or a key says no. */
  ghost function Apply(t: Table, op: Op): Table {
    match op
    case InsertOp(id, r) => if InsertVerdict(t, id, r).Accepted? then t[id := r] else t
    case UpdateOp(id, r) => if UpdateVerdict(t, id, r).Accepted? then t[id := r] else t
    case DeleteOp(id) => t - {id}
  }

  ghost function ApplyAll(t: Table, ops: seq<Op>): Table {
    if ops == [] then t else Apply(ApplyAll(t, ops[..|ops| - 1]), ops[|ops| - 1])
  }

  /** Whatever statements are run, in whatever order, no agent is ever double-booked. */
  lemma {:induction false} NeverDoubleBooked(ops: seq<Op>)
    ensures NoOverlap(ApplyAll(map[], ops)) && Ordered(ApplyAll(map[], ops))
  {
    if ops != [] {
      NeverDoubleBooked(ops[..|ops| - 1]);
      var t := ApplyAll(map[], ops[..|ops| - 1]);
      match ops[|ops| - 1]
      case InsertOp(id, r) => AcceptedIff(t, id, r);
      case UpdateOp(id, r) => AcceptedIff(t, id, r);
      case DeleteOp(id) =>
    }
  }

  // ---- the same in plain terms ----

  /** Both rows are for one agent, both pending or confirmed, and some moment lies in both of their half-open times. */
  ghost predicate Clash(a: Row, b: Row) {
    && a.agent == b.agent
    && a.status in {Some("pending"), Some("confirmed")} && b.status in {Some("pending"), Some("confirmed")}
    && exists m: int :: Covers(a, m) && Covers(b, m)
  }

  predicate Covers(r: Row, m: int) { r.start <= m < r.end }

  lemma ClashIsConflict(a: Row, b: Row)
    ensures Clash(a, b) <==> Conflict(a, b)
  {
    if Conflict(a, b) {
      var m := if a.start <= b.start then b.start else a.start;
      assert Covers(a, m) && Covers(b, m);
    }
  }

  /** After any statements, of two pending or confirmed appointments of one agent that last any time at all, one ends no
      later than the other starts. */
  lemma OneEndsFirst(ops: seq<Op>, i: Id, j: Id)
    requires var t := ApplyAll(map[], ops);
      && i in t && j in t && i != j && t[i].agent == t[j].agent
      && t[i].status in {Some("pending"), Some("confirmed")} && t[j].status in {Some("pending"), Some("confirmed")}
      && t[i].start < t[i].end && t[j].start < t[j].end
    ensures var t := ApplyAll(map[], ops); t[i].end <= t[j].start || t[j].end <= t[i].start
  {
    NeverDoubleBooked(ops);
    var t := ApplyAll(map[], ops);
    assert !Conflict(t[i], t[j]);
  }

  /** When an insert gets which answer: a duplicate key first, then a range that runs backwards, then a clash. */
  lemma InsertVerdictIff(t: Table, id: Id, r: Row)
    ensures InsertVerdict(t, id, r).DuplicateKey? <==> id in t
    ensures InsertVerdict(t, id, r).RangeError? <==>
      id !in t && r.status in {Some("pending"), Some("confirmed")} && r.start > r.end
    ensures InsertVerdict(t, id, r).ExclusionViolation? <==> id !in t && exists i | i in t :: Clash(t[i], r)
    ensures !InsertVerdict(t, id, r).NoSuchRow?
  {
    ClashIffConflict(t, r);
  }

  /** And an update, which does not clash with the row it replaces. */
  lemma UpdateVerdictIff(t: Table, id: Id, r: Row)
    ensures UpdateVerdict(t, id, r).NoSuchRow? <==> id !in t
    ensures UpdateVerdict(t, id, r).RangeError? <==>
      id in t && r.status in {Some("pending"), Some("confirmed")} && r.start > r.end
    ensures UpdateVerdict(t, id, r).ExclusionViolation? <==> id in t && exists i | i in t && i != id :: Clash(t[i], r)
    ensures !UpdateVerdict(t, id, r).DuplicateKey?
  {
    ClashIffConflict(t, r);
  }

  lemma ClashIffConflict(t: Table, r: Row)
    ensures forall i | i in t :: Clash(t[i], r) <==> Conflict(t[i], r)
  {
    forall i | i in t
      ensures Clash(t[i], r) <==> Conflict(t[i], r)
    {
      ClashIsConflict(t[i], r);
    }
  }

  // ---- the packing bound ----

  /** The ids are active appointments of one agent, each at least d long and inside [lo, hi]. */
  ghost predicate Packed(t: Table, ids: set<Id>, agent: nat, d: int, lo: int, hi: int) {
    forall i | i in ids ::
      i in t && Active(t[i]) && t[i].agent == agent && lo <= t[i].start && t[i].start + d <= t[i].end <= hi
  }

  lemma {:induction false} LatestOf(t: Table, ids: set<Id>) returns (x: Id)
    requires ids != {} && ids <= t.Keys
    ensures x in ids && forall i | i in ids :: t[i].start <= t[x].start
    decreases ids
  {
    var y :| y in ids;
    var rest := ids - {y};
    x := y;
    if rest != {} {
      var z := LatestOf(t, rest);
      x := if t[y].start < t[z].start then z else y;
      assert forall i | i in ids :: i == y || i in rest;
    } else {
      assert ids == {y};
    }
  }

  lemma EarlierEndsFirst(t: Table, ids: set<Id>, x: Id, agent: nat, d: int, lo: int, hi: int)
    requires NoOverlap(t) && d > 0 && Packed(t, ids, agent, d, lo, hi)
    requires x in ids && forall i | i in ids :: t[i].start <= t[x].start
    ensures Packed(t, ids - {x}, agent, d, lo, t[x].start) && t[x].start + d <= hi && lo <= t[x].start
  {
    forall i | i in ids - {x}
      ensures t[i].end <= t[x].start
    {
      assert !Conflict(t[i], t[x]);
    }
  }

  lemma PackedAreRows(t: Table, ids: set<Id>, agent: nat, d: int, lo: int, hi: int)
    requires Packed(t, ids, agent, d, lo, hi)
    ensures ids <= t.Keys
  {
  }

  lemma OneMore(m: nat, n: nat, d: int)
    requires n == m + 1
    ensures n * d == m * d + d
  {
  }

  /** n appointments of length d need n * d of room. */
  lemma {:induction false} PackingBound(t: Table, ids: set<Id>, agent: nat, d: int, lo: int, hi: int)
    requires NoOverlap(t) && d > 0 && lo <= hi && Packed(t, ids, agent, d, lo, hi)
    ensures |ids| * d <= hi - lo
    decreases ids
  {
    if ids != {} {
      PackedAreRows(t, ids, agent, d, lo, hi);
      hide NoOverlap, Packed;
      var x := LatestOf(t, ids);
      var rest := ids - {x};
      EarlierEndsFirst(t, ids, x, agent, d, lo, hi);
      PackingBound(t, rest, agent, d, lo, t[x].start);
      OneMore(|rest|, |ids|, d);
    }
  }

  // ---- business hours, from packages/shared/index.ts ----

  const BUSINESS_START_HOUR := 10
  const BUSINESS_END_HOUR := 21
  const SLOT_DURATION_MINUTES := 15
  const MINUTE := 60_000_000

  /** The business day that starts at midnight `day`. */
  function Opens(day: int): int { day + BUSINESS_START_HOUR * 60 * MINUTE }

  function Closes(day: int): int { day + BUSINESS_END_HOUR * 60 * MINUTE }

  lemma AtMost44Slots(t: Table, ids: set<Id>, agent: nat, day: int)
    requires NoOverlap(t) && Packed(t, ids, agent, SLOT_DURATION_MINUTES * MINUTE, Opens(day), Closes(day))
    ensures |ids| <= 44
  {
    PackingBound(t, ids, agent, SLOT_DURATION_MINUTES * MINUTE, Opens(day), Closes(day));
  }

  /** A day of n back-to-back slots. */
  function FullDay(agent: nat, day: int, n: nat): Table {
    map i: nat | i < n :: SlotRow(agent, day, i)
  }

  function SlotRow(agent: nat, day: int, i: nat): Row {
    var start := Opens(day) + i * (SLOT_DURATION_MINUTES * MINUTE);
    Row(agent, start, start + SLOT_DURATION_MINUTES * MINUTE, Some("confirmed"))
  }

  /** The bound is met: 44 adjacent slots fit, since touching half-open ranges do not overlap. */
  lemma FortyFourFit(agent: nat, day: int)
    ensures var t := FullDay(agent, day, 44);
      NoOverlap(t) && |t.Keys| == 44
      && Packed(t, t.Keys, agent, SLOT_DURATION_MINUTES * MINUTE, Opens(day), Closes(day))
  {
    KeysOfFullDay(agent, day, 44);
  }

  lemma {:induction false} KeysOfFullDay(agent: nat, day: int, n: nat)
    ensures |FullDay(agent, day, n).Keys| == n
  {
    if n == 0 {
      assert FullDay(agent, day, 0).Keys == {};
    } else {
      KeysOfFullDay(agent, day, n - 1);
      assert FullDay(agent, day, n).Keys == FullDay(agent, day, n - 1).Keys + {n - 1};
    }
  }

  /** Without a minimum length there is no bound: an empty range is accepted next to anything. */
  lemma EmptyAppointmentsAlwaysFit(t: Table, id: Id, agent: nat, at: int)
    ensures WriteVerdict(t, id, Row(agent, at, at, Some("confirmed"))).Accepted?
  {
  }
}
