/**
 The well-test lifecycle: scheduled -> connected -> stabilizing -> measuring -> completed -> closed,
 with abort from any of the first four. `WellTestsService` mutates the table; `Transit` and `Create`
 say what one call answers, `Next` what it leaves behind, and `Run` folds whole histories of calls.
 Each call is one atomic step and carries the server clock it reads.
 */
module WellTests {
  import opened Prelude

  datatype Status = Scheduled | Connected | Stabilizing | Measuring | Completed | Closed | Aborted

  datatype TestPlan = TestPlan(testType: string, reportType: string, plannedHours: int,
                               clientReference: Option<string>)

  datatype Row = Row(
    tenant: string, job: string, well: string, unit: string, plan: TestPlan, createdAt: int,
    status: Status,
    connectedAt: Option<int>,
    stabilizationStartedAt: Option<int>,
    stabilizationEndedAt: Option<int>,
    officialStartedAt: Option<int>,
    officialEndedAt: Option<int>,
    disconnectedAt: Option<int>,
    reportGeneratedAt: Option<int>,
    abortedAt: Option<int>,
    abortReason: Option<string>,
    notes: Option<string>)

  type Table = map<string, Row>

  datatype Error = NotFound | BadRequest | Conflict | CheckViolation | DuplicateId

  datatype Job = Job(tenant: string, well: string, unit: string)
  datatype CreateInput = CreateInput(job: string, well: string, unit: string, plan: TestPlan, notes: Option<string>)

  datatype Transition =
    | Connect | StartStabilization | StartOfficial | EndOfficial
    | Abort(reason: string)
    | Close(reportGeneratedAt: Option<int>)

  // -------------------------------------------------------------------------
  // What one call does
  // -------------------------------------------------------------------------

  predicate IsActive(s: Status) { s in {Connected, Stabilizing, Measuring} }

  // A caller without a tenant (or with an empty one, which is falsy) sees every tenant.
  predicate InScope(ctx: Option<string>, tenant: string) {
    ctx.None? || ctx.value == "" || ctx.value == tenant
  }

  // An absent or empty text leaves the column alone.
  function PatchText(current: Option<string>, text: Option<string>): Option<string> {
    if text.Some? && text.value != "" then text else current
  }

  // What `create` stores of the plan: an empty client reference is not one.
  function StoredPlan(plan: TestPlan): TestPlan {
    plan.(clientReference := PatchText(None, plan.clientReference))
  }

  function AllowedFrom(t: Transition): set<Status> {
    match t
    case Connect => {Scheduled}
    case StartStabilization => {Connected}
    case StartOfficial => {Stabilizing}
    case EndOfficial => {Measuring}
    case Abort(_) => {Scheduled, Connected, Stabilizing, Measuring}
    case Close(_) => {Completed}
  }

  predicate OtherActive(db: Table, tenant: string, unit: string, self: string) {
    exists id :: id in db && id != self && db[id].tenant == tenant && db[id].unit == unit && IsActive(db[id].status)
  }

  predicate SkewRejected(t: Transition, row: Row, now: int) {
    || (t.StartOfficial? && row.stabilizationStartedAt.Some? && now < row.stabilizationStartedAt.value)
    || (t.EndOfficial? && row.officialStartedAt.Some? && now < row.officialStartedAt.value)
  }

  function Advance(t: Transition, row: Row, now: int): Row {
    match t
    case Connect => row.(status := Connected, connectedAt := Some(now))
    case StartStabilization => row.(status := Stabilizing, stabilizationStartedAt := Some(now))
    case StartOfficial => row.(status := Measuring, officialStartedAt := Some(now), stabilizationEndedAt := Some(now))
    case EndOfficial => row.(status := Completed, officialEndedAt := Some(now))
    case Abort(reason) => row.(status := Aborted, abortedAt := Some(now), abortReason := Some(reason))
    case Close(report) => row.(status := Closed, disconnectedAt := Some(now),
                               reportGeneratedAt := report.Else(row.reportGeneratedAt))
  }

  function Stepped(t: Transition, row: Row, notes: Option<string>, now: int): Row {
    Advance(t, row, now).(notes := PatchText(row.notes, notes))
  }

  predicate Ordered(a: Option<int>, b: Option<int>) {
    a.None? || b.None? || a.value <= b.value
  }

  predicate MeasuringColumns(row: Row) {
    && row.connectedAt.Some? && row.stabilizationStartedAt.Some?
    && row.stabilizationEndedAt.Some? && row.officialStartedAt.Some?
    && row.stabilizationEndedAt == row.officialStartedAt
  }

  // The table's own CHECK constraints on status and timestamps.
  predicate ChecksHold(row: Row) {
    && (match row.status
        case Scheduled => true
        case Connected => row.connectedAt.Some?
        case Stabilizing => row.connectedAt.Some? && row.stabilizationStartedAt.Some?
        case Measuring => MeasuringColumns(row)
        case Completed => MeasuringColumns(row) && row.officialEndedAt.Some?
        case Closed => MeasuringColumns(row) && row.officialEndedAt.Some? && row.disconnectedAt.Some?
        case Aborted => row.abortedAt.Some? && row.abortReason.Some?)
    && Ordered(row.connectedAt, row.stabilizationStartedAt)
    && Ordered(row.stabilizationStartedAt, row.officialStartedAt)
    && Ordered(row.officialStartedAt, row.officialEndedAt)
    && (row.stabilizationEndedAt.Some? && row.officialStartedAt.Some? ==>
          row.stabilizationEndedAt == row.officialStartedAt)
  }

  function Transit(db: Table, ctx: Option<string>, id: string, t: Transition, notes: Option<string>, now: int)
    : Result<Row, Error>
  {
    if id !in db || !InScope(ctx, db[id].tenant) then Err(NotFound)
    else if db[id].status !in AllowedFrom(t) then Err(Conflict)
    else if t.Connect? && OtherActive(db, db[id].tenant, db[id].unit, id) then Err(Conflict)
    else if SkewRejected(t, db[id], now) then Err(BadRequest)
    else
      var next := Stepped(t, db[id], notes, now);
      if ChecksHold(next) then Ok(next) else Err(CheckViolation)
  }

  // `job` is what the database holds for `input.job`; `id` and `createdAt` are the database's own.
  function Create(db: Table, id: string, ctx: Option<string>, input: CreateInput, job: Option<Job>, createdAt: int)
    : Result<Row, Error>
  {
    if job.None? || !InScope(ctx, job.value.tenant) then Err(NotFound)
    else if job.value.well != input.well || job.value.unit != input.unit then Err(BadRequest)
    else if id in db then Err(DuplicateId)
    else Ok(Row(job.value.tenant, input.job, input.well, input.unit, StoredPlan(input.plan), createdAt, Scheduled,
                None, None, None, None, None, None, None, None, None, PatchText(None, input.notes)))
  }

  function Commit(db: Table, id: string, r: Result<Row, Error>): Table {
    if r.Ok? then db[id := r.value] else db
  }

  // -------------------------------------------------------------------------
  // Runs
  // -------------------------------------------------------------------------

  datatype Call =
    | CreateCall(id: string, ctx: Option<string>, input: CreateInput, job: Option<Job>, createdAt: int)
    | TransitionCall(id: string, ctx: Option<string>, transition: Transition, notes: Option<string>, now: int)

  function Answer(db: Table, c: Call): Result<Row, Error> {
    match c
    case CreateCall(id, ctx, input, job, createdAt) => Create(db, id, ctx, input, job, createdAt)
    case TransitionCall(id, ctx, t, notes, now) => Transit(db, ctx, id, t, notes, now)
  }

  function Next(db: Table, c: Call): Table {
    Commit(db, c.id, Answer(db, c))
  }

  function Run(calls: seq<Call>): Table {
    if calls == [] then map[] else Next(Run(calls[..|calls| - 1]), calls[|calls| - 1])
  }

  // -------------------------------------------------------------------------
  // The active test of a unit
  // -------------------------------------------------------------------------

  predicate ActiveFor(row: Row, ctx: Option<string>, unit: string) {
    InScope(ctx, row.tenant) && row.unit == unit && IsActive(row.status)
  }

  predicate NewestAmong(db: Table, ids: set<string>, ctx: Option<string>, unit: string, id: string)
    requires ids <= db.Keys
  {
    && id in ids && ActiveFor(db[id], ctx, unit)
    && forall o | o in ids && ActiveFor(db[o], ctx, unit) :: db[o].createdAt <= db[id].createdAt
  }

  predicate NewestActive(db: Table, ctx: Option<string>, unit: string, id: string) {
    NewestAmong(db, db.Keys, ctx, unit, id)
  }

  // What `getActive` may answer.
  ghost predicate Finds(db: Table, ctx: Option<string>, unit: string, r: Option<string>) {
    && (r.None? <==> forall id :: id in db ==> !ActiveFor(db[id], ctx, unit))
    && (r.Some? ==> NewestActive(db, ctx, unit, r.value))
  }

  lemma {:induction false} NewestExists(db: Table, ids: set<string>, ctx: Option<string>, unit: string, some: string)
    returns (newest: string)
    requires ids <= db.Keys
    requires some in ids && ActiveFor(db[some], ctx, unit)
    ensures NewestAmong(db, ids, ctx, unit, newest)
    decreases |ids|
  {
    var rest := ids - {some};
    if o :| o in rest && ActiveFor(db[o], ctx, unit) {
      var best := NewestExists(db, rest, ctx, unit, o);
      newest := if db[best].createdAt <= db[some].createdAt then some else best;
    } else {
      newest := some;
    }
  }

  // -------------------------------------------------------------------------
  // The service
  // -------------------------------------------------------------------------

  class WellTestsService {
    var rows: Table

    constructor ()
      ensures rows == Run([])
    {
      rows := map[];
    }

    method CreateTest(id: string, ctx: Option<string>, input: CreateInput, job: Option<Job>, createdAt: int)
      returns (r: Result<Row, Error>)
      modifies this
      ensures r == Create(old(rows), id, ctx, input, job, createdAt)
      ensures rows == Next(old(rows), CreateCall(id, ctx, input, job, createdAt))
    {
      if job.None? || !InScope(ctx, job.value.tenant) {
        return Err(NotFound);
      }
      if job.value.well != input.well || job.value.unit != input.unit {
        return Err(BadRequest);
      }
      if id in rows {
        return Err(DuplicateId);
      }
      var row := Row(job.value.tenant, input.job, input.well, input.unit, StoredPlan(input.plan), createdAt, Scheduled,
                     None, None, None, None, None, None, None, None, None, PatchText(None, input.notes));
      rows := rows[id := row];
      return Ok(row);
    }

    method LoadForTransition(ctx: Option<string>, id: string) returns (r: Result<Row, Error>)
      ensures r == if id in rows && InScope(ctx, rows[id].tenant) then Ok(rows[id]) else Err(NotFound)
    {
      if id !in rows || !InScope(ctx, rows[id].tenant) {
        return Err(NotFound);
      }
      return Ok(rows[id]);
    }

    method AssertTransition(current: Status, allowedFrom: set<Status>) returns (g: Guard<Error>)
      ensures g == if current in allowedFrom then Pass else Reject(Conflict)
    {
      if current !in allowedFrom {
        return Reject(Conflict);
      }
      return Pass;
    }

    method AssertNoOtherActiveTestForUnit(tenant: string, unit: string, self: string) returns (g: Guard<Error>)
      ensures g == if OtherActive(rows, tenant, unit, self) then Reject(Conflict) else Pass
    {
      if OtherActive(rows, tenant, unit, self) {
        return Reject(Conflict);
      }
      return Pass;
    }

    method ApplyUpdate(id: string, next: Row) returns (r: Result<Row, Error>)
      requires id in rows
      modifies this
      ensures r == if ChecksHold(next) then Ok(next) else Err(CheckViolation)
      ensures rows == Commit(old(rows), id, r)
    {
      if !ChecksHold(next) {
        return Err(CheckViolation);
      }
      rows := rows[id := next];
      return Ok(next);
    }

    method ConnectTest(id: string, ctx: Option<string>, notes: Option<string>, now: int) returns (r: Result<Row, Error>)
      modifies this
      ensures r == Transit(old(rows), ctx, id, Connect, notes, now)
      ensures rows == Next(old(rows), TransitionCall(id, ctx, Connect, notes, now))
    {
      var row :- LoadForTransition(ctx, id);
      :- AssertTransition(row.status, {Scheduled});
      :- AssertNoOtherActiveTestForUnit(row.tenant, row.unit, id);
      r := ApplyUpdate(id, row.(status := Connected, connectedAt := Some(now), notes := PatchText(row.notes, notes)));
    }

    method StartStabilizationPhase(id: string, ctx: Option<string>, notes: Option<string>, now: int)
      returns (r: Result<Row, Error>)
      modifies this
      ensures r == Transit(old(rows), ctx, id, StartStabilization, notes, now)
      ensures rows == Next(old(rows), TransitionCall(id, ctx, StartStabilization, notes, now))
    {
      var row :- LoadForTransition(ctx, id);
      :- AssertTransition(row.status, {Connected});
      r := ApplyUpdate(id, row.(status := Stabilizing, stabilizationStartedAt := Some(now),
                                notes := PatchText(row.notes, notes)));
    }

    method StartOfficialWindow(id: string, ctx: Option<string>, notes: Option<string>, now: int)
      returns (r: Result<Row, Error>)
      modifies this
      ensures r == Transit(old(rows), ctx, id, StartOfficial, notes, now)
      ensures rows == Next(old(rows), TransitionCall(id, ctx, StartOfficial, notes, now))
    {
      var row :- LoadForTransition(ctx, id);
      :- AssertTransition(row.status, {Stabilizing});
      if row.stabilizationStartedAt.Some? && now < row.stabilizationStartedAt.value {
        return Err(BadRequest);
      }
      r := ApplyUpdate(id, row.(status := Measuring, officialStartedAt := Some(now), stabilizationEndedAt := Some(now),
                                notes := PatchText(row.notes, notes)));
    }

    method EndOfficialWindow(id: string, ctx: Option<string>, notes: Option<string>, now: int)
      returns (r: Result<Row, Error>)
      modifies this
      ensures r == Transit(old(rows), ctx, id, EndOfficial, notes, now)
      ensures rows == Next(old(rows), TransitionCall(id, ctx, EndOfficial, notes, now))
    {
      var row :- LoadForTransition(ctx, id);
      :- AssertTransition(row.status, {Measuring});
      if row.officialStartedAt.Some? && now < row.officialStartedAt.value {
        return Err(BadRequest);
      }
      r := ApplyUpdate(id, row.(status := Completed, officialEndedAt := Some(now),
                                notes := PatchText(row.notes, notes)));
    }

    method AbortTest(id: string, ctx: Option<string>, reason: string, notes: Option<string>, now: int)
      returns (r: Result<Row, Error>)
      modifies this
      ensures r == Transit(old(rows), ctx, id, Abort(reason), notes, now)
      ensures rows == Next(old(rows), TransitionCall(id, ctx, Abort(reason), notes, now))
    {
      var row :- LoadForTransition(ctx, id);
      :- AssertTransition(row.status, {Scheduled, Connected, Stabilizing, Measuring});
      r := ApplyUpdate(id, row.(status := Aborted, abortedAt := Some(now), abortReason := Some(reason),
                                notes := PatchText(row.notes, notes)));
    }

    method CloseTest(id: string, ctx: Option<string>, report: Option<int>, notes: Option<string>, now: int)
      returns (r: Result<Row, Error>)
      modifies this
      ensures r == Transit(old(rows), ctx, id, Close(report), notes, now)
      ensures rows == Next(old(rows), TransitionCall(id, ctx, Close(report), notes, now))
    {
      var row :- LoadForTransition(ctx, id);
      :- AssertTransition(row.status, {Completed});
      var next := row.(status := Closed, disconnectedAt := Some(now), notes := PatchText(row.notes, notes));
      if report.Some? {
        next := next.(reportGeneratedAt := report);
      }
      r := ApplyUpdate(id, next);
    }

    // The newest active row of the unit the caller can see.
    method GetActive(ctx: Option<string>, unit: string) returns (r: Option<string>)
      ensures Finds(rows, ctx, unit, r)
    {
      if exists id :: id in rows && ActiveFor(rows[id], ctx, unit) {
        ghost var some :| some in rows && ActiveFor(rows[some], ctx, unit);
        ghost var newest := NewestExists(rows, rows.Keys, ctx, unit, some);
        var id :| id in rows && NewestActive(rows, ctx, unit, id);
        return Some(id);
      }
      return None;
    }
  }

  // -------------------------------------------------------------------------
  // Every reachable table
  // -------------------------------------------------------------------------

  // How many milestones a status stands for.
  function Depth(s: Status): nat
    requires !s.Aborted?
  {
    match s
    case Scheduled => 0 case Connected => 1 case Stabilizing => 2
    case Measuring => 3 case Completed => 4 case Closed => 5
  }

  // How many milestones a row records, furthest first.
  function Reached(row: Row): nat {
    if row.disconnectedAt.Some? then 5
    else if row.officialEndedAt.Some? then 4
    else if row.officialStartedAt.Some? then 3
    else if row.stabilizationStartedAt.Some? then 2
    else if row.connectedAt.Some? then 1
    else 0
  }

  predicate HoldsFirst(row: Row, d: nat) {
    && (row.connectedAt.Some? <==> d >= 1)
    && (row.stabilizationStartedAt.Some? <==> d >= 2)
    && (row.officialStartedAt.Some? <==> d >= 3)
    && row.stabilizationEndedAt == row.officialStartedAt
    && (row.officialEndedAt.Some? <==> d >= 4)
    && (row.disconnectedAt.Some? <==> d >= 5)
  }

  // Exactly the timestamps the status implies; an aborted row holds a prefix of them.
  predicate ShapeFits(row: Row) {
    && HoldsFirst(row, Reached(row))
    && (if row.status.Aborted? then Reached(row) <= 3 else Reached(row) == Depth(row.status))
    && (row.abortedAt.Some? <==> row.status.Aborted?)
    && (row.abortReason.Some? <==> row.status.Aborted?)
    && (row.reportGeneratedAt.Some? ==> row.status.Closed?)
  }

  predicate OrderFits(row: Row) {
    && Ordered(row.connectedAt, row.stabilizationStartedAt)
    && Ordered(row.stabilizationStartedAt, row.officialStartedAt)
    && Ordered(row.officialStartedAt, row.officialEndedAt)
  }

  predicate OneActivePerUnit(db: Table) {
    forall a, b | a in db && b in db && IsActive(db[a].status) && IsActive(db[b].status)
      :: db[a].tenant == db[b].tenant && db[a].unit == db[b].unit ==> a == b
  }

  ghost predicate Invariant(db: Table) {
    && (forall id :: id in db ==> ShapeFits(db[id]) && OrderFits(db[id]))
    && OneActivePerUnit(db)
  }

  // A transition the guards let through.
  predicate Admitted(t: Transition, row: Row, now: int) {
    row.status in AllowedFrom(t) && !SkewRejected(t, row, now)
  }

  lemma AnswerIsStep(db: Table, c: Call)
    requires c.TransitionCall? && Answer(db, c).Ok?
    ensures c.id in db && Admitted(c.transition, db[c.id], c.now)
    ensures Answer(db, c).value == Stepped(c.transition, db[c.id], c.notes, c.now) && ChecksHold(Answer(db, c).value)
  {
  }

  lemma StepFits(t: Transition, row: Row, notes: Option<string>, now: int)
    requires ShapeFits(row) && OrderFits(row) && Admitted(t, row, now)
    ensures ShapeFits(Stepped(t, row, notes, now))
    ensures ChecksHold(Stepped(t, row, notes, now)) <==> !(t.StartStabilization? && now < row.connectedAt.GetOr(now))
    ensures ChecksHold(Stepped(t, row, notes, now)) ==> OrderFits(Stepped(t, row, notes, now))
  {
    match t {
      case Connect =>
      case StartStabilization =>
      case StartOfficial =>
      case EndOfficial =>
      case Abort(_) =>
      case Close(_) =>
    }
  }

  lemma AnswerFits(db: Table, c: Call)
    requires Answer(db, c).Ok?
    requires c.id in db ==> ShapeFits(db[c.id]) && OrderFits(db[c.id])
    ensures var row := Answer(db, c).value; ShapeFits(row) && OrderFits(row)
  {
    if c.TransitionCall? {
      AnswerIsStep(db, c);
      StepFits(c.transition, db[c.id], c.notes, c.now);
    }
  }

  // Only `connect` enters the active band, and only past the guard.
  lemma AnswerEntersActiveBandAlone(db: Table, c: Call)
    requires Answer(db, c).Ok? && IsActive(Answer(db, c).value.status)
    ensures c.id in db
    ensures Answer(db, c).value.tenant == db[c.id].tenant && Answer(db, c).value.unit == db[c.id].unit
    ensures IsActive(db[c.id].status) || !OtherActive(db, db[c.id].tenant, db[c.id].unit, c.id)
  {
  }

  lemma CommitKeepsInvariant(db: Table, id: string, row: Row)
    requires Invariant(db) && ShapeFits(row) && OrderFits(row)
    requires IsActive(row.status) ==>
               && id in db && row.tenant == db[id].tenant && row.unit == db[id].unit
               && (IsActive(db[id].status) || !OtherActive(db, row.tenant, row.unit, id))
    ensures Invariant(db[id := row])
  {
  }

  lemma NextKeepsInvariant(db: Table, c: Call)
    requires Invariant(db)
    ensures Invariant(Next(db, c))
  {
    var r := Answer(db, c);
    if r.Ok? {
      AnswerFits(db, c);
      if IsActive(r.value.status) {
        AnswerEntersActiveBandAlone(db, c);
      }
      CommitKeepsInvariant(db, c.id, r.value);
    }
  }

  /** Every row of every run, whatever the clock does: shape, order, one active test per unit. */
  lemma {:induction false} ReachableInvariant(calls: seq<Call>)
    ensures Invariant(Run(calls))
  {
    if calls != [] {
      ReachableInvariant(calls[..|calls| - 1]);
      NextKeepsInvariant(Run(calls[..|calls| - 1]), calls[|calls| - 1]);
    }
  }

  /** The service's guards make the CHECK constraints redundant, with exactly one exception:
      no guard compares the clock of startStabilization with connectedAt. */
  lemma CheckRejectsExactlyEarlyStabilization(calls: seq<Call>, c: Call)
    requires c.TransitionCall?
    ensures var db := Run(calls);
            Answer(db, c) == Err(CheckViolation) <==>
            && c.transition.StartStabilization?
            && c.id in db && InScope(c.ctx, db[c.id].tenant) && db[c.id].status.Connected?
            && c.now < db[c.id].connectedAt.GetOr(c.now)
  {
    ReachableInvariant(calls);
    var db := Run(calls);
    if c.id in db && Admitted(c.transition, db[c.id], c.now) {
      StepFits(c.transition, db[c.id], c.notes, c.now);
    }
  }

  // The calls of the small example runs: one test "t", driven by an unscoped caller.
  function Created(plan: TestPlan): Call {
    CreateCall("t", None, CreateInput("j", "w", "u", plan, None), Some(Job("tenant", "w", "u")), 0)
  }

  function Moved(t: Transition, now: int): Call { TransitionCall("t", None, t, None, now) }

  lemma OneByOne(before: seq<Call>, c: Call)
    ensures Run(before + [c]) == Next(Run(before), c)
    ensures before == [] ==> Run([c]) == Next(map[], c)
  {
    assert (before + [c])[..|before|] == before;
  }

  /** ... and the exception happens: connected at 10, stabilization started by a clock at 5. */
  lemma EarlyStabilizationIsRejected(plan: TestPlan)
    ensures var calls := [Created(plan), Moved(Connect, 10)];
            Answer(Run(calls), Moved(StartStabilization, 5)) == Err(CheckViolation)
  {
    OneByOne([], Created(plan));
    OneByOne([Created(plan)], Moved(Connect, 10));
  }

  lemma ScopedGetActiveIsUnique(calls: seq<Call>, tenant: string, unit: string, a: string, b: string)
    requires tenant != ""
    requires a in Run(calls) && ActiveFor(Run(calls)[a], Some(tenant), unit)
    requires NewestActive(Run(calls), Some(tenant), unit, b)
    ensures a == b
  {
    ReachableInvariant(calls);
  }

  // -------------------------------------------------------------------------
  // Clocks that never go back
  // -------------------------------------------------------------------------

  ghost predicate ClockNeverGoesBack(calls: seq<Call>) {
    forall i, j | 0 <= i < j < |calls| && calls[i].TransitionCall? && calls[j].TransitionCall?
      :: calls[i].now <= calls[j].now
  }

  predicate NoLaterThan(row: Row, t: int) {
    && Ordered(row.connectedAt, Some(t))
    && Ordered(row.stabilizationStartedAt, Some(t))
    && Ordered(row.officialStartedAt, Some(t))
    && Ordered(row.officialEndedAt, Some(t))
    && Ordered(row.disconnectedAt, Some(t))
    && Ordered(row.abortedAt, Some(t))
  }

  // The last milestones in order too: disconnection after the official end, abort after everything.
  predicate FullChain(row: Row) {
    && OrderFits(row)
    && Ordered(row.officialEndedAt, row.disconnectedAt)
    && (row.abortedAt.Some? ==> NoLaterThan(row, row.abortedAt.value))
  }

  lemma StepIsNoLaterThan(step: Transition, row: Row, notes: Option<string>, now: int, t: int)
    requires NoLaterThan(row, t) && now <= t
    ensures NoLaterThan(Stepped(step, row, notes, now), t)
  {
    match step {
      case Connect =>
      case StartStabilization =>
      case StartOfficial =>
      case EndOfficial =>
      case Abort(_) =>
      case Close(_) =>
    }
  }

  lemma AnswerIsNoLaterThan(db: Table, c: Call, t: int)
    requires Answer(db, c).Ok?
    requires c.TransitionCall? ==> c.now <= t
    requires c.id in db ==> NoLaterThan(db[c.id], t)
    ensures NoLaterThan(Answer(db, c).value, t)
  {
    if c.TransitionCall? {
      AnswerIsStep(db, c);
      StepIsNoLaterThan(c.transition, db[c.id], c.notes, c.now, t);
    }
  }

  lemma {:induction false} TimestampsComeFromCalls(calls: seq<Call>, t: int)
    requires forall i :: 0 <= i < |calls| && calls[i].TransitionCall? ==> calls[i].now <= t
    ensures forall id :: id in Run(calls) ==> NoLaterThan(Run(calls)[id], t)
  {
    if calls != [] {
      var before, c := calls[..|calls| - 1], calls[|calls| - 1];
      TimestampsComeFromCalls(before, t);
      if Answer(Run(before), c).Ok? {
        AnswerIsNoLaterThan(Run(before), c, t);
      }
    }
  }

  lemma StepHasFullChain(t: Transition, row: Row, notes: Option<string>, now: int)
    requires ShapeFits(row) && FullChain(row) && NoLaterThan(row, now) && row.status in AllowedFrom(t)
    ensures FullChain(Stepped(t, row, notes, now))
  {
    match t {
      case Connect =>
      case StartStabilization =>
      case StartOfficial =>
      case EndOfficial =>
      case Abort(_) =>
      case Close(_) =>
    }
  }

  lemma AnswerHasFullChain(db: Table, c: Call)
    requires Answer(db, c).Ok?
    requires c.TransitionCall? && c.id in db ==>
               ShapeFits(db[c.id]) && FullChain(db[c.id]) && NoLaterThan(db[c.id], c.now)
    ensures FullChain(Answer(db, c).value)
  {
    if c.TransitionCall? {
      AnswerIsStep(db, c);
      StepHasFullChain(c.transition, db[c.id], c.notes, c.now);
    }
  }

  /** With a clock that never goes back the whole chain up to disconnectedAt or abortedAt is in order. */
  lemma {:induction false} MonotoneClockGivesFullChain(calls: seq<Call>)
    requires ClockNeverGoesBack(calls)
    ensures forall id :: id in Run(calls) ==> FullChain(Run(calls)[id])
  {
    if calls != [] {
      var before, c := calls[..|calls| - 1], calls[|calls| - 1];
      MonotoneClockGivesFullChain(before);
      ReachableInvariant(before);
      if c.TransitionCall? {
        TimestampsComeFromCalls(before, c.now);
      }
      if Answer(Run(before), c).Ok? {
        AnswerHasFullChain(Run(before), c);
      }
    }
  }

  // -------------------------------------------------------------------------
  // Progress and permanence
  // -------------------------------------------------------------------------

  function Rank(s: Status): nat {
    if s.Aborted? then 5 else Depth(s)
  }

  lemma TransitionRaisesRank(db: Table, c: Call)
    requires c.TransitionCall? && Answer(db, c).Ok?
    ensures c.id in db && Rank(db[c.id].status) < Rank(Next(db, c)[c.id].status)
  {
  }

  function Successes(calls: seq<Call>, id: string): nat {
    if calls == [] then 0
    else
      var before, c := calls[..|calls| - 1], calls[|calls| - 1];
      Successes(before, id) + if c.TransitionCall? && c.id == id && Answer(Run(before), c).Ok? then 1 else 0
  }

  /** A test takes at most five transitions in its life. */
  lemma {:induction false} AtMostFiveTransitions(calls: seq<Call>, id: string)
    ensures Successes(calls, id) <= if id in Run(calls) then Rank(Run(calls)[id].status) else 0
    ensures Successes(calls, id) <= 5
  {
    if calls != [] {
      var before, c := calls[..|calls| - 1], calls[|calls| - 1];
      AtMostFiveTransitions(before, id);
      if c.TransitionCall? && c.id == id && Answer(Run(before), c).Ok? {
        TransitionRaisesRank(Run(before), c);
      }
    }
  }

  predicate Kept<T(==)>(a: Option<T>, b: Option<T>) { a.Some? ==> a == b }

  // `b` is a later version of `a`: nothing once written is rewritten.
  predicate Extends(a: Row, b: Row) {
    && a.tenant == b.tenant && a.job == b.job && a.well == b.well && a.unit == b.unit
    && a.plan == b.plan && a.createdAt == b.createdAt
    && Kept(a.connectedAt, b.connectedAt)
    && Kept(a.stabilizationStartedAt, b.stabilizationStartedAt)
    && Kept(a.stabilizationEndedAt, b.stabilizationEndedAt)
    && Kept(a.officialStartedAt, b.officialStartedAt)
    && Kept(a.officialEndedAt, b.officialEndedAt)
    && Kept(a.disconnectedAt, b.disconnectedAt)
    && Kept(a.reportGeneratedAt, b.reportGeneratedAt)
    && Kept(a.abortedAt, b.abortedAt)
    && Kept(a.abortReason, b.abortReason)
    && Rank(a.status) <= Rank(b.status)
    && (a.status in {Closed, Aborted} ==> a == b)
    && (a.status.Completed? ==> b.status in {Completed, Closed})
  }

  lemma StepExtends(t: Transition, row: Row, notes: Option<string>, now: int)
    requires ShapeFits(row) && row.status in AllowedFrom(t)
    ensures Extends(row, Stepped(t, row, notes, now))
  {
    match t {
      case Connect =>
      case StartStabilization =>
      case StartOfficial =>
      case EndOfficial =>
      case Abort(_) =>
      case Close(_) =>
    }
  }

  lemma AnswerExtends(db: Table, c: Call)
    requires Answer(db, c).Ok? && c.id in db && ShapeFits(db[c.id])
    ensures Extends(db[c.id], Answer(db, c).value)
  {
    AnswerIsStep(db, c);
    StepExtends(c.transition, db[c.id], c.notes, c.now);
  }

  lemma ExtendsIsTransitive(a: Row, b: Row, c: Row)
    requires Extends(a, b) && Extends(b, c)
    ensures Extends(a, c)
  {
  }

  /** Timestamps are write-once over the rest of any run, and terminal rows never change again. */
  lemma {:induction false} TimestampsAreWriteOnce(calls: seq<Call>, k: nat, id: string)
    requires k <= |calls| && id in Run(calls[..k])
    ensures id in Run(calls) && Extends(Run(calls[..k])[id], Run(calls)[id])
  {
    if k == |calls| {
      assert calls[..k] == calls;
    } else {
      var before, c := calls[..|calls| - 1], calls[|calls| - 1];
      assert before[..k] == calls[..k];
      TimestampsAreWriteOnce(before, k, id);
      if c.id == id && Answer(Run(before), c).Ok? {
        ReachableInvariant(before);
        AnswerExtends(Run(before), c);
        ExtendsIsTransitive(Run(calls[..k])[id], Run(before)[id], Run(calls)[id]);
      }
    }
  }

  // -------------------------------------------------------------------------
  // Tenants
  // -------------------------------------------------------------------------

  lemma ScopedCallStaysInTenant(db: Table, c: Call, tenant: string, id: string)
    requires c.ctx == Some(tenant) && tenant != ""
    ensures id in Next(db, c) && Next(db, c)[id].tenant != tenant ==> id in db && Next(db, c)[id] == db[id]
    ensures id in db && db[id].tenant != tenant ==> id in Next(db, c) && Next(db, c)[id] == db[id]
  {
  }

  /** However long a tenant-scoped caller goes on, no row of another tenant appears, changes or disappears. */
  lemma {:induction false} ScopedCallersAreIsolated(calls: seq<Call>, k: nat, tenant: string, id: string)
    requires k <= |calls| && tenant != ""
    requires forall i :: k <= i < |calls| ==> calls[i].ctx == Some(tenant)
    ensures id in Run(calls) && Run(calls)[id].tenant != tenant ==>
              id in Run(calls[..k]) && Run(calls[..k])[id] == Run(calls)[id]
    ensures id in Run(calls[..k]) && Run(calls[..k])[id].tenant != tenant ==>
              id in Run(calls) && Run(calls)[id] == Run(calls[..k])[id]
  {
    if k == |calls| {
      assert calls[..k] == calls;
    } else {
      var before, c := calls[..|calls| - 1], calls[|calls| - 1];
      assert before[..k] == calls[..k];
      ScopedCallersAreIsolated(before, k, tenant, id);
      ScopedCallStaysInTenant(Run(before), c, tenant, id);
    }
  }
}
