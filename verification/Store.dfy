/** Where a run's progress lives between stages: the reference store, the Postgres
    store, and exactly when the second can stand in for the first. */
module Store {
  import opened Wrappers
  import opened Stages
  import opened Messages

  /** What a store reports of a run: the stages done, and the stages handed to workers. */
  datatype Snapshot = Snapshot(completed: set<StageName>, dispatched: set<StageName>)

  datatype StoreOp =
    | MarkDispatched(stages: seq<StageName>)
    | BeginStage(stage: StageName, attempt: int)
    | CompleteStage(stage: StageName)
    | FailStage(stage: StageName, error: string, permanent: bool)

  function Members(stages: seq<StageName>): set<StageName> {
    set s | s in stages
  }

  // ---------------------------------------------------------------- one run, in memory

  datatype MemRun = MemRun(
    completed: set<StageName>,
    dispatched: set<StageName>,
    errors: map<StageName, string>,
    attempts: map<StageName, int>)

  const EMPTY_MEM: MemRun := MemRun({}, {}, map[], map[])

  function MemApply(run: MemRun, op: StoreOp): MemRun {
    match op
    case MarkDispatched(stages) => run.(dispatched := run.dispatched + Members(stages))
    case BeginStage(s, attempt) =>
      run.(dispatched := run.dispatched + {s}, attempts := run.attempts[s := attempt])
    case CompleteStage(s) =>
      run.(completed := run.completed + {s}, dispatched := run.dispatched + {s})
    case FailStage(s, error, permanent) =>
      run.(errors := run.errors[s := error],
           dispatched := if permanent then run.dispatched + {s} else run.dispatched)
  }

  function MemSnapshot(run: MemRun): Snapshot {
    Snapshot(run.completed, run.dispatched)
  }

  // ---------------------------------------------------------------- one run, as rows

  datatype Status = Pending | Running | Succeeded | Failed

  datatype Row = Row(status: Status, attempt: int, error: Option<string>)

  type Rows = map<StageName, Row>

  const MAX_ERROR := 4000

  function Truncated(error: string): string {
    if |error| > MAX_ERROR then error[..MAX_ERROR] else error
  }

  /** Insert a row unless the stage already has one. */
  function InsertIfAbsent(rows: Rows, s: StageName): Rows {
    if s in rows then rows else rows[s := Row(Pending, 0, None)]
  }

  function InsertAll(rows: Rows, stages: seq<StageName>): Rows {
    if stages == [] then rows
    else InsertIfAbsent(InsertAll(rows, stages[..|stages| - 1]), stages[|stages| - 1])
  }

  function PgApply(rows: Rows, op: StoreOp): Rows {
    match op
    case MarkDispatched(stages) => InsertAll(rows, stages)
    case BeginStage(s, attempt) =>
      rows[s := if s in rows then rows[s].(status := Running, attempt := attempt) else Row(Running, attempt, None)]
    case CompleteStage(s) =>
      rows[s := if s in rows then rows[s].(status := Succeeded, error := None) else Row(Succeeded, 0, None)]
    case FailStage(s, error, permanent) =>
      var status := if permanent then Failed else Pending;
      var text := Some(Truncated(error));
      rows[s := if s in rows then rows[s].(status := status, error := text) else Row(status, 0, text)]
  }

  function PgCompleted(rows: Rows): set<StageName> {
    set s | s in rows && rows[s].status.Succeeded?
  }

  function PgSnapshot(rows: Rows): Snapshot {
    Snapshot(PgCompleted(rows), rows.Keys)
  }

  lemma {:induction false} InsertAllKeys(rows: Rows, stages: seq<StageName>)
    ensures InsertAll(rows, stages).Keys == rows.Keys + Members(stages)
    ensures forall s :: s in rows ==> InsertAll(rows, stages)[s] == rows[s]
    ensures forall s :: s in InsertAll(rows, stages) && s !in rows ==>
              InsertAll(rows, stages)[s] == Row(Pending, 0, None)
  {
    if stages != [] {
      var front := stages[..|stages| - 1];
      InsertAllKeys(rows, front);
      assert stages == front + [stages[|stages| - 1]];
    }
  }

  /** A reservation adds its stages as pending rows, and completes nothing. */
  lemma ReservedRows(rows: Rows, stages: seq<StageName>)
    ensures InsertAll(rows, stages).Keys == rows.Keys + Members(stages)
    ensures PgCompleted(InsertAll(rows, stages)) == PgCompleted(rows)
  {
    InsertAllKeys(rows, stages);
  }

  // ---------------------------------------------------------------- the stores

  type RunId = string

  /** What a worker has others see: a committed operation of the store, or a message published. */
  datatype Event = Stored(run: RunId, op: StoreOp) | Sent(queue: Queue, message: StageMessage)

  /** Everything stored and sent, in the order in which it happened. */
  class Journal {
    ghost var events: seq<Event>

    constructor ()
      ensures events == []
    {
      events := [];
    }
  }

  class InMemoryStageStore {
    var completed: map<RunId, set<StageName>>
    var dispatched: map<RunId, set<StageName>>
    var errors: map<RunId, map<StageName, string>>
    var attempts: map<RunId, map<StageName, int>>

    constructor ()
      ensures forall id :: Run(id) == EMPTY_MEM
    {
      completed, dispatched, errors, attempts := map[], map[], map[], map[];
    }

    /** Everything recorded about one run; a run never heard of is empty. */
    ghost function Run(id: RunId): MemRun
      reads this
    {
      MemRun(if id in completed then completed[id] else {},
             if id in dispatched then dispatched[id] else {},
             if id in errors then errors[id] else map[],
             if id in attempts then attempts[id] else map[])
    }

    method AddDispatched(id: RunId, stages: set<StageName>)
      modifies this`dispatched
      ensures Run(id) == old(Run(id)).(dispatched := old(Run(id)).dispatched + stages)
      ensures forall other :: other != id ==> Run(other) == old(Run(other))
    {
      dispatched := dispatched[id := (if id in dispatched then dispatched[id] else {}) + stages];
    }

    method AddCompleted(id: RunId, stage: StageName)
      modifies this`completed
      ensures Run(id) == old(Run(id)).(completed := old(Run(id)).completed + {stage})
      ensures forall other :: other != id ==> Run(other) == old(Run(other))
    {
      completed := completed[id := (if id in completed then completed[id] else {}) + {stage}];
    }

    method MarkDispatched(id: RunId, stages: seq<StageName>)
      modifies this
      ensures Run(id) == MemApply(old(Run(id)), StoreOp.MarkDispatched(stages))
      ensures forall other :: other != id ==> Run(other) == old(Run(other))
    {
      AddDispatched(id, Members(stages));
    }

    method BeginStage(id: RunId, stage: StageName, attempt: int)
      modifies this
      ensures Run(id) == MemApply(old(Run(id)), StoreOp.BeginStage(stage, attempt))
      ensures forall other :: other != id ==> Run(other) == old(Run(other))
    {
      AddDispatched(id, {stage});
      attempts := attempts[id := (if id in attempts then attempts[id] else map[])[stage := attempt]];
    }

    method CompleteStage(id: RunId, stage: StageName) returns (snapshot: Snapshot)
      modifies this
      ensures Run(id) == MemApply(old(Run(id)), StoreOp.CompleteStage(stage))
      ensures snapshot == MemSnapshot(Run(id))
      ensures forall other :: other != id ==> Run(other) == old(Run(other))
    {
      AddCompleted(id, stage);
      AddDispatched(id, {stage});
      snapshot := TakeSnapshot(id);
    }

    method FailStage(id: RunId, stage: StageName, error: string, permanent: bool)
      modifies this
      ensures Run(id) == MemApply(old(Run(id)), StoreOp.FailStage(stage, error, permanent))
      ensures forall other :: other != id ==> Run(other) == old(Run(other))
    {
      errors := errors[id := (if id in errors then errors[id] else map[])[stage := error]];
      if permanent {
        AddDispatched(id, {stage});
      }
    }

    method TakeSnapshot(id: RunId) returns (snapshot: Snapshot)
      ensures snapshot == MemSnapshot(Run(id))
    {
      snapshot := Snapshot(if id in completed then completed[id] else {},
                           if id in dispatched then dispatched[id] else {});
    }
  }

  class PostgresStageStore {
    const journal: Journal
    /** The stage table, one row per run and stage. */
    var table: map<RunId, Rows>
    /** Runs whose document has been marked failed. */
    var failedDocuments: set<RunId>

    constructor (journal: Journal)
      ensures this.journal == journal && failedDocuments == {} && forall id :: RunRows(id) == map[]
    {
      this.journal := journal;
      table, failedDocuments := map[], {};
    }

    ghost function RunRows(id: RunId): Rows
      reads this
    {
      if id in table then table[id] else map[]
    }

    method Rows(id: RunId) returns (rows: map<StageName, Row>)
      ensures rows == RunRows(id)
    {
      rows := if id in table then table[id] else map[];
    }

    method MarkDispatched(id: RunId, stages: seq<StageName>)
      modifies this`table, journal
      ensures RunRows(id) == PgApply(old(RunRows(id)), StoreOp.MarkDispatched(stages))
      ensures forall other :: other != id ==> RunRows(other) == old(RunRows(other))
      ensures journal.events == old(journal.events)
                                + if stages == [] then [] else [Stored(id, StoreOp.MarkDispatched(stages))]
    {
      if stages == [] {
        return;
      }
      var rows := Rows(id);
      for i := 0 to |stages|
        invariant rows == InsertAll(old(RunRows(id)), stages[..i])
      {
        assert stages[..i + 1][..i] == stages[..i];
        if stages[i] !in rows {
          rows := rows[stages[i] := Row(Pending, 0, None)];
        }
      }
      assert stages[..|stages|] == stages;
      table := table[id := rows];
      journal.events := journal.events + [Stored(id, StoreOp.MarkDispatched(stages))];
    }

    method BeginStage(id: RunId, stage: StageName, attempt: int)
      modifies this`table, journal
      ensures RunRows(id) == PgApply(old(RunRows(id)), StoreOp.BeginStage(stage, attempt))
      ensures forall other :: other != id ==> RunRows(other) == old(RunRows(other))
      ensures journal.events == old(journal.events) + [Stored(id, StoreOp.BeginStage(stage, attempt))]
    {
      var rows := Rows(id);
      var row := if stage in rows then rows[stage].(status := Running, attempt := attempt)
                 else Row(Running, attempt, None);
      table := table[id := rows[stage := row]];
      journal.events := journal.events + [Stored(id, StoreOp.BeginStage(stage, attempt))];
    }

    /** Recording the completion and reading the run back are one step. */
    method CompleteStage(id: RunId, stage: StageName) returns (snapshot: Snapshot)
      modifies this`table, journal
      ensures RunRows(id) == PgApply(old(RunRows(id)), StoreOp.CompleteStage(stage))
      ensures snapshot == PgSnapshot(RunRows(id))
      ensures forall other :: other != id ==> RunRows(other) == old(RunRows(other))
      ensures journal.events == old(journal.events) + [Stored(id, StoreOp.CompleteStage(stage))]
    {
      var rows := Rows(id);
      var row := if stage in rows then rows[stage].(status := Succeeded, error := None)
                 else Row(Succeeded, 0, None);
      table := table[id := rows[stage := row]];
      journal.events := journal.events + [Stored(id, StoreOp.CompleteStage(stage))];
      snapshot := TakeSnapshot(id);
    }

    method FailStage(id: RunId, stage: StageName, error: string, permanent: bool)
      modifies this, journal
      ensures RunRows(id) == PgApply(old(RunRows(id)), StoreOp.FailStage(stage, error, permanent))
      ensures forall other :: other != id ==> RunRows(other) == old(RunRows(other))
      ensures journal.events == old(journal.events) + [Stored(id, StoreOp.FailStage(stage, error, permanent))]
      ensures failedDocuments == old(failedDocuments) + if permanent then {id} else {}
    {
      var rows := Rows(id);
      var status := if permanent then Failed else Pending;
      var text := Some(Truncated(error));
      var row := if stage in rows then rows[stage].(status := status, error := text) else Row(status, 0, text);
      table := table[id := rows[stage := row]];
      journal.events := journal.events + [Stored(id, StoreOp.FailStage(stage, error, permanent))];
      if permanent {
        failedDocuments := failedDocuments + {id};
      }
    }

    method TakeSnapshot(id: RunId) returns (snapshot: Snapshot)
      ensures snapshot == PgSnapshot(RunRows(id))
    {
      var rows := Rows(id);
      snapshot := Snapshot(set s | s in rows && rows[s].status.Succeeded?,
                           set s | s in rows && rows[s].status in {Pending, Running, Succeeded, Failed});
      assert snapshot.dispatched == rows.Keys by {
        forall s | s in rows ensures s in snapshot.dispatched {
          match rows[s].status case Pending => case Running => case Succeeded => case Failed =>
        }
      }
    }
  }

  // ---------------------------------------------------------------- refinement

  function MemRunOf(ops: seq<StoreOp>): MemRun {
    if ops == [] then EMPTY_MEM else MemApply(MemRunOf(ops[..|ops| - 1]), ops[|ops| - 1])
  }

  function PgRunOf(ops: seq<StoreOp>): Rows {
    if ops == [] then map[] else PgApply(PgRunOf(ops[..|ops| - 1]), ops[|ops| - 1])
  }

  ghost predicate Finished(ops: seq<StoreOp>, s: StageName) {
    CompleteStage(s) in ops
  }

  predicate Touches(op: StoreOp, s: StageName) {
    match op
    case MarkDispatched(stages) => s in stages
    case _ => op.stage == s
  }

  ghost predicate Touched(ops: seq<StoreOp>, s: StageName) {
    exists op :: op in ops && Touches(op, s)
  }

  /** What the Postgres store needs of its callers to behave like the reference one. */
  ghost predicate Allowed(before: seq<StoreOp>, op: StoreOp) {
    match op
    case BeginStage(s, _) => !Finished(before, s)
    case FailStage(s, _, permanent) => !Finished(before, s) && (permanent || Touched(before, s))
    case _ => true
  }

  ghost predicate Disciplined(ops: seq<StoreOp>) {
    ops != [] ==> Disciplined(ops[..|ops| - 1]) && Allowed(ops[..|ops| - 1], ops[|ops| - 1])
  }

  /** After every operation of the trace the two stores report the same progress. */
  ghost predicate AgreeThroughout(ops: seq<StoreOp>) {
    && PgSnapshot(PgRunOf(ops)) == MemSnapshot(MemRunOf(ops))
    && (ops != [] ==> AgreeThroughout(ops[..|ops| - 1]))
  }

  lemma {:induction false} MemTracksHistory(ops: seq<StoreOp>)
    ensures forall s :: s in MemRunOf(ops).completed <==> Finished(ops, s)
    ensures forall s :: s in MemRunOf(ops).dispatched ==> Touched(ops, s)
    ensures Disciplined(ops) ==> forall s :: s in MemRunOf(ops).dispatched <==> Touched(ops, s)
  {
    if ops != [] {
      var front, last := ops[..|ops| - 1], ops[|ops| - 1];
      MemTracksHistory(front);
      assert forall op :: op in ops <==> op in front || op == last;
      forall s ensures Touched(ops, s) <==> Touched(front, s) || Touches(last, s) {
        if Touched(front, s) {
          var op :| op in front && Touches(op, s);
          assert op in ops;
        }
        if Touches(last, s) {
          assert last in ops;
        }
      }
    }
  }

  // ---------------------------------------------------------------- what a row tells

  /** Beginning, completing or failing a stage says how it stands; being reserved does not. */
  predicate Settles(op: StoreOp, s: StageName) {
    !op.MarkDispatched? && op.stage == s
  }

  ghost predicate LastSettled(ops: seq<StoreOp>, s: StageName, k: nat) {
    k < |ops| && Settles(ops[k], s) && forall j :: k < j < |ops| ==> !Settles(ops[j], s)
  }

  ghost predicate LastBegun(ops: seq<StoreOp>, s: StageName, k: nat) {
    && k < |ops| && ops[k].BeginStage? && ops[k].stage == s
    && forall j :: k < j < |ops| ==> !(ops[j].BeginStage? && ops[j].stage == s)
  }

  ghost predicate LastEnded(ops: seq<StoreOp>, s: StageName, k: nat) {
    && k < |ops| && Settles(ops[k], s) && !ops[k].BeginStage?
    && forall j :: k < j < |ops| ==> !Settles(ops[j], s) || ops[j].BeginStage?
  }

  /** The first 4000 characters. */
  ghost predicate IsCut(error: string, text: string) {
    text <= error && |text| == if |error| <= 4000 then |error| else 4000
  }

  ghost predicate StatusTells(ops: seq<StoreOp>, s: StageName, status: Status) {
    && (forall k: nat :: LastSettled(ops, s, k) ==>
          status == match ops[k]
                    case BeginStage(_, _) => Running
                    case CompleteStage(_) => Succeeded
                    case FailStage(_, _, permanent) => (if permanent then Failed else Pending))
    && ((forall k: nat :: !LastSettled(ops, s, k)) ==> status == Pending)
  }

  ghost predicate AttemptTells(ops: seq<StoreOp>, s: StageName, attempt: int) {
    && (forall k: nat :: LastBegun(ops, s, k) ==> attempt == ops[k].attempt)
    && ((forall k: nat :: !LastBegun(ops, s, k)) ==> attempt == 0)
  }

  ghost predicate ErrorTells(ops: seq<StoreOp>, s: StageName, error: Option<string>) {
    && (forall k: nat :: LastEnded(ops, s, k) ==>
          if ops[k].CompleteStage? then error == None else error.Some? && IsCut(ops[k].error, error.value))
    && ((forall k: nat :: !LastEnded(ops, s, k)) ==> error == None)
  }

  lemma NotTouchedYet(ops: seq<StoreOp>, s: StageName)
    requires !Touched(ops, s)
    ensures StatusTells(ops, s, Pending) && AttemptTells(ops, s, 0) && ErrorTells(ops, s, None)
  {
    forall k | 0 <= k < |ops| ensures !Settles(ops[k], s) {
      assert ops[k] in ops;
    }
  }

  lemma StatusNext(front: seq<StoreOp>, op: StoreOp, s: StageName, status: Status)
    requires StatusTells(front, s, status)
    ensures !Settles(op, s) ==> StatusTells(front + [op], s, status)
    ensures Settles(op, s) ==>
      StatusTells(front + [op], s, match op
                                   case BeginStage(_, _) => Running
                                   case CompleteStage(_) => Succeeded
                                   case FailStage(_, _, permanent) => (if permanent then Failed else Pending))
  {
    var ops := front + [op];
    assert Settles(op, s) ==> LastSettled(ops, s, |front|);
    if !Settles(op, s) {
      forall k: nat ensures LastSettled(ops, s, k) <==> LastSettled(front, s, k) {
        SettledStays(front, op, s, k);
      }
    }
  }

  lemma SettledStays(front: seq<StoreOp>, op: StoreOp, s: StageName, k: nat)
    requires !Settles(op, s)
    ensures LastSettled(front + [op], s, k) <==> LastSettled(front, s, k)
  {
    var ops := front + [op];
    assert forall j :: 0 <= j < |front| ==> ops[j] == front[j];
  }

  lemma AttemptNext(front: seq<StoreOp>, op: StoreOp, s: StageName, attempt: int)
    requires AttemptTells(front, s, attempt)
    ensures AttemptTells(front + [op], s, if op.BeginStage? && op.stage == s then op.attempt else attempt)
  {
    var ops := front + [op];
    if op.BeginStage? && op.stage == s {
      assert LastBegun(ops, s, |front|);
    } else {
      forall k: nat ensures LastBegun(ops, s, k) <==> LastBegun(front, s, k) {
        assert forall j :: 0 <= j < |front| ==> ops[j] == front[j];
      }
    }
  }

  lemma ErrorNext(front: seq<StoreOp>, op: StoreOp, s: StageName, error: Option<string>)
    requires ErrorTells(front, s, error)
    ensures ErrorTells(front + [op], s, if !Settles(op, s) || op.BeginStage? then error
                                        else if op.CompleteStage? then None else Some(Truncated(op.error)))
  {
    var ops := front + [op];
    if Settles(op, s) && !op.BeginStage? {
      assert LastEnded(ops, s, |front|);
    } else {
      forall k: nat ensures LastEnded(ops, s, k) <==> LastEnded(front, s, k) {
        assert forall j :: 0 <= j < |front| ==> ops[j] == front[j];
      }
    }
  }

  /** A stage has a row from the first operation about it on; the row has the status that the last
      beginning or end gave it, the attempt last begun, and the error of the last failure, if the
      stage has not been completed since. */
  lemma {:induction false} RowsTellHistory(ops: seq<StoreOp>, s: StageName)
    ensures s in PgRunOf(ops) <==> Touched(ops, s)
    ensures s in PgRunOf(ops) ==>
      var row := PgRunOf(ops)[s];
      StatusTells(ops, s, row.status) && AttemptTells(ops, s, row.attempt) && ErrorTells(ops, s, row.error)
  {
    hide StatusTells, AttemptTells, ErrorTells, Truncated;
    if ops != [] {
      var front, op := ops[..|ops| - 1], ops[|ops| - 1];
      assert ops == front + [op];
      RowsTellHistory(front, s);
      TouchedNext(front, op, s);
      if !Touched(front, s) {
        NotTouchedYet(front, s);
      }
      var rows := PgRunOf(front);
      var row := if s in rows then rows[s] else Row(Pending, 0, None);
      StatusNext(front, op, s, row.status);
      AttemptNext(front, op, s, row.attempt);
      ErrorNext(front, op, s, row.error);
      if op.MarkDispatched? {
        InsertAllKeys(rows, op.stages);
      }
    }
  }

  lemma TouchedNext(front: seq<StoreOp>, op: StoreOp, s: StageName)
    ensures Touched(front + [op], s) <==> Touched(front, s) || Touches(op, s)
  {
    var ops := front + [op];
    if Touched(front, s) {
      var o :| o in front && Touches(o, s);
      assert o in ops;
    }
    if Touches(op, s) {
      assert op in ops;
    }
  }

  // ---------------------------------------------------------------- agreement

  /** One more operation keeps the stores in agreement exactly when it is allowed. */
  lemma {:induction false} StepAgreesIff(front: seq<StoreOp>, op: StoreOp)
    requires Disciplined(front)
    requires PgSnapshot(PgRunOf(front)) == MemSnapshot(MemRunOf(front))
    ensures PgSnapshot(PgApply(PgRunOf(front), op)) == MemSnapshot(MemApply(MemRunOf(front), op))
            <==> Allowed(front, op)
  {
    var rows, run := PgRunOf(front), MemRunOf(front);
    var rows', run' := PgApply(rows, op), MemApply(run, op);
    MemTracksHistory(front);
    assert rows.Keys == run.dispatched && PgCompleted(rows) == run.completed;
    match op
    case MarkDispatched(stages) =>
      ReservedRows(rows, stages);
    case BeginStage(s, _) =>
      assert rows'.Keys == rows.Keys + {s};
      assert PgCompleted(rows') == PgCompleted(rows) - {s};
    case CompleteStage(s) =>
      assert PgCompleted(rows') == PgCompleted(rows) + {s};
    case FailStage(s, _, permanent) =>
      assert rows'.Keys == rows.Keys + {s};
      assert PgCompleted(rows') == PgCompleted(rows) - {s};
      assert Allowed(front, op) <==> s !in run.completed && (permanent || s in run.dispatched);
      if s in run.completed {
        assert s in run'.completed && s !in PgCompleted(rows');
      } else if !permanent && s !in run.dispatched {
        assert s !in run'.dispatched && s in rows'.Keys;
      }
  }

  /** The Postgres store reports the same progress as the reference store after every
      operation of a trace, if and only if the trace never begins or fails a stage
      that has finished and never records a transient failure of an unknown stage. */
  lemma {:induction false} StoresAgreeIff(ops: seq<StoreOp>)
    ensures AgreeThroughout(ops) <==> Disciplined(ops)
  {
    if ops != [] {
      var front, last := ops[..|ops| - 1], ops[|ops| - 1];
      StoresAgreeIff(front);
      if Disciplined(front) {
        StepAgreesIff(front, last);
      }
    } else {
      assert PgCompleted(map[]) == {};
    }
  }

}
