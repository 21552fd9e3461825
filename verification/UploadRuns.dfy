/**
  Whole runs of one upload: planning, applying, dropped requests, lost storage calls and
  daemon restarts in any order. The audit row follows planned, applying, one final state,
  and what it says is true of the target file.
 */
module UploadRuns {
  import opened Wrappers
  import opened Remote
  import opened SftpClient
  import opened UploadAudit

  // What is fixed for one upload: its plan, and the target before it.
  datatype Upload = Upload(plan: Plan, before: Option<Node>)

  // The bytes that have the planned digest.
  function Content(u: Upload): Bytes
  {
    u.plan.after.preimage
  }

  datatype Phase =
    | Unplanned
    | Waiting    // planned, the plan is held by the broker
    | Leased     // begun, nothing sent yet
    | Uploading  // requests are being sent
    | Dangling   // the outcome could not be recorded, the lease is about to be dropped
    | Cut        // dropped or killed while sending; a request in flight may still land
    | Gone

  datatype World = World(rows: Rows, phase: Phase, target: Option<Node>)

  // A storage call is executed or not, and may report an error although it was executed.
  datatype Storage = Done | Unreported | Skipped

  datatype Step =
    | MakePlan(storage: Storage)
    | Abandon(storage: Storage)
    | Begin(start: Storage, drop: Storage)
    | Refuse(note: Note, storage: Storage)
    | Touch(node: Option<Node>)
    | Report(result: Result<Precondition, Reason>, storage: Storage)
    | DropLease(storage: Storage)
    | Restart

  function Written(rows: Rows, next: Option<Rows>, storage: Storage): Rows
  {
    if next.Some? && storage != Skipped then next.value else rows
  }

  // Which steps a run can take. A target changes only as the upload protocol changes it,
  // and a result is reported only as the protocol reports it.
  ghost predicate Enabled(u: Upload, w: World, step: Step)
  {
    match step
    case MakePlan(_) => w.phase == Unplanned && u.plan.id !in w.rows
    case Abandon(_) => w.phase == Waiting
    case Begin(_, _) => w.phase == Waiting
    case Refuse(note, _) => w.phase == Leased
    case Touch(node) => w.phase in {Leased, Uploading, Cut} && OldOrNew(u.before, node, Content(u))
    case Report(result, _) =>
      && w.phase in {Leased, Uploading}
      && |Content(u)| == u.plan.size
      && ResultIsTruth(u.before, w.target, Content(u), u.plan.precondition.permissions, result)
    case DropLease(_) => w.phase in {Leased, Uploading, Dangling}
    case Restart => true
  }

  function ReportState(result: Result<Precondition, Reason>): (state: State)
    ensures Final(state) && (state == Verified <==> result.Ok?)
    ensures state == ManualCheck <==> result == Err(ManualRecoveryRequired) || result == Err(TemporaryCleanupFailed)
  {
    if result.Ok? then Verified else VerdictState(result.error)
  }

  function ReportNote(result: Result<Precondition, Reason>): Note
  {
    if result.Ok? then Success else Verdict(result.error)
  }

  function Apply(u: Upload, w: World, step: Step): World
  {
    match step
    case MakePlan(storage) =>
      var rows := Written(w.rows, Insert(w.rows, u.plan.id, u.plan.after, u.plan.size), storage);
      // A plan whose row was not reported is never handed out.
      w.(rows := rows, phase := if storage == Done then Waiting else Gone)
    case Abandon(storage) =>
      w.(rows := Written(w.rows, Finish(w.rows, u.plan.id, State.Failed, PlanAbandoned), storage), phase := Gone)
    case Begin(start, drop) =>
      var rows := Written(w.rows, Start(w.rows, u.plan.id), start);
      if start == Done && Start(w.rows, u.plan.id).Some? then w.(rows := rows, phase := Leased)
      else w.(rows := Written(rows, Finish(rows, u.plan.id, State.Failed, PlanAbandoned), drop), phase := Gone)
    case Refuse(note, storage) =>
      w.(rows := Written(w.rows, Finish(w.rows, u.plan.id, State.Failed, note), storage),
         phase := if storage == Done then Gone else Dangling)
    case Touch(node) => w.(target := node, phase := if w.phase == Leased then Uploading else w.phase)
    case Report(result, storage) =>
      w.(rows := Written(w.rows, Finish(w.rows, u.plan.id, ReportState(result), ReportNote(result)), storage),
         phase := if storage == Done then Gone else Dangling)
    case DropLease(storage) =>
      w.(rows := Written(w.rows, Finish(w.rows, u.plan.id, ManualCheck, RequestDropped), storage),
         phase := if w.phase == Dangling then Gone else Cut)
    case Restart => w.(rows := Recover(w.rows), phase := if w.phase in {Leased, Uploading, Cut} then Cut else Gone)
  }

  function Run(u: Upload, w: World, steps: seq<Step>): World
  {
    if steps == [] then w else Apply(u, Run(u, w, steps[..|steps| - 1]), steps[|steps| - 1])
  }

  ghost predicate Possible(u: Upload, w: World, steps: seq<Step>)
  {
    steps == []
    || (Possible(u, w, steps[..|steps| - 1]) && Enabled(u, Run(u, w, steps[..|steps| - 1]), steps[|steps| - 1]))
  }

  function Initial(u: Upload): World { World(map[], Unplanned, u.before) }

  function RowState(u: Upload, w: World): Option<State>
  {
    if u.plan.id in w.rows then Some(w.rows[u.plan.id].state) else None
  }

  // ---------- The invariant ----------

  ghost predicate Invariant(u: Upload, w: World)
  {
    var state := RowState(u, w);
    && OldOrNew(u.before, w.target, Content(u))
    && (state.Some? ==> Agrees(state.value, u.plan, u.before, w.target))
    && match w.phase
       case Unplanned => state == None && w.target == u.before
       case Waiting => state == Some(Planned) && w.target == u.before
       case Leased => state == Some(Applying) && w.target == u.before
       case Uploading => state == Some(Applying)
       case Dangling => state.Some? && state != Some(Planned)
       case Cut => state == Some(Applying) || state == Some(ManualCheck)
       case Gone => state == Some(Planned) ==> w.target == u.before
  }

  lemma StepKeepsInvariant(u: Upload, w: World, step: Step)
    requires Invariant(u, w) && Enabled(u, w, step)
    ensures Invariant(u, Apply(u, w, step))
  {
  }

  /**
    Audit truth: in every run, with storage calls lost at will, a verified row means that
    the target holds the planned content with the expected mode, a failed row means that
    the target is as it was, and the target is never a mixture.
   */
  lemma {:induction false} AuditTruth(u: Upload, steps: seq<Step>)
    requires Possible(u, Initial(u), steps)
    ensures var w := Run(u, Initial(u), steps);
            && Invariant(u, w)
            && OldOrNew(u.before, w.target, Content(u))
            && (RowState(u, w) == Some(Verified) ==>
                  w.target.Some? && Sha256(w.target.value.content) == u.plan.after && |w.target.value.content| == u.plan.size
                  && w.target.value.Permissions() == u.plan.precondition.permissions)
            && (RowState(u, w) == Some(State.Failed) ==> w.target == u.before)
  {
    if steps != [] {
      AuditTruth(u, steps[..|steps| - 1]);
      StepKeepsInvariant(u, Run(u, Initial(u), steps[..|steps| - 1]), steps[|steps| - 1]);
    }
  }

  function Rank(state: State): nat
  {
    match state
    case Planned => 1
    case Applying => 2
    case _ => 3
  }

  // A row stays, moves forward, and does not change once it is final.
  predicate Forward(before: Rows, after: Rows, id: string)
  {
    id in before ==>
      && id in after
      && Rank(before[id].state) <= Rank(after[id].state)
      && after[id].after == before[id].after && after[id].size == before[id].size
      && (Final(before[id].state) ==> after[id] == before[id])
  }

  lemma FinishMoves(rows: Rows, id: string, state: State, note: Note, storage: Storage)
    requires Final(state)
    ensures Forward(rows, Written(rows, Finish(rows, id, state, note), storage), id)
  {
  }

  lemma StartMoves(rows: Rows, id: string, storage: Storage)
    ensures Forward(rows, Written(rows, Start(rows, id), storage), id)
  {
  }

  lemma StepMovesForward(u: Upload, w: World, step: Step)
    requires Enabled(u, w, step)
    ensures Forward(w.rows, Apply(u, w, step).rows, u.plan.id)
  {
    match step
    case Abandon(storage) => FinishMoves(w.rows, u.plan.id, State.Failed, PlanAbandoned, storage);
    case Begin(start, drop) =>
      StartMoves(w.rows, u.plan.id, start);
      FinishMoves(Written(w.rows, Start(w.rows, u.plan.id), start), u.plan.id, State.Failed, PlanAbandoned, drop);
    case Refuse(note, storage) => FinishMoves(w.rows, u.plan.id, State.Failed, note, storage);
    case Report(result, storage) => FinishMoves(w.rows, u.plan.id, ReportState(result), ReportNote(result), storage);
    case DropLease(storage) => FinishMoves(w.rows, u.plan.id, ManualCheck, RequestDropped, storage);
    case _ =>
  }

  /**
    The row moves forward only: absent, planned, applying, final; and a final row never
    changes again, whatever else happens.
   */
  lemma {:induction false} RowsMoveForward(u: Upload, w: World, steps: seq<Step>)
    requires Possible(u, w, steps)
    ensures Forward(w.rows, Run(u, w, steps).rows, u.plan.id)
  {
    if steps != [] {
      RowsMoveForward(u, w, steps[..|steps| - 1]);
      StepMovesForward(u, Run(u, w, steps[..|steps| - 1]), steps[|steps| - 1]);
    }
  }

  predicate AllStored(steps: seq<Step>)
  {
    forall i :: 0 <= i < |steps| ==> Stored(steps[i])
  }

  predicate Stored(step: Step)
  {
    match step
    case Begin(start, drop) => start == Done && drop == Done
    case Touch(_) => true
    case Restart => true
    case _ => step.storage == Done
  }

  /**
    No doubt is lost: when the storage calls succeed, an upload that is over has a final
    row, and one that was dropped or killed while sending ends as a manual check.
   */
  lemma {:induction false} DoubtIsRecorded(u: Upload, steps: seq<Step>)
    requires Possible(u, Initial(u), steps) && AllStored(steps)
    ensures var w := Run(u, Initial(u), steps);
            && w.phase != Dangling
            && (w.phase == Cut ==> RowState(u, w) == Some(ManualCheck))
            && (w.phase == Gone ==> RowState(u, w) == None || Final(RowState(u, w).value))
  {
    if steps != [] {
      var earlier := steps[..|steps| - 1];
      assert AllStored(earlier);
      DoubtIsRecorded(u, earlier);
      AuditTruth(u, earlier);
      assert Stored(steps[|steps| - 1]);
    }
  }

  // A restart leaves no row open, even after lost storage calls, and turns one that was
  // applying into a manual check, one that was only planned into a failure.
  lemma RestartSettles(u: Upload, w: World)
    ensures var now := Apply(u, w, Restart);
            && now.rows.Keys == w.rows.Keys
            && (forall id :: id in now.rows ==> Final(now.rows[id].state))
            && (RowState(u, w) == Some(Applying) ==> RowState(u, now) == Some(ManualCheck))
            && (RowState(u, w) == Some(Planned) ==> RowState(u, now) == Some(State.Failed))
  {
  }
}
