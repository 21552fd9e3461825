/**
  One audited upload, from its plan to its end, as the daemon runs it: storage calls on the
  audit table and the atomic upload on the server. Every operation is proved to be steps of
  the machine of `UploadRuns`, so what holds of all its runs holds of the row and the file.
 */
module UploadLease {
  import opened Wrappers
  import opened Remote
  import opened SftpClient
  import opened UploadAudit
  import opened UploadRuns

  // ---------- Rows and statements ----------

  // How a storage call went, seen from outside.
  function Fate(after: Rows, next: Option<Rows>, ok: bool): Storage
  {
    if ok then Done else if next == Some(after) then Unreported else Skipped
  }

  lemma SameInsert(left: Rows, right: Rows, id: string, after: Digest, size: nat)
    requires SameRow(left, right, id)
    ensures Insert(left, id, after, size).Some? == Insert(right, id, after, size).Some?
    ensures Insert(left, id, after, size).Some? ==> SameRow(Insert(left, id, after, size).value, Insert(right, id, after, size).value, id)
  {
  }

  lemma SameStart(left: Rows, right: Rows, id: string)
    requires SameRow(left, right, id)
    ensures Start(left, id).Some? == Start(right, id).Some?
    ensures Start(left, id).Some? ==> SameRow(Start(left, id).value, Start(right, id).value, id)
  {
  }

  lemma SameFinish(left: Rows, right: Rows, id: string, state: State, note: Note)
    requires SameRow(left, right, id) && Final(state)
    ensures Finish(left, id, state, note).Some? == Finish(right, id, state, note).Some?
    ensures Finish(left, id, state, note).Some? ==> SameRow(Finish(left, id, state, note).value, Finish(right, id, state, note).value, id)
  {
  }

  // A statement on both tables, with the same fate.
  lemma SameWritten(store: Store, left: Rows, before: Rows, after: Rows, id: string, leftNext: Option<Rows>, next: Option<Rows>, ok: bool)
    requires SameRow(left, before, id) && store.Recorded(before, after, next, ok)
    requires leftNext.Some? == next.Some? && (next.Some? ==> SameRow(leftNext.value, next.value, id))
    ensures SameRow(Written(left, leftNext, Fate(after, next, ok)), after, id)
  {
  }

  // ---------- Steps ----------

  lemma Extends(u: Upload, w: World, steps: seq<Step>, step: Step)
    requires Possible(u, w, steps) && Enabled(u, Run(u, w, steps), step)
    ensures Possible(u, w, steps + [step]) && Run(u, w, steps + [step]) == Apply(u, Run(u, w, steps), step)
  {
    assert (steps + [step])[..|steps|] == steps;
  }

  function Touches(nodes: seq<Option<Node>>): seq<Step>
  {
    if nodes == [] then [] else Touches(nodes[..|nodes| - 1]) + [Touch(nodes[|nodes| - 1])]
  }

  // What the target was at each moment of a history.
  function Moments(history: seq<Files>, target: string): seq<Option<Node>>
  {
    seq(|history|, i requires 0 <= i < |history| => Lookup(history[i], target))
  }

  ghost predicate AllOldOrNew(u: Upload, nodes: seq<Option<Node>>)
  {
    forall i :: 0 <= i < |nodes| ==> OldOrNew(u.before, nodes[i], Content(u))
  }

  // The world after the target went through these states.
  function Touched(w: World, nodes: seq<Option<Node>>): World
  {
    if nodes == [] then w
    else w.(target := nodes[|nodes| - 1], phase := if w.phase == Leased then Uploading else w.phase)
  }

  lemma {:induction false} TouchesArePossible(u: Upload, w: World, steps: seq<Step>, nodes: seq<Option<Node>>)
    requires Possible(u, w, steps) && AllOldOrNew(u, nodes)
    requires nodes != [] ==> Run(u, w, steps).phase in {Leased, Uploading, Cut}
    ensures Possible(u, w, steps + Touches(nodes))
    ensures Run(u, w, steps + Touches(nodes)) == Touched(Run(u, w, steps), nodes)
  {
    if nodes == [] {
      assert steps + Touches(nodes) == steps;
    } else {
      var early, last := nodes[..|nodes| - 1], nodes[|nodes| - 1];
      TouchesArePossible(u, w, steps, early);
      TouchNext(u, w, steps + Touches(early), Run(u, w, steps), early, last);
      assert early + [last] == nodes;
      Associative(steps, Touches(early), [Touch(last)]);
    }
  }

  lemma TouchNext(u: Upload, w: World, steps: seq<Step>, start: World, early: seq<Option<Node>>, last: Option<Node>)
    requires Possible(u, w, steps) && Run(u, w, steps) == Touched(start, early)
    requires start.phase in {Leased, Uploading, Cut} && OldOrNew(u.before, last, Content(u))
    ensures Possible(u, w, steps + [Touch(last)]) && Run(u, w, steps + [Touch(last)]) == Touched(start, early + [last])
  {
    Extends(u, w, steps, Touch(last));
  }

  lemma MomentsUnchanged(past: seq<Files>, history: seq<Files>, files: Files, target: string, bytes: Bytes)
    requires Confined(past, history, files, {})
    ensures var nodes := Moments(history[|past|..], target);
            forall i :: 0 <= i < |nodes| ==> OldOrNew(Lookup(files, target), nodes[i], bytes)
  {
    forall i | 0 <= i < |history[|past|..]|
      ensures Lookup(history[|past|..][i], target) == Lookup(files, target)
    {
      assert AgreeExcept(files, history[|past| + i], {});
    }
  }

  lemma MomentsAtomic(past: seq<Files>, history: seq<Files>, files: Files, target: string, temporary: string, bytes: Bytes)
    requires Atomic(past, history, files, target, temporary, bytes)
    ensures past <= history
    ensures var nodes := Moments(history[|past|..], target);
            forall i :: 0 <= i < |nodes| ==> OldOrNew(Lookup(files, target), nodes[i], bytes)
  {
    forall i | 0 <= i < |history[|past|..]|
      ensures OldOrNew(Lookup(files, target), Lookup(history[|past|..][i], target), bytes)
    {
      assert history[|past|..][i] == history[|past| + i];
    }
  }

  // The last moment is the present; without a new moment nothing changed.
  lemma LastMoment(past: seq<Files>, history: seq<Files>, now: Files, files: Files, target: string)
    requires past != [] && past <= history && past[|past| - 1] == files && history[|history| - 1] == now
    ensures var nodes := Moments(history[|past|..], target);
            if nodes == [] then now == files else nodes[|nodes| - 1] == Lookup(now, target)
  {
  }

  // A leased upload whose target went through these moments.
  lemma MomentsAreSteps(
      u: Upload, w: World, steps: seq<Step>, past: seq<Files>, history: seq<Files>, files: Files, now: Files, target: string)
    requires Possible(u, w, steps) && Run(u, w, steps).phase == Leased && Run(u, w, steps).target == Lookup(files, target)
    requires past != [] && past <= history && past[|past| - 1] == files && history[|history| - 1] == now
    requires AllOldOrNew(u, Moments(history[|past|..], target))
    ensures var all := steps + Touches(Moments(history[|past|..], target));
            && Possible(u, w, all) && Run(u, w, all).phase in {Leased, Uploading}
            && Run(u, w, all).target == Lookup(now, target) && Run(u, w, all).rows == Run(u, w, steps).rows
  {
    LastMoment(past, history, now, files, target);
    TouchesArePossible(u, w, steps, Moments(history[|past|..], target));
  }

  /**
    The request may be dropped or the daemon killed after any of the states the target goes
    through, with the rest still landing on the server: that is a run of the machine too.
   */
  lemma CutAnywhere(u: Upload, w: World, steps: seq<Step>, nodes: seq<Option<Node>>, k: nat, cut: Step)
    requires Possible(u, w, steps) && Run(u, w, steps).phase in {Leased, Uploading} && AllOldOrNew(u, nodes)
    requires k <= |nodes| && (cut.DropLease? || cut.Restart?)
    ensures Possible(u, w, steps + Touches(nodes[..k]) + [cut] + Touches(nodes[k..]))
  {
    TouchesArePossible(u, w, steps, nodes[..k]);
    Extends(u, w, steps + Touches(nodes[..k]), cut);
    TouchesArePossible(u, w, steps + Touches(nodes[..k]) + [cut], nodes[k..]);
  }

  // ---------- The upload ----------

  datatype ApplyError = Storage | Rejected(note: Note)

  // What the caller hears of a protocol result: a storage error until the row is written.
  function Answer(finished: bool, result: Result<Precondition, Reason>): Result<(), ApplyError>
  {
    if !finished then Err(ApplyError.Storage)
    else if result.Ok? then Ok(())
    else Err(Rejected(Verdict(result.error)))
  }

  // The first check of `apply` that fails, before anything is sent.
  function Objection(plan: Plan, active: bool, bytes: Bytes, suffix: Option<string>): Option<Note>
  {
    if !active then Some(SessionRejected)
    else if |bytes| != plan.size then Some(LengthMismatch)
    else if Sha256(bytes) != plan.after then Some(DigestMismatch)
    else if suffix.None? then Some(RandomUnavailable)
    else None
  }

  class AuditedUpload {
    const store: Store
    const client: Client
    const plan: Plan
    // `FileUploadLease::finished`
    var finished: bool

    ghost const before: Option<Node>
    ghost var steps: seq<Step>

    ghost function Fixed(): Upload
    {
      Upload(plan, before)
    }

    ghost function Target(): string
    {
      TargetPath(client.server.canonical, client.home, plan.path)
    }

    ghost function Now(): World
      reads this
    {
      Run(Fixed(), Initial(Fixed()), steps)
    }

    // The run so far is a run of the machine, and explains the row and the file.
    ghost predicate Valid()
      reads this, store, client, client.server
    {
      && client.Valid()
      && Possible(Fixed(), Initial(Fixed()), steps)
      && SameRow(Now().rows, store.rows, plan.id)
      && Now().target == Lookup(client.server.fs.files, Target())
    }

    // The row has ended this way.
    predicate Ended(state: State, note: Note)
      reads store
    {
      plan.id in store.rows && store.rows[plan.id].state == state && store.rows[plan.id].note == Some(note)
    }

    constructor (store: Store, client: Client, plan: Plan)
      requires client.Valid() && plan.id !in store.rows
      ensures Valid() && this.store == store && this.client == client && this.plan == plan && !finished
      ensures steps == [] && before == Lookup(client.server.fs.files, Target())
    {
      this.store, this.client, this.plan := store, client, plan;
      finished := false;
      before := Lookup(client.server.fs.files, TargetPath(client.server.canonical, client.home, plan.path));
      steps := [];
    }

    /**
      Audit truth of the object itself: whatever happened, a verified row means that the
      planned content is in place with the expected mode, a failed row that the file is as
      it was before the plan, and the file is never a mixture.
     */
    lemma TellsTheTruth()
      requires Valid()
      ensures OldOrNew(before, Lookup(client.server.fs.files, Target()), Content(Fixed()))
      ensures plan.id in store.rows ==>
                Agrees(store.rows[plan.id].state, plan, before, Lookup(client.server.fs.files, Target()))
    {
      AuditTruth(Fixed(), steps);
    }

    ghost method Record(step: Step)
      requires Possible(Fixed(), Initial(Fixed()), steps) && Enabled(Fixed(), Now(), step)
      modifies this`steps
      ensures steps == old(steps) + [step] && Possible(Fixed(), Initial(Fixed()), steps)
      ensures Now() == UploadRuns.Apply(Fixed(), old(Now()), step)
    {
      Extends(Fixed(), Initial(Fixed()), steps, step);
      steps := steps + [step];
    }

    // The audit part of `plan_upload`.
    method MakePlan() returns (ok: bool)
      requires Valid() && Now().phase == Unplanned
      modifies this`steps, store
      ensures Valid() && exists storage :: steps == old(steps) + [Step.MakePlan(storage)]
      ensures ok <==> Now().phase == Waiting
      ensures ok ==> plan.id in store.rows && store.rows[plan.id] == Row(plan.after, plan.size, Planned, None)
      ensures (store.reliable ==> ok) && OthersStay(old(store.rows), store.rows, plan.id)
    {
      AuditTruth(Fixed(), steps);
      ghost var rows := store.rows;
      ok := store.RecordPlan(plan.id, plan.after, plan.size);
      ghost var next := Insert(rows, plan.id, plan.after, plan.size);
      SameInsert(Now().rows, rows, plan.id, plan.after, plan.size);
      SameWritten(store, Now().rows, rows, store.rows, plan.id, Insert(Now().rows, plan.id, plan.after, plan.size), next, ok);
      Record(Step.MakePlan(Fate(store.rows, next, ok)));
    }

    // `Drop for UploadPlan`, of a plan that was not handed off.
    method AbandonPlan()
      requires Valid() && Now().phase == Waiting
      modifies this`steps, store
      ensures Valid() && exists storage :: steps == old(steps) + [Abandon(storage)]
      ensures store.reliable ==> Ended(State.Failed, PlanAbandoned)
      ensures OthersStay(old(store.rows), store.rows, plan.id)
    {
      AuditTruth(Fixed(), steps);
      ghost var rows := store.rows;
      var ok := store.RecordFinish(plan.id, State.Failed, PlanAbandoned);
      ghost var next := Finish(rows, plan.id, State.Failed, PlanAbandoned);
      SameFinish(Now().rows, rows, plan.id, State.Failed, PlanAbandoned);
      SameWritten(store, Now().rows, rows, store.rows, plan.id, Finish(Now().rows, plan.id, State.Failed, PlanAbandoned), next, ok);
      Record(Abandon(Fate(store.rows, next, ok)));
    }

    // The audit part of `begin_upload`: a plan whose start is not recorded is dropped.
    method BeginUpload() returns (ok: bool)
      requires Valid() && Now().phase == Waiting
      modifies this`steps, store
      ensures Valid() && exists start, drop :: steps == old(steps) + [Begin(start, drop)]
      ensures ok <==> Now().phase == Leased
      ensures ok ==> plan.id in store.rows && store.rows[plan.id].state == Applying
      ensures (store.reliable ==> ok) && OthersStay(old(store.rows), store.rows, plan.id)
    {
      AuditTruth(Fixed(), steps);
      ghost var w, rows := Now(), store.rows;
      ok := store.RecordStart(plan.id);
      ghost var started, next := store.rows, Start(rows, plan.id);
      ghost var start := Fate(started, next, ok);
      SameStart(w.rows, rows, plan.id);
      SameWritten(store, w.rows, rows, started, plan.id, Start(w.rows, plan.id), next, ok);
      if !ok {
        var dropped := store.RecordFinish(plan.id, State.Failed, PlanAbandoned);
        ghost var middle := Written(w.rows, Start(w.rows, plan.id), start);
        ghost var end := Finish(started, plan.id, State.Failed, PlanAbandoned);
        SameFinish(middle, started, plan.id, State.Failed, PlanAbandoned);
        SameWritten(store, middle, started, store.rows, plan.id, Finish(middle, plan.id, State.Failed, PlanAbandoned), end, dropped);
        Record(Begin(start, Fate(store.rows, end, dropped)));
      } else {
        Record(Begin(start, Storage.Done));
      }
    }

    // `finish_error` in a lease that has sent nothing, and `reject`.
    method Refuse(note: Note) returns (error: ApplyError)
      requires Valid() && Now().phase == Leased && !finished
      modifies this, store
      ensures Valid() && exists storage :: steps == old(steps) + [Step.Refuse(note, storage)]
      ensures finished ==> Ended(State.Failed, note)
      ensures error == (if finished then Rejected(note) else ApplyError.Storage)
      ensures OthersStay(old(store.rows), store.rows, plan.id)
      ensures store.reliable ==> finished
      ensures finished <==> Now().phase == Gone
    {
      AuditTruth(Fixed(), steps);
      ghost var w, rows := Now(), store.rows;
      finished := store.RecordFinish(plan.id, State.Failed, note);
      ghost var next := Finish(rows, plan.id, State.Failed, note);
      SameFinish(w.rows, rows, plan.id, State.Failed, note);
      SameWritten(store, w.rows, rows, store.rows, plan.id, Finish(w.rows, plan.id, State.Failed, note), next, finished);
      Record(Step.Refuse(note, Fate(store.rows, next, finished)));
      error := if finished then Rejected(note) else ApplyError.Storage;
    }

    // Records the outcome of the upload protocol.
    method Report(result: Result<Precondition, Reason>) returns (r: Result<(), ApplyError>)
      requires Valid() && Now().phase in {Leased, Uploading} && !finished && |Content(Fixed())| == plan.size
      requires ResultIsTruth(before, Now().target, Content(Fixed()), plan.precondition.permissions, result)
      modifies this, store
      ensures Valid() && exists storage :: steps == old(steps) + [Step.Report(result, storage)]
      ensures finished ==> Ended(ReportState(result), ReportNote(result))
      ensures OthersStay(old(store.rows), store.rows, plan.id)
      ensures store.reliable ==> finished
      ensures finished <==> Now().phase == Gone
      ensures r == Answer(finished, result)
    {
      AuditTruth(Fixed(), steps);
      var state, note := ReportState(result), ReportNote(result);
      ghost var w, rows := Now(), store.rows;
      finished := store.RecordFinish(plan.id, state, note);
      ghost var next := Finish(rows, plan.id, state, note);
      SameFinish(w.rows, rows, plan.id, state, note);
      SameWritten(store, w.rows, rows, store.rows, plan.id, Finish(w.rows, plan.id, state, note), next, finished);
      Record(Step.Report(result, Fate(store.rows, next, finished)));
      if !finished {
        return Err(ApplyError.Storage);
      }
      r := if result.Ok? then Ok(()) else Err(Rejected(note));
    }

    /**
      Applies the upload and records its outcome. An upload of a session that is not active,
      or of other bytes than planned, is refused before anything is sent. Otherwise the
      steps are the states that the target went through on the server, request by request,
      and the report of the protocol's own result; that this is a run of the machine follows
      from the contract of the upload. Without faults the admission checks alone decide.
     */
    method Apply(bytes: Bytes, active: bool, suffix: Option<string>) returns (r: Result<(), ApplyError>)
      requires Valid() && Now().phase == Leased && !finished
      modifies this, store, client, client.server
      ensures Valid() && (finished <==> Now().phase == Gone)
      ensures (store.reliable ==> finished) && OthersStay(old(store.rows), store.rows, plan.id)
      ensures finished ==> plan.id in store.rows && Final(store.rows[plan.id].state)
      ensures r.Ok? <==> finished && plan.id in store.rows && store.rows[plan.id].state == Verified
      ensures Objection(plan, active, bytes, suffix).None? && store.reliable && Welcome(old(client.server.fs.files), bytes, suffix.value, old(client.faults)) ==>
                r.Ok?
      ensures var refused := !active || |bytes| != plan.size || Sha256(bytes) != plan.after || suffix.None?;
              && (refused <==> Objection(plan, active, bytes, suffix).Some?)
              && (if refused then
                    && client.server.requests == old(client.server.requests) && client.server.fs == old(client.server.fs)
                    && Refused(old(steps), Objection(plan, active, bytes, suffix).value)
                    && r == Err(if finished then Rejected(Objection(plan, active, bytes, suffix).value) else ApplyError.Storage)
                  else
                    && |old(client.server.history)| <= |client.server.history|
                    && exists result ::
                         && Reported(old(steps) + Touches(Moments(client.server.history[|old(client.server.history)|..], Target())), result)
                         && r == Answer(finished, result)
                         && Admitted(old(client.server.fs.files), bytes, suffix.value, old(client.faults), result))
    {
      if !active || |bytes| != plan.size || Sha256(bytes) != plan.after || suffix.None? {
        var error := Refuse(if !active then SessionRejected
                            else if |bytes| != plan.size then LengthMismatch
                            else if Sha256(bytes) != plan.after then DigestMismatch
                            else RandomUnavailable);
        return Err(error);
      }
      var result := Send(bytes, suffix.value);
      r := Report(result);
    }

    ghost predicate Refused(before: seq<Step>, note: Note)
      reads this, store
    {
      (exists storage :: steps == before + [Step.Refuse(note, storage)]) && (finished ==> Ended(State.Failed, note))
    }

    ghost predicate Reported(before: seq<Step>, result: Result<Precondition, Reason>)
      reads this, store
    {
      (exists storage :: steps == before + [Step.Report(result, storage)]) && (finished ==> Ended(ReportState(result), ReportNote(result)))
    }

    // The upload is admitted, and nothing goes wrong.
    ghost predicate Welcome(files: Files, bytes: Bytes, suffix: string, faults: nat)
      reads client
    {
      && client.faults == faults && client.server.exactModes
      && Admit(client.SupportsAtomicUpload(), client.server.canonical, client.home, files, plan.path, plan.precondition, bytes, suffix).Ok?
    }

    // Without a fault the admission checks decide the result of the protocol.
    ghost predicate Admitted(files: Files, bytes: Bytes, suffix: string, faults: nat, result: Result<Precondition, Reason>)
      reads client
    {
      var admitted := Admit(client.SupportsAtomicUpload(), client.server.canonical, client.home, files, plan.path, plan.precondition, bytes, suffix);
      client.faults == faults ==>
        if admitted.Err? then result == Err(admitted.error) else client.server.exactModes ==> result.Ok?
    }

    // The upload itself: every state of the target is old or new, and the result is true.
    method Send(bytes: Bytes, suffix: string) returns (result: Result<Precondition, Reason>)
      requires Valid() && Now().phase == Leased && bytes == Content(Fixed())
      modifies this`steps, client, client.server
      ensures Valid() && Now().phase in {Leased, Uploading}
      ensures |old(client.server.history)| <= |client.server.history|
      ensures steps == old(steps) + Touches(Moments(client.server.history[|old(client.server.history)|..], Target()))
      ensures Admitted(old(client.server.fs.files), bytes, suffix, old(client.faults), result)
      ensures ResultIsTruth(before, Now().target, bytes, plan.precondition.permissions, result)
    {
      AuditTruth(Fixed(), steps);
      ghost var past, files := client.server.history, client.server.fs.files;
      result := Transmit(bytes, suffix);
      ghost var history := client.server.history;
      MomentsAreSteps(Fixed(), Initial(Fixed()), steps, past, history, files, client.server.fs.files, Target());
      ghost var all := steps + Touches(Moments(history[|past|..], Target()));
      ghost var w := Run(Fixed(), Initial(Fixed()), all);
      assert SameRow(w.rows, store.rows, plan.id);
      steps := all;
      assert Now() == w;
    }

    method Transmit(bytes: Bytes, suffix: string) returns (result: Result<Precondition, Reason>)
      requires client.Valid()
      modifies client, client.server
      ensures client.Valid() && old(client.server.history) <= client.server.history
      ensures var nodes := Moments(client.server.history[|old(client.server.history)|..], Target());
              forall i :: 0 <= i < |nodes| ==> OldOrNew(old(Lookup(client.server.fs.files, Target())), nodes[i], bytes)
      ensures Admitted(old(client.server.fs.files), bytes, suffix, old(client.faults), result)
      ensures ResultIsTruth(old(Lookup(client.server.fs.files, Target())), Lookup(client.server.fs.files, Target()), bytes,
                            plan.precondition.permissions, result)
    {
      ghost var past, files := client.server.history, client.server.fs.files;
      AdmittedTarget(client.SupportsAtomicUpload(), client.server.canonical, client.home, files, plan.path, plan.precondition, bytes, suffix);
      result := client.AtomicUpload(plan.path, plan.precondition, bytes, suffix);
      ghost var history := client.server.history;
      ghost var admitted := Admit(client.SupportsAtomicUpload(), client.server.canonical, client.home, files, plan.path, plan.precondition, bytes, suffix);
      if admitted.Err? {
        MomentsUnchanged(past, history, files, Target(), bytes);
      } else {
        MomentsAtomic(past, history, files, Target(), TemporaryPath(admitted.value.parent, suffix), bytes);
      }
    }

    // `Drop for FileUploadLease`
    method Drop()
      requires Valid() && (if finished then Now().phase == Gone else Now().phase in {Leased, Uploading, Dangling})
      modifies this`steps, store
      ensures Valid()
      ensures finished ==> store.rows == old(store.rows) && steps == old(steps)
      ensures !finished ==> exists storage :: steps == old(steps) + [DropLease(storage)]
      ensures !finished && store.reliable ==> plan.id in store.rows && Final(store.rows[plan.id].state)
      ensures !finished && store.reliable && old(plan.id in store.rows && !Final(store.rows[plan.id].state)) ==> Ended(ManualCheck, RequestDropped)
      ensures OthersStay(old(store.rows), store.rows, plan.id)
    {
      if !finished {
        AuditTruth(Fixed(), steps);
        ghost var w, rows := Now(), store.rows;
        var ok := store.RecordFinish(plan.id, ManualCheck, RequestDropped);
        ghost var next := Finish(rows, plan.id, ManualCheck, RequestDropped);
        SameFinish(w.rows, rows, plan.id, ManualCheck, RequestDropped);
        SameWritten(store, w.rows, rows, store.rows, plan.id, Finish(w.rows, plan.id, ManualCheck, RequestDropped), next, ok);
        Record(DropLease(Fate(store.rows, next, ok)));
      }
    }

    // The daemon starts again; no row stays open.
    method Reopen()
      requires Valid()
      modifies this`steps, store
      ensures Valid() && steps == old(steps) + [Restart]
      ensures forall id :: id in store.rows ==> Final(store.rows[id].state)
    {
      store.Reopen();
      Record(Restart);
    }
  }
}
