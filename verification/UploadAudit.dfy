/**
  The durable audit of file uploads: the `file_uploads` table, its statements, and what it
  means that a row agrees with the target file.
 */
module UploadAudit {
  import opened Wrappers
  import opened Remote
  import opened SftpClient

  datatype State = Planned | Applying | Verified | Failed | ManualCheck

  predicate Final(state: State) { state in {Verified, State.Failed, ManualCheck} }

  // Why a row ended. Reasons of the protocol are kept as they are.
  datatype Note =
    | Verdict(reason: Reason)
    | Success
    | PlanAbandoned
    | RequestDropped
    | SessionRejected
    | LengthMismatch
    | DigestMismatch
    | RandomUnavailable
    | RejectedBody
    | InterruptedManualCheck
    | RestartBeforeApply

  datatype Row = Row(after: Digest, size: nat, state: State, note: Option<Note>)

  type Rows = map<string, Row>

  // ---------- The statements of the store ----------

  // INSERT ... 'planned'; the primary key refuses a second row.
  function Insert(rows: Rows, id: string, after: Digest, size: nat): Option<Rows>
  {
    if id in rows then None else Some(rows[id := Row(after, size, Planned, None)])
  }

  // UPDATE ... SET state = 'applying' WHERE upload_id = ? AND state = 'planned'
  function Start(rows: Rows, id: string): Option<Rows>
  {
    if id in rows && rows[id].state == Planned then Some(rows[id := rows[id].(state := Applying)]) else None
  }

  // UPDATE ... WHERE upload_id = ? AND state IN ('planned', 'applying')
  function Finish(rows: Rows, id: string, state: State, note: Note): Option<Rows>
    requires Final(state)
  {
    if id in rows && !Final(rows[id].state) then Some(rows[id := rows[id].(state := state, note := Some(note))]) else None
  }

  // The two updates that run when the database is opened.
  function Recover(rows: Rows): Rows
  {
    map id | id in rows :: RecoverRow(rows[id])
  }

  function RecoverRow(row: Row): Row
  {
    if row.state == Applying then row.(state := ManualCheck, note := Some(InterruptedManualCheck))
    else if row.state == Planned then row.(state := State.Failed, note := Some(RestartBeforeApply))
    else row
  }

  // Two tables have the same row for the upload.
  predicate SameRow(left: Rows, right: Rows, id: string)
  {
    (id in left <==> id in right) && (id in left ==> left[id] == right[id])
  }

  ghost predicate OthersStay(before: Rows, after: Rows, id: string)
  {
    forall other :: other != id ==> SameRow(before, after, other)
  }

  class Store {
    var rows: Rows
    // Every statement is executed and reports what it did.
    const reliable: bool

    constructor (reliable: bool)
      ensures rows == map[] && this.reliable == reliable
    {
      rows := map[];
      this.reliable := reliable;
    }

    // `record_file_upload_plan`
    method RecordPlan(id: string, after: Digest, size: nat) returns (ok: bool)
      modifies this
      ensures Recorded(old(rows), rows, Insert(old(rows), id, after, size), ok) && OthersStay(old(rows), rows, id)
      ensures ok ==> id !in old(rows) && id in rows && rows[id] == Row(after, size, Planned, None)
      ensures reliable && id !in old(rows) ==> ok
    {
      ok := Execute(Insert(rows, id, after, size));
    }

    // `record_file_upload_start`
    method RecordStart(id: string) returns (ok: bool)
      modifies this
      ensures Recorded(old(rows), rows, Start(old(rows), id), ok) && OthersStay(old(rows), rows, id)
      ensures ok ==> id in old(rows) && old(rows)[id].state == Planned && id in rows && rows[id] == old(rows)[id].(state := Applying)
      ensures reliable && id in old(rows) && old(rows)[id].state == Planned ==> ok
    {
      ok := Execute(Start(rows, id));
    }

    // `record_file_upload_finish`: a storage error leaves open whether the row was updated.
    method RecordFinish(id: string, state: State, note: Note) returns (ok: bool)
      requires Final(state)
      modifies this
      ensures Recorded(old(rows), rows, Finish(old(rows), id, state, note), ok) && OthersStay(old(rows), rows, id)
      ensures ok ==> id in old(rows) && !Final(old(rows)[id].state) && id in rows
                     && rows[id] == old(rows)[id].(state := state, note := Some(note))
      ensures reliable && id in old(rows) && !Final(old(rows)[id].state) ==> ok
    {
      ok := Execute(Finish(rows, id, state, note));
    }

    // The updates of `migrate`.
    method Reopen()
      modifies this
      ensures rows == Recover(old(rows)) && rows.Keys == old(rows).Keys
      ensures forall id :: id in rows ==> rows[id].after == old(rows)[id].after && rows[id].size == old(rows)[id].size
      ensures forall id :: id in rows ==>
                rows[id].state == match old(rows)[id].state
                                  case Applying => ManualCheck
                                  case Planned => State.Failed
                                  case settled => settled
    {
      rows := Recover(rows);
    }

    // One statement; an error leaves open whether it was executed.
    method Execute(next: Option<Rows>) returns (ok: bool)
      modifies this
      ensures Recorded(old(rows), rows, next, ok)
    {
      var lost: bool := *;
      if lost && !reliable {
        var written: bool := *;
        if written && next.Some? {
          rows := next.value;
        }
        return false;
      }
      if next.Some? {
        rows := next.value;
      }
      ok := next.Some?;
    }

    // The statement took effect or not; a reported success did, and so does every statement
    // of a reliable store.
    predicate Recorded(before: Rows, after: Rows, next: Option<Rows>, ok: bool)
    {
      && (after == before || next == Some(after))
      && (ok ==> next == Some(after))
      && (reliable && next.Some? ==> ok)
    }
  }

  datatype Plan = Plan(id: string, path: string, precondition: Precondition, after: Digest, size: nat)

  // The row agrees with the target: a verified row is the planned content with the
  // expected mode, a failed row is an untouched target.
  ghost predicate Agrees(state: State, plan: Plan, before: Option<Node>, now: Option<Node>)
  {
    && (state == Verified ==>
          now.Some? && now.value.Kind() == Regular && Sha256(now.value.content) == plan.after
          && |now.value.content| == plan.size && now.value.Permissions() == plan.precondition.permissions)
    && (state == State.Failed ==> now == before)
  }

  function VerdictState(reason: Reason): (state: State)
    ensures state == ManualCheck <==> reason in {ManualRecoveryRequired, TemporaryCleanupFailed}
    ensures state in {ManualCheck, State.Failed}
  {
    if reason == ManualRecoveryRequired || reason == TemporaryCleanupFailed then ManualCheck else State.Failed
  }

  lemma AdmittedTarget(
      supported: bool, canonical: string -> string, home: string, files: Files,
      path: string, expected: Precondition, bytes: Bytes, suffix: string)
    ensures var admitted := Admit(supported, canonical, home, files, path, expected, bytes, suffix);
            admitted.Ok? ==> admitted.value.target == TargetPath(canonical, home, path) && admitted.value.precondition == expected
  {
  }
}
