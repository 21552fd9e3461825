/**
  TOTP enrollments: the pending and active rows, the used time steps with their cascading
  deletes, recovery codes, and the matching of a code against the clock.

  The HMAC is an arbitrary function from a secret and a time step to a code.
 */
module Totp {
  import opened Wrappers

  const PERIOD_MS := 30 * 1_000
  const ENROLLMENT_MS := 10 * 60 * 1_000
  const MAX_ROLLBACK_STEPS := 1

  // A time in milliseconds, as the source stores it.
  type Millis = t: int | -I64_MAX - 1 <= t <= I64_MAX

  type Hmac = (nat, int) -> nat

  datatype Error = Denied | NotConfigured | AlreadyConfigured | InvalidClaim | InvalidCode | Replay | ClockRollback | EnrollmentExpired | KeyUnavailable | Storage

  datatype Phase = Pending | Active

  // `serial` counts the enrollments ever inserted; it is no column of the database.
  datatype Enrollment = Enrollment(
    serial: nat, id: nat, secret: nat, phase: Phase, first: Option<int>, last: Option<int>, expires: int, activated: Option<int>)

  // A code that was accepted and committed.
  datatype Accepted = Accepted(code: nat, step: int, at: Millis)

  // Everything ever accepted under one enrollment.
  datatype History = History(uid: nat, secret: nat, accepted: seq<Accepted>)

  // The rows of `totp_enrollments` by subject, with the rows of `totp_used_steps` (step to time
  // of use) and `totp_recovery_codes` (digest to time of use) that reference them; `log` is
  // a record of the run, by the serial of the enrollment, and no row of the database.
  datatype Tables = Tables(
    enrollments: map<nat, Enrollment>, used: map<nat, map<int, int>>, recovery: map<nat, map<nat, Option<int>>>,
    log: map<nat, History>, inserted: nat)

  const EMPTY := Tables(map[], map[], map[], map[], 0)

  // ---------- Matching a code ----------

  function ClockStep(now: Millis): (step: int)
    ensures 30_000 * step <= now < 30_000 * (step + 1)
  {
    now / PERIOD_MS
  }

  // The step that `match_and_reserve_step` settles on: of the current, the previous and the
  // next step, tried in this order, the last match wins.
  function MatchedStep(hmac: Hmac, secret: nat, code: nat, now: Millis, last: Option<int>): Result<int, Error>
  {
    var current := ClockStep(now);
    if now < 0 then Err(ClockRollback)
    else if last.Some? && current + MAX_ROLLBACK_STEPS < last.value then Err(ClockRollback)
    else if current - 1 < 0 then Err(ClockRollback)
    else if hmac(secret, current + 1) == code then Ok(current + 1)
    else if hmac(secret, current - 1) == code then Ok(current - 1)
    else if hmac(secret, current) == code then Ok(current)
    else Err(InvalidCode)
  }

  method MatchStep(hmac: Hmac, secret: nat, code: nat, now: Millis, last: Option<int>) returns (r: Result<int, Error>)
    ensures r == MatchedStep(hmac, secret, code, now, last)
  {
    if now < 0 {
      return Err(ClockRollback);
    }
    var current := now / PERIOD_MS;
    if last.Some? && current + MAX_ROLLBACK_STEPS < last.value {
      return Err(ClockRollback);
    }
    var candidates := [current, current - 1, current + 1];
    var matched: Option<int> := None;
    for i := 0 to 3
      invariant i >= 2 ==> current >= 1
      invariant matched == if i >= 3 && hmac(secret, current + 1) == code then Some(current + 1)
                           else if i >= 2 && hmac(secret, current - 1) == code then Some(current - 1)
                           else if i >= 1 && hmac(secret, current) == code then Some(current)
                           else None
    {
      if candidates[i] < 0 {
        return Err(ClockRollback);
      }
      if hmac(secret, candidates[i]) == code {
        matched := Some(candidates[i]);
      }
    }
    r := if matched.Some? then Ok(matched.value) else Err(InvalidCode);
  }

  /**
    Section 5.2 of RFC 6238 and the clock policy: an accepted code belongs to a step at most
    one away from the clock, never before the last accepted step less two, and the code of
    every step in that window is accepted while the clock is sound.
   */
  lemma MatchWindow(hmac: Hmac, secret: nat, code: nat, now: Millis, last: Option<int>)
    ensures var r := MatchedStep(hmac, secret, code, now, last);
            && (r.Ok? ==> hmac(secret, r.value) == code && ClockStep(now) - 1 <= r.value <= ClockStep(now) + 1)
            && (r.Ok? && last.Some? ==> last.value - 2 <= r.value)
            && (now >= PERIOD_MS && (last.None? || last.value <= ClockStep(now) + 1) ==>
                  (r.Ok? <==> exists step :: ClockStep(now) - 1 <= step <= ClockStep(now) + 1 && hmac(secret, step) == code))
  {
    var current := ClockStep(now);
    if now >= PERIOD_MS && (last.None? || last.value <= current + 1) {
      if step :| current - 1 <= step <= current + 1 && hmac(secret, step) == code {
        assert step == current - 1 || step == current || step == current + 1;
      }
    }
  }

  // The clock shows at least the first step, and has not gone back behind the last code.
  predicate SoundClock(now: Millis, last: Option<int>)
  {
    now >= PERIOD_MS && (last.Some? ==> last.value <= ClockStep(now) + 1)
  }

  // The step a code stands for: the next one, else the previous one, else the current one.
  predicate StandsFor(hmac: Hmac, secret: nat, code: nat, now: Millis, step: int)
  {
    && hmac(secret, step) == code
    && (step == ClockStep(now) + 1
        || (hmac(secret, ClockStep(now) + 1) != code
            && (step == ClockStep(now) - 1 || (step == ClockStep(now) && hmac(secret, ClockStep(now) - 1) != code))))
  }

  // Matching is exactly that, and every other outcome is one of two errors.
  lemma MatchIsExact(hmac: Hmac, secret: nat, code: nat, now: Millis, last: Option<int>)
    ensures var r := MatchedStep(hmac, secret, code, now, last);
            && (!SoundClock(now, last) ==> r == Err(ClockRollback))
            && (SoundClock(now, last) ==> forall step :: r == Ok(step) <==> StandsFor(hmac, secret, code, now, step))
            && (SoundClock(now, last) && r.Err? ==> r == Err(InvalidCode))
  {
  }

  // ---------- The statements ----------

  function Max(last: Option<int>, step: int): Option<int>
  {
    Some(if last.Some? && last.value > step then last.value else step)
  }

  // DELETE FROM totp_enrollments, and the cascades of the schema.
  function Delete(t: Tables, gone: set<nat>): Tables
  {
    t.(enrollments := t.enrollments - gone, used := t.used - gone, recovery := t.recovery - gone)
  }

  function FreshCodes(codes: set<nat>): map<nat, Option<int>>
  {
    map code | code in codes :: None
  }

  predicate IsActive(t: Tables, uid: nat)
  {
    uid in t.enrollments && t.enrollments[uid].phase == Active
  }

  predicate TakenId(t: Tables, uid: nat, id: nat)
  {
    exists other :: other in t.enrollments && other != uid && t.enrollments[other].id == id
  }

  // The DELETE and INSERT statements of `begin_enrollment`; enrollment ids are unique.
  function Insert(t: Tables, uid: nat, id: nat, secret: nat, codes: set<nat>, now: Millis): Result<Tables, Error>
  {
    if TakenId(t, uid, id) then Err(Storage)
    else
      var cleared := Delete(t, {uid});
      Ok(Tables(cleared.enrollments[uid := Enrollment(t.inserted, id, secret, Pending, None, None, Saturating(now + ENROLLMENT_MS), None)],
                cleared.used[uid := map[]], cleared.recovery[uid := FreshCodes(codes)],
                cleared.log[t.inserted := History(uid, secret, [])], t.inserted + 1))
  }

  function UsedBy(t: Tables, uid: nat): map<int, int>
  {
    if uid in t.used then t.used[uid] else map[]
  }

  function HistoryOf(t: Tables, enrollment: Enrollment, uid: nat): History
  {
    if enrollment.serial in t.log then t.log[enrollment.serial] else History(uid, enrollment.secret, [])
  }

  // INSERT OR IGNORE INTO totp_used_steps, which refuses a step the subject has used.
  function Reserve(t: Tables, uid: nat, enrollment: Enrollment, code: nat, step: int, now: Millis): Result<Tables, Error>
  {
    if step in UsedBy(t, uid) then Err(Replay)
    else
      var history := HistoryOf(t, enrollment, uid);
      Ok(t.(used := t.used[uid := UsedBy(t, uid)[step := now]],
            log := t.log[enrollment.serial := history.(accepted := history.accepted + [Accepted(code, step, now)])]))
  }

  // The row after a code was accepted for a step.
  function Observed(enrollment: Enrollment, step: int): Enrollment
  {
    enrollment.(last := Max(enrollment.last, step))
  }

  function Confirmed(enrollment: Enrollment, step: int, now: Millis): Result<Enrollment, Error>
  {
    match enrollment.first
    case None => Ok(Observed(enrollment, step).(first := Some(step)))
    case Some(first) =>
      if step == Saturating(first + 1) then Ok(Observed(enrollment, step).(phase := Active, activated := Some(now)))
      else Err(InvalidCode)
  }

  // `confirm_enrollment`, after the role checks.
  function Confirm(hmac: Hmac, t: Tables, uid: nat, id: nat, code: nat, now: Millis, key: bool): Result<Tables, Error>
  {
    if uid !in t.enrollments || t.enrollments[uid].id != id || t.enrollments[uid].phase != Pending then Err(NotConfigured)
    else
      var enrollment := t.enrollments[uid];
      if enrollment.expires <= now then Err(EnrollmentExpired)
      else if !key then Err(KeyUnavailable)
      else
        var step := MatchedStep(hmac, enrollment.secret, code, now, enrollment.last);
        if step.Err? then Err(step.error)
        else
          var reserved := Reserve(t, uid, enrollment, code, step.value, now);
          if reserved.Err? then reserved
          else
            match Confirmed(enrollment, step.value, now)
            case Err(error) => Err(error)
            case Ok(row) => Ok(reserved.value.(enrollments := t.enrollments[uid := row]))
  }

  // The code check of `issue_operation_claim` and `verify_direct_context`.
  function Verify(hmac: Hmac, t: Tables, uid: nat, code: nat, now: Millis, key: bool): Result<Tables, Error>
  {
    if !IsActive(t, uid) then Err(NotConfigured)
    else if !key then Err(KeyUnavailable)
    else
      var enrollment := t.enrollments[uid];
      var step := MatchedStep(hmac, enrollment.secret, code, now, enrollment.last);
      if step.Err? then Err(step.error)
      else
        var reserved := Reserve(t, uid, enrollment, code, step.value, now);
        if reserved.Err? then reserved
        else Ok(reserved.value.(enrollments := t.enrollments[uid := Observed(enrollment, step.value)]))
  }

  // `recovery_reset`, after the claim was consumed; the consumed code goes with its enrollment.
  function Reset(t: Tables, uid: nat, code: nat): Result<Tables, Error>
  {
    if uid in t.recovery && code in t.recovery[uid] && t.recovery[uid][code].None? then Ok(Delete(t, {uid})) else Err(InvalidCode)
  }

  predicate Expired(enrollment: Enrollment, now: Millis)
  {
    enrollment.phase == Pending && enrollment.expires <= now
  }

  // DELETE ... WHERE state = 'pending' AND expires_at_unix_ms <= now, when the database opens.
  function Restart(t: Tables, now: Millis): Tables
  {
    Delete(t, set uid | uid in t.enrollments && Expired(t.enrollments[uid], now))
  }

  // ---------- Invariants ----------

  function Largest(accepted: seq<Accepted>): Option<int>
  {
    if accepted == [] then None else Max(Largest(accepted[..|accepted| - 1]), accepted[|accepted| - 1].step)
  }

  function UsedIn(accepted: seq<Accepted>): map<int, int>
  {
    if accepted == [] then map[]
    else UsedIn(accepted[..|accepted| - 1])[accepted[|accepted| - 1].step := accepted[|accepted| - 1].at]
  }

  // Each acceptance matched the code against the clock with the largest step accepted so
  // far, and its step was new.
  ghost predicate HistoryValid(hmac: Hmac, secret: nat, accepted: seq<Accepted>)
  {
    accepted == [] ||
    var before, a := accepted[..|accepted| - 1], accepted[|accepted| - 1];
    && HistoryValid(hmac, secret, before)
    && MatchedStep(hmac, secret, a.code, a.at, Largest(before)) == Ok(a.step)
    && a.step !in UsedIn(before)
  }

  // The confirmed steps of a row are used steps, used before the row expired.
  predicate Confirmations(row: Enrollment, used: map<int, int>)
  {
    && (row.first.None? ==> row.phase == Pending)
    && (row.first.Some? ==> row.first.value < I64_MAX && row.first.value in used && used[row.first.value] < row.expires)
    && (row.phase == Active ==>
          && row.first.value + 1 in used && used[row.first.value + 1] < row.expires
          && row.activated == Some(used[row.first.value + 1]))
  }

  ghost predicate RowValid(uid: nat, row: Enrollment, used: map<int, int>, history: History)
  {
    && history.uid == uid && history.secret == row.secret
    && used == UsedIn(history.accepted)
    && row.last == Largest(history.accepted)
    && Confirmations(row, used)
  }

  // Every row has its own history.
  ghost predicate RowsValid(t: Tables)
  {
    && t.used.Keys == t.enrollments.Keys == t.recovery.Keys
    && forall uid :: uid in t.enrollments ==>
         t.enrollments[uid].serial in t.log && RowValid(uid, t.enrollments[uid], t.used[uid], t.log[t.enrollments[uid].serial])
  }

  ghost predicate LogValid(hmac: Hmac, log: map<nat, History>)
  {
    forall id :: id in log ==> HistoryValid(hmac, log[id].secret, log[id].accepted)
  }

  ghost predicate Valid(hmac: Hmac, t: Tables)
  {
    RowsValid(t) && LogValid(hmac, t.log) && Numbered(t.log, t.inserted)
  }

  ghost predicate Numbered(log: map<nat, History>, inserted: nat)
  {
    forall serial :: serial in log ==> serial < inserted
  }

  // Within one enrollment the secret and the confirmed first step are fixed, an activation
  // is final, and the last step never decreases; histories only grow.
  ghost predicate Advances(before: Tables, after: Tables)
  {
    LogGrows(before.log, after.log) && RowsAdvance(before.enrollments, after.enrollments)
  }

  ghost predicate LogGrows(before: map<nat, History>, after: map<nat, History>)
  {
    forall id :: id in before ==> id in after && HistoryGrows(before[id], after[id])
  }

  ghost predicate RowsAdvance(before: map<nat, Enrollment>, after: map<nat, Enrollment>)
  {
    forall uid :: uid in before && uid in after ==> RowAdvances(before[uid], after[uid])
  }

  predicate HistoryGrows(before: History, after: History)
  {
    after.uid == before.uid && after.secret == before.secret && before.accepted <= after.accepted
  }

  predicate RowAdvances(before: Enrollment, after: Enrollment)
  {
    before.serial == after.serial ==>
      && after.id == before.id
      && after.secret == before.secret && after.expires == before.expires
      && (before.first.Some? ==> after.first == before.first)
      && (before.phase == Active ==> after.phase == Active && after.activated == before.activated)
      && (before.last.Some? ==> after.last.Some? && before.last.value <= after.last.value)
  }

  // ---------- What a valid history says ----------

  /**
    Section 5.2 of RFC 6238 and the clock policy, for every code accepted under one
    enrollment: it is the code of its step, the step is within one of the clock step, no
    other acceptance has it, and none before is more than two steps ahead of it.
   */
  lemma {:induction false} HistoryIsReplayFree(hmac: Hmac, secret: nat, accepted: seq<Accepted>, i: nat)
    requires HistoryValid(hmac, secret, accepted) && i < |accepted|
    ensures hmac(secret, accepted[i].step) == accepted[i].code
    ensures ClockStep(accepted[i].at) - 1 <= accepted[i].step <= ClockStep(accepted[i].at) + 1
    ensures forall j :: 0 <= j < |accepted| && j != i ==> accepted[j].step != accepted[i].step
    ensures forall j :: 0 <= j < i ==> accepted[j].step - 2 <= accepted[i].step
  {
    AcceptedInWindow(hmac, secret, accepted, i);
    forall j | 0 <= j < |accepted| && j != i
      ensures accepted[j].step != accepted[i].step
      ensures j < i ==> accepted[j].step - 2 <= accepted[i].step
    {
      if j < i {
        LaterIsNew(hmac, secret, accepted, j, i);
      } else {
        LaterIsNew(hmac, secret, accepted, i, j);
      }
    }
  }

  lemma {:induction false} AcceptedInWindow(hmac: Hmac, secret: nat, accepted: seq<Accepted>, i: nat)
    requires HistoryValid(hmac, secret, accepted) && i < |accepted|
    ensures hmac(secret, accepted[i].step) == accepted[i].code
    ensures ClockStep(accepted[i].at) - 1 <= accepted[i].step <= ClockStep(accepted[i].at) + 1
  {
    var before := accepted[..|accepted| - 1];
    if i < |before| {
      AcceptedInWindow(hmac, secret, before, i);
    } else {
      MatchWindow(hmac, secret, accepted[i].code, accepted[i].at, Largest(before));
    }
  }

  lemma {:induction false} LaterIsNew(hmac: Hmac, secret: nat, accepted: seq<Accepted>, i: nat, j: nat)
    requires HistoryValid(hmac, secret, accepted) && i < j < |accepted|
    ensures accepted[i].step != accepted[j].step && accepted[i].step - 2 <= accepted[j].step
  {
    var before := accepted[..|accepted| - 1];
    if j < |before| {
      LaterIsNew(hmac, secret, before, i, j);
    } else {
      AcceptedIsUsed(before, i);
      MatchWindow(hmac, secret, accepted[j].code, accepted[j].at, Largest(before));
    }
  }

  lemma {:induction false} AcceptedIsUsed(accepted: seq<Accepted>, i: nat)
    requires i < |accepted|
    ensures accepted[i].step in UsedIn(accepted)
    ensures Largest(accepted).Some? && accepted[i].step <= Largest(accepted).value
  {
    if i < |accepted| - 1 {
      AcceptedIsUsed(accepted[..|accepted| - 1], i);
    }
  }

  // A used step goes back to an acceptance at that time; the last step is an accepted one.
  lemma {:induction false} UsedWasAccepted(accepted: seq<Accepted>, step: int) returns (i: nat)
    requires step in UsedIn(accepted)
    ensures i < |accepted| && accepted[i].step == step && accepted[i].at == UsedIn(accepted)[step]
  {
    i := |accepted| - 1;
    if accepted[i].step != step {
      i := UsedWasAccepted(accepted[..i], step);
    }
  }

  lemma {:induction false} LargestWasAccepted(accepted: seq<Accepted>) returns (i: nat)
    requires accepted != []
    ensures i < |accepted| && Largest(accepted) == Some(accepted[i].step)
  {
    i := |accepted| - 1;
    if i > 0 && Largest(accepted) != Some(accepted[i].step) {
      i := LargestWasAccepted(accepted[..i]);
    }
  }

  // ---------- What each statement keeps ----------

  lemma DeleteKeeps(hmac: Hmac, t: Tables, gone: set<nat>)
    requires Valid(hmac, t)
    ensures Valid(hmac, Delete(t, gone)) && Advances(t, Delete(t, gone))
  {
    var next := Delete(t, gone);
    assert next.used.Keys == next.enrollments.Keys == next.recovery.Keys;
  }

  lemma RestartKeeps(hmac: Hmac, t: Tables, now: Millis)
    requires Valid(hmac, t)
    ensures Valid(hmac, Restart(t, now)) && Advances(t, Restart(t, now))
  {
    DeleteKeeps(hmac, t, set uid | uid in t.enrollments && Expired(t.enrollments[uid], now));
  }

  lemma AdvancesItself(t: Tables)
    ensures Advances(t, t)
  {
  }

  // A row changes together with its used steps and its history; the other rows stay.
  lemma RowChanges(t: Tables, next: Tables, uid: nat, row: Enrollment, used: map<int, int>, history: History)
    requires RowsValid(t)
    requires next.enrollments == t.enrollments[uid := row] && next.used == t.used[uid := used] && next.log == t.log[row.serial := history]
    requires next.recovery.Keys == next.enrollments.Keys
    requires row.serial in t.log ==> t.log[row.serial].uid == uid
    requires RowValid(uid, row, used, history)
    ensures RowsValid(next)
  {
    assert next.used.Keys == next.enrollments.Keys;
    forall other | other in next.enrollments && other != uid
      ensures next.enrollments[other].serial in next.log
      ensures RowValid(other, next.enrollments[other], next.used[other], next.log[next.enrollments[other].serial])
    {
      assert RowValid(other, t.enrollments[other], t.used[other], t.log[t.enrollments[other].serial]);
    }
  }

  lemma LogChanges(hmac: Hmac, log: map<nat, History>, id: nat, history: History)
    requires LogValid(hmac, log) && HistoryValid(hmac, history.secret, history.accepted)
    requires id in log ==> HistoryGrows(log[id], history)
    ensures LogValid(hmac, log[id := history]) && LogGrows(log, log[id := history])
  {
  }

  lemma OneRowAdvances(rows: map<nat, Enrollment>, uid: nat, row: Enrollment)
    requires uid in rows ==> RowAdvances(rows[uid], row)
    ensures RowsAdvance(rows, rows[uid := row])
  {
  }

  lemma NewRowAdvances(rows: map<nat, Enrollment>, uid: nat, row: Enrollment)
    requires uid in rows ==> rows[uid].serial != row.serial
    ensures RowsAdvance(rows, (rows - {uid})[uid := row])
  {
  }

  lemma InsertKeeps(hmac: Hmac, t: Tables, uid: nat, id: nat, secret: nat, codes: set<nat>, now: Millis)
    requires Valid(hmac, t)
    requires Insert(t, uid, id, secret, codes, now).Ok?
    ensures var next := Insert(t, uid, id, secret, codes, now).value; Valid(hmac, next) && Advances(t, next)
  {
    DeleteKeeps(hmac, t, {uid});
    var cleared := Delete(t, {uid});
    var next := Insert(t, uid, id, secret, codes, now).value;
    var row := next.enrollments[uid];
    RowChanges(cleared, next, uid, row, map[], History(uid, secret, []));
    LogChanges(hmac, t.log, t.inserted, History(uid, secret, []));
    NewRowAdvances(t.enrollments, uid, row);
  }

  lemma Appended(accepted: seq<Accepted>, a: Accepted)
    ensures Largest(accepted + [a]) == Max(Largest(accepted), a.step)
    ensures UsedIn(accepted + [a]) == UsedIn(accepted)[a.step := a.at]
  {
    assert (accepted + [a])[..|accepted|] == accepted;
  }

  // A code was accepted for `step`, and the row of the subject became `row`.
  ghost predicate Accepts(hmac: Hmac, t: Tables, uid: nat, code: nat, step: int, now: Millis, row: Enrollment)
  {
    && RowsValid(t) && uid in t.enrollments
    && MatchedStep(hmac, t.enrollments[uid].secret, code, now, t.enrollments[uid].last) == Ok(step)
    && step !in t.used[uid]
    && row.serial == t.enrollments[uid].serial && RowAdvances(t.enrollments[uid], row)
    && row.last == Max(t.enrollments[uid].last, step) && Confirmations(row, t.used[uid][step := now])
  }

  function Extended(history: History, a: Accepted): History
  {
    history.(accepted := history.accepted + [a])
  }

  lemma AcceptKeeps(hmac: Hmac, t: Tables, uid: nat, code: nat, step: int, now: Millis, row: Enrollment, next: Tables)
    requires LogValid(hmac, t.log) && Numbered(t.log, t.inserted) && Accepts(hmac, t, uid, code, step, now, row)
    requires Reserve(t, uid, t.enrollments[uid], code, step, now).Ok?
    requires next == Reserve(t, uid, t.enrollments[uid], code, step, now).value.(enrollments := t.enrollments[uid := row])
    ensures Valid(hmac, next) && Advances(t, next)
  {
    var a := Accepted(code, step, now);
    AcceptedRow(hmac, t, uid, row, a);
    AcceptedLog(hmac, t, uid, row, a);
    RowChanges(t, next, uid, row, t.used[uid][step := now], Extended(t.log[row.serial], a));
    OneRowAdvances(t.enrollments, uid, row);
  }

  lemma AcceptedRow(hmac: Hmac, t: Tables, uid: nat, row: Enrollment, a: Accepted)
    requires Accepts(hmac, t, uid, a.code, a.step, a.at, row)
    ensures RowValid(uid, row, t.used[uid][a.step := a.at], Extended(t.log[row.serial], a))
  {
    Appended(t.log[row.serial].accepted, a);
  }

  lemma AcceptedLog(hmac: Hmac, t: Tables, uid: nat, row: Enrollment, a: Accepted)
    requires LogValid(hmac, t.log) && Numbered(t.log, t.inserted) && Accepts(hmac, t, uid, a.code, a.step, a.at, row)
    ensures var log := t.log[row.serial := Extended(t.log[row.serial], a)];
            LogValid(hmac, log) && LogGrows(t.log, log) && Numbered(log, t.inserted)
  {
    var history := t.log[row.serial];
    HistoryExtends(hmac, history.secret, history.accepted, a);
    LogChanges(hmac, t.log, row.serial, Extended(history, a));
  }

  lemma HistoryExtends(hmac: Hmac, secret: nat, accepted: seq<Accepted>, a: Accepted)
    requires HistoryValid(hmac, secret, accepted)
    requires MatchedStep(hmac, secret, a.code, a.at, Largest(accepted)) == Ok(a.step) && a.step !in UsedIn(accepted)
    ensures HistoryValid(hmac, secret, accepted + [a])
  {
    assert (accepted + [a])[..|accepted|] == accepted;
  }

  lemma StepsAreSmall(now: Millis)
    ensures ClockStep(now) + 1 < I64_MAX
  {
  }

  // The row after a confirmation: the first code, or the code of the next step.
  lemma ConfirmedRow(enrollment: Enrollment, used: map<int, int>, step: int, now: Millis)
    requires Confirmations(enrollment, used) && Confirmed(enrollment, step, now).Ok?
    requires enrollment.phase == Pending && now < enrollment.expires && step < I64_MAX && step !in used
    ensures var row := Confirmed(enrollment, step, now).value;
            && row.serial == enrollment.serial && RowAdvances(enrollment, row) && row.last == Max(enrollment.last, step)
            && Confirmations(row, used[step := now])
  {
  }

  lemma ConfirmKeeps(hmac: Hmac, t: Tables, uid: nat, id: nat, code: nat, now: Millis, key: bool)
    requires Valid(hmac, t)
    requires Confirm(hmac, t, uid, id, code, now, key).Ok?
    ensures var next := Confirm(hmac, t, uid, id, code, now, key).value; Valid(hmac, next) && Advances(t, next)
  {
    var enrollment := t.enrollments[uid];
    var step := MatchedStep(hmac, enrollment.secret, code, now, enrollment.last).value;
    var row := Confirmed(enrollment, step, now).value;
    var next := Confirm(hmac, t, uid, id, code, now, key).value;
    MatchWindow(hmac, enrollment.secret, code, now, enrollment.last);
    StepsAreSmall(now);
    ConfirmedRow(enrollment, t.used[uid], step, now);
    AcceptKeeps(hmac, t, uid, code, step, now, row, next);
  }

  lemma VerifyKeeps(hmac: Hmac, t: Tables, uid: nat, code: nat, now: Millis, key: bool)
    requires Valid(hmac, t)
    requires Verify(hmac, t, uid, code, now, key).Ok?
    ensures var next := Verify(hmac, t, uid, code, now, key).value; Valid(hmac, next) && Advances(t, next)
  {
    var enrollment := t.enrollments[uid];
    var step := MatchedStep(hmac, enrollment.secret, code, now, enrollment.last).value;
    var next := Verify(hmac, t, uid, code, now, key).value;
    AcceptKeeps(hmac, t, uid, code, step, now, Observed(enrollment, step), next);
  }
}
