/**
  What holds in every database the ledger can reach, stated in the terms of its tables.
 */
module AuthRuns {
  import opened Wrappers
  import C = Claims
  import T = Totp
  import opened AuthLedger

  // A database reached from a fresh one.
  ghost predicate Reached(hmac: T.Hmac, ops: seq<Op>, db: Database)
  {
    db == Run(hmac, FRESH, ops)
  }

  lemma ReachedIsValid(hmac: T.Hmac, ops: seq<Op>, db: Database)
    requires Reached(hmac, ops, db)
    ensures Valid(hmac, db)
  {
    RunKeeps(hmac, FRESH, ops);
  }

  // ---------- Claims ----------

  /**
    A reauth claim is consumed at most once, before its expiry, and for the session, subject,
    purpose and context it was issued for.
   */
  lemma ClaimsAreConsumedOnce(hmac: T.Hmac, ops: seq<Op>, db: Database, i: nat)
    requires Reached(hmac, ops, db) && i < |db.claims.uses|
    ensures var use := db.claims.uses[i];
            && use.token in db.claims.reauth
            && db.claims.reauth[use.token].binding == use.binding
            && db.claims.reauth[use.token].consumed == Some(use.at) && use.at < db.claims.reauth[use.token].expires
            && forall j :: 0 <= j < |db.claims.uses| && j != i ==> db.claims.uses[j].token != use.token
  {
    ReachedIsValid(hmac, ops, db);
    assert C.UseValid(db.claims.reauth, db.claims.uses[i]);
  }

  // A claim that is marked consumed was consumed by one recorded transaction.
  lemma ConsumedClaimWasUsed(hmac: T.Hmac, ops: seq<Op>, db: Database, token: nat) returns (i: nat)
    requires Reached(hmac, ops, db) && token in db.claims.reauth && db.claims.reauth[token].consumed.Some?
    ensures i < |db.claims.uses| && db.claims.uses[i].token == token
    ensures db.claims.reauth[token].consumed == Some(db.claims.uses[i].at)
    ensures db.claims.reauth[token].binding == db.claims.uses[i].binding
  {
    ReachedIsValid(hmac, ops, db);
    assert C.HasUse(db.claims.uses, token);
    i :| 0 <= i < |db.claims.uses| && db.claims.uses[i].token == token;
    assert C.UseValid(db.claims.reauth, db.claims.uses[i]);
  }

  /**
    A consumed additional claim was consumed in the transaction that consumed its reauth
    claim, which is an operation claim with the same session, subject and plan, and no
    other additional claim was consumed with it.
   */
  lemma AdditionalIsConsumedBeside(hmac: T.Hmac, ops: seq<Op>, db: Database, a: nat) returns (i: nat)
    requires Reached(hmac, ops, db) && a in db.claims.additional && db.claims.additional[a].consumed.Some?
    ensures i < |db.claims.uses|
    ensures var row, use := db.claims.additional[a], db.claims.uses[i];
            && use == C.Use(row.reauth, row.binding, row.consumed.value, Some(a))
            && use.binding.purpose == C.Operation && use.at < row.expires
    ensures forall b :: b in db.claims.additional && C.SpentTogether(db.claims.additional[a], db.claims.additional[b]) ==> a == b
  {
    ReachedIsValid(hmac, ops, db);
    var row := db.claims.additional[a];
    assert C.RowValid(db.claims.reauth, db.claims.uses, a, row);
    i :| 0 <= i < |db.claims.uses| && db.claims.uses[i].token == row.reauth && db.claims.uses[i].additional == Some(a);
    assert C.UseValid(db.claims.reauth, db.claims.uses[i]);
  }

  /**
    From any reached database on, no claim is rebound, extended or revived, and no
    consumption is undone, across resets and restarts.
   */
  lemma ClaimsStaySpent(hmac: T.Hmac, db: Database, ops: seq<Op>, token: nat)
    requires Valid(hmac, db) && token in db.claims.reauth
    ensures var end := Run(hmac, db, ops);
            && token in end.claims.reauth
            && end.claims.reauth[token].binding == db.claims.reauth[token].binding
            && end.claims.reauth[token].expires == db.claims.reauth[token].expires
            && (db.claims.reauth[token].consumed.Some? ==> end.claims.reauth[token] == db.claims.reauth[token])
            && db.claims.uses <= end.claims.uses
  {
    RunKeeps(hmac, db, ops);
  }

  // ---------- Time steps ----------

  /**
    Every code accepted under an enrollment is the code of its step and within one step of
    the clock; no other acceptance has the step, and none before is more than two ahead.
   */
  lemma StepsAreNeverReplayed(hmac: T.Hmac, ops: seq<Op>, db: Database, serial: nat, i: nat)
    requires Reached(hmac, ops, db) && serial in db.totp.log && i < |db.totp.log[serial].accepted|
    ensures var accepted := db.totp.log[serial].accepted;
            && hmac(db.totp.log[serial].secret, accepted[i].step) == accepted[i].code
            && T.ClockStep(accepted[i].at) - 1 <= accepted[i].step <= T.ClockStep(accepted[i].at) + 1
            && (forall j :: 0 <= j < |accepted| && j != i ==> accepted[j].step != accepted[i].step)
            && (forall j :: 0 <= j < i ==> accepted[j].step - 2 <= accepted[i].step)
  {
    ReachedIsValid(hmac, ops, db);
    T.HistoryIsReplayFree(hmac, db.totp.log[serial].secret, db.totp.log[serial].accepted, i);
  }

  /**
    The stored last step is the largest accepted step of the enrollment, and the stored
    used steps are exactly its accepted steps.
   */
  lemma StoredStepsAreTheAccepted(hmac: T.Hmac, ops: seq<Op>, db: Database, uid: nat)
    requires Reached(hmac, ops, db) && uid in db.totp.enrollments
    ensures uid in db.totp.used && db.totp.enrollments[uid].serial in db.totp.log
    ensures var row, history := db.totp.enrollments[uid], db.totp.log[db.totp.enrollments[uid].serial];
            && history.uid == uid && history.secret == row.secret
            && (row.last.None? <==> history.accepted == [])
            && (forall i :: 0 <= i < |history.accepted| ==> history.accepted[i].step <= row.last.value)
            && (row.last.Some? ==> exists i :: 0 <= i < |history.accepted| && history.accepted[i].step == row.last.value)
            && (forall step :: step in db.totp.used[uid] <==> exists i :: 0 <= i < |history.accepted| && history.accepted[i].step == step)
  {
    ReachedIsValid(hmac, ops, db);
    var accepted := db.totp.log[db.totp.enrollments[uid].serial].accepted;
    forall i | 0 <= i < |accepted|
      ensures accepted[i].step in T.UsedIn(accepted)
      ensures T.Largest(accepted).Some? && accepted[i].step <= T.Largest(accepted).value
    {
      T.AcceptedIsUsed(accepted, i);
    }
    forall step | step in T.UsedIn(accepted)
      ensures exists i :: 0 <= i < |accepted| && accepted[i].step == step
    {
      var i := T.UsedWasAccepted(accepted, step);
    }
    if accepted != [] {
      var i := T.LargestWasAccepted(accepted);
    }
  }

  // Within one enrollment the last step never decreases, over any run.
  lemma LastStepNeverDecreases(hmac: T.Hmac, db: Database, ops: seq<Op>, uid: nat)
    requires Valid(hmac, db)
    requires uid in db.totp.enrollments && db.totp.enrollments[uid].last.Some?
    ensures var end := Run(hmac, db, ops).totp.enrollments;
            uid in end && end[uid].serial == db.totp.enrollments[uid].serial ==>
              end[uid].last.Some? && db.totp.enrollments[uid].last.value <= end[uid].last.value
  {
    RunKeeps(hmac, db, ops);
    var serial, end := db.totp.enrollments[uid].serial, Run(hmac, db, ops);
    assert T.HistoryGrows(db.totp.log[serial], end.totp.log[serial]);
    LargestGrows(db.totp.log[serial].accepted, end.totp.log[serial].accepted);
  }

  lemma {:induction false} LargestGrows(before: seq<T.Accepted>, after: seq<T.Accepted>)
    requires before <= after && before != []
    ensures T.Largest(before).Some? && T.Largest(after).Some? && T.Largest(before).value <= T.Largest(after).value
  {
    if |before| < |after| {
      LargestGrows(before, after[..|after| - 1]);
    } else {
      assert before == after;
    }
  }

  // ---------- Enrollment ----------

  /**
    An active enrollment accepted the codes of two consecutive steps of its own secret before
    it expired, the second when it became active.
   */
  lemma ActiveWasConfirmedTwice(hmac: T.Hmac, ops: seq<Op>, db: Database, uid: nat) returns (i: nat, j: nat)
    requires Reached(hmac, ops, db) && T.IsActive(db.totp, uid)
    ensures var row := db.totp.enrollments[uid];
            && row.serial in db.totp.log && i < |db.totp.log[row.serial].accepted| && j < |db.totp.log[row.serial].accepted|
            && var first, second := db.totp.log[row.serial].accepted[i], db.totp.log[row.serial].accepted[j];
            && second.step == first.step + 1
            && hmac(row.secret, first.step) == first.code && hmac(row.secret, second.step) == second.code
            && first.at < row.expires && second.at < row.expires && row.activated == Some(second.at)
  {
    ReachedIsValid(hmac, ops, db);
    var row := db.totp.enrollments[uid];
    var accepted := db.totp.log[row.serial].accepted;
    assert T.RowValid(uid, row, db.totp.used[uid], db.totp.log[row.serial]);
    i := T.UsedWasAccepted(accepted, row.first.value);
    j := T.UsedWasAccepted(accepted, row.first.value + 1);
    T.AcceptedInWindow(hmac, row.secret, accepted, i);
    T.AcceptedInWindow(hmac, row.secret, accepted, j);
  }

  // Two subjects never share an enrollment id.
  ghost predicate UniqueIds(rows: map<nat, T.Enrollment>)
  {
    forall uid, other :: uid in rows && other in rows && rows[uid].id == rows[other].id ==> uid == other
  }

  lemma EffectKeepsIds(hmac: T.Hmac, t: T.Tables, op: Op, next: T.Tables)
    requires TotpEffect(hmac, t, op, next) && UniqueIds(t.enrollments)
    ensures UniqueIds(next.enrollments)
  {
    if op.Begin? {
      var rows, uid := next.enrollments, op.subject.uid;
      forall other | other in rows && other != uid
        ensures rows[other].id != rows[uid].id
      {
        assert other in t.enrollments && t.enrollments[other] == rows[other];
        assert !T.TakenId(t, uid, op.id);
      }
    }
  }

  lemma {:induction false} EnrollmentIdsAreUnique(hmac: T.Hmac, ops: seq<Op>)
    ensures UniqueIds(Run(hmac, FRESH, ops).totp.enrollments)
  {
    if ops != [] {
      var before, op := Run(hmac, FRESH, ops[..|ops| - 1]), ops[|ops| - 1];
      EnrollmentIdsAreUnique(hmac, ops[..|ops| - 1]);
      if Apply(hmac, before, op).Ok? {
        HasEffect(hmac, before, op);
        EffectKeepsIds(hmac, before.totp, op, Apply(hmac, before, op).value.totp);
      }
    }
  }

  // ---------- How long an enrollment lasts ----------

  predicate IsReset(hmac: T.Hmac, db: Database, op: Op, uid: nat)
  {
    op.Reset? && op.subject.uid == uid && Apply(hmac, db, op).Ok?
  }

  // The confirmation that reports the provider as ready.
  predicate Activates(hmac: T.Hmac, db: Database, op: Op, uid: nat)
  {
    && op.Confirm? && op.subject.uid == uid && Apply(hmac, db, op).Ok?
    && uid in db.totp.enrollments && db.totp.enrollments[uid].first.Some?
  }

  // Some recovery reset of the subject succeeds during the run.
  predicate ResetDuring(hmac: T.Hmac, db: Database, ops: seq<Op>, uid: nat)
  {
    ops != [] &&
    (ResetDuring(hmac, db, ops[..|ops| - 1], uid) || IsReset(hmac, Run(hmac, db, ops[..|ops| - 1]), ops[|ops| - 1], uid))
  }

  // The subject activated an enrollment during the run and did not reset it afterwards.
  predicate Enrolled(hmac: T.Hmac, ops: seq<Op>, uid: nat)
  {
    ops != [] &&
    var early, op := ops[..|ops| - 1], ops[|ops| - 1];
    var before := Run(hmac, FRESH, early);
    !IsReset(hmac, before, op, uid) && (Activates(hmac, before, op, uid) || Enrolled(hmac, early, uid))
  }

  predicate Holds(t: T.Tables, uid: nat, serial: nat)
  {
    T.IsActive(t, uid) && t.enrollments[uid].serial == serial
  }

  // Only an activation makes an enrollment active, and only a reset by its own subject ends it.
  lemma ActiveStep(hmac: T.Hmac, db: Database, op: Op, uid: nat)
    ensures T.IsActive(After(hmac, db, op).totp, uid)
            <==> !IsReset(hmac, db, op, uid) && (Activates(hmac, db, op, uid) || T.IsActive(db.totp, uid))
    ensures T.IsActive(db.totp, uid) && !IsReset(hmac, db, op, uid) ==> Holds(After(hmac, db, op).totp, uid, db.totp.enrollments[uid].serial)
    ensures IsReset(hmac, db, op, uid) ==> uid !in After(hmac, db, op).totp.enrollments
  {
    if Apply(hmac, db, op).Ok? {
      HasEffect(hmac, db, op);
      ActiveStepIn(hmac, db.totp, op, Apply(hmac, db, op).value.totp, uid);
    }
  }

  lemma ActiveStepIn(hmac: T.Hmac, t: T.Tables, op: Op, next: T.Tables, uid: nat)
    requires TotpEffect(hmac, t, op, next)
    ensures var reset := op.Reset? && op.subject.uid == uid;
            var activated := op.Confirm? && op.subject.uid == uid && uid in t.enrollments && t.enrollments[uid].first.Some?;
            && (T.IsActive(next, uid) <==> !reset && (activated || T.IsActive(t, uid)))
            && (T.IsActive(t, uid) && !reset ==> Holds(next, uid, t.enrollments[uid].serial))
            && (reset ==> uid !in next.enrollments)
  {
  }

  // Serials are never used again, so an enrollment that is gone stays gone.
  lemma GoneStays(hmac: T.Hmac, db: Database, op: Op, uid: nat, serial: nat)
    requires serial < db.totp.inserted && (uid in db.totp.enrollments ==> db.totp.enrollments[uid].serial != serial)
    ensures var next := After(hmac, db, op).totp;
            serial < next.inserted && (uid in next.enrollments ==> next.enrollments[uid].serial != serial)
  {
    if Apply(hmac, db, op).Ok? {
      HasEffect(hmac, db, op);
      GoneStaysIn(hmac, db.totp, op, Apply(hmac, db, op).value.totp, uid, serial);
    }
  }

  lemma GoneStaysIn(hmac: T.Hmac, t: T.Tables, op: Op, next: T.Tables, uid: nat, serial: nat)
    requires TotpEffect(hmac, t, op, next) && serial < t.inserted
    requires uid in t.enrollments ==> t.enrollments[uid].serial != serial
    ensures serial < next.inserted && (uid in next.enrollments ==> next.enrollments[uid].serial != serial)
  {
  }

  /**
    An active enrollment is still there at the end of a run if and only if its subject did
    not reset it meanwhile, whatever else ran, restarts included.
   */
  lemma {:induction false} EnrollmentLastsUntilReset(hmac: T.Hmac, db: Database, ops: seq<Op>, uid: nat)
    requires Valid(hmac, db) && T.IsActive(db.totp, uid)
    ensures Holds(Run(hmac, db, ops).totp, uid, db.totp.enrollments[uid].serial) <==> !ResetDuring(hmac, db, ops, uid)
    ensures ResetDuring(hmac, db, ops, uid) ==>
              var end, serial := Run(hmac, db, ops).totp, db.totp.enrollments[uid].serial;
              serial < end.inserted && (uid in end.enrollments ==> end.enrollments[uid].serial != serial)
  {
    if ops != [] {
      var early, op := ops[..|ops| - 1], ops[|ops| - 1];
      EnrollmentLastsUntilReset(hmac, db, early, uid);
      var before := Run(hmac, db, early);
      if ResetDuring(hmac, db, early, uid) {
        GoneStays(hmac, before, op, uid, db.totp.enrollments[uid].serial);
      } else {
        RunKeeps(hmac, db, early);
        ActiveStep(hmac, before, op, uid);
        InsertedGrows(hmac, before, op);
      }
    }
  }

  lemma InsertedGrows(hmac: T.Hmac, db: Database, op: Op)
    ensures db.totp.inserted <= After(hmac, db, op).totp.inserted
  {
    if Apply(hmac, db, op).Ok? {
      HasEffect(hmac, db, op);
    }
  }

  // In a run from a fresh database the active enrollments can be told from its operations.
  lemma {:induction false} EnrolledIsActive(hmac: T.Hmac, ops: seq<Op>, uid: nat)
    ensures T.IsActive(Run(hmac, FRESH, ops).totp, uid) <==> Enrolled(hmac, ops, uid)
  {
    if ops != [] {
      EnrolledIsActive(hmac, ops[..|ops| - 1], uid);
      ActiveStep(hmac, Run(hmac, FRESH, ops[..|ops| - 1]), ops[|ops| - 1], uid);
    }
  }

  // ---------- The policy ----------

  ghost predicate SomeActive(t: T.Tables)
  {
    exists uid :: T.IsActive(t, uid)
  }

  ghost predicate Backed(db: Database)
  {
    db.policy != C.Disabled ==> SomeActive(db.totp)
  }

  // A commit that puts a policy other than disabled into force.
  predicate Enables(hmac: T.Hmac, db: Database, op: Op)
  {
    op.CommitPolicy? && Apply(hmac, db, op).Ok? && db.checks[op.ticket].target != C.Disabled
  }

  // Only a commit and a reset change the policy.
  lemma PolicyAfter(hmac: T.Hmac, db: Database, op: Op)
    ensures After(hmac, db, op).policy ==
              if op.CommitPolicy? && Apply(hmac, db, op).Ok? then db.checks[op.ticket].target
              else if op.Reset? && Apply(hmac, db, op).Ok? then C.Disabled
              else db.policy
    ensures op.CommitPolicy? ==> After(hmac, db, op).totp == db.totp
  {
  }

  /**
    One operation keeps the policy backed by an enrollment if and only if it is not a commit
    that enables a policy while no enrollment is active.
   */
  lemma BackedStep(hmac: T.Hmac, db: Database, op: Op)
    requires Backed(db)
    ensures Backed(After(hmac, db, op)) <==> (Enables(hmac, db, op) ==> SomeActive(db.totp))
  {
    PolicyAfter(hmac, db, op);
    if db.policy != C.Disabled && !op.Reset? && !op.CommitPolicy? {
      var uid :| T.IsActive(db.totp, uid);
      ActiveStep(hmac, db, op, uid);
    }
  }

  // The policy is backed after every operation of the run.
  ghost predicate BackedThroughout(hmac: T.Hmac, ops: seq<Op>)
  {
    Backed(Run(hmac, FRESH, ops)) && (ops == [] || BackedThroughout(hmac, ops[..|ops| - 1]))
  }

  // Every commit that enables a policy follows an activation that was not reset since.
  ghost predicate CommitsFollowEnrollments(hmac: T.Hmac, ops: seq<Op>)
  {
    ops == [] ||
    var early := ops[..|ops| - 1];
    && CommitsFollowEnrollments(hmac, early)
    && (Enables(hmac, Run(hmac, FRESH, early), ops[|ops| - 1]) ==> exists uid :: Enrolled(hmac, early, uid))
  }

  /**
    A policy other than disabled implies an active enrollment, throughout a run, if and only
    if every commit that enables a policy comes while some subject has activated an
    enrollment and not reset it.
   */
  lemma {:induction false} PolicyIsBackedExactly(hmac: T.Hmac, ops: seq<Op>)
    ensures BackedThroughout(hmac, ops) <==> CommitsFollowEnrollments(hmac, ops)
  {
    if ops != [] {
      var early := ops[..|ops| - 1];
      PolicyIsBackedExactly(hmac, early);
      if BackedThroughout(hmac, early) {
        BackedStep(hmac, Run(hmac, FRESH, early), ops[|ops| - 1]);
        forall uid
          ensures T.IsActive(Run(hmac, FRESH, early).totp, uid) <==> Enrolled(hmac, early, uid)
        {
          EnrolledIsActive(hmac, early, uid);
        }
      }
    }
  }

  // No other check is made under the ticket.
  predicate OwnTicket(ops: seq<Op>, ticket: nat)
  {
    forall i :: 0 <= i < |ops| ==> !(ops[i].CheckPolicy? && ops[i].ticket == ticket)
  }

  lemma {:induction false} CheckStays(hmac: T.Hmac, db: Database, ops: seq<Op>, ticket: nat)
    requires ticket in db.checks && OwnTicket(ops, ticket)
    ensures var end := Run(hmac, db, ops); ticket in end.checks ==> end.checks[ticket] == db.checks[ticket]
  {
    if ops != [] {
      CheckStays(hmac, db, ops[..|ops| - 1], ticket);
      assert ops[|ops| - 1].CheckPolicy? ==> ops[|ops| - 1].ticket != ticket;
      ChecksAfter(hmac, Run(hmac, db, ops[..|ops| - 1]), ops[|ops| - 1], ticket);
    }
  }

  lemma ChecksAfter(hmac: T.Hmac, db: Database, op: Op, ticket: nat)
    requires !(op.CheckPolicy? && op.ticket == ticket)
    ensures var next := After(hmac, db, op); ticket in next.checks ==> ticket in db.checks && next.checks[ticket] == db.checks[ticket]
  {
  }

  /**
    The commit that belongs to a check puts the checked target into force. If the subject did
    not reset their enrollment between the two the policy is backed; if they did, it is
    backed exactly when some enrollment is active again or still.
   */
  lemma CommitOfACheck(hmac: T.Hmac, db: Database, check: Op, ops: seq<Op>, commit: Op)
    requires Valid(hmac, db)
    requires check.CheckPolicy? && check.target != C.Disabled && Apply(hmac, db, check).Ok?
    requires commit.CommitPolicy? && commit.ticket == check.ticket && OwnTicket(ops, check.ticket)
    requires Apply(hmac, Run(hmac, After(hmac, db, check), ops), commit).Ok?
    ensures var checked := After(hmac, db, check);
            var before := Run(hmac, checked, ops);
            var after := After(hmac, before, commit);
            && after.policy == check.target
            && (!ResetDuring(hmac, checked, ops, check.subject.uid) ==> T.IsActive(after.totp, check.subject.uid) && Backed(after))
            && (ResetDuring(hmac, checked, ops, check.subject.uid) ==> (Backed(after) <==> SomeActive(before.totp)))
  {
    var checked := After(hmac, db, check);
    var before := Run(hmac, checked, ops);
    EnrollmentLastsUntilReset(hmac, checked, ops, check.subject.uid);
    CheckStays(hmac, checked, ops, check.ticket);
    PolicyAfter(hmac, before, commit);
  }

  // ---------- A run that needs the condition ----------

  // Codes that are their own step, and a time in step 2.
  const IDENTITY: T.Hmac := (secret: nat, step: int) => if step < 0 then 0 else step
  const NOW: T.Millis := 60_000
  const ADMIN := Subject(1, true, true)

  // An administrator enrolls, confirms, has a policy checked, resets, and commits it.
  const ENROLL := [
    IssueReauth(0, C.Binding(0, 1, C.TotpEnrollment, C.TotpV1), NOW),
    Begin(0, ADMIN, Token(0, true), 0, 0, {7}, NOW)]

  const CONFIRM := [
    Confirm(ADMIN, 0, Code(2, true), true, NOW),
    Confirm(ADMIN, 0, Code(3, true), true, NOW)]

  const CHECK := [
    IssueReauth(2, C.Binding(0, 1, C.SecurityPolicyChange, C.TargetPolicy(C.RiskyOperations)), NOW),
    CheckPolicy(0, ADMIN, C.RiskyOperations, true)]

  const RESET := [
    IssueReauth(1, C.Binding(0, 1, C.TotpRecoveryReset, C.TotpV1), NOW),
    Reset(0, ADMIN, Token(1, true), 7, NOW)]

  const COMMIT := [CommitPolicy(0, 0, Some(Token(2, true)), NOW)]

  lemma {:induction false} RunsJoin(hmac: T.Hmac, db: Database, ops: seq<Op>, more: seq<Op>)
    ensures Run(hmac, db, ops + more) == Run(hmac, Run(hmac, db, ops), more)
  {
    if more == [] {
      assert ops + more == ops;
    } else {
      RunsJoin(hmac, db, ops, more[..|more| - 1]);
      assert (ops + more)[..|ops + more| - 1] == ops + more[..|more| - 1];
    }
  }

  lemma Pair(hmac: T.Hmac, db: Database, ops: seq<Op>)
    requires |ops| == 2
    ensures Run(hmac, db, ops) == After(hmac, After(hmac, db, ops[0]), ops[1])
  {
    assert ops[..1][..0] == [];
    assert Run(hmac, db, ops[..1]) == After(hmac, db, ops[0]);
  }

  lemma Enrolling() returns (db: Database)
    ensures db == Run(IDENTITY, FRESH, ENROLL)
    ensures db.totp.enrollments == map[1 := T.Enrollment(0, 0, 0, T.Pending, None, None, 660_000, None)]
    ensures db.totp.recovery == map[1 := map[7 := None]] && db.totp.used == map[1 := map[]]
    ensures db.claims.reauth.Keys == {0} && db.checks == map[]
  {
    Pair(IDENTITY, FRESH, ENROLL);
    assert T.FreshCodes({7}) == map[7 := None];
    db := Run(IDENTITY, FRESH, ENROLL);
  }

  lemma Confirming(before: Database) returns (db: Database)
    requires before.totp.enrollments == map[1 := T.Enrollment(0, 0, 0, T.Pending, None, None, 660_000, None)]
    requires before.totp.used == map[1 := map[]]
    ensures db == Run(IDENTITY, before, CONFIRM)
    ensures T.IsActive(db.totp, 1) && db.totp.enrollments.Keys == {1}
    ensures db == before.(totp := db.totp) && db.totp.recovery == before.totp.recovery
  {
    Pair(IDENTITY, before, CONFIRM);
    assert T.MatchedStep(IDENTITY, 0, 2, NOW, None) == Ok(2);
    var one := After(IDENTITY, before, CONFIRM[0]);
    assert one.totp.enrollments == map[1 := T.Enrollment(0, 0, 0, T.Pending, Some(2), Some(2), 660_000, None)];
    assert T.MatchedStep(IDENTITY, 0, 3, NOW, Some(2)) == Ok(3);
    db := Run(IDENTITY, before, CONFIRM);
  }

  lemma Checking(before: Database) returns (db: Database)
    requires T.IsActive(before.totp, 1) && before.claims.reauth.Keys == {0}
    ensures db == Run(IDENTITY, before, CHECK)
    ensures db.totp == before.totp && 0 in db.checks && db.checks[0] == Check(1, C.RiskyOperations)
    ensures db.claims.reauth.Keys == {0, 2}
    ensures db.claims.reauth[2] == C.Reauth(C.Binding(0, 1, C.SecurityPolicyChange, C.TargetPolicy(C.RiskyOperations)), 360_000, None)
  {
    Pair(IDENTITY, before, CHECK);
    db := Run(IDENTITY, before, CHECK);
  }

  lemma Resetting(before: Database) returns (db: Database)
    requires before.totp.recovery == map[1 := map[7 := None]] && before.totp.enrollments.Keys == {1}
    requires before.claims.reauth.Keys == {0, 2}
    ensures db == Run(IDENTITY, before, RESET)
    ensures db.totp.enrollments == map[] && db.checks == before.checks
    ensures 2 in db.claims.reauth && db.claims.reauth[2] == before.claims.reauth[2]
  {
    Pair(IDENTITY, before, RESET);
    db := Run(IDENTITY, before, RESET);
  }

  lemma Committing(db: Database)
    requires db.totp.enrollments == map[] && 0 in db.checks && db.checks[0] == Check(1, C.RiskyOperations)
    requires 2 in db.claims.reauth
    requires db.claims.reauth[2] == C.Reauth(C.Binding(0, 1, C.SecurityPolicyChange, C.TargetPolicy(C.RiskyOperations)), 360_000, None)
    ensures !Backed(Run(IDENTITY, db, COMMIT))
  {
    assert COMMIT[..0] == [];
    assert Run(IDENTITY, db, COMMIT) == After(IDENTITY, db, COMMIT[0]);
  }

  lemma SetUp() returns (ops: seq<Op>, db: Database)
    ensures db == Run(IDENTITY, FRESH, ops)
    ensures T.IsActive(db.totp, 1) && db.totp.recovery == map[1 := map[7 := None]] && db.totp.enrollments.Keys == {1}
    ensures db.claims.reauth.Keys == {0} && db.checks == map[]
  {
    var enrolled := Enrolling();
    db := Confirming(enrolled);
    ops := ENROLL + CONFIRM;
    RunsJoin(IDENTITY, FRESH, ENROLL, CONFIRM);
  }

  // Without that condition a policy can be in force with no enrollment.
  lemma PolicyCanLoseItsEnrollment() returns (ops: seq<Op>)
    ensures !Backed(Run(IDENTITY, FRESH, ops))
  {
    var before, enrolled := SetUp();
    var checked := Checking(enrolled);
    var after := Resetting(checked);
    Committing(after);
    RunsJoin(IDENTITY, FRESH, before, CHECK);
    RunsJoin(IDENTITY, FRESH, before + CHECK, RESET);
    RunsJoin(IDENTITY, FRESH, before + CHECK + RESET, COMMIT);
    ops := before + CHECK + RESET + COMMIT;
  }
}
