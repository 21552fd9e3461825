/**
  What each transaction of the ledger means for its caller, in terms of the tables: exactly
  when it succeeds, what it spends, what is there or gone afterwards, and that the rest is
  as it was. Then, over runs, how long a claim that was issued can be used.
 */
module AuthOutcomes {
  import opened Wrappers
  import C = Claims
  import T = Totp
  import opened AuthLedger
  import AuthRuns

  // The claim was usable for exactly this binding, is consumed now, and no other row changed.
  predicate Spends(before: C.Tables, after: C.Tables, token: nat, binding: C.Binding, now: T.Millis)
  {
    && C.Usable(before, token, binding, now)
    && after.reauth == before.reauth[token := C.Reauth(binding, before.reauth[token].expires, Some(now))]
  }

  // The code can be accepted for this step: it stands for it, and the step is unused.
  predicate Acceptable(hmac: T.Hmac, t: T.Tables, uid: nat, code: nat, key: bool, now: T.Millis, step: int)
  {
    && uid in t.enrollments && key && T.SoundClock(now, t.enrollments[uid].last)
    && T.StandsFor(hmac, t.enrollments[uid].secret, code, now, step) && step !in T.UsedBy(t, uid)
  }

  // The step is used now; nothing else of the subject changed but its enrollment row, and
  // nothing of other subjects.
  predicate UsesUp(before: T.Tables, after: T.Tables, uid: nat, now: T.Millis, step: int)
  {
    && step !in T.UsedBy(before, uid) && T.UsedBy(after, uid) == T.UsedBy(before, uid)[step := now]
    && after.recovery == before.recovery && OthersStay(before, after, uid)
  }

  // Rows of other subjects are as they were.
  predicate OthersStay(before: T.Tables, after: T.Tables, uid: nat)
  {
    && after.enrollments - {uid} == before.enrollments - {uid}
    && after.used - {uid} == before.used - {uid}
    && after.recovery - {uid} == before.recovery - {uid}
  }

  // A consumed or expired claim can be used for nothing.
  lemma SpentIsUseless(before: C.Tables, after: C.Tables, token: nat, binding: C.Binding, now: T.Millis, other: C.Binding, later: T.Millis)
    requires Spends(before, after, token, binding, now)
    ensures !C.Usable(after, token, other, later)
  {
  }

  // ---------- Claims ----------

  /**
    A new claim can be used for its own binding, for five minutes, and for nothing else; a
    digest that exists is refused, and no other claim changes.
   */
  lemma IssueReauthOutcome(hmac: T.Hmac, db: Database, digest: nat, binding: C.Binding, now: T.Millis)
    ensures var r := Apply(hmac, db, IssueReauth(digest, binding, now));
            && (r.Err? <==> digest in db.claims.reauth)
            && (r.Ok? ==>
                  && (forall other, later :: C.Usable(r.value.claims, digest, other, later)
                                             <==> other == binding && later < Saturating(now + 300_000))
                  && r.value.claims.reauth - {digest} == db.claims.reauth
                  && r.value == db.(claims := db.claims.(reauth := r.value.claims.reauth)))
  {
    var r := Apply(hmac, db, IssueReauth(digest, binding, now));
    if r.Ok? {
      assert r.value.claims.reauth - {digest} == db.claims.reauth;
    }
  }

  // When the claims of a request can be consumed.
  predicate Consumable(db: Database, request: Consumption, now: T.Millis)
  {
    var binding := OperationBinding(request.session, request.uid, request.plan);
    && request.token.shaped && 0 < request.plan.length <= 128
    && C.Usable(db.claims, request.token.digest, binding, now)
    && (request.required <==> request.additional.Some?)
    && (request.additional.Some? ==>
          && request.additional.value.shaped
          && C.AdditionalUsable(db.claims, request.additional.value.digest, request.token.digest, binding, now))
  }

  /**
    Both claims or neither: the request succeeds exactly when all it names can be consumed,
    and then all of it is spent at once.
   */
  lemma ConsumeOutcome(hmac: T.Hmac, db: Database, request: Consumption, now: T.Millis)
    ensures var r := Apply(hmac, db, ConsumeOperation(request, now));
            && (r.Ok? <==> Consumable(db, request, now))
            // The first claim is judged first, and its error hides the second.
            && (r.Err? ==>
                  r.error == if !(request.token.shaped && 0 < request.plan.length <= 128
                                  && C.Usable(db.claims, request.token.digest, OperationBinding(request.session, request.uid, request.plan), now))
                             then Invalid else InvalidAdditional)
            && (r.Ok? ==>
                  && Spends(db.claims, r.value.claims, request.token.digest, OperationBinding(request.session, request.uid, request.plan), now)
                  && r.value == db.(claims := r.value.claims)
                  && (request.additional.None? ==> r.value.claims.additional == db.claims.additional)
                  && (request.additional.Some? ==>
                        var a := request.additional.value.digest;
                        r.value.claims.additional == db.claims.additional[a := db.claims.additional[a].(consumed := Some(now))]))
  {
  }

  // ---------- Enrollment ----------

  /**
    Beginning needs an administrator at the recovery console other than root, without an
    active enrollment, with a claim of its own and an id no one else has. It spends the
    claim and leaves a pending enrollment with nothing used and exactly the given recovery
    codes.
   */
  lemma BeginOutcome(hmac: T.Hmac, db: Database, session: nat, subject: Subject, token: Token, id: nat, secret: nat, codes: set<nat>, now: T.Millis)
    ensures var r, uid := Apply(hmac, db, Begin(session, subject, token, id, secret, codes, now)), subject.uid;
            var binding := C.Binding(session, uid, C.TotpEnrollment, C.TotpV1);
            && (r.Ok? <==>
                  && subject.admin && subject.recovery && uid != 0 && !T.IsActive(db.totp, uid)
                  && C.Usable(db.claims, token.digest, binding, now)
                  && (forall other :: other in db.totp.enrollments && other != uid ==> db.totp.enrollments[other].id != id))
            && (r.Ok? ==>
                  && Spends(db.claims, r.value.claims, token.digest, binding, now)
                  && r.value == db.(claims := r.value.claims, totp := r.value.totp)
                  && r.value.claims.additional == db.claims.additional
                  && NewEnrollment(r.value.totp, uid, id, secret, codes, now) && OthersStay(db.totp, r.value.totp, uid))
  {
    BeginWhen(hmac, db, session, subject, token, id, secret, codes, now);
    if Apply(hmac, db, Begin(session, subject, token, id, secret, codes, now)).Ok? {
      InsertLeavesOthers(db.totp, subject.uid, id, secret, codes, now);
    }
  }

  // A pending row, nothing used, and the recovery codes, all unused.
  predicate NewEnrollment(t: T.Tables, uid: nat, id: nat, secret: nat, codes: set<nat>, now: T.Millis)
  {
    && uid in t.enrollments && uid in t.recovery && T.UsedBy(t, uid) == map[]
    && var row := t.enrollments[uid];
    && row.id == id && row.secret == secret && row.phase == T.Pending
    && row.first.None? && row.last.None? && row.activated.None? && row.expires == Saturating(now + 600_000)
    && t.recovery[uid].Keys == codes && forall code :: code in codes ==> t.recovery[uid][code].None?
  }

  lemma BeginWhen(hmac: T.Hmac, db: Database, session: nat, subject: Subject, token: Token, id: nat, secret: nat, codes: set<nat>, now: T.Millis)
    ensures Apply(hmac, db, Begin(session, subject, token, id, secret, codes, now)).Ok? <==>
              && subject.admin && subject.recovery && subject.uid != 0 && !T.IsActive(db.totp, subject.uid)
              && C.Usable(db.claims, token.digest, C.Binding(session, subject.uid, C.TotpEnrollment, C.TotpV1), now)
              && (forall other :: other in db.totp.enrollments && other != subject.uid ==> db.totp.enrollments[other].id != id)
  {
  }

  lemma InsertLeavesOthers(t: T.Tables, uid: nat, id: nat, secret: nat, codes: set<nat>, now: T.Millis)
    requires T.Insert(t, uid, id, secret, codes, now).Ok?
    ensures var next := T.Insert(t, uid, id, secret, codes, now).value;
            NewEnrollment(next, uid, id, secret, codes, now) && OthersStay(t, next, uid)
  {
  }

  // A code for the next confirmation: any first one, then the one of the very next step.
  predicate Confirms(row: T.Enrollment, id: nat, now: T.Millis, step: int)
  {
    row.id == id && row.phase == T.Pending && now < row.expires && (row.first.Some? ==> step == Saturating(row.first.value + 1))
  }

  /**
    A confirmation succeeds exactly for an administrator at the recovery console, before the
    enrollment expires, with an acceptable code, the second time for the step right after
    the first. It uses up the step; the first keeps the enrollment pending, the second
    activates it.
   */
  lemma ConfirmOutcome(hmac: T.Hmac, db: Database, subject: Subject, id: nat, code: Code, key: bool, now: T.Millis)
    ensures var r, uid := Apply(hmac, db, Confirm(subject, id, code, key, now)), subject.uid;
            && (r.Ok? <==>
                  && subject.admin && subject.recovery && code.shaped
                  && exists step :: Acceptable(hmac, db.totp, uid, code.value, key, now, step) && Confirms(db.totp.enrollments[uid], id, now, step))
            && (r.Ok? ==>
                  && r.value == db.(totp := r.value.totp)
                  && exists step ::
                       && Acceptable(hmac, db.totp, uid, code.value, key, now, step) && Confirms(db.totp.enrollments[uid], id, now, step)
                       && UsesUp(db.totp, r.value.totp, uid, now, step)
                       && uid in r.value.totp.enrollments
                       && ConfirmedRow(db.totp.enrollments[uid], r.value.totp.enrollments[uid], now, step))
  {
    if subject.uid in db.totp.enrollments {
      var row := db.totp.enrollments[subject.uid];
      T.MatchIsExact(hmac, row.secret, code.value, now, row.last);
      if Apply(hmac, db, Confirm(subject, id, code, key, now)).Ok? {
        ConfirmWrites(hmac, db.totp, subject.uid, id, code.value, key, now);
        var step := T.MatchedStep(hmac, row.secret, code.value, now, row.last).value;
        assert Acceptable(hmac, db.totp, subject.uid, code.value, key, now, step) && Confirms(row, id, now, step);
      }
    }
  }

  // The first confirmation is remembered, the second activates; nothing else but the last step changes.
  predicate ConfirmedRow(before: T.Enrollment, after: T.Enrollment, now: T.Millis, step: int)
  {
    after == if before.first.None? then before.(first := Some(step), last := after.last)
             else before.(phase := T.Active, activated := Some(now), last := after.last)
  }

  lemma ConfirmWrites(hmac: T.Hmac, t: T.Tables, uid: nat, id: nat, code: nat, key: bool, now: T.Millis)
    requires T.Confirm(hmac, t, uid, id, code, now, key).Ok?
    ensures var next, step := T.Confirm(hmac, t, uid, id, code, now, key).value,
                              T.MatchedStep(hmac, t.enrollments[uid].secret, code, now, t.enrollments[uid].last).value;
            && UsesUp(t, next, uid, now, step) && uid in next.enrollments && ConfirmedRow(t.enrollments[uid], next.enrollments[uid], now, step)
  {
  }

  // ---------- Verification ----------

  // An active enrollment accepts the code for this step.
  predicate Verifiable(hmac: T.Hmac, t: T.Tables, uid: nat, code: Code, key: bool, now: T.Millis, step: int)
  {
    T.IsActive(t, uid) && code.shaped && Acceptable(hmac, t, uid, code.value, key, now, step)
  }

  lemma VerifyWhen(hmac: T.Hmac, t: T.Tables, uid: nat, code: Code, key: bool, now: T.Millis)
    ensures var r := T.Verify(hmac, t, uid, code.value, now, key);
            && (code.shaped && r.Ok? <==> exists step :: Verifiable(hmac, t, uid, code, key, now, step))
            && (r.Ok? ==> exists step :: VerifiedBy(hmac, t, r.value, uid, code.value, key, now, step))
  {
    if T.IsActive(t, uid) {
      var row := t.enrollments[uid];
      T.MatchIsExact(hmac, row.secret, code.value, now, row.last);
      if T.Verify(hmac, t, uid, code.value, now, key).Ok? {
        VerifyWrites(hmac, t, uid, code.value, key, now);
        var step := T.MatchedStep(hmac, row.secret, code.value, now, row.last).value;
        assert code.shaped ==> Verifiable(hmac, t, uid, code, key, now, step);
      }
    }
  }

  // The step of the code is used up, and only the last step of the row changes.
  predicate VerifiedBy(hmac: T.Hmac, before: T.Tables, after: T.Tables, uid: nat, code: nat, key: bool, now: T.Millis, step: int)
  {
    && T.IsActive(before, uid) && Acceptable(hmac, before, uid, code, key, now, step)
    && UsesUp(before, after, uid, now, step)
    && uid in after.enrollments && after.enrollments[uid] == before.enrollments[uid].(last := after.enrollments[uid].last)
  }

  lemma VerifyWrites(hmac: T.Hmac, t: T.Tables, uid: nat, code: nat, key: bool, now: T.Millis)
    requires T.Verify(hmac, t, uid, code, now, key).Ok?
    ensures var step := T.MatchedStep(hmac, t.enrollments[uid].secret, code, now, t.enrollments[uid].last).value;
            VerifiedBy(hmac, t, T.Verify(hmac, t, uid, code, now, key).value, uid, code, key, now, step)
  {
    T.MatchIsExact(hmac, t.enrollments[uid].secret, code, now, t.enrollments[uid].last);
  }

  /**
    A direct verification succeeds exactly for an active enrollment and a well-formed code
    that stands for an unused step by a sound clock, and uses up that step.
   */
  lemma VerifyOutcome(hmac: T.Hmac, db: Database, uid: nat, length: nat, code: Code, key: bool, now: T.Millis)
    ensures var r := Apply(hmac, db, VerifyDirect(uid, length, code, key, now));
            && (r.Ok? <==> 0 < length <= 128 && exists step :: Verifiable(hmac, db.totp, uid, code, key, now, step))
            && (r.Ok? ==>
                  && r.value == db.(totp := r.value.totp)
                  && exists step :: VerifiedBy(hmac, db.totp, r.value.totp, uid, code.value, key, now, step))
  {
    VerifyWhen(hmac, db.totp, uid, code, key, now);
  }

  /**
    Why a direct verification is refused, in the order of its checks. A code that stands for a
    step which was used is told apart from one that stands for none.
   */
  lemma VerifyRefusal(hmac: T.Hmac, db: Database, uid: nat, length: nat, code: Code, key: bool, now: T.Millis)
    ensures var r := Apply(hmac, db, VerifyDirect(uid, length, code, key, now));
            r.Err? ==>
              r.error == Provider(
                           if !code.shaped then T.InvalidCode
                           else if !(0 < length <= 128) then T.InvalidClaim
                           else if !T.IsActive(db.totp, uid) then T.NotConfigured
                           else if !key then T.KeyUnavailable
                           else if !T.SoundClock(now, db.totp.enrollments[uid].last) then T.ClockRollback
                           else if exists step :: T.StandsFor(hmac, db.totp.enrollments[uid].secret, code.value, now, step) then T.Replay
                           else T.InvalidCode)
  {
    if T.IsActive(db.totp, uid) {
      var row := db.totp.enrollments[uid];
      T.MatchIsExact(hmac, row.secret, code.value, now, row.last);
      var matched := T.MatchedStep(hmac, row.secret, code.value, now, row.last);
      assert matched.Ok? && T.SoundClock(now, row.last) ==> T.StandsFor(hmac, row.secret, code.value, now, matched.value);
    }
  }

  /**
    An additional claim is issued exactly beside a usable operation claim of the same
    session, subject and plan, for a code that is verified and used up by it. The operation
    claim is not spent.
   */
  lemma IssueAdditionalOutcome(
      hmac: T.Hmac, db: Database, session: nat, uid: nat, token: Token, plan: Plan, code: Code, key: bool, additional: nat, now: T.Millis)
    ensures var r, binding := Apply(hmac, db, IssueAdditional(session, uid, token, plan, code, key, additional, now)), OperationBinding(session, uid, plan);
            && (r.Ok? <==>
                  && 0 < plan.length <= 128 && C.Usable(db.claims, token.digest, binding, now) && additional !in db.claims.additional
                  && exists step :: Verifiable(hmac, db.totp, uid, code, key, now, step))
            && (r.Ok? ==>
                  && r.value == db.(claims := db.claims.(additional := r.value.claims.additional), totp := r.value.totp)
                  && r.value.claims.additional - {additional} == db.claims.additional
                  && exists step :: VerifiedBy(hmac, db.totp, r.value.totp, uid, code.value, key, now, step))
  {
    VerifyWhen(hmac, db.totp, uid, code, key, now);
    var r := Apply(hmac, db, IssueAdditional(session, uid, token, plan, code, key, additional, now));
    if r.Ok? {
      assert r.value.claims.additional - {additional} == db.claims.additional;
    }
  }

  /**
    A new additional claim can be used beside its own operation claim, for its own session,
    subject and plan, for five minutes, and for nothing else.
   */
  lemma AdditionalIsUsable(
      hmac: T.Hmac, db: Database, session: nat, uid: nat, token: Token, plan: Plan, code: Code, key: bool, additional: nat, now: T.Millis)
    requires Apply(hmac, db, IssueAdditional(session, uid, token, plan, code, key, additional, now)).Ok?
    ensures var next := Apply(hmac, db, IssueAdditional(session, uid, token, plan, code, key, additional, now)).value;
            forall reauth, binding, later ::
              C.AdditionalUsable(next.claims, additional, reauth, binding, later)
              <==> reauth == token.digest && binding == OperationBinding(session, uid, plan) && later < Saturating(now + 300_000)
  {
  }

  // ---------- Reset, policy, restart ----------

  predicate Unused(t: T.Tables, uid: nat, recovery: nat)
  {
    uid in t.recovery && recovery in t.recovery[uid] && t.recovery[uid][recovery].None?
  }

  /**
    A reset needs an unused recovery code and a claim of its own, and removes together
    everything the subject had: enrollment, used steps, recovery codes, additional claims,
    and the policy. The rows of other subjects stay.
   */
  lemma ResetOutcome(hmac: T.Hmac, db: Database, session: nat, subject: Subject, token: Token, recovery: nat, now: T.Millis)
    ensures var r, uid := Apply(hmac, db, Reset(session, subject, token, recovery, now)), subject.uid;
            var binding := C.Binding(session, uid, C.TotpRecoveryReset, C.TotpV1);
            && (r.Ok? <==> subject.admin && subject.recovery && C.Usable(db.claims, token.digest, binding, now) && Unused(db.totp, uid, recovery))
            && (r.Ok? ==>
                  && uid !in r.value.totp.enrollments && uid !in r.value.totp.used && uid !in r.value.totp.recovery
                  && (forall a :: a in r.value.claims.additional <==> a in db.claims.additional && db.claims.additional[a].binding.uid != uid)
                  && (forall a :: a in r.value.claims.additional ==> r.value.claims.additional[a] == db.claims.additional[a])
                  && r.value.policy == C.Disabled && r.value.checks == db.checks
                  && Spends(db.claims, r.value.claims, token.digest, binding, now)
                  && OthersStay(db.totp, r.value.totp, uid))
  {
  }

  /**
    A check passes exactly for an administrator whose provider is ready, or who disables the
    policy. It leaves every table as it is, and whatever commits it at once leaves the policy
    backed by an enrollment.
   */
  lemma CheckOutcome(hmac: T.Hmac, db: Database, ticket: nat, subject: Subject, target: C.Policy, key: bool, commit: Op)
    ensures var r := Apply(hmac, db, CheckPolicy(ticket, subject, target, key));
            && (r.Ok? <==> subject.admin && (target == C.Disabled || (T.IsActive(db.totp, subject.uid) && key)))
            && (r.Ok? ==>
                  && r.value == db.(checks := db.checks[ticket := Check(subject.uid, target)])
                  && (commit.CommitPolicy? && commit.ticket == ticket && Apply(hmac, r.value, commit).Ok? ==>
                        Apply(hmac, r.value, commit).value.policy == target && AuthRuns.Backed(Apply(hmac, r.value, commit).value)))
  {
    var r := Apply(hmac, db, CheckPolicy(ticket, subject, target, key));
    if r.Ok? {
      AuthRuns.PolicyAfter(hmac, r.value, commit);
      assert target != C.Disabled ==> T.IsActive(r.value.totp, subject.uid);
    }
  }

  /**
    The policy changes exactly by spending a claim for that very target, by the subject whose
    check passed, once per check.
   */
  lemma CommitOutcome(hmac: T.Hmac, db: Database, ticket: nat, session: nat, presented: Option<Token>, now: T.Millis)
    ensures var r := Apply(hmac, db, CommitPolicy(ticket, session, presented, now));
            && (r.Ok? <==>
                  && ticket in db.checks && presented.Some? && presented.value.shaped
                  && C.Usable(db.claims, presented.value.digest, PolicyBinding(session, db.checks[ticket]), now))
            && (r.Ok? ==>
                  && r.value == db.(claims := db.claims.(reauth := r.value.claims.reauth, uses := r.value.claims.uses),
                                    policy := db.checks[ticket].target, checks := r.value.checks)
                  && Spends(db.claims, r.value.claims, presented.value.digest, PolicyBinding(session, db.checks[ticket]), now)
                  && r.value.checks == db.checks - {ticket})
  {
  }

  function PolicyBinding(session: nat, check: Check): C.Binding
  {
    C.Binding(session, check.uid, C.SecurityPolicyChange, C.TargetPolicy(check.target))
  }

  /**
    After a restart no additional claim is consumed or expired and no pending enrollment is
    expired; everything else survives it unchanged, but for the checks in flight.
   */
  lemma RestartOutcome(hmac: T.Hmac, db: Database, now: T.Millis)
    ensures var next := After(hmac, db, Restart(now));
            && (forall a :: a in next.claims.additional <==>
                  a in db.claims.additional && db.claims.additional[a].consumed.None? && now < db.claims.additional[a].expires)
            && (forall a :: a in next.claims.additional ==> next.claims.additional[a] == db.claims.additional[a])
            && (forall uid :: uid in next.totp.enrollments <==>
                  uid in db.totp.enrollments && (db.totp.enrollments[uid].phase == T.Active || now < db.totp.enrollments[uid].expires))
            && (forall uid :: uid in next.totp.enrollments ==>
                  && next.totp.enrollments[uid] == db.totp.enrollments[uid]
                  && T.UsedBy(next.totp, uid) == T.UsedBy(db.totp, uid)
                  && (uid in db.totp.recovery ==> uid in next.totp.recovery && next.totp.recovery[uid] == db.totp.recovery[uid]))
            && next.claims.reauth == db.claims.reauth && next.policy == db.policy && next.checks == map[]
  {
  }

  // ---------- The life of a claim ----------

  // The operation succeeds and spends this reauth claim.
  predicate Takes(hmac: T.Hmac, db: Database, op: Op, digest: nat)
  {
    && Apply(hmac, db, op).Ok?
    && match op
       case ConsumeOperation(request, _) => request.token.digest == digest
       case CommitPolicy(_, _, presented, _) => presented.Some? && presented.value.digest == digest
       case Begin(_, _, token, _, _, _, _) => token.digest == digest
       case Reset(_, _, token, _, _) => token.digest == digest
       case _ => false
  }

  predicate TakenDuring(hmac: T.Hmac, db: Database, ops: seq<Op>, digest: nat)
  {
    ops != [] &&
    (TakenDuring(hmac, db, ops[..|ops| - 1], digest) || Takes(hmac, Run(hmac, db, ops[..|ops| - 1]), ops[|ops| - 1], digest))
  }

  lemma ClaimStep(hmac: T.Hmac, db: Database, op: Op, digest: nat)
    requires digest in db.claims.reauth
    ensures var next := After(hmac, db, op);
            && digest in next.claims.reauth
            && next.claims.reauth[digest].binding == db.claims.reauth[digest].binding
            && next.claims.reauth[digest].expires == db.claims.reauth[digest].expires
            && (next.claims.reauth[digest].consumed.None? <==> db.claims.reauth[digest].consumed.None? && !Takes(hmac, db, op, digest))
  {
  }

  lemma {:induction false} ClaimRun(hmac: T.Hmac, db: Database, ops: seq<Op>, digest: nat)
    requires digest in db.claims.reauth && db.claims.reauth[digest].consumed.None?
    ensures var end := Run(hmac, db, ops);
            && digest in end.claims.reauth
            && end.claims.reauth[digest].binding == db.claims.reauth[digest].binding
            && end.claims.reauth[digest].expires == db.claims.reauth[digest].expires
            && (end.claims.reauth[digest].consumed.None? <==> !TakenDuring(hmac, db, ops, digest))
  {
    if ops != [] {
      ClaimRun(hmac, db, ops[..|ops| - 1], digest);
      ClaimStep(hmac, Run(hmac, db, ops[..|ops| - 1]), ops[|ops| - 1], digest);
    }
  }

  /**
    Whatever runs after a claim was issued, restarts and resets included: the claim can be
    used exactly for its own binding, until its five minutes are over, as long as no
    operation has spent it.
   */
  lemma ClaimLives(hmac: T.Hmac, db: Database, digest: nat, binding: C.Binding, now: T.Millis, ops: seq<Op>, other: C.Binding, later: T.Millis)
    requires Apply(hmac, db, IssueReauth(digest, binding, now)).Ok?
    ensures var issued := After(hmac, db, IssueReauth(digest, binding, now));
            C.Usable(Run(hmac, issued, ops).claims, digest, other, later)
            <==> other == binding && later < Saturating(now + 300_000) && !TakenDuring(hmac, issued, ops, digest)
  {
    ClaimRun(hmac, After(hmac, db, IssueReauth(digest, binding, now)), ops, digest);
  }

  // The operation ends the additional claim: it spends it, resets its subject, or deletes
  // it as expired.
  predicate Ends(hmac: T.Hmac, db: Database, op: Op, additional: nat)
  {
    && Apply(hmac, db, op).Ok? && additional in db.claims.additional
    && match op
       case ConsumeOperation(request, _) => request.additional.Some? && request.additional.value.digest == additional
       case Reset(_, subject, _, _, _) => db.claims.additional[additional].binding.uid == subject.uid
       case Restart(now) => db.claims.additional[additional].expires <= now
       case _ => false
  }

  predicate EndedDuring(hmac: T.Hmac, db: Database, ops: seq<Op>, additional: nat)
  {
    ops != [] &&
    (EndedDuring(hmac, db, ops[..|ops| - 1], additional) || Ends(hmac, Run(hmac, db, ops[..|ops| - 1]), ops[|ops| - 1], additional))
  }

  // An open additional claim stays as it is until an operation ends it, and no longer.
  lemma AdditionalStep(hmac: T.Hmac, db: Database, op: Op, additional: nat)
    requires additional in db.claims.additional && db.claims.additional[additional].consumed.None?
    ensures var next := After(hmac, db, op).claims.additional;
            if Ends(hmac, db, op, additional) then additional in next ==> next[additional].consumed.Some?
            else additional in next && next[additional] == db.claims.additional[additional]
  {
  }

  lemma {:induction false} AdditionalRun(hmac: T.Hmac, db: Database, ops: seq<Op>, additional: nat)
    requires additional in db.claims.additional && db.claims.additional[additional].consumed.None?
    requires !EndedDuring(hmac, db, ops, additional)
    ensures var end := Run(hmac, db, ops).claims.additional;
            additional in end && end[additional] == db.claims.additional[additional]
  {
    if ops != [] {
      AdditionalRun(hmac, db, ops[..|ops| - 1], additional);
      AdditionalStep(hmac, Run(hmac, db, ops[..|ops| - 1]), ops[|ops| - 1], additional);
    }
  }

  /**
    End to end: an operation claim and the additional claim issued beside it can be consumed
    together, whatever ran since, exactly until the first of them expires, as long as
    neither was spent and the additional claim was not ended otherwise.
   */
  lemma PairIsConsumable(hmac: T.Hmac, db: Database, session: nat, uid: nat, token: Token, plan: Plan, code: Code, key: bool,
                         additional: nat, now: T.Millis, ops: seq<Op>, later: T.Millis)
    requires Apply(hmac, db, IssueAdditional(session, uid, token, plan, code, key, additional, now)).Ok? && token.shaped
    requires var issued := After(hmac, db, IssueAdditional(session, uid, token, plan, code, key, additional, now));
             !EndedDuring(hmac, issued, ops, additional)
    ensures var issued := After(hmac, db, IssueAdditional(session, uid, token, plan, code, key, additional, now));
            var request := Consumption(session, uid, plan, token, Some(Token(additional, true)), true);
            Apply(hmac, Run(hmac, issued, ops), ConsumeOperation(request, later)).Ok?
            <==> later < Saturating(now + 300_000) && later < db.claims.reauth[token.digest].expires && !TakenDuring(hmac, issued, ops, token.digest)
  {
    IssueAdditionalOutcome(hmac, db, session, uid, token, plan, code, key, additional, now);
    AdditionalIsUsable(hmac, db, session, uid, token, plan, code, key, additional, now);
    var issued := After(hmac, db, IssueAdditional(session, uid, token, plan, code, key, additional, now));
    ClaimRun(hmac, issued, ops, token.digest);
    AdditionalRun(hmac, issued, ops, additional);
    PairRows(issued, Run(hmac, issued, ops), session, uid, token, plan, additional, later);
    ConsumeOutcome(hmac, Run(hmac, issued, ops), Consumption(session, uid, plan, token, Some(Token(additional, true)), true), later);
  }

  lemma PairRows(issued: Database, end: Database, session: nat, uid: nat, token: Token, plan: Plan, additional: nat, later: T.Millis)
    requires token.digest in issued.claims.reauth && token.digest in end.claims.reauth && token.shaped && GoodPlan(plan)
    requires end.claims.reauth[token.digest].binding == issued.claims.reauth[token.digest].binding == OperationBinding(session, uid, plan)
    requires end.claims.reauth[token.digest].expires == issued.claims.reauth[token.digest].expires
    requires additional in issued.claims.additional && additional in end.claims.additional
    requires end.claims.additional[additional] == issued.claims.additional[additional]
    requires issued.claims.additional[additional].reauth == token.digest && issued.claims.additional[additional].consumed.None?
    requires issued.claims.additional[additional].binding == OperationBinding(session, uid, plan)
    ensures Consumable(end, Consumption(session, uid, plan, token, Some(Token(additional, true)), true), later)
            <==> later < issued.claims.additional[additional].expires && later < issued.claims.reauth[token.digest].expires
                 && end.claims.reauth[token.digest].consumed.None?
  {
  }
}
