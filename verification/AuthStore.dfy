/**
  The ledger as the service runs it: a transaction works on a copy of the database, one
  statement after the other, and the copy replaces the database when it commits. An error
  on the way drops the copy.
 */
module AuthStore {
  import opened Wrappers
  import C = Claims
  import T = Totp
  import opened AuthLedger
  import AuthRuns
  import opened AuthOutcomes

  // What the caller sees of a transaction.
  function Outcome(r: Result<Database, Error>): Result<(), Error>
  {
    if r.Ok? then Ok(()) else Err(r.error)
  }

  class Store {
    const hmac: T.Hmac
    var db: Database
    ghost var ops: seq<Op>

    // The database is what the operations so far make of a fresh one.
    ghost predicate Valid()
      reads this
    {
      AuthRuns.Reached(hmac, ops, db)
    }

    constructor (hmac: T.Hmac)
      ensures Valid() && this.hmac == hmac && db == FRESH
    {
      this.hmac := hmac;
      db := FRESH;
      ops := [];
    }

    // The operation was applied, or refused with the database unchanged.
    twostate predicate Did(op: Op, new r: Result<(), Error>)
      reads this
    {
      && Valid() && ops == old(ops) + [op]
      && r == Outcome(Apply(hmac, old(db), op))
      && db == After(hmac, old(db), op)
      && (r.Err? ==> db == old(db))
    }

    // Installs the outcome of a transaction.
    method Finish(op: Op, tx: Result<Database, Error>) returns (r: Result<(), Error>)
      requires Valid() && tx == Apply(hmac, db, op)
      modifies this
      ensures Did(op, r)
    {
      Snoc(hmac, FRESH, ops, op);
      ops := ops + [op];
      r := Outcome(tx);
      if tx.Ok? {
        db := tx.value;
      }
    }

    method ConsumeOperationClaims(request: Consumption, now: T.Millis) returns (r: Result<(), Error>)
      requires Valid()
      modifies this
      ensures Did(ConsumeOperation(request, now), r)
      ensures r.Ok? <==> Consumable(old(db), request, now)
      ensures r.Ok? ==>
                && Spends(old(db.claims), db.claims, request.token.digest, OperationBinding(request.session, request.uid, request.plan), now)
                && (request.additional.Some? ==>
                      var a := request.additional.value.digest;
                      a in db.claims.additional && db.claims.additional[a].consumed == Some(now))
    {
      ConsumeOutcome(hmac, db, request, now);
      var tx := ConsumeTransaction(request, now);
      r := Finish(ConsumeOperation(request, now), tx);
    }

    method ConsumeTransaction(request: Consumption, now: T.Millis) returns (r: Result<Database, Error>)
      ensures r == Consumed(db, request, now)
    {
      if !request.token.shaped || request.plan.length == 0 || request.plan.length > MAX_CONTEXT {
        return Err(Invalid);
      }
      var tx := db;
      var binding := OperationBinding(request.session, request.uid, request.plan);
      var changed := C.ConsumeReauth(tx.claims, request.token.digest, binding, now, Beside(request));
      if changed.None? {
        return Err(Invalid);
      }
      tx := tx.(claims := changed.value);
      match (request.required, request.additional) {
        case (false, None) =>
        case (false, Some(_)) => return Err(InvalidAdditional);
        case (true, None) => return Err(InvalidAdditional);
        case (true, Some(claim)) =>
          if !claim.shaped {
            return Err(InvalidAdditional);
          }
          var consumed := C.ConsumeAdditional(tx.claims, claim.digest, request.token.digest, binding, now);
          if consumed.None? {
            return Err(InvalidAdditional);
          }
          tx := tx.(claims := consumed.value);
      }
      return Ok(tx);
    }

    // Reserves the step of a code in a transaction: the matched step, and the tables with it.
    method MatchAndReserve(t: T.Tables, uid: nat, enrollment: T.Enrollment, code: nat, now: T.Millis)
      returns (r: Result<(int, T.Tables), T.Error>)
      ensures match T.MatchedStep(hmac, enrollment.secret, code, now, enrollment.last)
              case Err(error) => r == Err(error)
              case Ok(step) =>
                match T.Reserve(t, uid, enrollment, code, step, now)
                case Err(error) => r == Err(error)
                case Ok(next) => r == Ok((step, next))
    {
      var matched := T.MatchStep(hmac, enrollment.secret, code, now, enrollment.last);
      if matched.Err? {
        return Err(matched.error);
      }
      var reserved := T.Reserve(t, uid, enrollment, code, matched.value, now);
      if reserved.Err? {
        return Err(reserved.error);
      }
      return Ok((matched.value, reserved.value));
    }

    method ConfirmEnrollment(subject: Subject, id: nat, code: Code, key: bool, now: T.Millis) returns (r: Result<(), Error>)
      requires Valid()
      modifies this
      ensures Did(Confirm(subject, id, code, key, now), r)
      ensures r.Ok? <==>
                && subject.admin && subject.recovery && code.shaped
                && exists step :: Acceptable(hmac, old(db.totp), subject.uid, code.value, key, now, step)
                                  && Confirms(old(db.totp).enrollments[subject.uid], id, now, step)
      ensures r.Ok? ==>
                && (exists step :: UsesUp(old(db.totp), db.totp, subject.uid, now, step))
                && (T.IsActive(db.totp, subject.uid) <==> AuthRuns.Activates(hmac, old(db), Confirm(subject, id, code, key, now), subject.uid))
    {
      ConfirmOutcome(hmac, db, subject, id, code, key, now);
      AuthRuns.ActiveStep(hmac, db, Confirm(subject, id, code, key, now), subject.uid);
      var tx := ConfirmTransaction(subject, id, code, key, now);
      r := Finish(Confirm(subject, id, code, key, now), tx);
    }

    method ConfirmTransaction(subject: Subject, id: nat, code: Code, key: bool, now: T.Millis) returns (r: Result<Database, Error>)
      ensures r == Confirmed(hmac, db, subject, id, code, key, now)
    {
      if !subject.recovery || !subject.admin {
        return Err(Denied);
      }
      if !code.shaped {
        return Err(Provider(T.InvalidCode));
      }
      var tx, uid := db.totp, subject.uid;
      if uid !in tx.enrollments || tx.enrollments[uid].id != id || tx.enrollments[uid].phase != T.Pending {
        return Err(Provider(T.NotConfigured));
      }
      var record := tx.enrollments[uid];
      if record.expires <= now {
        return Err(Provider(T.EnrollmentExpired));
      }
      if !key {
        return Err(Provider(T.KeyUnavailable));
      }
      var reserved := MatchAndReserve(tx, uid, record, code.value, now);
      if reserved.Err? {
        return Err(Provider(reserved.error));
      }
      var step := reserved.value.0;
      tx := reserved.value.1;
      match record.first {
        case None =>
          record := record.(first := Some(step), last := T.Max(record.last, step));
        case Some(first) =>
          if step != Saturating(first + 1) {
            return Err(Provider(T.InvalidCode));
          }
          record := record.(phase := T.Active, activated := Some(now), last := T.Max(record.last, step));
      }
      tx := tx.(enrollments := tx.enrollments[uid := record]);
      return Ok(db.(totp := tx));
    }

    method IssueOperationClaim(session: nat, uid: nat, token: Token, plan: Plan, code: Code, key: bool, additional: nat, now: T.Millis)
      returns (r: Result<(), Error>)
      requires Valid()
      modifies this
      ensures Did(IssueAdditional(session, uid, token, plan, code, key, additional, now), r)
      ensures r.Ok? <==>
                && 0 < plan.length <= 128 && C.Usable(old(db.claims), token.digest, OperationBinding(session, uid, plan), now)
                && additional !in old(db.claims.additional)
                && exists step :: Verifiable(hmac, old(db.totp), uid, code, key, now, step)
      ensures r.Ok? ==>
                && (exists step :: VerifiedBy(hmac, old(db.totp), db.totp, uid, code.value, key, now, step))
                && (forall reauth, binding, later :: C.AdditionalUsable(db.claims, additional, reauth, binding, later)
                      <==> reauth == token.digest && binding == OperationBinding(session, uid, plan) && later < Saturating(now + 300_000))
    {
      IssueAdditionalOutcome(hmac, db, session, uid, token, plan, code, key, additional, now);
      if Apply(hmac, db, IssueAdditional(session, uid, token, plan, code, key, additional, now)).Ok? {
        AdditionalIsUsable(hmac, db, session, uid, token, plan, code, key, additional, now);
      }
      var tx := IssueTransaction(session, uid, token, plan, code, key, additional, now);
      r := Finish(IssueAdditional(session, uid, token, plan, code, key, additional, now), tx);
    }

    method IssueTransaction(session: nat, uid: nat, token: Token, plan: Plan, code: Code, key: bool, additional: nat, now: T.Millis)
      returns (r: Result<Database, Error>)
      ensures r == Issued(hmac, db, session, uid, token, plan, code, key, additional, now)
    {
      if !code.shaped {
        return Err(Provider(T.InvalidCode));
      }
      if plan.length == 0 || plan.length > MAX_CONTEXT {
        return Err(Provider(T.InvalidClaim));
      }
      var binding := OperationBinding(session, uid, plan);
      if !C.Usable(db.claims, token.digest, binding, now) {
        return Err(Provider(T.InvalidClaim));
      }
      var verified := VerifyCode(uid, code.value, key, now);
      if verified.Err? {
        return Err(Provider(verified.error));
      }
      var inserted := C.IssueAdditional(db.claims, additional, token.digest, binding, now);
      if inserted.None? {
        return Err(Provider(T.Storage));
      }
      return Ok(db.(claims := inserted.value, totp := verified.value));
    }

    // Loads the active enrollment, reserves the step of the code and updates the last step.
    method VerifyCode(uid: nat, code: nat, key: bool, now: T.Millis) returns (r: Result<T.Tables, T.Error>)
      ensures r == T.Verify(hmac, db.totp, uid, code, now, key)
    {
      var tx := db.totp;
      if uid !in tx.enrollments || tx.enrollments[uid].phase != T.Active {
        return Err(T.NotConfigured);
      }
      if !key {
        return Err(T.KeyUnavailable);
      }
      var record := tx.enrollments[uid];
      var reserved := MatchAndReserve(tx, uid, record, code, now);
      if reserved.Err? {
        return Err(reserved.error);
      }
      record := record.(last := T.Max(record.last, reserved.value.0));
      tx := reserved.value.1;
      return Ok(tx.(enrollments := tx.enrollments[uid := record]));
    }

    method VerifyDirectContext(uid: nat, length: nat, code: Code, key: bool, now: T.Millis) returns (r: Result<(), Error>)
      requires Valid()
      modifies this
      ensures Did(VerifyDirect(uid, length, code, key, now), r)
      ensures r.Ok? <==> 0 < length <= 128 && exists step :: Verifiable(hmac, old(db.totp), uid, code, key, now, step)
      ensures r.Ok? ==> exists step :: VerifiedBy(hmac, old(db.totp), db.totp, uid, code.value, key, now, step)
    {
      VerifyOutcome(hmac, db, uid, length, code, key, now);
      var tx: Result<Database, Error>;
      if !code.shaped {
        tx := Err(Provider(T.InvalidCode));
      } else if length == 0 || length > MAX_CONTEXT {
        tx := Err(Provider(T.InvalidClaim));
      } else {
        var verified := VerifyCode(uid, code.value, key, now);
        tx := if verified.Ok? then Ok(db.(totp := verified.value)) else Err(Provider(verified.error));
      }
      r := Finish(VerifyDirect(uid, length, code, key, now), tx);
    }

    method BeginEnrollment(session: nat, subject: Subject, token: Token, id: nat, secret: nat, codes: set<nat>, now: T.Millis)
      returns (r: Result<(), Error>)
      requires Valid()
      modifies this
      ensures Did(Begin(session, subject, token, id, secret, codes, now), r)
      ensures r.Ok? <==>
                && subject.admin && subject.recovery && subject.uid != 0 && !T.IsActive(old(db.totp), subject.uid)
                && C.Usable(old(db.claims), token.digest, C.Binding(session, subject.uid, C.TotpEnrollment, C.TotpV1), now)
                && (forall other :: other in old(db.totp.enrollments) && other != subject.uid ==> old(db.totp.enrollments)[other].id != id)
      ensures r.Ok? ==>
                && Spends(old(db.claims), db.claims, token.digest, C.Binding(session, subject.uid, C.TotpEnrollment, C.TotpV1), now)
                && NewEnrollment(db.totp, subject.uid, id, secret, codes, now) && OthersStay(old(db.totp), db.totp, subject.uid)
    {
      BeginOutcome(hmac, db, session, subject, token, id, secret, codes, now);
      var tx := BeginTransaction(session, subject, token, id, secret, codes, now);
      r := Finish(Begin(session, subject, token, id, secret, codes, now), tx);
    }

    method BeginTransaction(session: nat, subject: Subject, token: Token, id: nat, secret: nat, codes: set<nat>, now: T.Millis)
      returns (r: Result<Database, Error>)
      ensures r == Begun(db, session, subject, token, id, secret, codes, now)
    {
      if !subject.recovery || !subject.admin || subject.uid == 0 {
        return Err(Denied);
      }
      var tx := db;
      if T.IsActive(tx.totp, subject.uid) {
        return Err(Provider(T.AlreadyConfigured));
      }
      var changed := C.ConsumeReauth(tx.claims, token.digest, C.Binding(session, subject.uid, C.TotpEnrollment, C.TotpV1), now, None);
      if changed.None? {
        return Err(Provider(T.InvalidClaim));
      }
      tx := tx.(claims := changed.value);
      var inserted := T.Insert(tx.totp, subject.uid, id, secret, codes, now);
      if inserted.Err? {
        return Err(Provider(inserted.error));
      }
      return Ok(tx.(totp := inserted.value));
    }

    method RecoveryReset(session: nat, subject: Subject, token: Token, recovery: nat, now: T.Millis) returns (r: Result<(), Error>)
      requires Valid()
      modifies this
      ensures Did(Reset(session, subject, token, recovery, now), r)
      ensures r.Ok? <==>
                && subject.admin && subject.recovery && Unused(old(db.totp), subject.uid, recovery)
                && C.Usable(old(db.claims), token.digest, C.Binding(session, subject.uid, C.TotpRecoveryReset, C.TotpV1), now)
      ensures r.Ok? ==>
                && subject.uid !in db.totp.enrollments && subject.uid !in db.totp.used && subject.uid !in db.totp.recovery
                && (forall a :: a in db.claims.additional ==> db.claims.additional[a].binding.uid != subject.uid)
                && db.policy == C.Disabled && OthersStay(old(db.totp), db.totp, subject.uid)
                && Spends(old(db.claims), db.claims, token.digest, C.Binding(session, subject.uid, C.TotpRecoveryReset, C.TotpV1), now)
    {
      ResetOutcome(hmac, db, session, subject, token, recovery, now);
      var tx := ResetTransaction(session, subject, token, recovery, now);
      r := Finish(Reset(session, subject, token, recovery, now), tx);
    }

    method ResetTransaction(session: nat, subject: Subject, token: Token, recovery: nat, now: T.Millis) returns (r: Result<Database, Error>)
      ensures r == WasReset(db, session, subject, token, recovery, now)
    {
      if !subject.recovery || !subject.admin {
        return Err(Denied);
      }
      var tx, uid := db, subject.uid;
      var changed := C.ConsumeReauth(tx.claims, token.digest, C.Binding(session, uid, C.TotpRecoveryReset, C.TotpV1), now, None);
      if changed.None? {
        return Err(Provider(T.InvalidClaim));
      }
      tx := tx.(claims := changed.value);
      if uid !in tx.totp.recovery || recovery !in tx.totp.recovery[uid] || tx.totp.recovery[uid][recovery].Some? {
        return Err(Provider(T.InvalidCode));
      }
      tx := tx.(claims := tx.claims.(additional := C.WithoutSubject(tx.claims.additional, uid)));
      tx := tx.(totp := T.Delete(tx.totp, {uid}));
      tx := tx.(policy := C.Disabled);
      return Ok(tx);
    }

    method IssueReauthClaim(digest: nat, binding: C.Binding, now: T.Millis) returns (r: Result<(), Error>)
      requires Valid()
      modifies this
      ensures Did(IssueReauth(digest, binding, now), r)
      ensures r.Err? <==> digest in old(db.claims.reauth)
      ensures r.Ok? ==>
                && (forall other, later :: C.Usable(db.claims, digest, other, later)
                                           <==> other == binding && later < Saturating(now + 300_000))
                && db.claims.reauth - {digest} == old(db.claims.reauth)
    {
      IssueReauthOutcome(hmac, db, digest, binding, now);
      var inserted := C.IssueReauth(db.claims, digest, binding, now);
      r := Finish(IssueReauth(digest, binding, now), if inserted.Some? then Ok(db.(claims := inserted.value)) else Err(Duplicate));
    }

    // The part of `update_additional_auth_policy` before its transaction.
    method CheckProvider(ticket: nat, subject: Subject, target: C.Policy, key: bool) returns (r: Result<(), Error>)
      requires Valid()
      modifies this
      ensures Did(CheckPolicy(ticket, subject, target, key), r)
      ensures db.claims == old(db.claims) && db.totp == old(db.totp) && db.policy == old(db.policy)
      ensures r.Ok? <==> subject.admin && (target == C.Disabled || (T.IsActive(old(db.totp), subject.uid) && key))
      ensures r.Ok? ==> db.checks == old(db.checks)[ticket := Check(subject.uid, target)]
    {
      var tx: Result<Database, Error>;
      if !subject.admin {
        tx := Err(Denied);
      } else if target != C.Disabled && (!T.IsActive(db.totp, subject.uid) || !key) {
        tx := Err(ProviderUnavailable);
      } else {
        tx := Ok(db.(checks := db.checks[ticket := Check(subject.uid, target)]));
      }
      r := Finish(CheckPolicy(ticket, subject, target, key), tx);
    }

    method CommitAdditionalAuthPolicy(ticket: nat, session: nat, presented: Option<Token>, now: T.Millis) returns (r: Result<(), Error>)
      requires Valid()
      modifies this
      ensures Did(CommitPolicy(ticket, session, presented, now), r)
      ensures r.Ok? <==>
                && ticket in old(db.checks) && presented.Some? && presented.value.shaped
                && C.Usable(old(db.claims), presented.value.digest, PolicyBinding(session, old(db.checks)[ticket]), now)
      ensures r.Ok? ==>
                && db.policy == old(db.checks)[ticket].target && db.checks == old(db.checks) - {ticket} && db.totp == old(db.totp)
                && Spends(old(db.claims), db.claims, presented.value.digest, PolicyBinding(session, old(db.checks)[ticket]), now)
    {
      CommitOutcome(hmac, db, ticket, session, presented, now);
      var tx := CommitTransaction(ticket, session, presented, now);
      r := Finish(CommitPolicy(ticket, session, presented, now), tx);
    }

    method CommitTransaction(ticket: nat, session: nat, presented: Option<Token>, now: T.Millis) returns (r: Result<Database, Error>)
      ensures r == Committed(db, ticket, session, presented, now)
    {
      if ticket !in db.checks {
        return Err(Stale);
      }
      if presented.None? {
        return Err(ReauthRequired);
      }
      if !presented.value.shaped {
        return Err(InvalidReauth);
      }
      var tx, check := db, db.checks[ticket];
      var binding := C.Binding(session, check.uid, C.SecurityPolicyChange, C.TargetPolicy(check.target));
      var changed := C.ConsumeReauth(tx.claims, presented.value.digest, binding, now, None);
      if changed.None? {
        return Err(InvalidReauth);
      }
      tx := tx.(claims := changed.value);
      tx := tx.(policy := check.target);
      return Ok(tx.(checks := tx.checks - {ticket}));
    }

    method Open(now: T.Millis) returns (r: Result<(), Error>)
      requires Valid()
      modifies this
      ensures Did(Restart(now), r)
      ensures forall a :: a in db.claims.additional ==> db.claims.additional[a].consumed.None? && now < db.claims.additional[a].expires
      ensures forall uid :: uid in db.totp.enrollments ==> db.totp.enrollments[uid].phase == T.Active || now < db.totp.enrollments[uid].expires
      ensures forall uid :: T.IsActive(old(db.totp), uid) ==>
                T.IsActive(db.totp, uid) && db.totp.enrollments[uid] == old(db.totp.enrollments)[uid]
      ensures db.claims.reauth == old(db.claims.reauth) && db.policy == old(db.policy)
    {
      RestartOutcome(hmac, db, now);
      r := Finish(Restart(now), Ok(Restarted(db, now)));
    }
  }
}
