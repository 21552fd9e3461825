/**
  The authentication ledger: one database with the claim tables, the TOTP tables and the
  additional-authentication policy, and the transactions that change it.

  Each transaction is a function from the database to the database it commits, or an error
  and no change. Sessions, usernames and the encryption of secrets at rest are left out; a
  key that cannot decrypt a secret is the argument `key`.
 */
module AuthLedger {
  import opened Wrappers
  import opened C = Claims
  import T = Totp

  const MAX_CONTEXT := 128

  datatype Error =
    | Denied | Invalid | InvalidAdditional | ReauthRequired | InvalidReauth | ProviderUnavailable
    | Duplicate | Stale | Provider(error: T.Error)

  datatype Subject = Subject(uid: nat, admin: bool, recovery: bool)

  // A presented token: its digest, and whether it has the shape of a token.
  datatype Token = Token(digest: nat, shaped: bool)

  // A plan hash, with its length in bytes.
  datatype Plan = Plan(hash: nat, length: nat)

  // A six-digit code, and whether it has that shape.
  datatype Code = Code(value: nat, shaped: bool)

  // An update of the policy that passed the provider check and has yet to commit.
  datatype Check = Check(uid: nat, target: Policy)

  datatype Database = Database(claims: C.Tables, totp: T.Tables, policy: Policy, checks: map<nat, Check>)

  const FRESH := Database(C.EMPTY, T.EMPTY, Disabled, map[])

  datatype Op =
    | IssueReauth(digest: nat, binding: Binding, now: T.Millis)
    | ConsumeOperation(request: Consumption, now: T.Millis)
    | CheckPolicy(ticket: nat, subject: Subject, target: Policy, key: bool)
    | CommitPolicy(ticket: nat, session: nat, presented: Option<Token>, now: T.Millis)
    | Begin(session: nat, subject: Subject, token: Token, id: nat, secret: nat, codes: set<nat>, now: T.Millis)
    | Confirm(subject: Subject, id: nat, code: Code, key: bool, now: T.Millis)
    | IssueAdditional(session: nat, uid: nat, token: Token, plan: Plan, code: Code, key: bool, additional: nat, now: T.Millis)
    | VerifyDirect(uid: nat, length: nat, code: Code, key: bool, now: T.Millis)
    | Reset(session: nat, subject: Subject, token: Token, recovery: nat, now: T.Millis)
    | Restart(now: T.Millis)

  datatype Consumption = Consumption(
    session: nat, uid: nat, plan: Plan, token: Token, additional: Option<Token>, required: bool)

  // ---------- Transactions ----------

  predicate GoodPlan(plan: Plan)
  {
    0 < plan.length <= MAX_CONTEXT
  }

  function OperationBinding(session: nat, uid: nat, plan: Plan): Binding
  {
    Binding(session, uid, Operation, PlanHash(plan.hash))
  }

  // The additional claim consumed beside the reauth claim, when the request asks for one.
  function Beside(request: Consumption): Option<nat>
  {
    if request.required && request.additional.Some? then Some(request.additional.value.digest) else None
  }

  function Consumed(db: Database, request: Consumption, now: T.Millis): Result<Database, Error>
  {
    var binding := OperationBinding(request.session, request.uid, request.plan);
    if !request.token.shaped || !GoodPlan(request.plan) then Err(Invalid)
    else
      match C.ConsumeReauth(db.claims, request.token.digest, binding, now, Beside(request))
      case None => Err(Invalid)
      case Some(claims) =>
        match request.additional
        case None => if request.required then Err(InvalidAdditional) else Ok(db.(claims := claims))
        case Some(additional) =>
          if !request.required || !additional.shaped then Err(InvalidAdditional)
          else
            match C.ConsumeAdditional(claims, additional.digest, request.token.digest, binding, now)
            case None => Err(InvalidAdditional)
            case Some(both) => Ok(db.(claims := both))
  }

  // `provider_status` is read outside the transaction that commits the policy.
  function Checked(db: Database, ticket: nat, subject: Subject, target: Policy, key: bool): Result<Database, Error>
  {
    if !subject.admin then Err(Denied)
    else if target != Disabled && !(T.IsActive(db.totp, subject.uid) && key) then Err(ProviderUnavailable)
    else Ok(db.(checks := db.checks[ticket := Check(subject.uid, target)]))
  }

  function Committed(db: Database, ticket: nat, session: nat, token: Option<Token>, now: T.Millis): Result<Database, Error>
  {
    if ticket !in db.checks then Err(Stale)
    else if token.None? then Err(ReauthRequired)
    else if !token.value.shaped then Err(InvalidReauth)
    else
      var check := db.checks[ticket];
      var binding := Binding(session, check.uid, SecurityPolicyChange, TargetPolicy(check.target));
      match C.ConsumeReauth(db.claims, token.value.digest, binding, now, None)
      case None => Err(InvalidReauth)
      case Some(claims) => Ok(db.(claims := claims, policy := check.target, checks := db.checks - {ticket}))
  }

  function Begun(db: Database, session: nat, subject: Subject, token: Token, id: nat, secret: nat, codes: set<nat>, now: T.Millis): Result<Database, Error>
  {
    if !subject.recovery || !subject.admin || subject.uid == 0 then Err(Denied)
    else if T.IsActive(db.totp, subject.uid) then Err(Provider(T.AlreadyConfigured))
    else
      match C.ConsumeReauth(db.claims, token.digest, Binding(session, subject.uid, TotpEnrollment, TotpV1), now, None)
      case None => Err(Provider(T.InvalidClaim))
      case Some(claims) =>
        match T.Insert(db.totp, subject.uid, id, secret, codes, now)
        case Err(error) => Err(Provider(error))
        case Ok(totp) => Ok(db.(claims := claims, totp := totp))
  }

  function Confirmed(hmac: T.Hmac, db: Database, subject: Subject, id: nat, code: Code, key: bool, now: T.Millis): Result<Database, Error>
  {
    if !subject.recovery || !subject.admin then Err(Denied)
    else if !code.shaped then Err(Provider(T.InvalidCode))
    else
      match T.Confirm(hmac, db.totp, subject.uid, id, code.value, now, key)
      case Err(error) => Err(Provider(error))
      case Ok(totp) => Ok(db.(totp := totp))
  }

  function Issued(hmac: T.Hmac, db: Database, session: nat, uid: nat, token: Token, plan: Plan, code: Code, key: bool, additional: nat, now: T.Millis): Result<Database, Error>
  {
    var binding := OperationBinding(session, uid, plan);
    if !code.shaped then Err(Provider(T.InvalidCode))
    else if !GoodPlan(plan) || !C.Usable(db.claims, token.digest, binding, now) then Err(Provider(T.InvalidClaim))
    else
      match T.Verify(hmac, db.totp, uid, code.value, now, key)
      case Err(error) => Err(Provider(error))
      case Ok(totp) =>
        match C.IssueAdditional(db.claims, additional, token.digest, binding, now)
        case None => Err(Provider(T.Storage))
        case Some(claims) => Ok(db.(claims := claims, totp := totp))
  }

  function Verified(hmac: T.Hmac, db: Database, uid: nat, length: nat, code: Code, key: bool, now: T.Millis): Result<Database, Error>
  {
    if !code.shaped then Err(Provider(T.InvalidCode))
    else if !(0 < length <= MAX_CONTEXT) then Err(Provider(T.InvalidClaim))
    else
      match T.Verify(hmac, db.totp, uid, code.value, now, key)
      case Err(error) => Err(Provider(error))
      case Ok(totp) => Ok(db.(totp := totp))
  }

  function WasReset(db: Database, session: nat, subject: Subject, token: Token, recovery: nat, now: T.Millis): Result<Database, Error>
  {
    if !subject.recovery || !subject.admin then Err(Denied)
    else
      match C.ConsumeReauth(db.claims, token.digest, Binding(session, subject.uid, TotpRecoveryReset, TotpV1), now, None)
      case None => Err(Provider(T.InvalidClaim))
      case Some(claims) =>
        match T.Reset(db.totp, subject.uid, recovery)
        case Err(error) => Err(Provider(error))
        case Ok(totp) =>
          Ok(db.(claims := claims.(additional := C.WithoutSubject(claims.additional, subject.uid)), totp := totp, policy := Disabled))
  }

  // A restart forgets the checks in flight and deletes spent claims and expired enrollments.
  function Restarted(db: Database, now: T.Millis): Database
  {
    db.(claims := db.claims.(additional := C.Purge(db.claims.additional, now)), totp := T.Restart(db.totp, now), checks := map[])
  }

  function Apply(hmac: T.Hmac, db: Database, op: Op): Result<Database, Error>
  {
    match op
    case IssueReauth(digest, binding, now) =>
      (match C.IssueReauth(db.claims, digest, binding, now)
       case None => Err(Duplicate)
       case Some(claims) => Ok(db.(claims := claims)))
    case ConsumeOperation(request, now) => Consumed(db, request, now)
    case CheckPolicy(ticket, subject, target, key) => Checked(db, ticket, subject, target, key)
    case CommitPolicy(ticket, session, token, now) => Committed(db, ticket, session, token, now)
    case Begin(session, subject, token, id, secret, codes, now) => Begun(db, session, subject, token, id, secret, codes, now)
    case Confirm(subject, id, code, key, now) => Confirmed(hmac, db, subject, id, code, key, now)
    case IssueAdditional(session, uid, token, plan, code, key, additional, now) =>
      Issued(hmac, db, session, uid, token, plan, code, key, additional, now)
    case VerifyDirect(uid, length, code, key, now) => Verified(hmac, db, uid, length, code, key, now)
    case Reset(session, subject, token, recovery, now) => WasReset(db, session, subject, token, recovery, now)
    case Restart(now) => Ok(Restarted(db, now))
  }

  // ---------- Runs ----------

  // An operation that fails leaves the database as it was.
  function After(hmac: T.Hmac, db: Database, op: Op): Database
  {
    match Apply(hmac, db, op)
    case Ok(next) => next
    case Err(_) => db
  }

  function Run(hmac: T.Hmac, db: Database, ops: seq<Op>): Database
  {
    if ops == [] then db else After(hmac, Run(hmac, db, ops[..|ops| - 1]), ops[|ops| - 1])
  }

  ghost predicate Valid(hmac: T.Hmac, db: Database)
  {
    C.Valid(db.claims) && T.Valid(hmac, db.totp)
  }

  // What every run keeps of an earlier database: claims are never rebound or revived, the
  // record of consumptions and every enrollment's history only grow.
  ghost predicate Extends(before: Database, after: Database)
  {
    && C.Extends(before.claims.reauth, after.claims.reauth)
    && before.claims.uses <= after.claims.uses
    && T.LogGrows(before.totp.log, after.totp.log)
  }

  lemma ExtendsJoins(a: Database, b: Database, c: Database)
    requires Extends(a, b) && Extends(b, c)
    ensures Extends(a, c)
  {
    forall id | id in a.totp.log
      ensures id in c.totp.log && T.HistoryGrows(a.totp.log[id], c.totp.log[id])
    {
      assert T.HistoryGrows(a.totp.log[id], b.totp.log[id]);
      assert T.HistoryGrows(b.totp.log[id], c.totp.log[id]);
    }
  }

  // ---------- Every operation keeps the invariants ----------

  lemma ConsumedKeeps(db: Database, request: Consumption, now: T.Millis)
    requires C.Valid(db.claims) && Consumed(db, request, now).Ok?
    ensures var next := Consumed(db, request, now).value;
            && C.Valid(next.claims) && C.Extends(db.claims.reauth, next.claims.reauth) && db.claims.uses <= next.claims.uses
            && next == db.(claims := next.claims)
  {
    var binding := OperationBinding(request.session, request.uid, request.plan);
    if request.additional.None? {
      C.ConsumeReauthKeeps(db.claims, request.token.digest, binding, now, None);
    } else {
      C.ConsumeBothKeeps(db.claims, request.token.digest, request.additional.value.digest, binding, now);
    }
  }

  lemma ClaimsKeep(hmac: T.Hmac, db: Database, op: Op)
    requires C.Valid(db.claims) && Apply(hmac, db, op).Ok?
    ensures var next := Apply(hmac, db, op).value;
            C.Valid(next.claims) && C.Extends(db.claims.reauth, next.claims.reauth) && db.claims.uses <= next.claims.uses
  {
    match op
    case IssueReauth(digest, binding, now) => C.IssueReauthKeeps(db.claims, digest, binding, now);
    case ConsumeOperation(request, now) => ConsumedKeeps(db, request, now);
    case CommitPolicy(ticket, session, presented, now) =>
      var check := db.checks[ticket];
      C.ConsumeReauthKeeps(db.claims, presented.value.digest, Binding(session, check.uid, SecurityPolicyChange, TargetPolicy(check.target)), now, None);
    case Begin(session, subject, token, _, _, _, now) =>
      C.ConsumeReauthKeeps(db.claims, token.digest, Binding(session, subject.uid, TotpEnrollment, TotpV1), now, None);
    case IssueAdditional(session, uid, token, plan, _, _, additional, now) =>
      C.IssueAdditionalKeeps(db.claims, additional, token.digest, OperationBinding(session, uid, plan), now);
    case Reset(session, subject, token, _, now) => ResetKeepsClaims(db, session, subject, token, op.recovery, now);
    case Restart(now) => C.FewerAdditional(db.claims, C.Purge(db.claims.additional, now));
    case _ =>
  }

  lemma ResetKeepsClaims(db: Database, session: nat, subject: Subject, token: Token, recovery: nat, now: T.Millis)
    requires C.Valid(db.claims) && WasReset(db, session, subject, token, recovery, now).Ok?
    ensures var next := WasReset(db, session, subject, token, recovery, now).value;
            C.Valid(next.claims) && C.Extends(db.claims.reauth, next.claims.reauth) && db.claims.uses <= next.claims.uses
  {
    var binding := Binding(session, subject.uid, TotpRecoveryReset, TotpV1);
    C.ConsumeReauthKeeps(db.claims, token.digest, binding, now, None);
    var claims := C.ConsumeReauth(db.claims, token.digest, binding, now, None).value;
    C.FewerAdditional(claims, C.WithoutSubject(claims.additional, subject.uid));
  }

  // What a successful operation does to the TOTP tables.
  predicate TotpEffect(hmac: T.Hmac, t: T.Tables, op: Op, next: T.Tables)
  {
    match op
    case Begin(_, subject, _, id, secret, codes, now) =>
      !T.IsActive(t, subject.uid) && T.Insert(t, subject.uid, id, secret, codes, now) == Ok(next)
    case Confirm(subject, id, code, key, now) => T.Confirm(hmac, t, subject.uid, id, code.value, now, key) == Ok(next)
    case IssueAdditional(_, uid, _, _, code, key, _, now) => T.Verify(hmac, t, uid, code.value, now, key) == Ok(next)
    case VerifyDirect(uid, _, code, key, now) => T.Verify(hmac, t, uid, code.value, now, key) == Ok(next)
    case Reset(_, subject, _, recovery, _) => T.Reset(t, subject.uid, recovery) == Ok(next)
    case Restart(now) => next == T.Restart(t, now)
    case _ => next == t
  }

  lemma HasEffect(hmac: T.Hmac, db: Database, op: Op)
    requires Apply(hmac, db, op).Ok?
    ensures TotpEffect(hmac, db.totp, op, Apply(hmac, db, op).value.totp)
  {
  }

  lemma EffectKeeps(hmac: T.Hmac, t: T.Tables, op: Op, next: T.Tables)
    requires T.Valid(hmac, t) && TotpEffect(hmac, t, op, next)
    ensures T.Valid(hmac, next) && T.Advances(t, next)
  {
    match op
    case Begin(_, subject, _, id, secret, codes, now) => T.InsertKeeps(hmac, t, subject.uid, id, secret, codes, now);
    case Confirm(subject, id, code, key, now) => T.ConfirmKeeps(hmac, t, subject.uid, id, code.value, now, key);
    case IssueAdditional(_, uid, _, _, code, key, _, now) => T.VerifyKeeps(hmac, t, uid, code.value, now, key);
    case VerifyDirect(uid, _, code, key, now) => T.VerifyKeeps(hmac, t, uid, code.value, now, key);
    case Reset(_, subject, _, _, _) => T.DeleteKeeps(hmac, t, {subject.uid});
    case Restart(now) => T.RestartKeeps(hmac, t, now);
    case _ => T.AdvancesItself(t);
  }

  /**
    Every operation, successful or not, keeps the invariants and what earlier operations
    recorded.
   */
  lemma StepKeeps(hmac: T.Hmac, db: Database, op: Op)
    requires Valid(hmac, db)
    ensures Valid(hmac, After(hmac, db, op)) && Extends(db, After(hmac, db, op))
  {
    if Apply(hmac, db, op).Ok? {
      ClaimsKeep(hmac, db, op);
      HasEffect(hmac, db, op);
      EffectKeeps(hmac, db.totp, op, Apply(hmac, db, op).value.totp);
    }
  }

  lemma {:induction false} RunKeeps(hmac: T.Hmac, db: Database, ops: seq<Op>)
    requires Valid(hmac, db)
    ensures Valid(hmac, Run(hmac, db, ops)) && Extends(db, Run(hmac, db, ops))
  {
    if ops != [] {
      var before := Run(hmac, db, ops[..|ops| - 1]);
      RunKeeps(hmac, db, ops[..|ops| - 1]);
      StepKeeps(hmac, before, ops[|ops| - 1]);
      ExtendsJoins(db, before, Run(hmac, db, ops));
    }
  }

  lemma Snoc(hmac: T.Hmac, db: Database, ops: seq<Op>, op: Op)
    ensures Run(hmac, db, ops + [op]) == After(hmac, Run(hmac, db, ops), op)
  {
    assert (ops + [op])[..|ops|] == ops;
  }
}
