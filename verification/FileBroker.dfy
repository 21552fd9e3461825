/**
  The file broker: sessions, reservations and single-use upload plans, shared by requests
  that interleave. Each locked section of the source is one step; the steps of different
  requests may alternate in any order.
 */
module FileBroker {
  import opened Wrappers

  const MAX_SESSIONS := 8

  datatype Ingress = Public | Recovery

  // Identifiers, digests of tokens and login bindings are opaque numbers.
  datatype Session = Session(id: nat, binding: nat, ingress: Ingress, origin: nat)

  datatype Plan = Plan(upload: nat, session: nat, binding: nat, expiresAt: int)

  datatype Begun = Begun(token: nat, plan: Plan)

  // The three tables, the `revoked` flags, and what became of every plan so far.
  datatype State = State(
    sessions: map<nat, Session>, opening: seq<nat>, plans: map<nat, Plan>, revoked: set<nat>,
    issued: map<nat, Plan>, begun: seq<Begun>, abandoned: set<nat>)

  const EMPTY := State(map[], [], map[], {}, map[], [], {})

  // The clock, and the sessions whose login no longer authenticates.
  datatype Environment = Environment(now: int, expired: set<nat>)

  function Ids(sessions: map<nat, Session>): set<nat>
  {
    set t | t in sessions :: sessions[t].id
  }

  function IdsOf(sessions: map<nat, Session>, tokens: set<nat>): set<nat>
  {
    set t | t in tokens && t in sessions :: sessions[t].id
  }

  function Bindings(sessions: map<nat, Session>): set<nat>
  {
    set t | t in sessions :: sessions[t].binding
  }

  // Keep these sessions and plans; removed sessions are revoked, removed plans abandoned.
  function Keep(s: State, sessions: map<nat, Session>, plans: map<nat, Plan>): State
  {
    s.(sessions := sessions, plans := plans,
       revoked := s.revoked + IdsOf(s.sessions, s.sessions.Keys - sessions.Keys),
       abandoned := s.abandoned + (s.plans.Keys - plans.Keys))
  }

  // `cleanup_expired`
  function Cleanup(s: State, env: Environment): State
  {
    var sessions := Authenticated(s.sessions, env.expired);
    Keep(s, sessions, Current(s.plans, env.now, Ids(sessions)))
  }

  function Authenticated(sessions: map<nat, Session>, expired: set<nat>): map<nat, Session>
  {
    map t | t in sessions && sessions[t].id !in expired :: sessions[t]
  }

  function Current(plans: map<nat, Plan>, now: int, active: set<nat>): map<nat, Plan>
  {
    map t | t in plans && now < plans[t].expiresAt && plans[t].session in active :: plans[t]
  }

  function OtherSessions(sessions: map<nat, Session>, binding: nat): map<nat, Session>
  {
    map t | t in sessions && sessions[t].binding != binding :: sessions[t]
  }

  function OtherPlans(plans: map<nat, Plan>, binding: nat): map<nat, Plan>
  {
    map t | t in plans && plans[t].binding != binding :: plans[t]
  }

  datatype Op =
    | Reserve(binding: nat, env: Environment)
    | Release(binding: nat)
    | Register(token: nat, session: Session, env: Environment)
    | AddPlan(token: nat, plan: Plan, env: Environment)
    | Begin(token: nat, lease: nat, binding: nat, started: bool, env: Environment)
    | Acquire(token: nat, binding: nat, ingress: Ingress, origin: nat, env: Environment)
    | Close(token: nat, binding: nat, ingress: Ingress, origin: nat)
    | ExpireOne(token: nat, id: nat, env: Environment)
    | RevokeLogin(binding: nat)
    | RevokeAll

  function Without(opening: seq<nat>, binding: nat): (r: seq<nat>)
    ensures binding !in r
  {
    if opening == [] then []
    else (if opening[0] == binding then [] else [opening[0]]) + Without(opening[1..], binding)
  }

  predicate Matches(session: Session, binding: nat, ingress: Ingress, origin: nat)
  {
    session.binding == binding && session.ingress == ingress && session.origin == origin
  }

  predicate HasPlan(plans: map<nat, Plan>, session: nat)
  {
    exists t :: t in plans && plans[t].session == session
  }

  // The first locked section of `issue`.
  predicate CanReserve(s: State, binding: nat)
  {
    binding !in s.opening && binding !in Bindings(s.sessions) && |s.sessions| + |s.opening| < MAX_SESSIONS
  }

  // The second one; the reservation was released in between.
  predicate CanRegister(s: State, session: Session)
  {
    session.binding !in Bindings(s.sessions) && |s.sessions| < MAX_SESSIONS
  }

  // The second locked section of `plan_upload`.
  predicate CanPlan(s: State, plan: Plan)
  {
    plan.session in Ids(s.sessions) && plan.session !in s.revoked && !HasPlan(s.plans, plan.session)
  }

  predicate CanBegin(s: State, op: Op)
    requires op.Begin? && op.token in s.plans
  {
    s.plans[op.token].session == op.lease && s.plans[op.token].binding == op.binding && op.env.now < s.plans[op.token].expiresAt && op.started
  }

  // A plan that cannot be inserted is dropped, which abandons it.
  function InsertPlan(c: State, token: nat, plan: Plan): State
  {
    if CanPlan(c, plan) then c.(plans := c.plans[token := plan], issued := c.issued[token := plan])
    else c.(issued := c.issued[token := plan], abandoned := c.abandoned + {token})
  }

  function Taken(c: State, op: Op): State
    requires op.Begin?
  {
    if op.token !in c.plans then c
    else if CanBegin(c, op) then c.(plans := c.plans - {op.token}, begun := c.begun + [Begun(op.token, c.plans[op.token])])
    else Keep(c, c.sessions, c.plans - {op.token})
  }

  function Apply(s: State, op: Op): State
  {
    match op
    case Reserve(binding, env) =>
      var c := Cleanup(s, env);
      if CanReserve(c, binding) then c.(opening := c.opening + [binding]) else c
    case Release(binding) => s.(opening := Without(s.opening, binding))
    case Register(token, session, env) =>
      var c := Cleanup(s, env);
      if CanRegister(c, session) then c.(sessions := c.sessions[token := session]) else c.(revoked := c.revoked + {session.id})
    case AddPlan(token, plan, env) => InsertPlan(Cleanup(s, env), token, plan)
    case Begin(_, _, _, _, env) => Taken(Cleanup(s, env), op)
    case Acquire(token, binding, ingress, origin, env) =>
      var c := Cleanup(s, env);
      if token in c.sessions && Matches(c.sessions[token], binding, ingress, origin) && c.sessions[token].id in env.expired
      then Keep(c, c.sessions - {token}, c.plans) else c
    case Close(token, binding, ingress, origin) =>
      if token in s.sessions && Matches(s.sessions[token], binding, ingress, origin)
      then Keep(s, s.sessions - {token}, s.plans) else s
    case ExpireOne(token, id, env) =>
      if token in s.sessions && s.sessions[token].id == id && id in env.expired
      then Keep(s, s.sessions - {token}, s.plans) else s
    case RevokeLogin(binding) =>
      Keep(s, OtherSessions(s.sessions, binding), OtherPlans(s.plans, binding)).(opening := Without(s.opening, binding))
    case RevokeAll => Keep(s, map[], map[]).(opening := [])
  }

  // A plan carries the login binding of the session object it was made through.
  predicate OwnBinding(sessions: map<nat, Session>, plan: Plan)
  {
    forall t :: t in sessions && sessions[t].id == plan.session ==> sessions[t].binding == plan.binding
  }

  // Random tokens and ids are new.
  predicate Fresh(s: State, op: Op)
  {
    match op
    case Register(token, session, _) => token !in s.sessions && session.id !in Ids(s.sessions) && session.id !in s.revoked
    case AddPlan(token, plan, _) => token !in s.issued && OwnBinding(s.sessions, plan)
    case _ => true
  }

  function Run(ops: seq<Op>): State
  {
    if ops == [] then EMPTY else Apply(Run(ops[..|ops| - 1]), ops[|ops| - 1])
  }

  predicate FreshRun(ops: seq<Op>)
  {
    ops == [] || (FreshRun(ops[..|ops| - 1]) && Fresh(Run(ops[..|ops| - 1]), ops[|ops| - 1]))
  }

  // ---------- The invariant of every interleaving ----------

  ghost predicate SessionsValid(sessions: map<nat, Session>, revoked: set<nat>)
  {
    && |sessions| <= MAX_SESSIONS
    && OnePerLogin(sessions)
    && OnePerId(sessions)
    && (forall t :: t in sessions ==> sessions[t].id !in revoked)
  }

  ghost predicate OnePerLogin(sessions: map<nat, Session>)
  {
    forall t, u :: t in sessions && u in sessions && sessions[t].binding == sessions[u].binding ==> t == u
  }

  ghost predicate OnePerId(sessions: map<nat, Session>)
  {
    forall t, u :: t in sessions && u in sessions && sessions[t].id == sessions[u].id ==> t == u
  }

  ghost predicate PlansValid(plans: map<nat, Plan>, issued: map<nat, Plan>)
  {
    && (forall t, u :: t in plans && u in plans && plans[t].session == plans[u].session ==> t == u)
    && (forall t :: t in plans ==> t in issued && issued[t] == plans[t])
  }

  ghost predicate HasBegun(begun: seq<Begun>, token: nat)
  {
    exists i :: 0 <= i < |begun| && begun[i].token == token
  }

  // Every plan that was ever issued is pending, or begun once, or abandoned; never two of these.
  ghost predicate Conserved(plans: set<nat>, issued: map<nat, Plan>, begun: seq<Begun>, abandoned: set<nat>)
  {
    && (forall t :: t in issued <==> t in plans || t in abandoned || HasBegun(begun, t))
    && (forall t :: t in plans ==> t !in abandoned && !HasBegun(begun, t))
    && (forall t :: t in abandoned ==> !HasBegun(begun, t))
    && (forall i, j :: 0 <= i < j < |begun| ==> begun[i].token != begun[j].token)
    && (forall i :: 0 <= i < |begun| ==> begun[i].token in issued && issued[begun[i].token] == begun[i].plan)
  }

  ghost predicate Invariant(s: State)
  {
    SessionsValid(s.sessions, s.revoked) && PlansValid(s.plans, s.issued) && Conserved(s.plans.Keys, s.issued, s.begun, s.abandoned)
  }

  lemma MapSubset<V>(small: map<nat, V>, large: map<nat, V>)
    requires small.Keys <= large.Keys
    ensures |small| <= |large|
  {
    CardinalityMonotone(small.Keys, large.Keys);
  }

  lemma KeepInvariant(s: State, sessions: map<nat, Session>, plans: map<nat, Plan>)
    requires Invariant(s)
    requires sessions.Keys <= s.sessions.Keys && forall t :: t in sessions ==> sessions[t] == s.sessions[t]
    requires plans.Keys <= s.plans.Keys && forall t :: t in plans ==> plans[t] == s.plans[t]
    ensures Invariant(Keep(s, sessions, plans))
  {
    MapSubset(sessions, s.sessions);
  }

  lemma CleanupInvariant(s: State, env: Environment)
    requires Invariant(s)
    ensures Invariant(Cleanup(s, env))
    ensures forall t :: t in Cleanup(s, env).plans ==> Cleanup(s, env).plans[t].session in Ids(Cleanup(s, env).sessions)
    ensures Cleanup(s, env).issued == s.issued && Cleanup(s, env).begun == s.begun
  {
    var sessions := Authenticated(s.sessions, env.expired);
    KeepInvariant(s, sessions, Current(s.plans, env.now, Ids(sessions)));
  }

  lemma RegisterUnique(sessions: map<nat, Session>, token: nat, session: Session)
    requires token !in sessions && session.binding !in Bindings(sessions) && session.id !in Ids(sessions)
    ensures OnePerLogin(sessions) ==> OnePerLogin(sessions[token := session])
    ensures OnePerId(sessions) ==> OnePerId(sessions[token := session])
    ensures |sessions[token := session]| == |sessions| + 1
  {
    assert sessions[token := session].Keys == sessions.Keys + {token};
    forall t | t in sessions
      ensures sessions[t].binding != session.binding && sessions[t].id != session.id
    {
      assert sessions[t].binding in Bindings(sessions) && sessions[t].id in Ids(sessions);
    }
  }

  lemma AddPlanConserved(plans: set<nat>, issued: map<nat, Plan>, begun: seq<Begun>, abandoned: set<nat>, token: nat, plan: Plan)
    requires Conserved(plans, issued, begun, abandoned) && token !in issued
    ensures Conserved(plans + {token}, issued[token := plan], begun, abandoned)
    ensures Conserved(plans, issued[token := plan], begun, abandoned + {token})
  {
  }

  lemma AddPlanUnique(plans: map<nat, Plan>, issued: map<nat, Plan>, token: nat, plan: Plan)
    requires PlansValid(plans, issued) && token !in issued
    ensures PlansValid(plans, issued[token := plan])
    ensures !HasPlan(plans, plan.session) ==> PlansValid(plans[token := plan], issued[token := plan])
  {
  }

  lemma BeginInvariant(s: State, token: nat)
    requires Invariant(s) && token in s.plans
    ensures Conserved(s.plans.Keys - {token}, s.issued, s.begun + [Begun(token, s.plans[token])], s.abandoned)
    ensures PlansValid(s.plans - {token}, s.issued)
  {
    var begun := s.begun + [Begun(token, s.plans[token])];
    assert begun[|s.begun|].token == token;
    forall t
      ensures HasBegun(begun, t) <==> HasBegun(s.begun, t) || t == token
    {
      if HasBegun(s.begun, t) {
        var i :| 0 <= i < |s.begun| && s.begun[i].token == t;
        assert begun[i].token == t;
      }
    }
  }

  lemma StepKeepsInvariant(s: State, op: Op)
    requires Invariant(s) && Fresh(s, op)
    ensures Invariant(Apply(s, op))
  {
    match op
    case Reserve(_, env) => CleanupInvariant(s, env);
    case Release(_) =>
    case Register(token, session, env) => RegisterStep(s, op);
    case AddPlan(token, plan, env) => CleanupInvariant(s, env); AddPlanStep(Cleanup(s, env), token, plan);
    case Begin(token, _, _, _, env) => BeginStep(s, op);
    case Acquire(token, _, _, _, env) =>
      CleanupInvariant(s, env);
      KeepInvariant(Cleanup(s, env), Cleanup(s, env).sessions - {token}, Cleanup(s, env).plans);
    case Close(token, _, _, _) => KeepInvariant(s, s.sessions - {token}, s.plans);
    case ExpireOne(token, _, _) => KeepInvariant(s, s.sessions - {token}, s.plans);
    case RevokeLogin(binding) =>
      KeepInvariant(s, OtherSessions(s.sessions, binding), OtherPlans(s.plans, binding));
    case RevokeAll => KeepInvariant(s, map[], map[]);
  }

  lemma RegisterStep(s: State, op: Op)
    requires Invariant(s) && Fresh(s, op) && op.Register?
    ensures Invariant(Apply(s, op))
  {
    CleanupInvariant(s, op.env);
    var c := Cleanup(s, op.env);
    if CanRegister(c, op.session) {
      RegisterUnique(c.sessions, op.token, op.session);
    }
  }

  lemma AddPlanStep(c: State, token: nat, plan: Plan)
    requires Invariant(c) && token !in c.issued
    ensures Invariant(InsertPlan(c, token, plan))
  {
    AddPlanConserved(c.plans.Keys, c.issued, c.begun, c.abandoned, token, plan);
    AddPlanUnique(c.plans, c.issued, token, plan);
    assert c.plans[token := plan].Keys == c.plans.Keys + {token};
  }

  lemma BeginStep(s: State, op: Op)
    requires Invariant(s) && op.Begin?
    ensures Invariant(Apply(s, op))
  {
    CleanupInvariant(s, op.env);
    var c := Cleanup(s, op.env);
    if op.token in c.plans {
      BeginInvariant(c, op.token);
      KeepInvariant(c, c.sessions, c.plans - {op.token});
      assert (c.plans - {op.token}).Keys == c.plans.Keys - {op.token};
    }
  }

  /**
    Every interleaving: at most 8 sessions, at most one per login, at most one pending
    plan per file session, and each issued plan is pending, begun exactly once, or
    abandoned.
   */
  lemma {:induction false} EveryInterleavingIsValid(ops: seq<Op>)
    requires FreshRun(ops)
    ensures Invariant(Run(ops))
  {
    if ops != [] {
      EveryInterleavingIsValid(ops[..|ops| - 1]);
      StepKeepsInvariant(Run(ops[..|ops| - 1]), ops[|ops| - 1]);
    }
  }

  /**
    An upload begins only through the plan that was issued for it, only for the session
    that planned it, and only while that session is registered and not revoked.
   */
  lemma BeginsAreAuthorised(s: State, op: Op)
    requires Invariant(s) && op.Begin?
    requires Apply(s, op).begun != s.begun
    ensures op.token in s.plans && Apply(s, op).begun == s.begun + [Begun(op.token, s.issued[op.token])]
    ensures s.plans[op.token].session == op.lease && s.plans[op.token].binding == op.binding
    ensures op.lease in Ids(s.sessions) && op.lease !in s.revoked && op.lease !in op.env.expired
    ensures op.token !in Apply(s, op).plans
  {
    CleanupInvariant(s, op.env);
    var c := Cleanup(s, op.env);
    assert c.plans[op.token].session in Ids(c.sessions);
    var t :| t in c.sessions && c.sessions[t].id == op.lease;
    assert s.sessions[t].id == op.lease;
  }

  // A plan that is neither pending nor begun any more.
  ghost predicate Dead(s: State, token: nat)
  {
    token in s.abandoned
  }

  lemma AbandonedGrows(s: State, op: Op)
    ensures s.abandoned <= Apply(s, op).abandoned
  {
  }

  function RunFrom(s: State, ops: seq<Op>): State
  {
    if ops == [] then s else Apply(RunFrom(s, ops[..|ops| - 1]), ops[|ops| - 1])
  }

  predicate FreshFrom(s: State, ops: seq<Op>)
  {
    ops == [] || (FreshFrom(s, ops[..|ops| - 1]) && Fresh(RunFrom(s, ops[..|ops| - 1]), ops[|ops| - 1]))
  }

  /**
    Revoking a login is final for the plans it has: whatever happens afterwards, none of them
    ever begins an upload. The sessions and reservations of that login are gone too.
   */
  lemma {:induction false} RevokedPlansNeverBegin(s: State, binding: nat, token: nat, ops: seq<Op>)
    requires Invariant(s) && token in s.plans && s.plans[token].binding == binding
    requires FreshFrom(Apply(s, RevokeLogin(binding)), ops)
    ensures var revoked := Apply(s, RevokeLogin(binding));
            && binding !in Bindings(revoked.sessions) && binding !in revoked.opening
            && (forall t :: t in revoked.plans ==> revoked.plans[t].binding != binding)
            && var now := RunFrom(revoked, ops); Invariant(now) && Dead(now, token) && !HasBegun(now.begun, token)
  {
    var revoked := Apply(s, RevokeLogin(binding));
    StepKeepsInvariant(s, RevokeLogin(binding));
    if ops != [] {
      RevokedPlansNeverBegin(s, binding, token, ops[..|ops| - 1]);
      var earlier := RunFrom(revoked, ops[..|ops| - 1]);
      StepKeepsInvariant(earlier, ops[|ops| - 1]);
      AbandonedGrows(earlier, ops[|ops| - 1]);
    }
  }

  // ---------- Uploads of a login after it was revoked ----------

  // A session of the login is registered by this step.
  predicate Registers(s: State, op: Op, binding: nat, id: nat)
  {
    op.Register? && op.session.binding == binding && op.session.id == id && CanRegister(Cleanup(s, op.env), op.session)
  }

  predicate RegisteredDuring(s: State, ops: seq<Op>, binding: nat, id: nat)
  {
    ops != [] &&
    (RegisteredDuring(s, ops[..|ops| - 1], binding, id) || Registers(RunFrom(s, ops[..|ops| - 1]), ops[|ops| - 1], binding, id))
  }

  // Everything the login has in this state goes back to sessions of the given ids.
  ghost predicate OnlyThrough(s: State, binding: nat, past: nat, ids: iset<nat>)
  {
    && (forall t :: t in s.sessions && s.sessions[t].binding == binding ==> s.sessions[t].id in ids)
    && (forall t :: t in s.plans && s.plans[t].binding == binding ==> s.plans[t].session in ids)
    && (forall i :: past <= i < |s.begun| && s.begun[i].plan.binding == binding ==> s.begun[i].plan.session in ids)
  }

  lemma FewerThrough(s: State, next: State, binding: nat, past: nat, ids: iset<nat>)
    requires OnlyThrough(s, binding, past, ids) && next.begun == s.begun
    requires forall t :: t in next.sessions ==> t in s.sessions && next.sessions[t] == s.sessions[t]
    requires forall t :: t in next.plans ==> t in s.plans && next.plans[t] == s.plans[t]
    ensures OnlyThrough(next, binding, past, ids)
  {
  }

  lemma CleanupThrough(s: State, env: Environment, binding: nat, past: nat, ids: iset<nat>)
    requires OnlyThrough(s, binding, past, ids)
    ensures OnlyThrough(Cleanup(s, env), binding, past, ids)
  {
    FewerThrough(s, Cleanup(s, env), binding, past, ids);
  }

  lemma RegisterThrough(s: State, op: Op, binding: nat, past: nat, ids: iset<nat>)
    requires op.Register? && OnlyThrough(s, binding, past, ids)
    requires Registers(s, op, binding, op.session.id) ==> op.session.id in ids
    ensures OnlyThrough(Apply(s, op), binding, past, ids)
  {
    CleanupThrough(s, op.env, binding, past, ids);
  }

  lemma AddPlanThrough(s: State, op: Op, binding: nat, past: nat, ids: iset<nat>)
    requires op.AddPlan? && OnlyThrough(s, binding, past, ids) && Fresh(s, op)
    ensures OnlyThrough(Apply(s, op), binding, past, ids)
  {
    var c := Cleanup(s, op.env);
    CleanupThrough(s, op.env, binding, past, ids);
    if CanPlan(c, op.plan) && op.plan.binding == binding {
      var t :| t in c.sessions && c.sessions[t].id == op.plan.session;
      assert s.sessions[t].id == op.plan.session;
    }
  }

  lemma BeginThrough(s: State, op: Op, binding: nat, past: nat, ids: iset<nat>)
    requires op.Begin? && OnlyThrough(s, binding, past, ids)
    ensures OnlyThrough(Apply(s, op), binding, past, ids)
  {
    CleanupThrough(s, op.env, binding, past, ids);
  }

  lemma RevokeThrough(s: State, op: Op, binding: nat, past: nat, ids: iset<nat>)
    requires op.RevokeLogin? || op.RevokeAll? || op.Close? || op.ExpireOne? || op.Acquire?
    requires OnlyThrough(s, binding, past, ids)
    ensures OnlyThrough(Apply(s, op), binding, past, ids)
  {
    if op.Acquire? {
      CleanupThrough(s, op.env, binding, past, ids);
      FewerThrough(Cleanup(s, op.env), Apply(s, op), binding, past, ids);
    } else {
      FewerThrough(s, Apply(s, op), binding, past, ids);
    }
  }

  lemma StepThrough(s: State, op: Op, binding: nat, past: nat, ids: iset<nat>)
    requires OnlyThrough(s, binding, past, ids) && Fresh(s, op)
    requires op.Register? && Registers(s, op, binding, op.session.id) ==> op.session.id in ids
    ensures OnlyThrough(Apply(s, op), binding, past, ids)
  {
    match op
    case Reserve(_, env) => CleanupThrough(s, env, binding, past, ids);
    case Release(_) =>
    case Register(_, _, _) => RegisterThrough(s, op, binding, past, ids);
    case AddPlan(_, _, _) => AddPlanThrough(s, op, binding, past, ids);
    case Begin(_, _, _, _, _) => BeginThrough(s, op, binding, past, ids);
    case _ => RevokeThrough(s, op, binding, past, ids);
  }

  /**
    After a revoke an upload of the login begins only through a session of the login that
    was registered after the revoke.
   */
  lemma {:induction false} BeginAfterRevokeNeedsRegister(s: State, binding: nat, ops: seq<Op>)
    requires FreshFrom(Apply(s, RevokeLogin(binding)), ops)
    ensures var revoked := Apply(s, RevokeLogin(binding));
            OnlyThrough(RunFrom(revoked, ops), binding, |s.begun|, iset id | RegisteredDuring(revoked, ops, binding, id))
  {
    var revoked := Apply(s, RevokeLogin(binding));
    if ops != [] {
      var early, op := ops[..|ops| - 1], ops[|ops| - 1];
      BeginAfterRevokeNeedsRegister(s, binding, early);
      var ids := iset id | RegisteredDuring(revoked, ops, binding, id);
      assert OnlyThrough(RunFrom(revoked, early), binding, |s.begun|, ids) by {
        assert forall id :: RegisteredDuring(revoked, early, binding, id) ==> id in ids;
      }
      StepThrough(RunFrom(revoked, early), op, binding, |s.begun|, ids);
    }
  }

  /**
    And such a registration is enough: `issue` does not look whether the login was revoked
    while it waited. A plan made and begun through the new session begins an upload as long
    as the environment still authenticates that session.
   */
  lemma RegisterEnablesBegin(s: State, register: Op, add: Op, begin: Op)
    requires register.Register? && Registers(s, register, register.session.binding, register.session.id) && Fresh(s, register)
    requires add.AddPlan? && add.plan.session == register.session.id && add.plan.binding == register.session.binding
    requires begin.Begin? && begin.token == add.token && begin.lease == register.session.id && begin.binding == register.session.binding
    requires register.session.id !in add.env.expired && register.session.id !in begin.env.expired
    requires begin.env.now < add.plan.expiresAt && begin.started
    ensures Apply(Apply(Apply(s, register), add), begin).begun == s.begun + [Begun(add.token, add.plan)]
  {
    RegisterIsNew(s, register);
    var one := Apply(s, register);
    PlanIsAdded(one, register.token, register.session, add);
    PlanBegins(Apply(one, add), register.token, begin);
  }

  // A registered session is not revoked and has no plan yet.
  lemma RegisterIsNew(s: State, op: Op)
    requires op.Register? && Registers(s, op, op.session.binding, op.session.id) && Fresh(s, op)
    ensures var next := Apply(s, op);
            && op.token in next.sessions && next.sessions[op.token] == op.session && op.session.id !in next.revoked
            && !HasPlan(next.plans, op.session.id) && next.begun == s.begun
  {
    var c := Cleanup(s, op.env);
    forall t | t in c.plans
      ensures c.plans[t].session != op.session.id
    {
      assert c.plans[t].session in Ids(c.sessions);
    }
    assert forall t :: t in s.sessions ==> s.sessions[t].id in Ids(s.sessions);
  }

  lemma PlanIsAdded(s: State, token: nat, session: Session, op: Op)
    requires op.AddPlan? && op.plan.session == session.id && session.id !in op.env.expired
    requires token in s.sessions && s.sessions[token] == session && session.id !in s.revoked && !HasPlan(s.plans, session.id)
    ensures var next := Apply(s, op);
            && op.token in next.plans && next.plans[op.token] == op.plan && next.begun == s.begun
            && token in next.sessions && next.sessions[token] == session
  {
    var c := Cleanup(s, op.env);
    assert token in c.sessions && c.sessions[token] == session;
    assert op.plan.session in Ids(c.sessions);
    forall t | t in c.plans
      ensures c.plans[t].session != session.id
    {
      assert s.plans[t] == c.plans[t];
    }
    assert CanPlan(c, op.plan);
  }

  lemma PlanBegins(s: State, token: nat, op: Op)
    requires op.Begin? && op.token in s.plans && s.plans[op.token].session == op.lease && s.plans[op.token].binding == op.binding
    requires token in s.sessions && s.sessions[token].id == op.lease && op.lease !in op.env.expired
    requires op.env.now < s.plans[op.token].expiresAt && op.started
    ensures Apply(s, op).begun == s.begun + [Begun(op.token, s.plans[op.token])]
  {
    var c := Cleanup(s, op.env);
    assert token in c.sessions && op.lease in Ids(c.sessions);
    assert op.token in c.plans && c.plans[op.token] == s.plans[op.token];
  }

  // For example: the login is revoked while its first session is being joined, and uploads afterwards.
  lemma RevokedLoginCanReturn(binding: nat, env: Environment)
    requires 1 !in env.expired
    ensures var revoked := Apply(EMPTY, RevokeLogin(binding));
            var joined := Apply(revoked, Register(0, Session(1, binding, Public, 0), env));
            var planned := Apply(joined, AddPlan(2, Plan(3, 1, binding, env.now + 1), env));
            var uploading := Apply(planned, Begin(2, 1, binding, true, env));
            uploading.begun == [Begun(2, Plan(3, 1, binding, env.now + 1))]
  {
    var revoked := Apply(EMPTY, RevokeLogin(binding));
    var register := Register(0, Session(1, binding, Public, 0), env);
    assert Cleanup(revoked, env).sessions == map[];
    RegisterEnablesBegin(revoked, register, AddPlan(2, Plan(3, 1, binding, env.now + 1), env), Begin(2, 1, binding, true, env));
  }

  lemma RunExtends(ops: seq<Op>, op: Op)
    ensures Run(ops + [op]) == Apply(Run(ops), op)
    ensures FreshRun(ops + [op]) <==> FreshRun(ops) && Fresh(Run(ops), op)
  {
    assert (ops + [op])[..|ops|] == ops;
  }

  // ---------- What each locked section leaves ----------

  // Exactly these sessions and plans are gone: the sessions with their flag set, the plans
  // abandoned. Everything else is as it was.
  ghost predicate Removed(s: State, next: State, sessions: set<nat>, plans: set<nat>)
    requires sessions <= s.sessions.Keys
  {
    && next.sessions == s.sessions - sessions
    && next.plans == s.plans - plans
    && (forall id :: id in next.revoked <==> id in s.revoked || exists t :: t in sessions && s.sessions[t].id == id)
    && next.abandoned == s.abandoned + plans
    && next.issued == s.issued && next.begun == s.begun
  }

  function SessionsOf(s: State, binding: nat): (tokens: set<nat>)
    ensures forall t :: t in tokens <==> t in s.sessions && s.sessions[t].binding == binding
  {
    set t | t in s.sessions && s.sessions[t].binding == binding
  }

  function PlansOf(s: State, binding: nat): (tokens: set<nat>)
    ensures forall t :: t in tokens <==> t in s.plans && s.plans[t].binding == binding
  {
    set t | t in s.plans && s.plans[t].binding == binding
  }

  // A revoke of one login takes its sessions, plans and reservations, and nothing of others.
  ghost predicate LoginRevoked(s: State, next: State, binding: nat)
  {
    && Removed(s, next, SessionsOf(s, binding), PlansOf(s, binding))
    && multiset(next.opening) == multiset(s.opening)[binding := 0]
  }

  // Every other login keeps its reservations.
  lemma {:induction false} OthersKeepOpening(opening: seq<nat>, binding: nat)
    ensures multiset(Without(opening, binding)) == multiset(opening)[binding := 0]
  {
    if opening != [] {
      OthersKeepOpening(opening[1..], binding);
      assert opening == [opening[0]] + opening[1..];
    }
  }

  lemma RevokeOutcome(s: State, binding: nat)
    ensures LoginRevoked(s, Apply(s, RevokeLogin(binding)), binding)
  {
    var next := Apply(s, RevokeLogin(binding));
    OthersKeepOpening(s.opening, binding);
    KeepRemoves(s, next.sessions, next.plans);
    assert s.sessions.Keys - next.sessions.Keys == SessionsOf(s, binding);
    assert s.plans.Keys - next.plans.Keys == PlansOf(s, binding);
  }

  lemma KeepRemoves(s: State, sessions: map<nat, Session>, plans: map<nat, Plan>)
    requires sessions.Keys <= s.sessions.Keys && forall t :: t in sessions ==> sessions[t] == s.sessions[t]
    requires plans.Keys <= s.plans.Keys && forall t :: t in plans ==> plans[t] == s.plans[t]
    ensures Removed(s, Keep(s, sessions, plans), s.sessions.Keys - sessions.Keys, s.plans.Keys - plans.Keys)
  {
    var gone := s.sessions.Keys - sessions.Keys;
    assert sessions == s.sessions - gone;
    assert plans == s.plans - (s.plans.Keys - plans.Keys);
    forall id
      ensures id in IdsOf(s.sessions, gone) <==> exists t :: t in gone && s.sessions[t].id == id
    {
    }
  }

  // The plan is over: its time is up, or its session is gone or no longer authenticates.
  predicate Lapsed(s: State, plan: Plan, env: Environment)
  {
    plan.expiresAt <= env.now || forall t :: t in s.sessions && s.sessions[t].id == plan.session ==> plan.session in env.expired
  }

  function ExpiredSessions(s: State, env: Environment): (tokens: set<nat>)
    ensures forall t :: t in tokens <==> t in s.sessions && s.sessions[t].id in env.expired
  {
    set t | t in s.sessions && s.sessions[t].id in env.expired
  }

  function LapsedPlans(s: State, env: Environment): (tokens: set<nat>)
    ensures forall t :: t in tokens <==> t in s.plans && Lapsed(s, s.plans[t], env)
  {
    set t | t in s.plans && Lapsed(s, s.plans[t], env)
  }

  // A clean-up takes exactly the sessions that no longer authenticate and the lapsed plans.
  ghost predicate CleanedUp(s: State, next: State, env: Environment)
  {
    && Removed(s, next, ExpiredSessions(s, env), LapsedPlans(s, env))
    && next.opening == s.opening
  }

  lemma CleanupOutcome(s: State, env: Environment)
    ensures CleanedUp(s, Cleanup(s, env), env)
  {
    var next := Cleanup(s, env);
    KeepRemoves(s, next.sessions, next.plans);
    assert s.sessions.Keys - next.sessions.Keys == ExpiredSessions(s, env);
    forall t | t in s.plans
      ensures t in next.plans <==> !Lapsed(s, s.plans[t], env)
    {
      LapsedPlan(s, s.plans[t], env);
    }
    assert s.plans.Keys - next.plans.Keys == LapsedPlans(s, env);
  }

  lemma LapsedPlan(s: State, plan: Plan, env: Environment)
    ensures Lapsed(s, plan, env) <==> plan.expiresAt <= env.now || plan.session !in Ids(Authenticated(s.sessions, env.expired))
  {
    var left := Authenticated(s.sessions, env.expired);
    if t :| t in s.sessions && s.sessions[t].id == plan.session && plan.session !in env.expired {
      assert t in left && left[t].id == plan.session;
    }
  }

  // A reservation is made exactly when the login has no session and none opening, and fewer
  // than eight sessions are open or opening.
  ghost predicate Reserved(s: State, next: State, binding: nat, env: Environment, ok: bool)
  {
    var c := Cleanup(s, env);
    && CleanedUp(s, c, env)
    && (ok <==> binding !in s.opening && (forall t :: t in c.sessions ==> c.sessions[t].binding != binding) && |c.sessions| + |c.opening| < 8)
    && next == c.(opening := if ok then c.opening + [binding] else c.opening)
  }

  lemma ReserveOutcome(s: State, binding: nat, env: Environment)
    ensures Reserved(s, Apply(s, Reserve(binding, env)), binding, env, CanReserve(Cleanup(s, env), binding))
  {
    CleanupOutcome(s, env);
  }

  // A session is registered exactly when its login has none and fewer than eight are open;
  // otherwise its flag is set.
  ghost predicate Registered(s: State, next: State, token: nat, session: Session, env: Environment, ok: bool)
  {
    var c := Cleanup(s, env);
    && CleanedUp(s, c, env)
    && (ok <==> (forall t :: t in c.sessions ==> c.sessions[t].binding != session.binding) && |c.sessions| < 8)
    && (ok ==> next == c.(sessions := c.sessions[token := session]))
    && (!ok ==> next == c.(revoked := c.revoked + {session.id}))
  }

  lemma RegisterOutcome(s: State, token: nat, session: Session, env: Environment)
    ensures Registered(s, Apply(s, Register(token, session, env)), token, session, env, CanRegister(Cleanup(s, env), session))
  {
    CleanupOutcome(s, env);
  }

  // A plan is added exactly when its session is registered and has none; otherwise it is abandoned.
  ghost predicate Planned(s: State, next: State, token: nat, plan: Plan, env: Environment, ok: bool)
  {
    var c := Cleanup(s, env);
    && CleanedUp(s, c, env) && next.issued == s.issued[token := plan]
    && (ok <==>
          && (exists t :: t in c.sessions && c.sessions[t].id == plan.session) && plan.session !in c.revoked
          && (forall t :: t in c.plans ==> c.plans[t].session != plan.session))
    && next == c.(issued := next.issued,
                  plans := if ok then c.plans[token := plan] else c.plans,
                  abandoned := if ok then c.abandoned else c.abandoned + {token})
  }

  lemma AddPlanOutcome(s: State, token: nat, plan: Plan, env: Environment)
    ensures Planned(s, Apply(s, AddPlan(token, plan, env)), token, plan, env, CanPlan(Cleanup(s, env), plan))
  {
    CleanupOutcome(s, env);
  }

  // The plan leaves the table, and begins exactly when it is still there for this session and
  // login, its time is not over, and its start was recorded; otherwise it is abandoned.
  ghost predicate Started(s: State, next: State, token: nat, lease: nat, binding: nat, started: bool, env: Environment, plan: Option<Plan>)
  {
    var c := Cleanup(s, env);
    && CleanedUp(s, c, env)
    && plan == (if token in s.plans && !Lapsed(s, s.plans[token], env) && s.plans[token].session == lease && s.plans[token].binding == binding && started
                then Some(s.plans[token]) else None)
    && next == c.(plans := c.plans - {token},
                  begun := if plan.Some? then c.begun + [Begun(token, plan.value)] else c.begun,
                  abandoned := if plan.None? && token in c.plans then c.abandoned + {token} else c.abandoned)
  }

  lemma BeginOutcome(s: State, token: nat, lease: nat, binding: nat, started: bool, env: Environment)
    ensures var op, c := Begin(token, lease, binding, started, env), Cleanup(s, env);
            Started(s, Apply(s, op), token, lease, binding, started, env,
                    if token in c.plans && CanBegin(c, op) then Some(c.plans[token]) else None)
  {
    CleanupOutcome(s, env);
    var op, c := Begin(token, lease, binding, started, env), Cleanup(s, env);
    if token !in c.plans {
      assert c.plans - {token} == c.plans;
    } else if !CanBegin(c, op) {
      assert c.plans.Keys - (c.plans - {token}).Keys == {token};
      assert IdsOf(c.sessions, c.sessions.Keys - c.sessions.Keys) == {};
    }
  }

  // Closing and expiring take exactly the one session, and leave its plans to the next clean-up.
  ghost predicate Closed(s: State, next: State, token: nat, ok: bool)
    requires ok ==> token in s.sessions
  {
    Removed(s, next, if ok then {token} else {}, {}) && next.opening == s.opening
  }

  lemma CloseOutcome(s: State, token: nat, binding: nat, ingress: Ingress, origin: nat)
    ensures Closed(s, Apply(s, Close(token, binding, ingress, origin)), token,
                   token in s.sessions && s.sessions[token].binding == binding
                   && s.sessions[token].ingress == ingress && s.sessions[token].origin == origin)
  {
    OneRemoved(s, token);
  }

  lemma ExpireOutcome(s: State, token: nat, id: nat, env: Environment)
    ensures Closed(s, Apply(s, ExpireOne(token, id, env)), token, token in s.sessions && s.sessions[token].id == id && id in env.expired)
  {
    OneRemoved(s, token);
  }

  lemma OneRemoved(s: State, token: nat)
    ensures Closed(s, s, token, false)
    ensures token in s.sessions ==> Closed(s, Keep(s, s.sessions - {token}, s.plans), token, true)
  {
    if token in s.sessions {
      KeepRemoves(s, s.sessions - {token}, s.plans);
      assert s.sessions.Keys - (s.sessions - {token}).Keys == {token};
      assert s.plans.Keys - s.plans.Keys == {};
    }
  }

  lemma RevokeAllOutcome(s: State)
    ensures Removed(s, Apply(s, RevokeAll), s.sessions.Keys, s.plans.Keys) && Apply(s, RevokeAll).opening == []
  {
    KeepRemoves(s, map[], map[]);
    var none: set<nat> := {};
    assert s.sessions.Keys - none == s.sessions.Keys && s.plans.Keys - none == s.plans.Keys;
  }

  lemma RegisteredIsNotRevoked(ops: seq<Op>, token: nat)
    requires FreshRun(ops) && token in Run(ops).sessions
    ensures Run(ops).sessions[token].id !in Run(ops).revoked
  {
    EveryInterleavingIsValid(ops);
  }

  // An acquisition hands out the session exactly for its own login, ingress and origin while it
  // authenticates, and changes nothing but for the clean-up.
  ghost predicate Acquired(s: State, next: State, token: nat, binding: nat, ingress: Ingress, origin: nat, env: Environment, session: Option<Session>)
  {
    && CleanedUp(s, next, env)
    && session == if token in s.sessions && s.sessions[token].binding == binding && s.sessions[token].ingress == ingress
                     && s.sessions[token].origin == origin && s.sessions[token].id !in env.expired
                  then Some(s.sessions[token]) else None
  }

  lemma AcquireOutcome(s: State, token: nat, binding: nat, ingress: Ingress, origin: nat, env: Environment)
    ensures Apply(s, Acquire(token, binding, ingress, origin, env)) == Cleanup(s, env)
    ensures Acquired(s, Cleanup(s, env), token, binding, ingress, origin, env,
                     if token in Cleanup(s, env).sessions && Matches(Cleanup(s, env).sessions[token], binding, ingress, origin)
                     then Some(Cleanup(s, env).sessions[token]) else None)
  {
    CleanupOutcome(s, env);
  }

  // ---------- The broker object ----------

  lemma WithoutFirst(kept: seq<nat>, rest: seq<nat>, binding: nat)
    requires rest != []
    ensures kept + Without(rest, binding) == (if rest[0] != binding then kept + [rest[0]] else kept) + Without(rest[1..], binding)
  {
    if rest[0] != binding {
      Associative(kept, [rest[0]], Without(rest[1..], binding));
    }
  }

  class Broker {
    var sessions: map<nat, Session>
    var opening: seq<nat>
    var plans: map<nat, Plan>
    // The `revoked` flags of all session objects ever made.
    var revoked: set<nat>

    ghost var issued: map<nat, Plan>
    ghost var begun: seq<Begun>
    ghost var abandoned: set<nat>
    ghost var ops: seq<Op>

    ghost function Model(): State
      reads this
    {
      State(sessions, opening, plans, revoked, issued, begun, abandoned)
    }

    // The object is always in the state that its locked sections led to, so everything
    // proved of all interleavings holds of it.
    ghost predicate Valid()
      reads this
    {
      FreshRun(ops) && Model() == Run(ops)
    }

    // The object moved by exactly one locked section.
    twostate predicate Did(op: Op)
      reads this
    {
      Valid() && ops == old(ops) + [op] && Model() == Apply(old(Model()), op)
    }

    constructor ()
      ensures Valid() && ops == []
    {
      sessions, opening, plans, revoked := map[], [], map[], {};
      issued, begun, abandoned, ops := map[], [], {}, [];
    }

    // Removes the given sessions one by one, setting the flag of each.
    method RemoveSessions(tokens: set<nat>)
      requires tokens <= sessions.Keys
      modifies this`sessions, this`revoked
      ensures sessions == old(sessions) - tokens
      ensures revoked == old(revoked) + IdsOf(old(sessions), old(sessions).Keys - sessions.Keys)
    {
      var left := tokens;
      while left != {}
        invariant left <= tokens
        invariant sessions == old(sessions) - (tokens - left)
        invariant revoked == old(revoked) + IdsOf(old(sessions), tokens - left)
        decreases left
      {
        var t :| t in left;
        revoked := revoked + {sessions[t].id};
        sessions := sessions - {t};
        left := left - {t};
      }
      assert tokens == old(sessions).Keys - sessions.Keys;
    }

    // Drops every plan outside the given set; its `Drop` abandons it.
    method RetainPlans(kept: set<nat>)
      requires kept <= plans.Keys
      modifies this`plans, this`abandoned
      ensures plans == old(plans) - (old(plans).Keys - kept)
      ensures abandoned == old(abandoned) + (old(plans).Keys - plans.Keys)
    {
      var dropped := plans.Keys - kept;
      plans := plans - dropped;
      abandoned := abandoned + dropped;
    }

    method CleanupExpired(env: Environment)
      modifies this
      ensures Model() == Cleanup(old(Model()), env) && CleanedUp(old(Model()), Model(), env) && ops == old(ops)
    {
      CleanupOutcome(Model(), env);
      RemoveSessions(set t | t in sessions && sessions[t].id in env.expired);
      var active := Ids(sessions);
      assert sessions == Authenticated(old(sessions), env.expired);
      RetainPlans(set t | t in plans && env.now < plans[t].expiresAt && plans[t].session in active);
      assert plans == Current(old(plans), env.now, active);
    }

    method ReserveOpening(binding: nat, env: Environment) returns (ok: bool)
      requires Valid()
      modifies this
      ensures Did(Reserve(binding, env))
      ensures Reserved(old(Model()), Model(), binding, env, ok)
    {
      ReserveOutcome(Model(), binding, env);
      RunExtends(ops, Reserve(binding, env));
      CleanupExpired(env);
      ok := binding !in opening && binding !in Bindings(sessions) && |sessions| + |opening| < MAX_SESSIONS;
      if ok {
        opening := opening + [binding];
      }
      ops := ops + [Reserve(binding, env)];
    }

    method RetainOpening(binding: nat)
      modifies this`opening
      ensures opening == Without(old(opening), binding)
    {
      var kept := [];
      for i := 0 to |opening|
        invariant opening == old(opening)
        invariant kept + Without(opening[i..], binding) == Without(opening, binding)
      {
        WithoutFirst(kept, opening[i..], binding);
        assert opening[i..][1..] == opening[i + 1..];
        if opening[i] != binding {
          kept := kept + [opening[i]];
        }
      }
      opening := kept;
    }

    method ReleaseOpening(binding: nat)
      requires Valid()
      modifies this
      ensures Did(Release(binding)) && multiset(opening) == multiset(old(opening))[binding := 0]
    {
      RunExtends(ops, Release(binding));
      OthersKeepOpening(opening, binding);
      RetainOpening(binding);
      ops := ops + [Release(binding)];
    }

    method RegisterSession(token: nat, session: Session, env: Environment) returns (ok: bool)
      requires Valid() && Fresh(Model(), Register(token, session, env))
      modifies this
      ensures Did(Register(token, session, env))
      ensures Registered(old(Model()), Model(), token, session, env, ok)
    {
      RegisterOutcome(Model(), token, session, env);
      RunExtends(ops, Register(token, session, env));
      CleanupExpired(env);
      ok := session.binding !in Bindings(sessions) && |sessions| < MAX_SESSIONS;
      if ok {
        sessions := sessions[token := session];
      } else {
        revoked := revoked + {session.id};
      }
      ops := ops + [Register(token, session, env)];
    }

    method AddUploadPlan(token: nat, plan: Plan, env: Environment) returns (ok: bool)
      requires Valid() && Fresh(Model(), AddPlan(token, plan, env))
      modifies this
      ensures Did(AddPlan(token, plan, env))
      ensures Planned(old(Model()), Model(), token, plan, env, ok)
    {
      AddPlanOutcome(Model(), token, plan, env);
      RunExtends(ops, AddPlan(token, plan, env));
      CleanupExpired(env);
      ok := plan.session in Ids(sessions) && plan.session !in revoked && !HasPlan(plans, plan.session);
      issued := issued[token := plan];
      if ok {
        plans := plans[token := plan];
      } else {
        abandoned := abandoned + {token};
      }
      ops := ops + [AddPlan(token, plan, env)];
    }

    // `begin_upload`: the plan leaves the table whatever the checks say.
    method BeginUpload(token: nat, lease: nat, binding: nat, started: bool, env: Environment) returns (plan: Option<Plan>)
      requires Valid()
      modifies this
      ensures Did(Begin(token, lease, binding, started, env))
      ensures Started(old(Model()), Model(), token, lease, binding, started, env, plan)
    {
      BeginOutcome(Model(), token, lease, binding, started, env);
      ghost var op := Begin(token, lease, binding, started, env);
      RunExtends(ops, op);
      CleanupExpired(env);
      plan := TakePlan(token, lease, binding, started, env);
      ops := ops + [op];
    }

    // The rest of the locked section, after the clean-up.
    method TakePlan(token: nat, lease: nat, binding: nat, started: bool, env: Environment) returns (plan: Option<Plan>)
      modifies this
      ensures Model() == Taken(old(Model()), Begin(token, lease, binding, started, env)) && ops == old(ops)
      ensures var op := Begin(token, lease, binding, started, env);
              plan == if token in old(plans) && CanBegin(old(Model()), op) then Some(old(plans)[token]) else None
    {
      if token !in plans {
        return None;
      }
      ghost var before := plans;
      var found := plans[token];
      plans := plans - {token};
      if found.session != lease || found.binding != binding || env.now >= found.expiresAt || !started {
        abandoned := abandoned + {token};
        assert before.Keys - plans.Keys == {token};
        assert IdsOf(sessions, sessions.Keys - sessions.Keys) == {};
        return None;
      }
      begun := begun + [Begun(token, found)];
      plan := Some(found);
    }

    method RemoveSession(token: nat)
      requires token in sessions
      modifies this`sessions, this`revoked
      ensures Model() == Keep(old(Model()), old(sessions) - {token}, plans)
    {
      RemoveSessions({token});
      assert abandoned + (plans.Keys - plans.Keys) == abandoned;
    }

    method CloseSession(token: nat, binding: nat, ingress: Ingress, origin: nat) returns (ok: bool)
      requires Valid()
      modifies this
      ensures Did(Close(token, binding, ingress, origin))
      ensures ok <==> token in old(sessions) && Matches(old(sessions)[token], binding, ingress, origin)
      ensures Closed(old(Model()), Model(), token, ok)
    {
      ghost var op := Close(token, binding, ingress, origin);
      CloseOutcome(Model(), token, binding, ingress, origin);
      RunExtends(ops, op);
      ghost var next := Apply(Model(), op);
      ok := RemoveOwn(token, binding, ingress, origin);
      ops := ops + [op];
      assert Model() == next;
    }

    method RemoveOwn(token: nat, binding: nat, ingress: Ingress, origin: nat) returns (ok: bool)
      modifies this`sessions, this`revoked
      ensures Model() == Apply(old(Model()), Close(token, binding, ingress, origin))
      ensures ok <==> token in old(sessions) && Matches(old(sessions)[token], binding, ingress, origin)
    {
      ok := token in sessions && Matches(sessions[token], binding, ingress, origin);
      if ok {
        RemoveSession(token);
      }
    }

    method AcquireSession(token: nat, binding: nat, ingress: Ingress, origin: nat, env: Environment) returns (session: Option<Session>)
      requires Valid()
      modifies this
      ensures Did(Acquire(token, binding, ingress, origin, env))
      ensures Acquired(old(Model()), Model(), token, binding, ingress, origin, env, session)
      ensures session.Some? ==> token in sessions && sessions[token] == session.value && session.value.id !in revoked
    {
      AcquireOutcome(Model(), token, binding, ingress, origin, env);
      RunExtends(ops, Acquire(token, binding, ingress, origin, env));
      ghost var next := Cleanup(Model(), env);
      CleanupExpired(env);
      assert Model() == next;
      session := if token in sessions && Matches(sessions[token], binding, ingress, origin) then Some(sessions[token]) else None;
      ops := ops + [Acquire(token, binding, ingress, origin, env)];
      assert Model() == next;
      if session.Some? {
        RegisteredIsNotRevoked(ops, token);
      }
    }

    method RemoveExpired(token: nat, id: nat, env: Environment)
      modifies this`sessions, this`revoked
      ensures Model() == Apply(old(Model()), ExpireOne(token, id, env))
    {
      if token in sessions && sessions[token].id == id && id in env.expired {
        RemoveSession(token);
      }
    }

    // One turn of the loop that `schedule_expiry` spawns.
    method ExpireSession(token: nat, id: nat, env: Environment)
      requires Valid()
      modifies this
      ensures Did(ExpireOne(token, id, env))
      ensures Closed(old(Model()), Model(), token, token in old(sessions) && old(sessions)[token].id == id && id in env.expired)
    {
      ExpireOutcome(Model(), token, id, env);
      RunExtends(ops, ExpireOne(token, id, env));
      ghost var next := Apply(Model(), ExpireOne(token, id, env));
      RemoveExpired(token, id, env);
      ops := ops + [ExpireOne(token, id, env)];
      assert Model() == next;
    }

    method RevokeEveryone()
      requires Valid()
      modifies this
      ensures Did(RevokeAll)
      ensures sessions == map[] && plans == map[] && opening == []
      ensures Removed(old(Model()), Model(), old(sessions).Keys, old(plans).Keys)
    {
      RunExtends(ops, RevokeAll);
      RevokeAllOutcome(Model());
      ghost var next := Apply(Model(), RevokeAll);
      RemoveEverything();
      assert Model() == next;
      ops := ops + [RevokeAll];
      assert Model() == next;
    }

    method RemoveEverything()
      modifies this
      ensures Model() == Apply(old(Model()), RevokeAll) && ops == old(ops)
      ensures sessions == map[] && plans == map[] && opening == []
    {
      RemoveSessions(sessions.Keys);
      assert sessions == map[];
      RetainPlans({});
      assert plans == map[];
      opening := [];
    }

    method RevokeSession(binding: nat)
      requires Valid()
      modifies this
      ensures Did(RevokeLogin(binding)) && LoginRevoked(old(Model()), Model(), binding)
    {
      RevokeOutcome(Model(), binding);
      RunExtends(ops, RevokeLogin(binding));
      ghost var next := Apply(Model(), RevokeLogin(binding));
      RemoveLogin(binding);
      assert Model() == next;
      ops := ops + [RevokeLogin(binding)];
      assert Model() == next;
    }

    method RemoveLogin(binding: nat)
      modifies this
      ensures Model() == Apply(old(Model()), RevokeLogin(binding)) && ops == old(ops)
    {
      RemoveSessions(set t | t in sessions && sessions[t].binding == binding);
      assert sessions == OtherSessions(old(sessions), binding);
      RetainPlans(set t | t in plans && plans[t].binding != binding);
      assert plans == OtherPlans(old(plans), binding);
      RetainOpening(binding);
    }
  }
}
