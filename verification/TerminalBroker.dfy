/**
  The terminal ticket broker: one-time tickets, active terminal entries, and the leases
  whose drop releases them. Every method of the source runs under one lock, so a run is a
  sequence of these steps.
 */
module TerminalBroker {
  import opened Wrappers

  const MAX_SESSIONS := 8

  datatype Ingress = Public | Recovery

  datatype Ticket = Ticket(binding: nat, ingress: Ingress, origin: nat, expiresAt: int)

  datatype Grant = Grant(token: nat, id: nat)

  // `active` maps a login to its terminal session; `leases` maps every live lease to its
  // login; `cancelled` holds the sessions whose watch channel was set.
  datatype State = State(
    tickets: map<nat, Ticket>, active: map<nat, nat>, leases: map<nat, nat>, cancelled: set<nat>,
    issued: map<nat, Ticket>, grants: seq<Grant>, ids: set<nat>)

  const EMPTY := State(map[], map[], map[], {}, map[], [], {})

  datatype Op =
    | Issue(token: nat, ticket: Ticket, now: int)
    | Consume(token: nat, binding: nat, ingress: Ingress, origin: nat, id: nat, now: int)
    | ExpireTicket(token: nat)
    | DropLease(id: nat)
    | RevokeLogin(binding: nat)
    | RevokeAll

  datatype Error = Busy | Expired | Invalid

  function Unexpired(tickets: map<nat, Ticket>, now: int): map<nat, Ticket>
  {
    map t | t in tickets && tickets[t].expiresAt > now :: tickets[t]
  }

  function OtherTickets(tickets: map<nat, Ticket>, binding: nat): map<nat, Ticket>
  {
    map t | t in tickets && tickets[t].binding != binding :: tickets[t]
  }

  predicate HasTicket(tickets: map<nat, Ticket>, binding: nat)
  {
    exists t :: t in tickets && tickets[t].binding == binding
  }

  predicate CanIssue(tickets: map<nat, Ticket>, active: map<nat, nat>, binding: nat)
  {
    binding !in active && !HasTicket(tickets, binding) && |tickets| < MAX_SESSIONS && |active| < MAX_SESSIONS
  }

  // What `consume` answers, before it changes anything.
  function Verdict(s: State, token: nat, binding: nat, ingress: Ingress, origin: nat, now: int): Result<Ticket, Error>
  {
    if token in s.tickets then Judged(s.tickets[token], s.active, binding, ingress, origin, now) else Err(Invalid)
  }

  function Judged(ticket: Ticket, active: map<nat, nat>, binding: nat, ingress: Ingress, origin: nat, now: int): Result<Ticket, Error>
  {
    if ticket.expiresAt <= now then Err(Expired)
    else if ticket.binding != binding || ticket.ingress != ingress || ticket.origin != origin then Err(Invalid)
    else if binding in active || |active| >= MAX_SESSIONS then Err(Busy)
    else Ok(ticket)
  }

  function Apply(s: State, op: Op): State
  {
    match op
    case Issue(token, ticket, now) =>
      var tickets := Unexpired(s.tickets, now);
      if CanIssue(tickets, s.active, ticket.binding)
      then s.(tickets := tickets[token := ticket], issued := s.issued[token := ticket])
      else s.(tickets := tickets)
    case Consume(token, binding, ingress, origin, id, now) =>
      var c := s.(tickets := Unexpired(s.tickets - {token}, now));
      if Verdict(s, token, binding, ingress, origin, now).Err? then c
      else c.(active := c.active[binding := id], leases := c.leases[id := binding],
              grants := c.grants + [Grant(token, id)], ids := c.ids + {id})
    case ExpireTicket(token) => s.(tickets := s.tickets - {token})
    case DropLease(id) =>
      if id !in s.leases then s
      else
        var binding := s.leases[id];
        s.(leases := s.leases - {id},
           active := if binding in s.active && s.active[binding] == id then s.active - {binding} else s.active)
    case RevokeLogin(binding) =>
      s.(tickets := OtherTickets(s.tickets, binding),
         cancelled := s.cancelled + if binding in s.active then {s.active[binding]} else {})
    case RevokeAll =>
      s.(tickets := map[], cancelled := s.cancelled + s.active.Values)
  }

  // Random tickets and session ids are new.
  predicate Fresh(s: State, op: Op)
  {
    match op
    case Issue(token, _, _) => token !in s.issued
    case Consume(_, _, _, _, id, _) => id !in s.ids
    case _ => true
  }

  function Run(ops: seq<Op>): State
  {
    if ops == [] then EMPTY else Apply(Run(ops[..|ops| - 1]), ops[|ops| - 1])
  }

  predicate FreshRun(ops: seq<Op>)
  {
    ops == [] || (FreshRun(ops[..|ops| - 1]) && Fresh(Run(ops[..|ops| - 1]), ops[|ops| - 1]))
  }

  // ---------- The invariant ----------

  ghost predicate OneTicketPerLogin(tickets: map<nat, Ticket>)
  {
    forall t, u :: t in tickets && u in tickets && tickets[t].binding == tickets[u].binding ==> t == u
  }

  ghost predicate TicketsValid(tickets: map<nat, Ticket>, active: map<nat, nat>, issued: map<nat, Ticket>)
  {
    && |tickets| <= MAX_SESSIONS
    && OneTicketPerLogin(tickets)
    && (forall t :: t in tickets ==> tickets[t].binding !in active && t in issued && issued[t] == tickets[t])
  }

  // Active entries and live leases are two views of one relation.
  ghost predicate OneToOne(active: map<nat, nat>, leases: map<nat, nat>)
  {
    && (forall b :: b in active ==> active[b] in leases && leases[active[b]] == b)
    && (forall id :: id in leases ==> leases[id] in active && active[leases[id]] == id)
  }

  ghost predicate HasGranted(grants: seq<Grant>, token: nat)
  {
    exists i :: 0 <= i < |grants| && grants[i].token == token
  }

  ghost predicate GrantsValid(tickets: set<nat>, issued: set<nat>, grants: seq<Grant>)
  {
    && (forall i, j :: 0 <= i < j < |grants| ==> grants[i].token != grants[j].token)
    && (forall t :: HasGranted(grants, t) ==> t in issued && t !in tickets)
  }

  ghost predicate Invariant(s: State)
  {
    && TicketsValid(s.tickets, s.active, s.issued)
    && |s.active| <= MAX_SESSIONS
    && OneToOne(s.active, s.leases)
    && GrantsValid(s.tickets.Keys, s.issued.Keys, s.grants)
    && s.leases.Keys <= s.ids
  }

  // Removing tickets never hurts.
  lemma FewerTickets(s: State, tickets: map<nat, Ticket>)
    requires Invariant(s)
    requires tickets.Keys <= s.tickets.Keys && forall t :: t in tickets ==> tickets[t] == s.tickets[t]
    ensures Invariant(s.(tickets := tickets))
  {
    CardinalityMonotone(tickets.Keys, s.tickets.Keys);
  }

  lemma IssueTickets(tickets: map<nat, Ticket>, active: map<nat, nat>, issued: map<nat, Ticket>, token: nat, ticket: Ticket)
    requires TicketsValid(tickets, active, issued) && token !in issued && CanIssue(tickets, active, ticket.binding)
    ensures TicketsValid(tickets[token := ticket], active, issued[token := ticket])
  {
    assert tickets[token := ticket].Keys == tickets.Keys + {token};
  }

  lemma IssueGrants(tickets: map<nat, Ticket>, issued: map<nat, Ticket>, grants: seq<Grant>, token: nat, ticket: Ticket)
    requires GrantsValid(tickets.Keys, issued.Keys, grants) && token !in issued
    ensures GrantsValid(tickets[token := ticket].Keys, issued[token := ticket].Keys, grants)
  {
  }

  lemma IssueKeeps(s: State, token: nat, ticket: Ticket)
    requires Invariant(s) && token !in s.issued && CanIssue(s.tickets, s.active, ticket.binding)
    ensures Invariant(s.(tickets := s.tickets[token := ticket], issued := s.issued[token := ticket]))
  {
    IssueTickets(s.tickets, s.active, s.issued, token, ticket);
    IssueGrants(s.tickets, s.issued, s.grants, token, ticket);
  }

  lemma GrantKeeps(tickets: set<nat>, issued: set<nat>, grants: seq<Grant>, token: nat, id: nat)
    requires GrantsValid(tickets, issued, grants) && token in tickets && token in issued
    ensures GrantsValid(tickets - {token}, issued, grants + [Grant(token, id)])
  {
    var more := grants + [Grant(token, id)];
    forall t | HasGranted(more, t)
      ensures t in issued && t !in tickets - {token}
    {
      var i :| 0 <= i < |more| && more[i].token == t;
      if i < |grants| {
        assert HasGranted(grants, t);
      }
    }
    forall i, j | 0 <= i < j < |more|
      ensures more[i].token != more[j].token
    {
      if j == |grants| {
        assert HasGranted(grants, grants[i].token);
      }
    }
  }

  lemma TicketTaken(tickets: map<nat, Ticket>, active: map<nat, nat>, issued: map<nat, Ticket>, token: nat, id: nat)
    requires TicketsValid(tickets, active, issued) && token in tickets
    ensures TicketsValid(tickets - {token}, active[tickets[token].binding := id], issued)
  {
    CardinalityMonotone((tickets - {token}).Keys, tickets.Keys);
  }

  lemma LeaseAdded(active: map<nat, nat>, leases: map<nat, nat>, binding: nat, id: nat)
    requires OneToOne(active, leases) && binding !in active && id !in leases
    ensures OneToOne(active[binding := id], leases[id := binding])
    ensures |active[binding := id]| == |active| + 1
  {
    assert active[binding := id].Keys == active.Keys + {binding};
  }

  lemma ConsumeKeeps(s: State, token: nat, id: nat)
    requires Invariant(s) && token in s.tickets && id !in s.ids && |s.active| < MAX_SESSIONS
    ensures var binding := s.tickets[token].binding;
            Invariant(s.(tickets := s.tickets - {token}, active := s.active[binding := id], leases := s.leases[id := binding],
                         grants := s.grants + [Grant(token, id)], ids := s.ids + {id}))
  {
    TicketTaken(s.tickets, s.active, s.issued, token, id);
    LeaseAdded(s.active, s.leases, s.tickets[token].binding, id);
    GrantKeeps(s.tickets.Keys, s.issued.Keys, s.grants, token, id);
    assert (s.tickets - {token}).Keys == s.tickets.Keys - {token};
  }

  lemma DropKeeps(s: State, id: nat)
    requires Invariant(s)
    ensures Invariant(Apply(s, DropLease(id)))
    ensures id in s.leases ==> s.leases[id] !in Apply(s, DropLease(id)).active
  {
    if id in s.leases {
      CardinalityMonotone((s.active - {s.leases[id]}).Keys, s.active.Keys);
    }
  }

  lemma StepKeepsInvariant(s: State, op: Op)
    requires Invariant(s) && Fresh(s, op)
    ensures Invariant(Apply(s, op))
  {
    match op
    case Issue(token, ticket, now) =>
      FewerTickets(s, Unexpired(s.tickets, now));
      var c := s.(tickets := Unexpired(s.tickets, now));
      if CanIssue(c.tickets, c.active, ticket.binding) {
        IssueKeeps(c, token, ticket);
      }
    case Consume(token, binding, ingress, origin, id, now) => ConsumeStep(s, op);
    case ExpireTicket(token) => FewerTickets(s, s.tickets - {token});
    case DropLease(id) => DropKeeps(s, id);
    case RevokeLogin(binding) => FewerTickets(s, OtherTickets(s.tickets, binding));
    case RevokeAll => FewerTickets(s, map[]);
  }

  lemma ConsumeStep(s: State, op: Op)
    requires Invariant(s) && Fresh(s, op) && op.Consume?
    ensures Invariant(Apply(s, op))
  {
    var rest := Unexpired(s.tickets - {op.token}, op.now);
    if Verdict(s, op.token, op.binding, op.ingress, op.origin, op.now).Err? {
      FewerTickets(s, rest);
    } else {
      ConsumeKeeps(s, op.token, op.id);
      var c := s.(tickets := s.tickets - {op.token}, active := s.active[op.binding := op.id], leases := s.leases[op.id := op.binding],
                  grants := s.grants + [Grant(op.token, op.id)], ids := s.ids + {op.id});
      FewerTickets(c, rest);
    }
  }

  /**
    Every run: active entries and live leases stay in one-to-one correspondence, a login
    has at most one of a ticket and an active entry, there are at most 8 of each, and
    each ticket grants at most one lease.
   */
  lemma {:induction false} EveryRunIsValid(ops: seq<Op>)
    requires FreshRun(ops)
    ensures Invariant(Run(ops))
    ensures |Run(ops).leases| == |Run(ops).active| <= MAX_SESSIONS
  {
    if ops != [] {
      EveryRunIsValid(ops[..|ops| - 1]);
      StepKeepsInvariant(Run(ops[..|ops| - 1]), ops[|ops| - 1]);
    }
    SameSize(Run(ops).active, Run(ops).leases);
  }

  lemma SameSize(active: map<nat, nat>, leases: map<nat, nat>)
    requires OneToOne(active, leases)
    ensures |active| == |leases|
  {
    if active.Keys == {} {
      assert leases.Keys == {};
    } else {
      var b :| b in active;
      var smaller, fewer := active - {b}, leases - {active[b]};
      assert smaller.Keys == active.Keys - {b} && fewer.Keys == leases.Keys - {active[b]};
      SameSize(smaller, fewer);
    }
  }

  // A lease comes only from an unexpired ticket of the same login, ingress and origin.
  lemma LeaseNeedsItsTicket(s: State, op: Op)
    requires Invariant(s) && op.Consume? && Apply(s, op).grants != s.grants
    ensures op.token in s.issued
    ensures var ticket := s.issued[op.token];
            ticket.binding == op.binding && ticket.ingress == op.ingress && ticket.origin == op.origin && op.now < ticket.expiresAt
    ensures !HasGranted(s.grants, op.token) && op.binding !in s.active
    ensures Apply(s, op).active[op.binding] == op.id && Apply(s, op).leases[op.id] == op.binding
  {
  }

  function RunFrom(s: State, ops: seq<Op>): State
  {
    if ops == [] then s else Apply(RunFrom(s, ops[..|ops| - 1]), ops[|ops| - 1])
  }

  predicate FreshFrom(s: State, ops: seq<Op>)
  {
    ops == [] || (FreshFrom(s, ops[..|ops| - 1]) && Fresh(RunFrom(s, ops[..|ops| - 1]), ops[|ops| - 1]))
  }

  // An issued ticket that is no longer in the table can never come back.
  ghost predicate Spent(s: State, token: nat)
  {
    token in s.issued && token !in s.tickets
  }

  lemma StepKeepsSpent(s: State, op: Op, token: nat)
    requires Spent(s, token) && Fresh(s, op)
    ensures Spent(Apply(s, op), token)
    ensures HasGranted(Apply(s, op).grants, token) ==> HasGranted(s.grants, token)
  {
    if HasGranted(Apply(s, op).grants, token) {
      var i :| 0 <= i < |Apply(s, op).grants| && Apply(s, op).grants[i].token == token;
      assert i < |s.grants| && s.grants[i].token == token;
    }
  }

  // The tickets a revoke takes: those of one login, or all of them.
  predicate Revokes(op: Op, ticket: Ticket)
  {
    op.RevokeAll? || (op.RevokeLogin? && op.binding == ticket.binding)
  }

  /**
    A revoke is final: after it, whatever happens, no ticket that it took grants a lease.
   */
  lemma {:induction false} RevokeIsFinal(s: State, revoke: Op, token: nat, ops: seq<Op>)
    requires Invariant(s) && token in s.tickets && Revokes(revoke, s.tickets[token])
    requires FreshFrom(Apply(s, revoke), ops)
    ensures var now := RunFrom(Apply(s, revoke), ops);
            Spent(now, token) && !HasGranted(now.grants, token)
  {
    if ops == [] {
      assert token in s.issued;
    } else {
      RevokeIsFinal(s, revoke, token, ops[..|ops| - 1]);
      StepKeepsSpent(RunFrom(Apply(s, revoke), ops[..|ops| - 1]), ops[|ops| - 1], token);
    }
  }

  // ---------- What each step leaves ----------

  // Exactly the tickets outside `gone` are left, unchanged.
  predicate TicketsLeft(s: State, next: State, gone: set<nat>)
  {
    next.tickets == s.tickets - gone
  }

  function Overdue(s: State, now: int): (tokens: set<nat>)
    ensures forall t :: t in tokens <==> t in s.tickets && s.tickets[t].expiresAt <= now
  {
    set t | t in s.tickets && s.tickets[t].expiresAt <= now
  }

  function TicketsOf(s: State, binding: nat): (tokens: set<nat>)
    ensures forall t :: t in tokens <==> t in s.tickets && s.tickets[t].binding == binding
  {
    set t | t in s.tickets && s.tickets[t].binding == binding
  }

  /**
    An issue removes the overdue tickets and no other, and adds the new one exactly when the
    login has neither a ticket nor a terminal and fewer than eight of each exist.
   */
  predicate TicketIssued(s: State, next: State, token: nat, ticket: Ticket, now: int, ok: bool)
  {
    var left := s.tickets - Overdue(s, now);
    && (ok <==> ticket.binding !in s.active && |left| < 8 && |s.active| < 8 && forall t :: t in left ==> left[t].binding != ticket.binding)
    && next == s.(tickets := if ok then left[token := ticket] else left, issued := if ok then s.issued[token := ticket] else s.issued)
  }

  lemma IssueOutcome(s: State, token: nat, ticket: Ticket, now: int)
    ensures TicketIssued(s, Apply(s, Issue(token, ticket, now)), token, ticket, now, CanIssue(Unexpired(s.tickets, now), s.active, ticket.binding))
  {
    UnexpiredLeft(s, now);
  }

  lemma UnexpiredLeft(s: State, now: int)
    ensures Unexpired(s.tickets, now) == s.tickets - Overdue(s, now)
  {
  }

  /**
    A lease is granted exactly when the ticket is there, not overdue, and of the same login,
    ingress and origin, and the login has no terminal and fewer than eight exist.
   */
  predicate Decides(s: State, token: nat, binding: nat, ingress: Ingress, origin: nat, now: int, r: Result<Ticket, Error>)
  {
    if token !in s.tickets then r == Err(Invalid)
    else
      var ticket := s.tickets[token];
      var own := ticket.binding == binding && ticket.ingress == ingress && ticket.origin == origin;
      && (r == Err(Expired) <==> ticket.expiresAt <= now)
      && (r == Err(Invalid) <==> now < ticket.expiresAt && !own)
      && (r == Err(Busy) <==> now < ticket.expiresAt && own && (binding in s.active || |s.active| >= 8))
      && (r == Ok(ticket) <==> now < ticket.expiresAt && own && binding !in s.active && |s.active| < 8)
  }

  // A consumption spends its ticket and removes the overdue ones, and no other; a lease is
  // entered for its login.
  predicate TicketConsumed(s: State, next: State, token: nat, binding: nat, id: nat, now: int, granted: bool)
  {
    && TicketsLeft(s, next, Overdue(s, now) + {token})
    && next == if !granted then s.(tickets := next.tickets)
               else s.(tickets := next.tickets, active := s.active[binding := id], leases := s.leases[id := binding],
                       grants := s.grants + [Grant(token, id)], ids := s.ids + {id})
  }

  lemma VerdictOutcome(s: State, token: nat, binding: nat, ingress: Ingress, origin: nat, now: int)
    ensures Decides(s, token, binding, ingress, origin, now, Verdict(s, token, binding, ingress, origin, now))
  {
  }

  lemma ConsumeOutcome(s: State, token: nat, binding: nat, ingress: Ingress, origin: nat, id: nat, now: int)
    ensures TicketConsumed(s, Apply(s, Consume(token, binding, ingress, origin, id, now)), token, binding, id, now,
                           Verdict(s, token, binding, ingress, origin, now).Ok?)
  {
    assert Unexpired(s.tickets - {token}, now) == s.tickets - (Overdue(s, now) + {token});
  }

  // A revoke takes the tickets of its login, and notifies its terminal, and nothing else.
  predicate LoginRevoked(s: State, next: State, binding: nat)
  {
    && TicketsLeft(s, next, TicketsOf(s, binding))
    && next == s.(tickets := next.tickets, cancelled := next.cancelled)
    && next.cancelled == if binding in s.active then s.cancelled + {s.active[binding]} else s.cancelled
  }

  lemma RevokeOutcome(s: State, binding: nat)
    ensures LoginRevoked(s, Apply(s, RevokeLogin(binding)), binding)
  {
    assert OtherTickets(s.tickets, binding) == s.tickets - TicketsOf(s, binding);
  }

  // A dropped lease frees the entry of its login, and nothing else.
  lemma DropOutcome(s: State, id: nat)
    requires Invariant(s) && id in s.leases
    ensures Apply(s, DropLease(id)) == s.(leases := s.leases - {id}, active := s.active - {s.leases[id]})
  {
  }

  // The step takes the ticket: it presents it, expires it, revokes it, or cleans it up.
  predicate TakesTicket(op: Op, token: nat, ticket: Ticket)
  {
    match op
    case Issue(_, _, now) => ticket.expiresAt <= now
    case Consume(presented, _, _, _, _, now) => presented == token || ticket.expiresAt <= now
    case ExpireTicket(expired) => expired == token
    case DropLease(_) => false
    case RevokeLogin(binding) => binding == ticket.binding
    case RevokeAll => true
  }

  lemma TicketStep(s: State, op: Op, token: nat)
    requires token in s.issued && token in s.tickets && Fresh(s, op)
    ensures var next := Apply(s, op); token in next.tickets <==> !TakesTicket(op, token, s.tickets[token])
    ensures var next := Apply(s, op); token in next.tickets ==> next.tickets[token] == s.tickets[token]
    ensures token in Apply(s, op).issued
  {
  }

  predicate TakenDuring(ops: seq<Op>, token: nat, ticket: Ticket)
  {
    exists i :: 0 <= i < |ops| && TakesTicket(ops[i], token, ticket)
  }

  /**
    A ticket lives until it is presented, expires or is revoked, and not a step longer:
    whatever runs after its issue, it is in the table exactly if no step took it.
   */
  lemma {:induction false} TicketLives(s: State, token: nat, ops: seq<Op>)
    requires token in s.issued && token in s.tickets && FreshFrom(s, ops)
    ensures var end := RunFrom(s, ops);
            && (token in end.tickets <==> !TakenDuring(ops, token, s.tickets[token]))
            && (token in end.tickets ==> end.tickets[token] == s.tickets[token])
            && token in end.issued
  {
    if ops != [] {
      var early, op := ops[..|ops| - 1], ops[|ops| - 1];
      TicketLives(s, token, early);
      TakenLater(ops, token, s.tickets[token]);
      if token in RunFrom(s, early).tickets {
        TicketStep(RunFrom(s, early), op, token);
      } else {
        StepKeepsSpent(RunFrom(s, early), op, token);
      }
    }
  }

  lemma TakenLater(ops: seq<Op>, token: nat, ticket: Ticket)
    requires ops != []
    ensures TakenDuring(ops, token, ticket) <==>
              TakenDuring(ops[..|ops| - 1], token, ticket) || TakesTicket(ops[|ops| - 1], token, ticket)
  {
    var early := ops[..|ops| - 1];
    if i :| 0 <= i < |ops| && TakesTicket(ops[i], token, ticket) {
      assert i < |early| ==> early[i] == ops[i];
    }
    if i :| 0 <= i < |early| && TakesTicket(early[i], token, ticket) {
      assert ops[i] == early[i];
    }
  }

  lemma {:induction false} RunFromKeeps(s: State, ops: seq<Op>)
    requires Invariant(s) && FreshFrom(s, ops)
    ensures Invariant(RunFrom(s, ops))
  {
    if ops != [] {
      RunFromKeeps(s, ops[..|ops| - 1]);
      StepKeepsInvariant(RunFrom(s, ops[..|ops| - 1]), ops[|ops| - 1]);
    }
  }

  /**
    End to end: a ticket that was issued grants its lease to its own login, ingress and
    origin, whatever ran in between, exactly if no step took it, its time is not over, and
    fewer than eight terminals exist at that moment.
   */
  lemma IssuedTicketGrants(s: State, token: nat, ticket: Ticket, now: int, ops: seq<Op>, later: int)
    requires Invariant(s) && Fresh(s, Issue(token, ticket, now)) && CanIssue(Unexpired(s.tickets, now), s.active, ticket.binding)
    requires FreshFrom(Apply(s, Issue(token, ticket, now)), ops)
    ensures var end := RunFrom(Apply(s, Issue(token, ticket, now)), ops);
            Verdict(end, token, ticket.binding, ticket.ingress, ticket.origin, later) == Ok(ticket)
            <==> !TakenDuring(ops, token, ticket) && later < ticket.expiresAt && |end.active| < 8
  {
    var issued := Apply(s, Issue(token, ticket, now));
    StepKeepsInvariant(s, Issue(token, ticket, now));
    RunFromKeeps(issued, ops);
    TicketLives(issued, token, ops);
  }

  lemma CancelledGrows(s: State, op: Op)
    ensures s.cancelled <= Apply(s, op).cancelled
  {
  }

  lemma {:induction false} CancelledStays(s: State, binding: nat, ops: seq<Op>)
    requires binding in s.active
    ensures s.active[binding] in RunFrom(Apply(s, RevokeLogin(binding)), ops).cancelled
    ensures s.active[binding] in RunFrom(Apply(s, RevokeAll), ops).cancelled
  {
    if ops == [] {
      assert s.active[binding] in s.active.Values;
    } else {
      CancelledStays(s, binding, ops[..|ops| - 1]);
      CancelledGrows(RunFrom(Apply(s, RevokeLogin(binding)), ops[..|ops| - 1]), ops[|ops| - 1]);
      CancelledGrows(RunFrom(Apply(s, RevokeAll), ops[..|ops| - 1]), ops[|ops| - 1]);
    }
  }

  lemma RunExtends(ops: seq<Op>, op: Op)
    ensures Run(ops + [op]) == Apply(Run(ops), op)
    ensures FreshRun(ops + [op]) <==> FreshRun(ops) && Fresh(Run(ops), op)
  {
    assert (ops + [op])[..|ops|] == ops;
  }

  // ---------- The broker object ----------

  class Broker {
    var tickets: map<nat, Ticket>
    var active: map<nat, nat>
    // The watch channels that were set to true.
    var cancelled: set<nat>

    ghost var leases: map<nat, nat>
    ghost var issued: map<nat, Ticket>
    ghost var grants: seq<Grant>
    ghost var ids: set<nat>
    ghost var ops: seq<Op>

    ghost function Model(): State
      reads this
    {
      State(tickets, active, leases, cancelled, issued, grants, ids)
    }

    // The object is always in the state that its steps led to.
    ghost predicate Valid()
      reads this
    {
      FreshRun(ops) && Model() == Run(ops)
    }

    twostate predicate Did(op: Op)
      reads this
    {
      Valid() && ops == old(ops) + [op] && Model() == Apply(old(Model()), op)
    }

    constructor ()
      ensures Valid() && ops == []
    {
      tickets, active, cancelled := map[], map[], {};
      leases, issued, grants, ids, ops := map[], map[], [], {}, [];
    }

    method IssueTicket(token: nat, ticket: Ticket, now: int) returns (r: Result<(), Error>)
      requires Valid() && Fresh(Model(), Issue(token, ticket, now))
      modifies this
      ensures Did(Issue(token, ticket, now))
      ensures TicketIssued(old(Model()), Model(), token, ticket, now, r.Ok?) && (r.Err? ==> r.error == Busy)
    {
      ghost var op := Issue(token, ticket, now);
      IssueOutcome(Model(), token, ticket, now);
      RunExtends(ops, op);
      ghost var next := Apply(Model(), op);
      r := Insert(token, ticket, now);
      ops := ops + [op];
      assert Model() == next;
    }

    method Insert(token: nat, ticket: Ticket, now: int) returns (r: Result<(), Error>)
      modifies this
      ensures Model() == Apply(old(Model()), Issue(token, ticket, now)) && ops == old(ops)
      ensures r == if CanIssue(Unexpired(old(tickets), now), old(active), ticket.binding) then Ok(()) else Err(Busy)
    {
      tickets := Unexpired(tickets, now);
      if ticket.binding in active || HasTicket(tickets, ticket.binding) || |tickets| >= MAX_SESSIONS || |active| >= MAX_SESSIONS {
        return Err(Busy);
      }
      tickets := tickets[token := ticket];
      issued := issued[token := ticket];
      r := Ok(());
    }

    method TakeTicket(token: nat, now: int) returns (taken: Option<Ticket>)
      modifies this`tickets
      ensures tickets == Unexpired(old(tickets) - {token}, now)
      ensures taken == if token in old(tickets) then Some(old(tickets)[token]) else None
    {
      if token !in tickets {
        assert tickets - {token} == tickets;
        tickets := Unexpired(tickets, now);
        return None;
      }
      taken := Some(tickets[token]);
      tickets := tickets - {token};
      tickets := Unexpired(tickets, now);
    }

    // The ticket is spent by the attempt, whatever its outcome.
    method ConsumeTicket(token: nat, binding: nat, ingress: Ingress, origin: nat, id: nat, now: int) returns (r: Result<Ticket, Error>)
      requires Valid() && Fresh(Model(), Consume(token, binding, ingress, origin, id, now))
      modifies this
      ensures Did(Consume(token, binding, ingress, origin, id, now))
      ensures r == Verdict(old(Model()), token, binding, ingress, origin, now) && token !in tickets
      ensures Decides(old(Model()), token, binding, ingress, origin, now, r)
      ensures TicketConsumed(old(Model()), Model(), token, binding, id, now, r.Ok?)
    {
      VerdictOutcome(Model(), token, binding, ingress, origin, now);
      ConsumeOutcome(Model(), token, binding, ingress, origin, id, now);
      ghost var op := Consume(token, binding, ingress, origin, id, now);
      RunExtends(ops, op);
      r := Exchange(token, binding, ingress, origin, id, now);
      ops := ops + [op];
    }

    method Exchange(token: nat, binding: nat, ingress: Ingress, origin: nat, id: nat, now: int) returns (r: Result<Ticket, Error>)
      modifies this
      ensures Model() == Apply(old(Model()), Consume(token, binding, ingress, origin, id, now)) && ops == old(ops)
      ensures r == Verdict(old(Model()), token, binding, ingress, origin, now) && token !in tickets
    {
      var taken := TakeTicket(token, now);
      if taken.None? {
        return Err(Invalid);
      }
      r := Judge(taken.value, binding, ingress, origin, now);
      if r.Ok? {
        active := active[binding := id];
        leases, grants, ids := leases[id := binding], grants + [Grant(token, id)], ids + {id};
      }
    }

    method Judge(entry: Ticket, binding: nat, ingress: Ingress, origin: nat, now: int) returns (r: Result<Ticket, Error>)
      ensures r == Judged(entry, active, binding, ingress, origin, now)
    {
      if entry.expiresAt <= now {
        return Err(Expired);
      }
      if entry.binding != binding || entry.ingress != ingress || entry.origin != origin {
        return Err(Invalid);
      }
      if binding in active || |active| >= MAX_SESSIONS {
        return Err(Busy);
      }
      r := Ok(entry);
    }

    // What `schedule_expiry` does once its delay has passed.
    method Expire(token: nat)
      requires Valid()
      modifies this
      ensures Did(ExpireTicket(token)) && TicketsLeft(old(Model()), Model(), {token})
    {
      RunExtends(ops, ExpireTicket(token));
      ops := ops + [ExpireTicket(token)];
      tickets := tickets - {token};
    }

    // `Drop for TerminalLease`: removes the entry only if it is the lease's own.
    method Drop(id: nat, binding: nat)
      requires Valid() && id in leases && leases[id] == binding
      modifies this
      ensures Did(DropLease(id))
      ensures active == old(active) - {binding} && tickets == old(tickets) && cancelled == old(cancelled)
    {
      RunExtends(ops, DropLease(id));
      EveryRunIsValid(ops);
      DropOutcome(Model(), id);
      ghost var next := Apply(Model(), DropLease(id));
      RemoveEntry(id, binding);
      ops := ops + [DropLease(id)];
      assert Model() == next;
    }

    method RemoveEntry(id: nat, binding: nat)
      requires id in leases && leases[id] == binding
      modifies this
      ensures Model() == Apply(old(Model()), DropLease(id)) && ops == old(ops)
    {
      if binding in active && active[binding] == id {
        active := active - {binding};
      }
      leases := leases - {id};
    }

    method Revoke(binding: nat)
      requires Valid()
      modifies this
      ensures Did(RevokeLogin(binding)) && LoginRevoked(old(Model()), Model(), binding)
    {
      RevokeOutcome(Model(), binding);
      RunExtends(ops, RevokeLogin(binding));
      ops := ops + [RevokeLogin(binding)];
      tickets := OtherTickets(tickets, binding);
      if binding in active {
        cancelled := cancelled + {active[binding]};
      }
    }

    method RevokeEveryone()
      requires Valid()
      modifies this
      ensures Did(RevokeAll)
      ensures tickets == map[] && cancelled == old(cancelled) + old(active).Values && active == old(active)
    {
      RunExtends(ops, RevokeAll);
      ops := ops + [RevokeAll];
      tickets := map[];
      NotifyAll();
    }

    // Walks over the active entries and notifies each.
    method NotifyAll()
      modifies this`cancelled
      ensures cancelled == old(cancelled) + active.Values
    {
      var left := active.Keys;
      while left != {}
        invariant left <= active.Keys
        invariant cancelled == old(cancelled) + set b | b in active && b !in left :: active[b]
        decreases left
      {
        var b :| b in left;
        cancelled := cancelled + {active[b]};
        left := left - {b};
      }
      assert active.Values == set b | b in active :: active[b];
    }
  }
}
