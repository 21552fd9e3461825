/**
  One-time claims: the `reauth_claims` and `additional_auth_claims` tables and the
  conditional updates that consume their rows.
 */
module Claims {
  import opened Wrappers

  const CLAIM_MS := 5 * 60 * 1_000

  datatype Policy = Disabled | RiskyOperations | AllMutations

  datatype Purpose = Operation | SecurityPolicyChange | TotpEnrollment | TotpRecoveryReset

  // The stored context: a plan hash, a target policy, or the constant of the provider.
  datatype Context = PlanHash(hash: nat) | TargetPolicy(policy: Policy) | TotpV1

  // What a claim is bound to.
  datatype Binding = Binding(session: nat, uid: nat, purpose: Purpose, context: Context)

  datatype Reauth = Reauth(binding: Binding, expires: int, consumed: Option<int>)

  // An additional claim names the digest of the reauth claim it belongs to.
  datatype Additional = Additional(reauth: nat, binding: Binding, expires: int, consumed: Option<int>)

  // A committed consumption, with the additional claim consumed beside it, if any.
  datatype Use = Use(token: nat, binding: Binding, at: int, additional: Option<nat>)

  datatype Tables = Tables(reauth: map<nat, Reauth>, additional: map<nat, Additional>, uses: seq<Use>)

  const EMPTY := Tables(map[], map[], [])

  // INSERT; the primary key refuses a second row with the same digest.
  function IssueReauth(t: Tables, token: nat, binding: Binding, now: int): Option<Tables>
  {
    if token in t.reauth then None
    else Some(t.(reauth := t.reauth[token := Reauth(binding, Saturating(now + CLAIM_MS), None)]))
  }

  predicate Usable(t: Tables, token: nat, binding: Binding, now: int)
  {
    token in t.reauth && t.reauth[token].binding == binding && t.reauth[token].expires > now && t.reauth[token].consumed.None?
  }

  // UPDATE reauth_claims ... WHERE all columns match AND unexpired AND unconsumed
  function ConsumeReauth(t: Tables, token: nat, binding: Binding, now: int, additional: Option<nat>): Option<Tables>
  {
    if Usable(t, token, binding, now)
    then Some(t.(reauth := t.reauth[token := t.reauth[token].(consumed := Some(now))],
                 uses := t.uses + [Use(token, binding, now, additional)]))
    else None
  }

  function IssueAdditional(t: Tables, token: nat, reauth: nat, binding: Binding, now: int): Option<Tables>
  {
    if token in t.additional then None
    else Some(t.(additional := t.additional[token := Additional(reauth, binding, Saturating(now + CLAIM_MS), None)]))
  }

  predicate AdditionalUsable(t: Tables, token: nat, reauth: nat, binding: Binding, now: int)
  {
    && token in t.additional
    && t.additional[token].reauth == reauth && t.additional[token].binding == binding
    && t.additional[token].expires > now && t.additional[token].consumed.None?
  }

  function ConsumeAdditional(t: Tables, token: nat, reauth: nat, binding: Binding, now: int): Option<Tables>
  {
    if AdditionalUsable(t, token, reauth, binding, now)
    then Some(t.(additional := t.additional[token := t.additional[token].(consumed := Some(now))]))
    else None
  }

  // DELETE FROM additional_auth_claims, at a restart and at a recovery reset.
  function Purge(additional: map<nat, Additional>, now: int): map<nat, Additional>
  {
    map a | a in additional && additional[a].expires > now && additional[a].consumed.None? :: additional[a]
  }

  function WithoutSubject(additional: map<nat, Additional>, uid: nat): map<nat, Additional>
  {
    map a | a in additional && additional[a].binding.uid != uid :: additional[a]
  }

  // ---------- Invariants ----------

  // Consumptions name distinct claims, each with its own binding, before its expiry.
  ghost predicate UsesValid(reauth: map<nat, Reauth>, uses: seq<Use>)
  {
    && (forall i :: 0 <= i < |uses| ==> UseValid(reauth, uses[i]))
    && (forall i, j :: 0 <= i < j < |uses| ==> uses[i].token != uses[j].token)
  }

  ghost predicate UseValid(reauth: map<nat, Reauth>, use: Use)
  {
    && use.token in reauth
    && reauth[use.token].binding == use.binding
    && reauth[use.token].consumed == Some(use.at)
    && use.at < reauth[use.token].expires
  }

  // Every consumed row was consumed by exactly one recorded consumption.
  ghost predicate ConsumedAreUsed(reauth: map<nat, Reauth>, uses: seq<Use>)
  {
    forall token :: token in reauth && reauth[token].consumed.Some? ==> HasUse(uses, token)
  }

  ghost predicate HasUse(uses: seq<Use>, token: nat)
  {
    exists i :: 0 <= i < |uses| && uses[i].token == token
  }

  // An additional claim belongs to an operation claim with the same session, subject and
  // context, and is consumed only together with it.
  ghost predicate AdditionalValid(t: Tables)
  {
    forall a :: a in t.additional ==> RowValid(t.reauth, t.uses, a, t.additional[a])
  }

  ghost predicate RowValid(reauth: map<nat, Reauth>, uses: seq<Use>, a: nat, row: Additional)
  {
    && row.reauth in reauth
    && reauth[row.reauth].binding == row.binding
    && row.binding.purpose == Operation
    && (row.consumed.Some? ==>
          && reauth[row.reauth].consumed == row.consumed && row.consumed.value < row.expires
          && SpentBeside(uses, row.reauth, a))
  }

  // One committed transaction consumed both claims.
  ghost predicate SpentBeside(uses: seq<Use>, token: nat, additional: nat)
  {
    exists i :: 0 <= i < |uses| && uses[i].token == token && uses[i].additional == Some(additional)
  }

  // At most one additional claim of a reauth claim is consumed.
  ghost predicate OnePerReauth(additional: map<nat, Additional>)
  {
    forall a, b :: a in additional && b in additional && SpentTogether(additional[a], additional[b]) ==> a == b
  }

  predicate SpentTogether(left: Additional, right: Additional)
  {
    left.reauth == right.reauth && left.consumed.Some? && right.consumed.Some?
  }

  ghost predicate Valid(t: Tables)
  {
    && UsesValid(t.reauth, t.uses)
    && ConsumedAreUsed(t.reauth, t.uses)
    && AdditionalValid(t)
    && OnePerReauth(t.additional)
  }

  // Claims are never removed or rebound, and a consumed one stays as it is.
  ghost predicate Extends(before: map<nat, Reauth>, after: map<nat, Reauth>)
  {
    forall token :: token in before ==>
      && token in after
      && after[token].binding == before[token].binding
      && after[token].expires == before[token].expires
      && (before[token].consumed.Some? ==> after[token] == before[token])
  }

  lemma IssueReauthKeeps(t: Tables, token: nat, binding: Binding, now: int)
    requires Valid(t) && IssueReauth(t, token, binding, now).Some?
    ensures var next := IssueReauth(t, token, binding, now).value;
            Valid(next) && Extends(t.reauth, next.reauth)
  {
    var next := IssueReauth(t, token, binding, now).value;
    assert forall i :: 0 <= i < |t.uses| ==> UseValid(t.reauth, t.uses[i]) ==> UseValid(next.reauth, t.uses[i]);
    assert forall a :: a in t.additional ==> RowValid(t.reauth, t.uses, a, t.additional[a]) ==> RowValid(next.reauth, t.uses, a, t.additional[a]);
  }

  lemma ConsumeReauthKeeps(t: Tables, token: nat, binding: Binding, now: int, additional: Option<nat>)
    requires Valid(t) && ConsumeReauth(t, token, binding, now, additional).Some?
    ensures var next := ConsumeReauth(t, token, binding, now, additional).value;
            Valid(next) && Extends(t.reauth, next.reauth)
    ensures forall a :: a in t.additional && t.additional[a].reauth == token ==> t.additional[a].consumed.None?
  {
    var next := ConsumeReauth(t, token, binding, now, additional).value;
    UsesGrow(t, token, now, next);
    forall a | a in t.additional
      ensures RowValid(next.reauth, next.uses, a, t.additional[a])
      ensures t.additional[a].reauth == token ==> t.additional[a].consumed.None?
    {
      assert RowValid(t.reauth, t.uses, a, t.additional[a]);
      if t.additional[a].consumed.Some? {
        StillBeside(t.uses, next.uses, t.additional[a].reauth, a);
      }
    }
  }

  lemma StillBeside(before: seq<Use>, after: seq<Use>, token: nat, additional: nat)
    requires before <= after && SpentBeside(before, token, additional)
    ensures SpentBeside(after, token, additional)
  {
    var i :| 0 <= i < |before| && before[i].token == token && before[i].additional == Some(additional);
    assert after[i] == before[i];
  }

  lemma UsesGrow(t: Tables, token: nat, now: int, next: Tables)
    requires Valid(t) && token in t.reauth && t.reauth[token].consumed.None? && now < t.reauth[token].expires
    requires next.reauth == t.reauth[token := t.reauth[token].(consumed := Some(now))]
    requires exists additional :: next.uses == t.uses + [Use(token, t.reauth[token].binding, now, additional)]
    ensures UsesValid(next.reauth, next.uses) && ConsumedAreUsed(next.reauth, next.uses)
  {
    forall i | 0 <= i < |t.uses|
      ensures t.uses[i].token != token && UseValid(next.reauth, next.uses[i])
    {
      assert UseValid(t.reauth, t.uses[i]);
    }
    forall claim | claim in next.reauth && next.reauth[claim].consumed.Some?
      ensures HasUse(next.uses, claim)
    {
      if claim == token {
        assert next.uses[|t.uses|].token == claim;
      } else {
        assert HasUse(t.uses, claim);
        var i :| 0 <= i < |t.uses| && t.uses[i].token == claim;
        assert next.uses[i].token == claim;
      }
    }
  }

  lemma IssueAdditionalKeeps(t: Tables, token: nat, reauth: nat, binding: Binding, now: int)
    requires Valid(t) && Usable(t, reauth, binding, now) && binding.purpose == Operation
    requires IssueAdditional(t, token, reauth, binding, now).Some?
    ensures Valid(IssueAdditional(t, token, reauth, binding, now).value)
  {
    var next := IssueAdditional(t, token, reauth, binding, now).value;
    assert RowValid(next.reauth, next.uses, token, next.additional[token]);
  }

  // Consuming an additional claim right after its reauth claim, in one transaction.
  lemma ConsumeBothKeeps(t: Tables, token: nat, additional: nat, binding: Binding, now: int)
    requires Valid(t) && ConsumeReauth(t, token, binding, now, Some(additional)).Some?
    requires var middle := ConsumeReauth(t, token, binding, now, Some(additional)).value;
             ConsumeAdditional(middle, additional, token, binding, now).Some?
    ensures var middle := ConsumeReauth(t, token, binding, now, Some(additional)).value;
            var next := ConsumeAdditional(middle, additional, token, binding, now).value;
            Valid(next) && Extends(t.reauth, next.reauth)
  {
    ConsumeReauthKeeps(t, token, binding, now, Some(additional));
    var middle := ConsumeReauth(t, token, binding, now, Some(additional)).value;
    var next := ConsumeAdditional(middle, additional, token, binding, now).value;
    forall a | a in next.additional
      ensures RowValid(next.reauth, next.uses, a, next.additional[a])
    {
      assert RowValid(middle.reauth, middle.uses, a, middle.additional[a]);
      assert next.uses[|t.uses|] == Use(token, binding, now, Some(additional));
    }
  }

  lemma FewerAdditional(t: Tables, additional: map<nat, Additional>)
    requires Valid(t)
    requires additional.Keys <= t.additional.Keys && forall a :: a in additional ==> additional[a] == t.additional[a]
    ensures Valid(t.(additional := additional))
  {
  }
}
