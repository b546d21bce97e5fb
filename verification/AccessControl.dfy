/**
 The decision a set of policies makes for a user: the first matching policy in
 the order of priority, deny before allow.  On top of it, what the rejection of
 shadowed rules and the filter of dataset listings mean for that decision.
 */
module AccessControl {
  import opened LikePatterns
  import opened Policies

  /** Tokens stand for their hashes, which identify them. */
  datatype AccessDb = AccessDb(users: map<string, Uuid>, members: set<(Uuid, Uuid)>, policies: set<Policy>)

  // ----- first match

  predicate Applies(db: AccessDb, user: Uuid, action: Action, resource: string, p: Policy) {
    p in db.policies && (user, p.group) in db.members && p.action == action && Like(resource, p.resource)
  }

  /** ORDER BY priority ASC, deny before allow; rules of one priority and effect are in no particular order. */
  predicate AtOrBefore(p: Policy, q: Policy) {
    p.priority < q.priority || (p.priority == q.priority && (p.effect.Deny? || q.effect.Allow?))
  }

  /** A row the ordered query may return first. */
  ghost predicate FirstMatch(db: AccessDb, user: Uuid, action: Action, resource: string, p: Policy) {
    Applies(db, user, action, resource, p)
    && forall q :: Applies(db, user, action, resource, q) ==> AtOrBefore(p, q)
  }

  ghost predicate UserAccess(db: AccessDb, user: Uuid, action: Action, resource: string) {
    exists p :: FirstMatch(db, user, action, resource, p) && p.effect.Allow?
  }

  /** False for a token nobody has. */
  ghost predicate TokenAccess(db: AccessDb, token: string, action: Action, resource: string) {
    token in db.users && UserAccess(db, db.users[token], action, resource)
  }

  lemma {:induction false} FirstOf(ps: set<Policy>) returns (first: Policy)
    requires ps != {}
    ensures first in ps && forall q :: q in ps ==> AtOrBefore(first, q)
    decreases |ps|
  {
    var p :| p in ps;
    var rest := ps - {p};
    if rest == {} {
      assert ps == {p};
      first := p;
    } else {
      first := FirstOf(rest);
      if AtOrBefore(p, first) {
        first := p;
      }
      assert forall q :: q in ps ==> q == p || q in rest;
    }
  }

  lemma FirstMatchExists(db: AccessDb, user: Uuid, action: Action, resource: string, p: Policy) returns (first: Policy)
    requires Applies(db, user, action, resource, p)
    ensures FirstMatch(db, user, action, resource, first)
  {
    var matches := set q | q in db.policies && Applies(db, user, action, resource, q);
    assert p in matches;
    first := FirstOf(matches);
  }

  /** The effect does not depend on which first row the database returns. */
  lemma FirstMatchesAgree(db: AccessDb, user: Uuid, action: Action, resource: string, p: Policy, q: Policy)
    requires FirstMatch(db, user, action, resource, p) && FirstMatch(db, user, action, resource, q)
    ensures p.effect == q.effect && p.priority == q.priority
  {}

  /** Access is granted when some allow rule applies that no deny rule of its priority or a smaller one meets. */
  lemma AccessMeaning(db: AccessDb, user: Uuid, action: Action, resource: string)
    ensures UserAccess(db, user, action, resource)
       <==> exists p :: Applies(db, user, action, resource, p) && p.effect.Allow?
              && forall q :: Applies(db, user, action, resource, q) && q.effect.Deny? ==> p.priority < q.priority
  {
    if p :| Applies(db, user, action, resource, p) && p.effect.Allow?
            && forall q :: Applies(db, user, action, resource, q) && q.effect.Deny? ==> p.priority < q.priority {
      var first := FirstMatchExists(db, user, action, resource, p);
      assert AtOrBefore(first, p);
    }
    if p :| FirstMatch(db, user, action, resource, p) && p.effect.Allow? {
      forall q | Applies(db, user, action, resource, q) && q.effect.Deny? ensures p.priority < q.priority {
        assert AtOrBefore(p, q);
      }
    }
  }

  // ----- shadowed rules

  predicate PolicyShadows(existing: Policy, candidate: Policy) {
    if !PolicyResourceCovers(existing.resource, candidate.resource) then false
    else if existing.priority < candidate.priority then true
    else if existing.priority > candidate.priority then false
    else existing.effect.Deny? || existing.effect == candidate.effect
  }

  function With(db: AccessDb, c: Policy): AccessDb {
    db.(policies := db.policies + {c})
  }

  lemma AppliesWith(db: AccessDb, user: Uuid, action: Action, resource: string, c: Policy, p: Policy)
    ensures Applies(With(db, c), user, action, resource, p)
       <==> (Applies(db, user, action, resource, p)
             || (p == c && (user, c.group) in db.members && c.action == action && Like(resource, c.resource)))
  {}

  /**
   A rule that an existing rule of its group and action shadows decides nothing: adding it
   changes no decision for any user, action and resource.  A lone escape at the end of its
   resource is not what this is about: the database refuses such a pattern, here it matches nothing.
   */
  lemma ShadowedDecidesNothing(db: AccessDb, e: Policy, c: Policy, user: Uuid, action: Action, resource: string)
    requires e in db.policies && e.group == c.group && e.action == c.action
    requires WellShaped(e.resource) && PolicyShadows(e, c)
    ensures UserAccess(With(db, c), user, action, resource) == UserAccess(db, user, action, resource)
  {
    hide Like, WellShaped, PolicyResourceCovers, With, UserAccess;
    var bigger := With(db, c);
    AccessMeaning(db, user, action, resource);
    AccessMeaning(bigger, user, action, resource);
    forall p
      ensures Applies(bigger, user, action, resource, p)
         <==> (Applies(db, user, action, resource, p) || (p == c && Applies(bigger, user, action, resource, c)))
    {
      AppliesWith(db, user, action, resource, c, p);
      AppliesWith(db, user, action, resource, c, c);
    }
    if Applies(bigger, user, action, resource, c) {
      AppliesWith(db, user, action, resource, c, c);
      ShadowApplies(db, e, c, user, action, resource);
      if p :| Applies(db, user, action, resource, p) && p.effect.Allow?
              && forall q :: Applies(db, user, action, resource, q) && q.effect.Deny? ==> p.priority < q.priority {
        if c.effect.Deny? && c.priority <= p.priority {
          assert e.effect.Allow? && e.priority < c.priority;
          assert Applies(bigger, user, action, resource, e);
        } else {
          assert Applies(bigger, user, action, resource, p);
        }
      }
      if p :| Applies(bigger, user, action, resource, p) && p.effect.Allow?
              && forall q :: Applies(bigger, user, action, resource, q) && q.effect.Deny? ==> p.priority < q.priority {
        assert Applies(bigger, user, action, resource, e);
        if p == c {
          assert e.effect.Allow?;
        }
      }
    }
  }

  lemma ShadowApplies(db: AccessDb, e: Policy, c: Policy, user: Uuid, action: Action, resource: string)
    requires e in db.policies && e.group == c.group && e.action == c.action
    requires WellShaped(e.resource) && PolicyShadows(e, c)
    requires Applies(With(db, c), user, action, resource, c)
    ensures Applies(db, user, action, resource, e)
  {
    hide Like, WellShaped, PolicyResourceCovers;
    CoverageIsSound(e.resource, c.resource, resource);
  }

  datatype Verdict = Accepted | BadPriority | BadResource | ShadowedBy(id: Uuid)

  datatype RuleId = NewRule | ExistingRule(id: Uuid)

  predicate Rejects(existing: Policy, self: RuleId, rule: Policy) {
    !(self.ExistingRule? && existing.id == self.id) && existing.action == rule.action && PolicyShadows(existing, rule)
  }

  /** The policies are the rows of the rule's group, in any order. */
  method ValidatePolicyRule(policies: seq<Policy>, self: RuleId, rule: Policy) returns (v: Verdict)
    ensures v.Accepted? <==> rule.priority >= 0 && WellShaped(rule.resource)
                             && forall e :: e in policies ==> !Rejects(e, self, rule)
    ensures v.BadPriority? <==> rule.priority < 0
    ensures v.BadResource? <==> rule.priority >= 0 && !WellShaped(rule.resource)
    ensures v.ShadowedBy? ==> exists i :: 0 <= i < |policies| && policies[i].id == v.id && Rejects(policies[i], self, rule)
                                && forall j :: 0 <= j < i ==> !Rejects(policies[j], self, rule)
  {
    hide WellShaped, PolicyShadows;
    if rule.priority < 0 {
      return BadPriority;
    }
    var shaped := ValidatePolicyResource(rule.resource);
    if !shaped {
      return BadResource;
    }
    for i := 0 to |policies|
      invariant forall j :: 0 <= j < i ==> !Rejects(policies[j], self, rule)
    {
      var existing := policies[i];
      if self.ExistingRule? && existing.id == self.id {
        continue;
      }
      if existing.action != rule.action {
        continue;
      }
      if PolicyShadows(existing, rule) {
        assert existing in policies && Rejects(existing, self, rule);
        return ShadowedBy(existing.id);
      }
    }
    return Accepted;
  }

  /** A rejected new rule would have changed no decision, provided the rules it is compared with are well shaped. */
  lemma RejectionIsHarmless(db: AccessDb, policies: seq<Policy>, rule: Policy, user: Uuid, action: Action, resource: string)
    requires forall e :: e in policies ==> e in db.policies && e.group == rule.group && WellShaped(e.resource)
    requires exists e :: e in policies && Rejects(e, NewRule, rule)
    ensures UserAccess(With(db, rule), user, action, resource) == UserAccess(db, user, action, resource)
  {
    hide WellShaped, PolicyShadows, UserAccess;
    var e :| e in policies && Rejects(e, NewRule, rule);
    ShadowedDecidesNothing(db, e, rule, user, action, resource);
  }

  // ----- dataset listings

  /** The filter of the listing query: some allow rule applies and no deny rule does. */
  ghost predicate Listed(db: AccessDb, user: Uuid, resource: string) {
    (exists p :: Applies(db, user, Read, resource, p) && p.effect.Allow?)
    && !(exists p :: Applies(db, user, Read, resource, p) && p.effect.Deny?)
  }

  /** A listed dataset may be read; and what may be read is listed unless some deny rule of lower rank also applies. */
  lemma ListedIff(db: AccessDb, user: Uuid, resource: string)
    ensures Listed(db, user, resource)
       <==> UserAccess(db, user, Read, resource) && !(exists p :: Applies(db, user, Read, resource, p) && p.effect.Deny?)
  {
    hide Applies, UserAccess;
    AccessMeaning(db, user, Read, resource);
  }
}
