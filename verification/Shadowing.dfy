/**
 What it means that a rule shadows another: no decision of any database that has the
 first changes when the second is added.
 */
module Shadowing {
  import opened LikePatterns
  import opened Policies
  import opened AccessControl
  import opened Coverage

  /** Adding c changes nothing, whatever else there is beside e. */
  ghost predicate NeverDecides(e: Policy, c: Policy) {
    forall db: AccessDb, user, action, r :: e in db.policies ==> UserAccess(With(db, c), user, action, r) == UserAccess(db, user, action, r)
  }

  /** The opposite rule that comes right behind c. */
  function Against(c: Policy): Policy {
    if c.effect.Deny? then c.(effect := Allow) else c.(effect := Deny, priority := c.priority + 1)
  }

  /** A database in which c decides: one user, e, and the rule against c. */
  function Opposing(e: Policy, c: Policy): AccessDb {
    AccessDb(map[], {(0, c.group)}, {e, Against(c)})
  }

  lemma AppliesInOpposing(e: Policy, c: Policy, r: string, p: Policy)
    requires e.group == c.group && Like(r, c.resource)
    ensures var db := Opposing(e, c);
            && (Applies(db, 0, c.action, r, p) <==> p == Against(c) || (p == e && e.action == c.action && Like(r, e.resource)))
            && (Applies(With(db, c), 0, c.action, r, p) <==> p == c || Applies(db, 0, c.action, r, p))
  {
    hide Like;
  }

  /** It decides wherever e does not apply or does not come first. */
  lemma OpposingDecides(e: Policy, c: Policy, r: string)
    requires e.group == c.group && Like(r, c.resource)
    requires e.action == c.action && Like(r, e.resource) ==>
               !(e.priority < c.priority || (e.priority == c.priority && (e.effect == Deny || c.effect == Allow)))
    ensures UserAccess(With(Opposing(e, c), c), 0, c.action, r) <==> c.effect == Allow
    ensures UserAccess(Opposing(e, c), 0, c.action, r) <==> c.effect == Deny
  {
    var db := Opposing(e, c);
    var bigger := With(db, c);
    AccessMeaning(db, 0, c.action, r);
    AccessMeaning(bigger, 0, c.action, r);
    hide Like, UserAccess, Applies, With, Opposing;
    forall p
      ensures Applies(db, 0, c.action, r, p) <==> p == Against(c) || (p == e && e.action == c.action && Like(r, e.resource))
      ensures Applies(bigger, 0, c.action, r, p) <==> p == c || Applies(db, 0, c.action, r, p)
    {
      AppliesInOpposing(e, c, r, p);
    }
    assert Applies(db, 0, c.action, r, Against(c)) && Applies(bigger, 0, c.action, r, c) && Applies(bigger, 0, c.action, r, Against(c));
  }

  /**
   Validation rejects a new rule for the sake of an existing one of its group exactly if that one
   leaves it nothing to decide in any database: for all resources for which coverage is exact.
   */
  lemma RejectsIff(e: Policy, rule: Policy)
    requires e.group == rule.group && WellShaped(e.resource) && '\\' !in rule.resource
    requires PolicyResourceCovers(e.resource, rule.resource) <==> MatchesAll(e.resource, rule.resource)
    ensures Rejects(e, NewRule, rule) <==> NeverDecides(e, rule)
    ensures Rejects(e, NewRule, rule)
       <==> && e.action == rule.action && MatchesAll(e.resource, rule.resource)
            && (e.priority < rule.priority || (e.priority == rule.priority && (e.effect == Deny || rule.effect == Allow)))
  {
    hide WellShaped, PolicyResourceCovers, Like, UserAccess;
    if Rejects(e, NewRule, rule) {
      forall db: AccessDb, user, action, r | e in db.policies
        ensures UserAccess(With(db, rule), user, action, r) == UserAccess(db, user, action, r)
      {
        ShadowedDecidesNothing(db, e, rule, user, action, r);
      }
    } else {
      var r := if MatchesAll(e.resource, rule.resource) then rule.resource else Unmatched(e.resource, rule.resource);
      TextIsMatched(rule.resource);
      OpposingDecides(e, rule, r);
      assert e in Opposing(e, rule).policies;
    }
  }

  lemma TextIsMatched(c: string)
    requires '\\' !in c
    ensures Like(c, c)
  {
    MatchesItself(c);
  }

  ghost function Unmatched(e: string, c: string): (r: string)
    requires !MatchesAll(e, c)
    ensures Like(r, c) && !Like(r, e)
  {
    var r :| Like(r, c) && !Like(r, e);
    r
  }
}
