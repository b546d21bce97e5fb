/**
 The per-request cache of access decisions in front of the policy query.
 */
module DecisionCache {
  import opened Wrappers
  import opened LikePatterns
  import opened Policies
  import opened AccessControl

  /** policy is the matched rule, from which the source copies the id, group, priority, effect and pattern. */
  datatype AccessDecision = AccessDecision(resource: string, access: bool, action: Action, policy: Option<Policy>)

  const NUL := '\0'

  function ActionName(action: Action): string {
    match action
    case Create => "create"
    case Read => "read"
    case Update => "update"
    case Delete => "delete"
  }

  function CacheKeyString(token: string, action: Action, resource: string): string {
    token + [NUL] + ActionName(action) + [NUL] + resource
  }

  // ----- keys

  lemma CutAtNul(a: string, x: string, b: string, y: string)
    requires NUL !in a && NUL !in b && a + [NUL] + x == b + [NUL] + y
    ensures a == b && x == y
  {
    var s, t := a + [NUL] + x, b + [NUL] + y;
    assert s[|a|] == NUL && t[|b|] == NUL;
    assert forall j :: 0 <= j < |a| ==> s[j] == a[j] && a[j] in a;
    assert forall j :: 0 <= j < |b| ==> t[j] == b[j] && b[j] in b;
    assert |a| == |b|;
    assert s[..|a|] == a && t[..|b|] == b;
    assert s[|a| + 1..] == x && t[|b| + 1..] == y;
  }

  lemma ActionNames(a: Action, b: Action)
    ensures NUL !in ActionName(a)
    ensures ActionName(a) == ActionName(b) ==> a == b
  {
    assert |"create"| == 6 && |"read"| == 4 && |"update"| == 6 && |"delete"| == 6;
    assert "create"[0] == 'c' && "update"[0] == 'u' && "delete"[0] == 'd';
  }

  /** Keys of one token, and of tokens without NUL, are equal only for equal triples. */
  lemma CacheKeyInjective(t: string, a: Action, r: string, u: string, b: Action, s: string)
    requires CacheKeyString(t, a, r) == CacheKeyString(u, b, s)
    requires t == u || (NUL !in t && NUL !in u)
    ensures t == u && a == b && r == s
  {
    hide ActionName;
    var x, y := ActionName(a) + [NUL] + r, ActionName(b) + [NUL] + s;
    assert CacheKeyString(t, a, r) == t + [NUL] + x;
    assert CacheKeyString(u, b, s) == u + [NUL] + y;
    SameAfterToken(t, x, u, y);
    ActionNames(a, b);
    ActionNames(b, a);
    CutAtNul(ActionName(a), r, ActionName(b), s);
  }

  lemma SameAfterToken(t: string, x: string, u: string, y: string)
    requires t + [NUL] + x == u + [NUL] + y && (t == u || (NUL !in t && NUL !in u))
    ensures t == u && x == y
  {
    if t == u {
      assert (t + [NUL] + x)[|t| + 1..] == x && (u + [NUL] + y)[|u| + 1..] == y;
    } else {
      CutAtNul(t, x, u, y);
    }
  }

  /** A token with a NUL in it can share a key with another token. */
  lemma CacheKeyCollides()
    ensures CacheKeyString("t", Read, "read" + [NUL] + "x") == CacheKeyString("t" + [NUL] + "read", Read, "x")
  {}

  function KeyPrefix(token: string, action: Action): string {
    token + [NUL] + ActionName(action) + [NUL]
  }

  ghost predicate KeysMeet(t: string, u: string) {
    exists a: Action, b: Action, r: string, s: string :: CacheKeyString(t, a, r) == CacheKeyString(u, b, s)
  }

  /** Two tokens could share one cache exactly if no key of one can be continued to a key of the other; each request has a cache and one token. */
  lemma KeysMeetIff(t: string, u: string)
    ensures KeysMeet(t, u) <==> exists a: Action, b: Action :: KeyPrefix(t, a) <= KeyPrefix(u, b) || KeyPrefix(u, b) <= KeyPrefix(t, a)
  {
    if KeysMeet(t, u) {
      var a, b, r, s :| CacheKeyString(t, a, r) == CacheKeyString(u, b, s);
      KeyOfPrefix(t, a, r);
      KeyOfPrefix(u, b, s);
      PrefixesOfOne(KeyPrefix(t, a), r, KeyPrefix(u, b), s);
    }
    if a: Action, b: Action :| KeyPrefix(t, a) <= KeyPrefix(u, b) || KeyPrefix(u, b) <= KeyPrefix(t, a) {
      var p, q := KeyPrefix(t, a), KeyPrefix(u, b);
      var r, s := if p <= q then q[|p|..] else "", if p <= q then "" else p[|q|..];
      assert p + r == q + s;
      KeyOfPrefix(t, a, r);
      KeyOfPrefix(u, b, s);
      assert CacheKeyString(t, a, r) == CacheKeyString(u, b, s);
    }
  }

  lemma KeyOfPrefix(t: string, a: Action, r: string)
    ensures CacheKeyString(t, a, r) == KeyPrefix(t, a) + r
  {}

  lemma PrefixesOfOne(p: string, r: string, q: string, s: string)
    requires p + r == q + s
    ensures p <= q || q <= p
  {
    var whole := p + r;
    assert p == whole[..|p|] && q == whole[..|q|];
    assert |p| <= |q| ==> p == q[..|p|];
    assert |q| <= |p| ==> q == p[..|q|];
  }

  // ----- what a decision has to say

  ghost predicate DecisionFor(db: AccessDb, token: string, action: Action, resource: string, d: AccessDecision) {
    && d.resource == resource && d.action == action
    && d.access == TokenAccess(db, token, action, resource)
    && match d.policy
       case None => forall p :: !(token in db.users && Applies(db, db.users[token], action, resource, p))
       case Some(p) => token in db.users && FirstMatch(db, db.users[token], action, resource, p)
  }

  function DefaultDecision(action: Action, resource: string): AccessDecision {
    AccessDecision(resource, false, action, None)
  }

  lemma UnknownTokenDenied(db: AccessDb, token: string, action: Action, resource: string)
    requires token !in db.users
    ensures DecisionFor(db, token, action, resource, DefaultDecision(action, resource))
  {}

  /** The row the query returns for one resource of a known token: some first match, if any policy applies. */
  method ExplainOne(db: AccessDb, token: string, action: Action, resource: string) returns (d: AccessDecision)
    requires token in db.users
    ensures DecisionFor(db, token, action, resource, d)
  {
    hide Like;
    var user := db.users[token];
    var best: Option<Policy> := None;
    var todo := db.policies;
    while todo != {}
      invariant todo <= db.policies
      invariant best.None? ==> forall q :: q !in todo ==> !Applies(db, user, action, resource, q)
      invariant best.Some? ==> Applies(db, user, action, resource, best.value)
      invariant best.Some? ==>
          forall q :: q !in todo && Applies(db, user, action, resource, q) ==> AtOrBefore(best.value, q)
      decreases todo
    {
      var p :| p in todo;
      if Applies(db, user, action, resource, p) && (best.None? || !AtOrBefore(best.value, p)) {
        best := Some(p);
      }
      todo := todo - {p};
    }
    d := AccessDecision(resource, best.Some? && best.value.effect.Allow?, action, best);
    if best.Some? {
      assert FirstMatch(db, user, action, resource, best.value);
    }
  }

  /** One row per resource for a known token, and no rows for an unknown one. */
  method ExplainUserTokenAccessMany(db: AccessDb, token: string, action: Action, resources: seq<string>)
    returns (rows: seq<AccessDecision>)
    ensures if token in db.users then |rows| == |resources| else rows == []
    ensures forall i :: 0 <= i < |rows| ==> DecisionFor(db, token, action, resources[i], rows[i])
  {
    rows := [];
    if token in db.users {
      for i := 0 to |resources|
        invariant |rows| == i
        invariant forall j :: 0 <= j < i ==> DecisionFor(db, token, action, resources[j], rows[j])
      {
        hide DecisionFor;
        var d := ExplainOne(db, token, action, resources[i]);
        rows := rows + [d];
      }
    }
  }

  // ----- the cache

  /** Each resource is asked for once. */
  ghost predicate NoDuplicates(s: seq<string>) {
    forall i, j :: 0 <= i < j < |s| ==> s[i] != s[j]
  }

  /** Lexicographic order. */
  predicate Less(a: string, b: string) {
    b != "" && (a == "" || a[0] < b[0] || (a[0] == b[0] && Less(a[1..], b[1..])))
  }

  ghost predicate InOrderOfStrings(s: seq<string>) {
    forall i, j :: 0 <= i < j < |s| ==> Less(s[i], s[j])
  }

  /** The order of strings: a proper prefix is less, and otherwise the first difference decides. */
  lemma {:induction false} LessIsLexicographic(a: string, b: string)
    ensures Less(a, b) <==> (a <= b && a != b) || FirstDifference(a, b)
    decreases |a|
  {
    if a != "" && b != "" {
      hide FirstDifference;
      LessIsLexicographic(a[1..], b[1..]);
      PrefixLater(a, b);
      DifferenceLater(a, b);
    } else {
      NoDifference(a, b);
    }
  }

  /** The strings agree up to some position, where a is smaller. */
  ghost predicate FirstDifference(a: string, b: string) {
    exists i :: 0 <= i < |a| && i < |b| && a[..i] == b[..i] && a[i] < b[i]
  }

  lemma NoDifference(a: string, b: string)
    requires a == "" || b == ""
    ensures !FirstDifference(a, b)
  {}

  lemma PrefixLater(a: string, b: string)
    requires a != "" && b != ""
    ensures a <= b <==> a[0] == b[0] && a[1..] <= b[1..]
    ensures a == b <==> a[0] == b[0] && a[1..] == b[1..]
  {
    assert a == [a[0]] + a[1..] && b == [b[0]] + b[1..];
  }

  lemma DifferenceLater(a: string, b: string)
    requires a != "" && b != ""
    ensures FirstDifference(a, b) <==> a[0] < b[0] || (a[0] == b[0] && FirstDifference(a[1..], b[1..]))
  {
    var x, y := a[1..], b[1..];
    assert a[..0] == b[..0];
    if i :| 0 <= i < |a| && i < |b| && a[..i] == b[..i] && a[i] < b[i] {
      if i > 0 {
        assert a[0] == a[..i][0] == b[..i][0] == b[0];
        assert x[..i - 1] == a[..i][1..] == b[..i][1..] == y[..i - 1];
        assert x[i - 1] < y[i - 1];
      }
    }
    if i :| a[0] == b[0] && 0 <= i < |x| && i < |y| && x[..i] == y[..i] && x[i] < y[i] {
      assert a[..i + 1] == [a[0]] + x[..i] == [b[0]] + y[..i] == b[..i + 1];
      assert a[i + 1] < b[i + 1];
    }
  }

  lemma {:induction false} LessIsTotal(a: string, b: string)
    ensures Less(a, b) || a == b || Less(b, a)
    ensures !Less(a, a)
    decreases |a|
  {
    if a != "" {
      LessIsTotal(a[1..], if b == "" then "" else b[1..]);
      assert b != "" && a[0] == b[0] && a[1..] == b[1..] ==> a == [a[0]] + a[1..] == b;
    }
  }

  lemma {:induction false} LessIsTransitive(a: string, b: string, c: string)
    requires Less(a, b) && Less(b, c)
    ensures Less(a, c)
    decreases |a|
  {
    if a != "" && a[0] == b[0] == c[0] {
      LessIsTransitive(a[1..], b[1..], c[1..]);
    }
  }

  function InsertString(s: seq<string>, x: string): seq<string> {
    if s == [] || Less(x, s[0]) then [x] + s else [s[0]] + InsertString(s[1..], x)
  }

  lemma {:induction false} InsertKeepsOrder(s: seq<string>, x: string)
    requires InOrderOfStrings(s) && x !in s
    ensures InOrderOfStrings(InsertString(s, x))
    ensures forall v :: v in InsertString(s, x) <==> v == x || v in s
    decreases |s|
  {
    hide Less;
    if s == [] {
    } else if Less(x, s[0]) {
      forall j | 0 <= j < |s| ensures Less(x, s[j]) {
        if j > 0 { LessIsTransitive(x, s[0], s[j]); }
      }
    } else {
      var rest := InsertString(s[1..], x);
      InsertKeepsOrder(s[1..], x);
      LessIsTotal(s[0], x);
      assert s == [s[0]] + s[1..];
      forall j | 0 <= j < |rest| ensures Less(s[0], rest[j]) {
        assert rest[j] in rest;
        if rest[j] != x {
          var i :| 0 <= i < |s[1..]| && s[1..][i] == rest[j];
          assert s[i + 1] == rest[j];
        }
      }
    }
  }

  method SortStrings(values: seq<string>) returns (sorted: seq<string>)
    requires NoDuplicates(values)
    ensures InOrderOfStrings(sorted) && forall v :: v in sorted <==> v in values
  {
    hide Less;
    sorted := [];
    for i := 0 to |values|
      invariant InOrderOfStrings(sorted) && forall v :: v in sorted <==> v in values[..i]
    {
      assert values[..i + 1] == values[..i] + [values[i]];
      InsertKeepsOrder(sorted, values[i]);
      sorted := InsertString(sorted, values[i]);
    }
    assert values[..|values|] == values;
  }

  lemma InOrderIsDistinct(s: seq<string>)
    requires InOrderOfStrings(s)
    ensures NoDuplicates(s)
  {
    hide Less;
    forall i, j | 0 <= i < j < |s| ensures s[i] != s[j] {
      LessIsTotal(s[i], s[j]);
    }
  }

  /** Each string once, in lexicographic order. */
  method DedupeStrings(values: seq<string>) returns (out: seq<string>)
    ensures NoDuplicates(out) && InOrderOfStrings(out) && forall v :: v in out <==> v in values
  {
    hide Less, InOrderOfStrings;
    var seen: set<string> := {};
    out := [];
    for i := 0 to |values|
      invariant NoDuplicates(out)
      invariant forall v :: v in out <==> v in values[..i]
      invariant forall v :: v in seen <==> v in out
    {
      assert values[..i + 1] == values[..i] + [values[i]];
      if values[i] in seen {
        continue;
      }
      seen := seen + {values[i]};
      out := out + [values[i]];
    }
    assert values[..|values|] == values;
    out := SortStrings(out);
    InOrderIsDistinct(out);
  }

  /** The tokens whose decisions share a cache: one token, or tokens without NUL. */
  predicate Compatible(t: string, u: string) {
    t == u || ('\0' !in t && '\0' !in u)
  }

  ghost predicate AnswersKey(token: string, action: Action, answers: seq<AccessDecision>, key: string) {
    exists a :: a in answers && key == CacheKeyString(token, action, a.resource)
  }

  class PolicyDecisionCache {
    var decisions: map<string, AccessDecision>

    /** Every cached decision answers the question its key stands for, for every token that may share the cache with token. */
    ghost predicate Valid(db: AccessDb, token: string)
      reads this
    {
      forall t, a, r :: Compatible(t, token) && CacheKeyString(t, a, r) in decisions
        ==> DecisionFor(db, t, a, r, decisions[CacheKeyString(t, a, r)])
    }

    constructor ()
      ensures decisions == map[]
    {
      decisions := map[];
    }

    method Lookup(token: string, action: Action, resource: string) returns (d: Option<AccessDecision>)
      ensures var key := CacheKeyString(token, action, resource);
              d == if key in decisions then Some(decisions[key]) else None
    {
      var key := CacheKeyString(token, action, resource);
      d := if key in decisions then Some(decisions[key]) else None;
    }

    method StoreMany(db: AccessDb, token: string, action: Action, answers: seq<AccessDecision>)
      requires Valid(db, token)
      requires forall i :: 0 <= i < |answers| ==> DecisionFor(db, token, action, answers[i].resource, answers[i])
      modifies this
      ensures Valid(db, token)
      ensures forall k :: k in decisions <==> k in old(decisions) || AnswersKey(token, action, answers, k)
      ensures forall k :: k in old(decisions) && !AnswersKey(token, action, answers, k) ==> decisions[k] == old(decisions[k])
    {
      hide DecisionFor, CacheKeyString;
      for i := 0 to |answers|
        invariant Valid(db, token)
        invariant forall k :: k in decisions <==> k in old(decisions) || AnswersKey(token, action, answers[..i], k)
        invariant forall k :: k in old(decisions) && !AnswersKey(token, action, answers[..i], k) ==> decisions[k] == old(decisions[k])
      {
        var key := CacheKeyString(token, action, answers[i].resource);
        forall t, a, r | Compatible(t, token) && CacheKeyString(t, a, r) == key
          ensures t == token && a == action && r == answers[i].resource
        {
          CacheKeyInjective(t, a, r, token, action, answers[i].resource);
        }
        decisions := decisions[key := answers[i]];
        assert answers[..i + 1] == answers[..i] + [answers[i]];
      }
      assert answers[..|answers|] == answers;
    }
  }

  // ----- the service

  datatype Explained = Decisions(decisions: seq<AccessDecision>) | QueryFailed

  /** The decision of every resource, position by position. */
  ghost predicate AllAnswered(db: AccessDb, token: string, action: Action, resources: seq<string>, ds: seq<AccessDecision>) {
    |ds| == |resources| && forall i :: 0 <= i < |ds| ==> DecisionFor(db, token, action, resources[i], ds[i])
  }

  type DecisionMap = map<string, AccessDecision>

  ghost predicate MapAnswers(db: AccessDb, token: string, action: Action, m: DecisionMap) {
    forall r :: r in m ==> DecisionFor(db, token, action, r, m[r])
  }

  method LookUpMany(cache: PolicyDecisionCache, db: AccessDb, token: string, action: Action, uniqueResources: seq<string>)
    returns (known: DecisionMap, uncached: seq<string>)
    requires cache.Valid(db, token)
    ensures MapAnswers(db, token, action, known)
    ensures forall x :: x in uncached ==> x in uniqueResources && CacheKeyString(token, action, x) !in cache.decisions
    ensures forall x :: x in known ==> CacheKeyString(token, action, x) in cache.decisions
    ensures forall x :: x in uniqueResources ==> x in known || x in uncached
  {
    hide DecisionFor, CacheKeyString;
    known, uncached := map[], [];
    for i := 0 to |uniqueResources|
      invariant MapAnswers(db, token, action, known)
      invariant forall x :: x in known ==> CacheKeyString(token, action, x) in cache.decisions
      invariant forall x :: x in uncached ==> x in uniqueResources && CacheKeyString(token, action, x) !in cache.decisions
      invariant forall j :: 0 <= j < i ==> uniqueResources[j] in known || uniqueResources[j] in uncached
    {
      var resource := uniqueResources[i];
      var cached := cache.Lookup(token, action, resource);
      if cached.Some? {
        assert CacheKeyString(token, action, resource) in cache.decisions;
        assert DecisionFor(db, token, action, resource, cached.value);
        known := known[resource := cached.value];
      } else {
        uncached := uncached + [resource];
      }
    }
  }

  /** Each resource in its place; one that no row came back for, as for an unknown token, is denied. */
  method InOrder(db: AccessDb, token: string, action: Action, resources: seq<string>, known: DecisionMap)
    returns (ordered: seq<AccessDecision>)
    requires MapAnswers(db, token, action, known)
    requires token in db.users ==> forall x :: x in resources ==> x in known
    ensures AllAnswered(db, token, action, resources, ordered)
  {
    hide DecisionFor;
    ordered := [];
    for i := 0 to |resources|
      invariant AllAnswered(db, token, action, resources[..i], ordered)
    {
      var resource := resources[i];
      var decision := if resource in known then known[resource] else DefaultDecision(action, resource);
      if resource !in known {
        UnknownTokenDenied(db, token, action, resource);
      }
      ordered := ordered + [decision];
    }
    assert resources[..|resources|] == resources;
  }

  /**
   Whatever the cache held, the answers are those the policies give directly, in the
   order asked and with duplicates; a query that fails leaves the cache as it was.
   */
  method ExplainUserAccessMany(cache: PolicyDecisionCache, db: AccessDb, token: string, action: Action, resources: seq<string>,
                               queryFails: bool)
    returns (r: Explained)
    requires cache.Valid(db, token)
    modifies cache
    ensures cache.Valid(db, token)
    ensures r.Decisions? ==> AllAnswered(db, token, action, resources, r.decisions)
    ensures r.QueryFailed? ==> cache.decisions == old(cache.decisions)
    ensures forall k :: k in old(cache.decisions) ==> k in cache.decisions && cache.decisions[k] == old(cache.decisions[k])
    ensures r.Decisions? && token in db.users ==> forall x :: x in resources ==> CacheKeyString(token, action, x) in cache.decisions
    ensures r.QueryFailed? <==> queryFails && exists x :: x in resources && CacheKeyString(token, action, x) !in old(cache.decisions)
  {
    hide DecisionFor, CacheKeyString, MapAnswers, PolicyDecisionCache.Valid;
    if |resources| == 0 {
      return Decisions([]);
    }
    var uniqueResources := DedupeStrings(resources);
    var known, uncached := LookUpMany(cache, db, token, action, uniqueResources);
    assert forall x :: x in resources ==> x in uniqueResources;
    assert forall x :: x in resources ==> x in known || x in uncached;
    if |uncached| > 0 {
      if queryFails {
        assert uncached[0] in uncached;
        return QueryFailed;
      }
      known := FetchUncached(cache, db, token, action, uncached, known);
    }
    var ordered := InOrder(db, token, action, resources, known);
    r := Decisions(ordered);
  }

  method FetchUncached(cache: PolicyDecisionCache, db: AccessDb, token: string, action: Action, uncached: seq<string>, known: DecisionMap)
    returns (all: DecisionMap)
    requires cache.Valid(db, token) && MapAnswers(db, token, action, known)
    requires forall x :: x in uncached ==> CacheKeyString(token, action, x) !in cache.decisions
    modifies cache
    ensures forall k :: k in old(cache.decisions) ==> k in cache.decisions && cache.decisions[k] == old(cache.decisions[k])
    ensures token in db.users ==> forall x :: x in uncached ==> CacheKeyString(token, action, x) in cache.decisions
    ensures cache.Valid(db, token) && MapAnswers(db, token, action, all)
    ensures known.Keys <= all.Keys
    ensures token in db.users ==> forall x :: x in uncached ==> x in all
  {
    var rows := ExplainUserTokenAccessMany(db, token, action, uncached);
    assert forall j :: 0 <= j < |rows| ==> rows[j].resource == uncached[j];
    hide CacheKeyString, DecisionFor;
    all := known;
    var answers: seq<AccessDecision> := [];
    for i := 0 to |rows|
      invariant MapAnswers(db, token, action, all) && known.Keys <= all.Keys
      invariant forall j :: 0 <= j < i ==> uncached[j] in all
      invariant answers == rows[..i]
      invariant forall j :: 0 <= j < |answers| ==> DecisionFor(db, token, action, answers[j].resource, answers[j])
    {
      all := all[rows[i].resource := rows[i]];
      answers := answers + [rows[i]];
    }
    cache.StoreMany(db, token, action, answers);
    forall x | token in db.users && x in uncached ensures CacheKeyString(token, action, x) in cache.decisions {
      var j :| 0 <= j < |uncached| && uncached[j] == x;
      assert rows[j] in answers;
    }
  }

  /** Every resource may be accessed, and there is at least one. */
  method UserHasManyAccess(cache: PolicyDecisionCache, db: AccessDb, token: string, action: Action, resources: seq<string>,
                           queryFails: bool)
    returns (ok: bool, failed: bool)
    requires cache.Valid(db, token)
    modifies cache
    ensures cache.Valid(db, token)
    ensures !failed ==> (ok <==> resources != [] && forall x :: x in resources ==> TokenAccess(db, token, action, x))
    ensures failed ==> queryFails && !ok
  {
    hide CacheKeyString, TokenAccess;
    if |resources| == 0 {
      return false, false;
    }
    var r := ExplainUserAccessMany(cache, db, token, action, resources, queryFails);
    if r.QueryFailed? {
      return false, true;
    }
    for i := 0 to |r.decisions|
      invariant forall j :: 0 <= j < i ==> TokenAccess(db, token, action, resources[j])
    {
      if !r.decisions[i].access {
        assert resources[i] in resources;
        return false, false;
      }
    }
    return true, false;
  }

  /** An empty cache answers nothing wrongly, and a cache that serves a NUL-free token serves every other one. */
  lemma ValidForOtherTokens(cache: PolicyDecisionCache, db: AccessDb, t: string, u: string)
    requires NUL !in t && NUL !in u && cache.Valid(db, t)
    ensures cache.Valid(db, u)
  {
    hide DecisionFor, CacheKeyString;
  }
}
