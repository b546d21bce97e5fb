/**
 The scheduler's program cache: a refresh marks every program, adds what the
 databases list, and sweeps what was not listed, while cron entries come and go
 with the routines that own them.
 */
module ProgramCache {
  import opened Wrappers
  import Order

  type EntryId = int

  datatype Program = Program(domain: string, name: string, uuid: string, ptype: string, schedule: string, deadline: int,
                             language: string, revision: int, code: seq<bv8>, checksum: string) {

    predicate Equals(b: Program) {
      && domain == b.domain && name == b.name && uuid == b.uuid && ptype == b.ptype && schedule == b.schedule
      && deadline == b.deadline && language == b.language && code == b.code && checksum == b.checksum
    }
  }

  // ----- ids

  function Digits(n: nat): (s: string)
    ensures s != "" && forall c :: c in s ==> '0' <= c <= '9'
  {
    var d := ['0' + (n % 10) as char];
    if n < 10 then d else Digits(n / 10) + d
  }

  function Decimal(n: int): string { if n < 0 then "-" + Digits(-n) else Digits(n) }

  function GetId(domain: string, uuid: string, revision: int): string {
    domain + "/" + uuid + "@" + Decimal(revision)
  }

  function IdOf(p: Program): string { GetId(p.domain, p.uuid, p.revision) }

  lemma {:induction false} DigitsInjective(a: nat, b: nat)
    requires Digits(a) == Digits(b)
    ensures a == b
  {
    var s, t := Digits(a), Digits(b);
    assert s[|s| - 1] == '0' + (a % 10) as char && t[|t| - 1] == '0' + (b % 10) as char;
    assert a % 10 == b % 10;
    assert a < 10 <==> |s| == 1;
    assert b < 10 <==> |t| == 1;
    if a >= 10 && b >= 10 {
      assert s[..|s| - 1] == Digits(a / 10) && t[..|t| - 1] == Digits(b / 10);
      DigitsInjective(a / 10, b / 10);
    }
  }

  lemma DecimalInjective(a: int, b: int)
    requires Decimal(a) == Decimal(b)
    ensures a == b
  {
    assert a >= 0 ==> Digits(a)[0] in Digits(a);
    assert b >= 0 ==> Digits(b)[0] in Digits(b);
    if a >= 0 && b >= 0 {
      DigitsInjective(a, b);
    } else if a < 0 && b < 0 {
      assert Digits(-a) == Decimal(a)[1..] == Digits(-b);
      DigitsInjective(-a, -b);
    }
  }

  lemma NotFurther(a: string, x: string, b: string, y: string, mark: char)
    requires a + [mark] + x == b + [mark] + y && mark !in x
    ensures |b| <= |a|
  {
    var s, t := a + [mark] + x, b + [mark] + y;
    assert t[|b|] == mark;
    assert forall j :: |a| < j < |s| ==> s[j] == x[j - |a| - 1] && s[j] in x;
  }

  /** Cutting at the last mark: what follows it has none. */
  lemma CutAtLast(a: string, x: string, b: string, y: string, mark: char)
    requires a + [mark] + x == b + [mark] + y && mark !in x && mark !in y
    ensures a == b && x == y
  {
    NotFurther(a, x, b, y, mark);
    NotFurther(b, y, a, x, mark);
    var s, t := a + [mark] + x, b + [mark] + y;
    assert s[..|a|] == a && t[..|b|] == b && s[|a| + 1..] == x && t[|b| + 1..] == y;
  }

  lemma DecimalMarks(n: int)
    ensures '@' !in Decimal(n) && '/' !in Decimal(n)
  {}

  /** An id names one program revision of one domain, whatever the domain is called. */
  lemma GetIdInjective(d: string, u: string, r: int, e: string, v: string, q: int)
    requires '/' !in u && '/' !in v && GetId(d, u, r) == GetId(e, v, q)
    ensures d == e && u == v && r == q
  {
    DecimalMarks(r);
    DecimalMarks(q);
    assert GetId(d, u, r) == (d + "/" + u) + ['@'] + Decimal(r);
    assert GetId(e, v, q) == (e + "/" + v) + ['@'] + Decimal(q);
    CutAtLast(d + "/" + u, Decimal(r), e + "/" + v, Decimal(q), '@');
    DecimalInjective(r, q);
    CutAtLast(d, u, e, v, '/');
  }

  /** Under one id, which holds the revision that the comparison leaves out, Equals is equality. */
  lemma EqualsIsEquality(p: Program, q: Program)
    requires IdOf(p) == IdOf(q)
    ensures p.Equals(q) <==> p == q
  {
    if p.Equals(q) {
      var start := p.domain + "/" + p.uuid + "@";
      assert IdOf(p)[|start|..] == Decimal(p.revision) && IdOf(q)[|start|..] == Decimal(q.revision);
      DecimalInjective(p.revision, q.revision);
    }
  }

  // ----- cron

  class Cron {
    /** The schedules the cron parser accepts. */
    const parses: string -> bool
    var nextId: EntryId
    /** What is scheduled: the expression and the routine it runs. */
    var live: map<EntryId, (string, ProgramRevision)>

    ghost predicate Valid()
      reads this
    {
      0 <= nextId && forall e :: e in live ==> 0 < e <= nextId
    }

    constructor (parses: string -> bool)
      ensures Valid() && live == map[] && this.parses == parses
    {
      this.parses := parses;
      nextId, live := 0, map[];
    }

    /** Ids start at one and are never used again; a schedule that does not parse gives the id zero. */
    method AddFunc(schedule: string, task: ProgramRevision) returns (eid: EntryId)
      requires Valid()
      modifies this
      ensures Valid()
      ensures if parses(schedule) then eid !in old(live) && eid > 0 && live == old(live)[eid := (schedule, task)]
              else eid == 0 && live == old(live)
    {
      if !parses(schedule) {
        return 0;
      }
      nextId := nextId + 1;
      live := live[nextId := (schedule, task)];
      return nextId;
    }

    method Remove(eid: EntryId)
      requires Valid()
      modifies this
      ensures Valid() && live == old(live) - {eid}
    {
      live := live - {eid};
    }
  }

  class ProgramRevision {
    const program: Program
    var eid: EntryId

    constructor (program: Program)
      ensures this.program == program && eid == 0
    {
      this.program := program;
      eid := 0;
    }

    function Id(): string { IdOf(program) }

    predicate IsRoutine() { program.ptype == "routine" }

    method Start(watch: Cron)
      requires watch.Valid() && eid == 0
      modifies this, watch
      ensures watch.Valid() && watch.live == Started(this, eid, old(watch.live), watch.parses)
      ensures if Runs(this, watch.parses) then eid !in old(watch.live) && eid > 0 else eid == 0
      ensures watch.live == if program.ptype == "routine" && watch.parses(program.schedule)
                            then old(watch.live)[eid := (program.schedule, this)] else old(watch.live)
    {
      if !IsRoutine() {
        return;
      }
      eid := watch.AddFunc(program.schedule, this);
    }

    method Stop(watch: Cron)
      requires watch.Valid()
      modifies watch
      ensures watch.Valid() && watch.live == Stopped(this, eid, old(watch.live))
      ensures watch.live == if program.ptype == "routine" then old(watch.live) - {eid} else old(watch.live)
    {
      if !IsRoutine() {
        return;
      }
      watch.Remove(eid);
    }
  }

  type Programs = map<string, ProgramRevision>

  type Entries = map<EntryId, (string, ProgramRevision)>

  /** The revisions that have a cron entry while they are started. */
  predicate Runs(p: ProgramRevision, parses: string -> bool) { p.IsRoutine() && parses(p.program.schedule) }

  function Started(p: ProgramRevision, eid: EntryId, live: Entries, parses: string -> bool): Entries {
    if Runs(p, parses) then live[eid := (p.program.schedule, p)] else live
  }

  function Stopped(p: ProgramRevision, eid: EntryId, live: Entries): Entries {
    if p.IsRoutine() then live - {eid} else live
  }

  // ----- who owns which entry

  /** Programs stand under their ids; a started one owns the entry with its id, and every entry is owned. */
  ghost predicate Owned(m: Programs, eids: map<string, EntryId>, live: Entries, parses: string -> bool) {
    && eids.Keys == m.Keys
    && (forall id :: id in m ==> m[id].Id() == id && HasEntry(m[id], eids[id], live, parses))
    && Owners(m, eids, live)
  }

  ghost predicate Owners(m: Programs, eids: map<string, EntryId>, live: Entries)
    requires eids.Keys == m.Keys
  {
    forall e :: e in live ==> exists id :: id in m && eids[id] == e && m[id].IsRoutine()
  }

  ghost predicate HasEntry(p: ProgramRevision, eid: EntryId, live: Entries, parses: string -> bool) {
    if Runs(p, parses) then eid in live && live[eid] == (p.program.schedule, p) else eid == 0
  }

  lemma EntryAfterStop(p: ProgramRevision, eid: EntryId, q: ProgramRevision, other: EntryId, live: Entries, parses: string -> bool)
    requires HasEntry(p, eid, live, parses) && HasEntry(q, other, live, parses) && p != q && 0 !in live
    ensures HasEntry(p, eid, Stopped(q, other, live), parses)
  {}

  lemma EntryAfterStart(p: ProgramRevision, eid: EntryId, q: ProgramRevision, other: EntryId, live: Entries, parses: string -> bool)
    requires HasEntry(p, eid, live, parses)
    requires if Runs(q, parses) then other !in live else other == 0
    ensures HasEntry(p, eid, Started(q, other, live, parses), parses)
  {}

  lemma EntriesAfter(q: ProgramRevision, other: EntryId, live: Entries, parses: string -> bool)
    ensures Stopped(q, other, live).Keys <= live.Keys && (q.IsRoutine() ==> other !in Stopped(q, other, live))
    ensures forall e :: e in Started(q, other, live, parses) && e !in live ==> e == other && q.IsRoutine()
  {}

  lemma StopOne(m: Programs, eids: map<string, EntryId>, live: Entries, parses: string -> bool, id: string)
    requires Owned(m, eids, live, parses) && id in m && 0 !in live
    ensures Owned(m - {id}, eids - {id}, Stopped(m[id], eids[id], live), parses)
  {
    hide HasEntry, Stopped, IdOf, ProgramRevision.IsRoutine;
    var after := Stopped(m[id], eids[id], live);
    EntriesAfter(m[id], eids[id], live, parses);
    forall x | x in m && x != id ensures HasEntry(m[x], eids[x], after, parses) {
      EntryAfterStop(m[x], eids[x], m[id], eids[id], live, parses);
    }
    forall e | e in after ensures exists x :: x in m - {id} && (eids - {id})[x] == e && m[x].IsRoutine() {
      var x :| x in m && eids[x] == e && m[x].IsRoutine();
      assert x != id;
      assert (eids - {id})[x] == e;
    }
  }

  lemma StartOne(m: Programs, eids: map<string, EntryId>, live: Entries, parses: string -> bool, obj: ProgramRevision, eid: EntryId)
    requires Owned(m, eids, live, parses) && obj.Id() !in m
    requires if Runs(obj, parses) then eid !in live else eid == 0
    ensures Owned(m[obj.Id() := obj], eids[obj.Id() := eid], Started(obj, eid, live, parses), parses)
  {
    NewEntry(obj, eid, live, parses);
    hide HasEntry, Started, Runs, IdOf, Owners, ProgramRevision.IsRoutine;
    var id, after := obj.Id(), Started(obj, eid, live, parses);
    EntriesAfter(obj, eid, live, parses);
    forall x | x in m ensures HasEntry(m[x], eids[x], after, parses) {
      EntryAfterStart(m[x], eids[x], obj, eid, live, parses);
    }
    OneMoreOwner(m, eids, live, id, obj, eid, after);
  }

  lemma OneMoreOwner(m: Programs, eids: map<string, EntryId>, live: Entries, id: string, obj: ProgramRevision, eid: EntryId, after: Entries)
    requires eids.Keys == m.Keys && Owners(m, eids, live) && id !in m
    requires forall e :: e in after && e !in live ==> e == eid && obj.IsRoutine()
    ensures Owners(m[id := obj], eids[id := eid], after)
  {
    hide ProgramRevision.IsRoutine;
    var more, moreEids := m[id := obj], eids[id := eid];
    forall e | e in after ensures exists x :: x in more && moreEids[x] == e && more[x].IsRoutine() {
      if e in live {
        var x :| x in m && eids[x] == e && m[x].IsRoutine();
        assert x in more && moreEids[x] == e && more[x] == m[x];
      } else {
        assert id in more && moreEids[id] == e && more[id] == obj;
      }
    }
  }

  lemma NewEntry(obj: ProgramRevision, eid: EntryId, live: Entries, parses: string -> bool)
    requires if Runs(obj, parses) then eid !in live else eid == 0
    ensures HasEntry(obj, eid, Started(obj, eid, live, parses), parses)
  {}

  // ----- the cache

  ghost function EidsOf(m: Programs): (eids: map<string, EntryId>)
    reads m.Values
    ensures eids.Keys == m.Keys
  {
    map id | id in m :: m[id].eid
  }

  class Cache {
    const watch: Cron
    var m: Programs
    var deletes: set<string>

    /** Programs under their ids, and the scheduled entries exactly those of the cached routines. */
    ghost predicate Valid()
      reads this, watch, m.Values
    {
      watch.Valid() && Owned(m, EidsOf(m), watch.live, watch.parses)
    }

    constructor (watch: Cron)
      requires watch.Valid() && watch.live == map[]
      ensures Valid() && this.watch == watch && m == map[] && deletes == {}
    {
      this.watch := watch;
      m, deletes := map[], {};
    }

    /** Mark everything. */
    method Begin()
      requires Valid()
      modifies this`deletes
      ensures Valid() && deletes == m.Keys
    {
      hide Owned;
      deletes := {};
      var todo := m.Keys;
      while todo != {}
        invariant todo <= m.Keys && deletes == m.Keys - todo
        decreases todo
      {
        var k := Order.Pick(todo);
        deletes := deletes + {k};
        todo := todo - {k};
      }
    }

    /** A program that did not change keeps its object and its entry; a changed or new one is started, its predecessor stopped. */
    method Add(obj: ProgramRevision)
      requires Valid() && obj !in m.Values && obj.eid == 0
      modifies this, watch, obj
      ensures Valid()
      ensures deletes == old(deletes) - {obj.Id()}
      ensures var id := obj.Id();
              if id in old(m) && old(m)[id].program == obj.program
              then m == old(m) && watch.live == old(watch.live)
              else m == old(m)[id := obj]
    {
      hide Owned;
      var id := obj.Id();
      deletes := deletes - {id};
      if id in m {
        var a := m[id];
        UnderOwnId(id);
        EqualsIsEquality(a.program, obj.program);
        if a.program.Equals(obj.program) {
          return;
        }
        Drop(id);
      }
      StartNew(obj);
    }

    lemma UnderOwnId(id: string)
      requires Valid() && id in m
      ensures IdOf(m[id].program) == id
    {}

    /** Starts a program and puts it under its id. */
    method StartNew(obj: ProgramRevision)
      requires Valid() && obj.Id() !in m && obj !in m.Values && obj.eid == 0
      modifies this`m, watch, obj
      ensures Valid() && m == old(m)[obj.Id() := obj]
    {
      hide Owned, Started, Runs, IdOf;
      ghost var eids, live := EidsOf(m), watch.live;
      obj.Start(watch);
      StartOne(m, eids, live, watch.parses, obj, obj.eid);
      m := m[obj.Id() := obj];
      assert EidsOf(m) == eids[obj.Id() := obj.eid];
    }

    /** Stops the program of an id and takes it out. */
    method Drop(id: string)
      requires Valid() && id in m
      modifies this`m, watch
      ensures Valid() && m == old(m) - {id}
    {
      hide Owned, Stopped;
      ghost var eids := EidsOf(m);
      StopOne(m, eids, watch.live, watch.parses, id);
      var a := m[id];
      a.Stop(watch);
      m := m - {id};
      assert EidsOf(m) == eids - {id};
    }

    /** Sweep what is still marked. */
    method Commit()
      requires Valid()
      modifies this, watch
      ensures Valid()
      ensures m == old(m) - old(deletes) && deletes == {}
    {
      hide Owned;
      var todo := deletes;
      while todo != {}
        invariant Valid()
        invariant todo <= old(deletes) && m == old(m) - (old(deletes) - todo)
        decreases todo
      {
        var k := Order.Pick(todo);
        if k in m {
          Drop(k);
        }
        todo := todo - {k};
      }
      deletes := {};
    }
  }

  // ----- a refresh

  /** What one configured database answers; its domain is part of every program. */
  datatype Listing = Unconnected | Failed | Listed(programs: seq<Program>)

  function IdsOf(programs: seq<Program>): set<string> { set p | p in programs :: IdOf(p) }

  /** The programs a refresh gets to see: those of the databases before the first that fails. */
  function Seen(listings: seq<Listing>): seq<Program> {
    if listings == [] || listings[0].Failed? then []
    else (if listings[0].Listed? then listings[0].programs else []) + Seen(listings[1..])
  }

  predicate AnyFailed(listings: seq<Listing>) {
    exists i :: 0 <= i < |listings| && listings[i].Failed?
  }

  /** The program listed last under an id. */
  function Last(programs: seq<Program>, id: string): Option<Program> {
    if programs == [] then None
    else
      var n := |programs| - 1;
      if IdOf(programs[n]) == id then Some(programs[n]) else Last(programs[..n], id)
  }

  ghost predicate AllEqual(programs: seq<Program>, id: string, p: Program) {
    forall q :: q in programs && IdOf(q) == id ==> q == p
  }

  /** Each program listed is there in its last listed version. */
  ghost predicate LastVersions(after: Programs, programs: seq<Program>) {
    forall id :: id in IdsOf(programs) ==>
                   id in after && Last(programs, id) == Some(after[id].program)
  }

  /** A program listed only as it was keeps its object. */
  ghost predicate UnchangedStay(before: Programs, after: Programs, programs: seq<Program>) {
    forall id :: id in before && id in after && AllEqual(programs, id, before[id].program) ==> after[id] == before[id]
  }

  /** before and after adding programs. */
  ghost predicate Refreshed(before: Programs, after: Programs, programs: seq<Program>) {
    after.Keys == before.Keys + IdsOf(programs) && LastVersions(after, programs) && UnchangedStay(before, after, programs)
  }

  /** before and after a whole refresh. */
  ghost predicate Replaced(before: Programs, after: Programs, programs: seq<Program>) {
    after.Keys == IdsOf(programs) && LastVersions(after, programs) && UnchangedStay(before, after, programs)
  }

  lemma SweepReplaces(before: Programs, after: Programs, programs: seq<Program>)
    requires Refreshed(before, after, programs)
    ensures Replaced(before, after - (before.Keys - IdsOf(programs)), programs)
  {
    hide IdOf, IdsOf, AllEqual, Last;
  }

  lemma IdsOfMore(programs: seq<Program>, p: Program)
    ensures IdsOf(programs + [p]) == IdsOf(programs) + {IdOf(p)}
  {
    hide IdOf;
    assert p in programs + [p] && forall q :: q in programs ==> q in programs + [p];
  }

  lemma LastOfMore(programs: seq<Program>, p: Program, id: string)
    ensures Last(programs + [p], id) == if IdOf(p) == id then Some(p) else Last(programs, id)
  {
    hide IdOf;
    assert (programs + [p])[..|programs|] == programs;
  }

  lemma AllEqualOfMore(programs: seq<Program>, p: Program, id: string, q: Program)
    ensures AllEqual(programs + [p], id, q) <==> AllEqual(programs, id, q) && (IdOf(p) == id ==> q == p)
  {
    hide IdOf;
    assert p in programs + [p] && forall x :: x in programs ==> x in programs + [p];
  }

  lemma RefreshOne(before: Programs, after: Programs, programs: seq<Program>, obj: ProgramRevision)
    requires Refreshed(before, after, programs)
    ensures var id := obj.Id();
            var more := programs + [obj.program];
            if id in after && after[id].program == obj.program then Refreshed(before, after, more)
            else Refreshed(before, after[id := obj], more)
  {
    hide IdOf, IdsOf, AllEqual, Last;
    var id, p := obj.Id(), obj.program;
    IdsOfMore(programs, p);
    forall x ensures Last(programs + [p], x) == if id == x then Some(p) else Last(programs, x) {
      LastOfMore(programs, p, x);
    }
    forall x | x in before
      ensures AllEqual(programs + [p], x, before[x].program)
         <==> AllEqual(programs, x, before[x].program) && (id == x ==> before[x].program == p)
    {
      AllEqualOfMore(programs, p, x, before[x].program);
    }
  }

  lemma NothingSeen(before: Programs)
    ensures IdsOf([]) == {} && Refreshed(before, before, [])
  {}

  lemma IdsOfBoth(a: seq<Program>, b: seq<Program>)
    ensures IdsOf(a + b) == IdsOf(a) + IdsOf(b)
  {
    assert forall p :: p in a + b <==> p in a || p in b;
  }

  lemma NoneFailed(listings: seq<Listing>)
    ensures !AnyFailed(listings[..0]) && Seen(listings) == [] + Seen(listings[0..])
  {
    assert listings[0..] == listings;
  }

  /** One listing on: a failed one ends what is seen, a connected one adds to it. */
  lemma SeenStep(listings: seq<Listing>, i: nat, seen: seq<Program>)
    requires i < |listings|
    ensures AnyFailed(listings[..i + 1]) <==> AnyFailed(listings[..i]) || listings[i].Failed?
    ensures listings[i].Failed? ==> seen + Seen(listings[i..]) == seen && AnyFailed(listings)
    ensures listings[i].Listed? ==> seen + Seen(listings[i..]) == seen + listings[i].programs + Seen(listings[i + 1..])
    ensures listings[i].Unconnected? ==> Seen(listings[i..]) == Seen(listings[i + 1..])
  {
    assert listings[i..][0] == listings[i] && listings[i..][1..] == listings[i + 1..];
    assert listings[..i + 1] == listings[..i] + [listings[i]];
    if AnyFailed(listings[..i]) {
      var j :| 0 <= j < i && listings[..i][j].Failed?;
      assert listings[..i + 1][j].Failed?;
    }
    if listings[i].Failed? {
      assert listings[..i + 1][i].Failed?;
    }
  }

  lemma AllSeen(listings: seq<Listing>, seen: seq<Program>)
    ensures listings[..|listings|] == listings && seen + Seen(listings[|listings|..]) == seen
  {}

  method AddListed(cache: Cache, p: Program, ghost before: Programs, ghost seen: seq<Program>)
    requires cache.Valid() && Refreshed(before, cache.m, seen)
    modifies cache, cache.watch
    ensures cache.Valid() && Refreshed(before, cache.m, seen + [p])
    ensures cache.deletes == old(cache.deletes) - {IdOf(p)}
  {
    hide Refreshed, Owned, IdOf;
    var obj := new ProgramRevision(p);
    RefreshOne(before, cache.m, seen, obj);
    cache.Add(obj);
  }

  method AddAll(cache: Cache, programs: seq<Program>, ghost before: Programs, ghost seen: seq<Program>)
    requires cache.Valid() && Refreshed(before, cache.m, seen)
    modifies cache, cache.watch
    ensures cache.Valid() && Refreshed(before, cache.m, seen + programs)
    ensures cache.deletes == old(cache.deletes) - IdsOf(programs)
  {
    hide *;
    NothingListedYet(seen, programs);
    for i := 0 to |programs|
      invariant cache.Valid() && Refreshed(before, cache.m, seen + programs[..i])
      invariant cache.deletes == old(cache.deletes) - IdsOf(programs[..i])
    {
      OneAdded(seen, programs, i);
      AddListed(cache, programs[i], before, seen + programs[..i]);
    }
  }

  lemma NothingListedYet(seen: seq<Program>, programs: seq<Program>)
    ensures seen + programs[..0] == seen && IdsOf(programs[..0]) == {} && programs[..|programs|] == programs
  {}

  lemma OneAdded(seen: seq<Program>, programs: seq<Program>, i: nat)
    requires i < |programs|
    ensures seen + programs[..i + 1] == seen + programs[..i] + [programs[i]]
    ensures IdsOf(programs[..i + 1]) == IdsOf(programs[..i]) + {IdOf(programs[i])}
  {
    hide IdsOf;
    assert programs[..i + 1] == programs[..i] + [programs[i]];
    IdsOfMore(programs[..i], programs[i]);
  }

  /**
   After a refresh the cache holds exactly the programs listed, each in its last listed
   version, and a program listed as it was keeps its object.  A refresh that fails on
   the way adds what it saw and removes nothing.
   */
  method UpdateProgramCache(cache: Cache, listings: seq<Listing>) returns (committed: bool)
    requires cache.Valid()
    modifies cache, cache.watch
    ensures cache.Valid()
    ensures committed <==> !AnyFailed(listings)
    ensures var seen, before := Seen(listings), old(cache.m);
            if committed then Replaced(before, cache.m, seen) && cache.deletes == {} else Refreshed(before, cache.m, seen)
  {
    hide Cache.Valid, IdsOf, LastVersions, UnchangedStay, Refreshed, Replaced, Seen, AnyFailed;
    ghost var before := cache.m;
    ghost var seen: seq<Program> := [];
    NothingSeen(before);
    NoneFailed(listings);
    cache.Begin();
    for i := 0 to |listings|
      invariant cache.Valid() && Refreshed(before, cache.m, seen)
      invariant cache.deletes == before.Keys - IdsOf(seen)
      invariant Seen(listings) == seen + Seen(listings[i..])
      invariant !AnyFailed(listings[..i])
    {
      SeenStep(listings, i, seen);
      if listings[i].Failed? {
        return false;
      }
      if listings[i].Listed? {
        AddAll(cache, listings[i].programs, before, seen);
        IdsOfBoth(seen, listings[i].programs);
        seen := seen + listings[i].programs;
      }
    }
    AllSeen(listings, seen);
    SweepReplaces(before, cache.m, seen);
    cache.Commit();
    return true;
  }
}
