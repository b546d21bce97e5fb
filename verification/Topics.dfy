/**
 Matching of topic names against topic filters, MQTT 3.1.1 section 4.7.1.
 */
module Topics {
  import opened Wrappers
  import opened Text

  // ----- the standard's definitions, character by character

  /** Section 4.7.1: a multi-level wildcard is the last level, a single-level wildcard a whole level. */
  ghost predicate WellPlaced(f: string) {
    forall i :: 0 <= i < |f| ==>
      && (f[i] == '#' || f[i] == '+' ==> i == 0 || f[i - 1] == '/')
      && (f[i] == '#' ==> i == |f| - 1)
      && (f[i] == '+' ==> i == |f| - 1 || f[i + 1] == '/')
  }

  /** Names that can be published to have no wildcard characters: section 4.7.1. */
  predicate TopicName(t: string) { '#' !in t && '+' !in t }

  /** Where the first level of t ends. */
  function LevelEnd(t: string): (n: nat)
    ensures n <= |t| && '/' !in t[..n] && (n < |t| ==> t[n] == '/')
  {
    if t == "" || t[0] == '/' then 0 else 1 + LevelEnd(t[1..])
  }

  /** Section 4.7.1.2 and 4.7.1.3, reading both strings from the left. */
  predicate Matches(f: string, t: string) {
    if f == "" then t == ""
    else if f[0] == '#' then true
    else if f[0] == '+' then Matches(f[1..], t[LevelEnd(t)..])
    else if f == "/#" && t == "" then true
    else t != "" && t[0] == f[0] && Matches(f[1..], t[1..])
  }

  // ----- the same, level by level

  predicate LevelOk(part: string, last: bool) {
    if part == "#" then last
    else '#' !in part && ('+' in part ==> part == "+")
  }

  predicate LevelsOk(parts: seq<string>) {
    forall i :: 0 <= i < |parts| ==> LevelOk(parts[i], i == |parts| - 1)
  }

  predicate LevelMatches(part: string, level: string) {
    part == "+" || part == level
  }

  /** The levels of a filter against those of a topic; a final # stands for any number of levels, none included. */
  predicate LevelsMatch(pattern: seq<string>, levels: seq<string>)
    requires pattern != []
  {
    var n := |pattern| - 1;
    if pattern[n] == "#" then
      n <= |levels| && forall i :: 0 <= i < n ==> LevelMatches(pattern[i], levels[i])
    else
      |levels| == n + 1 && forall i :: 0 <= i <= n ==> LevelMatches(pattern[i], levels[i])
  }

  /** The levels that stand where the pattern has a +. */
  function Captures(pattern: seq<string>, levels: seq<string>): seq<string>
    requires |pattern| <= |levels|
  {
    if pattern == [] then []
    else
      var n := |pattern| - 1;
      Captures(pattern[..n], levels) + if pattern[n] == "+" then [levels[n]] else []
  }

  /** The pattern with every + replaced by its capture, the last one first. */
  function Fill(pattern: seq<string>, captures: seq<string>): seq<string> {
    if pattern == [] then []
    else
      var n, m := |pattern| - 1, |captures| - 1;
      if pattern[n] != "+" || captures == [] then Fill(pattern[..n], captures) + [pattern[n]]
      else Fill(pattern[..n], captures[..m]) + [captures[m]]
  }

  function CountPlus(pattern: seq<string>): nat {
    if pattern == [] then 0 else CountPlus(pattern[..|pattern| - 1]) + if pattern[|pattern| - 1] == "+" then 1 else 0
  }

  // ----- the two views agree

  lemma LevelOkPlaced(part: string, last: bool)
    requires '/' !in part
    ensures LevelOk(part, last) <==> WellPlaced(part) && ('#' in part ==> last)
  {
    if LevelOk(part, last) {
      forall i | 0 <= i < |part| ensures part[i] == '#' || part[i] == '+' ==> |part| == 1 {
        assert part[i] in part;
      }
    } else {
      if '#' in part && part != "#" {
        var i :| 0 <= i < |part| && part[i] == '#';
        assert i > 0 ==> part[i - 1] in part;
        assert |part| > 1;
        assert !WellPlaced(part);
      } else if '+' in part {
        var i :| 0 <= i < |part| && part[i] == '+';
        assert i > 0 ==> part[i - 1] in part;
        assert i < |part| - 1 ==> part[i + 1] in part;
        assert |part| > 1;
      }
    }
  }

  lemma PlacedAppend(part: string, rest: string)
    requires '/' !in part
    ensures WellPlaced(part + "/" + rest) <==> WellPlaced(part) && '#' !in part && WellPlaced(rest)
  {
    var f := part + "/" + rest;
    var n := |part| + 1;
    assert forall i :: 0 <= i < |part| ==> f[i] == part[i];
    assert f[|part|] == '/';
    assert forall i :: 0 <= i < |rest| ==> f[n + i] == rest[i];
    if WellPlaced(f) {
      forall i | 0 <= i < |part| ensures part[i] != '#' {
        assert f[i] == part[i];
      }
      assert WellPlaced(part);
      forall i | 0 <= i < |rest|
        ensures rest[i] == '#' || rest[i] == '+' ==> i == 0 || rest[i - 1] == '/'
        ensures rest[i] == '#' ==> i == |rest| - 1
        ensures rest[i] == '+' ==> i == |rest| - 1 || rest[i + 1] == '/'
      {
        assert f[n + i] == rest[i];
        assert i > 0 ==> f[n + i - 1] == rest[i - 1];
        assert i < |rest| - 1 ==> f[n + i + 1] == rest[i + 1];
      }
    }
    if WellPlaced(part) && '#' !in part && WellPlaced(rest) {
      forall i | 0 <= i < |f|
        ensures f[i] == '#' || f[i] == '+' ==> i == 0 || f[i - 1] == '/'
        ensures f[i] == '#' ==> i == |f| - 1
        ensures f[i] == '+' ==> i == |f| - 1 || f[i + 1] == '/'
      {
        if i < |part| {
          assert part[i] in part;
        } else if i > |part| {
          assert f[i] == rest[i - n];
          assert i > n ==> f[i - 1] == rest[i - n - 1];
          assert i < |f| - 1 ==> f[i + 1] == rest[i - n + 1];
        }
      }
    }
  }

  lemma {:induction false} LevelsPlaced(parts: seq<string>)
    requires parts != [] && forall i :: 0 <= i < |parts| ==> '/' !in parts[i]
    ensures LevelsOk(parts) <==> WellPlaced(Join(parts, '/'))
    decreases |parts|
  {
    hide WellPlaced, LevelOk;
    var head, tail := parts[0], parts[1..];
    if tail == [] {
      LevelOkPlaced(head, true);
      assert parts == [head];
    } else {
      LevelOkPlaced(head, false);
      LevelsPlaced(tail);
      PlacedAppend(head, Join(tail, '/'));
      assert LevelsOk(parts) <==> LevelOk(head, false) && LevelsOk(tail) by {
        assert parts[0] == head && forall i :: 0 <= i < |tail| ==> parts[i + 1] == tail[i];
        if LevelsOk(parts) {
          forall i | 0 <= i < |tail| ensures LevelOk(tail[i], i == |tail| - 1) {
            assert LevelOk(parts[i + 1], i + 1 == |parts| - 1);
          }
        }
      }
    }
  }

  /** Level by level or character by character, the same filters are well formed. */
  lemma FilterLevels(f: string)
    ensures LevelsOk(Split(f, '/')) <==> WellPlaced(f)
  {
    JoinSplit(f, '/');
    LevelsPlaced(Split(f, '/'));
  }

  lemma {:induction false} LevelEndAppend(level: string, rest: string)
    requires '/' !in level && (rest == "" || rest[0] == '/')
    ensures LevelEnd(level + rest) == |level|
  {
    if level == "" {
      assert level + rest == rest;
    } else {
      assert level[0] in level && forall c :: c in level[1..] ==> c in level;
      LevelEndAppend(level[1..], rest);
      assert (level + rest)[1..] == level[1..] + rest;
    }
  }

  /** One level: a literal part consumes itself, a + consumes the level. */
  lemma {:induction false} LevelConsumed(part: string, f: string, level: string, t: string)
    requires '/' !in part && '/' !in level && '#' !in part && ('+' in part ==> part == "+")
    requires (f == "" || f[0] == '/') && (t == "" || t[0] == '/')
    ensures Matches(part + f, level + t) <==> LevelMatches(part, level) && Matches(f, t)
    decreases |part|
  {
    if part == "+" {
      LevelEndAppend(level, t);
      assert (part + f)[1..] == f && (level + t)[|level|..] == t;
    } else if part == "" {
      assert part + f == f;
      if level == "" {
        assert level + t == t;
      } else {
        assert (level + t)[0] == level[0] && level[0] in level;
        if f != "" {
          assert f[0] == '/';
        }
      }
    } else {
      assert part[0] in part && (part + f)[0] == part[0];
      assert (part + f)[1..] == part[1..] + f;
      if level == "" {
        assert level + t == t;
      } else {
        assert level[0] in level && (level + t)[0] == level[0];
        assert (level + t)[1..] == level[1..] + t;
        assert forall c :: c in part[1..] ==> c in part;
        assert forall c :: c in level[1..] ==> c in level;
        LevelConsumed(part[1..], f, level[1..], t);
        assert part == [part[0]] + part[1..] && level == [level[0]] + level[1..];
      }
    }
  }

  function Tail(levels: seq<string>): string {
    if levels == [] then "" else "/" + Join(levels, '/')
  }

  lemma JoinTail(levels: seq<string>)
    requires levels != []
    ensures Join(levels, '/') == levels[0] + Tail(levels[1..])
  {
    Associative(levels[0], "/", Join(levels[1..], '/'));
  }

  ghost predicate Slashless(levels: seq<string>) {
    forall i :: 0 <= i < |levels| ==> '/' !in levels[i]
  }

  lemma LevelsMatchStep(pattern: seq<string>, levels: seq<string>)
    requires |pattern| > 1 && levels != [] && pattern[0] != "#"
    ensures LevelsMatch(pattern, levels) <==> LevelMatches(pattern[0], levels[0]) && LevelsMatch(pattern[1..], levels[1..])
  {
    var n := |pattern| - 1;
    var p, l := pattern[1..], levels[1..];
    assert p[n - 1] == pattern[n];
    if LevelMatches(pattern[0], levels[0]) && LevelsMatch(p, l) {
      forall i | 0 <= i < |pattern| && i < |levels| && (pattern[n] == "#" ==> i < n)
        ensures LevelMatches(pattern[i], levels[i])
      {
        if i > 0 { assert pattern[i] == p[i - 1] && levels[i] == l[i - 1]; }
      }
    }
  }

  /** After a matched level, what is left of the filter and of the topic starts with a separator or is empty. */
  lemma {:induction false} TailsMatch(pattern: seq<string>, levels: seq<string>)
    requires Slashless(pattern) && Slashless(levels) && LevelsOk(pattern)
    ensures Matches(Tail(pattern), Tail(levels)) <==> if pattern == [] then levels == [] else LevelsMatch(pattern, levels)
    decreases |pattern|, 1
  {
    if pattern != [] {
      var f := Join(pattern, '/');
      assert Tail(pattern)[1..] == f;
      if levels == [] {
        assert LevelOk(pattern[0], 0 == |pattern| - 1);
        if |pattern| > 1 {
          assert f == pattern[0] + "/" + Join(pattern[1..], '/');
          assert f != "#" by { assert f[|pattern[0]|] == '/'; }
        } else {
          assert f == pattern[0];
        }
      } else {
        assert Tail(levels)[1..] == Join(levels, '/');
        LevelwiseMatches(pattern, levels);
      }
    }
  }

  lemma {:induction false} LevelwiseMatches(pattern: seq<string>, levels: seq<string>)
    requires Slashless(pattern) && Slashless(levels) && LevelsOk(pattern) && pattern != [] && levels != []
    ensures Matches(Join(pattern, '/'), Join(levels, '/')) <==> LevelsMatch(pattern, levels)
    decreases |pattern|, 0
  {
    var p, l := pattern[1..], levels[1..];
    JoinTail(pattern);
    JoinTail(levels);
    if pattern[0] == "#" {
      assert LevelOk(pattern[0], 0 == |pattern| - 1);
    } else {
      assert LevelOk(pattern[0], 0 == |pattern| - 1);
      LevelConsumed(pattern[0], Tail(p), levels[0], Tail(l));
      forall i | 0 <= i < |p| ensures LevelOk(p[i], i == |p| - 1) {
        assert LevelOk(pattern[i + 1], i + 1 == |pattern| - 1);
      }
      TailsMatch(p, l);
      if p != [] {
        LevelsMatchStep(pattern, levels);
      }
    }
  }

  /** The matcher's rule for whole levels is the standard's rule for characters. */
  lemma LevelsMatchIsMatches(f: string, t: string)
    requires WellPlaced(f)
    ensures Matches(f, t) <==> LevelsMatch(Split(f, '/'), Split(t, '/'))
  {
    FilterLevels(f);
    JoinSplit(f, '/');
    JoinSplit(t, '/');
    LevelwiseMatches(Split(f, '/'), Split(t, '/'));
  }

  lemma {:induction false} FillCaptures(pattern: seq<string>, levels: seq<string>)
    requires |pattern| <= |levels|
    requires forall i :: 0 <= i < |pattern| ==> LevelMatches(pattern[i], levels[i])
    ensures |Captures(pattern, levels)| == CountPlus(pattern)
    ensures Fill(pattern, Captures(pattern, levels)) == levels[..|pattern|]
    decreases |pattern|
  {
    if pattern != [] {
      var n := |pattern| - 1;
      FillCaptures(pattern[..n], levels);
      var before := Captures(pattern[..n], levels);
      assert levels[..n + 1] == levels[..n] + [levels[n]];
      if pattern[n] == "+" {
        assert (before + [levels[n]])[..|before|] == before;
      } else {
        assert before + [] == before;
      }
    }
  }

  lemma FillCapturesBeforeHash(pattern: seq<string>, levels: seq<string>)
    requires pattern != [] && pattern[|pattern| - 1] == "#" && |pattern| - 1 <= |levels|
    requires forall i :: 0 <= i < |pattern| - 1 ==> LevelMatches(pattern[i], levels[i])
    ensures var n := |pattern| - 1;
            var captures := Captures(pattern[..n], levels);
            |captures| == CountPlus(pattern) && Fill(pattern, captures) == levels[..n] + ["#"]
  {
    FillCaptures(pattern[..|pattern| - 1], levels);
  }

  lemma CapturesNext(pattern: seq<string>, levels: seq<string>, i: nat)
    requires i < |pattern| && i < |levels|
    ensures Captures(pattern[..i + 1], levels) == Captures(pattern[..i], levels) + if pattern[i] == "+" then [levels[i]] else []
  {
    assert pattern[..i + 1][..i] == pattern[..i];
  }

  predicate MatchedSoFar(pattern: seq<string>, levels: seq<string>, i: nat)
    requires i <= |pattern| && i <= |levels|
  {
    forall j :: 0 <= j < i ==> pattern[j] != "#" && LevelMatches(pattern[j], levels[j])
  }

  lemma MatchedNext(pattern: seq<string>, levels: seq<string>, i: nat)
    requires i < |pattern| && i < |levels| && MatchedSoFar(pattern, levels, i) && pattern[i] != "#"
    ensures MatchedSoFar(pattern, levels, i + 1) <==> pattern[i] == "+" || pattern[i] == levels[i]
  {}

  lemma NoMatchAt(pattern: seq<string>, levels: seq<string>, i: nat)
    requires LevelsOk(pattern) && i < |pattern| && i <= |levels| && pattern[i] != "#"
    requires i < |levels| ==> pattern[i] != "+" && pattern[i] != levels[i]
    ensures !LevelsMatch(pattern, levels)
  {
    assert i < |levels| ==> !LevelMatches(pattern[i], levels[i]);
  }

  lemma HashReached(pattern: seq<string>, levels: seq<string>, i: nat)
    requires LevelsOk(pattern) && i < |pattern| && i <= |levels| && pattern[i] == "#" && MatchedSoFar(pattern, levels, i)
    ensures i == |pattern| - 1 && LevelsMatch(pattern, levels)
    ensures var captures := Captures(pattern[..i], levels);
            |captures| == CountPlus(pattern) && Fill(pattern, captures) == levels[..i] + ["#"]
  {
    assert LevelOk(pattern[i], i == |pattern| - 1);
    FillCapturesBeforeHash(pattern, levels);
  }

  lemma AllMatched(pattern: seq<string>, levels: seq<string>)
    requires pattern != [] && |pattern| <= |levels| && MatchedSoFar(pattern, levels, |pattern|)
    ensures LevelsMatch(pattern, levels) <==> |levels| == |pattern|
    ensures var captures := Captures(pattern[..|pattern|], levels);
            |captures| == CountPlus(pattern) && (|levels| == |pattern| ==> Fill(pattern, captures) == levels)
    ensures pattern[|pattern| - 1] != "#"
  {
    assert pattern[..|pattern|] == pattern;
    FillCaptures(pattern, levels);
  }

  // ----- the matcher

  datatype WildcardMatcher = WildcardMatcher(pattern: seq<string>) {

    /**
     Decides as the standard does; on success there is one capture per +, and putting the
     captures back gives the levels of the topic the pattern accounts for.
     */
    method Match(topic: string) returns (r: Option<seq<string>>)
      requires pattern != [] && LevelsOk(pattern)
      ensures r.Some? <==> LevelsMatch(pattern, Split(topic, '/'))
      ensures r.Some? ==> |r.value| == CountPlus(pattern)
      ensures r.Some? ==> var levels := Split(topic, '/');
                          if pattern[|pattern| - 1] == "#" then
                            Fill(pattern, r.value) == levels[..|pattern| - 1] + ["#"]
                          else
                            Fill(pattern, r.value) == levels
    {
      assert Captures([], Split(topic, '/')) == [];
      hide Split, Fill, Captures, CountPlus, LevelMatches, LevelsMatch, LevelsOk;
      var parts := Split(topic, '/');
      var captures: seq<string> := [];
      assert pattern[..0] == [];
      for i := 0 to |pattern|
        invariant i <= |parts|
        invariant MatchedSoFar(pattern, parts, i)
        invariant captures == Captures(pattern[..i], parts)
      {
        var part := pattern[i];
        if part == "#" {
          HashReached(pattern, parts, i);
          return Some(captures);
        }
        if i >= |parts| {
          NoMatchAt(pattern, parts, i);
          return None;
        }
        CapturesNext(pattern, parts, i);
        MatchedNext(pattern, parts, i);
        if part == "+" {
          captures := captures + [parts[i]];
          continue;
        }
        if part != parts[i] {
          NoMatchAt(pattern, parts, i);
          return None;
        }
      }
      AllMatched(pattern, parts);
      if |parts| != |pattern| {
        return None;
      }
      return Some(captures);
    }
  }

  /** Accepts exactly the filters the standard calls well formed. */
  method NewWildcardMatcher(topic: string) returns (r: Option<WildcardMatcher>)
    ensures r.Some? <==> WellPlaced(topic)
    ensures r.Some? ==> r.value.pattern == Split(topic, '/') && LevelsOk(r.value.pattern)
  {
    FilterLevels(topic);
    var parts := Split(topic, '/');
    for i := 0 to |parts|
      invariant forall j :: 0 <= j < i ==> LevelOk(parts[j], j == |parts| - 1)
    {
      var part := parts[i];
      if part == "#" {
        if i != |parts| - 1 {
          assert !LevelOk(part, false);
          return None;
        }
      } else if '#' in part {
        assert !LevelOk(part, i == |parts| - 1);
        return None;
      } else if '+' in part && part != "+" {
        assert !LevelOk(part, i == |parts| - 1);
        return None;
      }
    }
    return Some(WildcardMatcher(parts));
  }

  /** Matching a filter end to end: refused, or decided by the rules of the standard. */
  method MatchTopic(filter: string, topic: string) returns (valid: bool, matched: bool)
    ensures valid <==> WellPlaced(filter)
    ensures matched <==> valid && Matches(filter, topic)
  {
    var m := NewWildcardMatcher(filter);
    if m.None? {
      return false, false;
    }
    LevelsMatchIsMatches(filter, topic);
    var r := m.value.Match(topic);
    return true, r.Some?;
  }
}
