/**
 The meaning of SQL LIKE patterns, and the greedy wildcard matcher that policy
 validation uses in its place.
 */
module LikePatterns {
  import opened Text

  // ----- SQL LIKE: % is any sequence, _ any character, \ takes the next character literally

  /** s is consumed by p; escaped says that the character before p was an active backslash. */
  predicate Consumes(s: string, p: string, escaped: bool)
    decreases |p|
  {
    if p == [] then s == []
    else if escaped then s != [] && s[0] == p[0] && Consumes(s[1..], p[1..], false)
    else if p[0] == '\\' then Consumes(s, p[1..], true)
    else if p[0] == '%' then exists k :: 0 <= k <= |s| && Consumes(s[k..], p[1..], false)
    else s != [] && (p[0] == '_' || s[0] == p[0]) && Consumes(s[1..], p[1..], false)
  }

  /** Whether the last character of p is an active backslash. */
  function EscapedAfter(p: string, escaped: bool): bool
    decreases |p|
  {
    if p == [] then escaped else EscapedAfter(p[1..], !escaped && p[0] == '\\')
  }

  /** A pattern that ends in an active backslash is an error to the database, and matches nothing here. */
  predicate Like(s: string, p: string) {
    Consumes(s, p, false) && !EscapedAfter(p, false)
  }

  lemma {:induction false} EscapedAfterAppend(p: string, q: string, escaped: bool)
    ensures EscapedAfter(p + q, escaped) == EscapedAfter(q, EscapedAfter(p, escaped))
    decreases |p|
  {
    if p == [] {
      assert p + q == q;
    } else {
      assert (p + q)[1..] == p[1..] + q;
      EscapedAfterAppend(p[1..], q, !escaped && p[0] == '\\');
    }
  }

  /** p + q consumes a string cut in two if p consumes the first half and q the second. */
  lemma {:induction false} ConsumesBoth(s: string, t: string, p: string, q: string, escaped: bool)
    requires Consumes(s, p, escaped) && Consumes(t, q, EscapedAfter(p, escaped))
    ensures Consumes(s + t, p + q, escaped)
    decreases |p|
  {
    if p == [] {
      assert s + t == t && p + q == q;
    } else {
      assert (p + q)[1..] == p[1..] + q;
      if !escaped && p[0] == '\\' {
        ConsumesBoth(s, t, p[1..], q, true);
      } else if !escaped && p[0] == '%' {
        var k :| 0 <= k <= |s| && Consumes(s[k..], p[1..], false);
        ConsumesBoth(s[k..], t, p[1..], q, false);
        assert (s + t)[k..] == s[k..] + t;
      } else {
        ConsumesBoth(s[1..], t, p[1..], q, false);
        assert (s + t)[1..] == s[1..] + t;
      }
    }
  }

  /** Every way in which p + q consumes a string cuts it in two. */
  lemma {:induction false} ConsumesCut(s: string, p: string, q: string, escaped: bool) returns (k: nat)
    requires Consumes(s, p + q, escaped)
    ensures k <= |s| && Consumes(s[..k], p, escaped) && Consumes(s[k..], q, EscapedAfter(p, escaped))
    decreases |p|
  {
    if p == [] {
      assert p + q == q;
      k := 0;
      assert s[k..] == s;
    } else {
      assert (p + q)[1..] == p[1..] + q;
      if !escaped && p[0] == '\\' {
        k := ConsumesCut(s, p[1..], q, true);
      } else if !escaped && p[0] == '%' {
        var j :| 0 <= j <= |s| && Consumes(s[j..], p[1..] + q, false);
        var i := ConsumesCut(s[j..], p[1..], q, false);
        k := j + i;
        assert s[..k][j..] == s[j..][..i];
        assert s[j..][i..] == s[k..];
      } else {
        var i := ConsumesCut(s[1..], p[1..], q, false);
        k := i + 1;
        assert s[..k][1..] == s[1..][..i];
        assert s[1..][i..] == s[k..];
      }
    }
  }

  lemma PercentConsumes(s: string, t: string, q: string)
    requires Consumes(t, q, false)
    ensures Consumes(s + t, "%" + q, false)
    ensures EscapedAfter("%" + q, false) == EscapedAfter(q, false)
  {
    assert (s + t)[|s|..] == t;
    assert ("%" + q)[1..] == q;
  }

  /** A part, a wildcard and the rest of a pattern consume what they consume one after the other. */
  lemma Reassemble(x: string, y: string, z: string, head: string, rest: string)
    requires Consumes(x, head, false) && !EscapedAfter(head, false) && Like(z, rest)
    ensures Like(x + (y + z), head + ("%" + rest))
  {
    hide Consumes, EscapedAfter;
    PercentConsumes(y, z, rest);
    ConsumesBoth(x, y + z, head, "%" + rest, false);
    EscapedAfterAppend(head, "%" + rest, false);
  }

  /** Without % and \ a pattern is compared character by character, where _ stands for any. */
  lemma {:induction false} LikeByCharacters(s: string, p: string)
    requires '%' !in p && '\\' !in p
    ensures Like(s, p) <==> |s| == |p| && forall i :: 0 <= i < |p| ==> p[i] == '_' || s[i] == p[i]
    decreases |p|
  {
    if p != "" {
      assert p[0] in p && forall c :: c in p[1..] ==> c in p;
      if s != "" {
        LikeByCharacters(s[1..], p[1..]);
        assert |s| == |p| ==> forall i :: 1 <= i < |p| ==> p[i] == p[1..][i - 1] && s[i] == s[1..][i - 1];
      }
    }
  }

  /** A wildcard cuts: what stands before it is matched by a beginning, what follows it by an end, and the rest is free. */
  lemma LikeOfPercent(s: string, p: string, q: string)
    requires !EscapedAfter(p, false)
    ensures Like(s, p + ("%" + q)) <==> exists i, j :: 0 <= i <= j <= |s| && Like(s[..i], p) && Like(s[j..], q)
  {
    EscapedAfterAppend(p, "%" + q, false);
    hide Consumes, EscapedAfter;
    if i, j :| 0 <= i <= j <= |s| && Like(s[..i], p) && Like(s[j..], q) {
      Reassemble(s[..i], s[i..j], s[j..], p, q);
      assert s == s[..i] + (s[i..j] + s[j..]);
    }
    if Like(s, p + ("%" + q)) {
      var i := ConsumesCut(s, p, "%" + q, false);
      PercentCut(s[i..], q);
      var k :| 0 <= k <= |s[i..]| && Consumes(s[i..][k..], q, false);
      assert s[i..][k..] == s[i + k..];
      assert Like(s[..i], p) && Like(s[i + k..], q);
    }
  }

  lemma PercentCut(s: string, q: string)
    ensures Consumes(s, "%" + q, false) <==> exists k :: 0 <= k <= |s| && Consumes(s[k..], q, false)
    ensures EscapedAfter("%" + q, false) == EscapedAfter(q, false)
  {
    assert ("%" + q)[1..] == q;
  }

  /** Every character escaped. */
  function Escaped(s: string): string {
    if s == "" then "" else ['\\', s[0]] + Escaped(s[1..])
  }

  /** An escaped text matches itself and nothing else, whatever characters it consists of. */
  lemma {:induction false} EscapedIsLiteral(s: string, text: string)
    ensures Like(s, Escaped(text)) <==> s == text
    decreases |text|
  {
    if text != "" {
      EscapedOne(s, text[0], Escaped(text[1..]));
      if s != "" {
        EscapedIsLiteral(s[1..], text[1..]);
        assert s == [s[0]] + s[1..] && text == [text[0]] + text[1..];
      }
    }
  }

  lemma EscapedOne(s: string, x: char, rest: string)
    ensures Like(s, ['\\', x] + rest) <==> s != "" && s[0] == x && Like(s[1..], rest)
  {
    var p := ['\\', x] + rest;
    var tail := [x] + rest;
    assert p[1..] == tail && tail[1..] == rest;
    assert Consumes(s, p, false) == Consumes(s, tail, true);
    assert EscapedAfter(p, false) == EscapedAfter(tail, true) == EscapedAfter(rest, false);
  }

  // ----- the greedy matcher

  /**
   How far the parts reach when each is looked for from where the one before it ended,
   or -1 when one is not found.
   */
  function ScanParts(parts: seq<string>, s: string): int
    decreases |parts|
  {
    if parts == [] then 0
    else
      IndexFits(s, parts[0]);
      var pos := Index(s, parts[0]);
      if pos < 0 then -1
      else
        var end := pos + |parts[0]|;
        var r := ScanParts(parts[1..], s[end..]);
        if r < 0 then -1 else end + r
  }

  /** One part of a scan. */
  lemma ScanOnce(parts: seq<string>, s: string)
    requires parts != []
    ensures Index(s, parts[0]) < 0 ==> ScanParts(parts, s) == -1
    ensures Index(s, parts[0]) >= 0 ==>
              var end := Index(s, parts[0]) + |parts[0]|;
              end <= |s| && ScanParts(parts, s) == if ScanParts(parts[1..], s[end..]) < 0 then -1 else end + ScanParts(parts[1..], s[end..])
  {
    hide Index;
    IndexFits(s, parts[0]);
  }

  predicate SqlLikeMatch(pattern: string, resource: string) {
    var parts := Split(pattern, '%');
    if |parts| == 1 then pattern == resource
    else
      parts[0] <= resource
      && var r := ScanParts(parts[1..], resource[|parts[0]|..]);
         r >= 0 && (parts[|parts| - 1] == "" || |parts[0]| + r == |resource|)
  }

  /** resource is the parts in order, with anything in between. */
  ghost predicate Interleaves(s: string, parts: seq<string>)
    requires parts != []
    decreases |parts|, 0
  {
    if |parts| == 1 then s == parts[0]
    else parts[0] <= s && Floats(s[|parts[0]|..], parts[1..])
  }

  ghost predicate Floats(s: string, parts: seq<string>)
    requires parts != []
    decreases |parts|, 1
  {
    exists k :: 0 <= k <= |s| && Interleaves(s[k..], parts)
  }

  /** The first part, a gap, and what interleaves the other parts. */
  lemma InterleavesCut(s: string, parts: seq<string>) returns (gap: string, tail: string)
    requires |parts| > 1 && Interleaves(s, parts)
    ensures s == parts[0] + (gap + tail) && Interleaves(tail, parts[1..])
  {
    var after := s[|parts[0]|..];
    var k :| 0 <= k <= |after| && Interleaves(after[k..], parts[1..]);
    gap, tail := after[..k], after[k..];
    assert after == gap + tail && s == s[..|parts[0]|] + after;
  }

  lemma JoinMore(parts: seq<string>)
    requires |parts| > 1
    ensures Join(parts, '%') == parts[0] + ("%" + Join(parts[1..], '%'))
  {}

  lemma FloatsEarlier(s: string, t: string, parts: seq<string>)
    requires parts != [] && Floats(t, parts)
    ensures Floats(s + t, parts)
  {
    var k :| 0 <= k <= |t| && Interleaves(t[k..], parts);
    assert (s + t)[|s| + k..] == t[k..];
  }

  /** A successful scan that ends where it must is a way to place the parts. */
  lemma {:induction false} ScanSound(parts: seq<string>, s: string)
    requires parts != [] && ScanParts(parts, s) >= 0
    requires parts[|parts| - 1] == "" || ScanParts(parts, s) == |s|
    ensures Floats(s, parts)
    decreases |parts|
  {
    IndexFits(s, parts[0]);
    var pos := Index(s, parts[0]);
    var end := pos + |parts[0]|;
    if |parts| == 1 {
      assert ScanParts(parts[1..], s[end..]) == 0;
      if parts[0] == "" {
        assert s[|s|..] == "";
        assert Interleaves(s[|s|..], parts);
      } else {
        assert s[pos..] == parts[0];
        assert Interleaves(s[pos..], parts);
      }
    } else {
      ScanSound(parts[1..], s[end..]);
      assert s[pos..][|parts[0]|..] == s[end..];
      assert Interleaves(s[pos..], parts);
    }
  }

  /** Taking the first occurrence of each part loses nothing when the last part may stop anywhere. */
  lemma {:induction false} ScanComplete(parts: seq<string>, s: string)
    requires parts != [] && parts[|parts| - 1] == "" && Floats(s, parts)
    ensures ScanParts(parts, s) >= 0
    decreases |parts|
  {
    hide Floats, Interleaves, Index;
    var k := FirstPlace(s, parts);
    IndexFits(s, parts[0]);
    IndexNotPast(s, parts[0], k);
    ScanOnce(parts, s);
    if |parts| > 1 {
      var end := Index(s, parts[0]) + |parts[0]|;
      FloatsFromEarlier(s, end, k + |parts[0]|, parts[1..]);
      ScanComplete(parts[1..], s[end..]);
    }
  }

  lemma FirstPlace(s: string, parts: seq<string>) returns (k: nat)
    requires parts != [] && Floats(s, parts)
    ensures k <= |s| && parts[0] <= s[k..]
    ensures |parts| > 1 ==> Floats(s[k + |parts[0]|..], parts[1..])
  {
    k :| 0 <= k <= |s| && Interleaves(s[k..], parts);
    assert s[k..][|parts[0]|..] == s[k + |parts[0]|..];
  }

  lemma FloatsFromEarlier(s: string, end: nat, later: nat, parts: seq<string>)
    requires end <= later <= |s| && parts != [] && Floats(s[later..], parts)
    ensures Floats(s[end..], parts)
  {
    hide Floats;
    assert s[end..] == s[end..later] + s[later..];
    FloatsEarlier(s[end..later], s[later..], parts);
  }

  /** The matcher only accepts resources that are the pattern's parts in order. */
  lemma MatchInterleaves(pattern: string, resource: string)
    requires SqlLikeMatch(pattern, resource)
    ensures Interleaves(resource, Split(pattern, '%'))
  {
    var parts := Split(pattern, '%');
    if |parts| == 1 {
      JoinSplit(pattern, '%');
    } else {
      ScanSound(parts[1..], resource[|parts[0]|..]);
    }
  }

  predicate EndsInWildcardOrHasNone(pattern: string) {
    '%' !in pattern || HasSuffix(pattern, "%")
  }

  // ----- the parts of a pattern and its meaning

  lemma {:induction false} SplitEnds(pattern: string)
    ensures |Split(pattern, '%')| == 1 <==> '%' !in pattern
    ensures |Split(pattern, '%')| > 1 ==> (Split(pattern, '%')[|Split(pattern, '%')| - 1] == "" <==> HasSuffix(pattern, "%"))
    decreases |pattern|
  {
    if pattern != [] {
      var rest := pattern[1..];
      SplitEnds(rest);
      var parts, tail := Split(pattern, '%'), Split(rest, '%');
      if rest == [] {
        assert tail == [""];
        assert HasSuffix(pattern, "%") <==> pattern[0] == '%';
      } else {
        assert pattern[|pattern| - 1..] == rest[|rest| - 1..];
        if pattern[0] == '%' {
          assert parts == [""] + tail;
          if |tail| == 1 {
            assert tail[0] == rest by { JoinSplit(rest, '%'); }
            assert rest[|rest| - 1] in rest;
          }
        }
      }
    }
  }

  predicate PlainPattern(p: string) {
    '%' !in p && '_' !in p && '\\' !in p
  }

  /** A pattern without special characters consumes itself and nothing else. */
  lemma {:induction false} PlainConsumes(s: string, p: string)
    requires PlainPattern(p)
    ensures Consumes(s, p, false) <==> s == p
    ensures !EscapedAfter(p, false)
    decreases |p|
  {
    if p != [] {
      assert p[0] in p && forall c :: c in p[1..] ==> c in p;
      if s != [] {
        PlainConsumes(s[1..], p[1..]);
        assert s == [s[0]] + s[1..] && p == [p[0]] + p[1..];
      } else {
        PlainConsumes(s, p[1..]);
      }
    }
  }

  /** Without backslashes a pattern matches its own text; _ and % stand for themselves too. */
  lemma {:induction false} MatchesItself(p: string)
    requires '\\' !in p
    ensures Consumes(p, p, false) && !EscapedAfter(p, false)
    decreases |p|
  {
    if p != [] {
      assert p[0] in p && forall c :: c in p[1..] ==> c in p;
      MatchesItself(p[1..]);
    }
  }

  ghost predicate PlainParts(parts: seq<string>) {
    forall i :: 0 <= i < |parts| ==> '%' !in parts[i] && '\\' !in parts[i]
  }

  /** Text that interleaves the parts of a pattern without backslashes is matched by the pattern. */
  lemma {:induction false} InterleavesIsLike(s: string, parts: seq<string>)
    requires parts != [] && PlainParts(parts) && Interleaves(s, parts)
    ensures Like(s, Join(parts, '%'))
    decreases |parts|
  {
    MatchesItself(parts[0]);
    if |parts| > 1 {
      hide Consumes, EscapedAfter, Interleaves, Join, Like;
      var gap, tail := InterleavesCut(s, parts);
      InterleavesIsLike(tail, parts[1..]);
      Reassemble(parts[0], gap, tail, parts[0], Join(parts[1..], '%'));
      JoinMore(parts);
    }
  }

  /** And without _ the converse holds: LIKE is nothing but placing the parts. */
  lemma {:induction false} LikeInterleaves(s: string, parts: seq<string>)
    requires parts != [] && (forall i :: 0 <= i < |parts| ==> PlainPattern(parts[i])) && Consumes(s, Join(parts, '%'), false)
    ensures Interleaves(s, parts)
    decreases |parts|
  {
    var head := parts[0];
    if |parts| == 1 {
      PlainConsumes(s, head);
    } else {
      var rest := Join(parts[1..], '%');
      assert Join(parts, '%') == head + ("%" + rest);
      var k := ConsumesCut(s, head, "%" + rest, false);
      PlainConsumes(s[..k], head);
      var after := s[k..];
      assert ("%" + rest)[1..] == rest;
      var j :| 0 <= j <= |after| && Consumes(after[j..], rest, false);
      LikeInterleaves(after[j..], parts[1..]);
    }
  }

  /** A true answer is always right for patterns without backslashes. */
  lemma MatchImpliesLike(pattern: string, resource: string)
    requires '\\' !in pattern && SqlLikeMatch(pattern, resource)
    ensures Like(resource, pattern)
  {
    MatchInterleaves(pattern, resource);
    JoinSplit(pattern, '%');
    SplitCharacter(pattern, '%', '\\');
    InterleavesIsLike(resource, Split(pattern, '%'));
  }

  lemma LikeImpliesMatch(pattern: string, resource: string)
    requires '_' !in pattern && '\\' !in pattern && EndsInWildcardOrHasNone(pattern) && Like(resource, pattern)
    ensures SqlLikeMatch(pattern, resource)
  {
    var parts := Split(pattern, '%');
    JoinSplit(pattern, '%');
    SplitCharacter(pattern, '%', '_');
    SplitCharacter(pattern, '%', '\\');
    LikeInterleaves(resource, parts);
    SplitEnds(pattern);
    if |parts| > 1 {
      ScanComplete(parts[1..], resource[|parts[0]|..]);
    }
  }

  // ----- when the matcher is exact

  /** Where the parts interleave a text, the scan ends no later than the text, whatever follows it. */
  lemma {:induction false} ScanNotPast(parts: seq<string>, text: string, more: string)
    requires parts != [] && Floats(text, parts)
    ensures 0 <= ScanParts(parts, text + more) <= |text|
    decreases |parts|
  {
    var s := text + more;
    var end := FirstEnd(parts, text, more);
    hide Floats, Index, ScanParts;
    ScanOnce(parts, s);
    if |parts| > 1 {
      assert s[end..] == text[end..] + more;
      ScanNotPast(parts[1..], text[end..], more);
    } else {
      NothingToScan(parts, s[end..]);
    }
  }

  lemma NothingToScan(parts: seq<string>, s: string)
    requires |parts| == 1
    ensures ScanParts(parts[1..], s) == 0
  {}

  /** The first part ends within the text. */
  lemma FirstEnd(parts: seq<string>, text: string, more: string) returns (end: nat)
    requires parts != [] && Floats(text, parts)
    ensures end <= |text| && Index(text + more, parts[0]) >= 0 && end == Index(text + more, parts[0]) + |parts[0]|
    ensures |parts| > 1 ==> Floats(text[end..], parts[1..])
  {
    hide Floats, Index;
    var s := text + more;
    var k := FirstPlace(text, parts);
    assert s[k..] == text[k..] + more;
    IndexFits(s, parts[0]);
    IndexNotPast(s, parts[0], k);
    end := Index(s, parts[0]) + |parts[0]|;
    if |parts| > 1 {
      FloatsFromEarlier(text, end, k + |parts[0]|, parts[1..]);
    }
  }

  /** The parts of a pattern with a character for each wildcard, and the last part once more. */
  function LastRepeated(parts: seq<string>, x: char): string
    requires parts != []
  {
    Join(parts, x) + parts[|parts| - 1]
  }

  lemma {:induction false} FilledInterleaves(parts: seq<string>, x: char)
    requires parts != []
    ensures Interleaves(Join(parts, x), parts)
    decreases |parts|
  {
    if |parts| > 1 {
      JoinAt(parts, x);
      hide Interleaves, Join;
      FilledInterleaves(parts[1..], x);
      OneMoreGap(parts, [x], Join(parts[1..], x));
    }
  }

  lemma {:induction false} RepeatedInterleaves(parts: seq<string>, x: char)
    requires |parts| > 1
    ensures Interleaves(LastRepeated(parts, x), parts)
    decreases |parts|
  {
    var last, rest := parts[|parts| - 1], Join(parts[1..], x);
    JoinAt(parts, x);
    RepeatedIs(parts, x);
    FilledInterleaves(parts[1..], x);
    hide Interleaves, Join, LastRepeated;
    Associative([x], rest, last);
    if |parts| == 2 {
      assert parts[1..] == [last];
      JoinOne(parts[1..], x);
      OneMoreGap(parts, [x] + rest, last);
    } else {
      RepeatedInterleaves(parts[1..], x);
      RepeatedIs(parts[1..], x);
      OneMoreGap(parts, [x], rest + last);
    }
    assert parts[0] + ([x] + rest) + last == parts[0] + ([x] + rest + last);
  }

  lemma JoinAt(parts: seq<string>, x: char)
    requires |parts| > 1
    ensures Join(parts, x) == parts[0] + ([x] + Join(parts[1..], x))
  {}

  lemma JoinOne(parts: seq<string>, x: char)
    requires |parts| == 1
    ensures Join(parts, x) == parts[0]
  {}

  lemma RepeatedIs(parts: seq<string>, x: char)
    requires parts != []
    ensures LastRepeated(parts, x) == Join(parts, x) + parts[|parts| - 1]
  {}

  lemma OneMoreGap(parts: seq<string>, gap: string, rest: string)
    requires |parts| > 1 && Interleaves(rest, parts[1..])
    ensures Interleaves(parts[0] + (gap + rest), parts)
  {
    var s := parts[0] + (gap + rest);
    assert s[|parts[0]|..] == gap + rest;
    assert (gap + rest)[|gap|..] == rest;
    assert Floats(gap + rest, parts[1..]);
  }

  /** Without _ and \ the matcher decides LIKE for every resource exactly when the pattern ends in a wildcard or has none. */
  lemma MatcherExactIff(pattern: string)
    requires '_' !in pattern && '\\' !in pattern
    ensures (forall s :: SqlLikeMatch(pattern, s) <==> Like(s, pattern)) <==> EndsInWildcardOrHasNone(pattern)
  {
    if EndsInWildcardOrHasNone(pattern) {
      forall s ensures SqlLikeMatch(pattern, s) <==> Like(s, pattern) {
        if SqlLikeMatch(pattern, s) { MatchImpliesLike(pattern, s); }
        if Like(s, pattern) { LikeImpliesMatch(pattern, s); }
      }
    } else {
      Missed(pattern, '%');
    }
  }

  /** Resources that repeat the pattern's last part: matched by LIKE, missed by taking first occurrences. */
  lemma Missed(pattern: string, x: char)
    requires '\\' !in pattern && !EndsInWildcardOrHasNone(pattern)
    ensures var s := LastRepeated(Split(pattern, '%'), x); Like(s, pattern) && !SqlLikeMatch(pattern, s)
  {
    var parts := Split(pattern, '%');
    JoinSplit(pattern, '%');
    SplitCharacter(pattern, '%', '\\');
    SplitEnds(pattern);
    hide *;
    FilledInterleaves(parts, x);
    RepeatedInterleaves(parts, x);
    InterleavesIsLike(LastRepeated(parts, x), parts);
    MissesRepeated(pattern, parts, x);
  }

  lemma MissesRepeated(pattern: string, parts: seq<string>, x: char)
    requires parts == Split(pattern, '%') && |parts| > 1 && parts[|parts| - 1] != "" && Interleaves(Join(parts, x), parts)
    ensures !SqlLikeMatch(pattern, LastRepeated(parts, x))
  {
    hide Split, Join, ScanParts;
    var text, last := Join(parts, x), parts[|parts| - 1];
    var after := text[|parts[0]|..];
    assert Floats(after, parts[1..]);
    ScanNotPast(parts[1..], after, last);
    assert (text + last)[|parts[0]|..] == after + last;
  }

  /** For example %a misses "aa". */
  lemma MatcherMisses()
    ensures !SqlLikeMatch("%a", "aa") && Like("aa", "%a")
  {
    assert "aa"[1..] == "a";
    assert Consumes("aa"[1..], "a", false);
  }

  // ----- the matcher's loop

  lemma SplitStart(pattern: string)
    requires |Split(pattern, '%')| > 1
    ensures Split(pattern, '%')[0] == "" <==> HasPrefix(pattern, "%")
  {
    if pattern[0] == '%' {
      assert pattern[..1] == "%";
    }
  }

  /** How things stand before part i is looked for at idx: the rest of the scan decides. */
  ghost predicate Standing(parts: seq<string>, s: string, i: nat, idx: nat)
    requires |parts| > 1 && i <= |parts|
  {
    idx <= |s|
    && if i == 0 then idx == 0
       else
         parts[0] <= s
         && var whole, left := ScanParts(parts[1..], s[|parts[0]|..]), ScanParts(parts[i..], s[idx..]);
            (whole < 0 <==> left < 0) && (left >= 0 ==> |parts[0]| + whole == idx + left)
  }

  ghost predicate Accepts(parts: seq<string>, s: string)
    requires |parts| > 1
  {
    parts[0] <= s
    && var r := ScanParts(parts[1..], s[|parts[0]|..]);
       r >= 0 && (parts[|parts| - 1] == "" || |parts[0]| + r == |s|)
  }

  lemma ScanStep(parts: seq<string>, i: nat, s: string)
    requires i < |parts|
    ensures Index(s, parts[i]) < 0 ==> ScanParts(parts[i..], s) == -1
    ensures Index(s, parts[i]) >= 0 ==>
              var end := Index(s, parts[i]) + |parts[i]|;
              end <= |s| && ScanParts(parts[i..], s) == if ScanParts(parts[i + 1..], s[end..]) < 0 then -1 else end + ScanParts(parts[i + 1..], s[end..])
  {
    hide Index, ScanParts;
    assert parts[i..][1..] == parts[i + 1..] && parts[i..][0] == parts[i];
    ScanOnce(parts[i..], s);
  }

  lemma StandingFirst(parts: seq<string>, s: string)
    requires |parts| > 1
    ensures -1 <= Index(s, parts[0])
    ensures Index(s, parts[0]) == 0 <==> parts[0] <= s
    ensures Index(s, parts[0]) == 0 ==> Standing(parts, s, 1, |parts[0]|)
    ensures Index(s, parts[0]) != 0 ==> !Accepts(parts, s)
  {
    hide ScanParts, Index;
    IndexFits(s, parts[0]);
    assert s[0..] == s;
    if parts[0] <= s { IndexNotPast(s, parts[0], 0); }
  }

  lemma StandingLater(parts: seq<string>, s: string, i: nat, idx: nat)
    requires |parts| > 1 && 0 < i < |parts| && Standing(parts, s, i, idx)
    ensures var pos := Index(s[idx..], parts[i]);
            && -1 <= pos
            && (pos < 0 ==> !Accepts(parts, s))
            && (pos >= 0 ==> idx + pos + |parts[i]| <= |s| && Standing(parts, s, i + 1, idx + pos + |parts[i]|))
  {
    hide ScanParts, Index;
    var at := s[idx..];
    var pos := Index(at, parts[i]);
    IndexFits(at, parts[i]);
    ScanStep(parts, i, at);
    if pos >= 0 {
      assert at[pos + |parts[i]|..] == s[idx + pos + |parts[i]|..];
    }
  }

  lemma StandingNext(parts: seq<string>, s: string, i: nat, idx: nat)
    requires |parts| > 1 && i < |parts| && Standing(parts, s, i, idx)
    ensures var pos := Index(s[idx..], parts[i]);
            && -1 <= pos
            && (pos < 0 ==> !Accepts(parts, s))
            && (i == 0 && pos != 0 ==> !Accepts(parts, s))
            && (pos >= 0 && (i == 0 ==> pos == 0) ==>
                  idx + pos + |parts[i]| <= |s| && Standing(parts, s, i + 1, idx + pos + |parts[i]|))
  {
    if i == 0 {
      StandingAtStart(parts, s, idx);
      hide Standing, Accepts, Index;
      StandingFirst(parts, s);
    } else {
      hide Standing, Accepts, Index;
      StandingLater(parts, s, i, idx);
    }
  }

  lemma StandingAtStart(parts: seq<string>, s: string, idx: nat)
    requires |parts| > 1 && Standing(parts, s, 0, idx)
    ensures idx == 0 && s[idx..] == s && (Index(s, parts[0]) == 0 ==> |parts[0]| <= |s|)
  {
    hide Index;
    IndexFits(s, parts[0]);
  }

  lemma StandingEnd(parts: seq<string>, s: string, idx: nat)
    requires |parts| > 1 && Standing(parts, s, |parts|, idx)
    ensures Accepts(parts, s) <==> parts[|parts| - 1] == "" || idx == |s|
  {
    assert parts[|parts|..] == [];
  }

  lemma EmptyPartIsHere(s: string)
    ensures Index(s, "") == 0
  {
    assert "" <= s;
  }

  lemma PartsOfPattern(pattern: string, resource: string)
    ensures var parts := Split(pattern, '%');
            if |parts| == 1 then SqlLikeMatch(pattern, resource) <==> pattern == resource
            else
              && (SqlLikeMatch(pattern, resource) <==> Accepts(parts, resource))
              && Standing(parts, resource, 0, 0)
              && (parts[0] == "" <==> HasPrefix(pattern, "%")) && (parts[|parts| - 1] == "" <==> HasSuffix(pattern, "%"))
  {
    hide Split, HasPrefix, HasSuffix, ScanParts;
    if |Split(pattern, '%')| > 1 {
      SplitStart(pattern);
      SplitEnds(pattern);
    }
  }

  method MatchByScanning(pattern: string, resource: string) returns (r: bool)
    ensures r == SqlLikeMatch(pattern, resource)
  {
    hide *;
    PartsOfPattern(pattern, resource);
    var parts := Split(pattern, '%');
    if |parts| == 1 {
      return pattern == resource;
    }
    var idx: nat := 0;
    for i := 0 to |parts|
      invariant Standing(parts, resource, i, idx)
      invariant idx <= |resource|
    {
      var part := parts[i];
      StandingNext(parts, resource, i, idx);
      EmptyPartIsHere(resource[idx..]);
      if part == "" {
        continue;
      }
      var pos := Index(resource[idx..], part);
      if pos < 0 {
        return false;
      }
      if i == 0 && !HasPrefix(pattern, "%") && pos != 0 {
        return false;
      }
      idx := idx + pos + |part|;
    }
    StandingEnd(parts, resource, idx);
    if !HasSuffix(pattern, "%") && idx != |resource| {
      return false;
    }
    return true;
  }
}
