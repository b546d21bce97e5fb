/**
 Policy rules: the shape of a resource, when one resource covers another, when a
 rule is shadowed, and the decision a set of rules makes.
 */
module Policies {
  import opened Text
  import opened LikePatterns

  type Uuid = int

  datatype Effect = Allow | Deny

  datatype Action = Create | Read | Update | Delete

  datatype Policy = Policy(id: Uuid, group: Uuid, priority: int, effect: Effect, action: Action, resource: string)

  // ----- the shape of a resource

  /** Non-empty path segments without white space, in which a wildcard is a segment of its own. */
  predicate WellShaped(resource: string) {
    var segments := Split(resource, '/');
    (forall i :: 0 <= i < |resource| ==> !IsSpace(resource[i]))
    && forall i :: 0 <= i < |segments| ==> segments[i] != "" && ('%' in segments[i] ==> segments[i] == "%")
  }

  function Contains(s: string, part: string): bool { Index(s, part) >= 0 }

  predicate NoneEmpty(parts: seq<string>, from: nat) {
    forall i :: from <= i < |parts| ==> parts[i] != ""
  }

  lemma NoEmptySegment(s: string)
    ensures NoneEmpty(Split(s, '/'), 0) <==> s != "" && !HasPrefix(s, "/") && !HasSuffix(s, "/") && !Contains(s, "//")
  {
    if s == "" {
      assert Split(s, '/')[0] == "";
    } else {
      SegmentsOf(s);
      hide Split;
      assert NoneEmpty(Split(s, '/'), 0) <==> Split(s, '/')[0] != "" && NoneEmpty(Split(s, '/'), 1);
    }
  }

  lemma PartsOfMore(tail: seq<string>, c: string)
    requires tail != []
    ensures NoneEmpty([""] + tail, 1) <==> tail[0] != "" && NoneEmpty(tail, 1)
    ensures NoneEmpty([c] + tail[1..], 1) <==> NoneEmpty(tail, 1)
  {
    assert forall i :: 0 <= i < |tail| ==> ([""] + tail)[i + 1] == tail[i];
    assert forall i :: 1 <= i < |tail| ==> ([c] + tail[1..])[i] == tail[i];
  }

  lemma ContainsSlashes(s: string)
    requires |s| > 1
    ensures Contains(s, "//") <==> (s[0] == '/' && s[1] == '/') || Contains(s[1..], "//")
    ensures HasSuffix(s, "/") <==> HasSuffix(s[1..], "/")
  {
    assert "//" <= s <==> s[0] == '/' && s[1] == '/';
    IndexFits(s[1..], "//");
    assert s[|s| - 1..] == s[1..][|s| - 2..];
  }

  lemma {:induction false} SegmentsOf(s: string)
    requires s != ""
    ensures NoneEmpty(Split(s, '/'), 1) <==> !HasSuffix(s, "/") && !Contains(s, "//")
    ensures Split(s, '/')[0] != "" <==> !HasPrefix(s, "/")
    decreases |s|
  {
    var rest := s[1..];
    assert HasPrefix(s, "/") <==> s[0] == '/';
    if rest == "" {
      var tail := Split(rest, '/');
      assert tail == [""] && s == [s[0]] && [s[0]] + tail[0] == s;
      assert Split(s, '/') == if s[0] == '/' then [""] + tail else [s] + tail[1..];
      assert Split(s, '/')[|Split(s, '/')| - 1] == if s[0] == '/' then "" else s;
      assert HasSuffix(s, "/") <==> s[0] == '/';
      assert !Contains(s, "//") by { IndexFits(s, "//"); }
    } else {
      SegmentsOf(rest);
      ContainsSlashes(s);
      var tail := Split(rest, '/');
      PartsOfMore(tail, [s[0]] + tail[0]);
      assert HasPrefix(rest, "/") <==> rest[0] == '/';
      hide Contains, HasSuffix, NoneEmpty;
    }
  }

  method ValidatePolicyResource(resource: string) returns (ok: bool)
    ensures ok <==> WellShaped(resource)
  {
    NoEmptySegment(resource);
    var segments := Split(resource, '/');
    if resource == "" {
      assert segments[0] == "";
      return false;
    }
    if exists i :: 0 <= i < |resource| && IsSpace(resource[i]) {
      return false;
    }
    if HasPrefix(resource, "/") || HasSuffix(resource, "/") {
      return false;
    }
    if Contains(resource, "//") {
      return false;
    }
    for i := 0 to |segments|
      invariant forall j :: 0 <= j < i ==> segments[j] != "" && ('%' in segments[j] ==> segments[j] == "%")
    {
      var segment := segments[i];
      if segment == "" {
        return false;
      }
      if '%' in segment && segment != "%" {
        return false;
      }
    }
    return true;
  }

  /** Every wildcard of a pattern stands between slashes or at an end of it. */
  ghost predicate Aligned(p: string) {
    forall i :: 0 <= i < |p| && p[i] == '%' ==> (i > 0 ==> p[i - 1] == '/') && (i + 1 < |p| ==> p[i + 1] == '/')
  }

  lemma {:induction false} WholeSegmentsAligned(segments: seq<string>)
    requires segments != [] && forall i :: 0 <= i < |segments| ==> ('%' in segments[i] ==> segments[i] == "%")
    ensures Aligned(Join(segments, '/'))
    decreases |segments|
  {
    var head, p := segments[0], Join(segments, '/');
    if |segments| == 1 {
      forall i | 0 <= i < |p| && p[i] == '%' ensures i == 0 && |p| == 1 {
        assert p[i] in head;
      }
    } else {
      var rest := Join(segments[1..], '/');
      WholeSegmentsAligned(segments[1..]);
      assert p == head + ['/'] + rest;
      forall i | 0 <= i < |p| && p[i] == '%'
        ensures (i > 0 ==> p[i - 1] == '/') && (i + 1 < |p| ==> p[i + 1] == '/')
      {
        if i < |head| {
          assert p[i] == head[i] && head[i] in head;
          assert head == "%";
        } else {
          var j := i - |head| - 1;
          assert p[i] == rest[j];
          assert j + 1 < |rest| ==> p[i + 1] == rest[j + 1];
          assert j > 0 ==> p[i - 1] == rest[j - 1];
        }
      }
    }
  }

  lemma WellShapedAligned(resource: string)
    requires WellShaped(resource)
    ensures Aligned(resource)
  {
    JoinSplit(resource, '/');
    WholeSegmentsAligned(Split(resource, '/'));
  }

  // ----- coverage

  predicate PolicyResourceCovers(existing: string, candidate: string) {
    if existing == "%" || existing == candidate then true
    else if '%' !in existing then false
    else if Count(existing, '%') == 1 && HasSuffix(existing, "%") then
      HasPrefix(candidate, existing[..|existing| - 1])
    else if '%' !in candidate then SqlLikeMatch(existing, candidate)
    else false
  }

  /** What follows a slash is not escaped. */
  lemma {:induction false} NotEscapedAfterSlash(p: string, escaped: bool)
    requires p != "" && p[|p| - 1] == '/'
    ensures !EscapedAfter(p, escaped)
    decreases |p|
  {
    if |p| > 1 {
      NotEscapedAfterSlash(p[1..], !escaped && p[0] == '\\');
    }
  }

  /** A slash matches itself, escaped or not. */
  lemma SlashEscapedOrNot(s: string, p: string)
    requires p != "" && p[0] == '/'
    ensures Consumes(s, p, true) == Consumes(s, p, false)
    ensures EscapedAfter(p, true) == EscapedAfter(p, false)
  {}

  lemma AlignedTail(head: string, rest: string)
    requires Aligned(head + ("%" + rest))
    ensures Aligned(rest) && (rest != "" ==> rest[0] == '/') && (head != "" ==> head[|head| - 1] == '/')
  {
    var p := head + ("%" + rest);
    assert p[|head|] == '%';
    assert rest != "" ==> p[|head| + 1] == rest[0];
    assert head != "" ==> p[|head| - 1] == head[|head| - 1];
    forall i | 0 <= i < |rest| && rest[i] == '%'
      ensures (i > 0 ==> rest[i - 1] == '/') && (i + 1 < |rest| ==> rest[i + 1] == '/')
    {
      var j := |head| + 1 + i;
      assert p[j] == rest[i];
      assert i > 0 ==> p[j - 1] == rest[i - 1];
      assert i + 1 < |rest| ==> p[j + 1] == rest[i + 1];
    }
  }

  /**
   If the text of c interleaves the parts of an aligned pattern, then whatever c matches
   as a pattern is matched by that pattern.
   */
  lemma {:induction false} CoversInterleaved(r: string, c: string, parts: seq<string>, escaped: bool)
    requires parts != [] && Interleaves(c, parts) && Aligned(Join(parts, '%'))
    requires Consumes(r, c, escaped) && !EscapedAfter(c, escaped)
    requires escaped ==> Join(parts, '%') == "" || Join(parts, '%')[0] == '/'
    ensures Like(r, Join(parts, '%'))
    decreases |parts|
  {
    if |parts| == 1 {
      CoversLast(r, c, parts, escaped);
    } else {
      hide Consumes, EscapedAfter, Aligned, Interleaves, Join, Like;
      var head, rest := parts[0], Join(parts[1..], '%');
      JoinMore(parts);
      AlignedTail(head, rest);
      var gap, tail := InterleavesCut(c, parts);
      StartOfJoin(head, rest);
      var x, y, z := CutThree(r, head, gap, tail, escaped);
      CoversInterleaved(z, tail, parts[1..], EscapedAfter(gap, false));
      Reassemble(x, y, z, head, rest);
    }
  }

  lemma CoversLast(r: string, c: string, parts: seq<string>, escaped: bool)
    requires |parts| == 1 && Interleaves(c, parts) && Consumes(r, c, escaped) && !EscapedAfter(c, escaped)
    requires escaped ==> Join(parts, '%') == "" || Join(parts, '%')[0] == '/'
    ensures Like(r, Join(parts, '%'))
  {
    assert c == "" ==> EscapedAfter(c, escaped) == escaped;
    hide Consumes, EscapedAfter;
    if escaped {
      SlashEscapedOrNot(r, c);
    }
  }

  lemma StartOfJoin(head: string, rest: string)
    ensures var whole := head + ("%" + rest); whole != "" && (whole[0] == '/' ==> head != "" && head[0] == '/')
  {}

  lemma CutThree(r: string, head: string, gap: string, tail: string, escaped: bool) returns (x: string, y: string, z: string)
    requires Consumes(r, head + (gap + tail), escaped) && !EscapedAfter(head + (gap + tail), escaped)
    requires head != "" ==> head[|head| - 1] == '/'
    requires escaped ==> head != "" && head[0] == '/'
    ensures r == x + (y + z)
    ensures Consumes(x, head, false) && !EscapedAfter(head, false)
    ensures Consumes(z, tail, EscapedAfter(gap, false)) && !EscapedAfter(tail, EscapedAfter(gap, false))
  {
    hide Consumes, EscapedAfter;
    var i := ConsumesCut(r, head, gap + tail, escaped);
    EscapedAfterAppend(head, gap + tail, escaped);
    HeadConsumes(r[..i], head, escaped);
    var after := r[i..];
    var j := ConsumesCut(after, gap, tail, false);
    EscapedAfterAppend(gap, tail, false);
    x, y, z := r[..i], after[..j], after[j..];
  }

  /** A part that ends in a slash, or an empty one, is consumed the same way whether or not it starts escaped. */
  lemma HeadConsumes(s: string, head: string, escaped: bool)
    requires Consumes(s, head, escaped)
    requires head != "" ==> head[|head| - 1] == '/'
    requires escaped ==> head != "" && head[0] == '/'
    ensures Consumes(s, head, false) && !EscapedAfter(head, false) && !EscapedAfter(head, escaped)
  {
    if head != "" {
      NotEscapedAfterSlash(head, false);
      NotEscapedAfterSlash(head, escaped);
      if escaped { SlashEscapedOrNot(s, head); }
    }
  }

  lemma CoversPrefix(r: string, prefix: string, candidate: string)
    requires prefix != "" ==> prefix[|prefix| - 1] == '/'
    requires HasPrefix(candidate, prefix) && Like(r, candidate)
    ensures Like(r, prefix + "%")
  {
    assert Consumes("", "", false) && !EscapedAfter("", false);
    hide Consumes, EscapedAfter;
    var rest := candidate[|prefix|..];
    assert candidate == prefix + rest;
    var k := ConsumesCut(r, prefix, rest, false);
    HeadConsumes(r[..k], prefix, false);
    PercentConsumes(r[k..], "", "");
    assert "%" + "" == "%" && r[k..] + "" == r[k..] && r == r[..k] + r[k..];
    ConsumesBoth(r[..k], r[k..], prefix, "%", false);
    EscapedAfterAppend(prefix, "%", false);
  }

  /** Coverage is sound: what the candidate matches the existing resource matches, escapes and wildcards included. */
  lemma CoverageIsSound(existing: string, candidate: string, r: string)
    requires WellShaped(existing) && PolicyResourceCovers(existing, candidate) && Like(r, candidate)
    ensures Like(r, existing)
  {
    assert Consumes("", "", false) && !EscapedAfter("", false);
    hide Consumes, EscapedAfter, WellShaped;
    if existing == candidate {
    } else if existing == "%" {
      PercentConsumes(r, "", "");
      assert "%" + "" == "%" && r + "" == r;
    } else if Count(existing, '%') == 1 && HasSuffix(existing, "%") {
      var prefix := existing[..|existing| - 1];
      assert existing == prefix + "%";
      WellShapedAligned(existing);
      assert existing[|existing| - 1] == '%';
      assert prefix != "" ==> prefix[|prefix| - 1] == existing[|existing| - 2];
      CoversPrefix(r, prefix, candidate);
    } else {
      MatchInterleaves(existing, candidate);
      JoinSplit(existing, '%');
      WellShapedAligned(existing);
      CoversInterleaved(r, candidate, Split(existing, '%'), false);
    }
  }

  /** Shape matters: an escaped wildcard, which validation rejects, would cover what it does not match. */
  lemma EscapedWildcardCoversTooMuch()
    ensures PolicyResourceCovers("a\\%", "a\\b") && Like("ab", "a\\b") && !Like("ab", "a\\%")
    ensures !WellShaped("a\\%")
  {
    var p, c := "a\\%", "a\\b";
    assert p[..|p| - 1] == "a\\" && "a\\" <= c;
    assert Count(p, '%') == 1 by {
      assert p[1..] == "\\%" && "\\%"[1..] == "%" && "%"[1..] == "";
    }
    assert "ab"[1..] == "b" && "b"[1..] == "";
    assert p[1..] == "\\%" && "\\%"[1..] == "%" && "%"[1..] == "";
    assert c[1..] == "\\b" && "\\b"[1..] == "b";
    assert !Consumes("b", "%", true);
    assert !Aligned(p) by { assert p[2] == '%' && p[1] != '/'; }
    if WellShaped(p) {
      WellShapedAligned(p);
    }
  }
}
