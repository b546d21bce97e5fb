/**
 When one resource covers another, by what the two match as LIKE patterns, and for
 which resources the code decides exactly that.
 */
module Coverage {
  import opened Text
  import opened LikePatterns
  import opened Policies

  /** Whatever c matches e matches too. */
  ghost predicate MatchesAll(e: string, c: string) {
    forall r :: Like(r, c) ==> Like(r, e)
  }

  /** Nothing but % is special in it. */
  predicate OnlyWildcards(p: string) { '_' !in p && '\\' !in p }

  /** Covering all matches is matching the text of the pattern. */
  lemma TextDecides(e: string, c: string)
    requires WellShaped(e) && OnlyWildcards(e) && '\\' !in c
    ensures MatchesAll(e, c) <==> Like(c, e)
  {
    MatchesItself(c);
    var parts := Split(e, '%');
    JoinSplit(e, '%');
    SplitCharacter(e, '%', '_');
    SplitCharacter(e, '%', '\\');
    WellShapedAligned(e);
    assert Like(c, c);
    assert Like(c, e) ==> Consumes(c, e, false);
    hide Split, Consumes, EscapedAfter, WellShaped, Aligned, Interleaves;
    if Like(c, e) {
      LikeInterleaves(c, parts);
      forall r | Like(r, c) ensures Like(r, e) {
        LikeParts(r, c);
        CoversInterleaved(r, c, parts, false);
      }
    }
  }

  lemma LikeParts(r: string, c: string)
    requires Like(r, c)
    ensures Consumes(r, c, false) && !EscapedAfter(c, false)
  {}

  /** A wildcard at the end alone: the rest is a prefix of what is matched. */
  lemma PrefixDecides(e: string, c: string)
    requires OnlyWildcards(e) && OnlyLast(e, '%') && '\\' !in c
    ensures Like(c, e) <==> HasPrefix(c, e[..|e| - 1])
  {
    var prefix := e[..|e| - 1];
    assert e == prefix + ("%" + "");
    assert PlainPattern(prefix);
    PlainConsumes("", "");
    MatchesItself(prefix);
    MatchesItself("");
    LikeOfPercent(c, prefix, "");
    if Like(c, e) {
      var i, j :| 0 <= i <= j <= |c| && Like(c[..i], prefix) && Like(c[j..], "");
      PlainConsumes(c[..i], prefix);
    }
    if HasPrefix(c, prefix) {
      assert c[..|prefix|] == prefix && c[|c|..] == "";
      assert Like(c[..|prefix|], prefix) && Like(c[|c|..], "");
    }
  }

  lemma OnlyWildcardsAgree(e: string, c: string)
    requires OnlyWildcards(e) && EndsInWildcardOrHasNone(e)
    ensures SqlLikeMatch(e, c) <==> Like(c, e)
  {
    hide SqlLikeMatch, Like, EndsInWildcardOrHasNone;
    if SqlLikeMatch(e, c) { MatchImpliesLike(e, c); }
    if Like(c, e) { LikeImpliesMatch(e, c); }
  }

  /**
   Coverage is neither too wide nor too narrow for every resource without wildcards, or with one at
   its end alone; for every resource that ends in a wildcard, against resources without; and for
   every resource against itself.
   */
  lemma CoverageIsExact(e: string, c: string)
    requires e == c || (WellShaped(e) && OnlyWildcards(e) && '\\' !in c)
    requires e == c || '%' !in e || OnlyLast(e, '%') || ('%' !in c && HasSuffix(e, "%"))
    ensures PolicyResourceCovers(e, c) <==> MatchesAll(e, c)
  {
    if e != c {
      TextDecides(e, c);
      OnceAtTheEnd(e, '%');
      hide WellShaped, Like, SqlLikeMatch, MatchesAll, Count;
      if OnlyLast(e, '%') {
        PrefixDecides(e, c);
        assert e[|e| - 1] == '%';
        assert e == "%" ==> e[..|e| - 1] == "" && HasPrefix(c, "");
      } else if '%' !in e {
        LikeByCharacters(c, e);
        assert Like(c, e) ==> c == e;
      } else {
        OnlyWildcardsAgree(e, c);
        assert e == "%" ==> OnlyLast(e, '%');
      }
    }
  }

  // ----- the resources for which it is too narrow

  lemma {:induction false} SplitBoth(a: string, b: string, sep: char)
    ensures Split(a + [sep] + b, sep) == Split(a, sep) + Split(b, sep)
    decreases |a|
  {
    var s := a + [sep] + b;
    if a == "" {
      assert s[1..] == b;
    } else {
      assert s[1..] == a[1..] + [sep] + b;
      SplitBoth(a[1..], b, sep);
    }
  }

  predicate GoodSegments(segments: seq<string>) {
    forall i :: 0 <= i < |segments| ==> segments[i] != "" && ('%' in segments[i] ==> segments[i] == "%")
  }

  predicate NoSpace(s: string) { forall i :: 0 <= i < |s| ==> !IsSpace(s[i]) }

  lemma ShapeOf(s: string)
    ensures WellShaped(s) <==> NoSpace(s) && GoodSegments(Split(s, '/'))
  {}

  /** Two paths put together. */
  lemma ShapedBoth(a: string, b: string)
    ensures WellShaped(a + "/" + b) <==> WellShaped(a) && WellShaped(b)
  {
    ShapeOf(a);
    ShapeOf(b);
    ShapeOf(a + "/" + b);
    SplitBoth(a, b, '/');
    var x, y := Split(a, '/'), Split(b, '/');
    hide Split, WellShaped;
    assert GoodSegments(x + y) <==> GoodSegments(x) && GoodSegments(y) by {
      assert forall i :: 0 <= i < |x| ==> (x + y)[i] == x[i];
      assert forall i :: 0 <= i < |y| ==> (x + y)[|x| + i] == y[i];
    }
    assert NoSpace(a + "/" + b) <==> NoSpace(a) && NoSpace(b) by {
      var s := a + "/" + b;
      assert forall i :: 0 <= i < |a| ==> s[i] == a[i];
      assert forall i :: 0 <= i < |b| ==> s[|a| + 1 + i] == b[i];
      assert s[|a|] == '/';
    }
  }

  /** y is what follows the last wildcard. */
  predicate EndsIn(e: string, x: string, y: string) {
    e == x + ("%" + y) && '%' !in y
  }

  lemma {:induction false} LastWildcard(e: string) returns (x: string, y: string)
    requires '%' in e
    ensures EndsIn(e, x, y)
    decreases |e|
  {
    assert e == [e[0]] + e[1..];
    if '%' in e[1..] {
      x, y := LastWildcard(e[1..]);
      x := [e[0]] + x;
    } else {
      x, y := "", e[1..];
    }
  }

  /** In a well shaped path it is nothing, or a slash and a path. */
  lemma PathAfter(e: string, x: string, y: string)
    requires WellShaped(e) && EndsIn(e, x, y) && y != ""
    ensures WellShaped(y[1..]) && y == "/" + y[1..]
  {
    WellShapedAligned(e);
    AlignedTail(x, y);
    assert y == [y[0]] + y[1..];
    assert e == x + "%" + "/" + y[1..];
    ShapedBoth(x + "%", y[1..]);
  }

  /** The pattern's text with its end a second time, or, if it ends in a wildcard, with one segment more. */
  lemma Extended(e: string) returns (c: string)
    requires WellShaped(e) && OnlyWildcards(e) && '%' in e
    ensures WellShaped(c) && OnlyWildcards(c) && '%' in c && c != e && Like(c, e)
  {
    var x, y := LastWildcard(e);
    var more := if y == "" then "/%" else y;
    c := e + more;
    PlainEnds(e, x, y);
    SegmentShaped();
    hide WellShaped, Like, OnlyWildcards, EndsIn, HasSuffix;
    ExtendedMatches(e, x, y, more);
    if y != "" { PathAfter(e, x, y); }
    assert more == "/" + more[1..];
    ShapedBoth(e, more[1..]);
    assert c == e + "/" + more[1..];
  }

  lemma PlainEnds(e: string, x: string, y: string)
    requires OnlyWildcards(e) && EndsIn(e, x, y)
    ensures OnlyWildcards(x) && OnlyWildcards(y) && OnlyWildcards(e + y) && OnlyWildcards(e + "/%")
    ensures HasSuffix(y, y) && HasSuffix("/%", "") && '%' !in y
  {}

  lemma SegmentShaped()
    ensures WellShaped("%")
  {
    SplitWhole("%", '/');
  }

  lemma ExtendedMatches(e: string, x: string, y: string, more: string)
    requires EndsIn(e, x, y) && OnlyWildcards(x) && OnlyWildcards(y) && HasSuffix(more, y)
    ensures Like(e + more, e)
  {
    var c := e + more;
    MatchesItself(x);
    MatchesItself(y);
    LikeOfPercent(c, x, y);
    assert c[..|x|] == x && c[|c| - |y|..] == more[|more| - |y|..] == y;
    assert Like(c[..|x|], x) && Like(c[|c| - |y|..], y);
  }

  /** Whether coverage is exact for all resources is decided by where the wildcards of the covering one stand. */
  lemma CoverageExactIff(e: string)
    requires WellShaped(e) && OnlyWildcards(e)
    ensures (forall c :: WellShaped(c) && OnlyWildcards(c) ==> (PolicyResourceCovers(e, c) <==> MatchesAll(e, c)))
       <==> '%' !in e || OnlyLast(e, '%')
  {
    hide WellShaped, PolicyResourceCovers, MatchesAll, OnlyLast;
    if '%' !in e || OnlyLast(e, '%') {
      forall c | WellShaped(c) && OnlyWildcards(c) ensures PolicyResourceCovers(e, c) <==> MatchesAll(e, c) {
        CoverageIsExact(e, c);
      }
    } else {
      var c := Extended(e);
      TextDecides(e, c);
      TooManyWildcards(e, c);
    }
  }

  lemma TooManyWildcards(e: string, c: string)
    requires '%' in e && !OnlyLast(e, '%') && '%' in c && c != e
    ensures !PolicyResourceCovers(e, c)
  {
    OnceAtTheEnd(e, '%');
    assert e == "%" ==> OnlyLast(e, '%');
  }

  // ----- against resources without wildcards

  /** x for each wildcard. */
  function Filled(s: string, x: char): string {
    seq(|s|, i requires 0 <= i < |s| => if s[i] == '%' then x else s[i])
  }

  lemma {:induction false} JoinIsFilled(s: string, x: char)
    ensures Join(Split(s, '%'), x) == Filled(s, x)
    decreases |s|
  {
    if s != "" {
      var rest := Split(s[1..], '%');
      JoinIsFilled(s[1..], x);
      assert Filled(s, x) == [if s[0] == '%' then x else s[0]] + Filled(s[1..], x);
      if s[0] == '%' {
        assert ([""] + rest)[1..] == rest;
      } else if |rest| > 1 {
        assert ([[s[0]] + rest[0]] + rest[1..])[1..] == rest[1..];
      }
    }
  }

  function FilledAll(segments: seq<string>, x: char): (r: seq<string>)
    ensures |r| == |segments|
  {
    seq(|segments|, i requires 0 <= i < |segments| => Filled(segments[i], x))
  }

  lemma {:induction false} SplitFilled(s: string, x: char)
    requires x != '/'
    ensures Split(Filled(s, x), '/') == FilledAll(Split(s, '/'), x)
    decreases |s|
  {
    if s != "" {
      var head, rest := if s[0] == '%' then x else s[0], Split(s[1..], '/');
      SplitFilled(s[1..], x);
      assert Filled(s, x) == [head] + Filled(s[1..], x);
      assert Filled(s, x)[1..] == Filled(s[1..], x);
      FilledMore(rest, s[0], x);
    }
  }

  lemma FilledMore(segments: seq<string>, c: char, x: char)
    requires segments != []
    ensures var head := if c == '%' then x else c;
            FilledAll([[c] + segments[0]] + segments[1..], x) == [[head] + FilledAll(segments, x)[0]] + FilledAll(segments, x)[1..]
    ensures FilledAll([""] + segments, x) == [""] + FilledAll(segments, x)
  {
    assert Filled([c] + segments[0], x) == [if c == '%' then x else c] + Filled(segments[0], x);
    assert Filled("", x) == "";
  }

  lemma ShapedFilled(s: string, x: char)
    requires WellShaped(s) && x != '/' && x != '%' && !IsSpace(x)
    ensures WellShaped(Filled(s, x)) && '%' !in Filled(s, x)
  {
    SplitFilled(s, x);
    hide Split;
    var segments := Split(Filled(s, x), '/');
    forall i | 0 <= i < |segments| ensures segments[i] != "" && '%' !in segments[i] {
      assert segments[i] == Filled(Split(s, '/')[i], x);
    }
  }

  /** The resource in which every wildcard is an x, and what follows the last of them stands twice. */
  lemma RepeatedEnd(e: string) returns (c: string)
    requires WellShaped(e) && OnlyWildcards(e) && '%' in e && !HasSuffix(e, "%")
    ensures WellShaped(c) && PlainPattern(c) && Like(c, e) && !SqlLikeMatch(e, c)
  {
    assert '\\' !in e && !EndsInWildcardOrHasNone(e);
    hide *;
    Missed(e, 'x');
    c := LastRepeated(Split(e, '%'), 'x');
    RepeatedShape(e);
  }

  lemma RepeatedShape(e: string)
    requires WellShaped(e) && OnlyWildcards(e) && '%' in e && !HasSuffix(e, "%")
    ensures WellShaped(LastRepeated(Split(e, '%'), 'x')) && PlainPattern(LastRepeated(Split(e, '%'), 'x'))
  {
    assert !IsSpace('x');
    hide *;
    var x, y := LastWildcard(e);
    PlainEnds(e, x, y);
    LastPart(e, x, y);
    RepeatedIs(Split(e, '%'), 'x');
    JoinIsFilled(e, 'x');
    PathAfter(e, x, y);
    ShapedFilled(e, 'x');
    ShapedBoth(Filled(e, 'x'), y[1..]);
    assert Filled(e, 'x') + "/" + y[1..] == Filled(e, 'x') + y;
    FilledPlain(e, y, 'x');
  }

  /** The last part of a pattern is what follows its last wildcard. */
  lemma LastPart(e: string, x: string, y: string)
    requires EndsIn(e, x, y)
    ensures Split(e, '%')[|Split(e, '%')| - 1] == y
    ensures y == "" <==> HasSuffix(e, "%")
  {
    assert e == x + ['%'] + y;
    SplitBoth(x, y, '%');
    SplitWhole(y, '%');
    SplitEnds(e);
  }

  lemma FilledPlain(e: string, y: string, x: char)
    requires OnlyWildcards(e) && OnlyWildcards(y) && '%' !in y && x != '%' && x != '_' && x != '\\'
    ensures PlainPattern(Filled(e, x) + y)
  {
    forall c | c in Filled(e, x) ensures c == x || (c in e && c != '%') {
      var i :| 0 <= i < |e| && c == Filled(e, x)[i];
    }
  }

  /** And against resources without wildcards: by whether the covering one ends in a wildcard or has none. */
  lemma PlainCoverageExactIff(e: string)
    requires WellShaped(e) && OnlyWildcards(e)
    ensures (forall c :: WellShaped(c) && PlainPattern(c) ==> (PolicyResourceCovers(e, c) <==> MatchesAll(e, c)))
       <==> EndsInWildcardOrHasNone(e)
  {
    hide WellShaped, PolicyResourceCovers, MatchesAll;
    if EndsInWildcardOrHasNone(e) {
      forall c | WellShaped(c) && PlainPattern(c) ensures PolicyResourceCovers(e, c) <==> MatchesAll(e, c) {
        CoverageIsExact(e, c);
      }
    } else {
      var c := RepeatedEnd(e);
      TextDecides(e, c);
      DecidedByMatcher(e, c);
    }
  }

  lemma DecidedByMatcher(e: string, c: string)
    requires '%' in e && !HasSuffix(e, "%") && PlainPattern(c) && !SqlLikeMatch(e, c)
    ensures !PolicyResourceCovers(e, c)
  {
    hide SqlLikeMatch;
    assert e == "%" ==> HasSuffix(e, "%");
    assert e != c;
  }
}
