/**
 The subscription topic a route derives from its topic_regex, and which of the
 topics the regex finds the subscription delivers.
 */
module RegexTopics {
  import opened Wrappers
  import opened Text

  // ----- cutting a regex at its path separators

  datatype Scan = Scan(inClass: bool, escaped: bool) {

    function Step(c: char): Scan {
      if escaped then Scan(inClass, false)
      else if c == '\\' then Scan(inClass, true)
      else if c == '[' then Scan(true, false)
      else if c == ']' then Scan(false, false)
      else this
    }

    predicate Cuts(c: char) { c == '/' && !inClass && !escaped }
  }

  const START := Scan(false, false)

  function After(s: Scan, expr: string): Scan
    decreases |expr|
  {
    if expr == "" then s else After(s.Step(expr[0]), expr[1..])
  }

  function Prepend(c: char, segs: seq<string>): seq<string>
    requires segs != []
  {
    [[c] + segs[0]] + segs[1..]
  }

  function Extend(segs: seq<string>, c: char): seq<string>
    requires segs != []
  {
    segs[..|segs| - 1] + [segs[|segs| - 1] + [c]]
  }

  function Segments(s: Scan, expr: string): (segs: seq<string>)
    ensures segs != []
    decreases |expr|
  {
    if expr == "" then [""]
    else
      var rest := Segments(s.Step(expr[0]), expr[1..]);
      if s.Cuts(expr[0]) then [""] + rest else Prepend(expr[0], rest)
  }

  lemma PrependExtend(c: char, segs: seq<string>, d: char)
    requires segs != []
    ensures Prepend(c, Extend(segs, d)) == Extend(Prepend(c, segs), d)
    ensures Prepend(c, segs + [""]) == Prepend(c, segs) + [""]
    ensures [""] + Extend(segs, d) == Extend([""] + segs, d)
  {
    if |segs| == 1 {
      assert [c] + (segs[0] + [d]) == [c] + segs[0] + [d];
    }
  }

  lemma {:induction false} OneMoreChar(s: Scan, expr: string, c: char)
    ensures After(s, expr + [c]) == After(s, expr).Step(c)
    ensures var segs := Segments(s, expr);
            Segments(s, expr + [c]) == if After(s, expr).Cuts(c) then segs + [""] else Extend(segs, c)
    decreases |expr|
  {
    hide Prepend, Extend;
    if expr == "" {
      assert expr + [c] == [c] && [c][1..] == "";
      FirstChar(c);
    } else {
      OneMoreChar(s.Step(expr[0]), expr[1..], c);
      assert (expr + [c])[1..] == expr[1..] + [c];
      var rest := Segments(s.Step(expr[0]), expr[1..]);
      PrependExtend(expr[0], rest, c);
      assert [""] + (rest + [""]) == [""] + rest + [""];
    }
  }

  lemma FirstChar(c: char)
    ensures Prepend(c, [""]) == Extend([""], c)
  {
    assert [c] + "" == [c] == "" + [c];
  }

  /** The segments with separators between them are the expression again. */
  lemma {:induction false} SegmentsJoin(s: Scan, expr: string)
    ensures Join(Segments(s, expr), '/') == expr
    decreases |expr|
  {
    if expr != "" {
      var rest := Segments(s.Step(expr[0]), expr[1..]);
      SegmentsJoin(s.Step(expr[0]), expr[1..]);
      var segs := Segments(s, expr);
      if s.Cuts(expr[0]) {
        assert segs[1..] == rest;
      } else if |rest| == 1 {
        assert segs == [[expr[0]] + rest[0]];
      } else {
        assert segs[1..] == rest[1..];
        assert [expr[0]] + (rest[0] + "/" + Join(rest[1..], '/')) == segs[0] + "/" + Join(segs[1..], '/');
      }
    }
  }

  /** A separator that is neither escaped nor in a class. */
  predicate CutAt(s: Scan, expr: string, i: nat)
    requires i < |expr|
  {
    After(s, expr[..i]).Cuts(expr[i])
  }

  /** The segments meet exactly at the cuts: before segment k + 1 there is the separator at position |Join(segs[..k + 1])|. */
  ghost predicate MeetAt(segs: seq<string>, i: nat) {
    exists k {:trigger segs[..k]} :: 1 <= k < |segs| && i == |Join(segs[..k], '/')|
  }

  lemma {:induction false} JoinPrepend(head: string, tail: seq<string>, k: nat)
    requires k <= |tail|
    ensures ([head] + tail)[..k + 1] == [head] + tail[..k]
    ensures |Join([head] + tail[..k], '/')| == |head| + if k == 0 then 0 else 1 + |Join(tail[..k], '/')|
  {
    var segs := [head] + tail[..k];
    assert segs[1..] == tail[..k];
  }

  lemma MeetAfterCut(rest: seq<string>, i: nat)
    requires rest != []
    ensures MeetAt([""] + rest, i) <==> i == 0 || MeetAt(rest, i - 1)
  {
    var segs := [""] + rest;
    forall k | 1 <= k < |segs| ensures |Join(segs[..k], '/')| == if k == 1 then 0 else 1 + |Join(rest[..k - 1], '/')| {
      JoinPrepend("", rest, k - 1);
    }
    assert segs[..1] == [""];
    if MeetAt(segs, i) && i > 0 {
      var k :| 1 <= k < |segs| && i == |Join(segs[..k], '/')|;
      assert i - 1 == |Join(rest[..k - 1], '/')|;
    }
    if i > 0 && MeetAt(rest, i - 1) {
      var k :| 1 <= k < |rest| && i - 1 == |Join(rest[..k], '/')|;
      assert i == |Join(segs[..k + 1], '/')|;
    }
  }

  lemma MeetAfterChar(c: char, rest: seq<string>, i: nat)
    requires rest != []
    ensures MeetAt(Prepend(c, rest), i) <==> i > 0 && MeetAt(rest, i - 1)
  {
    var segs := Prepend(c, rest);
    var head, tail := [c] + rest[0], rest[1..];
    assert rest == [rest[0]] + tail && segs == [head] + tail;
    forall k | 1 <= k < |segs| ensures |Join(segs[..k], '/')| == 1 + |Join(rest[..k], '/')| {
      JoinPrepend(head, tail, k - 1);
      JoinPrepend(rest[0], tail, k - 1);
    }
    if MeetAt(segs, i) {
      var k :| 1 <= k < |segs| && i == |Join(segs[..k], '/')|;
      assert i - 1 == |Join(rest[..k], '/')|;
    }
    if i > 0 && MeetAt(rest, i - 1) {
      var k :| 1 <= k < |rest| && i - 1 == |Join(rest[..k], '/')|;
      assert i == |Join(segs[..k], '/')|;
    }
  }

  lemma {:induction false} CutsAreMeetings(s: Scan, expr: string, i: nat)
    requires i < |expr|
    ensures CutAt(s, expr, i) <==> MeetAt(Segments(s, expr), i)
    decreases |expr|
  {
    hide MeetAt, Prepend, Join;
    var next, rest := s.Step(expr[0]), Segments(s.Step(expr[0]), expr[1..]);
    if i > 0 {
      CutsAreMeetings(next, expr[1..], i - 1);
      assert expr[..i][1..] == expr[1..][..i - 1];
    } else {
      assert expr[..0] == "";
    }
    if s.Cuts(expr[0]) {
      MeetAfterCut(rest, i);
    } else {
      MeetAfterChar(expr[0], rest, i);
    }
  }

  datatype DeriveError = EmptyRegex | DanglingEscape | UnterminatedClass | NotMappable | InvalidSubscription

  /** Fails exactly on a dangling escape or an unterminated class. */
  method SplitRegexPath(expr: string) returns (r: Result<seq<string>, DeriveError>)
    ensures var end := After(START, expr);
            r == if end.escaped then Err(DanglingEscape)
                 else if end.inClass then Err(UnterminatedClass)
                 else Ok(Segments(START, expr))
  {
    var segments: seq<string>, current: string := [], "";
    var inClass, escaped := false, false;
    for i := 0 to |expr|
      invariant After(START, expr[..i]) == Scan(inClass, escaped)
      invariant Segments(START, expr[..i]) == segments + [current]
    {
      var c := expr[i];
      OneMoreChar(START, expr[..i], c);
      assert expr[..i + 1] == expr[..i] + [c];
      if escaped {
        current := current + [c];
        escaped := false;
      } else if c == '\\' {
        current := current + [c];
        escaped := true;
      } else if c == '[' {
        current := current + [c];
        inClass := true;
      } else if c == ']' {
        current := current + [c];
        inClass := false;
      } else if c == '/' && !inClass {
        segments := segments + [current];
        current := "";
      } else {
        current := current + [c];
      }
    }
    assert expr[..|expr|] == expr;
    if escaped {
      return Err(DanglingEscape);
    }
    if inClass {
      return Err(UnterminatedClass);
    }
    return Ok(segments + [current]);
  }

  // ----- deriving the subscription

  const META := ".^$*+?()[]{}\\|"

  predicate ContainsRegexMeta(segment: string) {
    exists i :: 0 <= i < |segment| && segment[i] in META
  }

  predicate SingleLevelCaptureRegex(segment: string) {
    || segment == "[^/]+" || segment == "[^/]*" || segment == "([^/]+)" || segment == "([^/]*)"
    || segment == "(?:[^/]+)" || segment == "(?:[^/]*)"
  }

  predicate ValidSubscription(topic: string) {
    && TrimSpace(topic) != ""
    && ('#' in topic ==> HasSuffix(topic, "#"))
    && Count(topic, '#') <= 1
  }

  /** The characters that are special to a regex. */
  lemma MetaCharacters(c: char)
    ensures c in META <==> || c == '.' || c == '^' || c == '$' || c == '*' || c == '+' || c == '?' || c == '(' || c == ')'
                           || c == '[' || c == ']' || c == '{' || c == '}' || c == '\\' || c == '|'
  {}

  /** A topic to subscribe to has something but white space in it, and a # at most as its last character. */
  lemma ValidSubscriptionIff(topic: string)
    ensures ValidSubscription(topic)
       <==> (exists i :: 0 <= i < |topic| && !IsSpace(topic[i])) && forall i :: 0 <= i < |topic| - 1 ==> topic[i] != '#'
  {
    CountNone(topic, '#');
    OnceAtTheEnd(topic, '#');
    HashesOf(topic);
    TrimmedStretch(topic);
    hide TrimSpace, Count, HasSuffix, IsSpace;
    var i, j :| 0 <= i <= j <= |topic| && Stretch(topic, i, j);
  }

  lemma HashesOf(topic: string)
    ensures (forall i :: 0 <= i < |topic| - 1 ==> topic[i] != '#') <==> '#' !in topic || OnlyLast(topic, '#')
  {
    if '#' in topic && forall i :: 0 <= i < |topic| - 1 ==> topic[i] != '#' {
      assert topic[|topic| - 1] == '#';
    }
  }

  predicate Literal(segment: string) { !ContainsRegexMeta(segment) }

  predicate Mappable(segment: string) { Literal(segment) || SingleLevelCaptureRegex(segment) }

  function MapSegment(segment: string): string { if Literal(segment) then segment else "+" }

  function MapSegments(segs: seq<string>): (out: seq<string>)
    ensures |out| == |segs|
  {
    seq(|segs|, i requires 0 <= i < |segs| => MapSegment(segs[i]))
  }

  function Body(expr: string): string { TrimSuffix(TrimPrefix(TrimSpace(expr), "^"), "$") }

  function BodySegments(expr: string): (segs: seq<string>)
    ensures segs != []
  {
    Segments(START, Body(expr))
  }

  function Derived(expr: string): string { Join(MapSegments(BodySegments(expr)), '/') }

  predicate AllMappable(segs: seq<string>) {
    forall i :: 0 <= i < |segs| ==> Mappable(segs[i])
  }

  /** The expressions a subscription is derived from. */
  predicate Accepted(expr: string) {
    && Body(expr) != "" && After(START, Body(expr)) == START
    && AllMappable(BodySegments(expr))
    && ValidSubscription(Derived(expr))
  }

  method DeriveSubscriptionTopicFromRegex(expr: string) returns (r: Result<string, DeriveError>)
    ensures r.Ok? <==> Accepted(expr)
    ensures r.Ok? ==> r.value == Derived(expr)
    ensures r.Err? ==> r.error == if Body(expr) == "" then EmptyRegex
                                  else if After(START, Body(expr)).escaped then DanglingEscape
                                  else if After(START, Body(expr)).inClass then UnterminatedClass
                                  else if !AllMappable(BodySegments(expr)) then NotMappable else InvalidSubscription
  {
    hide Segments, ValidSubscription, Body, Mappable;
    var trimmed := TrimSpace(expr);
    trimmed := TrimPrefix(trimmed, "^");
    trimmed := TrimSuffix(trimmed, "$");
    TrimmedIsBody(expr);
    if trimmed == "" {
      return Err(EmptyRegex);
    }
    var split := SplitRegexPath(trimmed);
    if split.Err? {
      return Err(split.error);
    }
    var segments := split.value;
    var out: seq<string> := [];
    for i := 0 to |segments|
      invariant |out| == i
      invariant forall j :: 0 <= j < i ==> Mappable(segments[j]) && out[j] == MapSegment(segments[j])
    {
      var segment := segments[i];
      MappableCases(segment);
      if segment == "" {
        out := out + [""];
      } else if !ContainsRegexMeta(segment) {
        out := out + [segment];
      } else if SingleLevelCaptureRegex(segment) {
        out := out + ["+"];
      } else {
        return Err(NotMappable);
      }
    }
    assert out == MapSegments(BodySegments(expr));
    var subscription := Join(out, '/');
    if !ValidSubscription(subscription) {
      return Err(InvalidSubscription);
    }
    return Ok(subscription);
  }

  lemma TrimmedIsBody(expr: string)
    ensures Body(expr) == TrimSuffix(TrimPrefix(TrimSpace(expr), "^"), "$")
  {}

  lemma MappableCases(segment: string)
    ensures Mappable(segment) <==> segment == "" || !ContainsRegexMeta(segment) || SingleLevelCaptureRegex(segment)
  {}
}
