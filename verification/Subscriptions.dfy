/**
 A subscription derived from a regex against the regex itself: which topics the
 regex finds the subscription delivers, and which more it delivers.
 */
module Subscriptions {
  import opened Wrappers
  import opened Text
  import opened Topics
  import opened RegexTopics
  import opened RegexFragment

  // ----- the parts of an accepted expression

  /** White space before the expression proper. */
  function Lead(expr: string): string { expr[..|expr| - |TrimLeft(expr)|] }

  /** White space after it. */
  function Trail(expr: string): string { TrimLeft(expr)[|TrimSpace(expr)|..] }

  predicate StartAnchored(expr: string) { HasPrefix(TrimSpace(expr), "^") }

  predicate EndAnchored(expr: string) { HasSuffix(TrimPrefix(TrimSpace(expr), "^"), "$") }

  /**
   Both anchors are present, or one is cut off from its end of the topic by white space,
   so that the regex finds nothing at all.
   */
  predicate Anchored(expr: string) {
    || (StartAnchored(expr) && EndAnchored(expr))
    || (StartAnchored(expr) && Lead(expr) != "")
    || (EndAnchored(expr) && Trail(expr) != "")
  }

  lemma {:induction false} TrimLeftCuts(s: string)
    ensures |TrimLeft(s)| <= |s| && s[|s| - |TrimLeft(s)|..] == TrimLeft(s)
    ensures Literal(s[..|s| - |TrimLeft(s)|]) && TopicName(s[..|s| - |TrimLeft(s)|])
  {
    if s != "" && IsSpace(s[0]) {
      TrimLeftCuts(s[1..]);
      var n := |s| - |TrimLeft(s)|;
      assert s[..n] == [s[0]] + s[1..][..n - 1];
      SpacesAreLiteral(s[0]);
    } else {
      assert s[..0] == "";
    }
  }

  lemma {:induction false} TrimRightCuts(s: string)
    ensures |TrimRight(s)| <= |s| && s[..|TrimRight(s)|] == TrimRight(s)
    ensures Literal(s[|TrimRight(s)|..]) && TopicName(s[|TrimRight(s)|..])
  {
    if s != "" && IsSpace(s[|s| - 1]) {
      var short := s[..|s| - 1];
      TrimRightCuts(short);
      var n := |TrimRight(s)|;
      assert s[..n] == short[..n];
      assert s[n..] == short[n..] + [s[|s| - 1]];
      SpacesAreLiteral(s[|s| - 1]);
    } else {
      assert s[|s|..] == "";
    }
  }

  lemma SpacesAreLiteral(c: char)
    requires IsSpace(c)
    ensures c !in META && c != '#' && c != '+'
  {}

  function Caret(expr: string): string { if StartAnchored(expr) then "^" else "" }

  function Dollar(expr: string): string { if EndAnchored(expr) then "$" else "" }

  lemma CutPrefix(s: string)
    ensures s == (if HasPrefix(s, "^") then "^" else "") + TrimPrefix(s, "^")
  {}

  lemma CutSuffix(s: string)
    ensures s == TrimSuffix(s, "$") + if HasSuffix(s, "$") then "$" else ""
  {}

  lemma Regroup(a: string, b: string, c: string, d: string)
    ensures a + (b + c) + d == a + (b + (c + d))
  {}

  lemma PartsOf(expr: string)
    ensures expr == Lead(expr) + (Caret(expr) + (Body(expr) + (Dollar(expr) + Trail(expr))))
    ensures Literal(Lead(expr)) && Literal(Trail(expr)) && TopicName(Lead(expr)) && TopicName(Trail(expr))
  {
    hide TrimLeft, TrimRight, Literal, TopicName, TrimPrefix, TrimSuffix, HasPrefix, HasSuffix;
    TrimLeftCuts(expr);
    TrimRightCuts(TrimLeft(expr));
    var s := TrimSpace(expr);
    assert expr == Lead(expr) + TrimLeft(expr);
    assert TrimLeft(expr) == s + Trail(expr);
    CutPrefix(s);
    CutSuffix(TrimPrefix(s, "^"));
    Regroup(Caret(expr), Body(expr), Dollar(expr), Trail(expr));
  }

  // ----- what one segment takes

  predicate SegmentTakes(segment: string, level: string) {
    if Literal(segment) then segment == level
    else CaptureForm(segment).Some? && '/' !in level && CaptureForm(segment).value.1 <= |level|
  }

  /**
   What segments take: one without special characters takes itself, and the forms of a capture
   take any level, the empty one only if they end in a star.
   */
  lemma CapturesTake(segment: string, level: string)
    ensures (forall i :: 0 <= i < |segment| ==> segment[i] !in {'.', '^', '$', '*', '+', '?', '(', ')', '[', ']', '{', '}', '\\', '|'})
       <==> Literal(segment)
    ensures Literal(segment) ==> (SegmentTakes(segment, level) <==> segment == level)
    ensures SingleLevelCaptureRegex(segment)
       <==> segment in {"[^/]+", "[^/]*", "([^/]+)", "([^/]*)", "(?:[^/]+)", "(?:[^/]*)"}
    ensures SingleLevelCaptureRegex(segment) ==>
              (SegmentTakes(segment, level)
               <==> '/' !in level && (level != "" || segment in {"[^/]*", "([^/]*)", "(?:[^/]*)"}))
  {
    forall i | 0 <= i < |segment| {
      MetaCharacters(segment[i]);
    }
    assert segment in {"[^/]+", "[^/]*", "([^/]+)", "([^/]*)", "(?:[^/]+)", "(?:[^/]*)"} ==> SingleLevelCaptureRegex(segment);
    if SingleLevelCaptureRegex(segment) {
      assert segment[0] in META;
      FormsTake();
    }
  }

  lemma FormsTake()
    ensures CaptureForm("[^/]+") == Some((5, 1)) && CaptureForm("[^/]*") == Some((5, 0))
    ensures CaptureForm("([^/]+)") == Some((7, 1)) && CaptureForm("([^/]*)") == Some((7, 0))
    ensures CaptureForm("(?:[^/]+)") == Some((9, 1)) && CaptureForm("(?:[^/]*)") == Some((9, 0))
  {
    assert "[^/]*"[4] != "[^/]+"[4];
    assert "([^/]+)"[0] != "[^/]+"[0] && "([^/]*)"[5] != "([^/]+)"[5];
    assert "(?:[^/]+)"[1] != "([^/]+)"[1] && "(?:[^/]*)"[7] != "(?:[^/]+)"[7];
  }

  predicate SegmentsTake(segs: seq<string>, levels: seq<string>) {
    |segs| == |levels| && forall i :: 0 <= i < |segs| ==> SegmentTakes(segs[i], levels[i])
  }

  lemma FormFillsSegment(segment: string)
    requires SingleLevelCaptureRegex(segment)
    ensures CaptureForm(segment).Some? && CaptureForm(segment).value.0 == |segment|
  {
    assert "[^/]+"[4] == '+' && "([^/]+)"[5] == '+' && "(?:[^/]+)"[7] == '+';
    assert "[^/]+"[0] == '[' && "([^/]+)"[1] == '[' && "(?:[^/]+)"[1] == '?';
    assert segment[0] == '[' ==> segment == "[^/]+" || segment == "[^/]*";
  }

  lemma CaptureParses(segment: string)
    requires SingleLevelCaptureRegex(segment)
    ensures !Literal(segment)
    ensures CaptureForm(segment).Some? && Parse(segment) == Some([Many(CaptureForm(segment).value.1)])
  {
    assert '[' in META && '(' in META && segment[0] in META;
    if segment[0] == '[' {
      assert segment[4] == '+' <==> segment == "[^/]+";
    } else if segment[1] == '[' {
      assert segment[5] == '+' <==> segment == "([^/]+)";
    } else {
      assert segment[7] == '+' <==> segment == "(?:[^/]+)";
    }
    FormFillsSegment(segment);
    ParseOne(segment);
  }

  lemma SegmentRun(segment: string, t: string, i: nat, k: nat)
    requires i <= k <= |t| && Mappable(segment)
    ensures Parse(segment).Some?
    ensures AtomsRun(Parse(segment).value, t, i, k) <==> SegmentTakes(segment, t[i..k])
  {
    if Literal(segment) {
      ParseLiteral(segment);
      RunLiteral(segment, t, i, k);
    } else {
      CaptureParses(segment);
      RunMany(CaptureForm(segment).value.1, t, i, k);
    }
  }

  // ----- what the body takes

  /** Segments the splitter can leave: only captures contain a separator. */
  ghost predicate Regular(segs: seq<string>) {
    segs != [] && AllMappable(segs) && forall i :: 0 <= i < |segs| && Literal(segs[i]) ==> '/' !in segs[i]
  }

  lemma TakesNoSlash(segment: string, level: string)
    requires SegmentTakes(segment, level) && (Literal(segment) ==> '/' !in segment)
    ensures '/' !in level
  {}

  lemma ParseSlash()
    ensures Parse("/") == Some([One('/')])
  {
    assert forall i :: 0 <= i < |META| ==> META[i] != '/';
    assert FirstAtom("/") == Some((1, One('/')));
    ParseOne("/");
  }

  lemma RunSlash(rest: seq<Atom>, t: string, j: nat, k: nat)
    requires j <= k <= |t|
    ensures AtomsRun([One('/')] + rest, t, j, k) <==> j < k && t[j] == '/' && AtomsRun(rest, t, j + 1, k)
  {
    assert ([One('/')] + rest)[1..] == rest;
  }

  lemma JoinOne(segs: seq<string>)
    requires |segs| == 1
    ensures Join(segs, '/') == segs[0]
  {}

  lemma {:induction false} BodyParses(segs: seq<string>)
    requires Regular(segs)
    ensures Parse(Join(segs, '/')).Some?
    ensures Parse(segs[0]).Some?
    ensures |segs| > 1 ==> Parse(Join(segs[1..], '/')).Some?
                           && Parse(Join(segs, '/')).value
                           == Parse(segs[0]).value + ([One('/')] + Parse(Join(segs[1..], '/')).value)
    decreases |segs|
  {
    if |segs| > 1 {
      assert Join(segs, '/') == segs[0] + ("/" + Join(segs[1..], '/'));
      assert Regular(segs[1..]);
    }
    hide Parse, Join, Mappable, Literal;
    SegmentRun(segs[0], "", 0, 0);
    if |segs| > 1 {
      BodyParses(segs[1..]);
      ParseSlash();
      ParseAppend("/", Join(segs[1..], '/'));
      ParseAppend(segs[0], "/" + Join(segs[1..], '/'));
    } else {
      JoinOne(segs);
    }
  }

  /** The body takes exactly the texts whose levels its segments take one by one. */
  lemma {:induction false} BodyRun(segs: seq<string>, t: string, i: nat, k: nat)
    requires Regular(segs) && i <= k <= |t|
    ensures Parse(Join(segs, '/')).Some?
    ensures AtomsRun(Parse(Join(segs, '/')).value, t, i, k) <==> SegmentsTake(segs, Split(t[i..k], '/'))
    decreases |segs|
  {
    hide Parse, SegmentTakes, Split, Mappable, Literal;
    BodyParses(segs);
    if |segs| == 1 {
      BodyRunOne(segs[0], t, i, k);
      assert segs == [segs[0]];
    } else {
      var rest := segs[1..];
      var head, tail := Parse(segs[0]).value, Parse(Join(rest, '/')).value;
      if AtomsRun(Parse(Join(segs, '/')).value, t, i, k) {
        var j := RunCut(head, [One('/')] + tail, t, i, k);
        SegmentRun(segs[0], t, i, j);
        RunSlash(tail, t, j, k);
        BodyRun(rest, t, j + 1, k);
        FirstLevel(segs, t, i, j, k);
      }
      if SegmentsTake(segs, Split(t[i..k], '/')) {
        var j := FindFirstLevel(segs, t, i, k);
        SegmentRun(segs[0], t, i, j);
        BodyRun(rest, t, j + 1, k);
        RunSlash(tail, t, j, k);
        RunJoin(head, [One('/')] + tail, t, i, j, k);
      }
    }
  }

  lemma BodyRunOne(segment: string, t: string, i: nat, k: nat)
    requires Mappable(segment) && (Literal(segment) ==> '/' !in segment) && i <= k <= |t|
    ensures Parse(segment).Some?
    ensures AtomsRun(Parse(segment).value, t, i, k) <==> SegmentsTake([segment], Split(t[i..k], '/'))
  {
    hide Parse, SegmentTakes, Split, Mappable, Literal;
    var u := t[i..k];
    SegmentRun(segment, t, i, k);
    JoinSplit(u, '/');
    if SegmentTakes(segment, u) {
      TakesNoSlash(segment, u);
      SplitWhole(u, '/');
    }
    if |Split(u, '/')| == 1 {
      assert u == Split(u, '/')[0];
    }
  }

  lemma FirstLevel(segs: seq<string>, t: string, i: nat, j: nat, k: nat)
    requires Regular(segs) && |segs| > 1 && i <= j < k <= |t| && t[j] == '/'
    requires SegmentTakes(segs[0], t[i..j]) && SegmentsTake(segs[1..], Split(t[j + 1..k], '/'))
    ensures SegmentsTake(segs, Split(t[i..k], '/'))
  {
    hide SegmentTakes, Split, Mappable, Literal;
    TakesNoSlash(segs[0], t[i..j]);
    SplitFirst(t[i..j], t[j + 1..k], '/');
    assert t[i..k] == t[i..j] + "/" + t[j + 1..k];
    var levels := Split(t[i..k], '/');
    forall n | 0 <= n < |segs| ensures SegmentTakes(segs[n], levels[n]) {
      if n > 0 { assert segs[n] == segs[1..][n - 1] && levels[n] == Split(t[j + 1..k], '/')[n - 1]; }
    }
  }

  lemma FindFirstLevel(segs: seq<string>, t: string, i: nat, k: nat) returns (j: nat)
    requires Regular(segs) && |segs| > 1 && i <= k <= |t| && SegmentsTake(segs, Split(t[i..k], '/'))
    ensures i <= j < k && t[j] == '/'
    ensures SegmentTakes(segs[0], t[i..j]) && SegmentsTake(segs[1..], Split(t[j + 1..k], '/'))
  {
    hide SegmentTakes, Split, Mappable, Literal;
    var levels := Split(t[i..k], '/');
    JoinSplit(t[i..k], '/');
    assert t[i..k] == levels[0] + "/" + Join(levels[1..], '/');
    j := i + |levels[0]|;
    assert t[i..k][|levels[0]|] == '/';
    assert t[i..j] == t[i..k][..|levels[0]|] == levels[0];
    assert t[j + 1..k] == t[i..k][|levels[0]| + 1..] == Join(levels[1..], '/');
    SplitJoin(levels[1..], '/');
  }

  // ----- the segments of an accepted body

  predicate Wrapped(segment: string) { Literal(segment) ==> '/' !in segment }

  ghost predicate AllWrapped(s: Scan, segs: seq<string>) {
    forall i :: 0 <= i < |segs| && (i > 0 || s == START) ==> Wrapped(segs[i])
  }

  /** A separator stays in a segment only escaped or in a class, and both leave a mark in that segment. */
  lemma {:induction false} SegmentsWrapped(s: Scan, expr: string)
    ensures AllWrapped(s, Segments(s, expr))
    decreases |expr|
  {
    if expr != "" {
      var next := s.Step(expr[0]);
      SegmentsWrapped(next, expr[1..]);
      var rest, segs := Segments(next, expr[1..]), Segments(s, expr);
      if s == START && expr[0] != '/' {
        if next == START {
          assert Wrapped(rest[0]);
          WrappedPrepend(expr[0], rest[0]);
        } else {
          assert expr[0] == '\\' || expr[0] == '[';
          assert segs[0][0] == expr[0];
          MarksAreMeta();
        }
      }
      forall i | 0 < i < |segs| ensures Wrapped(segs[i]) {
        if s.Cuts(expr[0]) { assert segs[i] == rest[i - 1]; } else { assert segs[i] == rest[i]; }
      }
    }
  }

  lemma MarksAreMeta()
    ensures '\\' in META && '[' in META
  {
    assert META[12] == '\\' && META[8] == '[';
  }

  lemma WrappedPrepend(c: char, segment: string)
    requires Wrapped(segment) && c != '/'
    ensures Wrapped([c] + segment)
  {
    if !Literal(segment) {
      var i :| 0 <= i < |segment| && segment[i] in META;
      assert ([c] + segment)[i + 1] in META;
    }
  }

  lemma AcceptedIsRegular(expr: string)
    requires Accepted(expr)
    ensures Regular(BodySegments(expr)) && Join(BodySegments(expr), '/') == Body(expr)
  {
    SegmentsWrapped(START, Body(expr));
    SegmentsJoin(START, Body(expr));
  }

  lemma DerivedLevels(segs: seq<string>)
    requires Regular(segs)
    ensures Split(Join(MapSegments(segs), '/'), '/') == MapSegments(segs)
  {
    SplitJoin(MapSegments(segs), '/');
  }

  // ----- what an unanchored search for the whole expression finds

  /** The text from i to k is where an accepted expression can put its body. */
  predicate Placed(expr: string, t: string, i: nat, k: nat)
    requires i <= k <= |t|
  {
    && HasSuffix(t[..i], Lead(expr)) && (StartAnchored(expr) ==> i == 0)
    && HasPrefix(t[k..], Trail(expr)) && (EndAnchored(expr) ==> k == |t|)
  }

  function AtomsBefore(expr: string): seq<Atom> { Ones(Lead(expr)) + if StartAnchored(expr) then [Begin] else [] }

  function AtomsBehind(expr: string): seq<Atom> { (if EndAnchored(expr) then [End] else []) + Ones(Trail(expr)) }

  lemma ParseAnchors()
    ensures Parse("^") == Some([Begin]) && Parse("$") == Some([End])
  {
    assert FirstAtom("^") == Some((1, Begin)) && FirstAtom("$") == Some((1, End));
    ParseOne("^");
    ParseOne("$");
  }

  lemma ParseFive(a: string, b: string, c: string, d: string, e: string)
    requires Parse(a).Some? && Parse(b).Some? && Parse(c).Some? && Parse(d).Some? && Parse(e).Some?
    ensures Parse(a + (b + (c + (d + e))))
         == Some((Parse(a).value + Parse(b).value) + (Parse(c).value + (Parse(d).value + Parse(e).value)))
  {
    hide Parse;
    ParseAppend(d, e);
    ParseAppend(c, d + e);
    ParseAppend(b, c + (d + e));
    ParseAppend(a, b + (c + (d + e)));
    var p, q, r := Parse(a).value, Parse(b).value, Parse(c + (d + e)).value;
    assert p + (q + r) == (p + q) + r;
  }

  lemma WholeParses(expr: string)
    requires Accepted(expr)
    ensures Parse(Body(expr)).Some?
    ensures Parse(expr) == Some(AtomsBefore(expr) + (Parse(Body(expr)).value + AtomsBehind(expr)))
  {
    assert Parse("") == Some([]);
    hide Parse, Ones, Lead, Trail, Body, StartAnchored, EndAnchored, Accepted;
    AcceptedIsRegular(expr);
    BodyParses(BodySegments(expr));
    PartsOf(expr);
    ParseLiteral(Lead(expr));
    ParseLiteral(Trail(expr));
    ParseAnchors();
    ParseFive(Lead(expr), Caret(expr), Body(expr), Dollar(expr), Trail(expr));
  }

  lemma RunBefore(expr: string, t: string, l: nat, i: nat)
    requires l <= i <= |t|
    ensures AtomsRun(AtomsBefore(expr), t, l, i) <==> t[l..i] == Lead(expr) && (StartAnchored(expr) ==> i == 0)
  {
    var lead := Lead(expr);
    RunLiteral(lead, t, l, i);
    if StartAnchored(expr) {
      RunAnchor(Ones(lead), t, l, i);
    } else {
      assert Ones(lead) + [] == Ones(lead);
    }
  }

  lemma RunAnchor(a: seq<Atom>, t: string, i: nat, k: nat)
    requires i <= k <= |t|
    ensures AtomsRun(a + [Begin], t, i, k) <==> AtomsRun(a, t, i, k) && k == 0
    ensures AtomsRun([End] + a, t, i, k) <==> AtomsRun(a, t, i, k) && i == |t|
  {
    if AtomsRun(a + [Begin], t, i, k) {
      var j := RunCut(a, [Begin], t, i, k);
      assert [Begin][1..] == [];
    }
    if AtomsRun(a, t, i, k) && k == 0 {
      assert [Begin][1..] == [];
      RunJoin(a, [Begin], t, i, k, k);
    }
    assert ([End] + a)[1..] == a;
  }

  lemma RunBehind(expr: string, t: string, k: nat, r: nat)
    requires k <= r <= |t|
    ensures AtomsRun(AtomsBehind(expr), t, k, r) <==> t[k..r] == Trail(expr) && (EndAnchored(expr) ==> k == |t|)
  {
    var trail := Trail(expr);
    RunLiteral(trail, t, k, r);
    if EndAnchored(expr) {
      RunAnchor(Ones(trail), t, k, r);
    } else {
      assert [] + Ones(trail) == Ones(trail);
    }
  }

  ghost predicate BodyAt(expr: string, t: string, i: nat, k: nat)
    requires i <= k <= |t|
  {
    Placed(expr, t, i, k) && SegmentsTake(BodySegments(expr), Split(t[i..k], '/'))
  }

  lemma RunThree(a: seq<Atom>, b: seq<Atom>, c: seq<Atom>, t: string, l: nat, i: nat, k: nat, r: nat)
    requires l <= i <= k <= r <= |t| && AtomsRun(a, t, l, i) && AtomsRun(b, t, i, k) && AtomsRun(c, t, k, r)
    ensures AtomsRun(a + (b + c), t, l, r)
  {
    RunJoin(b, c, t, i, k, r);
    RunJoin(a, b + c, t, l, i, r);
  }

  lemma RunsOfThree(a: seq<Atom>, b: seq<Atom>, c: seq<Atom>, t: string, l: nat, r: nat) returns (i: nat, k: nat)
    requires l <= r <= |t| && AtomsRun(a + (b + c), t, l, r)
    ensures l <= i <= k <= r && AtomsRun(a, t, l, i) && AtomsRun(b, t, i, k) && AtomsRun(c, t, k, r)
  {
    i := RunCut(a, b + c, t, l, r);
    k := RunCut(b, c, t, i, r);
  }

  lemma PlacedRuns(expr: string, t: string, l: nat, i: nat, k: nat, r: nat)
    requires l <= i <= k <= r <= |t| && AtomsRun(AtomsBefore(expr), t, l, i) && AtomsRun(AtomsBehind(expr), t, k, r)
    ensures Placed(expr, t, i, k)
  {
    RunBefore(expr, t, l, i);
    RunBehind(expr, t, k, r);
    assert t[..i][l..] == t[l..i] && t[k..][..r - k] == t[k..r];
  }

  lemma PlacedIsRun(expr: string, t: string, i: nat, k: nat) returns (l: nat, r: nat)
    requires i <= k <= |t| && Placed(expr, t, i, k)
    ensures l <= i <= k <= r <= |t| && AtomsRun(AtomsBefore(expr), t, l, i) && AtomsRun(AtomsBehind(expr), t, k, r)
  {
    l, r := i - |Lead(expr)|, k + |Trail(expr)|;
    RunBefore(expr, t, l, i);
    RunBehind(expr, t, k, r);
    assert t[l..i] == t[..i][l..] && t[k..r] == t[k..][..r - k];
  }

  lemma FindsStretch(expr: string, t: string)
    requires Accepted(expr) && Parse(Body(expr)).Some?
    requires Parse(expr) == Some(AtomsBefore(expr) + (Parse(Body(expr)).value + AtomsBehind(expr)))
    ensures Finds(expr, t) <==> exists i, k :: 0 <= i <= k <= |t| && Placed(expr, t, i, k) && AtomsRun(Parse(Body(expr)).value, t, i, k)
  {
    hide Parse, Body, Accepted, AtomsBefore, AtomsBehind, Placed;
    var a, b, c := AtomsBefore(expr), Parse(Body(expr)).value, AtomsBehind(expr);
    if Finds(expr, t) {
      var l, r :| 0 <= l <= r <= |t| && AtomsRun(a + (b + c), t, l, r);
      var i, k := RunsOfThree(a, b, c, t, l, r);
      PlacedRuns(expr, t, l, i, k, r);
    }
    if i, k :| 0 <= i <= k <= |t| && Placed(expr, t, i, k) && AtomsRun(b, t, i, k) {
      var l, r := PlacedIsRun(expr, t, i, k);
      RunThree(a, b, c, t, l, i, k, r);
    }
  }

  /** The regex finds the topics with a stretch for its body, between white space and anchors. */
  lemma FindsMeaning(expr: string, t: string)
    requires Accepted(expr)
    ensures Finds(expr, t) <==> exists i, k :: 0 <= i <= k <= |t| && BodyAt(expr, t, i, k)
  {
    hide Finds, Parse, Body, Placed, Accepted, SegmentsTake, Split, AtomsBefore, AtomsBehind;
    WholeParses(expr);
    AcceptedIsRegular(expr);
    FindsStretch(expr, t);
    forall i, k | 0 <= i <= k <= |t| ensures BodyAt(expr, t, i, k) <==> Placed(expr, t, i, k) && AtomsRun(Parse(Body(expr)).value, t, i, k) {
      BodyRun(BodySegments(expr), t, i, k);
    }
  }

  // ----- when the derived subscription is a well-formed filter

  function Start(parts: seq<string>, j: nat): nat
    requires j < |parts|
  {
    if j == 0 then 0 else |parts[0]| + 1 + Start(parts[1..], j - 1)
  }

  /** s has part p at i; nothing follows it exactly if it is the last one, and a separator precedes it unless it is the first. */
  predicate StandsAt(s: string, i: nat, p: string, isLast: bool, isFirst: bool) {
    && i + |p| <= |s| && s[i..i + |p|] == p
    && (isLast <==> i + |p| == |s|)
    && (!isFirst ==> i > 0 && s[i - 1] == '/')
  }

  lemma StandsAfter(head: string, rest: string, i: nat, p: string, isLast: bool, isFirst: bool)
    requires StandsAt(rest, i, p, isLast, isFirst) && (isFirst ==> i == 0)
    ensures StandsAt(head + "/" + rest, |head| + 1 + i, p, isLast, false)
  {
    var s, n := head + "/" + rest, |head| + 1;
    assert s[n..] == rest;
    assert s[n + i..n + i + |p|] == s[n..][i..i + |p|];
    assert i > 0 ==> s[n + i - 1] == rest[i - 1];
  }

  /** Where part j stands in the joined string. */
  lemma {:induction false} PartInJoin(parts: seq<string>, j: nat)
    requires j < |parts|
    ensures StandsAt(Join(parts, '/'), Start(parts, j), parts[j], j == |parts| - 1, j == 0)
    decreases |parts|
  {
    if |parts| > 1 {
      hide StandsAt;
      if j > 0 {
        PartInJoin(parts[1..], j - 1);
        StandsAfter(parts[0], Join(parts[1..], '/'), Start(parts[1..], j - 1), parts[j], j == |parts| - 1, j == 1);
      } else {
        StandsFirst(parts[0], Join(parts[1..], '/'));
      }
    }
  }

  lemma StandsFirst(head: string, rest: string)
    ensures StandsAt(head + "/" + rest, 0, head, false, true)
  {}

  lemma {:induction false} CountIn(s: string, c: char, i: nat)
    requires i <= |s|
    ensures Count(s, c) == Count(s[..i], c) + Count(s[i..], c)
    ensures i < |s| && s[i] == c ==> Count(s[i..], c) >= 1
    decreases i
  {
    if i == 0 {
      assert s[..0] == "" && s[0..] == s;
    } else {
      CountIn(s[1..], c, i - 1);
      assert s[..i][1..] == s[1..][..i - 1] && s[1..][i - 1..] == s[i..];
    }
  }

  lemma OnlyHashIsLast(topic: string, i: nat)
    requires ValidSubscription(topic) && i < |topic| && topic[i] == '#'
    ensures i == |topic| - 1
  {
    var n := |topic| - 1;
    assert topic[i] in topic;
    assert topic[n] == '#' by { assert topic[n..] == "#"; }
    CountIn(topic, '#', i + 1);
    CountIn(topic[..i + 1], '#', i);
    if i < n {
      CountIn(topic[i + 1..], '#', n - i - 1);
    }
  }

  lemma MappedLevelOk(segment: string, last: bool)
    requires Mappable(segment)
    ensures '#' !in MapSegment(segment) ==> LevelOk(MapSegment(segment), last)
    ensures MapSegment(segment) == "#" <==> segment == "#"
    ensures '#' in MapSegment(segment) ==> (LevelOk(MapSegment(segment), last) <==> segment == "#" && last)
  {
    assert META[4] == '+' && forall i :: 0 <= i < |META| ==> META[i] != '#';
    if Literal(segment) {
      assert '+' !in segment;
    }
    if segment == "#" {
      assert Literal(segment);
    }
  }

  lemma LastHash(segs: seq<string>, filter: string)
    requires Regular(segs) && filter == Join(MapSegments(segs), '/') && ValidSubscription(filter)
    ensures var last := MapSegments(segs)[|segs| - 1]; '#' in last <==> '#' in filter
  {
    var pattern, n := MapSegments(segs), |segs| - 1;
    PartInJoin(pattern, n);
    var i := Start(pattern, n);
    assert filter[i..] == pattern[n];
    if '#' in filter {
      assert filter[|filter| - 1] == '#' by { assert filter[|filter| - 1..] == "#"; }
      assert pattern[n] != "";
      assert pattern[n][|pattern[n]| - 1] == filter[i..][|pattern[n]| - 1];
    }
    assert forall c :: c in filter[i..] ==> c in filter;
  }

  lemma LevelsOkIff(segs: seq<string>, filter: string)
    requires Regular(segs) && filter == Join(MapSegments(segs), '/') && ValidSubscription(filter)
    ensures LevelsOk(MapSegments(segs)) <==> '#' !in filter || segs[|segs| - 1] == "#"
  {
    hide ValidSubscription, Literal, MapSegment, LevelOk;
    var pattern, n := MapSegments(segs), |segs| - 1;
    forall j | 0 <= j < n ensures LevelOk(pattern[j], false) {
      NoHashBeforeLast(filter, pattern, j);
      MappedLevelOk(segs[j], false);
    }
    LastHash(segs, filter);
    MappedLevelOk(segs[n], true);
    assert LevelsOk(pattern) <==> LevelOk(pattern[n], true) by {
      if LevelsOk(pattern) { assert LevelOk(pattern[n], n == |pattern| - 1); }
    }
  }

  lemma AcceptedDerives(expr: string)
    requires Accepted(expr)
    ensures Regular(BodySegments(expr)) && ValidSubscription(Derived(expr))
    ensures Derived(expr) == Join(MapSegments(BodySegments(expr)), '/')
  {
    AcceptedIsRegular(expr);
  }

  /** It is one exactly if no literal has a # in it, except for a last segment that is nothing else. */
  lemma DerivedIsWellFormedIff(expr: string)
    requires Accepted(expr)
    ensures var segs := BodySegments(expr);
            WellPlaced(Derived(expr)) <==> '#' !in Derived(expr) || segs[|segs| - 1] == "#"
  {
    hide *;
    AcceptedDerives(expr);
    LevelsOkIff(BodySegments(expr), Derived(expr));
    DerivedLevels(BodySegments(expr));
    FilterLevels(Derived(expr));
  }

  lemma NoHashBeforeLast(filter: string, pattern: seq<string>, j: nat)
    requires pattern != [] && filter == Join(pattern, '/') && ValidSubscription(filter) && j < |pattern| - 1
    ensures '#' !in pattern[j]
  {
    hide ValidSubscription;
    PartInJoin(pattern, j);
    var i := Start(pattern, j);
    forall x | 0 <= x < |pattern[j]| ensures pattern[j][x] != '#' {
      assert filter[i..i + |pattern[j]|][x] == filter[i + x];
      if filter[i + x] == '#' {
        OnlyHashIsLast(filter, i + x);
      }
    }
  }

  // ----- the regex against the subscription

  predicate AsksForSome(segment: string) {
    !Literal(segment) && CaptureForm(segment) != None && CaptureForm(segment).value.1 == 1
  }

  lemma PlusIsNoLiteral()
    ensures !Literal("+")
  {
    assert META[4] == '+' && "+"[0] == '+';
  }

  lemma TakesAgainstMatches(segment: string, level: string)
    requires Mappable(segment) && '/' !in level
    ensures SegmentTakes(segment, level) <==> LevelMatches(MapSegment(segment), level) && (AsksForSome(segment) ==> level != "")
  {
    PlusIsNoLiteral();
    if !Literal(segment) {
      CaptureParses(segment);
    }
  }

  lemma TakesImpliesMatch(segs: seq<string>, levels: seq<string>)
    requires Regular(segs) && Slashless(levels) && SegmentsTake(segs, levels)
    ensures LevelsMatch(MapSegments(segs), levels)
  {
    forall i | 0 <= i < |segs| ensures LevelMatches(MapSegments(segs)[i], levels[i]) {
      TakesAgainstMatches(segs[i], levels[i]);
    }
  }

  lemma PlacedWhole(expr: string, t: string, i: nat, k: nat)
    requires i <= k <= |t| && Placed(expr, t, i, k) && Anchored(expr)
    ensures i == 0 && k == |t|
  {
    hide StartAnchored, EndAnchored, Lead, Trail;
  }

  lemma TakesDelivered(segs: seq<string>, t: string)
    requires Regular(segs) && WellPlaced(Join(MapSegments(segs), '/')) && SegmentsTake(segs, Split(t, '/'))
    ensures Matches(Join(MapSegments(segs), '/'), t)
  {
    hide SegmentTakes, Split, WellPlaced, MapSegment, LevelsMatch, Literal, Mappable, Matches;
    JoinSplit(t, '/');
    TakesImpliesMatch(segs, Split(t, '/'));
    DerivedLevels(segs);
    LevelsMatchIsMatches(Join(MapSegments(segs), '/'), t);
  }

  /** An anchored regex loses nothing: whatever it finds, a broker that accepts the subscription delivers. */
  lemma NothingIsLost(expr: string, t: string)
    requires Accepted(expr) && Anchored(expr) && WellPlaced(Derived(expr)) && Finds(expr, t)
    ensures Matches(Derived(expr), t)
  {
    FindsMeaning(expr, t);
    AcceptedIsRegular(expr);
    hide Accepted, Anchored, Finds, Placed, Split, Matches, WellPlaced, SegmentsTake, Body, Regular, MapSegments;
    var i, k :| 0 <= i <= k <= |t| && BodyAt(expr, t, i, k);
    PlacedWhole(expr, t, i, k);
    assert t[0..|t|] == t;
    TakesDelivered(BodySegments(expr), t);
  }

  /** Every message whose topic the regex finds is delivered. */
  ghost predicate LosesNothing(expr: string) {
    forall t :: TopicName(t) && Finds(expr, t) ==> Matches(Derived(expr), t)
  }

  lemma HashOfSegment(segment: string)
    ensures '#' in MapSegment(segment) ==> Literal(segment) && MapSegment(segment) == segment
  {}

  lemma HashInLast(segs: seq<string>, filter: string)
    requires Regular(segs) && filter == Join(MapSegments(segs), '/') && ValidSubscription(filter) && '#' in filter
    ensures Literal(segs[|segs| - 1]) && '#' in segs[|segs| - 1]
  {
    hide MapSegment, ValidSubscription, Literal, Join;
    LastHash(segs, filter);
    HashOfSegment(segs[|segs| - 1]);
  }

  lemma NoHashTaken(segs: seq<string>, levels: seq<string>)
    requires segs != [] && Literal(segs[|segs| - 1]) && '#' in segs[|segs| - 1]
    requires forall i :: 0 <= i < |levels| ==> '#' !in levels[i]
    ensures !SegmentsTake(segs, levels)
  {
    if |segs| == |levels| {
      var n := |segs| - 1;
      assert segs[n] != levels[n] by { assert '#' !in levels[n]; }
      assert !SegmentTakes(segs[n], levels[n]);
    }
  }

  /** A # in a literal is asked for in the topic, which cannot have one: such a route takes no message at all. */
  lemma HashFindsNothing(expr: string, t: string)
    requires Accepted(expr) && '#' in Derived(expr) && TopicName(t)
    ensures !Finds(expr, t)
  {
    assert '#' !in t;
    hide *;
    FindsMeaning(expr, t);
    AcceptedDerives(expr);
    HashInLast(BodySegments(expr), Derived(expr));
    forall i, k | 0 <= i <= k <= |t| ensures !BodyAt(expr, t, i, k) {
      StretchHasNoHash(expr, t, i, k);
    }
  }

  lemma StretchHasNoHash(expr: string, t: string, i: nat, k: nat)
    requires Accepted(expr) && '#' !in t && i <= k <= |t|
    requires Literal(BodySegments(expr)[|BodySegments(expr)| - 1]) && '#' in BodySegments(expr)[|BodySegments(expr)| - 1]
    ensures !BodyAt(expr, t, i, k)
  {
    hide Accepted, Placed, Split, BodySegments, Literal, SegmentsTake;
    assert forall c :: c in t[i..k] ==> c in t;
    SplitCharacter(t[i..k], '/', '#');
    NoHashTaken(BodySegments(expr), Split(t[i..k], '/'));
  }

  lemma NoHashMatch(pattern: seq<string>, levels: seq<string>)
    requires pattern != [] && pattern[|pattern| - 1] != "#"
    ensures LevelsMatch(pattern, levels) <==>
            |levels| == |pattern| && forall i :: 0 <= i < |pattern| ==> LevelMatches(pattern[i], levels[i])
  {
    hide LevelMatches;
  }

  /** Without # the levels of a topic the filter matches are as many as the segments. */
  lemma NoHashMatches(segs: seq<string>, filter: string, t: string)
    requires Regular(segs) && filter == Join(MapSegments(segs), '/') && ValidSubscription(filter) && '#' !in filter
    ensures var levels := Split(t, '/');
            Matches(filter, t) <==>
            |levels| == |segs| && forall i :: 0 <= i < |segs| ==> LevelMatches(MapSegment(segs[i]), levels[i])
  {
    hide ValidSubscription, Literal, MapSegment, LevelsMatch, LevelMatches, LevelsOk, Split, WellPlaced, Matches, Mappable;
    var pattern := MapSegments(segs);
    LastHash(segs, filter);
    assert pattern[|segs| - 1] != "#" by {
      assert "#"[0] == '#';
    }
    LevelsOkIff(segs, filter);
    DerivedLevels(segs);
    FilterLevels(filter);
    LevelsMatchIsMatches(filter, t);
    NoHashMatch(pattern, Split(t, '/'));
    assert forall i :: 0 <= i < |segs| ==> pattern[i] == MapSegment(segs[i]);
  }

  lemma AnchoredFinds(expr: string, t: string)
    requires Accepted(expr)
    requires StartAnchored(expr) && EndAnchored(expr) && Lead(expr) == "" && Trail(expr) == ""
    ensures Finds(expr, t) <==> SegmentsTake(BodySegments(expr), Split(t, '/'))
  {
    FindsMeaning(expr, t);
    assert t[0..|t|] == t && t[..0] == "" && t[|t|..] == "";
    hide Accepted, Finds, StartAnchored, EndAnchored, Lead, Trail, Split, SegmentsTake;
    if SegmentsTake(BodySegments(expr), Split(t, '/')) {
      assert BodyAt(expr, t, 0, |t|);
    }
  }

  lemma TakesAgainstLevels(segs: seq<string>, levels: seq<string>)
    requires AllMappable(segs) && Slashless(levels) && |segs| == |levels|
    ensures SegmentsTake(segs, levels) <==>
            && (forall i :: 0 <= i < |segs| ==> LevelMatches(MapSegment(segs[i]), levels[i]))
            && (forall i :: 0 <= i < |segs| && AsksForSome(segs[i]) ==> levels[i] != "")
  {
    hide SegmentTakes, LevelMatches, MapSegment, AsksForSome, Mappable;
    forall i | 0 <= i < |segs|
      ensures SegmentTakes(segs[i], levels[i])
           <==> (LevelMatches(MapSegment(segs[i]), levels[i]) && (AsksForSome(segs[i]) ==> levels[i] != ""))
    {
      TakesAgainstMatches(segs[i], levels[i]);
    }
  }

  lemma TakesAgainstFilter(segs: seq<string>, filter: string, t: string)
    requires Regular(segs) && filter == Join(MapSegments(segs), '/') && ValidSubscription(filter) && '#' !in filter
    ensures var levels := Split(t, '/');
            SegmentsTake(segs, levels) <==> (Matches(filter, t)
            && forall i :: 0 <= i < |segs| && i < |levels| && AsksForSome(segs[i]) ==> levels[i] != "")
  {
    hide ValidSubscription, Literal, Mappable, MapSegment, LevelMatches, Split, Matches, AsksForSome, SegmentTakes;
    JoinSplit(t, '/');
    NoHashMatches(segs, filter, t);
    if |segs| == |Split(t, '/')| {
      TakesAgainstLevels(segs, Split(t, '/'));
    }
  }

  /** With both anchors and no #, the two differ exactly on empty levels where the regex asks for a character. */
  lemma ExactDifference(expr: string, t: string)
    requires Accepted(expr) && '#' !in Derived(expr)
    requires StartAnchored(expr) && EndAnchored(expr) && Lead(expr) == "" && Trail(expr) == ""
    ensures var segs, levels := BodySegments(expr), Split(t, '/');
            Finds(expr, t) <==> (Matches(Derived(expr), t)
            && forall i :: 0 <= i < |segs| && i < |levels| && AsksForSome(segs[i]) ==> levels[i] != "")
  {
    AnchoredFinds(expr, t);
    AcceptedIsRegular(expr);
    hide ValidSubscription, Finds, Split, Matches, AsksForSome, StartAnchored, EndAnchored, Lead, Trail, Body;
    hide SegmentsTake, Regular, MapSegments;
    TakesAgainstFilter(BodySegments(expr), Derived(expr), t);
  }

  // ----- anchors are needed

  lemma {:induction false} CountAppend(a: string, b: string, c: char)
    ensures Count(a + b, c) == Count(a, c) + Count(b, c)
  {
    CountIn(a + b, c, |a|);
    assert (a + b)[..|a|] == a && (a + b)[|a|..] == b;
  }

  lemma {:induction false} LevelsAreSeparators(s: string)
    ensures |Split(s, '/')| == Count(s, '/') + 1
    decreases |s|
  {
    if s != "" { LevelsAreSeparators(s[1..]); }
  }

  function Witness(segment: string): string { if Literal(segment) then segment else "x" }

  function Witnesses(segs: seq<string>): (levels: seq<string>)
    ensures |levels| == |segs|
  {
    seq(|segs|, i requires 0 <= i < |segs| => Witness(segs[i]))
  }

  lemma WitnessTaken(segment: string)
    requires Mappable(segment) && (Literal(segment) ==> '/' !in segment)
    ensures SegmentTakes(segment, Witness(segment)) && '/' !in Witness(segment)
    ensures '#' !in segment ==> TopicName(Witness(segment))
    ensures !Literal(segment) ==> TopicName(Witness(segment))
  {
    assert META[4] == '+';
    if !Literal(segment) { CaptureParses(segment); }
  }

  lemma LiteralsHaveNoHash(segs: seq<string>, filter: string, i: nat)
    requires Regular(segs) && filter == Join(MapSegments(segs), '/') && '#' !in filter && i < |segs| && Literal(segs[i])
    ensures '#' !in segs[i]
  {
    PartInJoin(MapSegments(segs), i);
    var at := Start(MapSegments(segs), i);
    assert MapSegments(segs)[i] == segs[i];
    assert forall c :: c in filter[at..at + |segs[i]|] ==> c in filter;
  }

  /** Some topic name is taken by the segments. */
  lemma BodyIsTaken(segs: seq<string>, filter: string) returns (w: string)
    requires Regular(segs) && filter == Join(MapSegments(segs), '/') && '#' !in filter
    ensures SegmentsTake(segs, Split(w, '/')) && Count(w, '/') == |segs| - 1 && TopicName(w)
  {
    hide SegmentTakes, Split, Literal, TopicName, MapSegment;
    var levels := Witnesses(segs);
    w := Join(levels, '/');
    forall i | 0 <= i < |segs| ensures SegmentTakes(segs[i], levels[i]) && '/' !in levels[i] && TopicName(levels[i]) {
      WitnessTaken(segs[i]);
      if Literal(segs[i]) { LiteralsHaveNoHash(segs, filter, i); }
    }
    SplitJoin(levels, '/');
    LevelsAreSeparators(w);
    JoinedName(levels);
  }

  lemma JoinedName(levels: seq<string>)
    requires forall i :: 0 <= i < |levels| ==> TopicName(levels[i])
    ensures TopicName(Join(levels, '/'))
  {
    JoinCharacter(levels, '/', '#');
    JoinCharacter(levels, '/', '+');
  }

  /** A text between others, at least one of which has a separator. */
  lemma Surrounded(a: string, b: string, w: string, c: string, d: string)
    requires TopicName(a) && TopicName(b) && TopicName(w) && TopicName(c) && TopicName(d) && Count(a, '/') + Count(d, '/') > 0
    ensures var t := a + b + w + (c + d); TopicName(t) && Count(t, '/') > Count(w, '/')
  {
    hide Count;
    CountAppend(a, b, '/');
    CountAppend(a + b, w, '/');
    CountAppend(c, d, '/');
    CountAppend(a + b + w, c + d, '/');
  }

  lemma Placement(a: string, b: string, w: string, c: string, d: string)
    ensures var t, i, k := a + b + w + (c + d), |a + b|, |a + b| + |w|;
            && i <= k <= |t| && t[..i] == a + b && t[i..k] == w && t[k..] == c + d
            && HasSuffix(a + b, b) && HasPrefix(c + d, c)
  {}

  lemma FoundSurrounded(expr: string, a: string, w: string, d: string) returns (t: string)
    requires Accepted(expr) && SegmentsTake(BodySegments(expr), Split(w, '/'))
    requires StartAnchored(expr) ==> a == "" && Lead(expr) == ""
    requires EndAnchored(expr) ==> d == "" && Trail(expr) == ""
    ensures Finds(expr, t) && t == a + Lead(expr) + w + (Trail(expr) + d)
  {
    hide Accepted, Finds, StartAnchored, EndAnchored, Lead, Trail, Split, SegmentsTake, BodySegments, HasPrefix, HasSuffix;
    t := a + Lead(expr) + w + (Trail(expr) + d);
    Placement(a, Lead(expr), w, Trail(expr), d);
    var i, k := |a + Lead(expr)|, |a + Lead(expr)| + |w|;
    assert BodyAt(expr, t, i, k);
    FindsMeaning(expr, t);
  }

  /** Without anchors the regex finds its body with something before or behind it. */
  lemma LostTopic(expr: string) returns (t: string)
    requires Accepted(expr) && !Anchored(expr) && '#' !in Derived(expr)
    ensures Finds(expr, t) && |Split(t, '/')| > |BodySegments(expr)| && TopicName(t)
  {
    NotAnchored(expr);
    OneSeparator();
    hide *;
    AcceptedDerives(expr);
    PartsOf(expr);
    var w := BodyIsTaken(BodySegments(expr), Derived(expr));
    var a, d := if StartAnchored(expr) then "" else "x/", if StartAnchored(expr) then "/x" else "";
    t := FoundSurrounded(expr, a, w, d);
    Surrounded(a, Lead(expr), w, Trail(expr), d);
    LevelsAreSeparators(t);
  }

  lemma NotAnchored(expr: string)
    requires !Anchored(expr)
    ensures StartAnchored(expr) ==> Lead(expr) == "" && !EndAnchored(expr)
    ensures EndAnchored(expr) ==> Trail(expr) == "" && !StartAnchored(expr)
  {}

  lemma OneSeparator()
    ensures Count("x/", '/') == 1 && Count("/x", '/') == 1 && Count("", '/') == 0
    ensures TopicName("x/") && TopicName("/x") && TopicName("")
  {
    assert "x/"[1..] == "/" && "/"[1..] == "" && "/x"[1..] == "x" && "x"[1..] == "";
  }

  /**
   Anchors are what makes a derived subscription safe: it loses no message if and only if
   the regex is anchored, or has a # in a literal, so that it takes no message at all.
   */
  lemma LosesNothingIffAnchored(expr: string)
    requires Accepted(expr)
    ensures LosesNothing(expr) <==> Anchored(expr) || '#' in Derived(expr)
  {
    DerivedIsWellFormedIff(expr);
    AcceptedDerives(expr);
    hide Accepted, Anchored, Finds, Matches, Derived, WellPlaced, Split, BodySegments, Regular, ValidSubscription, TopicName;
    if '#' in Derived(expr) {
      forall t | TopicName(t) ensures !Finds(expr, t) {
        HashFindsNothing(expr, t);
      }
    } else if Anchored(expr) {
      forall t | Finds(expr, t) ensures Matches(Derived(expr), t) {
        NothingIsLost(expr, t);
      }
    } else {
      var t := LostTopic(expr);
      NoHashMatches(BodySegments(expr), Derived(expr), t);
    }
  }
}
