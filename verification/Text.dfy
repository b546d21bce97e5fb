/** The string functions the policy and topic code is written with. */
module Text {

  predicate HasPrefix(s: string, p: string) { p <= s }

  predicate HasSuffix(s: string, p: string) {
    |p| <= |s| && s[|s| - |p|..] == p
  }

  /** The position of the first occurrence of part in s, or -1. */
  function Index(s: string, part: string): int
    decreases |s|
  {
    if part <= s then 0
    else if s == [] then -1
    else
      var i := Index(s[1..], part);
      if i < 0 then -1 else i + 1
  }

  lemma {:induction false} IndexFits(s: string, part: string)
    ensures -1 <= Index(s, part) <= |s|
    ensures Index(s, part) >= 0 ==> Index(s, part) + |part| <= |s| && part <= s[Index(s, part)..]
    decreases |s|
  {
    if part <= s {
      assert s[0..] == s;
    } else if s != [] {
      IndexFits(s[1..], part);
    }
  }

  lemma {:induction false} IndexNotPast(s: string, part: string, k: nat)
    requires k <= |s| && part <= s[k..]
    ensures 0 <= Index(s, part) <= k
    decreases |s|
  {
    if !(part <= s) {
      assert s[0..] == s;
      assert s[k..] == s[1..][k - 1..];
      IndexNotPast(s[1..], part, k - 1);
    }
  }

  /** How often a character occurs. */
  function Count(s: string, c: char): nat {
    if s == "" then 0 else (if s[0] == c then 1 else 0) + Count(s[1..], c)
  }

  lemma {:induction false} CountNone(s: string, c: char)
    ensures Count(s, c) == 0 <==> c !in s
    decreases |s|
  {
    if s != "" { CountNone(s[1..], c); }
  }

  /** c is the last character and no other. */
  predicate OnlyLast(s: string, c: char) {
    s != "" && forall i :: 0 <= i < |s| ==> (s[i] == c <==> i == |s| - 1)
  }

  lemma {:induction false} OnceAtTheEnd(s: string, c: char)
    ensures Count(s, c) == 1 && HasSuffix(s, [c]) <==> OnlyLast(s, c)
    decreases |s|
  {
    if |s| > 1 {
      hide OnlyLast, HasSuffix;
      CountNone(s[1..], c);
      EndLater(s, c);
      OnceAtTheEnd(s[1..], c);
    }
  }

  lemma EndLater(s: string, c: char)
    requires |s| > 1
    ensures HasSuffix(s, [c]) <==> HasSuffix(s[1..], [c])
    ensures HasSuffix(s[1..], [c]) ==> c in s[1..]
    ensures OnlyLast(s, c) <==> s[0] != c && OnlyLast(s[1..], c)
  {
    var rest := s[1..];
    assert s[|s| - 1..] == [s[|s| - 1]] == rest[|rest| - 1..];
    assert rest[|rest| - 1] in rest;
    assert forall i :: 0 <= i < |rest| ==> rest[i] == s[i + 1];
    if OnlyLast(rest, c) {
      assert forall i :: 1 <= i < |s| ==> s[i] == rest[i - 1];
    }
  }

  lemma Associative(a: string, b: string, c: string)
    ensures a + b + c == a + (b + c)
  {}

  /** Cuts s at every sep. */
  function Split(s: string, sep: char): (parts: seq<string>)
    ensures parts != []
    decreases |s|
  {
    if s == [] then [""]
    else
      var rest := Split(s[1..], sep);
      if s[0] == sep then [""] + rest
      else [[s[0]] + rest[0]] + rest[1..]
  }

  function Join(parts: seq<string>, sep: char): string {
    if parts == [] then ""
    else if |parts| == 1 then parts[0]
    else parts[0] + [sep] + Join(parts[1..], sep)
  }

  /** Split undoes Join on parts without separators, and Join undoes Split. */
  lemma {:induction false} JoinSplit(s: string, sep: char)
    ensures Join(Split(s, sep), sep) == s
    ensures forall i :: 0 <= i < |Split(s, sep)| ==> sep !in Split(s, sep)[i]
    decreases |s|
  {
    if s != [] {
      JoinSplit(s[1..], sep);
      var rest := Split(s[1..], sep);
      var parts := Split(s, sep);
      if s[0] == sep {
        assert parts[1..] == rest;
      } else if |rest| == 1 {
        assert parts == [[s[0]] + rest[0]];
      } else {
        assert parts[1..] == rest[1..];
        assert [s[0]] + (rest[0] + [sep] + Join(rest[1..], sep)) == parts[0] + [sep] + Join(parts[1..], sep);
      }
    }
  }

  /** A first part without separators is cut off. */
  lemma {:induction false} SplitFirst(a: string, b: string, sep: char)
    requires sep !in a
    ensures Split(a + [sep] + b, sep) == [a] + Split(b, sep)
    decreases |a|
  {
    if a == "" {
      assert (a + [sep] + b)[1..] == b;
    } else {
      assert a[0] in a && forall c :: c in a[1..] ==> c in a;
      assert (a + [sep] + b)[1..] == a[1..] + [sep] + b;
      SplitFirst(a[1..], b, sep);
      assert a == [a[0]] + a[1..];
    }
  }

  lemma {:induction false} SplitWhole(a: string, sep: char)
    requires sep !in a
    ensures Split(a, sep) == [a]
    decreases |a|
  {
    if a != "" {
      assert a[0] in a && forall c :: c in a[1..] ==> c in a;
      SplitWhole(a[1..], sep);
      assert a == [a[0]] + a[1..];
    }
  }

  lemma {:induction false} SplitJoin(parts: seq<string>, sep: char)
    requires parts != [] && forall i :: 0 <= i < |parts| ==> sep !in parts[i]
    ensures Split(Join(parts, sep), sep) == parts
    decreases |parts|
  {
    hide Split;
    if |parts| == 1 {
      SplitWhole(parts[0], sep);
      assert parts == [parts[0]];
    } else {
      SplitJoin(parts[1..], sep);
      SplitFirst(parts[0], Join(parts[1..], sep), sep);
      assert parts == [parts[0]] + parts[1..];
    }
  }

  /** Cutting and joining bring in no other characters. */
  lemma {:induction false} SplitCharacter(s: string, sep: char, c: char)
    requires c !in s
    ensures forall i :: 0 <= i < |Split(s, sep)| ==> c !in Split(s, sep)[i]
    decreases |s|
  {
    if s != "" {
      assert s[0] in s && forall x :: x in s[1..] ==> x in s;
      SplitCharacter(s[1..], sep, c);
    }
  }

  lemma {:induction false} JoinCharacter(parts: seq<string>, sep: char, c: char)
    requires c != sep && forall i :: 0 <= i < |parts| ==> c !in parts[i]
    ensures c !in Join(parts, sep)
    decreases |parts|
  {
    if |parts| > 1 { JoinCharacter(parts[1..], sep, c); }
  }

  // ----- trimming

  /** Unicode white space. */
  predicate IsSpace(c: char) {
    var n := c as int;
    || 9 <= n <= 13 || n == 0x20 || n == 0x85 || n == 0xA0 || n == 0x1680 || 0x2000 <= n <= 0x200A
    || n == 0x2028 || n == 0x2029 || n == 0x202F || n == 0x205F || n == 0x3000
  }

  function TrimLeft(s: string): (rest: string)
    ensures |rest| <= |s|
  {
    if s != "" && IsSpace(s[0]) then TrimLeft(s[1..]) else s
  }

  function TrimRight(s: string): (rest: string)
    ensures |rest| <= |s|
  {
    if s != "" && IsSpace(s[|s| - 1]) then TrimRight(s[..|s| - 1]) else s
  }

  function TrimSpace(s: string): string { TrimRight(TrimLeft(s)) }

  /** White space alone stands before i and from j on, and none at the ends of what is between. */
  ghost predicate Stretch(s: string, i: nat, j: nat)
    requires i <= j <= |s|
  {
    && (forall k :: 0 <= k < i ==> IsSpace(s[k])) && (forall k :: j <= k < |s| ==> IsSpace(s[k]))
    && (i < j ==> !IsSpace(s[i]) && !IsSpace(s[j - 1])) && TrimSpace(s) == s[i..j]
  }

  lemma {:induction false} TrimLeftCut(s: string) returns (i: nat)
    ensures i <= |s| && TrimLeft(s) == s[i..] && (forall k :: 0 <= k < i ==> IsSpace(s[k])) && (i < |s| ==> !IsSpace(s[i]))
    decreases |s|
  {
    if s != "" && IsSpace(s[0]) {
      var j := TrimLeftCut(s[1..]);
      i := j + 1;
      assert forall k :: 1 <= k < i ==> s[k] == s[1..][k - 1];
    } else {
      i := 0;
    }
  }

  lemma {:induction false} TrimRightCut(s: string) returns (j: nat)
    ensures j <= |s| && TrimRight(s) == s[..j] && (forall k :: j <= k < |s| ==> IsSpace(s[k])) && (j > 0 ==> !IsSpace(s[j - 1]))
    decreases |s|
  {
    if s != "" && IsSpace(s[|s| - 1]) {
      j := TrimRightCut(s[..|s| - 1]);
      assert forall k :: 0 <= k < |s| - 1 ==> s[k] == s[..|s| - 1][k];
    } else {
      j := |s|;
    }
  }

  /** Trimming leaves the stretch from the first to the last character that is no white space. */
  lemma TrimmedStretch(s: string)
    ensures exists i, j :: 0 <= i <= j <= |s| && Stretch(s, i, j)
  {
    hide IsSpace;
    var i := TrimLeftCut(s);
    var rest := s[i..];
    var j := TrimRightCut(rest);
    assert forall k :: i <= k < |s| ==> s[k] == rest[k - i];
    assert rest[..j] == s[i..i + j];
    assert Stretch(s, i, i + j);
  }

  /** White space as a set of code points. */
  lemma SpaceCharacters(c: char)
    ensures IsSpace(c) <==> || c == ' ' || c == '\t' || c == '\n' || c == '\r' || c as int in {11, 12, 0x85, 0xA0, 0x1680, 0x2028, 0x2029, 0x202F, 0x205F, 0x3000}
                            || 0x2000 <= c as int <= 0x200A
  {}

  function TrimPrefix(s: string, p: string): string { if HasPrefix(s, p) then s[|p|..] else s }

  function TrimSuffix(s: string, p: string): string { if HasSuffix(s, p) then s[..|s| - |p|] else s }
}
