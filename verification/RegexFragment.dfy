/**
 What the regexes a subscription can be derived from find in a topic: literal
 characters, runs of characters other than the separator, and the two anchors.
 */
module RegexFragment {
  import opened Wrappers
  import opened RegexTopics

  datatype Atom = One(c: char) | Many(min: nat) | Begin | End

  /** The form of a single-level capture at the start of expr: its length, and how long a level it takes at least. */
  function CaptureForm(expr: string): (form: Option<(nat, nat)>)
    ensures form.Some? ==> 0 < form.value.0 <= |expr|
  {
    if "[^/]+" <= expr then Some((5, 1))
    else if "[^/]*" <= expr then Some((5, 0))
    else if "([^/]+)" <= expr then Some((7, 1))
    else if "([^/]*)" <= expr then Some((7, 0))
    else if "(?:[^/]+)" <= expr then Some((9, 1))
    else if "(?:[^/]*)" <= expr then Some((9, 0))
    else None
  }

  /** The first atom of expr and its length in the expression. */
  function FirstAtom(expr: string): (first: Option<(nat, Atom)>)
    requires expr != ""
    ensures first.Some? ==> 0 < first.value.0 <= |expr|
  {
    var form := CaptureForm(expr);
    if form.Some? then Some((form.value.0, Many(form.value.1)))
    else if expr[0] == '^' then Some((1, Begin))
    else if expr[0] == '$' then Some((1, End))
    else if expr[0] in META then None
    else Some((1, One(expr[0])))
  }

  /** Reads a regex of the fragment from the left; None for anything else. */
  function Parse(expr: string): Option<seq<Atom>>
    decreases |expr|
  {
    if expr == "" then Some([])
    else if FirstAtom(expr).None? then None
    else
      var first := FirstAtom(expr).value;
      var rest := Parse(expr[first.0..]);
      if rest.Some? then Some([first.1] + rest.value) else None
  }

  predicate WithinLevel(t: string, i: nat, j: nat)
    requires i <= j <= |t|
  {
    '/' !in t[i..j]
  }

  /** The atoms can take exactly the text from i to k. */
  ghost predicate AtomsRun(atoms: seq<Atom>, t: string, i: nat, k: nat)
    requires i <= k <= |t|
    decreases |atoms|
  {
    if atoms == [] then i == k
    else
      match atoms[0]
      case One(c) => i < k && t[i] == c && AtomsRun(atoms[1..], t, i + 1, k)
      case Many(min) => exists j :: i + min <= j <= k && WithinLevel(t, i, j) && AtomsRun(atoms[1..], t, j, k)
      case Begin => i == 0 && AtomsRun(atoms[1..], t, i, k)
      case End => i == |t| && AtomsRun(atoms[1..], t, i, k)
  }

  /** An unanchored search succeeds. */
  ghost predicate Finds(expr: string, t: string) {
    Parse(expr).Some? && exists i, k :: 0 <= i <= k <= |t| && AtomsRun(Parse(expr).value, t, i, k)
  }

  // ----- parsing and running pieces

  lemma FirstAtomAppend(a: string, b: string)
    requires a != "" && FirstAtom(a).Some?
    ensures FirstAtom(a + b) == FirstAtom(a)
  {
    assert (a + b)[0] == a[0];
    if CaptureForm(a).Some? {
      var n := CaptureForm(a).value.0;
      assert (a + b)[..n] == a[..n];
    } else {
      assert '[' in META && '(' in META && '[' != '^' && '(' != '$';
    }
  }

  lemma {:induction false} ParseAppend(a: string, b: string)
    requires Parse(a).Some? && Parse(b).Some?
    ensures Parse(a + b) == Some(Parse(a).value + Parse(b).value)
    decreases |a|
  {
    hide FirstAtom;
    if a == "" {
      assert a + b == b;
      assert [] + Parse(b).value == Parse(b).value;
    } else {
      FirstAtomAppend(a, b);
      var n, atom := FirstAtom(a).value.0, FirstAtom(a).value.1;
      assert (a + b)[n..] == a[n..] + b;
      ParseAppend(a[n..], b);
      assert [atom] + (Parse(a[n..]).value + Parse(b).value) == [atom] + Parse(a[n..]).value + Parse(b).value;
    }
  }

  lemma ParseOne(expr: string)
    requires expr != "" && FirstAtom(expr).Some? && FirstAtom(expr).value.0 == |expr|
    ensures Parse(expr) == Some([FirstAtom(expr).value.1])
  {
    hide FirstAtom;
    var first := FirstAtom(expr).value;
    assert expr[first.0..] == "";
    assert Parse(expr[first.0..]) == Some([]);
    assert [first.1] + [] == [first.1];
  }

  function Ones(s: string): (atoms: seq<Atom>) { seq(|s|, i requires 0 <= i < |s| => One(s[i])) }

  lemma LiteralFirst(s: string)
    requires s != "" && Literal(s)
    ensures FirstAtom(s) == Some((1, One(s[0])))
  {
    assert s[0] !in META && META[1] == '^' && META[2] == '$' && META[6] == '(' && META[8] == '[';
  }

  lemma LiteralTail(s: string)
    requires s != "" && Literal(s)
    ensures Literal(s[1..])
  {
    assert forall i :: 0 <= i < |s| - 1 ==> s[1..][i] == s[i + 1];
  }

  lemma {:induction false} ParseLiteral(s: string)
    requires Literal(s)
    ensures Parse(s) == Some(Ones(s))
    decreases |s|
  {
    if s == "" {
      assert Ones(s) == [];
    } else {
      hide CaptureForm;
      LiteralTail(s);
      ParseLiteral(s[1..]);
      LiteralFirst(s);
      assert s[FirstAtom(s).value.0..] == s[1..];
      assert Ones(s) == [One(s[0])] + Ones(s[1..]);
    }
  }

  lemma {:induction false} RunLiteral(s: string, t: string, i: nat, k: nat)
    requires i <= k <= |t|
    ensures AtomsRun(Ones(s), t, i, k) <==> t[i..k] == s
    decreases |s|
  {
    if s != "" {
      assert Ones(s)[1..] == Ones(s[1..]);
      if i < k {
        RunLiteral(s[1..], t, i + 1, k);
        assert t[i..k] == [t[i]] + t[i + 1..k];
        assert s == [s[0]] + s[1..];
      }
    }
  }

  lemma {:induction false} RunJoin(a: seq<Atom>, b: seq<Atom>, t: string, i: nat, j: nat, k: nat)
    requires i <= j <= k <= |t| && AtomsRun(a, t, i, j) && AtomsRun(b, t, j, k)
    ensures AtomsRun(a + b, t, i, k)
    decreases |a|
  {
    if a == [] {
      assert a + b == b;
    } else {
      assert (a + b)[0] == a[0] && (a + b)[1..] == a[1..] + b;
      match a[0]
      case One(c) => RunJoin(a[1..], b, t, i + 1, j, k);
      case Many(min) =>
        var l :| i + min <= l <= j && WithinLevel(t, i, l) && AtomsRun(a[1..], t, l, j);
        RunJoin(a[1..], b, t, l, j, k);
      case Begin => RunJoin(a[1..], b, t, i, j, k);
      case End => RunJoin(a[1..], b, t, i, j, k);
    }
  }

  lemma {:induction false} RunCut(a: seq<Atom>, b: seq<Atom>, t: string, i: nat, k: nat) returns (j: nat)
    requires i <= k <= |t| && AtomsRun(a + b, t, i, k)
    ensures i <= j <= k && AtomsRun(a, t, i, j) && AtomsRun(b, t, j, k)
    decreases |a|
  {
    if a == [] {
      assert a + b == b;
      j := i;
    } else {
      assert (a + b)[0] == a[0] && (a + b)[1..] == a[1..] + b;
      match a[0]
      case One(c) => j := RunCut(a[1..], b, t, i + 1, k);
      case Many(min) =>
        var l :| i + min <= l <= k && WithinLevel(t, i, l) && AtomsRun((a + b)[1..], t, l, k);
        j := RunCut(a[1..], b, t, l, k);
      case Begin => j := RunCut(a[1..], b, t, i, k);
      case End => j := RunCut(a[1..], b, t, i, k);
    }
  }

  lemma RunMany(min: nat, t: string, i: nat, k: nat)
    requires i <= k <= |t|
    ensures AtomsRun([Many(min)], t, i, k) <==> i + min <= k && WithinLevel(t, i, k)
  {
    assert [Many(min)][1..] == [];
    if i + min <= k && WithinLevel(t, i, k) {
      assert AtomsRun([Many(min)][1..], t, k, k);
    }
  }
}
