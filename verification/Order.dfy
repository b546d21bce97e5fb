/** Strictly increasing sequences, and the sorting of distinct instants. */
module Order {

  ghost predicate Increasing(s: seq<int>) {
    forall i, j :: 0 <= i < j < |s| ==> s[i] < s[j]
  }

  ghost predicate Distinct(s: seq<int>) {
    forall i, j :: 0 <= i < j < |s| ==> s[i] != s[j]
  }

  ghost function Element<T>(s: set<T>): (y: T)
    requires s != {}
    ensures y in s
  {
    var y :| y in s;
    y
  }

  /** Some element of a set: the iteration order of the source's maps and of query results is not fixed. */
  method Pick<T(==)>(s: set<T>) returns (x: T)
    requires s != {}
    ensures x in s
  {
    x :| x in s;
  }

  lemma {:induction false} MinimumExists(s: set<int>)
    requires s != {}
    ensures exists m :: m in s && forall x :: x in s ==> m <= x
  {
    var y := Element(s);
    var rest := s - {y};
    assert forall x :: x in s <==> x == y || x in rest;
    if rest == {} {
      assert y in s;
    } else {
      MinimumExists(rest);
      var m :| m in rest && forall x :: x in rest ==> m <= x;
      var least := if y < m then y else m;
      assert least in s;
    }
  }

  ghost function Minimum(s: set<int>): (m: int)
    requires s != {}
    ensures m in s && forall x :: x in s ==> m <= x
  {
    MinimumExists(s);
    var m :| m in s && forall x :: x in s ==> m <= x;
    m
  }

  /** The elements of a set in increasing order. */
  ghost function Ascending(s: set<int>): (r: seq<int>)
    ensures Increasing(r) && forall x :: x in r <==> x in s
  {
    if s == {} then []
    else
      var m := Minimum(s);
      var rest := Ascending(s - {m});
      ConsIncreasing(m, rest);
      [m] + rest
  }

  lemma ConsIncreasing(m: int, s: seq<int>)
    requires Increasing(s) && forall x :: x in s ==> m < x
    ensures Increasing([m] + s)
  {
    var r := [m] + s;
    forall i, j | 0 <= i < j < |r| ensures r[i] < r[j] {
      assert r[j] == s[j - 1];
      if i > 0 { assert r[i] == s[i - 1]; } else { assert s[j - 1] in s; }
    }
  }

  lemma HeadIsLeast(s: seq<int>)
    requires Increasing(s) && s != []
    ensures Increasing(s[1..])
    ensures forall x :: x in s <==> x == s[0] || x in s[1..]
    ensures forall x :: x in s[1..] ==> s[0] < x
  {
    assert s == [s[0]] + s[1..];
  }

  /** A set has one increasing enumeration. */
  lemma {:induction false} IncreasingUnique(a: seq<int>, b: seq<int>)
    requires Increasing(a) && Increasing(b)
    requires forall x :: x in a <==> x in b
    ensures a == b
    decreases |a|
  {
    assert a != [] ==> a[0] in a && a[0] in b;
    assert b != [] ==> b[0] in b && b[0] in a;
    if a != [] {
      HeadIsLeast(a);
      HeadIsLeast(b);
      IncreasingUnique(a[1..], b[1..]);
      assert a == [a[0]] + a[1..] && b == [b[0]] + b[1..];
    }
  }

  function InsertInOrder(s: seq<int>, x: int): seq<int> {
    if s == [] then [x]
    else if x <= s[0] then [x] + s
    else [s[0]] + InsertInOrder(s[1..], x)
  }

  lemma {:induction false} InsertInOrderLaws(s: seq<int>, x: int)
    requires Increasing(s) && x !in s
    ensures forall y :: y in InsertInOrder(s, x) <==> y == x || y in s
    ensures Increasing(InsertInOrder(s, x))
  {
    if s != [] {
      HeadIsLeast(s);
      if x <= s[0] {
        ConsIncreasing(x, s);
      } else {
        InsertInOrderLaws(s[1..], x);
        ConsIncreasing(s[0], InsertInOrder(s[1..], x));
      }
    }
  }

  method Sort(keys: seq<int>) returns (r: seq<int>)
    requires Distinct(keys)
    ensures r == Ascending(set k | k in keys)
  {
    r := [];
    for i := 0 to |keys|
      invariant Increasing(r) && forall x :: x in r <==> x in keys[..i]
    {
      assert keys[..i + 1] == keys[..i] + [keys[i]];
      InsertInOrderLaws(r, keys[i]);
      r := InsertInOrder(r, keys[i]);
    }
    assert keys[..|keys|] == keys;
    IncreasingUnique(r, Ascending(set k | k in keys));
  }
}
