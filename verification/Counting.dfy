/** The number of positions at which a sequence has a property: what every tally in the model is measured against. */
module Counting {
  ghost function Where<T(!new)>(s: seq<T>, p: T -> bool): set<nat> {
    set i: nat | i < |s| && p(s[i])
  }

  ghost function Number<T(!new)>(s: seq<T>, p: T -> bool): nat {
    |Where(s, p)|
  }

  lemma NumberSame<T(!new)>(s: seq<T>, p: T -> bool, q: T -> bool)
    requires forall x :: p(x) == q(x)
    ensures Number(s, p) == Number(s, q)
  {
    assert Where(s, p) == Where(s, q);
  }

  lemma NumberOfNone<T(!new)>(p: T -> bool)
    ensures Number([], p) == 0
  {
    assert Where([], p) == {};
  }

  lemma NumberGrows<T(!new)>(s: seq<T>, x: T, p: T -> bool)
    ensures Number(s + [x], p) == Number(s, p) + if p(x) then 1 else 0
  {
    var n := |s|;
    forall i: nat ensures i in Where(s + [x], p) <==> i in Where(s, p) || (i == n && p(x)) {
      if i < n { assert (s + [x])[i] == s[i]; }
    }
    assert Where(s + [x], p) == Where(s, p) + if p(x) then {n} else {};
  }

  /** What holds of the last element is one more, of all the others the same as before. */
  lemma NumberUnfolds<T(!new)>(s: seq<T>, p: T -> bool)
    ensures Number(s, p) == if s == [] then 0 else Number(s[..|s| - 1], p) + if p(s[|s| - 1]) then 1 else 0
  {
    if s == [] {
      NumberOfNone(p);
    } else {
      assert s == s[..|s| - 1] + [s[|s| - 1]];
      NumberGrows(s[..|s| - 1], s[|s| - 1], p);
    }
  }

  lemma {:induction false} NumberAtLeast<T(!new)>(s: seq<T>, p: T -> bool, from: nat, to: nat)
    requires from <= to <= |s| && forall i :: from <= i < to ==> p(s[i])
    ensures to <= from + Number(s, p)
    decreases |s|
  {
    hide Number;
    NumberUnfolds(s, p);
    if from < to {
      NumberAtLeast(s[..|s| - 1], p, from, if to < |s| then to else to - 1);
    }
  }

  lemma {:induction false} NumberDisjoint<T(!new)>(s: seq<T>, p: T -> bool, q: T -> bool)
    requires forall x :: !(p(x) && q(x))
    ensures Number(s, p) + Number(s, q) <= |s|
  {
    hide Number;
    NumberUnfolds(s, p);
    NumberUnfolds(s, q);
    if s != [] { NumberDisjoint(s[..|s| - 1], p, q); }
  }

  lemma {:induction false} NumberConcat<T(!new)>(a: seq<T>, b: seq<T>, p: T -> bool)
    ensures Number(a + b, p) == Number(a, p) + Number(b, p)
    decreases |b|
  {
    hide Number;
    NumberUnfolds(b, p);
    NumberUnfolds(a + b, p);
    if b == [] {
      assert a + b == a;
    } else {
      assert (a + b)[..|a + b| - 1] == a + b[..|b| - 1];
      NumberConcat(a, b[..|b| - 1], p);
    }
  }

  function Without<T>(s: seq<T>, j: nat): seq<T>
    requires j < |s|
  {
    s[..j] + s[j + 1..]
  }

  lemma NumberWithout<T(!new)>(s: seq<T>, j: nat, p: T -> bool)
    requires j < |s|
    ensures Number(s, p) == Number(Without(s, j), p) + if p(s[j]) then 1 else 0
    ensures multiset(s) == multiset(Without(s, j)) + multiset{s[j]}
  {
    hide Number;
    assert s == s[..j] + [s[j]] + s[j + 1..];
    NumberConcat(s[..j], s[j + 1..], p);
    NumberConcat(s[..j] + [s[j]], s[j + 1..], p);
    NumberGrows(s[..j], s[j], p);
  }

  /** The number does not depend on the order of the elements. */
  lemma {:induction false} NumberPermutes<T(!new)>(a: seq<T>, b: seq<T>, p: T -> bool)
    requires multiset(a) == multiset(b)
    ensures Number(a, p) == Number(b, p)
    decreases |a|
  {
    hide Number, Without;
    if a == [] {
      assert |multiset(b)| == |b|;
    } else {
      assert a[0] in multiset(a);
      assert a[0] in multiset(b);
      var j :| 0 <= j < |b| && b[j] == a[0];
      NumberWithout(a, 0, p);
      NumberWithout(b, j, p);
      var fewer, rest := Without(a, 0), Without(b, j);
      assert multiset(fewer) == multiset(a) - multiset{a[0]} == multiset(rest);
      assert |fewer| < |a| by { assert |multiset(fewer)| == |fewer| && |multiset(a)| == |a|; }
      NumberPermutes(fewer, rest, p);
    }
  }
}
