/**
 * The current balance shared by ACbus, DCbus and Node: a residual that is the sum of the
 * currents flowing in over the named connections.
 */
module Kirchhoff {

  /** Every listed connection has a current among the inputs (setup declares one input per name). */
  predicate Covers(names: seq<string>, m: map<string, real>)
  {
    forall n :: n in names ==> n in m
  }

  /** The sum of the currents over the listed connections, accumulated front to back. */
  function SumOver(names: seq<string>, m: map<string, real>): real
    requires Covers(names, m)
  {
    if names == [] then 0.0
    else SumOver(names[..|names| - 1], m) + m[names[|names| - 1]]
  }

  /** The sum over a concatenation is the sum of the sums. */
  lemma {:induction false} SumOverAppend(s: seq<string>, t: seq<string>, m: map<string, real>)
    requires Covers(s, m) && Covers(t, m)
    ensures Covers(s + t, m)
    ensures SumOver(s + t, m) == SumOver(s, m) + SumOver(t, m)
  {
    if t == [] {
      assert s + t == s;
    } else {
      var t' := t[..|t| - 1];
      assert (s + t)[..|s + t| - 1] == s + t';
      SumOverAppend(s, t', m);
    }
  }

  /** The residual does not depend on the order in which the connections are listed. */
  lemma {:induction false} SumOverPermutation(a: seq<string>, b: seq<string>, m: map<string, real>)
    requires Covers(a, m) && multiset(a) == multiset(b)
    ensures Covers(b, m)
    ensures SumOver(b, m) == SumOver(a, m)
  {
    forall n | n in b ensures n in m {
      assert n in multiset(b);
    }
    if a == [] {
      assert |b| == |multiset(b)| == 0;
    } else {
      var x := a[|a| - 1];
      var a' := a[..|a| - 1];
      DropLast(a);
      assert x in multiset(b);
      var k :| 0 <= k < |b| && b[k] == x;
      var b' := b[..k] + b[k + 1..];
      DropAt(b, k);
      SumOverPermutation(a', b', m);
      RemoveOne(b, k, m);
    }
  }

  /** Dropping the last entry drops one copy of it from the multiset. */
  lemma DropLast(a: seq<string>)
    requires a != []
    ensures multiset(a[..|a| - 1]) == multiset(a) - multiset{a[|a| - 1]}
  {
    assert a == a[..|a| - 1] + [a[|a| - 1]];
    assert multiset(a) == multiset(a[..|a| - 1]) + multiset{a[|a| - 1]};
  }

  /** Dropping the entry at k drops one copy of it from the multiset. */
  lemma DropAt(b: seq<string>, k: nat)
    requires k < |b|
    ensures multiset(b[..k] + b[k + 1..]) == multiset(b) - multiset{b[k]}
  {
    assert b == b[..k] + [b[k]] + b[k + 1..];
    assert multiset(b) == multiset(b[..k]) + multiset{b[k]} + multiset(b[k + 1..]);
  }

  /** Taking one entry out of the list takes its current out of the sum. */
  lemma RemoveOne(b: seq<string>, k: nat, m: map<string, real>)
    requires Covers(b, m) && k < |b|
    ensures Covers(b[..k] + b[k + 1..], m)
    ensures SumOver(b, m) == SumOver(b[..k] + b[k + 1..], m) + m[b[k]]
  {
    var x := b[k];
    assert b == b[..k] + [x] + b[k + 1..];
    SumOverAppend(b[..k], b[k + 1..], m);
    SumOverAppend(b[..k], [x], m);
    SumOverAppend(b[..k] + [x], b[k + 1..], m);
    assert SumOver([x], m) == m[x] by { assert [x][..0] == []; }
  }

  /** Only the currents of the listed connections enter the residual. */
  lemma {:induction false} SumOverAgree(names: seq<string>, m1: map<string, real>, m2: map<string, real>)
    requires Covers(names, m1) && Covers(names, m2)
    requires forall n :: n in names ==> m1[n] == m2[n]
    ensures SumOver(names, m1) == SumOver(names, m2)
  {
    if names != [] {
      SumOverAgree(names[..|names| - 1], m1, m2);
    }
  }

  /** How many times a connection is listed. */
  function Count(names: seq<string>, n: string): nat
  {
    if names == [] then 0
    else Count(names[..|names| - 1], n) + (if names[|names| - 1] == n then 1 else 0)
  }

  /**
   * Changing the current of one connection by h changes the residual by h times the number
   * of times that connection is listed.
   */
  lemma {:induction false} SumOverBump(names: seq<string>, m: map<string, real>, n: string, h: real)
    requires Covers(names, m) && n in m
    ensures Covers(names, m[n := m[n] + h])
    ensures SumOver(names, m[n := m[n] + h]) == SumOver(names, m) + h * (Count(names, n) as real)
  {
    var m2 := m[n := m[n] + h];
    if names != [] {
      var init := names[..|names| - 1];
      var last := names[|names| - 1];
      SumOverBump(init, m, n, h);
      var c := Count(init, n) as real;
      if last == n {
        CountStep(SumOver(init, m), SumOver(init, m2), m[n], m2[n], h, c);
      }
    }
  }

  lemma CountStep(s: real, s2: real, x: real, x2: real, h: real, c: real)
    requires s2 == s + h * c && x2 == x + h
    ensures s2 + x2 == (s + x) + h * (c + 1.0)
  {
  }

  /** No connection is listed twice. */
  predicate Distinct(names: seq<string>)
  {
    forall i, j :: 0 <= i < j < |names| ==> names[i] != names[j]
  }

  /** In a list without repetitions, each name is counted once or not at all. */
  lemma {:induction false} DistinctMultiplicity(names: seq<string>, n: string)
    requires Distinct(names)
    ensures Count(names, n) == if n in names then 1 else 0
  {
    if names != [] {
      var init := names[..|names| - 1];
      assert n in names <==> n in init || names[|names| - 1] == n;
      DistinctMultiplicity(init, n);
    }
  }

  /**
   * The partial of the residual with respect to each listed current, as declared: 1.0.
   * SumOverPartialsExact proves that these entries are the derivatives of the residual.
   */
  function UnitPartials(names: seq<string>): (jac: map<string, real>)
    ensures jac.Keys == set n | n in names
    ensures forall n :: n in jac ==> jac[n] == 1.0
  {
    map n | n in names :: 1.0
  }

  /**
   * The declared partials are the derivatives of the residual: when no connection is listed
   * twice, changing a listed current by h changes the residual by exactly h times 1.0, and
   * changing an unlisted one leaves it unchanged.
   */
  lemma SumOverPartialsExact(names: seq<string>, m: map<string, real>, n: string, h: real)
    requires Covers(names, m) && n in m && Distinct(names)
    ensures Covers(names, m[n := m[n] + h])
    ensures n in names ==> SumOver(names, m[n := m[n] + h]) == SumOver(names, m) + h * UnitPartials(names)[n]
    ensures n !in names ==> SumOver(names, m[n := m[n] + h]) == SumOver(names, m)
  {
    SumOverBump(names, m, n, h);
    DistinctMultiplicity(names, n);
  }
}
