/**
 * Generic facts about sequences used by the filters and the option lists:
 * order-preserving subsequences, duplicate-free sequences and the
 * "distinct values in order of first appearance" operation that pandas
 * calls `unique()`.
 */
module Sequences {

  /** `sub` is obtained from `s` by deleting elements and keeping the rest in order. */
  ghost predicate IsSubsequence<T>(sub: seq<T>, s: seq<T>)
    decreases |s|
  {
    if s == [] then sub == []
    else IsSubsequence(sub, s[1..]) || (sub != [] && sub[0] == s[0] && IsSubsequence(sub[1..], s[1..]))
  }

  /** No value occurs twice in `s`. */
  predicate NoDup<T(==)>(s: seq<T>) {
    forall i, j :: 0 <= i < j < |s| ==> s[i] != s[j]
  }

  /** The position of the first occurrence of `x` in `s`. */
  function FirstIndex<T(==)>(s: seq<T>, x: T): (i: nat)
    requires x in s
    ensures i < |s| && s[i] == x && x !in s[..i]
  {
    if s[0] == x then 0 else 1 + FirstIndex(s[1..], x)
  }

  /** Any position holding the first occurrence of `x` is the one `FirstIndex` finds. */
  lemma {:induction false} FirstIndexUnique<T>(s: seq<T>, x: T, j: nat)
    requires j < |s| && s[j] == x && x !in s[..j]
    ensures FirstIndex(s, x) == j
  {
  }

  /** Cutting `s` after the first occurrence of `x` does not move that occurrence. */
  lemma {:induction false} FirstIndexInPrefix<T>(s: seq<T>, k: nat, x: T)
    requires k <= |s| && x in s[..k]
    ensures FirstIndex(s, x) == FirstIndex(s[..k], x)
  {
  }

  /**
   * The distinct values of `s`, each once, in order of first appearance
   * (the order pandas' `unique()` returns them in).
   */
  function Unique<T(==)>(s: seq<T>): (r: seq<T>)
    ensures NoDup(r)
    ensures forall i :: 0 <= i < |r| ==> r[i] in s
    ensures forall i :: 0 <= i < |s| ==> s[i] in r
    decreases |s|
  {
    if s == [] then []
    else
      var u := Unique(s[..|s| - 1]);
      if s[|s| - 1] in u then u else u + [s[|s| - 1]]
  }

  /** `Unique(s)` holds exactly the values of `s`. */
  lemma UniqueMembers<T>(s: seq<T>)
    ensures forall x :: x in Unique(s) <==> x in s
  {
  }

  /** `r` lists values of `s` in the order of their first occurrence in `s`. */
  ghost predicate InFirstAppearanceOrder<T>(r: seq<T>, s: seq<T>)
  {
    && (forall i :: 0 <= i < |r| ==> r[i] in s)
    && (forall i, j :: 0 <= i < j < |r| ==> FirstIndex(s, r[i]) < FirstIndex(s, r[j]))
  }

  /** Appending to `p` moves no first occurrence of a value already in `p`. */
  lemma {:induction false} FirstIndexAfterAppend<T>(p: seq<T>, x: T, u: seq<T>)
    requires forall i :: 0 <= i < |u| ==> u[i] in p
    ensures forall i :: 0 <= i < |u| ==> u[i] in p + [x] && FirstIndex(p + [x], u[i]) == FirstIndex(p, u[i]) < |p|
  {
    var s := p + [x];
    assert s[..|p|] == p;
    forall i | 0 <= i < |u|
      ensures u[i] in s && FirstIndex(s, u[i]) == FirstIndex(p, u[i]) < |p|
    {
      FirstIndexInPrefix(s, |p|, u[i]);
    }
  }

  /** One step of `Unique`: appending a value to `s` keeps the order of the values listed so far. */
  lemma {:induction false} UniqueStep<T>(p: seq<T>, x: T, u: seq<T>)
    requires InFirstAppearanceOrder(u, p)
    requires forall i :: 0 <= i < |p| ==> p[i] in u
    ensures InFirstAppearanceOrder(if x in u then u else u + [x], p + [x])
  {
    var s := p + [x];
    FirstIndexAfterAppend(p, x, u);
    if x !in u {
      assert s[..|p|] == p;
      FirstIndexUnique(s, x, |p|);
      var r := u + [x];
      forall i, j | 0 <= i < j < |r|
        ensures FirstIndex(s, r[i]) < FirstIndex(s, r[j])
      {
        assert r[i] == u[i];
        if j < |u| {
          assert r[j] == u[j];
        }
      }
    }
  }

  /** The values `Unique` lists appear in the order of their first occurrence in `s`. */
  lemma {:induction false} UniqueFirstAppearanceOrder<T>(s: seq<T>)
    ensures InFirstAppearanceOrder(Unique(s), s)
    decreases |s|
  {
    if s != [] {
      var n := |s|;
      var p := s[..n - 1];
      UniqueFirstAppearanceOrder(p);
      assert s == p + [s[n - 1]];
      UniqueStep(p, s[n - 1], Unique(p));
    }
  }
}
