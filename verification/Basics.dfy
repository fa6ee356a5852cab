/** Options and the few facts about sequences that the rest is built on. */
module Basics {

  datatype Option<+T> = None | Some(value: T)

  function Last<T>(s: seq<T>): T
    requires s != []
  {
    s[|s| - 1]
  }

  ghost predicate Distinct<T>(s: seq<T>) {
    forall i, j :: 0 <= i < j < |s| ==> s[i] != s[j]
  }

  ghost predicate Disjoint<T>(a: seq<T>, b: seq<T>) {
    forall x :: x in a ==> x !in b
  }

  /** `s` without `x`, the rest in order. */
  function Without<T(==)>(s: seq<T>, x: T): (r: seq<T>)
    ensures forall y :: y in r ==> y in s && y != x
    ensures forall y :: y in s && y != x ==> y in r
  {
    if s == [] then [] else if s[0] == x then Without(s[1..], x) else [s[0]] + Without(s[1..], x)
  }

  lemma {:induction false} WithoutAbsent<T>(s: seq<T>, x: T)
    requires x !in s
    ensures Without(s, x) == s
  {
    if s != [] {
      WithoutAbsent(s[1..], x);
      assert s == [s[0]] + s[1..];
    }
  }

  lemma {:induction false} WithoutAt<T>(s: seq<T>, i: nat)
    requires Distinct(s) && i < |s|
    ensures Without(s, s[i]) == s[..i] + s[i + 1..]
    ensures Distinct(s[..i] + s[i + 1..])
  {
    if i == 0 {
      WithoutAbsent(s[1..], s[0]);
      assert s[..0] + s[1..] == s[1..];
    } else {
      assert s[1..][i - 1] == s[i];
      WithoutAt(s[1..], i - 1);
      assert [s[0]] + (s[1..][..i - 1] + s[1..][i..]) == s[..i] + s[i + 1..];
    }
  }

  function IndexOf<T(==)>(s: seq<T>, x: T): (i: nat)
    requires x in s
    ensures i < |s| && s[i] == x && x !in s[..i]
  {
    if s[0] == x then 0 else 1 + IndexOf(s[1..], x)
  }
}
