/** Chains, cycles and rings inside a graph, and how they compose. */
module Rings {
  import opened Basics
  import opened LinkGraph

  /** Consecutive links of `c` point at each other; the two outward ends are free. */
  ghost predicate Chain(g: Graph, c: seq<Link>) {
    && (forall i :: 0 <= i < |c| ==> g.Has(c[i]))
    && (forall i, j :: 0 <= i && j == i + 1 && j < |c| ==> g.Joined(c[i], c[j]))
  }

  /** `c` is one closed loop of distinct links on which `next` and `prev` are inverse. */
  ghost predicate Cycle(g: Graph, c: seq<Link>) {
    c != [] && Distinct(c) && Chain(g, c) && g.Joined(Last(c), c[0])
  }

  /** The ring of head `h` holds the elements `s`, first to last. */
  ghost predicate IsRing(g: Graph, h: Link, s: seq<Link>) {
    Cycle(g, [h] + s)
  }

  // ----- composition -----

  lemma DistinctConcat<T>(a: seq<T>, b: seq<T>)
    ensures Distinct(a + b) <==> Distinct(a) && Distinct(b) && Disjoint(a, b)
  {
    if Distinct(a + b) {
      forall i, j | 0 <= i < j < |a| ensures a[i] != a[j] {
        assert (a + b)[i] != (a + b)[j];
      }
      forall i, j | 0 <= i < j < |b| ensures b[i] != b[j] {
        assert (a + b)[|a| + i] != (a + b)[|a| + j];
      }
      forall i, j | 0 <= i < |a| && 0 <= j < |b| ensures a[i] != b[j] {
        assert (a + b)[i] != (a + b)[|a| + j];
      }
    } else if Distinct(a) && Distinct(b) {
      var i, j :| 0 <= i < j < |a + b| && (a + b)[i] == (a + b)[j];
      assert a[i] in a && b[j - |a|] in b;
    }
  }

  lemma ChainConcat(g: Graph, a: seq<Link>, b: seq<Link>)
    ensures Chain(g, a + b) <==>
            Chain(g, a) && Chain(g, b) && (a != [] && b != [] ==> g.Joined(Last(a), b[0]))
  {
    var c := a + b;
    if Chain(g, c) {
      forall i | 0 <= i < |a| ensures g.Has(a[i]) { assert c[i] == a[i]; }
      forall i, j | 0 <= i && j == i + 1 && j < |a| ensures g.Joined(a[i], a[j]) {
        assert g.Joined(c[i], c[j]);
      }
      forall i | 0 <= i < |b| ensures g.Has(b[i]) { assert c[|a| + i] == b[i]; }
      forall i, j | 0 <= i && j == i + 1 && j < |b| ensures g.Joined(b[i], b[j]) {
        assert g.Joined(c[|a| + i], c[|a| + j]);
      }
      if a != [] && b != [] { assert g.Joined(c[|a| - 1], c[|a|]); }
    }
  }

  /** Chains survive any update that leaves their inner fields alone. */
  lemma ChainFrame(g: Graph, g': Graph, c: seq<Link>)
    requires Chain(g, c) && Distinct(c) && g.SameDomain(g')
    requires forall n :: n in c && n != Last(c) ==> n in g.next && g'.next[n] == g.next[n]
    requires forall n :: n in c && n != c[0] ==> n in g.prev && g'.prev[n] == g.prev[n]
    ensures Chain(g', c)
  {
    forall i, j | 0 <= i && j == i + 1 && j < |c| ensures g'.Joined(c[i], c[j]) {
      assert g.Joined(c[i], c[j]);
      assert c[i] in c && c[j] in c;
    }
  }

  /** A cycle may be read from any of its links. */
  lemma Rotate(g: Graph, a: seq<Link>, b: seq<Link>)
    requires Cycle(g, a + b)
    ensures Cycle(g, b + a)
  {
    if a == [] || b == [] {
      assert b + a == a + b;
    } else {
      DistinctConcat(a, b);
      DistinctConcat(b, a);
      ChainConcat(g, a, b);
      ChainConcat(g, b, a);
      assert Last(a + b) == Last(b) && Last(b + a) == Last(a);
    }
  }

  /** A cycle all of whose fields are unchanged is still a cycle. */
  lemma CycleFrame(g: Graph, g': Graph, c: seq<Link>)
    requires Cycle(g, c) && forall n :: n in c ==> g.SameAt(g', n)
    ensures Cycle(g', c)
  {
    forall i | 0 <= i < |c| ensures g'.Has(c[i]) { assert c[i] in c; }
    forall i, j | 0 <= i && j == i + 1 && j < |c| ensures g'.Joined(c[i], c[j]) {
      assert g.Joined(c[i], c[j]);
      assert c[i] in c && c[j] in c;
    }
    assert c[0] in c && Last(c) in c;
  }

  /** Fields of links outside `c` are the same in both graphs. */
  ghost predicate Elsewhere(g: Graph, g': Graph, c: seq<Link>) {
    && g.SameDomain(g')
    && (forall n :: n in g.next && n !in c ==> g'.next[n] == g.next[n])
    && (forall n :: n in g.prev && n !in c ==> g'.prev[n] == g.prev[n])
  }

  lemma CycleElsewhere(g: Graph, g': Graph, c: seq<Link>, d: seq<Link>)
    requires Cycle(g, d) && Elsewhere(g, g', c) && Disjoint(d, c)
    ensures Cycle(g', d)
  {
  }

  lemma ElsewhereTrans(g: Graph, g': Graph, g'': Graph, c: seq<Link>, d: seq<Link>)
    requires Elsewhere(g, g', c) && Elsewhere(g', g'', d)
    ensures Elsewhere(g, g'', c + d)
  {
  }

  /** The links of a cycle are determined by its sequence. */
  lemma CycleDeterminesLinks(g: Graph, g': Graph, c: seq<Link>)
    requires Cycle(g, c) && Cycle(g', c)
    ensures forall n :: n in c ==> g.SameAt(g', n)
  {
    forall n | n in c ensures g.SameAt(g', n) {
      var i :| 0 <= i < |c| && c[i] == n;
      if i + 1 < |c| { assert g.Joined(c[i], c[i + 1]) && g'.Joined(c[i], c[i + 1]); }
      if i > 0 { assert g.Joined(c[i - 1], c[i]) && g'.Joined(c[i - 1], c[i]); }
    }
  }

  /** Conversely the sequence is determined by the links and the link it starts at. */
  lemma {:induction false} LinksDetermineCycle(g: Graph, c: seq<Link>, d: seq<Link>)
    requires Cycle(g, c) && Cycle(g, d) && c[0] == d[0]
    ensures c == d
  {
    CycleNoLonger(g, c, d);
    CycleNoLonger(g, d, c);
    CyclePrefix(g, c, d, |c|);
    assert c[..|c|] == c && d[..|d|] == d;
  }

  lemma {:induction false} CycleNoLonger(g: Graph, c: seq<Link>, d: seq<Link>)
    requires Cycle(g, c) && Cycle(g, d) && c[0] == d[0]
    ensures |d| <= |c|
  {
    if |c| < |d| {
      CyclePrefix(g, c, d, |c|);
      assert false;
    }
  }

  lemma {:induction false} CyclePrefix(g: Graph, c: seq<Link>, d: seq<Link>, k: nat)
    requires Cycle(g, c) && Cycle(g, d) && c[0] == d[0]
    requires k <= |c| && k <= |d|
    ensures c[..k] == d[..k]
  {
    if k > 1 {
      CyclePrefix(g, c, d, k - 1);
      assert c[k - 2] == c[..k - 1][k - 2] == d[..k - 1][k - 2] == d[k - 2];
      assert g.Joined(c[k - 2], c[k - 1]) && g.Joined(d[k - 2], d[k - 1]);
      assert c[..k] == c[..k - 1] + [c[k - 1]] && d[..k] == d[..k - 1] + [d[k - 1]];
    }
  }

  /** Neighbours on a cycle are on it too, and the links there are mutual. */
  lemma CycleNeighbours(g: Graph, c: seq<Link>, n: Link)
    requires Cycle(g, c) && n in c
    ensures g.Has(n) && g.next[n] in c && g.prev[n] in c
    ensures g.Joined(n, g.next[n]) && g.Joined(g.prev[n], n)
    ensures g.Has(g.next[n]) && g.Has(g.prev[n])
  {
    var i :| 0 <= i < |c| && c[i] == n;
    if i + 1 < |c| { assert g.Joined(c[i], c[i + 1]); }
    if i > 0 { assert g.Joined(c[i - 1], c[i]); }
  }
}
