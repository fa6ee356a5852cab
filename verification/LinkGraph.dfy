/** Ring links: the heap objects that carry them, and a value-level picture of them.

    A link is one `next`/`prev` pair.  The head of a ring is itself a link, because the
    sentinel is the address at which the head's two fields look like those of an element.
    A `Graph` is what a piece of the heap holds at one instant; its domain is the memory
    that is allocated. */
module LinkGraph {

  class Link {
    var next: Link
    var prev: Link

    /** A link that has been through ELEM_INIT, or a head that has been through INIT. */
    constructor ()
      ensures next == this && prev == this
    {
      next := this;
      prev := this;
    }
  }

  datatype Graph = Graph(next: map<Link, Link>, prev: map<Link, Link>) {

    /** `n` is allocated, so both of its fields may be read and written. */
    predicate Has(n: Link) {
      n in next && n in prev
    }

    /** `a` and `b` point at each other. */
    predicate Joined(a: Link, b: Link) {
      a in next && b in prev && next[a] == b && prev[b] == a
    }

    predicate SelfLinked(n: Link) {
      Has(n) && next[n] == n && prev[n] == n
    }

    function WithNext(n: Link, v: Link): Graph {
      Graph(next[n := v], prev)
    }

    function WithPrev(n: Link, v: Link): Graph {
      Graph(next, prev[n := v])
    }

    /** Both fields of `n` are the same here and in `that`. */
    predicate SameAt(that: Graph, n: Link) {
      Has(n) && that.Has(n) && next[n] == that.next[n] && prev[n] == that.prev[n]
    }

    ghost predicate SameDomain(that: Graph) {
      next.Keys == that.next.Keys && prev.Keys == that.prev.Keys
    }
  }

  /** The links of the objects in `nodes`. */
  ghost function Snap(nodes: set<Link>): (g: Graph)
    reads nodes
    ensures g.next.Keys == nodes && g.prev.Keys == nodes
  {
    Graph(map n | n in nodes :: n.next, map n | n in nodes :: n.prev)
  }

  lemma SnapAt(nodes: set<Link>, n: Link)
    requires n in nodes
    ensures Snap(nodes).Has(n) && Snap(nodes).next[n] == n.next && Snap(nodes).prev[n] == n.prev
  {
  }

  /** The assignment `NEXT(n) = v`. */
  method SetNext(n: Link, v: Link, ghost nodes: set<Link>)
    requires n in nodes
    modifies n`next
    ensures n.next == v
    ensures Snap(nodes) == old(Snap(nodes)).WithNext(n, v)
  {
    n.next := v;
  }

  /** The assignment `PREV(n) = v`. */
  method SetPrev(n: Link, v: Link, ghost nodes: set<Link>)
    requires n in nodes
    modifies n`prev
    ensures n.prev == v
    ensures Snap(nodes) == old(Snap(nodes)).WithPrev(n, v)
  {
    n.prev := v;
  }
}
