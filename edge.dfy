/** The `Edge` object: a directed, weighted connection between two vertices.
    The source holds raw vertex pointers; here an endpoint is `Null` or the
    vertex at a given position, which identifies it uniquely in a graph. */
module Edges {

  /** A non-owning reference to a vertex. */
  datatype Ref = Null | Ptr(position: nat)

  class Edge {
    var source: Ref
    var destination: Ref
    var cost: real

    /** `Edge()`: no endpoints, cost 0. */
    constructor Default()
      ensures source == Null && destination == Null && cost == 0.0
      ensures !IsValid()
    {
      source, destination, cost := Null, Null, 0.0;
    }

    /** `Edge(cost)`: no endpoints, the given cost. */
    constructor WithCost(c: real)
      ensures source == Null && destination == Null && cost == c
      ensures !IsValid()
    {
      source, destination, cost := Null, Null, c;
    }

    /** `Edge(src, dest, cost)`. */
    constructor (src: Ref, dst: Ref, c: real)
      ensures source == src && destination == dst && cost == c
      ensures IsValid() <==> src != Null && dst != Null
    {
      source, destination, cost := src, dst, c;
    }

    method SetSource(src: Ref)
      modifies this
      ensures source == src
      ensures destination == old(destination) && cost == old(cost)
    {
      source := src;
    }

    method SetDestination(dst: Ref)
      modifies this
      ensures destination == dst
      ensures source == old(source) && cost == old(cost)
    {
      destination := dst;
    }

    method SetCost(c: real)
      modifies this
      ensures cost == c
      ensures source == old(source) && destination == old(destination)
    {
      cost := c;
    }

    /** Sets both endpoints through the two single setters. */
    method SetSourceDestination(src: Ref, dst: Ref)
      modifies this
      ensures source == src && destination == dst
      ensures cost == old(cost)
    {
      SetSource(src);
      SetDestination(dst);
    }

    /** Swaps source and destination; the cost stays. */
    method ReverseDirection()
      modifies this
      ensures source == old(destination) && destination == old(source)
      ensures cost == old(cost)
    {
      source, destination := destination, source;
    }

    method UpdateCost(c: real)
      modifies this
      ensures cost == c
      ensures source == old(source) && destination == old(destination)
    {
      cost := c;
    }

    /** Both endpoints are set: the null reference is not one of them. */
    function IsValid(): (valid: bool)
      reads this
      ensures valid <==> !IsConnected(Null)
    {
      source != Null && destination != Null
    }

    /** `v` is one of the two endpoints. */
    function IsConnected(v: Ref): (connected: bool)
      reads this
      ensures connected <==> v in {source, destination}
    {
      source == v || destination == v
    }

    /** `operator==`: same endpoints and same cost. */
    predicate Equal(other: Edge)
      reads this, other
    {
      source == other.source && destination == other.destination && cost == other.cost
    }

    /** `operator!=`. */
    predicate NotEqual(other: Edge)
      reads this, other
    {
      !Equal(other)
    }

    /** `operator<`: compares costs only. */
    predicate Less(other: Edge)
      reads this, other
    {
      cost < other.cost
    }

    /** `operator>`: compares costs only. */
    predicate Greater(other: Edge)
      reads this, other
    {
      cost > other.cost
    }
  }

  /** Reversing an edge twice gives back the original edge. */
  method ReverseTwice(e: Edge)
    modifies e
    ensures e.source == old(e.source) && e.destination == old(e.destination)
    ensures e.cost == old(e.cost)
  {
    e.ReverseDirection();
    e.ReverseDirection();
  }

  /** Setting the cost never disturbs the endpoints, so validity and the
      connection test are unaffected. */
  method SetCostKeepsShape(e: Edge, c: real, v: Ref)
    modifies e
    ensures e.IsValid() == old(e.IsValid())
    ensures e.IsConnected(v) == old(e.IsConnected(v))
    ensures e.cost == c
  {
    e.SetCost(c);
  }

  /** `!=` is the negation of `==`, `==` is an equivalence on the three
      fields, and `<`/`>` are converse to each other and ignore endpoints. */
  lemma ComparisonLaws(a: Edge, b: Edge, c: Edge)
    ensures a.NotEqual(b) <==> !a.Equal(b)
    ensures a.Equal(a)
    ensures a.Equal(b) ==> b.Equal(a)
    ensures a.Equal(b) && b.Equal(c) ==> a.Equal(c)
    ensures a.Less(b) <==> b.Greater(a)
    ensures !(a.Less(b) && b.Less(a))
    ensures a.Equal(b) ==> !a.Less(b) && !a.Greater(b)
  {
  }
}
