/** Adjacency lists packed into one edge vector (`src/graph.rs:33-101`). */
module VecGraphs {
  import opened Relations

  datatype Span = Span(start: nat, end: nat)

  datatype VecGraph = VecGraph(nodes: seq<Span>, edges: seq<nat>)

  const EMPTY := VecGraph([], [])

  ghost predicate Packed(g: VecGraph) {
    forall i :: 0 <= i < |g.nodes| ==> g.nodes[i].start <= g.nodes[i].end <= |g.edges|
  }

  /** The successors of `i`, in order (`full_edges`). */
  function FullEdges(g: VecGraph, i: nat): seq<nat>
    requires Packed(g) && i < |g.nodes|
  {
    g.edges[g.nodes[i].start..g.nodes[i].end]
  }

  /** The adjacency lists a packed graph holds. */
  function Unpack(g: VecGraph): (lists: Lists)
    requires Packed(g)
    ensures |lists| == |g.nodes|
    ensures forall i :: 0 <= i < |lists| ==> lists[i] == FullEdges(g, i)
  {
    seq(|g.nodes|, i requires 0 <= i < |g.nodes| => FullEdges(g, i))
  }

  /** Appends one node with its successors. */
  function Append(g: VecGraph, list: seq<nat>): VecGraph {
    VecGraph(g.nodes + [Span(|g.edges|, |g.edges| + |list|)], g.edges + list)
  }

  lemma AppendUnpacks(g: VecGraph, list: seq<nat>)
    requires Packed(g)
    ensures Packed(Append(g, list))
    ensures Unpack(Append(g, list)) == Unpack(g) + [list]
  {
    var h := Append(g, list);
    forall i | 0 <= i < |h.nodes| ensures Unpack(h)[i] == (Unpack(g) + [list])[i] {
      if i < |g.nodes| {
        assert h.nodes[i] == g.nodes[i];
        assert FullEdges(h, i) == FullEdges(g, i);
      }
    }
  }

  /** The one packed graph that holds the lists back to back. */
  ghost function Pack(lists: Lists): VecGraph {
    if lists == [] then EMPTY else Append(Pack(lists[..|lists| - 1]), lists[|lists| - 1])
  }

  /** Packing loses nothing: unpacking gives the lists back. */
  method FromAdjacencyLists(lists: Lists) returns (g: VecGraph)
    ensures Packed(g) && Unpack(g) == lists && g == Pack(lists)
  {
    g := EMPTY;
    for i := 0 to |lists|
      invariant Packed(g) && Unpack(g) == lists[..i] && g == Pack(lists[..i])
    {
      AppendUnpacks(g, lists[i]);
      g := Append(g, lists[i]);
      assert lists[..i + 1][..i] == lists[..i];
    }
    assert lists[..|lists|] == lists;
  }
}
