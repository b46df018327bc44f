/**
 * The graph the backend returns, and the referential-integrity check the
 * viewer applies to it before display: an edge is kept only when both of its
 * endpoints name a node of the same response.
 */
module GraphData {
  import opened Options

  /** A graph element's `data`: the viewer reads only `id`; the other fields are carried through. */
  datatype Node = Node(id: string, nodeType: string, nodeLabel: string, attributes: map<string, string>)

  datatype Edge = Edge(id: string, source: string, target: string, edgeLabel: string)

  datatype Graph = Graph(nodes: seq<Node>, edges: seq<Edge>)

  /** `{ nodes: [], edges: [] }` */
  const EmptyGraph: Graph := Graph([], [])

  /** `new Set(nodes.map(node => node.data.id))` */
  function NodeIds(nodes: seq<Node>): (ids: set<string>)
    ensures forall i :: 0 <= i < |nodes| ==> nodes[i].id in ids
    ensures forall id :: id in ids ==> exists i :: 0 <= i < |nodes| && nodes[i].id == id
  {
    set n | n in nodes :: n.id
  }

  /** Both endpoints of `e` are among `ids`. */
  predicate Connects(e: Edge, ids: set<string>) {
    e.source in ids && e.target in ids
  }

  /** `edges.filter(edge => nodeIds.has(edge.data.source) && nodeIds.has(edge.data.target))` */
  function ValidEdges(edges: seq<Edge>, ids: set<string>): (kept: seq<Edge>)
    ensures |kept| <= |edges|
    ensures forall e :: e in kept ==> e in edges && Connects(e, ids)
    ensures forall e :: e in edges && Connects(e, ids) ==> e in kept
  {
    if edges == [] then []
    else if Connects(edges[0], ids) then [edges[0]] + ValidEdges(edges[1..], ids)
    else ValidEdges(edges[1..], ids)
  }

  /** `s` can be obtained from `t` by deleting elements, so it lists what it keeps in `t`'s order. */
  predicate IsSubsequence<T(==)>(s: seq<T>, t: seq<T>)
    decreases |t|
  {
    if s == [] then true
    else if t == [] then false
    else if s[0] == t[0] then IsSubsequence(s[1..], t[1..])
    else IsSubsequence(s, t[1..])
  }

  /** The filter does not reorder: kept edges appear in their original relative order. */
  lemma {:induction false} ValidEdgesInOrder(edges: seq<Edge>, ids: set<string>)
    ensures IsSubsequence(ValidEdges(edges, ids), edges)
  {
    if edges != [] {
      ValidEdgesInOrder(edges[1..], ids);
      if !Connects(edges[0], ids) {
        SubsequenceOfTail(ValidEdges(edges[1..], ids), edges);
      }
    }
  }

  /** Prepending an element to the longer sequence keeps a subsequence a subsequence. */
  lemma {:induction false} SubsequenceOfTail<T>(s: seq<T>, t: seq<T>)
    requires t != []
    requires IsSubsequence(s, t[1..])
    ensures IsSubsequence(s, t)
    decreases |t|, 0
  {
    if s != [] && s[0] == t[0] {
      SubsequenceDropHead(s, t[1..]);
    }
  }

  /** Removing the first element of the shorter sequence keeps a subsequence a subsequence. */
  lemma {:induction false} SubsequenceDropHead<T>(s: seq<T>, u: seq<T>)
    requires s != []
    requires IsSubsequence(s, u)
    ensures IsSubsequence(s[1..], u)
    decreases |u|, 1
  {
    if s[0] == u[0] {
      SubsequenceOfTail(s[1..], u);
    } else {
      SubsequenceDropHead(s, u[1..]);
      SubsequenceOfTail(s[1..], u);
    }
  }

  /**
   * Each edge occurs in the result exactly as often as in the input when both
   * of its endpoints are present, and not at all otherwise: nothing valid is
   * dropped and nothing invalid survives, duplicates included.
   */
  lemma {:induction false} ValidEdgesCounts(edges: seq<Edge>, ids: set<string>, e: Edge)
    ensures multiset(ValidEdges(edges, ids))[e] == if Connects(e, ids) then multiset(edges)[e] else 0
  {
    if edges != [] {
      ValidEdgesCounts(edges[1..], ids, e);
      assert edges == [edges[0]] + edges[1..];
    }
  }

  /** Filtering distributes over concatenation, so it is decided edge by edge. */
  lemma {:induction false} ValidEdgesAppend(a: seq<Edge>, b: seq<Edge>, ids: set<string>)
    ensures ValidEdges(a + b, ids) == ValidEdges(a, ids) + ValidEdges(b, ids)
  {
    if a == [] {
      assert a + b == b;
    } else {
      var ab := a + b;
      assert ab[0] == a[0];
      assert ab[1..] == a[1..] + b;
      ValidEdgesAppend(a[1..], b, ids);
      var rest := ValidEdges(a[1..], ids) + ValidEdges(b, ids);
      assert ValidEdges(ab[1..], ids) == rest;
      if Connects(a[0], ids) {
        assert ValidEdges(ab, ids) == [a[0]] + rest;
        assert ValidEdges(a, ids) == [a[0]] + ValidEdges(a[1..], ids);
      } else {
        assert ValidEdges(ab, ids) == rest;
      }
    }
  }

  /** Filtering an already filtered list with the same ids changes nothing. */
  lemma {:induction false} ValidEdgesIdempotent(edges: seq<Edge>, ids: set<string>)
    ensures ValidEdges(ValidEdges(edges, ids), ids) == ValidEdges(edges, ids)
  {
    if edges != [] {
      ValidEdgesIdempotent(edges[1..], ids);
    }
  }

  /** Referential integrity: every edge's endpoints name nodes of the same graph. */
  predicate Closed(g: Graph) {
    forall e :: e in g.edges ==> Connects(e, NodeIds(g.nodes))
  }

  /**
   * `response.data`: `Falsy` stands for every value that fails `if (lastResponse)`
   * (null, an empty body); `Value` for any other value, whose `nodes` and `edges`
   * fields may be missing.
   */
  datatype Body = Falsy | Value(nodes: Option<seq<Node>>, edges: Option<seq<Edge>>)

  /**
   * What the handler makes of the final body: nothing to show, a body whose
   * missing field makes `nodes.map` or `edges.filter` throw, or a validated graph.
   */
  datatype Resolution = NoData | Malformed | Loaded(graph: Graph)

  function Resolve(body: Body): (r: Resolution)
    ensures r.NoData? <==> body.Falsy?
    ensures r.Loaded? <==> body.Value? && body.nodes.Some? && body.edges.Some?
    ensures r.Loaded? ==> r.graph.nodes == body.nodes.value
    ensures r.Loaded? ==> Closed(r.graph) && IsSubsequence(r.graph.edges, body.edges.value)
    ensures r.Loaded? ==> forall e :: e in body.edges.value && Connects(e, NodeIds(body.nodes.value)) ==> e in r.graph.edges
    ensures r.Loaded? ==> forall e :: multiset(r.graph.edges)[e]
                                     == if Connects(e, NodeIds(body.nodes.value)) then multiset(body.edges.value)[e] else 0
  {
    match body
    case Falsy => NoData
    case Value(nodes, edges) =>
      if nodes.None? || edges.None? then Malformed
      else
        ValidEdgesInOrder(edges.value, NodeIds(nodes.value));
        assert forall e :: multiset(ValidEdges(edges.value, NodeIds(nodes.value)))[e]
                           == if Connects(e, NodeIds(nodes.value)) then multiset(edges.value)[e] else 0 by {
          forall e {
            ValidEdgesCounts(edges.value, NodeIds(nodes.value), e);
          }
        }
        Loaded(Graph(nodes.value, ValidEdges(edges.value, NodeIds(nodes.value))))
  }

  /** A response with no nodes validates to the empty graph: every edge is dangling. */
  lemma {:induction false} NoNodesNoEdges(edges: seq<Edge>)
    ensures Resolve(Value(Some([]), Some(edges))) == Loaded(EmptyGraph)
  {
    assert NodeIds([]) == {};
    if edges != [] {
      NoNodesNoEdges(edges[1..]);
    }
  }

  /**
   * Nodes 1 and 2 of type Wall and 3 of type Door, edge e1 from 1 to 3 and
   * edge e2 from 2 to the absent node 99: only e1 is kept.
   */
  lemma DanglingEdgeDropped()
    ensures
      var nodes := [Node("1", "Wall", "", map[]), Node("2", "Wall", "", map[]), Node("3", "Door", "", map[])];
      var e1 := Edge("e1", "1", "3", "");
      var e2 := Edge("e2", "2", "99", "");
      Resolve(Value(Some(nodes), Some([e1, e2]))) == Loaded(Graph(nodes, [e1]))
  {
    var nodes := [Node("1", "Wall", "", map[]), Node("2", "Wall", "", map[]), Node("3", "Door", "", map[])];
    var ids := NodeIds(nodes);
    assert nodes[0].id in ids && nodes[2].id in ids;
    assert "99" !in ids;
  }
}
