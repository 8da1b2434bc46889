/** The depth-first search behind every cycle check. */
module Search {
  import opened Graphs

  ghost function EdgeSet(edges: seq<(Node, Node)>): Edges {
    set e | e in edges
  }

  ghost predicate Represents(adjacency: map<Node, seq<Node>>, edges: seq<(Node, Node)>) {
    forall a, b :: (a in adjacency && b in adjacency[a]) <==> (a, b) in edges
  }

  method Adjacency(edges: seq<(Node, Node)>) returns (adjacency: map<Node, seq<Node>>)
    ensures Represents(adjacency, edges)
  {
    adjacency := map[];
    for i := 0 to |edges|
      invariant Represents(adjacency, edges[..i])
    {
      var (a, b) := edges[i];
      var before := if a in adjacency then adjacency[a] else [];
      assert edges[..i + 1] == edges[..i] + [edges[i]];
      adjacency := adjacency[a := before + [b]];
    }
    assert edges[..|edges|] == edges;
  }

  /** Everything seen is a node the edges mention, or the start. */
  ghost function Universe(edges: seq<(Node, Node)>, start: Node): set<Node> {
    (set e | e in edges :: e.1) + {start}
  }

  /** Nodes taken off the stack have all their successors in `seen`. */
  ghost predicate Expanded(E: Edges, seen: set<Node>, n: Node) {
    forall m :: (n, m) in E ==> m in seen
  }

  lemma StaysExpanded(E: Edges, before: set<Node>, seen: set<Node>, n: Node)
    requires before <= seen && Expanded(E, before, n)
    ensures Expanded(E, seen, n)
  {
  }

  /** True exactly when `target` can be reached from `start` along the edges. */
  method ReachesByStack(edges: seq<(Node, Node)>, start: Node, target: Node) returns (found: bool)
    ensures found <==> Reaches(EdgeSet(edges), start, target)
  {
    var adjacency := Adjacency(edges);
    ghost var E, U := EdgeSet(edges), Universe(edges, start);
    var stack, seen := [start], {start};
    ReachesSelf(E, start);
    while stack != []
      invariant start in seen && seen <= U
      invariant forall n :: n in stack ==> n in seen
      invariant forall n :: n in seen ==> Reaches(E, start, n)
      invariant forall n :: n in seen ==> n in stack || (n != target && Expanded(E, seen, n))
      decreases U - seen, |stack|
    {
      var node := stack[|stack| - 1];
      stack := stack[..|stack| - 1];
      if node == target {
        return true;
      }
      var nexts := if node in adjacency then adjacency[node] else [];
      ghost var seen0, stack0 := seen, stack;
      for i := 0 to |nexts|
        invariant seen0 <= seen <= U && stack0 <= stack
        invariant seen == seen0 ==> stack == stack0
        invariant forall n :: n in stack ==> n in seen
        invariant forall n :: n in seen ==> Reaches(E, start, n)
        invariant forall n :: n in seen ==> n in seen0 || n in stack
        invariant forall j :: 0 <= j < i ==> nexts[j] in seen
      {
        var nxt := nexts[i];
        if nxt !in seen {
          assert (node, nxt) in edges;
          ReachesEdge(E, node, nxt);
          ReachesTrans(E, start, node, nxt);
          seen := seen + {nxt};
          stack := stack + [nxt];
        }
      }
      assert Expanded(E, seen, node);
      forall n | n in seen && n !in stack && n != node ensures n != target && Expanded(E, seen, n) {
        assert n in seen0 && n !in stack0;
        StaysExpanded(E, seen0, seen, n);
      }
    }
    if Reaches(E, start, target) {
      var n: nat :| Hops(E, start, target, n);
      ClosedKeepsHops(E, seen, start, target, n);
    }
    return false;
  }
}
