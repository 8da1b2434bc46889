/** Reachability and cycles in a finite directed graph given as a set of edges.
    `Hops(E, a, b, n)` says that some walk of exactly n edges leads from a to b. */
module Graphs {
  type Node = string
  type Edges = set<(Node, Node)>

  ghost predicate Hops(E: Edges, a: Node, b: Node, n: nat)
    decreases n
  {
    if n == 0 then a == b
    else exists c :: (a, c) in E && Hops(E, c, b, n - 1)
  }

  ghost predicate Reaches(E: Edges, a: Node, b: Node) {
    exists n: nat :: Hops(E, a, b, n)
  }

  ghost predicate OnCycle(E: Edges, x: Node) {
    exists y :: (x, y) in E && Reaches(E, y, x)
  }

  ghost predicate Acyclic(E: Edges) {
    forall x :: !OnCycle(E, x)
  }

  ghost predicate ReachesCycle(E: Edges, x: Node) {
    exists z :: Reaches(E, x, z) && OnCycle(E, z)
  }

  // ---- walks ----

  lemma ReachesSelf(E: Edges, a: Node)
    ensures Reaches(E, a, a)
  {
    assert Hops(E, a, a, 0);
  }

  lemma ReachesStep(E: Edges, a: Node, c: Node, b: Node)
    requires (a, c) in E && Reaches(E, c, b)
    ensures Reaches(E, a, b)
  {
    var n: nat :| Hops(E, c, b, n);
    assert Hops(E, a, b, n + 1);
  }

  lemma ReachesEdge(E: Edges, a: Node, b: Node)
    requires (a, b) in E
    ensures Reaches(E, a, b)
  {
    ReachesSelf(E, b);
    ReachesStep(E, a, b, b);
  }

  lemma {:induction false} HopsTrans(E: Edges, a: Node, b: Node, c: Node, m: nat)
    requires Hops(E, a, b, m) && Reaches(E, b, c)
    ensures Reaches(E, a, c)
    decreases m
  {
    if m > 0 {
      var d :| (a, d) in E && Hops(E, d, b, m - 1);
      HopsTrans(E, d, b, c, m - 1);
      ReachesStep(E, a, d, c);
    }
  }

  lemma ReachesTrans(E: Edges, a: Node, b: Node, c: Node)
    requires Reaches(E, a, b) && Reaches(E, b, c)
    ensures Reaches(E, a, c)
  {
    var m: nat :| Hops(E, a, b, m);
    HopsTrans(E, a, b, c, m);
  }

  lemma {:induction false} HopsMono(E: Edges, F: Edges, a: Node, b: Node, n: nat)
    requires E <= F && Hops(E, a, b, n)
    ensures Reaches(F, a, b)
    decreases n
  {
    if n == 0 {
      ReachesSelf(F, a);
    } else {
      var c :| (a, c) in E && Hops(E, c, b, n - 1);
      HopsMono(E, F, c, b, n - 1);
      ReachesStep(F, a, c, b);
    }
  }

  lemma ReachesMono(E: Edges, F: Edges, a: Node, b: Node)
    requires E <= F && Reaches(E, a, b)
    ensures Reaches(F, a, b)
  {
    var n: nat :| Hops(E, a, b, n);
    HopsMono(E, F, a, b, n);
  }

  /** A set closed under successors keeps every walk that starts in it. */
  lemma {:induction false} ClosedKeepsHops(E: Edges, S: set<Node>, a: Node, b: Node, n: nat)
    requires forall e :: e in E && e.0 in S ==> e.1 in S
    requires a in S && Hops(E, a, b, n)
    ensures b in S
    decreases n
  {
    if n > 0 {
      var c :| (a, c) in E && Hops(E, c, b, n - 1);
      ClosedKeepsHops(E, S, c, b, n - 1);
    }
  }

  /** A non-trivial walk ends with an edge into its target. */
  lemma {:induction false} ReachesEndsWithEdge(E: Edges, a: Node, b: Node, n: nat)
    requires Hops(E, a, b, n) && a != b
    ensures exists c :: (c, b) in E
    decreases n
  {
    var c :| (a, c) in E && Hops(E, c, b, n - 1);
    if c == b {
      assert (a, b) in E;
    } else {
      ReachesEndsWithEdge(E, c, b, n - 1);
    }
  }

  // ---- changing the edge set ----

  lemma AcyclicSubset(E: Edges, F: Edges)
    requires E <= F && Acyclic(F)
    ensures Acyclic(E)
  {
    forall x ensures !OnCycle(E, x) {
      if OnCycle(E, x) {
        var y :| (x, y) in E && Reaches(E, y, x);
        ReachesMono(E, F, y, x);
        assert OnCycle(F, x);
      }
    }
  }

  /** A walk after adding (a, b) either avoids the new edge or passes it. */
  lemma {:induction false} HopsAfterAdd(E: Edges, a: Node, b: Node, x: Node, y: Node, n: nat)
    requires Hops(E + {(a, b)}, x, y, n)
    ensures Reaches(E, x, y) || (Reaches(E, x, a) && Reaches(E, b, y))
    decreases n
  {
    if n == 0 {
      ReachesSelf(E, x);
    } else {
      var c :| (x, c) in E + {(a, b)} && Hops(E + {(a, b)}, c, y, n - 1);
      HopsAfterAdd(E, a, b, c, y, n - 1);
      if (x, c) in E {
        if Reaches(E, c, y) {
          ReachesStep(E, x, c, y);
        } else {
          ReachesStep(E, x, c, a);
        }
      } else {
        ReachesSelf(E, a);
      }
    }
  }

  /** The fact every cycle check relies on: a new edge closes a cycle exactly
      when its head already reaches its tail. */
  lemma AcyclicAddEdge(E: Edges, a: Node, b: Node)
    requires Acyclic(E)
    ensures Acyclic(E + {(a, b)}) <==> !Reaches(E, b, a)
  {
    var F := E + {(a, b)};
    if Reaches(E, b, a) {
      ReachesMono(E, F, b, a);
      assert (a, b) in F;
      assert OnCycle(F, a);
    }
    forall x | OnCycle(F, x) ensures Reaches(E, b, a) {
      var y :| (x, y) in F && Reaches(F, y, x);
      var n: nat :| Hops(F, y, x, n);
      HopsAfterAdd(E, a, b, y, x, n);
      if (x, y) in E {
        assert !OnCycle(E, x);
        ReachesStep(E, x, y, a);
        ReachesTrans(E, b, x, a);
      }
    }
  }

  /** Walks into t never need t's own outgoing edges. */
  lemma {:induction false} HopsWithoutExits(E: Edges, F: Edges, a: Node, t: Node, n: nat)
    requires Hops(E, a, t, n)
    requires forall e :: e in E && e.0 != t ==> e in F
    ensures Reaches(F, a, t)
    decreases n
  {
    if a == t {
      ReachesSelf(F, t);
    } else {
      var c :| (a, c) in E && Hops(E, c, t, n - 1);
      HopsWithoutExits(E, F, c, t, n - 1);
      ReachesStep(F, a, c, t);
    }
  }

  /** Replacing all of t's exits by the single edge (t, p) keeps an acyclic
      graph acyclic exactly when p did not reach t. */
  lemma AcyclicRedirect(E: Edges, F: Edges, t: Node, p: Node)
    requires Acyclic(E)
    requires forall e :: e in F <==> (e in E && e.0 != t) || e == (t, p)
    ensures Acyclic(F) <==> !Reaches(E, p, t)
  {
    var E0 := set e | e in E && e.0 != t;
    assert F == E0 + {(t, p)};
    AcyclicSubset(E0, E);
    AcyclicAddEdge(E0, t, p);
    if Reaches(E, p, t) {
      var n: nat :| Hops(E, p, t, n);
      HopsWithoutExits(E, E0, p, t, n);
    }
    if Reaches(E0, p, t) {
      ReachesMono(E0, E, p, t);
    }
  }

  // ---- finite sets without a sink ----

  ghost predicate HasExit(E: Edges, S: set<Node>, x: Node) {
    exists y :: y in S && (x, y) in E
  }

  ghost predicate NoSink(E: Edges, S: set<Node>) {
    forall x {:trigger HasExit(E, S, x)} :: x in S ==> HasExit(E, S, x)
  }

  ghost function Beyond(E: Edges, S: set<Node>, x: Node): set<Node> {
    set y | y in S && exists c :: (x, c) in E && Reaches(E, c, y)
  }

  lemma BeyondShrinks(E: Edges, S: set<Node>, x: Node, y: Node)
    requires y in S && (x, y) in E && !OnCycle(E, y)
    ensures Beyond(E, S, y) < Beyond(E, S, x)
  {
    ReachesSelf(E, y);
    assert y in Beyond(E, S, x);
    assert y !in Beyond(E, S, y);
    forall z | z in Beyond(E, S, y) ensures z in Beyond(E, S, x) {
      var c :| (y, c) in E && Reaches(E, c, z);
      ReachesStep(E, y, c, z);
    }
  }

  /** If every node of S has a successor in S, every node of S reaches a cycle. */
  lemma {:induction false} NoSinkReachesCycle(E: Edges, S: set<Node>, x: Node)
    requires x in S && NoSink(E, S)
    ensures ReachesCycle(E, x)
    decreases Beyond(E, S, x)
  {
    assert HasExit(E, S, x);
    var y :| y in S && (x, y) in E;
    ReachesEdge(E, x, y);
    if !OnCycle(E, y) {
      BeyondShrinks(E, S, x, y);
      NoSinkReachesCycle(E, S, y);
      var z :| Reaches(E, y, z) && OnCycle(E, z);
      ReachesStep(E, x, y, z);
    }
  }

  /** A node that reaches a cycle has a successor that does. */
  lemma ReachesCycleStep(E: Edges, x: Node)
    requires ReachesCycle(E, x)
    ensures exists y :: (x, y) in E && ReachesCycle(E, y)
  {
    var z :| Reaches(E, x, z) && OnCycle(E, z);
    var n: nat :| Hops(E, x, z, n);
    if n == 0 {
      var y :| (z, y) in E && Reaches(E, y, z);
      assert ReachesCycle(E, y);
    } else {
      var y :| (x, y) in E && Hops(E, y, z, n - 1);
      assert Reaches(E, y, z);
    }
  }

  lemma AcyclicIffNoneReachesCycle(E: Edges)
    ensures Acyclic(E) <==> forall e :: e in E ==> !ReachesCycle(E, e.0)
  {
    if !Acyclic(E) {
      var x :| OnCycle(E, x);
      var y :| (x, y) in E && Reaches(E, y, x);
      ReachesSelf(E, x);
      assert ReachesCycle(E, (x, y).0);
    }
  }

  // ---- graphs side by side, and renamed graphs ----

  lemma {:induction false} HopsStayApart(D: Edges, P: Edges, S: set<Node>, x: Node, y: Node, n: nat)
    requires forall e :: e in D ==> e.0 !in S && e.1 !in S
    requires forall e :: e in P ==> e.0 in S && e.1 in S
    requires Hops(D + P, x, y, n)
    ensures Reaches(if x in S then P else D, x, y)
    ensures x in S <==> y in S
    decreases n
  {
    var E := if x in S then P else D;
    if n == 0 {
      ReachesSelf(E, x);
    } else {
      var c :| (x, c) in D + P && Hops(D + P, c, y, n - 1);
      HopsStayApart(D, P, S, c, y, n - 1);
      ReachesStep(E, x, c, y);
    }
  }

  /** Two graphs on disjoint nodes make an acyclic whole exactly when both are acyclic. */
  lemma AcyclicApart(D: Edges, P: Edges, S: set<Node>)
    requires forall e :: e in D ==> e.0 !in S && e.1 !in S
    requires forall e :: e in P ==> e.0 in S && e.1 in S
    ensures Acyclic(D + P) <==> Acyclic(D) && Acyclic(P)
  {
    if Acyclic(D + P) {
      AcyclicSubset(D, D + P);
      AcyclicSubset(P, D + P);
    }
    forall x | OnCycle(D + P, x) ensures OnCycle(D, x) || OnCycle(P, x) {
      var y :| (x, y) in D + P && Reaches(D + P, y, x);
      var n: nat :| Hops(D + P, y, x, n);
      HopsStayApart(D, P, S, y, x, n);
    }
  }

  lemma {:induction false} HopsImage(E: Edges, F: Edges, f: map<Node, Node>, a: Node, b: Node, n: nat)
    requires forall e :: e in E ==> e.0 in f && e.1 in f && (f[e.0], f[e.1]) in F
    requires a in f && Hops(E, a, b, n)
    ensures b in f && Reaches(F, f[a], f[b])
    decreases n
  {
    if n == 0 {
      ReachesSelf(F, f[a]);
    } else {
      var c :| (a, c) in E && Hops(E, c, b, n - 1);
      HopsImage(E, F, f, c, b, n - 1);
      ReachesStep(F, f[a], f[c], f[b]);
    }
  }

  lemma CycleImage(E: Edges, F: Edges, f: map<Node, Node>, x: Node)
    requires forall e :: e in E ==> e.0 in f && e.1 in f && (f[e.0], f[e.1]) in F
    requires OnCycle(E, x)
    ensures x in f && OnCycle(F, f[x])
  {
    var y :| (x, y) in E && Reaches(E, y, x);
    var n: nat :| Hops(E, y, x, n);
    assert (x, y).0 in f && (x, y).1 in f && (f[x], f[y]) in F;
    HopsImage(E, F, f, y, x, n);
  }

  lemma AcyclicPreimage(E: Edges, F: Edges, f: map<Node, Node>)
    requires forall e :: e in E ==> e.0 in f && e.1 in f && (f[e.0], f[e.1]) in F
    requires Acyclic(F)
    ensures Acyclic(E)
  {
    forall x ensures !OnCycle(E, x) {
      if OnCycle(E, x) {
        CycleImage(E, F, f, x);
      }
    }
  }

  ghost function Image(E: Edges, f: map<Node, Node>): Edges {
    set e | e in E && e.0 in f && e.1 in f :: (f[e.0], f[e.1])
  }

  /** Renaming nodes one to one neither makes nor breaks cycles. */
  lemma AcyclicRenamed(E: Edges, f: map<Node, Node>)
    requires forall e :: e in E ==> e.0 in f && e.1 in f
    requires forall x, y :: x in f && y in f && f[x] == f[y] ==> x == y
    ensures Acyclic(Image(E, f)) <==> Acyclic(E)
  {
    var I := Image(E, f);
    var back := map y | y in f.Values :: var x :| x in f && f[x] == y; x;
    forall x | x in f ensures f[x] in back && back[f[x]] == x {
      assert f[x] in f.Values;
    }
    if Acyclic(I) { AcyclicPreimage(E, I, f); }
    if Acyclic(E) { AcyclicPreimage(I, E, back); }
  }
}
