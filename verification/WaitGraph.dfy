/** Graphs in which every node has at most one outgoing edge. The wait-for graph of threads is one:
    a blocked thread waits for the one thread recorded in its mapping. So are the superclass links. */
module WaitGraph {

  type Node = nat
  type Graph = map<Node, Node>

  /** n edges lead from x to y. */
  ghost predicate Path(g: Graph, x: Node, n: nat, y: Node)
    decreases n
  {
    if n == 0 then x == y else x in g && Path(g, g[x], n - 1, y)
  }

  ghost predicate Reaches(g: Graph, x: Node, y: Node) {
    exists n: nat :: Path(g, x, n, y)
  }

  ghost predicate Acyclic(g: Graph) {
    forall x, n: nat :: n > 0 ==> !Path(g, x, n, x)
  }

  /** Some walk from x to y runs through c. */
  ghost predicate Through(g: Graph, x: Node, c: Node, y: Node) {
    exists n: nat, k: nat :: Path(g, x, n, c) && Path(g, c, k, y)
  }

  lemma {:induction false} PathConcat(g: Graph, x: Node, n: nat, y: Node, k: nat, z: Node)
    requires Path(g, x, n, y) && Path(g, y, k, z)
    ensures Path(g, x, n + k, z)
    decreases n
  {
    if n > 0 {
      PathConcat(g, g[x], n - 1, y, k, z);
    }
  }

  lemma {:induction false} PathIsFunctional(g: Graph, x: Node, n: nat, y: Node, z: Node)
    requires Path(g, x, n, y) && Path(g, x, n, z)
    ensures y == z
    decreases n
  {
    if n > 0 {
      PathIsFunctional(g, g[x], n - 1, y, z);
    }
  }

  /** What is left of a path after a prefix of it. */
  lemma {:induction false} PathRest(g: Graph, x: Node, n: nat, y: Node, k: nat, z: Node)
    requires n <= k && Path(g, x, n, y) && Path(g, x, k, z)
    ensures Path(g, y, k - n, z)
    decreases n
  {
    if n > 0 {
      PathRest(g, g[x], n - 1, y, k - 1, z);
    }
  }

  /** g' keeps edges of g, drops some, and sends the rest to u, which has no edge in g'. */
  ghost predicate RedirectedTo(g: Graph, g': Graph, u: Node) {
    && u !in g'
    && forall x :: x in g' ==> (x in g && g'[x] == g[x]) || g'[x] == u
  }

  lemma {:induction false} RedirectedPath(g: Graph, g': Graph, u: Node, x: Node, n: nat, y: Node)
    requires RedirectedTo(g, g', u)
    requires Path(g', x, n, y) && y != u
    ensures Path(g, x, n, y)
    decreases n
  {
    if n > 0 {
      RedirectedPath(g, g', u, g'[x], n - 1, y);
    }
  }

  /** A redirection never closes a cycle: u, the only new target, leads nowhere. */
  lemma AcyclicRedirect(g: Graph, g': Graph, u: Node)
    requires Acyclic(g) && RedirectedTo(g, g', u)
    ensures Acyclic(g')
  {
    forall x, n: nat | n > 0
      ensures !Path(g', x, n, x)
    {
      if Path(g', x, n, x) {
        RedirectedPath(g, g', u, x, n, x);
      }
    }
  }

  /** A walk that has got as far as c on the way from o to t still has, after a redirection
      to some u other than t, if o can still reach t at all. */
  lemma ThroughRedirect(g: Graph, g': Graph, u: Node, o: Node, c: Node, t: Node)
    requires RedirectedTo(g, g', u) && u != t
    requires Reaches(g, o, t) ==> Through(g, o, c, t)
    requires Acyclic(g)
    ensures Reaches(g', o, t) ==> Through(g', o, c, t)
  {
    if Reaches(g', o, t) {
      var k: nat :| Path(g', o, k, t);
      RedirectedPath(g, g', u, o, k, t);
      var n: nat, j: nat :| Path(g, o, n, c) && Path(g, c, j, t);
      PathConcat(g, o, n, c, j, t);
      AcyclicPathLength(g, o, n + j, k, t);
      var y := PathPrefix(g', o, n, k, t);
      PathRest(g', o, n, y, k, t);
      if y == u {
        assert false;
      }
      RedirectedPath(g, g', u, o, n, y);
      PathIsFunctional(g, o, n, y, c);
    }
  }

  /** On an acyclic graph the distance between two nodes is unique. */
  lemma {:induction false} AcyclicPathLength(g: Graph, x: Node, n: nat, k: nat, y: Node)
    requires Acyclic(g) && Path(g, x, n, y) && Path(g, x, k, y)
    ensures n == k
  {
    if n < k {
      PathRest(g, x, n, y, k, y);
    } else if k < n {
      PathRest(g, x, k, y, n, y);
    }
  }

  lemma {:induction false} PathPrefix(g: Graph, x: Node, n: nat, k: nat, z: Node) returns (y: Node)
    requires n <= k && Path(g, x, k, z)
    ensures Path(g, x, n, y)
    decreases n
  {
    if n == 0 {
      y := x;
    } else {
      y := PathPrefix(g, g[x], n - 1, k - 1, z);
    }
  }

  lemma AcyclicSubgraph(g: Graph, g': Graph)
    requires Acyclic(g)
    requires forall x :: x in g' ==> x in g && g'[x] == g[x]
    ensures Acyclic(g')
  {
    forall x, n: nat | n > 0
      ensures !Path(g', x, n, x)
    {
      if Path(g', x, n, x) {
        SubgraphPath(g, g', x, n, x);
      }
    }
  }

  lemma {:induction false} SubgraphPath(g: Graph, g': Graph, x: Node, n: nat, y: Node)
    requires forall z :: z in g' ==> z in g && g'[z] == g[z]
    requires Path(g', x, n, y)
    ensures Path(g, x, n, y)
    decreases n
  {
    if n > 0 {
      SubgraphPath(g, g', g'[x], n - 1, y);
    }
  }

  /** A path over g plus the edge t -> o either never uses that edge or gets to t over g first. */
  lemma {:induction false} ExtendedPath(g: Graph, t: Node, o: Node, x: Node, n: nat, y: Node)
    requires t !in g && Path(g[t := o], x, n, y)
    ensures Path(g, x, n, y) || Reaches(g, x, t)
    decreases n
  {
    if x == t {
      assert Path(g, x, 0, t);
    } else if n > 0 {
      ExtendedPath(g, t, o, g[x], n - 1, y);
      if Reaches(g, g[x], t) {
        var k: nat :| Path(g, g[x], k, t);
        assert Path(g, x, k + 1, t);
      }
    }
  }

  /** The edge t -> o may be added when t has none and o does not lead back to t. */
  lemma AcyclicExtend(g: Graph, t: Node, o: Node)
    requires Acyclic(g) && t !in g && !Reaches(g, o, t)
    ensures Acyclic(g[t := o])
  {
    var g' := g[t := o];
    forall x, n: nat | n > 0
      ensures !Path(g', x, n, x)
    {
      if Path(g', x, n, x) {
        ExtendedPath(g, t, o, x, n, x);
        var k: nat :| Path(g, x, k, t);
        SubgraphPath(g', g, x, k, t);
        // the cycle may as well be entered at t
        CycleShift(g', x, n, k, t);
        assert Path(g', o, n - 1, t);
        ExtendedPath(g, t, o, o, n - 1, t);
        assert Reaches(g, o, t);
      }
    }
  }

  /** Every node a cycle leads to lies on a cycle of the same length. */
  lemma {:induction false} CycleShift(g: Graph, x: Node, n: nat, k: nat, y: Node)
    requires n > 0 && Path(g, x, n, x) && Path(g, x, k, y)
    ensures Path(g, y, n, y)
    decreases k
  {
    if k > 0 {
      PathConcat(g, g[x], n - 1, x, 1, g[x]);
      CycleShift(g, g[x], n, k - 1, y);
    }
  }

  /** x leads into a circle. */
  ghost predicate Loops(g: Graph, x: Node) {
    exists c, n: nat :: n > 0 && Reaches(g, x, c) && Path(g, c, n, c)
  }

  lemma LoopsAt(g: Graph, x: Node, k: nat, c: Node, n: nat)
    requires n > 0 && Path(g, x, k, c) && Path(g, c, n, c)
    ensures Loops(g, x)
  {
    assert Reaches(g, x, c);
  }

  /** What leads into a circle has an edge, and so does the next node. */
  lemma LoopsNext(g: Graph, x: Node)
    requires Loops(g, x)
    ensures x in g && Loops(g, g[x])
  {
    var c, n: nat :| n > 0 && Reaches(g, x, c) && Path(g, c, n, c);
    var k: nat :| Path(g, x, k, c);
    if k == 0 {
      assert Path(g, g[x], n - 1, x);
      LoopsAt(g, g[x], n - 1, x, n);
    } else {
      LoopsAt(g, g[x], k - 1, c, n);
    }
  }

  lemma LoopsBefore(g: Graph, x: Node)
    requires x in g && Loops(g, g[x])
    ensures Loops(g, x)
  {
    var c, n: nat :| n > 0 && Reaches(g, g[x], c) && Path(g, c, n, c);
    var k: nat :| Path(g, g[x], k, c);
    assert Path(g, x, k + 1, c);
    LoopsAt(g, x, k + 1, c, n);
  }

  lemma LoopsSubgraph(g: Graph, g': Graph, x: Node)
    requires forall z :: z in g' ==> z in g && g'[z] == g[z]
    requires Loops(g', x)
    ensures Loops(g, x)
  {
    var c, n: nat :| n > 0 && Reaches(g', x, c) && Path(g', c, n, c);
    var k: nat :| Path(g', x, k, c);
    SubgraphPath(g, g', x, k, c);
    SubgraphPath(g, g', c, n, c);
    LoopsAt(g, x, k, c, n);
  }

  lemma AcyclicNeverLoops(g: Graph, x: Node)
    requires Acyclic(g)
    ensures !Loops(g, x)
  {}

  /** A path that does not lead into a circle is no longer than the number of edges. */
  lemma {:induction false} PathBound(g: Graph, x: Node, n: nat, y: Node)
    requires !Loops(g, x) && Path(g, x, n, y)
    ensures n <= |g|
    decreases n
  {
    if n > 0 {
      var h := g - {x};
      forall k: nat
        ensures !Path(g, g[x], k, x)
      {
        if Path(g, g[x], k, x) {
          assert Path(g, x, k + 1, x) && Path(g, x, 0, x);
          LoopsAt(g, x, 0, x, k + 1);
        }
      }
      PathWithout(g, x, g[x], n - 1, y);
      if Loops(h, g[x]) {
        LoopsSubgraph(g, h, g[x]);
        LoopsBefore(g, x);
      }
      PathBound(h, g[x], n - 1, y);
      assert h.Keys == g.Keys - {x};
      assert |h.Keys| == |g.Keys| - 1;
    }
  }

  lemma {:induction false} PathWithout(g: Graph, w: Node, x: Node, n: nat, y: Node)
    requires Path(g, x, n, y)
    requires forall k: nat :: !Path(g, x, k, w)
    ensures Path(g - {w}, x, n, y)
    decreases n
  {
    assert !Path(g, x, 0, w);
    if n > 0 {
      forall k: nat
        ensures !Path(g, g[x], k, w)
      {
        assert !Path(g, x, k + 1, w);
      }
      PathWithout(g, w, g[x], n - 1, y);
    }
  }
}
