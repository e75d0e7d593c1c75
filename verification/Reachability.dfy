/** Finite directed graphs given by adjacency lists, and what it means for one
    node to reach another. A node without an entry has no outgoing edge, which is
    how the scripts read their dictionaries (`parents_map.get(current, [])`). */
module Reachability {
  import opened Collections

  type Graph = map<Rev, seq<Rev>>

  function Adj(g: Graph, n: Rev): seq<Rev> {
    if n in g then g[n] else []
  }

  predicate Edge(g: Graph, a: Rev, b: Rev) {
    b in Adj(g, a)
  }

  /** Every node the graph mentions, as a key or as the end of an edge. */
  ghost function Nodes(g: Graph): set<Rev> {
    g.Keys + (set a, b | a in g && b in g[a] :: b)
  }

  /** b is n edges away from a. */
  ghost predicate Steps(g: Graph, a: Rev, b: Rev, n: nat)
    decreases n
  {
    if n == 0 then a == b else exists c :: Edge(g, a, c) && Steps(g, c, b, n - 1)
  }

  /** b can be reached from a over one edge or more. */
  ghost predicate Reaches(g: Graph, a: Rev, b: Rev) {
    exists n: nat :: n >= 1 && Steps(g, a, b, n)
  }

  ghost predicate ReachesOrIs(g: Graph, a: Rev, b: Rev) {
    a == b || Reaches(g, a, b)
  }

  ghost predicate Acyclic(g: Graph) {
    forall r: Rev :: !Reaches(g, r, r)
  }

  /** The two graphs have the same nodes reachable from each node. */
  ghost predicate SameReach(g: Graph, h: Graph) {
    forall a: Rev, b: Rev :: Reaches(g, a, b) <==> Reaches(h, a, b)
  }

  lemma {:induction false} StepsAdd(g: Graph, a: Rev, b: Rev, c: Rev, n: nat, m: nat)
    requires Steps(g, a, b, n) && Steps(g, b, c, m)
    ensures Steps(g, a, c, n + m)
    decreases n
  {
    if n > 0 {
      var d :| Edge(g, a, d) && Steps(g, d, b, n - 1);
      StepsAdd(g, d, b, c, n - 1, m);
    }
  }

  lemma ReachTrans(g: Graph, a: Rev, b: Rev, c: Rev)
    requires Reaches(g, a, b) && ReachesOrIs(g, b, c)
    ensures Reaches(g, a, c)
  {
    if b != c {
      var n: nat :| n >= 1 && Steps(g, a, b, n);
      var m: nat :| m >= 1 && Steps(g, b, c, m);
      StepsAdd(g, a, b, c, n, m);
    }
  }

  lemma ReachEdge(g: Graph, a: Rev, b: Rev)
    requires Edge(g, a, b)
    ensures Reaches(g, a, b)
  {
    assert Steps(g, b, b, 0);
    assert Steps(g, a, b, 1);
  }

  lemma ReachCons(g: Graph, a: Rev, b: Rev, c: Rev)
    requires Edge(g, a, b) && ReachesOrIs(g, b, c)
    ensures Reaches(g, a, c)
  {
    ReachEdge(g, a, b);
    ReachTrans(g, a, b, c);
  }

  lemma ReachSnoc(g: Graph, a: Rev, b: Rev, c: Rev)
    requires ReachesOrIs(g, a, b) && Edge(g, b, c)
    ensures Reaches(g, a, c)
  {
    ReachEdge(g, b, c);
    if a != b {
      ReachTrans(g, a, b, c);
    }
  }

  /** The first edge of a way from a to b. */
  lemma FirstEdge(g: Graph, a: Rev, b: Rev) returns (c: Rev)
    requires Reaches(g, a, b)
    ensures Edge(g, a, c) && ReachesOrIs(g, c, b)
  {
    var n: nat :| n >= 1 && Steps(g, a, b, n);
    c :| Edge(g, a, c) && Steps(g, c, b, n - 1);
    if c != b {
      assert n - 1 >= 1;
    }
  }

  /** The last edge of a way from a to b. */
  lemma LastEdge(g: Graph, a: Rev, b: Rev) returns (c: Rev)
    requires Reaches(g, a, b)
    ensures ReachesOrIs(g, a, c) && Edge(g, c, b)
  {
    var n: nat :| n >= 1 && Steps(g, a, b, n);
    c := LastStep(g, a, b, n);
  }

  lemma {:induction false} LastStep(g: Graph, a: Rev, b: Rev, n: nat) returns (c: Rev)
    requires n >= 1 && Steps(g, a, b, n)
    ensures ReachesOrIs(g, a, c) && Edge(g, c, b)
    decreases n
  {
    var d :| Edge(g, a, d) && Steps(g, d, b, n - 1);
    if n == 1 {
      c := a;
    } else {
      c := LastStep(g, d, b, n - 1);
      ReachCons(g, a, d, c);
    }
  }

  /** A set that no edge leaves holds everything its members reach. */
  lemma ClosedHolds(g: Graph, s: set<Rev>, a: Rev, b: Rev)
    requires forall x, y :: x in s && Edge(g, x, y) ==> y in s
    requires a in s && ReachesOrIs(g, a, b)
    ensures b in s
  {
    if a != b {
      var n: nat :| n >= 1 && Steps(g, a, b, n);
      StepsStayInside(g, s, a, b, n);
    }
  }

  lemma {:induction false} StepsStayInside(g: Graph, s: set<Rev>, a: Rev, b: Rev, n: nat)
    requires forall x, y :: x in s && Edge(g, x, y) ==> y in s
    requires a in s && Steps(g, a, b, n)
    ensures b in s
    decreases n
  {
    if n > 0 {
      var c :| Edge(g, a, c) && Steps(g, c, b, n - 1);
      StepsStayInside(g, s, c, b, n - 1);
    }
  }

  /** Edges kept by a larger graph keep what they reach. */
  lemma {:induction false} StepsGrow(g: Graph, h: Graph, a: Rev, b: Rev, n: nat)
    requires forall x, y :: Edge(g, x, y) ==> Edge(h, x, y)
    requires Steps(g, a, b, n)
    ensures Steps(h, a, b, n)
    decreases n
  {
    if n > 0 {
      var c :| Edge(g, a, c) && Steps(g, c, b, n - 1);
      StepsGrow(g, h, c, b, n - 1);
    }
  }

  lemma ReachGrows(g: Graph, h: Graph, a: Rev, b: Rev)
    requires forall x, y :: Edge(g, x, y) ==> Edge(h, x, y)
    requires Reaches(g, a, b)
    ensures Reaches(h, a, b)
  {
    var n: nat :| n >= 1 && Steps(g, a, b, n);
    StepsGrow(g, h, a, b, n);
  }

  /** Turning every edge round turns reachability round. */
  lemma ReachReversed(g: Graph, h: Graph, a: Rev, b: Rev)
    requires forall x, y :: Edge(g, x, y) ==> Edge(h, y, x)
    requires Reaches(g, a, b)
    ensures Reaches(h, b, a)
  {
    var n: nat :| n >= 1 && Steps(g, a, b, n);
    StepsReversed(g, h, a, b, n);
  }

  lemma {:induction false} StepsReversed(g: Graph, h: Graph, a: Rev, b: Rev, n: nat)
    requires forall x, y :: Edge(g, x, y) ==> Edge(h, y, x)
    requires Steps(g, a, b, n)
    ensures Steps(h, b, a, n)
    decreases n
  {
    if n > 0 {
      var c :| Edge(g, a, c) && Steps(g, c, b, n - 1);
      StepsReversed(g, h, c, b, n - 1);
      assert Steps(h, a, a, 0);
      assert Steps(h, c, a, 1);
      StepsAdd(h, b, c, a, n - 1, 1);
    }
  }

  lemma AcyclicReversed(g: Graph, h: Graph)
    requires forall x, y :: Edge(g, x, y) <==> Edge(h, y, x)
    ensures Acyclic(g) <==> Acyclic(h)
  {
    if !Acyclic(g) {
      var r :| Reaches(g, r, r);
      ReachReversed(g, h, r, r);
    }
    if !Acyclic(h) {
      var r :| Reaches(h, r, r);
      ReachReversed(h, g, r, r);
    }
  }

  /** What a node reaches, as a finite set: the measure for inductions over an
      acyclic graph. */
  ghost function Below(g: Graph, a: Rev): set<Rev> {
    set b | b in Nodes(g) && Reaches(g, a, b)
  }

  lemma ReachedIsNode(g: Graph, a: Rev, b: Rev)
    requires Reaches(g, a, b)
    ensures b in Nodes(g)
  {
    var c := FirstEdge(g, a, b);
    ClosedHolds(g, Nodes(g), c, b);
  }

  lemma BelowShrinks(g: Graph, a: Rev, b: Rev)
    requires Acyclic(g) && Reaches(g, a, b)
    ensures Below(g, b) < Below(g, a)
  {
    ReachedIsNode(g, a, b);
    assert b in Below(g, a) && b !in Below(g, b);
    forall c | c in Below(g, b) ensures c in Below(g, a) {
      ReachTrans(g, a, b, c);
    }
  }
}
