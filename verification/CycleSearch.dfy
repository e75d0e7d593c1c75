/** The recursive depth-first search of `MigrationGraph.detect_cycles`. */
module CycleSearches {
  import opened Collections
  import opened Reachability

  /** Consecutive entries are joined by edges. */
  ghost predicate Walk(g: Graph, p: seq<Rev>) {
    |p| <= 1 || (Walk(g, p[..|p| - 1]) && Edge(g, p[|p| - 2], p[|p| - 1]))
  }

  /** What the search reports: a walk that comes back to its first revision, with no
      other revision twice, and then that revision once more. */
  ghost predicate ReportedCycle(g: Graph, cycle: seq<Rev>) {
    && |cycle| >= 3
    && var walk := cycle[..|cycle| - 1];
    && Walk(g, walk)
    && walk[0] == walk[|walk| - 1] == cycle[|cycle| - 1]
    && NoRepeats(walk[..|walk| - 1])
  }

  /** A reported cycle ends with the edge from u back to c. */
  ghost predicate Closes(cycles: seq<seq<Rev>>, u: Rev, c: Rev) {
    exists cycle :: cycle in cycles && |cycle| >= 3 && cycle[|cycle| - 1] == c && cycle[|cycle| - 3] == u
  }

  /** Every child of a revision in the list comes earlier in it, or a reported cycle
      closes with the edge to it. */
  ghost predicate ChildrenFirst(g: Graph, order: seq<Rev>, cycles: seq<seq<Rev>>) {
    forall i, c :: 0 <= i < |order| && Edge(g, order[i], c) ==> c in order[..i] || Closes(cycles, order[i], c)
  }

  lemma {:induction false} WalkSuffix(g: Graph, p: seq<Rev>, k: nat)
    requires Walk(g, p) && k <= |p|
    ensures Walk(g, p[k..])
    decreases |p|
  {
    if |p| - k >= 2 {
      WalkSuffix(g, p[..|p| - 1], k);
      assert p[k..][..|p| - k - 1] == p[..|p| - 1][k..];
    }
  }

  lemma {:induction false} WalkReaches(g: Graph, p: seq<Rev>)
    requires Walk(g, p) && |p| >= 2
    ensures Reaches(g, p[0], p[|p| - 1])
    decreases |p|
  {
    if |p| > 2 {
      WalkReaches(g, p[..|p| - 1]);
    }
    ReachSnoc(g, p[0], p[|p| - 2], p[|p| - 1]);
  }

  /** Two revisions on a common cycle. */
  ghost predicate SameComponent(g: Graph, a: Rev, b: Rev) {
    Reaches(g, a, b) && Reaches(g, b, a)
  }

  /** A report starts at a revision that is on a common cycle with r. */
  ghost predicate ComponentReported(g: Graph, cycles: seq<seq<Rev>>, r: Rev) {
    exists cycle :: cycle in cycles && cycle != [] && SameComponent(g, cycle[0], r)
  }

  /** Take a revision in the list that is on a cycle with r. One of its children is, too.
      If that child does not come earlier in the list, a reported cycle starts at it. */
  lemma {:induction false} ComponentIsReported(g: Graph, order: seq<Rev>, cycles: seq<seq<Rev>>, i: nat, r: Rev)
      returns (cycle: seq<Rev>)
    requires ChildrenFirst(g, order, cycles) && forall c :: c in cycles ==> ReportedCycle(g, c)
    requires i < |order| && SameComponent(g, order[i], r)
    ensures cycle in cycles && cycle != [] && SameComponent(g, cycle[0], r)
    decreases i
  {
    hide Walk, NoRepeats;
    var u := order[i];
    var c := FirstEdge(g, u, r);
    ReachSnoc(g, r, u, c);
    if c in order[..i] {
      var j :| 0 <= j < i && order[j] == c;
      cycle := ComponentIsReported(g, order, cycles, j, r);
    } else {
      cycle :| cycle in cycles && |cycle| >= 3 && cycle[|cycle| - 1] == c && cycle[|cycle| - 3] == u;
    }
  }

  lemma ClosesGrows(g: Graph, order: seq<Rev>, cycles: seq<seq<Rev>>, more: seq<seq<Rev>>)
    requires ChildrenFirst(g, order, cycles) && forall c :: c in cycles ==> c in more
    ensures ChildrenFirst(g, order, more)
  {
    forall i, c | 0 <= i < |order| && Edge(g, order[i], c) ensures c in order[..i] || Closes(more, order[i], c) {
      assert c in order[..i] || Closes(cycles, order[i], c);
    }
  }

  lemma LastAfterChildren(g: Graph, order: seq<Rev>, cycles: seq<seq<Rev>>, node: Rev)
    requires ChildrenFirst(g, order, cycles)
    requires forall c :: Edge(g, node, c) ==> c in order || Closes(cycles, node, c)
    ensures ChildrenFirst(g, order + [node], cycles)
  {
    hide Closes;
    var next := order + [node];
    forall i, c | 0 <= i < |next| && Edge(g, next[i], c) ensures c in next[..i] || Closes(cycles, next[i], c) {
      assert next[..i] == order[..i];
    }
  }

  /** The recursion path without its tip is the stack, without repeats. */
  ghost predicate PathIsStack(g: Graph, path: seq<Rev>, node: Rev, recStack: set<Rev>) {
    && |path| >= 1
    && path[|path| - 1] == node
    && Walk(g, path)
    && NoRepeats(path[..|path| - 1])
    && (forall x :: x in path[..|path| - 1] <==> x in recStack)
  }

  lemma PathGrows(g: Graph, path: seq<Rev>, node: Rev, recStack: set<Rev>, child: Rev)
    requires node in recStack && PathIsStack(g, path, node, recStack - {node}) && Edge(g, node, child)
    ensures PathIsStack(g, path + [child], child, recStack)
  {
    var next := path + [child];
    assert next[..|next| - 1] == path;
    assert path == path[..|path| - 1] + [node];
    forall x ensures x in path <==> x in recStack {
      assert x in recStack - {node} <==> x in path[..|path| - 1];
    }
  }

  lemma CycleFromPath(g: Graph, path: seq<Rev>, node: Rev, recStack: set<Rev>, k: nat)
    requires PathIsStack(g, path, node, recStack) && node in recStack
    requires k < |path| && path[k] == node && node !in path[..k]
    ensures ReportedCycle(g, path[k..] + [node])
    ensures |path| >= 2 && (path[k..] + [node])[|path| - k - 2] == path[|path| - 2]
  {
    var cycle := path[k..] + [node];
    assert node in path[..|path| - 1];
    assert k != |path| - 1;
    assert cycle[..|cycle| - 1] == path[k..];
    WalkSuffix(g, path, k);
    assert path[k..][..|path| - k - 1] == path[..|path| - 1][k..];
  }

  lemma SubsetSize<T>(a: set<T>, b: set<T>)
    requires a <= b
    ensures |a| <= |b|
  {
    if a != {} {
      var x :| x in a;
      SubsetSize(a - {x}, b - {x});
    }
  }

  /** The variables that `visit` closes over, and the revisions it has left behind
      (visited and no longer on the recursion stack) in the order it left them. */
  class CycleSearch {
    const children: Graph
    ghost const universe: set<Rev>
    var visited: set<Rev>
    var recStack: set<Rev>
    var cycles: seq<seq<Rev>>
    ghost var finished: seq<Rev>

    ghost predicate Valid()
      reads this
    {
      && (forall a, b :: Edge(children, a, b) ==> b in universe)
      && recStack <= visited <= universe && |visited| <= |universe|
      && (forall x :: x in finished <==> x in visited && x !in recStack)
      && ChildrenFirst(children, finished, cycles)
      && (forall c :: c in cycles ==> ReportedCycle(children, c))
    }

    constructor (children: Graph, ghost universe: set<Rev>)
      requires forall a, b :: Edge(children, a, b) ==> b in universe
      ensures Valid() && this.children == children && this.universe == universe
      ensures visited == {} && recStack == {} && cycles == []
    {
      this.children := children;
      this.universe := universe;
      visited, recStack, cycles, finished := {}, {}, [], [];
    }

    method Visit(node: Rev, path: seq<Rev>)
      requires Valid() && node in universe && PathIsStack(children, path, node, recStack)
      modifies this
      ensures Valid() && recStack == old(recStack)
      ensures old(visited) <= visited && node in visited && |old(visited)| <= |visited|
      ensures old(cycles) <= cycles && old(finished) <= finished
      ensures node in finished || (|path| >= 2 && Closes(cycles, path[|path| - 2], node))
      decreases |universe| - |visited|, 1
    {
      hide Walk, NoRepeats, ReportedCycle, ChildrenFirst, Closes;
      if node in recStack {
        var cycleStart := IndexOf(path, node);
        Report(node, path, cycleStart);
        return;
      }
      if node in visited {
        return;
      }
      Enter(node);
      VisitChildren(node, path);
      Leave(node);
    }

    method Report(node: Rev, path: seq<Rev>, cycleStart: nat)
      requires Valid() && node in recStack && PathIsStack(children, path, node, recStack)
      requires cycleStart < |path| && path[cycleStart] == node && node !in path[..cycleStart]
      modifies this`cycles
      ensures Valid() && cycles == old(cycles) + [path[cycleStart..] + [node]]
      ensures |path| >= 2 && Closes(cycles, path[|path| - 2], node)
    {
      hide Walk, NoRepeats, ReportedCycle, ChildrenFirst;
      CycleFromPath(children, path, node, recStack, cycleStart);
      var cycle := path[cycleStart..] + [node];
      ClosesGrows(children, finished, cycles, cycles + [cycle]);
      cycles := cycles + [cycle];
      assert cycles[|cycles| - 1] == cycle && cycle in cycles;
    }

    method Enter(node: Rev)
      requires Valid() && node in universe && node !in visited
      modifies this`visited, this`recStack
      ensures Valid() && visited == old(visited) + {node} && recStack == old(recStack) + {node}
    {
      SubsetSize(visited + {node}, universe);
      visited := visited + {node};
      recStack := recStack + {node};
    }

    method VisitChildren(node: Rev, path: seq<Rev>)
      requires Valid() && PathIsStack(children, path, node, recStack - {node})
      requires node in recStack
      modifies this
      ensures Valid() && recStack == old(recStack)
      ensures old(visited) <= visited && |old(visited)| <= |visited|
      ensures old(cycles) <= cycles && old(finished) <= finished
      ensures forall c :: Edge(children, node, c) ==> c in finished || Closes(cycles, node, c)
      decreases |universe| - |visited|, 2
    {
      hide Walk, NoRepeats, ReportedCycle, ChildrenFirst;
      var kids := Adj(children, node);
      for i := 0 to |kids|
        invariant Valid() && recStack == old(recStack)
        invariant old(visited) <= visited && |old(visited)| <= |visited|
        invariant old(cycles) <= cycles && old(finished) <= finished
        invariant forall k :: 0 <= k < i ==> kids[k] in finished || Closes(cycles, node, kids[k])
      {
        assert Edge(children, node, kids[i]);
        PathGrows(children, path, node, recStack, kids[i]);
        Visit(kids[i], path + [kids[i]]);
      }
    }

    method Leave(node: Rev)
      requires Valid() && node in recStack
      requires forall c :: Edge(children, node, c) ==> c in finished || Closes(cycles, node, c)
      modifies this`recStack, this`finished
      ensures Valid() && recStack == old(recStack) - {node} && finished == old(finished) + [node]
    {
      hide ChildrenFirst, Closes;
      recStack := recStack - {node};
      LastAfterChildren(children, finished, cycles, node);
      finished := finished + [node];
    }
  }

  /** Python's `list.index`. */
  method IndexOf(s: seq<Rev>, x: Rev) returns (k: nat)
    requires x in s
    ensures k < |s| && s[k] == x && x !in s[..k]
  {
    k := 0;
    while s[k] != x
      invariant k < |s| && x !in s[..k]
      decreases |s| - k
    {
      assert s[..k + 1] == s[..k] + [s[k]];
      k := k + 1;
      if k == |s| {
        assert s[..k] == s;
      }
    }
  }
}
