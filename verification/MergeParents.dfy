/** The merge-revision audit of `check_alembic_merge_parents.py`: deciding
    ancestry with an explicit stack, finding the parents of a merge that another
    parent already descends from, and suggesting the merge without them. */
module MergeParents {
  import opened Collections
  import opened Reachability

  /** A parsed revision file: `parents` are its `down_revision` entries. */
  datatype RevisionInfo = RevisionInfo(revision: Rev, parents: seq<Rev>, path: string)

  datatype Problem = Problem(
    revision: Rev, path: string, parents: seq<Rev>, redundant: seq<Rev>, suggested: seq<Rev>)

  /** `{info.revision: info.parents for info in revision_infos}`: a later file
      with the same revision replaces an earlier one. */
  function ParentsMap(infos: seq<RevisionInfo>): Graph {
    if infos == [] then map[]
    else
      var info := infos[|infos| - 1];
      ParentsMap(infos[..|infos| - 1])[info.revision := info.parents]
  }

  /** `_is_ancestor`: depth-first search with a stack that may hold a revision
      more than once. It ends on every map, cyclic or not. */
  method IsAncestor(ancestor: Rev, descendant: Rev, parentsMap: Graph) returns (r: bool)
    ensures r <==> ancestor != descendant && Reaches(parentsMap, descendant, ancestor)
  {
    if ancestor == descendant {
      return false;
    }
    var stack, seen: set<Rev> := [descendant], {};
    ghost var universe := Nodes(parentsMap) + {descendant};
    while stack != []
      invariant seen <= universe && forall x :: x in stack ==> x in universe
      invariant forall x :: x in stack ==> ReachesOrIs(parentsMap, descendant, x)
      invariant descendant in seen || descendant in stack
      invariant Explored(parentsMap, seen, stack)
      invariant ancestor !in seen
      decreases universe - seen, |stack|
    {
      var current := stack[|stack| - 1];
      assert stack == stack[..|stack| - 1] + [current] && current in stack;
      stack := stack[..|stack| - 1];
      if current in seen {
        continue;
      }
      seen := seen + {current};
      if current == ancestor {
        return true;
      }
      forall p | p in Adj(parentsMap, current) ensures p in universe && Reaches(parentsMap, descendant, p) {
        assert Edge(parentsMap, current, p);
        ReachSnoc(parentsMap, descendant, current, p);
      }
      stack := PushParents(Adj(parentsMap, current), seen, stack);
    }
    if Reaches(parentsMap, descendant, ancestor) {
      ClosedHolds(parentsMap, seen, descendant, ancestor);
    }
    return false;
  }

  /** The loop that pushes the parents not seen yet. */
  method PushParents(parents: seq<Rev>, seen: set<Rev>, stack: seq<Rev>) returns (pushed: seq<Rev>)
    ensures forall x :: x in pushed <==> x in stack || (x in parents && x !in seen)
  {
    pushed := stack;
    for i := 0 to |parents|
      invariant forall x :: x in pushed <==> x in stack || (x in parents[..i] && x !in seen)
    {
      assert parents[..i + 1] == parents[..i] + [parents[i]];
      if parents[i] !in seen {
        pushed := pushed + [parents[i]];
      }
    }
    assert parents[..|parents|] == parents;
  }

  /** Every parent of a revision seen has been seen too or waits on the stack. */
  ghost predicate Explored(m: Graph, seen: set<Rev>, stack: seq<Rev>) {
    forall x, p :: x in seen && Edge(m, x, p) ==> p in seen || p in stack
  }

  /** Another parent of the same merge descends from p. */
  ghost predicate Redundant(m: Graph, parents: seq<Rev>, p: Rev) {
    exists other :: other in parents && other != p && Reaches(m, other, p)
  }

  /** The entries of `ps` that are redundant (or, with `redundant` false, that are
      not) among `parents`, in order and with their repetitions. */
  ghost function Select(m: Graph, ps: seq<Rev>, parents: seq<Rev>, redundant: bool): seq<Rev> {
    if ps == [] then []
    else
      var p := ps[|ps| - 1];
      Select(m, ps[..|ps| - 1], parents, redundant)
      + (if Redundant(m, parents, p) == redundant then [p] else [])
  }

  /** The `down_revision` the audit would have for a revision with these parents. */
  ghost function Suggested(m: Graph, parents: seq<Rev>): seq<Rev> {
    if |parents| < 2 then parents else Select(m, parents, parents, false)
  }

  /** What the audit reports: one problem per merge with a redundant parent. */
  ghost function Problems(m: Graph, infos: seq<RevisionInfo>): seq<Problem> {
    if infos == [] then []
    else
      var info := infos[|infos| - 1];
      var redundant := Select(m, info.parents, info.parents, true);
      Problems(m, infos[..|infos| - 1]) +
      if |info.parents| < 2 || redundant == [] then []
      else [Problem(info.revision, info.path, info.parents, redundant, Suggested(m, info.parents))]
  }

  lemma {:induction false} SelectMembers(m: Graph, ps: seq<Rev>, parents: seq<Rev>, redundant: bool, p: Rev)
    ensures p in Select(m, ps, parents, redundant) <==> p in ps && Redundant(m, parents, p) == redundant
  {
    if ps != [] {
      SelectMembers(m, ps[..|ps| - 1], parents, redundant, p);
      assert ps == ps[..|ps| - 1] + [ps[|ps| - 1]];
    }
  }

  /** The inner loop of `main`: is the parent an ancestor of another one? */
  method FindsOther(parent: Rev, parents: seq<Rev>, parentsMap: Graph) returns (found: bool)
    ensures found <==> Redundant(parentsMap, parents, parent)
  {
    for j := 0 to |parents|
      invariant forall k :: 0 <= k < j ==> parents[k] == parent || !Reaches(parentsMap, parents[k], parent)
    {
      var other := parents[j];
      if parent == other {
        continue;
      }
      var isAncestor := IsAncestor(parent, other, parentsMap);
      if isAncestor {
        return true;
      }
    }
    return false;
  }

  method RedundantParents(parents: seq<Rev>, parentsMap: Graph) returns (redundant: seq<Rev>)
    ensures redundant == Select(parentsMap, parents, parents, true)
  {
    redundant := [];
    for i := 0 to |parents|
      invariant redundant == Select(parentsMap, parents[..i], parents, true)
    {
      assert parents[..i + 1][..i] == parents[..i];
      var found := FindsOther(parents[i], parents, parentsMap);
      if found {
        redundant := redundant + [parents[i]];
      }
    }
    assert parents[..|parents|] == parents;
  }

  method RemainingParents(parents: seq<Rev>, redundant: seq<Rev>, ghost m: Graph) returns (remaining: seq<Rev>)
    requires redundant == Select(m, parents, parents, true)
    ensures remaining == Select(m, parents, parents, false)
  {
    remaining := [];
    for i := 0 to |parents|
      invariant remaining == Select(m, parents[..i], parents, false)
    {
      assert parents[..i + 1][..i] == parents[..i];
      SelectMembers(m, parents, parents, true, parents[i]);
      if parents[i] !in redundant {
        remaining := remaining + [parents[i]];
      }
    }
    assert parents[..|parents|] == parents;
  }

  /** The audit loop of `main`, and its exit status. */
  method Audit(infos: seq<RevisionInfo>) returns (status: int, problems: seq<Problem>)
    ensures problems == Problems(ParentsMap(infos), infos)
    ensures status == if problems == [] then 0 else 2
  {
    var parentsMap := BuildParentsMap(infos);
    problems := [];
    for n := 0 to |infos|
      invariant problems == Problems(parentsMap, infos[..n])
    {
      var info := infos[n];
      assert infos[..n + 1][..n] == infos[..n];
      if |info.parents| < 2 {
        continue;
      }
      var redundant := RedundantParents(info.parents, parentsMap);
      if redundant != [] {
        var remaining := RemainingParents(info.parents, redundant, parentsMap);
        problems := problems + [Problem(info.revision, info.path, info.parents, redundant, remaining)];
      }
    }
    assert infos[..|infos|] == infos;
    status := if problems == [] then 0 else 2;
  }

  /** A revision is in the map if and only if a file has it, with the parents of the
      last such file. */
  lemma {:induction false} LastFileWins(infos: seq<RevisionInfo>, r: Rev)
    ensures r in ParentsMap(infos) <==> exists k :: 0 <= k < |infos| && infos[k].revision == r
    ensures r in ParentsMap(infos) ==> exists k :: LastWith(infos, r, k) && ParentsMap(infos)[r] == infos[k].parents
    decreases |infos|
  {
    if infos != [] {
      var init := infos[..|infos| - 1];
      LastFileWins(init, r);
      if infos[|infos| - 1].revision == r {
        assert LastWith(infos, r, |infos| - 1);
      } else if r in ParentsMap(init) {
        var k :| LastWith(init, r, k) && ParentsMap(init)[r] == init[k].parents;
        assert LastWith(infos, r, k);
      }
    }
  }

  ghost predicate LastWith(infos: seq<RevisionInfo>, r: Rev, k: int) {
    0 <= k < |infos| && infos[k].revision == r && forall j :: k < j < |infos| ==> infos[j].revision != r
  }

  method BuildParentsMap(infos: seq<RevisionInfo>) returns (m: Graph)
    ensures m == ParentsMap(infos)
    ensures forall r :: r in m <==> exists k :: 0 <= k < |infos| && infos[k].revision == r
    ensures forall r, k :: LastWith(infos, r, k) ==> r in m && m[r] == infos[k].parents
  {
    m := map[];
    for n := 0 to |infos|
      invariant m == ParentsMap(infos[..n])
    {
      assert infos[..n + 1][..n] == infos[..n];
      m := m[infos[n].revision := infos[n].parents];
    }
    assert infos[..|infos|] == infos;
    forall r {
      LastFileWins(infos, r);
    }
  }

  // ---------------------------------------------------------------- reduction

  /** Every merge's parents replaced by the suggestion, all at once. */
  ghost function Reduced(m: Graph): Graph {
    map r | r in m :: Suggested(m, m[r])
  }

  lemma SuggestedMembers(m: Graph, parents: seq<Rev>, p: Rev)
    ensures p in Suggested(m, parents) <==> p in parents && !Redundant(m, parents, p)
  {
    SelectMembers(m, parents, parents, false, p);
  }

  /** Two different parents that reach each other have a third one above them. */
  ghost predicate TiesBrokenAmong(m: Graph, parents: seq<Rev>) {
    forall a, b :: a in parents && b in parents && a != b && Reaches(m, a, b) && Reaches(m, b, a) ==>
      exists c :: c in parents && Reaches(m, c, a) && !Reaches(m, a, c)
  }

  ghost predicate TiesBroken(m: Graph) {
    forall r :: r in m ==> TiesBrokenAmong(m, m[r])
  }

  ghost predicate IsMerge(m: Graph, r: Rev) {
    exists a, b :: Edge(m, r, a) && Edge(m, r, b) && a != b
  }

  /** No revision with two different parents lies on a cycle. */
  ghost predicate NoMergeOnCycle(m: Graph) {
    forall r :: IsMerge(m, r) ==> !Reaches(m, r, r)
  }

  ghost function ParentsAtOrAbove(m: Graph, parents: seq<Rev>, p: Rev): set<Rev> {
    set x | x in parents && ReachesOrIs(m, x, p)
  }

  /** Following "another parent descends from this one" upwards stops, where ties are
      broken, at a parent that is kept. */
  lemma {:induction false} KeptAbove(m: Graph, parents: seq<Rev>, p: Rev) returns (q: Rev)
    requires TiesBrokenAmong(m, parents) && p in parents
    ensures q in Suggested(m, parents) && ReachesOrIs(m, q, p)
    decreases ParentsAtOrAbove(m, parents, p)
  {
    SuggestedMembers(m, parents, p);
    if !Redundant(m, parents, p) {
      q := p;
    } else {
      var next :| next in parents && next != p && Reaches(m, next, p);
      if Reaches(m, p, next) {
        next :| next in parents && Reaches(m, next, p) && !Reaches(m, p, next);
      }
      HigherIsFewer(m, parents, p, next);
      q := KeptAbove(m, parents, next);
      if q != next {
        ReachTrans(m, q, next, p);
      }
    }
  }

  lemma HigherIsFewer(m: Graph, parents: seq<Rev>, p: Rev, next: Rev)
    requires p in parents && next != p && Reaches(m, next, p) && !Reaches(m, p, next)
    ensures ParentsAtOrAbove(m, parents, next) < ParentsAtOrAbove(m, parents, p)
  {
    assert p in ParentsAtOrAbove(m, parents, p) && p !in ParentsAtOrAbove(m, parents, next);
    forall x | x in ParentsAtOrAbove(m, parents, next) ensures x in ParentsAtOrAbove(m, parents, p) {
      if x != next {
        ReachTrans(m, x, next, p);
      }
    }
  }

  /** A revision and what it reaches. */
  ghost function AtOrBelow(m: Graph, a: Rev): set<Rev> {
    {a} + Below(m, a)
  }

  lemma AtOrBelowShrinks(m: Graph, a: Rev, b: Rev)
    requires Reaches(m, a, b)
    ensures AtOrBelow(m, b) <= AtOrBelow(m, a)
    ensures !Reaches(m, a, a) ==> AtOrBelow(m, b) < AtOrBelow(m, a)
  {
    ReachedIsNode(m, a, b);
    forall c | c in Below(m, b) ensures c in Below(m, a) {
      ReachTrans(m, a, b, c);
    }
    if !Reaches(m, a, a) {
      assert a !in AtOrBelow(m, b);
    }
  }

  /** Where no merge lies on a cycle, a way over n edges survives the reduction: along
      unchanged edges it gets shorter, at a merge it moves on to smaller ground. */
  lemma {:induction false} ReducedKeeps(m: Graph, a: Rev, b: Rev, n: nat)
    requires NoMergeOnCycle(m) && TiesBroken(m) && n >= 1 && Steps(m, a, b, n)
    ensures Reaches(Reduced(m), a, b)
    decreases AtOrBelow(m, a), n
  {
    var p :| Edge(m, a, p) && Steps(m, p, b, n - 1);
    var q := KeptAbove(m, m[a], p);
    assert Edge(Reduced(m), a, q);
    SuggestedMembers(m, m[a], q);
    ReachEdge(m, a, q);
    AtOrBelowShrinks(m, a, q);
    if q == p {
      if IsMerge(m, a) && n > 1 {
        ReducedKeeps(m, p, b, n - 1);
      } else if n > 1 {
        assert AtOrBelow(m, p) == AtOrBelow(m, a) || AtOrBelow(m, p) < AtOrBelow(m, a);
        ReducedKeeps(m, p, b, n - 1);
      }
    } else {
      assert Edge(m, a, p) && Edge(m, a, q) && IsMerge(m, a);
      assert Reaches(m, p, b) || p == b by {
        assert n > 1 ==> Reaches(m, p, b);
      }
      ReachTrans(m, q, p, b);
      var k: nat :| k >= 1 && Steps(m, q, b, k);
      ReducedKeeps(m, q, b, k);
    }
    ReachCons(Reduced(m), a, q, b);
  }

  lemma ReducedAdds(m: Graph, a: Rev, b: Rev)
    requires Reaches(Reduced(m), a, b)
    ensures Reaches(m, a, b)
  {
    forall x, y | Edge(Reduced(m), x, y) ensures Edge(m, x, y) {
      SuggestedMembers(m, m[x], y);
    }
    ReachGrows(Reduced(m), m, a, b);
  }

  // ------------------------------------------------------ what is lost otherwise

  ghost function Component(m: Graph, r: Rev): set<Rev> {
    set x | x in Nodes(m) && Reaches(m, r, x) && Reaches(m, x, r)
  }

  lemma ParentInComponent(m: Graph, u: Rev, x: Rev, y: Rev)
    requires Edge(m, u, x) && Edge(m, u, y) && x != y && Reaches(m, x, u)
    ensures y !in Suggested(m, m[u])
  {
    ReachSnoc(m, x, u, y);
    SuggestedMembers(m, m[u], y);
    assert Redundant(m, m[u], y);
  }

  /** From a component with a cycle the reduction leads nowhere else. */
  lemma ComponentIsClosed(m: Graph, r: Rev, u: Rev, v: Rev)
    requires Reaches(m, r, r) && u in Component(m, r) && Edge(Reduced(m), u, v)
    ensures v in Component(m, r)
  {
    SuggestedMembers(m, m[u], v);
    ReachSnoc(m, r, u, v);
    ReachedIsNode(m, r, v);
    var x := FirstEdge(m, u, r);
    assert Reaches(m, x, u) by {
      if x == r {
        assert Reaches(m, r, u);
      } else {
        ReachTrans(m, x, r, u);
      }
    }
    if x == v {
      ReachTrans(m, x, u, r);
    } else {
      ParentInComponent(m, u, x, v);
    }
  }

  lemma MergeOnCycleLoses(m: Graph, r: Rev, a: Rev, b: Rev)
    requires Edge(m, r, a) && Edge(m, r, b) && a != b && Reaches(m, r, r)
    ensures !SameReach(m, Reduced(m))
  {
    var s := Component(m, r);
    ReachedIsNode(m, r, r);
    ReachEdge(m, r, a);
    ReachEdge(m, r, b);
    ReachedIsNode(m, r, a);
    ReachedIsNode(m, r, b);
    if SameReach(m, Reduced(m)) {
      forall u, v | u in s && Edge(Reduced(m), u, v) ensures v in s {
        ComponentIsClosed(m, r, u, v);
      }
      ClosedHolds(Reduced(m), s, r, a);
      ClosedHolds(Reduced(m), s, r, b);
      var q := FirstEdge(Reduced(m), r, a);
      SuggestedMembers(m, m[r], q);
      ParentInComponent(m, r, if q == a then b else a, q);
    }
  }

  lemma TieLoses(m: Graph, r: Rev, a: Rev, b: Rev)
    requires Edge(m, r, a) && Edge(m, r, b) && a != b && Reaches(m, a, b) && Reaches(m, b, a)
    requires forall c :: Edge(m, r, c) && Reaches(m, c, a) ==> Reaches(m, a, c)
    ensures !SameReach(m, Reduced(m))
  {
    ReachEdge(m, r, a);
    var parents := m[r];
    forall q | q in Suggested(m, parents) ensures q != a && !Reaches(m, q, a) {
      SuggestedMembers(m, parents, q);
    }
    if SameReach(m, Reduced(m)) {
      var q := FirstEdge(Reduced(m), r, a);
      if q != a {
        ReducedAdds(m, q, a);
      }
    }
  }

  /** Writing all suggestions at once changes no revision's ancestors if and only if no
      merge lies on a cycle and every tie between parents is broken by a third. */
  lemma ReductionExactly(m: Graph)
    ensures SameReach(m, Reduced(m)) <==> NoMergeOnCycle(m) && TiesBroken(m)
  {
    if NoMergeOnCycle(m) && TiesBroken(m) {
      forall a, b ensures Reaches(m, a, b) <==> Reaches(Reduced(m), a, b) {
        if Reaches(m, a, b) {
          var n: nat :| n >= 1 && Steps(m, a, b, n);
          ReducedKeeps(m, a, b, n);
        }
        if Reaches(Reduced(m), a, b) {
          ReducedAdds(m, a, b);
        }
      }
    } else if !NoMergeOnCycle(m) {
      var r :| IsMerge(m, r) && Reaches(m, r, r);
      var a, b :| Edge(m, r, a) && Edge(m, r, b) && a != b;
      MergeOnCycleLoses(m, r, a, b);
    } else {
      var r :| r in m && !TiesBrokenAmong(m, m[r]);
      var a, b :| a in m[r] && b in m[r] && a != b && Reaches(m, a, b) && Reaches(m, b, a)
        && forall c :: c in m[r] && Reaches(m, c, a) ==> Reaches(m, a, c);
      TieLoses(m, r, a, b);
    }
  }

  lemma AcyclicBreaksTies(m: Graph, parents: seq<Rev>)
    requires Acyclic(m)
    ensures TiesBrokenAmong(m, parents)
  {
    forall a, b | Reaches(m, a, b) && Reaches(m, b, a) ensures false {
      ReachTrans(m, a, b, a);
    }
  }

  /** Transitive reduction, first half: on an acyclic map no revision gains or loses an
      ancestor. */
  lemma ReductionKeepsAncestors(m: Graph)
    requires Acyclic(m)
    ensures SameReach(m, Reduced(m))
  {
    forall r | r in m ensures TiesBrokenAmong(m, m[r]) {
      AcyclicBreaksTies(m, m[r]);
    }
    ReductionExactly(m);
  }

  /** Second half: what is left of a parent list is not empty unless it was, and
      no entry of it is an ancestor of another. */
  lemma SuggestionIsAntichain(m: Graph, parents: seq<Rev>)
    requires Acyclic(m)
    ensures parents != [] ==> Suggested(m, parents) != []
    ensures forall p, q :: p in Suggested(m, parents) && q in Suggested(m, parents) ==> !Reaches(m, p, q)
  {
    AcyclicBreaksTies(m, parents);
    if parents != [] {
      var q := KeptAbove(m, parents, parents[0]);
    }
    forall p, q | p in Suggested(m, parents) && q in Suggested(m, parents) ensures !Reaches(m, p, q) {
      SuggestedMembers(m, parents, p);
      SuggestedMembers(m, parents, q);
    }
  }

  /** The reduction is the least one: any way of dropping parents that keeps
      every ancestor keeps all the parents that the suggestions keep. */
  lemma ReductionIsLeast(m: Graph, other: Graph, r: Rev, p: Rev)
    requires Acyclic(m) && SameReach(m, other)
    requires forall x, y :: Edge(other, x, y) ==> Edge(m, x, y)
    requires r in m && p in Reduced(m)[r]
    ensures Edge(other, r, p)
  {
    SuggestedMembers(m, m[r], p);
    ReachEdge(m, r, p);
    var c := FirstEdge(other, r, p);
    assert Edge(m, r, c);
    assert Reaches(other, c, p) ==> Reaches(m, c, p);
  }

  /** The revision files with every suggestion written into them. */
  ghost function Rewrite(m: Graph, infos: seq<RevisionInfo>): seq<RevisionInfo> {
    if infos == [] then []
    else
      var info := infos[|infos| - 1];
      Rewrite(m, infos[..|infos| - 1]) + [info.(parents := Suggested(m, info.parents))]
  }

  lemma {:induction false} RewriteIsReduced(m: Graph, infos: seq<RevisionInfo>)
    ensures ParentsMap(Rewrite(m, infos)) == map r | r in ParentsMap(infos) :: Suggested(m, ParentsMap(infos)[r])
  {
    if infos != [] {
      var init, rw := infos[..|infos| - 1], Rewrite(m, infos);
      RewriteIsReduced(m, init);
      assert rw[..|rw| - 1] == Rewrite(m, init);
    }
  }

  /** Whatever the map, the parents that are kept do not make each other redundant. */
  lemma {:induction false} NothingLeftToReport(m: Graph, m': Graph, infos: seq<RevisionInfo>)
    requires forall a, b :: Reaches(m', a, b) ==> Reaches(m, a, b)
    ensures Problems(m', Rewrite(m, infos)) == []
  {
    if infos != [] {
      var info, rw := infos[|infos| - 1], Rewrite(m, infos);
      assert rw[..|rw| - 1] == Rewrite(m, infos[..|infos| - 1]);
      NothingLeftToReport(m, m', infos[..|infos| - 1]);
      KeptIsIrredundant(m, m', info.parents);
    }
  }

  lemma KeptIsIrredundant(m: Graph, m': Graph, parents: seq<Rev>)
    requires forall a, b :: Reaches(m', a, b) ==> Reaches(m, a, b)
    ensures var kept := Suggested(m, parents); Select(m', kept, kept, true) == []
  {
    var kept := Suggested(m, parents);
    forall p | p in kept ensures !Redundant(m', kept, p) {
      SuggestedMembers(m, parents, p);
      forall other | other in kept && other != p ensures !Reaches(m', other, p) {
        SuggestedMembers(m, parents, other);
      }
    }
    var redundant := Select(m', kept, kept, true);
    if redundant != [] {
      SelectMembers(m', kept, kept, true, redundant[0]);
    }
  }

  /** The audit as a whole, on every map: after its suggestions are written into the
      files a second run reports nothing, and every revision has the ancestors it had
      if and only if no merge lay on a cycle and ties were broken, which an acyclic map
      guarantees. */
  lemma SecondRunIsClean(infos: seq<RevisionInfo>)
    ensures
      var m := ParentsMap(infos);
      var m' := ParentsMap(Rewrite(m, infos));
      && m' == Reduced(m) && Problems(m', Rewrite(m, infos)) == []
      && (SameReach(m, m') <==> NoMergeOnCycle(m) && TiesBroken(m))
      && (Acyclic(m) ==> SameReach(m, m'))
  {
    var m := ParentsMap(infos);
    RewriteIsReduced(m, infos);
    ReductionExactly(m);
    if Acyclic(m) {
      ReductionKeepsAncestors(m);
    }
    forall a, b | Reaches(Reduced(m), a, b) ensures Reaches(m, a, b) {
      ReducedAdds(m, a, b);
    }
    NothingLeftToReport(m, Reduced(m), infos);
  }

  /** On a cyclic map the suggestion can be empty: here each parent of the merge
      descends from the other, and writing the suggestion cuts the merge off. */
  lemma CyclicMapLosesAncestors()
    ensures
      var merge, a, b := Rev("merge"), Rev("a"), Rev("b");
      var m: Graph := map[merge := [a, b], a := [b], b := [a]];
      Suggested(m, m[merge]) == [] && Reaches(m, merge, a) && !Reaches(Reduced(m), merge, a)
  {
    var merge, a, b := Rev("merge"), Rev("a"), Rev("b");
    var m: Graph := map[merge := [a, b], a := [b], b := [a]];
    ReachEdge(m, a, b);
    ReachEdge(m, b, a);
    ReachEdge(m, merge, a);
    var kept := Suggested(m, m[merge]);
    if kept != [] {
      SuggestedMembers(m, m[merge], kept[0]);
      assert Redundant(m, m[merge], kept[0]);
      assert false;
    }
    if Reaches(Reduced(m), merge, a) {
      var c := FirstEdge(Reduced(m), merge, a);
    }
  }
}
