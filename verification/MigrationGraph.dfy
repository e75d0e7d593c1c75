/** `MigrationGraph` of `analyze_migrations.py`: edges filled in place, heads,
    roots, broken chains, cycles and the path to a root. */
module MigrationGraphs {
  import opened Collections
  import opened Reachability
  import opened MigrationCatalog
  import opened CycleSearches

  ghost predicate IsHead(cat: Catalog, children: Graph, r: Rev) {
    r in cat.at && forall c :: !Edge(children, r, c)
  }

  predicate IsRoot(cat: Catalog, r: Rev) {
    r in cat.at && Refs(cat.at[r]) == []
  }

  /** The revision that the path to a root goes to next. */
  function FirstDown(cat: Catalog, r: Rev): Option<Rev> {
    if r in cat.at && DownRefs(cat.at[r]) != [] then Some(DownRefs(cat.at[r])[0]) else None
  }

  /** Every entry but the first follows from the one before it. */
  ghost predicate DownChain(cat: Catalog, path: seq<Rev>) {
    |path| <= 1 || (DownChain(cat, path[..|path| - 1]) && FirstDown(cat, path[|path| - 1]) == Some(path[|path| - 2]))
  }

  // ------------------------------------------------------ filling the two maps

  /** `d[k].append(v)` on a dictionary whose missing entries are empty lists. */
  function AppendTo(g: Graph, k: Rev, v: Rev): Graph {
    g[k := Adj(g, k) + [v]]
  }

  /** The children map after the first `n` references of r. */
  function LinkChildren(known: set<Rev>, children: Graph, r: Rev, refs: seq<Rev>, n: nat): Graph
    requires n <= |refs|
  {
    if n == 0 then children
    else
      var g := LinkChildren(known, children, r, refs, n - 1);
      if refs[n - 1] in known then AppendTo(g, refs[n - 1], r) else g
  }

  /** The parents map after the first `n` `down_revision` entries of r. */
  function LinkDowns(known: set<Rev>, parents: Graph, r: Rev, refs: seq<Rev>, n: nat): Graph
    requires n <= |refs|
  {
    if n == 0 then parents
    else
      var g := LinkDowns(known, parents, r, refs, n - 1);
      if refs[n - 1] in known then AppendTo(g, r, refs[n - 1]) else g
  }

  /** The parents map after the first `n` `depends_on` entries of r. */
  function LinkDeps(known: set<Rev>, parents: Graph, r: Rev, m: Migration, n: nat): Graph
    requires n <= |m.dependsOn|
  {
    if n == 0 then parents
    else
      var g, dep := LinkDeps(known, parents, r, m, n - 1), m.dependsOn[n - 1];
      if dep in known && m.down != One(dep) && dep !in Adj(g, r) then AppendTo(g, r, dep) else g
  }

  lemma {:induction false} LinkChildrenAt(known: set<Rev>, children: Graph, r: Rev, refs: seq<Rev>, n: nat, p: Rev)
    requires n <= |refs|
    ensures Adj(LinkChildren(known, children, r, refs, n), p) ==
      if p in known then PushLinks(Adj(children, p), r, refs, p, n) else Adj(children, p)
  {
    if n > 0 {
      LinkChildrenAt(known, children, r, refs, n - 1, p);
    }
  }

  lemma {:induction false} LinkDownsAt(known: set<Rev>, parents: Graph, r: Rev, refs: seq<Rev>, n: nat, x: Rev)
    requires n <= |refs| && Adj(parents, r) == []
    ensures Adj(LinkDowns(known, parents, r, refs, n), x) == if x == r then Keep(known, refs, n) else Adj(parents, x)
  {
    if n > 0 {
      LinkDownsAt(known, parents, r, refs, n - 1, x);
    }
  }

  lemma {:induction false} LinkDepsAt(known: set<Rev>, parents: Graph, r: Rev, m: Migration, n: nat, x: Rev)
    requires n <= |m.dependsOn| && Adj(parents, r) == Keep(known, DownRefs(m), |DownRefs(m)|)
    ensures Adj(LinkDeps(known, parents, r, m, n), r) == ParentList(known, m, n)
    ensures x != r ==> Adj(LinkDeps(known, parents, r, m, n), x) == Adj(parents, x)
  {
    hide Keep;
    if n > 0 {
      LinkDepsAt(known, parents, r, m, n - 1, x);
    }
  }

  function ChildrenAfter(known: set<Rev>, children: Graph, r: Rev, m: Migration): Graph {
    LinkChildren(known, LinkChildren(known, children, r, DownRefs(m), |DownRefs(m)|), r, m.dependsOn, |m.dependsOn|)
  }

  function ParentsAfter(known: set<Rev>, parents: Graph, r: Rev, m: Migration): Graph {
    LinkDeps(known, LinkDowns(known, parents, r, DownRefs(m), |DownRefs(m)|), r, m, |m.dependsOn|)
  }

  /** The children map after the first `n` revisions. */
  function ChildrenUpTo(cat: Catalog, n: nat): Graph
    requires n <= |cat.keys| && forall r :: r in cat.keys ==> r in cat.at
  {
    if n == 0 then map[]
    else ChildrenAfter(cat.at.Keys, ChildrenUpTo(cat, n - 1), cat.keys[n - 1], cat.at[cat.keys[n - 1]])
  }

  function ParentsUpTo(cat: Catalog, n: nat): Graph
    requires n <= |cat.keys| && forall r :: r in cat.keys ==> r in cat.at
  {
    if n == 0 then map[]
    else ParentsAfter(cat.at.Keys, ParentsUpTo(cat, n - 1), cat.keys[n - 1], cat.at[cat.keys[n - 1]])
  }

  lemma {:induction false} ChildrenUpToAt(cat: Catalog, n: nat, p: Rev)
    requires WellFormed(cat) && n <= |cat.keys|
    ensures Adj(ChildrenUpTo(cat, n), p) == if p in cat.at then ChildList(cat.keys, cat.at, p, n) else []
  {
    if n > 0 {
      ChildrenUpToAt(cat, n - 1, p);
      var known, r, g := cat.at.Keys, cat.keys[n - 1], ChildrenUpTo(cat, n - 1);
      var m := cat.at[r];
      var refs := DownRefs(m);
      LinkChildrenAt(known, g, r, refs, |refs|, p);
      LinkChildrenAt(known, LinkChildren(known, g, r, refs, |refs|), r, m.dependsOn, |m.dependsOn|, p);
    }
  }

  /** A revision has its parents once the loop has passed it at position `i`. */
  lemma {:induction false} ParentsUpToAt(cat: Catalog, n: nat, i: nat)
    requires WellFormed(cat) && n <= |cat.keys| && i < |cat.keys|
    ensures Adj(ParentsUpTo(cat, n), cat.keys[i]) == if i < n then ParentsOf(cat, cat.keys[i]) else []
  {
    if n > 0 {
      ParentsUpToAt(cat, n - 1, i);
      ParentsUpToAt(cat, n - 1, n - 1);
      ParentsAfterAt(cat, ParentsUpTo(cat, n - 1), cat.keys[n - 1], cat.keys[i]);
    }
  }

  lemma {:induction false} ParentsUpToUnknown(cat: Catalog, n: nat, x: Rev)
    requires WellFormed(cat) && n <= |cat.keys| && x !in cat.at
    ensures Adj(ParentsUpTo(cat, n), x) == []
  {
    if n > 0 {
      ParentsUpToUnknown(cat, n - 1, x);
      ParentsUpToAt(cat, n - 1, n - 1);
      ParentsAfterAt(cat, ParentsUpTo(cat, n - 1), cat.keys[n - 1], x);
    }
  }

  lemma ParentsAfterAt(cat: Catalog, parents: Graph, r: Rev, x: Rev)
    requires r in cat.at && Adj(parents, r) == []
    ensures Adj(ParentsAfter(cat.at.Keys, parents, r, cat.at[r]), x) ==
      if x == r then ParentsOf(cat, r) else Adj(parents, x)
  {
    var known, m := cat.at.Keys, cat.at[r];
    var refs := DownRefs(m);
    LinkDownsAt(known, parents, r, refs, |refs|, x);
    LinkDownsAt(known, parents, r, refs, |refs|, r);
    LinkDepsAt(known, LinkDowns(known, parents, r, refs, |refs|), r, m, |m.dependsOn|, x);
  }

  lemma GraphBuilt(cat: Catalog)
    requires WellFormed(cat)
    ensures GraphOf(cat, ChildrenUpTo(cat, |cat.keys|), ParentsUpTo(cat, |cat.keys|))
  {
    forall p: Rev ensures Adj(ChildrenUpTo(cat, |cat.keys|), p) == ChildrenOf(cat, p) {
      ChildrenUpToAt(cat, |cat.keys|, p);
    }
    forall x: Rev ensures Adj(ParentsUpTo(cat, |cat.keys|), x) == ParentsOf(cat, x) {
      if x in cat.at {
        var i :| 0 <= i < |cat.keys| && cat.keys[i] == x;
        ParentsUpToAt(cat, |cat.keys|, i);
      } else {
        ParentsUpToUnknown(cat, |cat.keys|, x);
      }
    }
  }

  // ------------------------------------------------------------ heads and roots

  /** Those of the first `n` revisions that have no children, in dictionary order. */
  function Childless(keys: seq<Rev>, children: Graph, n: nat): seq<Rev>
    requires n <= |keys|
  {
    if n == 0 then []
    else Childless(keys, children, n - 1) + if Adj(children, keys[n - 1]) == [] then [keys[n - 1]] else []
  }

  function Refless(cat: Catalog, n: nat): seq<Rev>
    requires n <= |cat.keys| && forall r :: r in cat.keys ==> r in cat.at
  {
    if n == 0 then []
    else Refless(cat, n - 1) + if IsRoot(cat, cat.keys[n - 1]) then [cat.keys[n - 1]] else []
  }

  method CollectHeads(keys: seq<Rev>, children: Graph) returns (found: seq<Rev>)
    ensures found == Childless(keys, children, |keys|)
  {
    found := [];
    for n := 0 to |keys|
      invariant found == Childless(keys, children, n)
    {
      if Adj(children, keys[n]) == [] {
        found := found + [keys[n]];
      }
    }
  }

  method CollectRoots(cat: Catalog) returns (found: seq<Rev>)
    requires forall r :: r in cat.keys ==> r in cat.at
    ensures found == Refless(cat, |cat.keys|)
  {
    found := [];
    for n := 0 to |cat.keys|
      invariant found == Refless(cat, n)
    {
      var m := cat.at[cat.keys[n]];
      if DownRefs(m) == [] && m.dependsOn == [] {
        found := found + [cat.keys[n]];
      }
    }
  }

  method CollectBroken(cat: Catalog) returns (broken: seq<(Rev, Rev)>)
    requires forall r :: r in cat.keys ==> r in cat.at
    ensures broken == Broken(cat, |cat.keys|)
  {
    broken := [];
    for n := 0 to |cat.keys|
      invariant broken == Broken(cat, n)
    {
      var missing := CollectMissing(cat.at.Keys, cat.keys[n], Refs(cat.at[cat.keys[n]]));
      broken := broken + missing;
    }
  }

  method CollectMissing(known: set<Rev>, r: Rev, refs: seq<Rev>) returns (missing: seq<(Rev, Rev)>)
    ensures missing == Missing(known, r, refs, |refs|)
  {
    missing := [];
    for j := 0 to |refs|
      invariant missing == Missing(known, r, refs, j)
    {
      if refs[j] !in known {
        missing := missing + [(r, refs[j])];
      }
    }
  }

  lemma {:induction false} ChildlessIn(keys: seq<Rev>, children: Graph, n: nat, r: Rev)
    requires n <= |keys|
    ensures r in Childless(keys, children, n) <==> r in keys[..n] && Adj(children, r) == []
  {
    if n > 0 {
      ChildlessIn(keys, children, n - 1, r);
      assert keys[..n] == keys[..n - 1] + [keys[n - 1]];
    }
  }

  lemma {:induction false} ReflessIn(cat: Catalog, n: nat, r: Rev)
    requires n <= |cat.keys| && forall x :: x in cat.keys ==> x in cat.at
    ensures r in Refless(cat, n) <==> r in cat.keys[..n] && IsRoot(cat, r)
  {
    if n > 0 {
      ReflessIn(cat, n - 1, r);
      assert cat.keys[..n] == cat.keys[..n - 1] + [cat.keys[n - 1]];
    }
  }

  lemma {:induction false} ChildlessOnce(keys: seq<Rev>, children: Graph, n: nat)
    requires n <= |keys| && NoRepeats(keys)
    ensures NoRepeats(Childless(keys, children, n))
  {
    if n > 0 {
      ChildlessOnce(keys, children, n - 1);
      ChildlessIn(keys, children, n - 1, keys[n - 1]);
    }
  }

  lemma {:induction false} ReflessOnce(cat: Catalog, n: nat)
    requires n <= |cat.keys| && cat.Valid()
    ensures NoRepeats(Refless(cat, n))
  {
    if n > 0 {
      ReflessOnce(cat, n - 1);
      ReflessIn(cat, n - 1, cat.keys[n - 1]);
    }
  }

  lemma ChildlessAreHeads(cat: Catalog, children: Graph)
    requires cat.Valid()
    ensures var heads := SortRevs(Childless(cat.keys, children, |cat.keys|));
      Sorted(heads) && NoRepeats(heads) && forall r :: r in heads <==> IsHead(cat, children, r)
  {
    var found := Childless(cat.keys, children, |cat.keys|);
    ChildlessOnce(cat.keys, children, |cat.keys|);
    forall r ensures r in found <==> IsHead(cat, children, r) {
      ChildlessIsHead(cat, children, r);
    }
    hide *;
    SortKeepsMembers(found);
  }

  lemma ChildlessIsHead(cat: Catalog, children: Graph, r: Rev)
    requires cat.Valid()
    ensures r in Childless(cat.keys, children, |cat.keys|) <==> IsHead(cat, children, r)
  {
    ChildlessIn(cat.keys, children, |cat.keys|, r);
    assert cat.keys[..|cat.keys|] == cat.keys;
    assert Adj(children, r) != [] ==> Edge(children, r, Adj(children, r)[0]);
  }

  lemma ReflessAreRoots(cat: Catalog)
    requires cat.Valid()
    ensures var roots := SortRevs(Refless(cat, |cat.keys|));
      Sorted(roots) && NoRepeats(roots) && forall r :: r in roots <==> IsRoot(cat, r)
  {
    var found := Refless(cat, |cat.keys|);
    SortKeepsMembers(found);
    ReflessOnce(cat, |cat.keys|);
    forall r ensures r in found <==> IsRoot(cat, r) {
      ReflessIn(cat, |cat.keys|, r);
      assert cat.keys[..|cat.keys|] == cat.keys;
    }
  }

  /** Without references, or with one that names a migration. */
  predicate RootsAgree(cat: Catalog, r: Rev)
    requires r in cat.at
  {
    Refs(cat.at[r]) == [] || exists p :: p in Refs(cat.at[r]) && p in cat.at
  }

  /** On every graph: "no references" and "no parents" say the same of a revision if and
      only if it has no references or one that is not broken. */
  lemma RootsWithoutParents(cat: Catalog, children: Graph, parents: Graph, r: Rev)
    requires GraphOf(cat, children, parents) && r in cat.at
    ensures (IsRoot(cat, r) <==> Adj(parents, r) == []) <==> RootsAgree(cat, r)
  {
    EdgesAreReferences(cat, children, parents);
    var refs := Refs(cat.at[r]);
    if p :| p in refs && p in cat.at {
      assert Refers(cat, r, p) && Edge(parents, r, p);
    } else if Adj(parents, r) != [] {
      assert Edge(parents, r, Adj(parents, r)[0]);
    }
  }

  class MigrationGraph {
    var migrations: Catalog
    var children: Graph
    var parents: Graph

    ghost predicate Valid()
      reads this
    {
      GraphOf(migrations, children, parents)
    }

    constructor (migrations: seq<Migration>)
      ensures Valid() && this.migrations == CatalogOf(migrations)
    {
      this.migrations := CatalogOf(migrations);
      children, parents := map[], map[];
      new;
      BuildGraph();
      GraphBuilt(this.migrations);
    }

    method BuildGraph()
      requires WellFormed(migrations) && children == map[] && parents == map[]
      modifies this`children, this`parents
      ensures children == ChildrenUpTo(migrations, |migrations.keys|)
      ensures parents == ParentsUpTo(migrations, |migrations.keys|)
    {
      hide LinkChildren, LinkDowns, LinkDeps;
      for n := 0 to |migrations.keys|
        invariant children == ChildrenUpTo(migrations, n) && parents == ParentsUpTo(migrations, n)
      {
        LinkDownRevision(migrations.keys[n]);
        LinkDependencies(migrations.keys[n]);
      }
    }

    /** The links of `down_revision`, string or tuple. */
    method LinkDownRevision(r: Rev)
      requires r in migrations.at
      modifies this`children, this`parents
      ensures var known, refs := migrations.at.Keys, DownRefs(migrations.at[r]);
        && children == LinkChildren(known, old(children), r, refs, |refs|)
        && parents == LinkDowns(known, old(parents), r, refs, |refs|)
    {
      var known, refs := migrations.at.Keys, DownRefs(migrations.at[r]);
      for j := 0 to |refs|
        invariant children == LinkChildren(known, old(children), r, refs, j)
        invariant parents == LinkDowns(known, old(parents), r, refs, j)
      {
        if refs[j] in known {
          children := AppendTo(children, refs[j], r);
          parents := AppendTo(parents, r, refs[j]);
        }
      }
    }

    /** The links of `depends_on`. */
    method LinkDependencies(r: Rev)
      requires r in migrations.at
      modifies this`children, this`parents
      ensures var known, m := migrations.at.Keys, migrations.at[r];
        && children == LinkChildren(known, old(children), r, m.dependsOn, |m.dependsOn|)
        && parents == LinkDeps(known, old(parents), r, m, |m.dependsOn|)
    {
      var known, m := migrations.at.Keys, migrations.at[r];
      for j := 0 to |m.dependsOn|
        invariant children == LinkChildren(known, old(children), r, m.dependsOn, j)
        invariant parents == LinkDeps(known, old(parents), r, m, j)
      {
        var dep := m.dependsOn[j];
        if dep in known {
          children := AppendTo(children, dep, r);
          if m.down != One(dep) && dep !in Adj(parents, r) {
            parents := AppendTo(parents, r, dep);
          }
        }
      }
    }

    /** Revisions without children, sorted. */
    method FindHeads() returns (heads: seq<Rev>)
      requires Valid()
      ensures forall r :: r in heads <==> IsHead(migrations, children, r)
      ensures Sorted(heads) && NoRepeats(heads)
    {
      assert migrations.Valid();
      hide *;
      var found := CollectHeads(migrations.keys, children);
      ChildlessAreHeads(migrations, children);
      heads := SortRevs(found);
    }

    /** Revisions with neither `down_revision` nor `depends_on`, sorted. These are the
        revisions without parents, but for those whose references are all broken. */
    method FindRoots() returns (roots: seq<Rev>)
      requires Valid()
      ensures forall r :: r in roots <==> IsRoot(migrations, r)
      ensures Sorted(roots) && NoRepeats(roots)
      ensures forall r :: r in migrations.at ==> ((r in roots <==> Adj(parents, r) == []) <==> RootsAgree(migrations, r))
    {
      assert migrations.Valid() && forall r :: r in migrations.keys ==> r in migrations.at;
      hide *;
      var found := CollectRoots(migrations);
      ReflessAreRoots(migrations);
      roots := SortRevs(found);
      forall r | r in migrations.at
        ensures (r in roots <==> Adj(parents, r) == []) <==> RootsAgree(migrations, r)
      {
        RootsWithoutParents(migrations, children, parents, r);
      }
    }

    /** References to revisions that do not exist, in the order they are met. */
    method FindBrokenChains() returns (broken: seq<(Rev, Rev)>)
      requires Valid()
      ensures broken == Broken(migrations, |migrations.keys|)
      ensures forall r, p :: (r, p) in broken <==> r in migrations.at && p in Refs(migrations.at[r]) && p !in migrations.at
      ensures broken == [] <==> Unbroken(migrations)
    {
      assert migrations.Valid() && forall r :: r in migrations.keys ==> r in migrations.at;
      hide *;
      broken := CollectBroken(migrations);
      BrokenIsEmpty(migrations);
      forall r, p
        ensures (r, p) in broken <==> r in migrations.at && p in Refs(migrations.at[r]) && p !in migrations.at
      {
        BrokenReference(migrations, r, p);
      }
    }

    /** Empty exactly when no revision can be reached from itself. Every revision on a
        cycle is on a common cycle with the first revision of some report. */
    method DetectCycles() returns (cycles: seq<seq<Rev>>)
      requires Valid()
      ensures cycles == [] <==> Acyclic(children)
      ensures forall cycle :: cycle in cycles ==> ReportedCycle(children, cycle)
      ensures forall r :: Reaches(children, r, r) ==> ComponentReported(children, cycles, r)
    {
      EdgesAreReferences(migrations, children, parents);
      ghost var order;
      cycles, order := SearchCycles(migrations.keys, children);
      AllReported(children, order, cycles, migrations.at.Keys);
    }

    method GetPathToRoot(revision: Rev) returns (path: seq<Rev>)
      requires Valid()
      ensures PathToRoot(migrations, path, revision)
    {
      var walk := new PathWalk(migrations);
      path := walk.Extend(revision);
    }
  }

  // -------------------------------------------------------------------- cycles

  /** The loop over all revisions, and the order in which the search left them. */
  method SearchCycles(keys: seq<Rev>, children: Graph) returns (cycles: seq<seq<Rev>>, ghost order: seq<Rev>)
    requires forall a, b :: Edge(children, a, b) ==> b in keys
    ensures ChildrenFirst(children, order, cycles) && forall k :: 0 <= k < |keys| ==> keys[k] in order
    ensures forall cycle :: cycle in cycles ==> ReportedCycle(children, cycle)
  {
    hide ChildrenFirst, ReportedCycle;
    var search := new CycleSearch(children, set r | r in keys);
    for n := 0 to |keys|
      invariant search.Valid() && search.recStack == {}
      invariant search.children == children && search.universe == set r | r in keys
      invariant forall k :: 0 <= k < n ==> keys[k] in search.visited
    {
      if keys[n] !in search.visited {
        search.Visit(keys[n], [keys[n]]);
      }
    }
    cycles, order := search.cycles, search.finished;
  }

  lemma AllReported(g: Graph, order: seq<Rev>, cycles: seq<seq<Rev>>, known: set<Rev>)
    requires ChildrenFirst(g, order, cycles) && forall cycle :: cycle in cycles ==> ReportedCycle(g, cycle)
    requires forall r :: r in known ==> r in order
    requires forall a, b :: Edge(g, a, b) ==> a in known
    ensures forall r :: Reaches(g, r, r) ==> ComponentReported(g, cycles, r)
    ensures cycles == [] <==> Acyclic(g)
  {
    hide ChildrenFirst, ReportedCycle, SameComponent;
    forall r | Reaches(g, r, r) ensures ComponentReported(g, cycles, r) {
      ReportedFor(g, order, cycles, known, r);
    }
    if cycles != [] {
      ReportedIsCycle(g, cycles[0]);
    }
  }

  lemma ReportedFor(g: Graph, order: seq<Rev>, cycles: seq<seq<Rev>>, known: set<Rev>, r: Rev)
    requires ChildrenFirst(g, order, cycles) && forall cycle :: cycle in cycles ==> ReportedCycle(g, cycle)
    requires forall r :: r in known ==> r in order
    requires forall a, b :: Edge(g, a, b) ==> a in known
    requires Reaches(g, r, r)
    ensures ComponentReported(g, cycles, r)
  {
    hide ChildrenFirst, ReportedCycle;
    var c := FirstEdge(g, r, r);
    var i :| 0 <= i < |order| && order[i] == r;
    var cycle := ComponentIsReported(g, order, cycles, i, r);
  }

  lemma ReportedIsCycle(g: Graph, cycle: seq<Rev>)
    requires ReportedCycle(g, cycle)
    ensures Reaches(g, cycle[0], cycle[0])
  {
    WalkReaches(g, cycle[..|cycle| - 1]);
  }

  // -------------------------------------------------------------- path to a root

  /** The path reports a walk along first `down_revision` entries that ends in the
      requested revision, repeats nothing, and could not have gone on: its first
      entry is missing, has no `down_revision`, or leads back into the path. */
  ghost predicate PathToRoot(cat: Catalog, path: seq<Rev>, revision: Rev) {
    && path != [] && path[|path| - 1] == revision
    && NoRepeats(path)
    && DownChain(cat, path)
    && (FirstDown(cat, path[0]) == None || FirstDown(cat, path[0]).value in path)
  }

  /** `get_path_to_root` with the `visited` set that its recursion shares. */
  class PathWalk {
    const migrations: Catalog
    var visited: set<Rev>

    constructor (migrations: Catalog)
      ensures this.migrations == migrations && visited == {}
    {
      this.migrations := migrations;
      visited := {};
    }

    method Extend(revision: Rev) returns (path: seq<Rev>)
      modifies this
      ensures revision in old(visited) ==> path == [] && visited == old(visited)
      ensures revision !in old(visited) ==>
        && path != [] && path[|path| - 1] == revision
        && NoRepeats(path) && DownChain(migrations, path)
        && (FirstDown(migrations, path[0]) == None || FirstDown(migrations, path[0]).value in visited)
      ensures forall r :: r in visited <==> r in old(visited) || r in path
      ensures forall r :: r in path ==> r !in old(visited)
      decreases migrations.at.Keys - visited
    {
      if revision in visited {
        return [];
      }
      visited := visited + {revision};
      var next := FirstDown(migrations, revision);
      assert next != None ==> revision in migrations.at.Keys;
      hide FirstDown;
      if next == None {
        return [revision];
      }
      var parentPath := Extend(next.value);
      assert (parentPath + [revision])[..|parentPath|] == parentPath;
      path := parentPath + [revision];
    }
  }

  lemma {:induction false} DownChainReaches(cat: Catalog, parents: Graph, path: seq<Rev>, k: nat)
    requires path != [] && k < |path| && DownChain(cat, path)
    requires forall p :: p in path ==> p in cat.at
    requires forall r, p :: p in cat.at && FirstDown(cat, r) == Some(p) ==> Edge(parents, r, p)
    ensures ReachesOrIs(parents, path[k], path[0])
    decreases k
  {
    if k > 0 {
      DownChainLink(cat, path, k);
      DownChainReaches(cat, parents, path, k - 1);
      ReachCons(parents, path[k], path[k - 1], path[0]);
    }
  }

  lemma {:induction false} DownChainLink(cat: Catalog, path: seq<Rev>, k: nat)
    requires DownChain(cat, path) && 1 <= k < |path|
    ensures FirstDown(cat, path[k]) == Some(path[k - 1])
    decreases |path|
  {
    if k < |path| - 1 {
      DownChainLink(cat, path[..|path| - 1], k);
    }
  }

  /** On an acyclic graph the path starts at a revision that is missing or has no
      `down_revision`; with no broken chain it is the latter. */
  lemma PathStartsAtRoot(cat: Catalog, children: Graph, parents: Graph, path: seq<Rev>, revision: Rev)
    requires GraphOf(cat, children, parents) && Acyclic(children)
    requires PathToRoot(cat, path, revision)
    ensures FirstDown(cat, path[0]) == None
    ensures revision in cat.at && Unbroken(cat) ==> path[0] in cat.at && DownRefs(cat.at[path[0]]) == []
  {
    assert Acyclic(parents) by {
      EdgesAreReferences(cat, children, parents);
    }
    forall r, p | p in cat.at && FirstDown(cat, r) == Some(p) ensures Edge(parents, r, p) {
      FirstDownEdge(cat, children, parents, r, p);
    }
    NoWayBack(cat, parents, path);
    if revision in cat.at && Unbroken(cat) && |path| > 1 {
      DownChainLink(cat, path, 1);
    }
  }

  lemma FirstDownEdge(cat: Catalog, children: Graph, parents: Graph, r: Rev, p: Rev)
    requires GraphOf(cat, children, parents) && p in cat.at && FirstDown(cat, r) == Some(p)
    ensures Edge(parents, r, p)
  {
    assert p == DownRefs(cat.at[r])[0] && p in Refs(cat.at[r]);
    ParentEdge(cat, p, r);
  }

  lemma NoWayBack(cat: Catalog, parents: Graph, path: seq<Rev>)
    requires Acyclic(parents) && path != [] && DownChain(cat, path)
    requires forall r, p :: p in cat.at && FirstDown(cat, r) == Some(p) ==> Edge(parents, r, p)
    requires FirstDown(cat, path[0]) == None || FirstDown(cat, path[0]).value in path
    ensures FirstDown(cat, path[0]) == None
  {
    if FirstDown(cat, path[0]) != None {
      forall p | p in path ensures p in cat.at {
        PathKnown(cat, path, p);
      }
      var k :| 0 <= k < |path| && path[k] == FirstDown(cat, path[0]).value;
      DownChainReaches(cat, parents, path, k);
      ReachCons(parents, path[0], path[k], path[0]);
    }
  }

  lemma PathKnown(cat: Catalog, path: seq<Rev>, p: Rev)
    requires path != [] && DownChain(cat, path) && FirstDown(cat, path[0]) != None && p in path
    ensures p in cat.at
  {
    var k :| 0 <= k < |path| && path[k] == p;
    if k > 0 {
      DownChainLink(cat, path, k);
    }
  }
}
