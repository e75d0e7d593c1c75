/** What heads and roots mean on an acyclic graph, and what the recommendation of
    `analyze_migrations.py` achieves: a new merge revision over all heads. */
module MergeHeads {
  import opened Collections
  import opened Reachability
  import opened MigrationCatalog
  import opened MigrationGraphs
  import opened MergeParents

  /** Every existing revision is a head or an ancestor of one. */
  lemma {:induction false} HeadAbove(cat: Catalog, children: Graph, parents: Graph, r: Rev) returns (head: Rev)
    requires GraphOf(cat, children, parents) && Acyclic(children) && r in cat.at
    ensures IsHead(cat, children, head) && ReachesOrIs(children, r, head)
    decreases Below(children, r)
  {
    if c :| Edge(children, r, c) {
      EdgesAreReferences(cat, children, parents);
      ReachEdge(children, r, c);
      BelowShrinks(children, r, c);
      head := HeadAbove(cat, children, parents, c);
      ReachTrans(children, r, c, head);
    } else {
      head := r;
    }
  }

  /** No head is an ancestor of another. */
  lemma HeadsAreApart(cat: Catalog, children: Graph, parents: Graph, a: Rev, b: Rev)
    requires GraphOf(cat, children, parents) && IsHead(cat, children, a) && IsHead(cat, children, b)
    ensures !Reaches(parents, a, b)
  {
    EdgesAreReferences(cat, children, parents);
    assert forall c :: !Edge(parents, c, b);
    if Reaches(parents, a, b) {
      var c := LastEdge(parents, a, b);
    }
  }

  /** Without broken chains every revision is a root or descends from one. */
  lemma {:induction false} RootBelow(cat: Catalog, children: Graph, parents: Graph, r: Rev) returns (root: Rev)
    requires GraphOf(cat, children, parents) && Acyclic(children) && Unbroken(cat) && r in cat.at
    ensures IsRoot(cat, root) && ReachesOrIs(parents, r, root)
    decreases Below(parents, r)
  {
    EdgesAreReferences(cat, children, parents);
    if IsRoot(cat, r) {
      root := r;
    } else {
      var p := Refs(cat.at[r])[0];
      assert Refers(cat, r, p) && Edge(parents, r, p);
      ReachEdge(parents, r, p);
      BelowShrinks(parents, r, p);
      root := RootBelow(cat, children, parents, p);
      ReachTrans(parents, r, p, root);
    }
  }

  /** A broken reference makes a revision that is no root although the graph shows
      it without parents. */
  lemma BrokenRevisionIsNoRoot()
    ensures
      var r, gone := Rev("r"), Rev("gone");
      var cat := EmptyDict().Put(r, Migration(Some(r), One(gone), []));
      WellFormed(cat) && !IsRoot(cat, r) && ParentsOf(cat, r) == []
  {
    var r, gone := Rev("r"), Rev("gone");
    var cat: Catalog := EmptyDict().Put(r, Migration(Some(r), One(gone), []));
    assert r.id != gone.id && r.id != "";
    assert cat.at.Keys == {r};
    assert Refs(cat.at[r]) == [gone];
    assert Keep(cat.at.Keys, [gone], 0) == [];
  }

  // -------------------------------------------------------------- the merge itself

  /** `alembic merge` over the given heads. */
  function MergeOf(merge: Rev, heads: seq<Rev>): Migration {
    Migration(Some(merge), Many(heads), [])
  }

  /** Nothing exists or is referred to under the new name yet. */
  ghost predicate Unused(cat: Catalog, merge: Rev) {
    merge != Rev("") && merge !in cat.at && forall r :: r in cat.at ==> merge !in Refs(cat.at[r])
  }

  /** The parents map that the merge audit reads: `down_revision` entries only,
      existing or not. */
  function AuditMap(cat: Catalog): Graph {
    map r | r in cat.at :: DownRefs(cat.at[r])
  }

  lemma MergeEdges(cat: Catalog, merge: Rev, heads: seq<Rev>)
    requires WellFormed(cat) && Unused(cat, merge)
    requires forall h :: h in heads ==> h in cat.at
    ensures var cat' := cat.Put(merge, MergeOf(merge, heads));
      && WellFormed(cat')
      && forall c, p :: Refers(cat', c, p) <==> Refers(cat, c, p) || (c == merge && p in heads)
  {
    cat.PutValid(merge, MergeOf(merge, heads));
    var cat' := cat.Put(merge, MergeOf(merge, heads));
    forall c, p ensures Refers(cat', c, p) <==> Refers(cat, c, p) || (c == merge && p in heads) {
      assert c in cat.at ==> cat'.at[c] == cat.at[c];
    }
  }

  /** The merge becomes the one head, keeps the graph acyclic and has every other
      revision as an ancestor. */
  lemma MergeIsTheHead(cat: Catalog, children: Graph, parents: Graph, merge: Rev, heads: seq<Rev>,
                       children': Graph, parents': Graph)
    requires GraphOf(cat, children, parents) && Acyclic(children) && Unused(cat, merge)
    requires forall h :: h in heads <==> IsHead(cat, children, h)
    requires GraphOf(cat.Put(merge, MergeOf(merge, heads)), children', parents')
    ensures Acyclic(children')
    ensures forall h :: IsHead(cat.Put(merge, MergeOf(merge, heads)), children', h) <==> h == merge
    ensures forall r :: r in cat.at ==> Reaches(parents', merge, r)
  {
    var cat' := cat.Put(merge, MergeOf(merge, heads));
    MergedEdges(cat, children, parents, merge, heads, children', parents');
    forall r ensures !Reaches(children', r, r) {
      if Reaches(children', r, r) {
        OldCycle(children, children', merge, heads, r);
      }
    }
    forall h | h in cat.at ensures !IsHead(cat', children', h) {
      if h in heads {
        assert Edge(children', h, merge);
      } else {
        var c :| Edge(children, h, c);
        assert Edge(children', h, c);
      }
    }
    forall r | r in cat.at ensures Reaches(parents', merge, r) {
      var h := HeadAbove(cat, children, parents, r);
      MergeReaches(children, children', parents', merge, h, r);
    }
  }

  lemma MergedEdges(cat: Catalog, children: Graph, parents: Graph, merge: Rev, heads: seq<Rev>,
                    children': Graph, parents': Graph)
    requires GraphOf(cat, children, parents) && Unused(cat, merge) && forall h :: h in heads ==> h in cat.at
    requires GraphOf(cat.Put(merge, MergeOf(merge, heads)), children', parents')
    ensures forall p, c :: Edge(children', p, c) <==> Edge(children, p, c) || (c == merge && p in heads)
    ensures forall p, c :: Edge(children', p, c) <==> Edge(parents', c, p)
    ensures forall c :: !Edge(children, merge, c)
  {
    MergeEdges(cat, merge, heads);
    EdgesAreReferences(cat, children, parents);
    EdgesAreReferences(cat.Put(merge, MergeOf(merge, heads)), children', parents');
  }

  lemma MergeReaches(children: Graph, children': Graph, parents': Graph, merge: Rev, h: Rev, r: Rev)
    requires forall p, c :: Edge(children, p, c) ==> Edge(children', p, c)
    requires forall p, c :: Edge(children', p, c) ==> Edge(parents', c, p)
    requires Edge(children', h, merge) && ReachesOrIs(children, r, h)
    ensures Reaches(parents', merge, r)
  {
    if h != r {
      ReachGrows(children, children', r, h);
      ReachReversed(children', parents', r, h);
    }
    ReachCons(parents', merge, h, r);
  }

  /** The merge has no children, so no cycle uses its edges. */
  lemma OldCycle(children: Graph, children': Graph, merge: Rev, heads: seq<Rev>, r: Rev)
    requires forall p, c :: Edge(children', p, c) <==> Edge(children, p, c) || (c == merge && p in heads)
    requires merge !in heads && (forall c :: !Edge(children, merge, c)) && Reaches(children', r, r)
    ensures Reaches(children, r, r)
  {
    var n: nat :| n >= 1 && Steps(children', r, r, n);
    var first := FirstEdge(children', r, r);
    assert r != merge;
    StepsAvoid(children, children', merge, heads, r, r, n);
  }

  lemma {:induction false} StepsAvoid(children: Graph, children': Graph, merge: Rev, heads: seq<Rev>, a: Rev, b: Rev, n: nat)
    requires forall p, c :: Edge(children', p, c) <==> Edge(children, p, c) || (c == merge && p in heads)
    requires merge !in heads && (forall c :: !Edge(children, merge, c))
    requires b != merge && Steps(children', a, b, n)
    ensures Steps(children, a, b, n)
    decreases n
  {
    if n > 0 {
      var c :| Edge(children', a, c) && Steps(children', c, b, n - 1);
      assert c != merge;
      StepsAvoid(children, children', merge, heads, c, b, n - 1);
    }
  }

  /** The audit of merge parents has nothing to say about the merge. */
  lemma MergeIsNotRedundant(cat: Catalog, children: Graph, parents: Graph, merge: Rev, heads: seq<Rev>)
    requires GraphOf(cat, children, parents) && Unused(cat, merge)
    requires forall h :: h in heads ==> IsHead(cat, children, h)
    ensures var m := AuditMap(cat.Put(merge, MergeOf(merge, heads)));
      m[merge] == heads && Select(m, heads, heads, true) == []
  {
    var cat' := cat.Put(merge, MergeOf(merge, heads));
    var m := AuditMap(cat');
    var redundant := Select(m, heads, heads, true);
    if redundant != [] {
      var p := redundant[0];
      SelectMembers(m, heads, heads, true, p);
      var other :| other in heads && other != p && Reaches(m, other, p);
      AuditEdges(cat, merge, heads);
      HeadIsUnreferenced(cat, children, parents, p);
      NoEdgeIntoHead(cat, m, merge, heads, other, p);
    }
  }

  lemma HeadIsUnreferenced(cat: Catalog, children: Graph, parents: Graph, h: Rev)
    requires GraphOf(cat, children, parents) && IsHead(cat, children, h)
    ensures forall c :: c in cat.at ==> h !in Refs(cat.at[c])
  {
    forall c | c in cat.at ensures h !in Refs(cat.at[c]) {
      ChildEdge(cat, h, c);
      assert !Edge(children, h, c);
    }
  }

  lemma NoEdgeIntoHead(cat: Catalog, m: Graph, merge: Rev, heads: seq<Rev>, a: Rev, h: Rev)
    requires forall c, p :: Edge(m, c, p) ==> (c == merge && p in heads) || (c in cat.at && p in Refs(cat.at[c]))
    requires merge !in heads && forall r :: r in cat.at ==> merge !in Refs(cat.at[r])
    requires a != merge && forall c :: c in cat.at ==> h !in Refs(cat.at[c])
    ensures !Reaches(m, a, h)
  {
    if Reaches(m, a, h) {
      var c := LastEdge(m, a, h);
      var d := LastEdge(m, a, merge);
    }
  }

  lemma AuditEdges(cat: Catalog, merge: Rev, heads: seq<Rev>)
    requires merge !in cat.at
    ensures forall c, p :: Edge(AuditMap(cat.Put(merge, MergeOf(merge, heads))), c, p) ==>
      (c == merge && p in heads) || (c in cat.at && p in Refs(cat.at[c]))
  {
  }
}
