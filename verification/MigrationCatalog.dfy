/** Parsed migrations and the edges their `down_revision` and `depends_on` entries
    stand for (`analyze_migrations.py`). */
module MigrationCatalog {
  import opened Collections
  import opened Reachability

  /** `down_revision`: absent, one revision, or the tuple of a merge. */
  datatype Down = NoDown | One(rev: Rev) | Many(revs: seq<Rev>)

  datatype Migration = Migration(revision: Option<Rev>, down: Down, dependsOn: seq<Rev>)

  type Catalog = Dict<Rev, Migration>

  ghost predicate WellFormed(cat: Catalog) {
    cat.Valid() && Rev("") !in cat.at
  }

  /** `{m.revision: m for m in migrations if m.revision}` */
  function CatalogOf(migrations: seq<Migration>): (c: Catalog)
    ensures WellFormed(c)
  {
    if migrations == [] then EmptyDict()
    else
      var m, c := migrations[|migrations| - 1], CatalogOf(migrations[..|migrations| - 1]);
      if m.revision.Some? && m.revision.value != Rev("") then
        c.PutValid(m.revision.value, m);
        c.Put(m.revision.value, m)
      else c
  }

  /** The entries of `down_revision` that Python reads as true: an empty Rev
      and an empty tuple count as no `down_revision`. */
  function DownRefs(m: Migration): seq<Rev> {
    match m.down
    case NoDown => []
    case One(rev) => if rev == Rev("") then [] else [rev]
    case Many(revs) => revs
  }

  function Refs(m: Migration): seq<Rev> {
    DownRefs(m) + m.dependsOn
  }

  /** Revision c names p, and both exist. */
  predicate Refers(cat: Catalog, c: Rev, p: Rev) {
    c in cat.at && p in cat.at && p in Refs(cat.at[c])
  }

  /** The existing ones among the first `n` references. */
  function Keep(known: set<Rev>, refs: seq<Rev>, n: nat): seq<Rev>
    requires n <= |refs|
  {
    if n == 0 then []
    else Keep(known, refs, n - 1) + if refs[n - 1] in known then [refs[n - 1]] else []
  }

  /** The parents of a migration after its first `n` `depends_on` entries: existing
      `down_revision` entries first, then existing dependencies not yet listed. */
  function ParentList(known: set<Rev>, m: Migration, n: nat): seq<Rev>
    requires n <= |m.dependsOn|
  {
    if n == 0 then Keep(known, DownRefs(m), |DownRefs(m)|)
    else
      var init, dep := ParentList(known, m, n - 1), m.dependsOn[n - 1];
      if dep in known && m.down != One(dep) && dep !in init then init + [dep] else init
  }

  /** The children list of p after revision r has been appended to it once for every
      time its first `n` references name p. */
  function PushLinks(list: seq<Rev>, r: Rev, refs: seq<Rev>, p: Rev, n: nat): seq<Rev>
    requires n <= |refs|
  {
    if n == 0 then list
    else PushLinks(list, r, refs, p, n - 1) + if refs[n - 1] == p then [r] else []
  }

  /** The same for all the references of r, those of `down_revision` first. */
  function PushAll(list: seq<Rev>, r: Rev, m: Migration, p: Rev): seq<Rev> {
    PushLinks(PushLinks(list, r, DownRefs(m), p, |DownRefs(m)|), r, m.dependsOn, p, |m.dependsOn|)
  }

  /** The children of p among the first `n` revisions. */
  function ChildList(revs: seq<Rev>, at: map<Rev, Migration>, p: Rev, n: nat): seq<Rev>
    requires n <= |revs| && forall r :: r in revs ==> r in at
  {
    if n == 0 then []
    else PushAll(ChildList(revs, at, p, n - 1), revs[n - 1], at[revs[n - 1]], p)
  }

  function ChildrenOf(cat: Catalog, p: Rev): seq<Rev>
    requires forall r :: r in cat.keys ==> r in cat.at
  {
    if p in cat.at then ChildList(cat.keys, cat.at, p, |cat.keys|) else []
  }

  function ParentsOf(cat: Catalog, r: Rev): seq<Rev> {
    if r in cat.at then ParentList(cat.at.Keys, cat.at[r], |cat.at[r].dependsOn|) else []
  }

  /** The two adjacency maps hold exactly the lists above. */
  ghost predicate GraphOf(cat: Catalog, children: Graph, parents: Graph) {
    && WellFormed(cat)
    && (forall p: Rev {:trigger Adj(children, p)} :: Adj(children, p) == ChildrenOf(cat, p))
    && (forall r: Rev {:trigger Adj(parents, r)} :: Adj(parents, r) == ParentsOf(cat, r))
  }

  // ------------------------------------------------------- what the lists hold

  lemma {:induction false} PushLinksIn(list: seq<Rev>, r: Rev, refs: seq<Rev>, p: Rev, n: nat, c: Rev)
    requires n <= |refs|
    ensures c in PushLinks(list, r, refs, p, n) <==> c in list || (c == r && p in refs[..n])
  {
    if n > 0 {
      PushLinksIn(list, r, refs, p, n - 1, c);
      assert refs[..n] == refs[..n - 1] + [refs[n - 1]];
    }
  }

  lemma PushAllIn(list: seq<Rev>, r: Rev, m: Migration, p: Rev, c: Rev)
    ensures c in PushAll(list, r, m, p) <==> c in list || (c == r && p in Refs(m))
  {
    var refs := DownRefs(m);
    PushLinksIn(list, r, refs, p, |refs|, c);
    PushLinksIn(PushLinks(list, r, refs, p, |refs|), r, m.dependsOn, p, |m.dependsOn|, c);
    assert refs[..|refs|] == refs && m.dependsOn[..|m.dependsOn|] == m.dependsOn;
  }

  lemma {:induction false} KeepIn(known: set<Rev>, refs: seq<Rev>, n: nat, p: Rev)
    requires n <= |refs|
    ensures p in Keep(known, refs, n) <==> p in known && p in refs[..n]
  {
    if n > 0 {
      KeepIn(known, refs, n - 1, p);
      assert refs[..n] == refs[..n - 1] + [refs[n - 1]];
    }
  }

  lemma {:induction false} ParentListIn(known: set<Rev>, m: Migration, n: nat, p: Rev)
    requires n <= |m.dependsOn| && Rev("") !in known
    ensures p in ParentList(known, m, n) <==> p in known && p in DownRefs(m) + m.dependsOn[..n]
  {
    if n == 0 {
      KeepIn(known, DownRefs(m), |DownRefs(m)|, p);
      assert DownRefs(m)[..|DownRefs(m)|] == DownRefs(m);
    } else {
      ParentListIn(known, m, n - 1, p);
      assert m.dependsOn[..n] == m.dependsOn[..n - 1] + [m.dependsOn[n - 1]];
    }
  }

  lemma {:induction false} ChildListIn(revs: seq<Rev>, at: map<Rev, Migration>, p: Rev, n: nat, c: Rev)
    requires n <= |revs| && forall r :: r in revs ==> r in at
    ensures c in ChildList(revs, at, p, n) <==> c in revs[..n] && p in Refs(at[c])
  {
    if n > 0 {
      ChildListIn(revs, at, p, n - 1, c);
      PushAllIn(ChildList(revs, at, p, n - 1), revs[n - 1], at[revs[n - 1]], p, c);
      assert revs[..n] == revs[..n - 1] + [revs[n - 1]];
    }
  }

  lemma ChildEdge(cat: Catalog, p: Rev, c: Rev)
    requires WellFormed(cat)
    ensures c in ChildrenOf(cat, p) <==> Refers(cat, c, p)
  {
    if p in cat.at {
      ChildListIn(cat.keys, cat.at, p, |cat.keys|, c);
      assert cat.keys[..|cat.keys|] == cat.keys;
    }
  }

  lemma ParentEdge(cat: Catalog, p: Rev, c: Rev)
    requires WellFormed(cat)
    ensures p in ParentsOf(cat, c) <==> Refers(cat, c, p)
  {
    if c in cat.at {
      var m := cat.at[c];
      ParentListIn(cat.at.Keys, m, |m.dependsOn|, p);
      assert m.dependsOn[..|m.dependsOn|] == m.dependsOn;
    }
  }

  /** Both maps describe one relation, once in each direction. */
  lemma EdgesAreReferences(cat: Catalog, children: Graph, parents: Graph)
    requires GraphOf(cat, children, parents)
    ensures forall p, c :: Edge(children, p, c) <==> Refers(cat, c, p)
    ensures forall p, c :: Edge(parents, c, p) <==> Refers(cat, c, p)
    ensures Acyclic(children) <==> Acyclic(parents)
  {
    forall p, c ensures Edge(children, p, c) <==> Refers(cat, c, p) {
      ChildEdge(cat, p, c);
    }
    forall p, c ensures Edge(parents, c, p) <==> Refers(cat, c, p) {
      ParentEdge(cat, p, c);
    }
    AcyclicReversed(children, parents);
  }

  // -------------------------------------------------------------- broken chains

  /** Those of the first `n` references of one revision that name nothing, in order. */
  function Missing(known: set<Rev>, rev: Rev, refs: seq<Rev>, n: nat): seq<(Rev, Rev)>
    requires n <= |refs|
  {
    if n == 0 then []
    else Missing(known, rev, refs, n - 1) + if refs[n - 1] in known then [] else [(rev, refs[n - 1])]
  }

  function Broken(cat: Catalog, n: nat): seq<(Rev, Rev)>
    requires n <= |cat.keys| && forall r :: r in cat.keys ==> r in cat.at
  {
    if n == 0 then []
    else
      var r := cat.keys[n - 1];
      Broken(cat, n - 1) + Missing(cat.at.Keys, r, Refs(cat.at[r]), |Refs(cat.at[r])|)
  }

  ghost predicate Unbroken(cat: Catalog) {
    forall r, p :: r in cat.at && p in Refs(cat.at[r]) ==> p in cat.at
  }

  lemma {:induction false} MissingIn(known: set<Rev>, rev: Rev, refs: seq<Rev>, n: nat, r: Rev, p: Rev)
    requires n <= |refs|
    ensures (r, p) in Missing(known, rev, refs, n) <==> r == rev && p in refs[..n] && p !in known
  {
    if n > 0 {
      MissingIn(known, rev, refs, n - 1, r, p);
      assert refs[..n] == refs[..n - 1] + [refs[n - 1]];
    }
  }

  lemma {:induction false} BrokenIn(cat: Catalog, n: nat, r: Rev, p: Rev)
    requires n <= |cat.keys| && forall x :: x in cat.keys ==> x in cat.at
    ensures (r, p) in Broken(cat, n) <==> r in cat.keys[..n] && p in Refs(cat.at[r]) && p !in cat.at
  {
    if n > 0 {
      hide Missing, Refs;
      var x := cat.keys[n - 1];
      var refs := Refs(cat.at[x]);
      BrokenIn(cat, n - 1, r, p);
      MissingIn(cat.at.Keys, x, refs, |refs|, r, p);
      assert refs[..|refs|] == refs;
      assert cat.keys[..n] == cat.keys[..n - 1] + [x];
    }
  }

  /** The report is empty exactly when every reference names a migration. */
  lemma BrokenIsEmpty(cat: Catalog)
    requires cat.Valid()
    ensures Broken(cat, |cat.keys|) == [] <==> Unbroken(cat)
  {
    var broken := Broken(cat, |cat.keys|);
    if broken != [] {
      BrokenReference(cat, broken[0].0, broken[0].1);
      assert broken[0] == (broken[0].0, broken[0].1);
    }
    forall r, p | r in cat.at && p in Refs(cat.at[r]) && p !in cat.at ensures broken != [] {
      BrokenReference(cat, r, p);
    }
  }

  lemma BrokenReference(cat: Catalog, r: Rev, p: Rev)
    requires cat.Valid()
    ensures (r, p) in Broken(cat, |cat.keys|) <==> r in cat.at && p in Refs(cat.at[r]) && p !in cat.at
  {
    BrokenIn(cat, |cat.keys|, r, p);
    assert cat.keys[..|cat.keys|] == cat.keys;
  }
}
