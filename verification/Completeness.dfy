/** What a commit reaches in a store, and exactly when a store holds all of it. */
module Completeness {
  import opened Packfile
  import opened GitObjects
  import opened Reach
  import opened RepoIndex
  import opened Pruning

  /** `o` is reachable from the wants: a reachable commit, or an object of one. */
  ghost predicate Desired(objects: Objects, wants: seq<Oid>, o: Oid) {
    exists c :: Reachable(ParentGraph(CommitsOf(objects)), ToSet(wants), c) && OfCommit(objects, c, o)
  }

  ghost predicate OfCommit(objects: Objects, c: Oid, o: Oid) {
    o == c || (c in CommitsOf(objects) && InCommit(TreesOf(objects), CommitsOf(objects)[c], o))
  }

  /** Everything reachable from the commit is stored, except links to other repositories. */
  ghost predicate Cached(objects: Objects, links: set<Oid>, c: Oid) {
    forall o :: Desired(objects, [c], o) ==> Has(objects, links, o)
  }

  predicate Has(objects: Objects, links: set<Oid>, o: Oid) {
    o in objects || o in links
  }

  /** The object's own references are stored. */
  ghost predicate RefsHeld(objects: Objects, links: set<Oid>, o: RawObject) {
    && (o.kind == TREE ==> forall x :: x in TreeEntries(o.data) ==> Has(objects, links, x))
    && (o.kind == COMMIT ==>
          var c := ParseCommit(o.oid, o.data);
          (forall p :: p in c.parents ==> Has(objects, links, p)) && (c.tree == [] || Has(objects, links, c.tree)))
  }

  /** A tree somewhere under a stored commit. */
  ghost predicate UnderCommit(objects: Objects, k: Oid) {
    exists c :: c in CommitsOf(objects) && CommitsOf(objects)[c].tree != []
      && Reachable(TreesOf(objects), {CommitsOf(objects)[c].tree}, k)
  }

  /** Every stored commit, and every stored tree under one, has its own references stored. */
  ghost predicate RefsKept(objects: Objects, links: set<Oid>) {
    forall k :: k in objects && (objects[k].kind == COMMIT || UnderCommit(objects, k)) ==>
      RefsHeld(objects, links, objects[k])
  }

  ghost predicate OwnOids(objects: Objects) {
    forall k :: k in objects ==> objects[k].oid == k
  }

  /** With its references kept, a store has all that a stored commit reaches. */
  lemma KeptCached(objects: Objects, links: set<Oid>, c: Oid)
    requires OwnOids(objects) && RefsKept(objects, links) && c in CommitsOf(objects)
    ensures Cached(objects, links, c)
  {
    var cs := CommitsOf(objects);
    var g, s := ParentGraph(cs), iset o | Has(objects, links, o);
    forall u, w | u in s && w in Succ(g, u) ensures w in s {
      assert u in cs && RefsHeld(objects, links, objects[u]);
    }
    forall o | Desired(objects, [c], o) ensures Has(objects, links, o) {
      var d :| Reachable(g, ToSet([c]), d) && OfCommit(objects, d, o);
      ReachStays(g, ToSet([c]), s, d);
      if o != d { TreeCached(objects, links, d, o); }
    }
  }

  lemma TreeCached(objects: Objects, links: set<Oid>, d: Oid, o: Oid)
    requires OwnOids(objects) && RefsKept(objects, links)
    requires d in CommitsOf(objects) && InCommit(TreesOf(objects), CommitsOf(objects)[d], o)
    ensures Has(objects, links, o)
  {
    var trees, c := TreesOf(objects), CommitsOf(objects)[d];
    CommitOid(d, objects[d].data);
    assert RefsHeld(objects, links, objects[d]);
    if o != d {
      var s := iset x | Reachable(trees, {c.tree}, x) && Has(objects, links, x);
      forall u, w | u in s && w in Succ(trees, u) ensures w in s {
        assert u in trees && UnderCommit(objects, u) && RefsHeld(objects, links, objects[u]);
        ReachStep(trees, {c.tree}, u, w);
      }
      ReachRoot(trees, {c.tree}, c.tree);
      ReachStays(trees, {c.tree}, s, o);
    }
  }

  /** If all that stored commits reach is stored, so are the references of each commit and tree under one. */
  lemma CachedKept(objects: Objects, links: set<Oid>, k: Oid)
    requires OwnOids(objects) && (forall c :: c in CommitsOf(objects) ==> Cached(objects, links, c))
    requires k in objects && (objects[k].kind == COMMIT || UnderCommit(objects, k))
    ensures RefsHeld(objects, links, objects[k])
  {
    var cs, trees := CommitsOf(objects), TreesOf(objects);
    if objects[k].kind == COMMIT {
      var c := cs[k];
      assert Cached(objects, links, k);
      ReachRoot(ParentGraph(cs), ToSet([k]), k);
      forall p | p in c.parents ensures Has(objects, links, p) {
        assert p in Succ(ParentGraph(cs), k);
        ReachStep(ParentGraph(cs), ToSet([k]), k, p);
        assert OfCommit(objects, p, p) && Desired(objects, [k], p);
      }
      if c.tree != [] {
        ReachRoot(trees, {c.tree}, c.tree);
        assert OfCommit(objects, k, c.tree) && Desired(objects, [k], c.tree);
      }
    } else if objects[k].kind == TREE {
      var d :| d in cs && cs[d].tree != [] && Reachable(trees, {cs[d].tree}, k);
      assert Cached(objects, links, d);
      ReachRoot(ParentGraph(cs), ToSet([d]), d);
      forall x | x in TreeEntries(objects[k].data) ensures Has(objects, links, x) {
        assert x in Succ(trees, k);
        ReachStep(trees, {cs[d].tree}, k, x);
        assert OfCommit(objects, d, x) && Desired(objects, [d], x);
      }
    }
  }

  /**
   Presence of a commit means that all it reaches is cached, for every stored commit, if and only if each stored
   commit and each tree under one has its own references stored.
   */
  lemma CachedExactly(objects: Objects, links: set<Oid>)
    requires OwnOids(objects)
    ensures (forall c :: c in CommitsOf(objects) ==> Cached(objects, links, c)) <==> RefsKept(objects, links)
  {
    if RefsKept(objects, links) {
      forall c | c in CommitsOf(objects) ensures Cached(objects, links, c) { KeptCached(objects, links, c); }
    }
    if forall c :: c in CommitsOf(objects) ==> Cached(objects, links, c) {
      forall k | k in objects && (objects[k].kind == COMMIT || UnderCommit(objects, k))
        ensures RefsHeld(objects, links, objects[k])
      {
        CachedKept(objects, links, k);
      }
    }
  }
}
