/** The per-commit index of a repository store: what is reachable through a commit's tree. */
module RepoIndex {
  import opened Octets
  import opened Packfile
  import opened GitObjects
  import opened Reach

  type Objects = map<Oid, RawObject>

  /** A view of the stored objects of one type. */
  function Select<V>(objects: Objects, kind: Kind, f: (Oid, Bytes) -> V): (m: map<Oid, V>)
    ensures forall k :: k in m <==> k in objects && objects[k].kind == kind
    ensures forall k :: k in m ==> m[k] == f(k, objects[k].data)
  {
    map k | k in objects && objects[k].kind == kind :: f(k, objects[k].data)
  }

  lemma SelectStore<V>(objects: Objects, kind: Kind, f: (Oid, Bytes) -> V, o: RawObject)
    requires o.oid in objects ==> (o.kind == kind <==> objects[o.oid].kind == kind)
    ensures Select(objects[o.oid := o], kind, f)
         == if o.kind == kind then Select(objects, kind, f)[o.oid := f(o.oid, o.data)] else Select(objects, kind, f)
  {
  }

  function Children(oid: Oid, data: Bytes): (s: seq<Oid>) {
    TreeEntries(data)
  }

  /** The entries of every stored tree. */
  function TreesOf(objects: Objects): (g: Graph<Oid>)
    ensures forall k :: k in g <==> k in objects && objects[k].kind == TREE
  {
    Select(objects, TREE, Children)
  }

  function CommitsOf(objects: Objects): (cs: map<Oid, Commit>)
    ensures forall k :: k in cs <==> k in objects && objects[k].kind == COMMIT
  {
    Select(objects, COMMIT, ParseCommit)
  }

  lemma {:induction false} HeadersKeepOid(c: Commit, lines: seq<Bytes>)
    ensures AddHeaders(c, lines).oid == c.oid
    decreases |lines|
  {
    if lines != [] {
      HeadersKeepOid(AddHeader(c, lines[0]), lines[1..]);
    }
  }

  lemma CommitOid(oid: Oid, data: Bytes)
    ensures ParseCommit(oid, data).oid == oid
  {
    HeadersKeepOid(Commit(oid, [], [], [], MessageOf(data)), SplitLines(HeaderOf(data)));
  }

  /** `x` belongs to commit `c`: the commit itself or something reachable through its tree. */
  ghost predicate InCommit(trees: Graph<Oid>, c: Commit, x: Oid) {
    x == c.oid || (c.tree != [] && Reachable(trees, {c.tree}, x))
  }

  /** `list` is the index of `c`: everything that belongs to it, once. */
  ghost predicate IsIndex(trees: Graph<Oid>, c: Commit, list: seq<Oid>) {
    NoDup(list) && forall x :: x in list <==> InCommit(trees, c, x)
  }

  // ----- The tree walk -----

  /** The object list under construction and its elements as a set. */
  datatype Listing = Listing(list: seq<Oid>, visited: set<Oid>)

  ghost predicate Faithful(w: Listing) {
    NoDup(w.list) && forall x :: x in w.list <==> x in w.visited
  }

  /** Append `x` unless it is listed. */
  function Mark(w: Listing, x: Oid): (r: Listing)
    ensures r.visited == w.visited + {x}
  {
    if x in w.visited then w else Listing(w.list + [x], w.visited + {x})
  }

  lemma MarkFaithful(w: Listing, x: Oid)
    requires Faithful(w)
    ensures Faithful(Mark(w, x))
  {
    if x !in w.visited { NoDupSnoc(w.list, x); }
  }

  /** List the children of a tree; `added` are the new ones that are stored trees. */
  method VisitChildren(objects: Objects, children: seq<Oid>, w: Listing) returns (r: Listing, added: seq<Oid>)
    requires Faithful(w)
    ensures Faithful(r) && r.visited == w.visited + ToSet(children)
    ensures forall x :: x in added <==> x in r.visited && x !in w.visited && x in TreesOf(objects)
  {
    r, added := w, [];
    for i := 0 to |children|
      invariant Faithful(r) && r.visited == w.visited + ToSet(children[..i])
      invariant forall x :: x in added <==> x in r.visited && x !in w.visited && x in TreesOf(objects)
    {
      var childOid := children[i];
      assert children[..i + 1] == children[..i] + [childOid];
      if childOid !in r.visited {
        MarkFaithful(r, childOid);
        r := Mark(r, childOid);
        if childOid in objects && objects[childOid].kind == TREE {
          added := added + [childOid];
        }
      }
    }
    assert children[..|children|] == children;
  }

  /** Between two steps: what is listed belongs, and only queued trees are not expanded. */
  ghost predicate Indexing(g: Graph<Oid>, c: Commit, visited: set<Oid>, queue: seq<Oid>) {
    && c.oid in visited && visited <= Universe(g, {c.oid, c.tree})
    && (forall x :: x in visited ==> InCommit(g, c, x))
    && (forall x :: x in queue ==> x == c.tree || x in visited)
    && (c.tree in visited || c.tree in queue)
    && (forall x :: x in visited && x !in queue ==> Expanded(g, x, visited))
  }

  lemma ChildBelongs(g: Graph<Oid>, c: Commit, x: Oid, y: Oid)
    requires c.tree != [] && c.oid !in g && (x == c.tree || InCommit(g, c, x)) && y in Succ(g, x)
    ensures InCommit(g, c, y)
  {
    if x == c.tree {
      ReachRoot(g, {c.tree}, x);
    }
    ReachStep(g, {c.tree}, x, y);
  }

  lemma IndexStep(g: Graph<Oid>, c: Commit, visited: set<Oid>, queue: seq<Oid>, v: set<Oid>, added: seq<Oid>)
    requires c.tree != [] && c.oid !in g && queue != [] && Indexing(g, c, visited, queue)
    requires v == visited + {queue[0]} + ToSet(Succ(g, queue[0]))
    requires forall x :: x in added <==> x in v && x !in visited + {queue[0]} && x in g
    ensures Indexing(g, c, v, queue[1..] + added)
  {
    var t := queue[0];
    assert forall x :: x in queue <==> x == t || x in queue[1..];
    forall x | x in v ensures InCommit(g, c, x) && x in Universe(g, {c.oid, c.tree}) {
      if x in Succ(g, t) {
        ChildBelongs(g, c, t, x);
        UniverseSucc(g, {c.oid, c.tree}, t, x);
      } else if x == c.tree {
        ReachRoot(g, {c.tree}, x);
      }
    }
    forall x | x in v && x !in queue[1..] + added ensures Expanded(g, x, v) {
      if x in visited && x != t {
        assert Expanded(g, x, visited);
      }
    }
  }

  lemma Indexed(g: Graph<Oid>, c: Commit, visited: set<Oid>)
    requires c.tree != [] && Indexing(g, c, visited, [])
    ensures forall x :: x in visited <==> InCommit(g, c, x)
  {
    var s := iset y | y in visited;
    forall u, w | u in s && w in Succ(g, u) ensures w in s {
      assert Expanded(g, u, visited);
    }
    forall x | Reachable(g, {c.tree}, x) ensures x in visited {
      ReachStays(g, {c.tree}, s, x);
    }
  }

  /** `computeReachableObjects`. */
  method ReachableObjects(objects: Objects, trees: Graph<Oid>, commit: Commit) returns (list: seq<Oid>)
    requires trees == TreesOf(objects) && commit.oid !in trees
    ensures IsIndex(trees, commit, list)
  {
    var w := Listing([commit.oid], {commit.oid});
    if commit.tree != [] {
      var queue := [commit.tree];
      while |queue| > 0
        invariant Faithful(w) && Indexing(trees, commit, w.visited, queue)
        decreases |Universe(trees, {commit.oid, commit.tree})| - |w.visited|, |queue|
      {
        var treeOid := queue[0];
        MarkFaithful(w, treeOid);
        var marked := Mark(w, treeOid);
        var r, added := VisitChildren(objects, Succ(trees, treeOid), marked);
        IndexStep(trees, commit, w.visited, queue, r.visited, added);
        IndexShrinks(w.visited, marked.visited, r.visited, Universe(trees, {commit.oid, commit.tree}), added);
        w, queue := r, queue[1..] + added;
      }
      Indexed(trees, commit, w.visited);
    }
    list := w.list;
  }

  lemma IndexShrinks(a: set<Oid>, b: set<Oid>, c: set<Oid>, u: set<Oid>, added: seq<Oid>)
    requires a <= b <= c <= u && forall x :: x in added ==> x in c && x !in b
    ensures |a| <= |c| <= |u| && (added != [] ==> |a| < |c|)
  {
    SubsetSize(a, c);
    SubsetSize(c, u);
    if added != [] {
      assert added[0] in c && added[0] !in a;
    }
  }
}
