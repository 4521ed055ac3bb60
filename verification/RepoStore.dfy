/** The object store of one repository: ingestion and its invariant. */
module RepoStore {
  import opened Octets
  import opened Packfile
  import opened PackParser
  import opened GitObjects
  import opened Reach
  import opened RepoIndex
  import opened Pruning
  import opened Completeness
  import Sorting

  // ----- Stored objects -----

  /** The object kept under `k` has identifier `k`, computed from its own type and payload. */
  ghost predicate KeyedAt(z: Codec, objects: Objects, k: Oid)
    requires k in objects
  {
    objects[k].oid == k && objects[k] == Object(z, objects[k].kind, objects[k].data)
  }

  ghost predicate Keyed(z: Codec, objects: Objects) {
    forall k :: k in objects ==> KeyedAt(z, objects, k)
  }

  /** Storing objects one after the other. */
  function StoreAll(objects: Objects, objs: seq<RawObject>): (r: Objects)
    decreases |objs|
  {
    if objs == [] then objects else StoreAll(objects[objs[0].oid := objs[0]], objs[1..])
  }

  /** Same payload, and both or neither a tree, both or neither a commit. */
  ghost predicate Same(a: RawObject, b: RawObject) {
    a.data == b.data && (a.kind == TREE <==> b.kind == TREE) && (a.kind == COMMIT <==> b.kind == COMMIT)
  }

  /** No identifier of `objs` is taken by something else. */
  ghost predicate Fresh(objects: Objects, objs: seq<RawObject>) {
    && (forall i, j :: 0 <= i < |objs| && 0 <= j < |objs| && objs[i].oid == objs[j].oid ==> Same(objs[i], objs[j]))
    && (forall i :: 0 <= i < |objs| && objs[i].oid in objects ==> Same(objs[i], objects[objs[i].oid]))
  }

  lemma NameKind(a: Kind, b: Kind)
    requires TypeName(a) == TypeName(b)
    ensures (a == TREE <==> b == TREE) && (a == COMMIT <==> b == COMMIT)
  {
    assert TypeName(a)[0] == TypeName(b)[0];
    assert TypeName(a)[1] == TypeName(b)[1];
  }

  lemma SameByHash(z: Codec, all: set<RawObject>, a: RawObject, b: RawObject)
    requires CollisionFree(z, all) && a in all && b in all && a.oid == b.oid
    requires a == Object(z, a.kind, a.data) && b == Object(z, b.kind, b.data)
    ensures Same(a, b)
  {
    OidInjective(z, all, a, b);
    NameKind(a.kind, b.kind);
  }

  /** Absent SHA-1 collisions between stored and parsed objects, nothing is overwritten by something else. */
  lemma FreshByHash(z: Codec, objects: Objects, objs: seq<RawObject>)
    requires Keyed(z, objects) && forall i :: 0 <= i < |objs| ==> objs[i] == Object(z, objs[i].kind, objs[i].data)
    requires CollisionFree(z, ToSet(objs) + objects.Values)
    ensures Fresh(objects, objs)
  {
    var all := ToSet(objs) + objects.Values;
    forall i, j | 0 <= i < |objs| && 0 <= j < |objs| && objs[i].oid == objs[j].oid ensures Same(objs[i], objs[j]) {
      SameByHash(z, all, objs[i], objs[j]);
    }
    forall i | 0 <= i < |objs| && objs[i].oid in objects ensures Same(objs[i], objects[objs[i].oid]) {
      assert objects[objs[i].oid] in objects.Values && KeyedAt(z, objects, objs[i].oid);
      SameByHash(z, all, objs[i], objects[objs[i].oid]);
    }
  }

  lemma FreshTail(objects: Objects, objs: seq<RawObject>)
    requires objs != [] && Fresh(objects, objs)
    ensures Fresh(objects[objs[0].oid := objs[0]], objs[1..])
  {
    var o, rest := objs[0], objs[1..];
    forall i, j | 0 <= i < |rest| && 0 <= j < |rest| && rest[i].oid == rest[j].oid ensures Same(rest[i], rest[j]) {
      assert rest[i] == objs[i + 1] && rest[j] == objs[j + 1];
    }
    forall i | 0 <= i < |rest| && rest[i].oid in objects[o.oid := o]
      ensures Same(rest[i], objects[o.oid := o][rest[i].oid])
    {
      assert rest[i] == objs[i + 1];
      if rest[i].oid == o.oid { assert Same(objs[i + 1], objs[0]); }
    }
  }

  /** Storing a fresh object updates the derived maps at its key only. */
  lemma StoreOne(objects: Objects, o: RawObject)
    requires o.oid in objects ==> Same(o, objects[o.oid])
    ensures TreesOf(objects[o.oid := o]) ==
      if o.kind == TREE then TreesOf(objects)[o.oid := TreeEntries(o.data)] else TreesOf(objects)
    ensures CommitsOf(objects[o.oid := o]) ==
      if o.kind == COMMIT then CommitsOf(objects)[o.oid := ParseCommit(o.oid, o.data)] else CommitsOf(objects)
  {
    SelectStore(objects, TREE, Children, o);
    SelectStore(objects, COMMIT, ParseCommit, o);
  }

  // ----- References -----

  /** Everything object `o` refers to is stored, except gitlinks, which Git does not transfer. */
  ghost predicate RefsStored(objects: Objects, links: set<Oid>, o: RawObject) {
    && (o.kind == TREE ==> forall x :: x in TreeEntries(o.data) ==> x in objects || x in links)
    && (o.kind == COMMIT ==>
          var c := ParseCommit(o.oid, o.data);
          (forall p :: p in c.parents ==> p in CommitsOf(objects)) && (c.tree == [] || c.tree in objects))
  }

  ghost predicate Closed(objects: Objects, links: set<Oid>) {
    forall k :: k in objects ==> RefsStored(objects, links, objects[k])
  }

  /** A pack is closed relative to a store if its references are in the store or the pack. */
  ghost predicate ClosedRelative(objects: Objects, links: set<Oid>, objs: seq<RawObject>) {
    forall i :: 0 <= i < |objs| ==> RefsStored(StoreAll(objects, objs), links, objs[i])
  }

  /** Storing grows the store and keeps every commit a commit. */
  lemma {:induction false} StoreGrows(objects: Objects, objs: seq<RawObject>)
    requires Fresh(objects, objs)
    ensures forall k :: k in objects ==> k in StoreAll(objects, objs)
    ensures forall k :: k in CommitsOf(objects) ==> k in CommitsOf(StoreAll(objects, objs))
    decreases |objs|
  {
    if objs != [] {
      FreshTail(objects, objs);
      StoreOne(objects, objs[0]);
      StoreGrows(objects[objs[0].oid := objs[0]], objs[1..]);
    }
  }

  lemma {:induction false} StoreOrigin(objects: Objects, objs: seq<RawObject>, k: Oid)
    requires k in StoreAll(objects, objs)
    ensures StoreAll(objects, objs)[k] in objs || (k in objects && StoreAll(objects, objs)[k] == objects[k])
    decreases |objs|
  {
    if objs != [] {
      StoreOrigin(objects[objs[0].oid := objs[0]], objs[1..], k);
    }
  }

  lemma {:induction false} StoreKeyed(z: Codec, objects: Objects, objs: seq<RawObject>)
    requires Keyed(z, objects) && forall i :: 0 <= i < |objs| ==> objs[i] == Object(z, objs[i].kind, objs[i].data)
    ensures Keyed(z, StoreAll(objects, objs))
    decreases |objs|
  {
    if objs != [] {
      KeyOne(z, objects, objs[0]);
      StoreKeyed(z, objects[objs[0].oid := objs[0]], objs[1..]);
    }
  }

  lemma KeyOne(z: Codec, objects: Objects, o: RawObject)
    requires Keyed(z, objects) && o == Object(z, o.kind, o.data)
    ensures Keyed(z, objects[o.oid := o])
  {
    var r := objects[o.oid := o];
    forall k | k in r ensures KeyedAt(z, r, k) {
      if k != o.oid { assert KeyedAt(z, objects, k); }
    }
  }

  /** Ingesting a pack closed relative to the store keeps the store closed. */
  lemma StoreCloses(objects: Objects, links: set<Oid>, objs: seq<RawObject>)
    requires Fresh(objects, objs) && Closed(objects, links) && ClosedRelative(objects, links, objs)
    ensures Closed(StoreAll(objects, objs), links)
  {
    var all := StoreAll(objects, objs);
    StoreGrows(objects, objs);
    forall k | k in all ensures RefsStored(all, links, all[k]) {
      StoreOrigin(objects, objs, k);
      if all[k] !in objs {
        assert RefsStored(objects, links, objects[k]);
      }
    }
  }

  /** In a closed store the index of a commit names stored objects and gitlinks only. */
  lemma ClosedIndex(objects: Objects, links: set<Oid>, k: Oid, x: Oid)
    requires Closed(objects, links) && k in CommitsOf(objects) && objects[k].oid == k
    requires InCommit(TreesOf(objects), CommitsOf(objects)[k], x)
    ensures x in objects || x in links
  {
    var g, c := TreesOf(objects), CommitsOf(objects)[k];
    CommitOid(k, objects[k].data);
    if x != k {
      assert RefsStored(objects, links, objects[k]);
      var s := iset y | y in objects || y in links;
      forall u, w | u in s && w in Succ(g, u) ensures w in s {
        assert u in g && RefsStored(objects, links, objects[u]);
      }
      assert c.tree in s;
      ReachStays(g, {c.tree}, s, x);
    }
  }

  /** The identifiers of the commits among `objs`, in order. */
  function CommitIds(objs: seq<RawObject>): (ids: seq<Oid>) {
    if objs == [] then []
    else CommitIds(objs[..|objs| - 1]) + (if objs[|objs| - 1].kind == COMMIT then [objs[|objs| - 1].oid] else [])
  }

  lemma {:induction false} StoreSnoc(objects: Objects, objs: seq<RawObject>, o: RawObject)
    ensures StoreAll(objects, objs + [o]) == StoreAll(objects, objs)[o.oid := o]
    decreases |objs|
  {
    if objs == [] {
      assert objs + [o] == [o] && [o][1..] == [];
    } else {
      assert (objs + [o])[1..] == objs[1..] + [o];
      StoreSnoc(objects[objs[0].oid := objs[0]], objs[1..], o);
    }
  }

  /** The next object of a fresh pack collides with nothing stored so far. */
  lemma {:induction false} FreshNext(objects: Objects, objs: seq<RawObject>, n: nat)
    requires n < |objs| && Fresh(objects, objs)
    ensures objs[n].oid in StoreAll(objects, objs[..n]) ==> Same(objs[n], StoreAll(objects, objs[..n])[objs[n].oid])
  {
    var cur, k := StoreAll(objects, objs[..n]), objs[n].oid;
    if k in cur {
      StoreOrigin(objects, objs[..n], k);
      StoredUnder(objects, objs[..n], k);
      if cur[k] in objs[..n] && !(k in objects && cur[k] == objects[k]) {
        var j :| 0 <= j < n && objs[..n][j] == cur[k];
        assert objs[j] == cur[k];
        assert Same(objs[n], objs[j]);
      }
    }
  }

  lemma StoreNext(objects: Objects, objs: seq<RawObject>, n: nat)
    requires n < |objs| && Fresh(objects, objs)
    ensures objs[n].oid in StoreAll(objects, objs[..n]) ==> Same(objs[n], StoreAll(objects, objs[..n])[objs[n].oid])
    ensures StoreAll(objects, objs[..n + 1]) == StoreAll(objects, objs[..n])[objs[n].oid := objs[n]]
    ensures CommitIds(objs[..n + 1]) == CommitIds(objs[..n]) + if objs[n].kind == COMMIT then [objs[n].oid] else []
  {
    FreshNext(objects, objs, n);
    StoreSnoc(objects, objs[..n], objs[n]);
    assert objs[..n + 1] == objs[..n] + [objs[n]];
    assert objs[..n + 1][..n] == objs[..n];
  }

  lemma {:induction false} StoredUnder(objects: Objects, objs: seq<RawObject>, k: Oid)
    requires k in StoreAll(objects, objs)
    ensures StoreAll(objects, objs)[k].oid == k || (k in objects && StoreAll(objects, objs)[k] == objects[k])
    decreases |objs|
  {
    if objs != [] {
      StoredUnder(objects[objs[0].oid := objs[0]], objs[1..], k);
    }
  }

  ghost predicate IndexedAt(trees: Graph<Oid>, commits: map<Oid, Commit>, index: map<Oid, seq<Oid>>, c: Oid)
    requires c in commits && c in index
  {
    IsIndex(trees, commits[c], index[c])
  }

  /** `index` holds the index of each of `done`, and of nothing else. */
  ghost predicate AllIndexed(trees: Graph<Oid>, commits: map<Oid, Commit>, index: map<Oid, seq<Oid>>, done: set<Oid>) {
    index.Keys == done <= commits.Keys && forall c :: c in done ==> IndexedAt(trees, commits, index, c)
  }

  /** Compute the index of every commit, in any order. */
  method IndexCommits(objects: Objects, trees: Graph<Oid>, commits: map<Oid, Commit>)
      returns (index: map<Oid, seq<Oid>>)
    requires trees == TreesOf(objects) && commits == CommitsOf(objects)
    ensures AllIndexed(trees, commits, index, commits.Keys)
  {
    var todo := commits.Keys;
    index := map[];
    ghost var done: set<Oid> := {};
    while todo != {}
      invariant done !! todo && done + todo == commits.Keys
      invariant AllIndexed(trees, commits, index, done)
    {
      var c :| c in todo;
      CommitOid(c, objects[c].data);
      var list := ReachableObjects(objects, trees, commits[c]);
      IndexMore(trees, commits, index, done, c, list);
      index, todo, done := index[c := list], todo - {c}, done + {c};
    }
    assert done == commits.Keys;
  }

  lemma IndexMore(trees: Graph<Oid>, commits: map<Oid, Commit>, index: map<Oid, seq<Oid>>, done: set<Oid>, c: Oid,
      list: seq<Oid>)
    requires AllIndexed(trees, commits, index, done) && c in commits && IsIndex(trees, commits[c], list)
    ensures AllIndexed(trees, commits, index[c := list], done + {c})
  {
    var r := index[c := list];
    forall d | d in done + {c} ensures IndexedAt(trees, commits, r, d) {
      if d != c { assert IndexedAt(trees, commits, index, d); }
    }
  }

  class Store {
    const z: Codec
    var objects: Objects
    var commits: map<Oid, Commit>
    var treeEntries: Graph<Oid>
    var commitObjects: map<Oid, seq<Oid>>

    /** The maps derived from the objects. */
    ghost predicate Derived()
      reads this
    {
      Keyed(z, objects) && treeEntries == TreesOf(objects) && commits == CommitsOf(objects)
    }

    /** Every commit has its index. */
    ghost predicate Valid()
      reads this
    {
      && Derived()
      && AllIndexed(treeEntries, commits, commitObjects, commits.Keys)
    }

    constructor (z: Codec)
      ensures Valid() && this.z == z && objects == map[]
    {
      this.z := z;
      objects, commits, treeEntries, commitObjects := map[], map[], map[], map[];
    }

    /**
     Presence of the commit.  Everything it reaches is then cached as well, links to other repositories aside, if
     stored commits and the trees under them have their references stored.
     */
    method HasCommit(oid: Oid, ghost links: set<Oid>) returns (ok: bool)
      requires Valid()
      ensures ok <==> oid in commits
      ensures ok && RefsKept(objects, links) ==> Cached(objects, links, oid)
    {
      ok := oid in commits;
      if ok && RefsKept(objects, links) {
        KeyedOwn(z, objects);
        KeptCached(objects, links, oid);
      }
    }

    method HasAllCommits(oids: seq<Oid>) returns (ok: bool)
      ensures ok <==> oids != [] && forall i :: 0 <= i < |oids| ==> oids[i] in commits
    {
      if |oids| == 0 {
        return false;
      }
      for i := 0 to |oids|
        invariant forall j :: 0 <= j < i ==> oids[j] in commits
      {
        if oids[i] !in commits {
          return false;
        }
      }
      return true;
    }

    /** Store one parsed object and what is derived from it. */
    method StoreObject(o: RawObject)
      requires Derived() && o == Object(z, o.kind, o.data) && (o.oid in objects ==> Same(o, objects[o.oid]))
      modifies this`objects, this`treeEntries, this`commits
      ensures Derived() && objects == old(objects)[o.oid := o]
    {
      StoreOne(objects, o);
      KeyOne(z, objects, o);
      objects := objects[o.oid := o];
      if o.kind == TREE {
        var childOids := ParseTreeEntries(o.data);
        treeEntries := treeEntries[o.oid := childOids];
      } else if o.kind == COMMIT {
        var info := ParseCommitObject(o.oid, o.data);
        commits := commits[o.oid := info];
      }
    }

    /** `IngestPackfile`: a pack that does not parse, or panics while it is parsed, changes nothing. */
    method IngestPackfile(packData: Bytes) returns (r: Option<seq<Oid>>, panicked: bool)
      requires Valid()
      requires ParsePack(z, packData, objects).Some? ==> Fresh(objects, ParsePack(z, packData, objects).value)
      modifies this
      ensures Valid() && panicked == old(ParsePanics(z, packData, objects))
      ensures old(ParsePack(z, packData, objects)).None? ==>
        r == None && objects == old(objects) && commitObjects == old(commitObjects)
      ensures old(ParsePack(z, packData, objects)).Some? ==>
        var objs := old(ParsePack(z, packData, objects)).value;
        r == Some(CommitIds(objs)) && objects == StoreAll(old(objects), objs)
    {
      var parsed, stop := ParsePackfileWithBase(z, packData, objects);
      if parsed.None? {
        return None, stop;
      }
      ParsedNamed(z, packData, objects);
      var newCommits := StoreObjects(parsed.value);
      commitObjects := IndexCommits(objects, treeEntries, commits);
      return Some(newCommits), stop;
    }

    method StoreObjects(objs: seq<RawObject>) returns (newCommits: seq<Oid>)
      requires Derived() && Fresh(objects, objs)
      requires forall i :: 0 <= i < |objs| ==> objs[i] == Object(z, objs[i].kind, objs[i].data)
      modifies this`objects, this`treeEntries, this`commits
      ensures Derived() && objects == StoreAll(old(objects), objs) && newCommits == CommitIds(objs)
    {
      newCommits := [];
      ghost var start := objects;
      assert objs[..0] == [];
      for i := 0 to |objs|
        invariant Derived()
        invariant objects == StoreAll(start, objs[..i])
        invariant newCommits == CommitIds(objs[..i])
      {
        StoreNext(start, objs, i);
        StoreObject(objs[i]);
        if objs[i].kind == COMMIT {
          newCommits := newCommits + [objs[i].oid];
        }
      }
      assert objs[..|objs|] == objs;
    }

    ghost function AsView(): (v: View)
      reads this
    {
      View(objects, commits, commitObjects)
    }

    method CollectObjectsForCommits(wants: seq<Oid>, haves: seq<Oid>) returns (objs: seq<RawObject>, acks: seq<Oid>)
      requires Valid()
      ensures acks == Acks(AsView(), haves)
      ensures StoredOnce(objects, objs)
      ensures forall o :: o in Ids(objs) <==> o in objects && Chosen(AsView(), wants, haves, o)
    {
      forall k | k in objects ensures objects[k].oid == k {
        assert KeyedAt(z, objects, k);
      }
      objs, acks := Collect(View(objects, commits, commitObjects), wants, haves);
    }

    /** All known commits, sorted. */
    method GetKnownCommits() returns (oids: seq<Oid>)
      ensures Sorting.Ascending(oids) && forall o :: o in oids <==> o in commits
    {
      var res: seq<Oid> := [];
      var todo := commits.Keys;
      while todo != {}
        invariant todo <= commits.Keys && NoDup(res)
        invariant forall o :: o in res <==> o in commits && o !in todo
      {
        var o :| o in todo;
        NoDupSnoc(res, o);
        res, todo := res + [o], todo - {o};
      }
      SortAscending(res);
      oids := Sorting.Sort(res);
    }
  }

  lemma {:induction false} SortAscending(xs: seq<Oid>)
    requires NoDup(xs)
    ensures Sorting.Ascending(Sorting.Sort(xs))
  {
    if xs != [] {
      TailNoDup(xs);
      SortAscending(xs[1..]);
      Sorting.InsertAscending(Sorting.Sort(xs[1..]), xs[0]);
    }
  }

  lemma KeyedOwn(z: Codec, objects: Objects)
    requires Keyed(z, objects)
    ensures OwnOids(objects)
  {
    forall k | k in objects ensures objects[k].oid == k {
      assert KeyedAt(z, objects, k);
    }
  }

  /**
   A pack with a single commit whose tree it does not hold is ingested: the commit is then present although
   the tree it reaches is not cached.
   */
  lemma UncachedExample(z: Codec, tree: Oid, author: Bytes, message: Bytes) returns (c: RawObject)
    requires ValidCodec(z) && PlainCommit(tree, [], author, [])
    requires |WriteCommit(tree, [], author, [], message)| <= z.maxAlloc && Countable(z, 1)
    requires tree != ComputeOid(z, COMMIT, WriteCommit(tree, [], author, [], message))
    ensures
      var objects := IngestRun(z, map[], [Build(z, [c])]);
      c.oid in CommitsOf(objects) && Desired(objects, [c.oid], tree) && tree !in objects
  {
    c := Object(z, COMMIT, WriteCommit(tree, [], author, [], message));
    var objs, objects := [c], map[c.oid := c];
    BuildParseSame(z, objs, map[]);
    assert objs[1..] == [] && StoreAll(map[], objs) == objects;
    assert [Build(z, objs)][1..] == [] && IngestRun(z, objects, []) == objects;
    CommitRoundTrip(c.oid, tree, [], author, [], message);
    ReachRoot(ParentGraph(CommitsOf(objects)), ToSet([c.oid]), c.oid);
    ReachRoot(TreesOf(objects), {tree}, tree);
    assert OfCommit(objects, c.oid, tree);
  }

  // ----- Runs of ingests -----

  /** The stored objects after ingesting packs one after the other; unparsable ones are skipped. */
  function IngestRun(z: Codec, objects: Objects, packs: seq<Bytes>): (r: Objects)
    decreases |packs|
  {
    if packs == [] then objects
    else
      match ParsePack(z, packs[0], objects)
      case None => IngestRun(z, objects, packs[1..])
      case Some(objs) => IngestRun(z, StoreAll(objects, objs), packs[1..])
  }

  /** Every pack of the run meets no collision and is closed relative to the store it meets. */
  ghost predicate ClosedRun(z: Codec, objects: Objects, links: set<Oid>, packs: seq<Bytes>)
    decreases |packs|
  {
    packs == [] ||
    match ParsePack(z, packs[0], objects)
    case None => ClosedRun(z, objects, links, packs[1..])
    case Some(objs) =>
      Fresh(objects, objs) && ClosedRelative(objects, links, objs)
        && ClosedRun(z, StoreAll(objects, objs), links, packs[1..])
  }

  /** Stored objects are whole: no delta type is ever stored. */
  ghost predicate AllWhole(objects: Objects) {
    forall k :: k in objects ==> objects[k].kind != OFS_DELTA && objects[k].kind != REF_DELTA
  }

  /** Over every run of ingests: keyed by own identifier, whole, and closed. */
  lemma {:induction false} RunKeeps(z: Codec, objects: Objects, links: set<Oid>, packs: seq<Bytes>)
    requires Keyed(z, objects) && AllWhole(objects) && Closed(objects, links) && ClosedRun(z, objects, links, packs)
    ensures Keyed(z, IngestRun(z, objects, packs)) && AllWhole(IngestRun(z, objects, packs))
    ensures Closed(IngestRun(z, objects, packs), links)
    decreases |packs|
  {
    if packs != [] {
      var parsed := ParsePack(z, packs[0], objects);
      if parsed.None? {
        RunKeeps(z, objects, links, packs[1..]);
      } else {
        IngestKeeps(z, objects, links, packs[0], parsed.value);
        RunKeeps(z, StoreAll(objects, parsed.value), links, packs[1..]);
      }
    }
  }

  lemma IngestKeeps(z: Codec, objects: Objects, links: set<Oid>, pack: Bytes, objs: seq<RawObject>)
    requires Keyed(z, objects) && AllWhole(objects) && Closed(objects, links)
    requires ParsePack(z, pack, objects) == Some(objs) && Fresh(objects, objs) && ClosedRelative(objects, links, objs)
    ensures Keyed(z, StoreAll(objects, objs)) && AllWhole(StoreAll(objects, objs))
      && Closed(StoreAll(objects, objs), links)
  {
    ParsedNamed(z, pack, objects);
    StoreKeyed(z, objects, objs);
    StoreCloses(objects, links, objs);
    ParsedWhole(z, pack, objects);
    forall k | k in StoreAll(objects, objs)
      ensures StoreAll(objects, objs)[k].kind != OFS_DELTA && StoreAll(objects, objs)[k].kind != REF_DELTA
    {
      StoreOrigin(objects, objs, k);
    }
  }
}
