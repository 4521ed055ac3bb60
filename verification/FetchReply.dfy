/**
 Serving a fetch from the store, and what a client gets from it: after unpacking the
 reply it holds every object reachable from its wants.
 */
module FetchReply {
  import opened Octets
  import opened Packfile
  import opened PackParser
  import opened Reach
  import opened RepoIndex
  import opened Pruning
  import opened Completeness
  import opened RepoStore
  import opened FetchRequest
  import opened Sideband

  /** The request parses, the store knows every want, and it holds something to send. */
  ghost predicate Serves(v: View, body: Bytes) {
    && ParseFetch(body).Some?
    && var req := ParseFetch(body).value;
    && KnowsWants(v, req) && exists o :: o in v.objects && Chosen(v, req.wants, req.haves, o)
  }

  /** `objs` are the stored objects the request chooses, each once. */
  ghost predicate ChosenOnce(v: View, req: Request, objs: seq<RawObject>) {
    StoredOnce(v.objects, objs) && forall o :: o in Ids(objs) <==> o in v.objects && Chosen(v, req.wants, req.haves, o)
  }

  /** `resp` is a pack of exactly those objects, framed for the request. */
  ghost predicate Carries(z: Codec, v: View, body: Bytes, objs: seq<RawObject>, resp: Bytes) {
    && ParseFetch(body).Some?
    && var req := ParseFetch(body).value;
    && ChosenOnce(v, req, objs)
    && resp == Format(Build(z, objs), req.isV2, Acks(v, req.haves), req.haves != [])
  }

  ghost predicate KnowsWants(v: View, req: Request) {
    forall i :: 0 <= i < |req.wants| ==> req.wants[i] in v.commits
  }

  lemma ServesSome(v: View, body: Bytes, objs: seq<RawObject>)
    requires ParseFetch(body).Some? && KnowsWants(v, ParseFetch(body).value)
    requires ChosenOnce(v, ParseFetch(body).value, objs)
    ensures Serves(v, body) == (objs != [])
  {
    if objs != [] { assert Ids(objs)[0] in Ids(objs); }
  }

  lemma ServesNot(v: View, body: Bytes)
    requires ParseFetch(body).Some? ==> !KnowsWants(v, ParseFetch(body).value)
    ensures Serves(v, body) == false
  {
  }

  /** `buildFetchFromStore`; `objs` are the objects of the reply. */
  method BuildFetchFromStore(store: Store, reqBody: Bytes) returns (r: Option<Bytes>, ghost objs: seq<RawObject>)
    requires store.Valid()
    ensures r.Some? <==> Serves(store.AsView(), reqBody)
    ensures r.Some? ==> Carries(store.z, store.AsView(), reqBody, objs, r.value)
  {
    objs := [];
    var parsed := ParseFetchRequest(reqBody);
    if parsed.None? {
      ServesNot(store.AsView(), reqBody);
      return None, [];
    }
    AcceptedHex(reqBody);
    var known := store.HasAllCommits(parsed.value.wants);
    if !known {
      ServesNot(store.AsView(), reqBody);
      return None, [];
    }
    r, objs := PackFromStore(store, reqBody, parsed.value);
  }

  /** The same, once every want is known. */
  method PackFromStore(store: Store, ghost reqBody: Bytes, req: Request)
    returns (r: Option<Bytes>, ghost objs: seq<RawObject>)
    requires store.Valid() && ParseFetch(reqBody) == Some(req) && KnowsWants(store.AsView(), req)
    ensures r.Some? <==> Serves(store.AsView(), reqBody)
    ensures r.Some? ==> Carries(store.z, store.AsView(), reqBody, objs, r.value)
  {
    var objects, acks := store.CollectObjectsForCommits(req.wants, req.haves);
    objs := objects;
    ServesSome(store.AsView(), reqBody, objs);
    if |objects| == 0 {
      return None, objs;
    }
    var packfile := BuildPackfile(store.z, objects);
    var resp := FormatSidebandPackfile(packfile, req.isV2, acks, |req.haves| > 0);
    return Some(resp), objs;
  }

  // ----- Unpacking -----

  /** Objects the writer can place anywhere in a pack. */
  ghost predicate AllReadable(z: Codec, objs: seq<RawObject>) {
    forall i :: 0 <= i < |objs| ==> Packable(z, objs[i]) && Drained(z, objs[i].data)
  }

  /** The same of the stored objects a request chooses. */
  ghost predicate ChosenReadable(z: Codec, v: View, wants: seq<Oid>, haves: seq<Oid>) {
    forall o :: o in v.objects && Chosen(v, wants, haves, o) ==>
      Packable(z, v.objects[o]) && Drained(z, v.objects[o].data)
  }

  lemma {:induction false} NoDupCount(xs: seq<Oid>, s: set<Oid>)
    requires NoDup(xs) && forall x :: x in xs ==> x in s
    ensures |xs| <= |s|
    decreases |xs|
  {
    if xs != [] {
      var n := |xs| - 1;
      var front := xs[..n];
      NotEarlier(xs, n);
      forall i, j | 0 <= i < j < n ensures Differ(front, i, j) {
        assert Differ(xs, i, j);
      }
      NoDupCount(front, s - {xs[n]});
    }
  }

  lemma {:induction false} AcksShort(v: View, haves: seq<Oid>)
    requires forall i :: 0 <= i < |haves| ==> IsHexOid(haves[i])
    ensures ShortAcks(Acks(v, haves))
  {
    if haves != [] {
      AcksShort(v, haves[..|haves| - 1]);
    }
  }

  lemma StoredReadable(z: Codec, objects: Objects, objs: seq<RawObject>)
    requires Keyed(z, objects) && AllReadable(z, objs) && StoredOnce(objects, objs) && Countable(z, |objects|)
    ensures Readable(z, objs) && Countable(z, |objs|)
    ensures forall i :: 0 <= i < |objs| ==> objs[i] == Object(z, objs[i].kind, objs[i].data)
  {
    NoDupCount(Ids(objs), objects.Keys);
    forall i | 0 <= i < |objs| ensures objs[i] == Object(z, objs[i].kind, objs[i].data) {
      assert KeyedAt(z, objects, objs[i].oid);
    }
  }

  /** A client of this reply extracts and parses exactly the objects that were chosen. */
  lemma Unpacks(z: Codec, objects: Objects, objs: seq<RawObject>, isV2: bool, acks: seq<Bytes>, hasHaves: bool,
                client: Objects)
    requires ValidCodec(z) && Keyed(z, objects) && AllReadable(z, objs) && Countable(z, |objects|)
    requires StoredOnce(objects, objs) && ShortAcks(acks)
    ensures Extract(Format(Build(z, objs), isV2, acks, hasHaves)) == Some(Build(z, objs))
    ensures ParsePack(z, Build(z, objs), client) == Some(objs)
  {
    StoredReadable(z, objects, objs);
    BuildParseSame(z, objs, client);
    assert |Build(z, objs)| >= 12;
    SidebandRoundTrip(Build(z, objs), isV2, acks, hasHaves);
  }

  // ----- Completeness -----

  /** In a closed store every commit reachable from stored wants is stored. */
  lemma ReachedStored(objects: Objects, links: set<Oid>, wants: seq<Oid>, c: Oid)
    requires Closed(objects, links) && (forall k :: k in objects ==> objects[k].oid == k)
    requires forall i :: 0 <= i < |wants| ==> wants[i] in CommitsOf(objects)
    requires Reachable(ParentGraph(CommitsOf(objects)), ToSet(wants), c)
    ensures c in CommitsOf(objects)
  {
    var cs := CommitsOf(objects);
    var g, s := ParentGraph(cs), iset k | k in cs;
    forall u, w | u in s && w in Succ(g, u) ensures w in s {
      assert RefsStored(objects, links, objects[u]);
    }
    ReachStays(g, ToSet(wants), s, c);
  }

  /** So everything desired is in an index the pruning reads, and stored unless a gitlink. */
  lemma DesiredWanted(objects: Objects, index: map<Oid, seq<Oid>>, links: set<Oid>, wants: seq<Oid>, o: Oid)
    requires Closed(objects, links) && (forall k :: k in objects ==> objects[k].oid == k)
    requires AllIndexed(TreesOf(objects), CommitsOf(objects), index, CommitsOf(objects).Keys)
    requires forall i :: 0 <= i < |wants| ==> wants[i] in CommitsOf(objects)
    requires Desired(objects, wants, o)
    ensures Wanted(View(objects, CommitsOf(objects), index), wants, o)
    ensures o in objects || o in links
  {
    var c :| Reachable(ParentGraph(CommitsOf(objects)), ToSet(wants), c) && OfCommit(objects, c, o);
    ReachedStored(objects, links, wants, c);
    CommitOid(c, objects[c].data);
    assert InCommit(TreesOf(objects), CommitsOf(objects)[c], o);
    ClosedIndex(objects, links, c, o);
    assert IndexedAt(TreesOf(objects), CommitsOf(objects), index, c);
    assert Listed(index, c, o);
  }

  /** What the client holds before: every stored object reachable from the commits it was acknowledged. */
  ghost predicate HoldsHaves(objects: Objects, acks: seq<Oid>, client: Objects) {
    forall o :: o in objects && Desired(objects, acks, o) ==> o in client && client[o] == objects[o]
  }

  /** What pruning takes to be held is reachable from the acknowledged haves. */
  lemma HeldDesired(objects: Objects, index: map<Oid, seq<Oid>>, haves: seq<Oid>, o: Oid)
    requires AllIndexed(TreesOf(objects), CommitsOf(objects), index, CommitsOf(objects).Keys)
    requires Held(View(objects, CommitsOf(objects), index), haves, o)
    ensures Desired(objects, Acks(View(objects, CommitsOf(objects), index), haves), o)
  {
    var v := View(objects, CommitsOf(objects), index);
    var c :| Excluded(v, haves, c) && Listed(index, c, o);
    assert IndexedAt(TreesOf(objects), CommitsOf(objects), index, c);
    assert OfCommit(objects, c, o);
  }

  lemma {:induction false} StoredLast(objects: Objects, objs: seq<RawObject>, all: Objects, k: Oid)
    requires forall i :: 0 <= i < |objs| ==> objs[i].oid in all && all[objs[i].oid] == objs[i]
    requires k in Ids(objs) || (k in objects && k in all && objects[k] == all[k])
    ensures k in StoreAll(objects, objs) && k in all && StoreAll(objects, objs)[k] == all[k]
    decreases |objs|
  {
    if objs != [] {
      var o := objs[0];
      var next := objects[o.oid := o];
      assert k in Ids(objs[1..]) || (k in next && k in all && next[k] == all[k]) by {
        if k in Ids(objs) {
          var i :| 0 <= i < |objs| && Ids(objs)[i] == k;
          if i > 0 { assert Ids(objs[1..])[i - 1] == k; }
        }
      }
      StoredLast(next, objs[1..], all, k);
    }
  }

  /** The object is stored, and the client has it, or it is a link to another repository. */
  ghost predicate CompleteAt(objects: Objects, links: set<Oid>, after: Objects, o: Oid) {
    Has(objects, links, o) && (o in objects ==> o in after && after[o] == objects[o])
  }

  /** The client has every stored object reachable from the wants. */
  ghost predicate Complete(objects: Objects, links: set<Oid>, wants: seq<Oid>, after: Objects) {
    forall o :: Desired(objects, wants, o) ==> CompleteAt(objects, links, after, o)
  }

  /** Adding the chosen objects completes the client. */
  lemma Completes(objects: Objects, index: map<Oid, seq<Oid>>, links: set<Oid>, req: Request, client: Objects,
                  objs: seq<RawObject>, o: Oid)
    requires Closed(objects, links) && OwnOids(objects)
    requires AllIndexed(TreesOf(objects), CommitsOf(objects), index, CommitsOf(objects).Keys)
    requires forall i :: 0 <= i < |req.wants| ==> req.wants[i] in CommitsOf(objects)
    requires HoldsHaves(objects, Acks(View(objects, CommitsOf(objects), index), req.haves), client)
    requires ChosenOnce(View(objects, CommitsOf(objects), index), req, objs)
    requires Desired(objects, req.wants, o)
    ensures CompleteAt(objects, links, StoreAll(client, objs), o)
  {
    var v := View(objects, CommitsOf(objects), index);
    DesiredWanted(objects, index, links, req.wants, o);
    WantedHeldOrChosen(v, req.wants, req.haves, o);
    if Held(v, req.haves, o) { HeldDesired(objects, index, req.haves, o); }
    if o in objects { StoredLast(client, objs, objects, o); }
  }

  /** No tree entry and no commit's tree names a stored commit; submodule commits live elsewhere. */
  ghost predicate CommitsUnlinked(objects: Objects) {
    && (forall k, x :: k in TreesOf(objects) && x in Succ(TreesOf(objects), k) ==> x !in CommitsOf(objects))
    && (forall c :: c in CommitsOf(objects) ==> CommitsOf(objects)[c].tree !in CommitsOf(objects))
  }

  /** Then a stored commit belongs to no commit but itself. */
  lemma CommitAlone(objects: Objects, c: Oid, d: Oid)
    requires OwnOids(objects) && CommitsUnlinked(objects) && c in CommitsOf(objects) && d in CommitsOf(objects)
    requires InCommit(TreesOf(objects), CommitsOf(objects)[d], c)
    ensures c == d
  {
    var trees, info := TreesOf(objects), CommitsOf(objects)[d];
    CommitOid(d, objects[d].data);
    if c != d {
      var others := iset x | x !in CommitsOf(objects);
      ReachStays(trees, {info.tree}, others, c);
    }
  }

  /** A store that knows the wants always has something to send, with submodules or without. */
  lemma AlwaysServes(objects: Objects, index: map<Oid, seq<Oid>>, body: Bytes)
    requires OwnOids(objects) && CommitsUnlinked(objects)
    requires AllIndexed(TreesOf(objects), CommitsOf(objects), index, CommitsOf(objects).Keys)
    requires ParseFetch(body).Some?
    requires KnowsWants(View(objects, CommitsOf(objects), index), ParseFetch(body).value)
    ensures Serves(View(objects, CommitsOf(objects), index), body)
  {
    var v, req := View(objects, CommitsOf(objects), index), ParseFetch(body).value;
    AcceptedHex(body);
    var o := req.wants[0];
    if AnyMissing(v, req.wants, req.haves) {
      o := MissingCommit(objects, index, req.wants, req.haves);
    }
    assert Chosen(v, req.wants, req.haves, o);
  }

  /** If anything is missing, some wanted commit is. */
  lemma MissingCommit(objects: Objects, index: map<Oid, seq<Oid>>, wants: seq<Oid>, haves: seq<Oid>) returns (c: Oid)
    requires OwnOids(objects) && CommitsUnlinked(objects)
    requires AllIndexed(TreesOf(objects), CommitsOf(objects), index, CommitsOf(objects).Keys)
    requires AnyMissing(View(objects, CommitsOf(objects), index), wants, haves)
    ensures c in objects && Missing(View(objects, CommitsOf(objects), index), wants, haves, c)
  {
    var v := View(objects, CommitsOf(objects), index);
    var x :| Missing(v, wants, haves, x);
    c :| Needed(v, wants, haves, c) && Listed(index, c, x);
    assert IndexedAt(TreesOf(objects), CommitsOf(objects), index, c);
    CommitOid(c, objects[c].data);
    assert Listed(index, c, c);
    forall d | Excluded(v, haves, d) && Listed(index, d, c) ensures c == d {
      assert IndexedAt(TreesOf(objects), CommitsOf(objects), index, d);
      CommitAlone(objects, c, d);
    }
  }

  /** What a client makes of a reply: extract the pack, parse it over its own objects, store the result. */
  function Unpack(z: Codec, client: Objects, resp: Bytes): (after: Option<Objects>) {
    if Extract(resp).None? || ParsePack(z, Extract(resp).value, client).None? then None
    else Some(StoreAll(client, ParsePack(z, Extract(resp).value, client).value))
  }

  /** A request of a client that holds what its acknowledged haves reach, for objects that can be packed. */
  ghost predicate Eligible(z: Codec, v: View, req: Request, client: Objects) {
    ChosenReadable(z, v, req.wants, req.haves) && HoldsHaves(v.objects, Acks(v, req.haves), client)
  }

  method Receive(z: Codec, client: Objects, resp: Bytes) returns (after: Option<Objects>)
    ensures after == Unpack(z, client, resp)
  {
    var pack := ExtractPackfileFromResponse(resp);
    if pack.None? {
      return None;
    }
    var received, _ := ParsePackfileWithBase(z, pack.value, client);
    if received.None? {
      return None;
    }
    return Some(StoreAll(client, received.value));
  }

  /** Unpacking a reply adds exactly the chosen objects. */
  lemma CarriedUnpacks(z: Codec, v: View, body: Bytes, objs: seq<RawObject>, resp: Bytes, client: Objects)
    requires ValidCodec(z) && Keyed(z, v.objects) && Countable(z, |v.objects|)
    requires Carries(z, v, body, objs, resp) && Eligible(z, v, ParseFetch(body).value, client)
    ensures Unpack(z, client, resp) == Some(StoreAll(client, objs))
  {
    var req := ParseFetch(body).value;
    AcceptedHex(body);
    AcksShort(v, req.haves);
    ChosenAre(z, v, req, objs);
    Unpacks(z, v.objects, objs, req.isV2, Acks(v, req.haves), req.haves != [], client);
  }

  /** A closed store with its index. */
  ghost predicate ClosedView(z: Codec, v: View, links: set<Oid>) {
    && Keyed(z, v.objects) && Closed(v.objects, links) && v.commits == CommitsOf(v.objects)
    && AllIndexed(TreesOf(v.objects), v.commits, v.index, v.commits.Keys)
  }

  /** The chosen objects of a closed store complete the client. */
  lemma ChosenCompletes(z: Codec, v: View, links: set<Oid>, req: Request, objs: seq<RawObject>, client: Objects)
    requires ClosedView(z, v, links) && KnowsWants(v, req) && ChosenOnce(v, req, objs)
    requires HoldsHaves(v.objects, Acks(v, req.haves), client)
    ensures Complete(v.objects, links, req.wants, StoreAll(client, objs))
  {
    KeyedOwn(z, v.objects);
    assert v == View(v.objects, CommitsOf(v.objects), v.index);
    forall o | Desired(v.objects, req.wants, o) ensures CompleteAt(v.objects, links, StoreAll(client, objs), o) {
      Completes(v.objects, v.index, links, req, client, objs, o);
    }
  }

  /** So a client that cannot be sent anything is complete already. */
  lemma UnservedComplete(z: Codec, v: View, links: set<Oid>, body: Bytes, client: Objects)
    requires ClosedView(z, v, links) && ParseFetch(body).Some?
    requires KnowsWants(v, ParseFetch(body).value) && !Serves(v, body)
    requires HoldsHaves(v.objects, Acks(v, ParseFetch(body).value.haves), client)
    ensures Complete(v.objects, links, ParseFetch(body).value.wants, client)
  {
    ChosenCompletes(z, v, links, ParseFetch(body).value, [], client);
  }

  /**
   End to end: a client that holds what is reachable from its acknowledged haves asks a
   closed store for commits the store has.  Extracting, parsing and adding the objects of
   the reply leaves the client with every stored object reachable from its wants, whatever
   else is reachable being a link to another repository, and there always is a reply.
   */
  method FetchAndUnpack(store: Store, reqBody: Bytes, client: Objects, ghost links: set<Oid>)
    returns (served: bool, after: Objects)
    requires store.Valid() && ValidCodec(store.z) && Countable(store.z, |store.objects|)
    requires Closed(store.objects, links)
    requires ParseFetch(reqBody).Some? && KnowsWants(store.AsView(), ParseFetch(reqBody).value)
    requires Eligible(store.z, store.AsView(), ParseFetch(reqBody).value, client)
    ensures Complete(store.objects, links, ParseFetch(reqBody).value.wants, after)
    ensures CommitsUnlinked(store.objects) ==> served
  {
    ghost var z, v := store.z, store.AsView();
    assert ClosedView(z, v, links);
    var reply, objs := BuildFetchFromStore(store, reqBody);
    served, after := reply.Some?, client;
    if served {
      CarriedUnpacks(z, v, reqBody, objs, reply.value, client);
      ChosenCompletes(z, v, links, ParseFetch(reqBody).value, objs, client);
      var received := Receive(store.z, client, reply.value);
      after := received.value;
    } else {
      UnservedComplete(z, v, links, reqBody, client);
      if CommitsUnlinked(store.objects) {
        KeyedOwn(z, store.objects);
        AlwaysServes(store.objects, store.commitObjects, reqBody);
      }
    }
  }

  lemma ChosenAre(z: Codec, v: View, req: Request, objs: seq<RawObject>)
    requires ChosenReadable(z, v, req.wants, req.haves) && ChosenOnce(v, req, objs)
    ensures AllReadable(z, objs)
  {
    forall i | 0 <= i < |objs| ensures Packable(z, objs[i]) && Drained(z, objs[i].data) {
      assert Ids(objs)[i] in Ids(objs);
    }
  }
}
