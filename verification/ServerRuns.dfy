/**
 Runs of the caching proxy on one repository: as long as upstream's packs are closed relative to the store they
 are ingested into, the store stays closed and every reply made from it completes its client.
 */
module ServerRuns {
  import opened Octets
  import opened Packfile
  import opened PackParser
  import opened RepoIndex
  import opened Completeness
  import opened Pruning
  import opened RepoStore
  import opened RequestKind
  import opened FetchRequest
  import opened FetchReply
  import opened Sideband
  import opened GitServer

  /** A request, what upstream does with a body while the store holds these objects, and whether entries (de)code. */
  datatype Turn = Turn(req: HttpRequest, up: (Objects, Bytes) -> Upstream, decodes: bool, encodes: bool)

  /** What a store that follows closed packs is like. */
  ghost predicate Sound(z: Codec, links: set<Oid>, objects: Objects) {
    Keyed(z, objects) && AllWhole(objects) && Closed(objects, links)
  }

  /** The pack of an answer, if it has one, collides with nothing and is closed relative to the store. */
  ghost predicate Fits(z: Codec, links: set<Oid>, objects: Objects, answer: Upstream) {
    answer.Answer? && Extract(answer.resp.body).Some? ==>
      var parsed := ParsePack(z, Extract(answer.resp.body).value, objects);
      parsed.Some? ==> Fresh(objects, parsed.value) && ClosedRelative(objects, links, parsed.value)
  }

  /** Upstream's answers fit every sound store they meet. */
  ghost predicate Fair(z: Codec, links: set<Oid>, t: Turn) {
    forall objects, b :: Sound(z, links, objects) ==> Fits(z, links, objects, t.up(objects, b))
  }

  lemma IngestedSound(z: Codec, links: set<Oid>, objects: Objects, answer: Upstream)
    requires answer.Answer? && Sound(z, links, objects) && Fits(z, links, objects, answer)
    ensures Sound(z, links, Ingested(z, objects, answer.resp.body))
  {
    if Extract(answer.resp.body).Some? {
      var pack := Extract(answer.resp.body).value;
      var parsed := ParsePack(z, pack, objects);
      if parsed.Some? { IngestKeeps(z, objects, links, pack, parsed.value); }
    }
  }

  /** The reply completes every eligible client: unpacked, it leaves the client with all it asked for. */
  ghost predicate Completing(z: Codec, links: set<Oid>, v: View, body: Bytes, resp: Bytes) {
    && ParseFetch(body).Some?
    && forall client ::
         Eligible(z, v, ParseFetch(body).value, client) ==> CompletesClient(z, links, v, body, resp, client)
  }

  ghost predicate CompletesClient(z: Codec, links: set<Oid>, v: View, body: Bytes, resp: Bytes, client: Objects)
    requires ParseFetch(body).Some?
  {
    && Unpack(z, client, resp).Some?
    && Complete(v.objects, links, ParseFetch(body).value.wants, Unpack(z, client, resp).value)
  }

  lemma StoreReplyCompletes(z: Codec, links: set<Oid>, v: View, body: Bytes, reply: Reply)
    requires ValidCodec(z) && ClosedView(z, v, links) && Countable(z, |v.objects|) && StoreReply(z, v, body, reply)
    ensures Completing(z, links, v, body, reply.body)
  {
    var objs :| Carries(z, v, body, objs, reply.body);
    var req := ParseFetch(body).value;
    forall client | Eligible(z, v, req, client) ensures CompletesClient(z, links, v, body, reply.body, client) {
      CarriedUnpacks(z, v, body, objs, reply.body, client);
      ChosenCompletes(z, v, links, req, objs, client);
    }
  }

  /** If the reply is from the store, it was made from this view of it and completes its client. */
  ghost predicate GoodReply(z: Codec, links: set<Oid>, v: View, body: Bytes, reply: Reply) {
    reply.FromStore? ==>
      StoreReply(z, v, body, reply) && (Countable(z, |v.objects|) ==> Completing(z, links, v, body, reply.body))
  }

  /** The same, of the view just before or just after the request. */
  ghost predicate GoodTurn(z: Codec, links: set<Oid>, before: View, after: View, body: Bytes, reply: Reply) {
    GoodReply(z, links, before, body, reply) || GoodReply(z, links, after, body, reply)
  }

  /** The two views of a store around a request, of which a store reply was made from one. */
  ghost predicate FromOne(z: Codec, before: View, after: View, body: Bytes, reply: Reply) {
    reply.FromStore? ==> StoreReply(z, before, body, reply) || StoreReply(z, after, body, reply)
  }

  lemma SettledFrom(z: Codec, caching: bool, req: HttpRequest, fwd: Bytes, answer: Upstream, before: View, after: View,
      reply: Reply)
    requires answer.Answer? && Settled(z, caching, req, fwd, answer, before.objects, after, reply)
    ensures FromOne(z, before, after, req.body, reply)
  {
  }

  /** The store is as before or has ingested the answer to what was sent. */
  ghost predicate Grown(z: Codec, up: Bytes -> Upstream, fwd: Bytes, before: Objects, after: Objects) {
    after == before || (up(fwd).Answer? && after == Ingested(z, before, up(fwd).resp.body))
  }

  /** What runs need of one request. */
  method ServeOnce(server: Server, store: Store, t: Turn, up: Bytes -> Upstream)
    returns (reply: Reply, ghost fwd: Bytes)
    requires server.Valid() && store.Valid() && forall b :: NoCollision(store.z, store.objects, up(b))
    modifies server, store
    ensures server.Valid() && store.Valid()
    ensures FromOne(store.z, old(store.AsView()), store.AsView(), t.req.body, reply)
    ensures Grown(store.z, up, fwd, old(store.objects), store.objects)
  {
    ghost var before := store.AsView();
    ghost var asked := !server.StoreHit(before, t.req) && !server.CacheHit(t.req, t.decodes);
    reply, fwd := server.ServeHTTP(t.req, store, up, t.decodes, t.encodes);
    if asked && up(fwd).Answer? {
      SettledFrom(store.z, server.caching, t.req, fwd, up(fwd), before, store.AsView(), reply);
    }
  }

  lemma GrownSound(z: Codec, links: set<Oid>, t: Turn, up: Bytes -> Upstream, fwd: Bytes, before: Objects,
      after: Objects)
    requires Sound(z, links, before) && Fair(z, links, t) && Grown(z, up, fwd, before, after)
    requires up(fwd) == t.up(before, fwd)
    ensures Sound(z, links, after)
  {
    if after != before {
      assert Fits(z, links, before, t.up(before, fwd));
      IngestedSound(z, links, before, up(fwd));
    }
  }

  lemma OneCompletes(z: Codec, links: set<Oid>, before: View, after: View, body: Bytes, reply: Reply)
    requires ValidCodec(z) && ClosedView(z, before, links) && ClosedView(z, after, links)
    requires FromOne(z, before, after, body, reply)
    ensures GoodTurn(z, links, before, after, body, reply)
  {
    var v := if StoreReply(z, before, body, reply) then before else after;
    if reply.FromStore? && Countable(z, |v.objects|) { StoreReplyCompletes(z, links, v, body, reply); }
  }

  lemma FairAnswers(z: Codec, links: set<Oid>, t: Turn, objects: Objects, up: Bytes -> Upstream)
    requires Sound(z, links, objects) && Fair(z, links, t) && forall b :: up(b) == t.up(objects, b)
    ensures forall b :: NoCollision(z, objects, up(b))
  {
    forall b ensures NoCollision(z, objects, up(b)) { assert Fits(z, links, objects, t.up(objects, b)); }
  }

  /** One request of a run: the store stays sound, and a reply made from it completes its client. */
  method ServeTurn(server: Server, store: Store, t: Turn, ghost links: set<Oid>) returns (reply: Reply)
    requires server.Valid() && store.Valid() && ValidCodec(store.z)
    requires Sound(store.z, links, store.objects) && Fair(store.z, links, t)
    modifies server, store
    ensures server.Valid() && store.Valid() && Sound(store.z, links, store.objects)
    ensures GoodTurn(store.z, links, old(store.AsView()), store.AsView(), t.req.body, reply)
  {
    var objects := store.objects;
    var up := (b: Bytes) => t.up(objects, b);
    ghost var before := store.AsView();
    FairAnswers(store.z, links, t, objects, up);
    ghost var fwd;
    reply, fwd := ServeOnce(server, store, t, up);
    GrownSound(store.z, links, t, up, fwd, objects, store.objects);
    OneCompletes(store.z, links, before, store.AsView(), t.req.body, reply);
  }

  ghost predicate GoodAt(z: Codec, links: set<Oid>, turns: seq<Turn>, views: seq<View>, replies: seq<Reply>, i: nat) {
    && i < |turns| && i < |replies| && i + 1 < |views|
    && GoodTurn(z, links, views[i], views[i + 1], turns[i].req.body, replies[i])
  }

  /** The first `n` turns are good. */
  ghost predicate AllGood(z: Codec, links: set<Oid>, turns: seq<Turn>, views: seq<View>, replies: seq<Reply>, n: nat) {
    forall i :: 0 <= i < n ==> GoodAt(z, links, turns, views, replies, i)
  }

  lemma GoodExtends(z: Codec, links: set<Oid>, turns: seq<Turn>, views: seq<View>, replies: seq<Reply>, v: View,
      reply: Reply)
    requires |replies| < |turns| && |views| == |replies| + 1
    requires AllGood(z, links, turns, views, replies, |replies|)
    requires GoodTurn(z, links, views[|replies|], v, turns[|replies|].req.body, reply)
    ensures AllGood(z, links, turns, views + [v], replies + [reply], |replies| + 1) == true
  {
    var vs, rs := views + [v], replies + [reply];
    forall i | 0 <= i <= |replies| ensures GoodAt(z, links, turns, vs, rs, i) {
      if i < |replies| {
        assert GoodAt(z, links, turns, views, replies, i);
        assert vs[i] == views[i] && vs[i + 1] == views[i + 1] && rs[i] == replies[i];
      } else {
        assert vs[i] == views[i] && vs[i + 1] == v && rs[i] == reply;
      }
    }
  }

  ghost predicate AllFair(z: Codec, links: set<Oid>, turns: seq<Turn>) {
    forall i :: 0 <= i < |turns| ==> Fair(z, links, turns[i])
  }

  /**
   Over every run of requests the store stays sound, and each reply made from it completes its client; `views` are
   the store before, between and after the requests.
   */
  method ServeRun(server: Server, store: Store, turns: seq<Turn>, ghost links: set<Oid>)
    returns (replies: seq<Reply>, ghost views: seq<View>)
    requires server.Valid() && store.Valid() && ValidCodec(store.z)
    requires Sound(store.z, links, store.objects) && AllFair(store.z, links, turns)
    modifies server, store
    ensures server.Valid() && store.Valid() && Sound(store.z, links, store.objects)
    ensures |replies| == |turns| && |views| == |turns| + 1
    ensures views[0] == old(store.AsView()) && views[|turns|] == store.AsView()
    ensures AllGood(store.z, links, turns, views, replies, |turns|)
  {
    replies, views := [], [store.AsView()];
    for n := 0 to |turns|
      invariant server.Valid() && store.Valid() && Sound(store.z, links, store.objects)
      invariant |replies| == n && |views| == n + 1 && views[0] == old(store.AsView()) && views[n] == store.AsView()
      invariant AllGood(store.z, links, turns, views, replies, n) == true
    {
      assert Fair(store.z, links, turns[n]);
      var reply := ServeTurn(server, store, turns[n], links);
      GoodExtends(store.z, links, turns, views, replies, store.AsView(), reply);
      replies, views := replies + [reply], views + [store.AsView()];
    }
  }

  /** An empty store is sound, so runs can start there. */
  lemma EmptySound(z: Codec, links: set<Oid>)
    ensures Sound(z, links, map[])
  {
  }
}
