/**
 The caching Git proxy: serve from the store, replay from the response cache, or ask
 upstream, possibly with extra haves, then ingest and answer.  The ghost log of upstream
 exchanges gives every cached response its provenance.
 */
module GitServer {
  import opened Octets
  import opened Packfile
  import opened PackParser
  import opened PktLine
  import opened RepoStore
  import opened Pruning
  import opened RequestKind
  import opened FetchRequest
  import opened FetchReply
  import opened Sideband
  import opened Reach
  import Sorting

  /** A response without hop-by-hop headers. */
  datatype Response = Response(status: nat, header: Bytes, body: Bytes)

  /** What upstream does with a request; `complete` if its body could be read to the end. */
  datatype Upstream = Unreachable | Answer(resp: Response, complete: bool)

  /** What the client is sent. */
  datatype Reply =
    | FromStore(body: Bytes)       // built from the object store
    | FromCache(resp: Response)    // replayed from the response cache
    | FromUpstream(resp: Response) // upstream's answer as it came
    | Failed(status: nat)
    | Aborted                      // a panic while reading the answer's pack ends the connection

  /** A request, the body forwarded for it, and upstream's answer. */
  datatype Exchange = Exchange(req: HttpRequest, forwarded: Bytes, resp: Response)

  /** `computeCacheKey`. */
  function Key(sha256: Bytes -> Bytes, r: HttpRequest): (k: Bytes) {
    if r.method_ == Ascii("GET") then Ascii("git:get:") + r.url + Ascii(":") + r.proto
    else Ascii("git:post:") + r.url + Ascii(":") + r.proto + Ascii(":") + Hex(sha256(r.body))
  }

  /** `resp` is upstream's unmodified 200 answer to a cacheable request with key `k`, forwarded unchanged. */
  ghost predicate Genuine(sha256: Bytes -> Bytes, e: Exchange, k: Bytes, resp: Response) {
    && Key(sha256, e.req) == k && IsCacheable(Classify(e.req))
    && e.forwarded == e.req.body && e.resp == resp && resp.status == 200
  }

  ghost predicate Proven(sha256: Bytes -> Bytes, log: seq<Exchange>, k: Bytes, resp: Response) {
    exists i :: 0 <= i < |log| && Genuine(sha256, log[i], k, resp)
  }

  ghost predicate AllProven(sha256: Bytes -> Bytes, log: seq<Exchange>, cache: map<Bytes, Response>) {
    forall k :: k in cache ==> Proven(sha256, log, k, cache[k])
  }

  lemma ProvenLater(sha256: Bytes -> Bytes, log: seq<Exchange>, cache: map<Bytes, Response>, e: Exchange)
    requires AllProven(sha256, log, cache)
    ensures AllProven(sha256, log + [e], cache)
  {
    forall k | k in cache ensures Proven(sha256, log + [e], k, cache[k]) {
      assert Proven(sha256, log, k, cache[k]);
      var i :| 0 <= i < |log| && Genuine(sha256, log[i], k, cache[k]);
      assert (log + [e])[i] == log[i];
    }
  }

  lemma StoreProven(sha256: Bytes -> Bytes, log: seq<Exchange>, cache: map<Bytes, Response>, e: Exchange)
    requires AllProven(sha256, log, cache) && Genuine(sha256, e, Key(sha256, e.req), e.resp)
    ensures AllProven(sha256, log + [e], cache[Key(sha256, e.req) := e.resp])
  {
    var key := Key(sha256, e.req);
    ProvenLater(sha256, log, cache, e);
    assert (log + [e])[|log|] == e;
    var next := cache[key := e.resp];
    forall k | k in next ensures Proven(sha256, log + [e], k, next[k]) {
      if k != key { assert Proven(sha256, log + [e], k, cache[k]); }
    }
  }

  // ----- Cache keys -----

  predicate IsGet(r: HttpRequest) {
    r.method_ == Ascii("GET")
  }

  /** The upstream address and the protocol header, as a key holds them. */
  function Target(r: HttpRequest): (t: Bytes) {
    r.url + Ascii(":") + r.proto
  }

  lemma SameTail(a: Bytes, x: Bytes, b: Bytes, y: Bytes)
    requires a + x == b + y && |x| == |y|
    ensures a == b && x == y
  {
    DropAppend(a, x);
    DropAppend(b, y);
  }

  /** Keys are equal exactly for the same kind of method, target and, unless it is a GET, body digest. */
  lemma KeyExactly(sha256: Bytes -> Bytes, r: HttpRequest, s: HttpRequest)
    requires |sha256(r.body)| == |sha256(s.body)|
    ensures Key(sha256, r) == Key(sha256, s) <==>
      (IsGet(r) <==> IsGet(s)) && Target(r) == Target(s) && (!IsGet(r) ==> sha256(r.body) == sha256(s.body))
  {
    var get, post := Ascii("git:get:"), Ascii("git:post:");
    KeyParts(sha256, r);
    KeyParts(sha256, s);
    if Key(sha256, r) == Key(sha256, s) {
      assert Key(sha256, r)[4] == if IsGet(r) then 103 else 112;
      assert Key(sha256, s)[4] == if IsGet(s) then 103 else 112;
      if IsGet(r) {
        DropAppend(get, Target(r));
        DropAppend(get, Target(s));
      } else {
        var x, y := Hex(sha256(r.body)), Hex(sha256(s.body));
        DropAppend(post, Target(r) + Ascii(":") + x);
        DropAppend(post, Target(s) + Ascii(":") + y);
        SameTail(Target(r) + Ascii(":"), x, Target(s) + Ascii(":"), y);
        SameTail(Target(r), Ascii(":"), Target(s), Ascii(":"));
        HexInjective(sha256(r.body), sha256(s.body));
      }
    }
  }

  lemma KeyParts(sha256: Bytes -> Bytes, r: HttpRequest)
    ensures IsGet(r) ==> Key(sha256, r) == Ascii("git:get:") + Target(r)
    ensures !IsGet(r) ==> Key(sha256, r) == Ascii("git:post:") + (Target(r) + Ascii(":") + Hex(sha256(r.body)))
  {
    var get, post, colon := Ascii("git:get:"), Ascii("git:post:"), Ascii(":");
    Assoc(get, r.url, colon);
    Assoc(get, r.url + colon, r.proto);
    Assoc(post, r.url, colon);
    Assoc(post, r.url + colon, r.proto);
    Assoc(post, Target(r), colon);
    Assoc(post, Target(r) + colon, Hex(sha256(r.body)));
  }

  /** Of two requests with the same joined target, address and header agree exactly when the headers are as long. */
  lemma TargetExactly(r: HttpRequest, s: HttpRequest)
    requires Target(r) == Target(s)
    ensures r.url == s.url && r.proto == s.proto <==> |r.proto| == |s.proto|
  {
    if |r.proto| == |s.proto| {
      SameTail(r.url + Ascii(":"), r.proto, s.url + Ascii(":"), s.proto);
      SameTail(r.url, Ascii(":"), s.url, Ascii(":"));
    }
  }

  const COLON: byte := 58

  /** The protocol header holds no colon; a caller can check that. */
  predicate PlainProto(r: HttpRequest) {
    COLON !in r.proto
  }

  /** Of two headers in the same joined target the longer one holds the colon before the shorter. */
  lemma LongerHasColon(r: HttpRequest, s: HttpRequest)
    requires Target(r) == Target(s) && |s.proto| < |r.proto|
    ensures !PlainProto(r)
  {
    var t, k := Target(r), |r.proto| - |s.proto| - 1;
    assert t[|s.url|] == COLON && t[|s.url|] == r.proto[k];
  }

  /** With plain headers, keys are equal exactly for the same kind of method, address, header and body digest. */
  lemma PlainKeyExactly(sha256: Bytes -> Bytes, r: HttpRequest, s: HttpRequest)
    requires |sha256(r.body)| == |sha256(s.body)| && PlainProto(r) && PlainProto(s)
    ensures Key(sha256, r) == Key(sha256, s) <==>
      && (IsGet(r) <==> IsGet(s)) && r.url == s.url && r.proto == s.proto
      && (!IsGet(r) ==> sha256(r.body) == sha256(s.body))
  {
    KeyExactly(sha256, r, s);
    if Target(r) == Target(s) {
      if |s.proto| < |r.proto| { LongerHasColon(r, s); }
      if |r.proto| < |s.proto| { LongerHasColon(s, r); }
      TargetExactly(r, s);
    }
  }

  /** Otherwise part of the address can pass for part of the header: the key does not tell these two apart. */
  lemma SharedKeyExample(sha256: Bytes -> Bytes, r: HttpRequest, c: Bytes)
    ensures
      var a, b := r.(proto := c + [COLON]), r.(url := r.url + [COLON] + c, proto := []);
      Key(sha256, a) == Key(sha256, b) && Classify(a) == Classify(b) && a.url != b.url && a.proto != b.proto
  {
    var a, b := r.(proto := c + [COLON]), r.(url := r.url + [COLON] + c, proto := []);
    assert Ascii(":") == [COLON];
    assert Target(a) == Target(b);
    KeyExactly(sha256, a, b);
    assert |a.url| != |b.url| && |a.proto| != |b.proto|;
  }

  // ----- What is sent upstream -----

  /** The store's commits in sorted order; there is only one such list. */
  ghost predicate KnownList(v: View, known: seq<Bytes>) {
    Sorting.Ascending(known) && forall o :: o in known <==> o in v.commits
  }

  /** A fetch that parses, on a store that knows some commit. */
  ghost predicate Augmentable(v: View, req: HttpRequest) {
    Classify(req) == UploadPackFetch && ParseFetch(req.body).Some? && v.commits != map[]
  }

  /** The same wants and version, with the known commits behind the client's haves. */
  function Augmented(body: Bytes, known: seq<Bytes>): (fwd: Bytes)
    requires ParseFetch(body).Some?
  {
    var q := ParseFetch(body).value;
    EncodeAll(RequestPkts(q.wants, AddAll(AddAll([], q.haves), known), q.isV2))
  }

  ghost predicate Augments(v: View, body: Bytes, known: seq<Bytes>, fwd: Bytes)
    requires ParseFetch(body).Some?
  {
    KnownList(v, known) && fwd == Augmented(body, known)
  }

  /** The body sent upstream: the client's, or the augmented one exactly when the request is augmentable. */
  ghost predicate Forwarded(v: View, req: HttpRequest, fwd: Bytes) {
    if Augmentable(v, req) then exists known :: Augments(v, req.body, known, fwd) else fwd == req.body
  }

  /** Upstream reads the augmented body as the same request with exactly the store's commits added to the haves. */
  lemma AugmentedParses(z: Codec, objects: map<Oid, RawObject>, v: View, body: Bytes, known: seq<Bytes>)
    requires ValidCodec(z) && Keyed(z, objects) && v.commits.Keys <= objects.Keys
    requires ParseFetch(body).Some? && KnownList(v, known)
    ensures
      var q, p := ParseFetch(body).value, ParseFetch(Augmented(body, known));
      && p.Some? && p.value.wants == q.wants && p.value.isV2 == q.isV2 && p.value.done
      && NoDup(p.value.haves) && forall h :: h in p.value.haves <==> h in q.haves || h in v.commits
  {
    var q := ParseFetch(body).value;
    AcceptedHex(body);
    DistinctKept(q.wants);
    DistinctKept(q.haves);
    var haves := AddAll(q.haves, known);
    AddAllSet(q.haves, known);
    forall i | 0 <= i < |haves| ensures IsHexOid(haves[i]) {
      assert haves[i] in haves;
      if haves[i] !in q.haves {
        assert KeyedAt(z, objects, haves[i]);
        HashIsHex(z, objects[haves[i]]);
      }
    }
    DistinctRoundTrip(q.wants, haves, q.isV2);
  }

  lemma HashIsHex(z: Codec, o: RawObject)
    requires ValidCodec(z) && o == Object(z, o.kind, o.data)
    ensures IsHexOid(o.oid)
  {
    HexIsHex(z.sha1(Preimage(o.kind, o.data)));
  }

  lemma {:induction false} HexIsHex(b: Bytes)
    ensures forall i :: 0 <= i < |Hex(b)| ==> IsHex(Hex(b)[i])
  {
    if b != [] { HexIsHex(b[..|b| - 1]); }
  }

  method CombineHaves(haves: seq<Bytes>, known: seq<Bytes>) returns (all: seq<Bytes>)
    ensures all == AddAll(AddAll([], haves), known)
  {
    all := AddEach([], haves);
    all := AddEach(all, known);
  }

  method AddEach(xs: seq<Bytes>, ys: seq<Bytes>) returns (r: seq<Bytes>)
    ensures r == AddAll(xs, ys)
  {
    r := xs;
    assert ys[0..] == ys;
    for i := 0 to |ys|
      invariant AddAll(xs, ys) == AddAll(r, ys[i..])
    {
      assert ys[i..][0] == ys[i] && ys[i..][1..] == ys[i + 1..];
      if ys[i] !in r {
        r := r + [ys[i]];
      }
    }
  }

  /** The body for upstream. */
  method AugmentBody(store: Store, req: HttpRequest) returns (fwd: Bytes)
    ensures Forwarded(store.AsView(), req, fwd)
  {
    fwd := req.body;
    if Classify(req) == UploadPackFetch {
      var parsed := ParseFetchRequest(req.body);
      if parsed.Some? && |parsed.value.wants| > 0 {
        var known := store.GetKnownCommits();
        if |known| > 0 {
          assert known[0] in store.commits;
          var haves := CombineHaves(parsed.value.haves, known);
          fwd := BuildUpstreamFetchRequest(parsed.value.wants, haves, parsed.value.isV2);
          assert Augments(store.AsView(), req.body, known, fwd);
        } else {
          assert forall o :: o in store.commits ==> o in known;
        }
      } else if parsed.Some? {
        AcceptedHex(req.body);
      }
    }
  }

  // ----- Upstream's answer -----

  /** The pack in an answer, if any, collides with nothing in the store. */
  ghost predicate NoCollision(z: Codec, objects: map<Oid, RawObject>, up: Upstream) {
    up.Answer? && Extract(up.resp.body).Some? && ParsePack(z, Extract(up.resp.body).value, objects).Some? ==>
      Fresh(objects, ParsePack(z, Extract(up.resp.body).value, objects).value)
  }

  function Ingested(z: Codec, objects: map<Oid, RawObject>, body: Bytes): (r: map<Oid, RawObject>) {
    if Extract(body).None? then objects
    else
      match ParsePack(z, Extract(body).value, objects)
      case None => objects
      case Some(objs) => StoreAll(objects, objs)
  }

  /** Reading the pack of the answer panics. */
  predicate AnswerPanics(z: Codec, objects: map<Oid, RawObject>, body: Bytes) {
    Extract(body).Some? && ParsePanics(z, Extract(body).value, objects)
  }

  /** Ingest the pack of an answer; a body without a readable pack changes nothing. */
  method IngestAnswer(store: Store, resp: Response) returns (panicked: bool)
    requires store.Valid() && NoCollision(store.z, store.objects, Answer(resp, true))
    modifies store
    ensures store.Valid() && panicked == old(AnswerPanics(store.z, store.objects, resp.body))
    ensures store.objects == Ingested(store.z, old(store.objects), resp.body)
  {
    var pack := ExtractPackfileFromResponse(resp.body);
    panicked := false;
    if pack.Some? {
      var _, stop := store.IngestPackfile(pack.value);
      panicked := stop;
    }
  }

  /** The proxy reads the whole answer and acts on it: a complete 200 to a cacheable request. */
  predicate Keeps(caching: bool, req: HttpRequest, answer: Upstream) {
    caching && IsCacheable(Classify(req)) && answer.Answer? && answer.resp.status == 200 && answer.complete
  }

  /** A reply built from this view of a store, which serves the request. */
  ghost predicate StoreReply(z: Codec, v: View, body: Bytes, reply: Reply) {
    reply.FromStore? && Serves(v, body) && exists objs :: Carries(z, v, body, objs, reply.body)
  }

  /** Replies to an answer that is not kept: it is passed on, unless its end could not be read. */
  function PassedOn(caching: bool, req: HttpRequest, answer: Upstream): (r: Reply)
    requires answer.Answer?
  {
    if caching && IsCacheable(Classify(req)) && answer.resp.status == 200 then Failed(502)
    else FromUpstream(answer.resp)
  }

  /** Which reply a request gets after upstream's answer, given the store after ingestion. */
  ghost predicate Settled(z: Codec, caching: bool, req: HttpRequest, fwd: Bytes, answer: Upstream,
                          before: map<Oid, RawObject>, after: View, reply: Reply)
    requires answer.Answer?
  {
    if !Keeps(caching, req, answer) then reply == PassedOn(caching, req, answer)
    else if Classify(req) != UploadPackFetch then reply == FromUpstream(answer.resp)
    else if AnswerPanics(z, before, answer.resp.body) then reply == Aborted
    else if fwd == req.body then reply == FromUpstream(answer.resp)
    else if Serves(after, req.body) then StoreReply(z, after, req.body, reply)
    else reply == Failed(502)
  }

  /**
   A passed-on answer is the answer to the client's own request unless haves were added and either caching is off or
   the status is not 200: exactly then the client gets an answer to the augmented request as it came.
   */
  lemma PassedOnExactly(z: Codec, caching: bool, req: HttpRequest, fwd: Bytes, answer: Upstream,
      before: map<Oid, RawObject>, after: View, reply: Reply)
    requires answer.Answer? && Settled(z, caching, req, fwd, answer, before, after, reply)
    requires fwd != req.body && Classify(req) == UploadPackFetch
    ensures reply == FromUpstream(answer.resp) <==> !caching || answer.resp.status != 200
    ensures reply.FromUpstream? ==> reply.resp == answer.resp
  {
  }

  /** The stored objects after the answer. */
  function StoredAfter(z: Codec, caching: bool, req: HttpRequest, answer: Upstream, before: map<Oid, RawObject>)
    : (r: map<Oid, RawObject>)
    requires answer.Answer?
  {
    if Keeps(caching, req, answer) && Classify(req) == UploadPackFetch then Ingested(z, before, answer.resp.body)
    else before
  }

  /** The answer goes into the response cache. */
  predicate Caches(
    z: Codec, caching: bool, req: HttpRequest, fwd: Bytes, answer: Upstream, before: map<Oid, RawObject>)
  {
    && Keeps(caching, req, answer) && fwd == req.body
    && !(Classify(req) == UploadPackFetch && AnswerPanics(z, before, answer.resp.body))
  }

  class Server {
    const sha256: Bytes -> Bytes
    const caching: bool // a response cache with a positive TTL is configured
    var cache: map<Bytes, Response>
    ghost var log: seq<Exchange>

    /** Over every run: each cached response is the genuine answer to a request with its key. */
    ghost predicate Valid()
      reads this
    {
      AllProven(sha256, log, cache)
    }

    constructor (sha256: Bytes -> Bytes, caching: bool)
      ensures Valid() && this.sha256 == sha256 && this.caching == caching && cache == map[] && log == []
    {
      this.sha256, this.caching := sha256, caching;
      cache, log := map[], [];
    }

    /** The response cache may lose entries at any time. */
    method Evict(k: Bytes)
      requires Valid()
      modifies this`cache
      ensures Valid() && cache == old(cache) - {k}
    {
      cache := cache - {k};
      forall j | j in cache ensures Proven(sha256, log, j, cache[j]) {
        assert j in old(cache);
      }
    }

    /** The store can answer the request. */
    ghost predicate StoreHit(v: View, req: HttpRequest) {
      Classify(req) == UploadPackFetch && Serves(v, req.body)
    }

    /** The response cache can, given whether its entry decodes. */
    predicate CacheHit(req: HttpRequest, decodes: bool)
      reads this
    {
      IsCacheable(Classify(req)) && caching && Key(sha256, req) in cache && decodes
    }

    /** Answer without asking upstream: from the store, or else from the response cache. */
    method TryLocal(req: HttpRequest, store: Store, decodes: bool) returns (r: Option<Reply>)
      requires Valid() && store.Valid()
      ensures r.Some? <==> StoreHit(store.AsView(), req) || CacheHit(req, decodes)
      ensures StoreHit(store.AsView(), req) ==> StoreReply(store.z, store.AsView(), req.body, r.value)
      ensures !StoreHit(store.AsView(), req) && CacheHit(req, decodes) ==> r == Some(FromCache(cache[Key(sha256, req)]))
    {
      var kind := Classify(req);
      if kind == UploadPackFetch {
        var hit, objs := BuildFetchFromStore(store, req.body);
        if hit.Some? {
          assert Carries(store.z, store.AsView(), req.body, objs, hit.value);
          return Some(FromStore(hit.value));
        }
      }
      var cacheable := IsCacheable(kind) && caching;
      var key := Key(sha256, req);
      if cacheable && key in cache && decodes {
        return Some(FromCache(cache[key]));
      }
      return None;
    }

    /** Ingest a kept answer to a fetch; a reply if it ends here, None if the answer itself is passed on. */
    method KeepFetch(req: HttpRequest, store: Store, fwd: Bytes, resp: Response) returns (r: Option<Reply>)
      requires store.Valid() && NoCollision(store.z, store.objects, Answer(resp, true))
      modifies store
      ensures store.Valid() && store.objects == Ingested(store.z, old(store.objects), resp.body)
      ensures
        if AnswerPanics(store.z, old(store.objects), resp.body) then r == Some(Aborted)
        else if fwd == req.body then r == None
        else if Serves(store.AsView(), req.body) then r.Some? && StoreReply(store.z, store.AsView(), req.body, r.value)
        else r == Some(Failed(502))
    {
      var panicked := IngestAnswer(store, resp);
      if panicked {
        return Some(Aborted);
      }
      if fwd == req.body {
        return None;
      }
      var reply := Assisted(store, req);
      return Some(reply);
    }

    /** What follows upstream's answer. */
    method Finish(req: HttpRequest, store: Store, fwd: Bytes, answer: Upstream, encodes: bool) returns (reply: Reply)
      requires Valid() && store.Valid() && answer.Answer? && NoCollision(store.z, store.objects, answer)
      requires fwd == req.body || Classify(req) == UploadPackFetch
      modifies this, store
      ensures Valid() && store.Valid() && log == old(log) + [Exchange(req, fwd, answer.resp)]
      ensures store.objects == StoredAfter(store.z, caching, req, answer, old(store.objects))
      ensures cache ==
        if encodes && Caches(store.z, caching, req, fwd, answer, old(store.objects))
        then old(cache)[Key(sha256, req) := answer.resp] else old(cache)
      ensures Settled(store.z, caching, req, fwd, answer, old(store.objects), store.AsView(), reply)
    {
      var resp := answer.resp;
      ghost var e := Exchange(req, fwd, resp);
      ProvenLater(sha256, log, cache, e);
      ghost var before := log;
      log := log + [e];
      if IsCacheable(Classify(req)) && caching && resp.status == 200 {
        if !answer.complete {
          return Failed(502);
        }
        if Classify(req) == UploadPackFetch {
          var early := KeepFetch(req, store, fwd, resp);
          if early.Some? {
            return early.value;
          }
        }
        if encodes {
          StoreProven(sha256, before, cache, e);
          cache := cache[Key(sha256, req) := resp];
        }
      }
      return FromUpstream(resp);
    }

    /** The reply to a request that was sent upstream with extra haves: from the store, or a failure. */
    method Assisted(store: Store, req: HttpRequest) returns (reply: Reply)
      requires store.Valid()
      ensures if Serves(store.AsView(), req.body) then StoreReply(store.z, store.AsView(), req.body, reply)
        else reply == Failed(502)
    {
      var served, objs := BuildFetchFromStore(store, req.body);
      if served.None? {
        return Failed(502);
      }
      assert Carries(store.z, store.AsView(), req.body, objs, served.value);
      return FromStore(served.value);
    }

    /**
     One request, given the store of its repository and upstream's behaviour.  `decodes`
     and `encodes` say whether a cache entry can be decoded and encoded; `fwd` is the body
     sent upstream, if anything is.
     */
    method ServeHTTP(req: HttpRequest, store: Store, up: Bytes -> Upstream, decodes: bool, encodes: bool)
      returns (reply: Reply, ghost fwd: Bytes)
      requires Valid() && store.Valid() && forall b :: NoCollision(store.z, store.objects, up(b))
      modifies this, store
      ensures Valid() && store.Valid()
      // Answered locally, or upstream not reached: nothing changes.
      ensures old(StoreHit(store.AsView(), req) || CacheHit(req, decodes)) || up(fwd).Unreachable? ==>
        log == old(log) && cache == old(cache) && store.objects == old(store.objects)
      ensures old(StoreHit(store.AsView(), req)) ==> StoreReply(store.z, old(store.AsView()), req.body, reply)
      // A replayed response is upstream's genuine answer to a request with the same key.
      ensures old(!StoreHit(store.AsView(), req) && CacheHit(req, decodes)) ==>
        reply == FromCache(old(cache)[Key(sha256, req)]) && Proven(sha256, log, Key(sha256, req), reply.resp)
      // Otherwise upstream is asked, with the store's commits as further haves if that applies.
      ensures old(!StoreHit(store.AsView(), req) && !CacheHit(req, decodes)) ==>
        Forwarded(old(store.AsView()), req, fwd) && (up(fwd).Unreachable? ==> reply == Failed(502))
      ensures old(!StoreHit(store.AsView(), req) && !CacheHit(req, decodes)) && up(fwd).Answer? ==>
        && log == old(log) + [Exchange(req, fwd, up(fwd).resp)]
        && store.objects == StoredAfter(store.z, caching, req, up(fwd), old(store.objects))
        && cache == (if encodes && Caches(store.z, caching, req, fwd, up(fwd), old(store.objects))
                     then old(cache)[Key(sha256, req) := up(fwd).resp] else old(cache))
        && Settled(store.z, caching, req, fwd, up(fwd), old(store.objects), store.AsView(), reply)
    {
      var local := TryLocal(req, store, decodes);
      if local.Some? {
        return local.value, [];
      }
      var body := AugmentBody(store, req);
      fwd := body;
      var answer := up(body);
      if answer.Unreachable? {
        return Failed(502), body;
      }
      reply := Finish(req, store, body, answer, encodes);
    }
  }

  /**
   A replay answers a cacheable request that was forwarded unchanged, of the same kind of method, joined target and
   body digest; with plain headers, of the same address and header.
   */
  lemma ReplayMatches(sha256: Bytes -> Bytes, log: seq<Exchange>, req: HttpRequest, resp: Response) returns (i: nat)
    requires Proven(sha256, log, Key(sha256, req), resp) && forall x :: |sha256(x)| == 32
    ensures i < |log| && log[i].resp == resp && resp.status == 200 && log[i].forwarded == log[i].req.body
    ensures IsCacheable(Classify(log[i].req)) && (IsGet(req) <==> IsGet(log[i].req))
    ensures !IsGet(req) ==> sha256(req.body) == sha256(log[i].forwarded)
    ensures Target(req) == Target(log[i].req)
    ensures PlainProto(req) && PlainProto(log[i].req) ==> log[i].req.url == req.url && log[i].req.proto == req.proto
  {
    var k :| 0 <= k < |log| && Genuine(sha256, log[k], Key(sha256, req), resp);
    KeyExactly(sha256, req, log[k].req);
    if PlainProto(req) && PlainProto(log[k].req) { PlainKeyExactly(sha256, req, log[k].req); }
    i := k;
  }
}
