# Verified models of service-portals

This project models the parts of service-portals with the most state and arithmetic, and proves what they
promise for every input and every run. Nothing here executes the original programs: the models are Dafny
functions, methods and classes, and the results are checked by the Dafny verifier
(`dafny verify dfyconfig.toml`).

The four components and their main results:

- **The caching Git proxy** (`pkg/gitproxy`). Varint codecs and delta programs have exact meanings. Multi-pass
  delta resolution equals a recursive definition exactly within its pass bound (`DeltaResolution.ResolveExact`).
  Written packs and sideband responses read back. Pruning is the exact set difference on arbitrary commit graphs,
  and a client that unpacks a reply built from a closed store holds everything reachable from its wants
  (`FetchReply.FetchAndUnpack`). Every response in the response cache is a genuine upstream answer
  (`GitServer.Server.ServeHTTP`), and which reply a request gets is determined in every case.
  Over whole runs every reply made from the store completes its client (`ServerRuns.ServeRun`).
- **The pod map and the router's admission** (`pkg/portals`). The two indexes agree after every event sequence,
  and a caller is admitted exactly while a grant that permits the request stands in the event history
  (`Admission.AdmitsHistory`).
- **Packet filter rules** (`cmd/portal-nri-plugin`, `images/init-service-portals`). After any run of installs and
  cleanups the node's tables are the original ones plus what is installed, with an exact verdict for every packet;
  the in-pod script has an exact verdict for every packet and every configuration list.
- **The caches** (`pkg/cache`). Sweeping the in-memory cache is invisible; a hit in the disk cache is the latest
  successful Put in every interleaving of its file operations.

## How to read the model

- Go strings and byte slices are sequences of bytes; machine arithmetic that can wrap (32-bit copy bounds, 64-bit
  sizes and offsets) is written out.
- zlib, SHA-1 and SHA-256 are function values. `Packfile.ValidCodec` is the contract assumed of zlib and
  `PackParser.FramedValid` shows that it can be met. Freedom from hash collisions is assumed only of the finite
  set of objects at hand. The largest slice the Go runtime allocates is a parameter; asking for more panics, and
  panics are told from errors all the way to the reply.
- Exactly `size` bytes of a zlib stream are read, never its end. A payload is `Drained` when that leaves the
  cursor after the stream. A built pack scans back to its entries if and only if every payload but the last is
  drained (`Packfile.ScanBuildExactly`, with `PackParser.UndrainedExample`). For the parsed objects only the
  sufficient direction is stated (`PackParser.BuildParse`): parsing forgets the offsets, and nothing in the contract of
  the codec keeps a misplaced cursor from meeting bytes that parse alike.
- A closed store is a hypothesis about the packs that were ingested: the comment on `HasCommit` promises that all a
  present commit reaches is cached, but the code tests key presence only, and the model follows the code.
  `Completeness.CachedExactly` says exactly when the promise holds, `RepoStore.UncachedExample` shows it failing, and
  `RepoStore.RunKeeps` gives the condition on packs under which a store stays closed. Links to objects outside the
  repository are a parameter.
- Iteration over Go maps is in arbitrary order in the model.
- Some claims of the design hold only under a condition, which is proved exact: re-registering or synchronizing pods
  keeps every IP resolving if and only if, for lists of distinct UIDs, no pod takes an IP that another pod still lists
  (`PodState.ResolvedStep`, with `PodState.ReusedIPExample`); a delta whose sizes parse and match its base panics if
  and only if its target cannot be allocated or a copy it reaches wraps in 32 bits (`Delta.ApplyPanics`, with
  `Delta.WrapExample` and `Delta.AllocationExample`); a value put into the disk cache lasts for its TTL if and only if
  no delayed remove of its key is pending (`DiskCache.PutLastsExactly`, with `DiskCache.SpuriousMiss`); and equal cache
  keys mean equal URLs if and only if the protocol headers are equally long, as they are when neither holds a colon
  (`GitServer.TargetExactly`, `GitServer.PlainKeyExactly`, with `GitServer.SharedKeyExample`).
- The packet filter model knows the commands the plugin issues, the failures it tolerates, and first-match
  traversal with jumps. How a textual address or port specification matches is a parameter of every claim.

## Model

| member | source | states |
|---|---|---|
| `Varint.ReadObjectHeader` | pkg/gitproxy/packfile.go:212-228 | the loop returns the type, the size modulo 2^64 and the position after the header, or fails at the end of the data, as `DecodeHeader` defines it by 7-bit groups |
| `Varint.WriteObjectHeader` | pkg/gitproxy/packfile.go:531-547 | the loop emits the canonical 4+7-bit header `EncodeHeader` |
| `Varint.HeaderRoundTrip` | pkg/gitproxy/packfile.go:212-228 | decoding the written header gives back the type and size, for every 64-bit size and any surrounding bytes |
| `Varint.ReadLEB128` | pkg/gitproxy/packfile.go:499-513 | value modulo 2^64 and exact byte count of the leading LEB128 number |
| `Varint.LebRoundTrip` | pkg/gitproxy/packfile.go:499-513 | reading the minimal LEB128 form of any value below 2^64 gives the value and its exact length, whatever follows |
| `Varint.ReadOfs` | pkg/gitproxy/packfile.go:236-251 | the biased offset loop computes `DecodeOfs`, or fails at the end of the data |
| `Varint.DecodeOfsValue` | pkg/gitproxy/packfile.go:236-251 | on a well-formed encoding of up to nine bytes the decoder returns the mathematical value without wrap-around |
| `Varint.OfsRoundTrip` | pkg/gitproxy/packfile.go:236-251 | decoding the biased encoding of an offset that fits nine bytes gives it back |
| `Varint.OfsCanonical` | pkg/gitproxy/packfile.go:236-251 | every well-formed encoding is the encoding of its own value: the format has no redundant forms |
| `Varint.OfsInjective` | pkg/gitproxy/packfile.go:236-251 | two encodings of up to nine bytes that decode alike are equal |
| `Delta.ApplyDelta` | pkg/gitproxy/packfile.go:380-497 | the in-place loop over the target buffer returns what the functional machine `Apply` returns: the target, a rejection, or a panic of the allocation or of a slice |
| `Delta.RunProgram` | pkg/gitproxy/packfile.go:405-490 | the instruction loop, with its position and target cursor, runs the program over an array of exactly targetSize bytes |
| `Delta.ReadOp` | pkg/gitproxy/packfile.go:407-489 | one instruction read from the cursor: a copy, an insert, or None for a reserved or truncated one |
| `Delta.ReadCopy` | pkg/gitproxy/packfile.go:410-468 | the seven flagged bytes are taken in order, missing ones counting as zero, a truncated one failing, and a zero length meaning 65536 |
| `Delta.CopyInto` | pkg/gitproxy/packfile.go:475-486 | copying a piece changes exactly its stretch of the target |
| `Delta.ApplyMeaning` | pkg/gitproxy/packfile.go:380-497 | success with t holds if and only if the sizes match and can be allocated, the program parses, its copies stay below 2^32 and its denotation over the base, the concatenation of base slices and literals, is t |
| `Delta.ApplyPanics` | pkg/gitproxy/packfile.go:403-475 | the code panics if and only if both sizes parse, the base size matches, and the announced target is more than the runtime allocates or the first instruction that fails its bounds is a copy whose 32-bit offset+length wrapped past the check |
| `Delta.WrapExample` | pkg/gitproxy/packfile.go:470-470 | a concrete delta whose copy wraps in 32 bits and panics instead of being rejected |
| `Delta.AllocationExample` | pkg/gitproxy/packfile.go:403-403 | an empty program that announces one byte more than can be allocated panics |
| `Delta.SafeApply` | pkg/gitproxy/packfile.go:380-497 | with 32-bit-safe copies and a target that can be allocated the result is an error or exactly targetSize bytes, never a panic |
| `Delta.OpsRoundTrip` | pkg/gitproxy/packfile.go:405-490 | decoding any encoded operation list gives the list back |
| `Delta.ApplyEncoded` | pkg/gitproxy/packfile.go:380-497 | encoding any encodable operation list and applying it yields its denotation |
| `Packfile.TypeName` | pkg/gitproxy/packfile.go:56-70 | a type name contains neither a space nor NUL, so the hashed header splits in only one way |
| `Packfile.PreimageInjective` | pkg/gitproxy/packfile.go:46-54 | the hashed text determines type and payload, so a hash collision is the only way two objects share an id |
| `Packfile.OidInjective` | pkg/gitproxy/packfile.go:46-54 | on a collision-free set of objects equal ids mean equal objects |
| `Packfile.ReadEntry` | pkg/gitproxy/packfile.go:207-285 | one entry: header, base offset or base id, inflated payload and next position, or a parse error, or the panic of an announced size that cannot be allocated |
| `Packfile.ScanPackfile` | pkg/gitproxy/packfile.go:188-285 | signature, version and room for the trailer, then all entries in order; a panic, of an entry or of allocating the entries, is told from an error |
| `Packfile.ScanAscending` | pkg/gitproxy/packfile.go:207-285 | entry offsets are strictly increasing |
| `Packfile.BuildPackfile` | pkg/gitproxy/packfile.go:515-573 | header, one entry per object in order, and the SHA-1 trailer |
| `Packfile.ScanWrittenEntry` | pkg/gitproxy/packfile.go:207-285 | an entry written anywhere in a pack is read back with its type, size and payload, and the cursor advances by the header and the bytes the stream gave up |
| `Packfile.ScanBuildExactly` | pkg/gitproxy/packfile.go:515-573 | scanning a built pack yields the written entries at their offsets, one per object with its type and payload in order, if and only if every payload but the last is drained |
| `DeltaResolution.RegisterWholes` | pkg/gitproxy/packfile.go:291-303 | the first loop indexes the whole objects by offset and id |
| `DeltaResolution.VisitEntry` | pkg/gitproxy/packfile.go:309-358 | one delta entry in a pass: resolved already, base found by offset or id in the pack or the store, or left for later; a failing delta is an error, a panicking one a panic |
| `DeltaResolution.RunPass` | pkg/gitproxy/packfile.go:307-358 | one pass, and whether it made progress |
| `DeltaResolution.RunPasses` | pkg/gitproxy/packfile.go:305-366 | at most 50 passes with the exits when a pass makes no progress or all is resolved; an error or panic ends them |
| `DeltaResolution.CollectObjects` | pkg/gitproxy/packfile.go:372-377 | the resolved objects in pack order |
| `DeltaResolution.ResolveDeltas` | pkg/gitproxy/packfile.go:287-378 | the loops together compute `Resolve` |
| `DeltaResolution.Counted` | pkg/gitproxy/packfile.go:368-370 | the count comparison holds exactly when every entry is resolved |
| `DeltaResolution.ResolveComplete` | pkg/gitproxy/packfile.go:287-378 | if a recursive solution exists, ids are unambiguous and every chain has fewer than 50 late links, the loop finds exactly that solution in pack order; stopping when a pass makes no progress never loses an entry |
| `DeltaResolution.ResolveSound` | pkg/gitproxy/packfile.go:287-378 | whatever the loop returns is a recursive solution whose chains have fewer than 50 late links |
| `DeltaResolution.ResolveExact` | pkg/gitproxy/packfile.go:287-378 | for unambiguous ids the loop returns objs if and only if objs is a recursive solution within the pass bound |
| `DeltaResolution.OffsetOnlyOnePass` | pkg/gitproxy/packfile.go:305-366 | a pack with only offset deltas is complete after one pass, whatever its ids |
| `DeltaResolution.ResolveWholes` | pkg/gitproxy/packfile.go:291-303 | a pack without deltas is returned as it is |
| `PackParser.ParsePackfileWithBase` | pkg/gitproxy/packfile.go:186-378 | scan and resolution composed, with the store as extra bases; objects, an error or a panic |
| `PackParser.SafePack` | pkg/gitproxy/packfile.go:186-378 | a scanned pack whose deltas are 32-bit safe and announce targets that can be allocated never panics |
| `PackParser.BuildParse` | pkg/gitproxy/packfile.go:515-573 | parsing a built pack returns the same types and payloads in order, each with its computed id |
| `PackParser.BuildParseSame` | pkg/gitproxy/packfile.go:515-573 | for objects that carry their own id the round trip is the identity |
| `PackParser.ParsedNamed` | pkg/gitproxy/packfile.go:291-366 | every parsed object carries the id computed from its type and payload |
| `PackParser.ParsedWhole` | pkg/gitproxy/packfile.go:291-366 | every parsed object has the type of a whole object when its bases do |
| `PackParser.SeparatedByHash` | pkg/gitproxy/packfile.go:291-366 | collision freedom makes ids unambiguous in the sense delta resolution needs |
| `PackParser.FramedValid` | pkg/gitproxy/packfile.go:260-283 | a concrete codec meets the stated zlib contract |
| `PackParser.UndrainedExample` | pkg/gitproxy/packfile.go:270-281 | for a stand-in codec that meets the contract: an empty payload leaves the cursor before the end of its stream, and the following entry is misread |
| `GitObjects.ParseCommitObject` | pkg/gitproxy/packfile.go:97-124 | tree, parents in order, author and message |
| `GitObjects.CommitRoundTrip` | pkg/gitproxy/packfile.go:97-124 | a written commit parses back to its tree, parents, author and message whatever the other headers |
| `GitObjects.ParseTreeEntries` | pkg/gitproxy/packfile.go:126-144 | the ids of the entries in order, stopping at a truncated one |
| `GitObjects.TreeRoundTrip` | pkg/gitproxy/packfile.go:126-144 | a written tree parses back to the ids of its entries |
| `PktLine.Write` | pkg/gitproxy/packfile.go:677-688 | appending one data, flush or delimiter packet |
| `PktLine.ParsePktLines` | pkg/gitproxy/protocol.go:128-162 | the cursor loop returns the payloads `Lines` defines, skipping special packets and stopping at a malformed one |
| `PktLine.HexLength` | pkg/gitproxy/packfile.go:677-688 | the four-digit length parses back with either of the two readers |
| `PktLine.FramePkt` | pkg/gitproxy/protocol.go:128-162 | a packet of at most 65531 payload bytes is cut off exactly, whatever follows |
| `PktLine.LinesRoundTrip` | pkg/gitproxy/protocol.go:128-162 | any list of such packets with interleaved flush and delimiter packets parses back to its payloads |
| `Sideband.ExtractPackfileFromResponse` | pkg/gitproxy/packfile.go:575-627 | raw pack, channel-one concatenation, or the search for the signature, in that order |
| `Sideband.ReadBand` | pkg/gitproxy/packfile.go:583-610 | the loop collects channel one and skips progress and control packets |
| `Sideband.FormatSidebandPackfile` | pkg/gitproxy/packfile.go:629-675 | acknowledgments, then channel-one packets of at most 65515 pack bytes, then a flush |
| `Sideband.PacketBound` | pkg/gitproxy/packfile.go:629-675 | every emitted packet is at most 65520 bytes |
| `Sideband.SidebandRoundTrip` | pkg/gitproxy/packfile.go:575-675 | extracting from a formatted response returns the pack, for every non-empty pack of any length, either version and any acks whose packet stays within 65520 bytes |
| `Sideband.SidebandExact` | pkg/gitproxy/packfile.go:575-675 | for hexadecimal acks an empty pack is not found and every other pack is returned |
| `FetchRequest.ParseFetchRequest` | pkg/gitproxy/protocol.go:172-232 | strict parse: first-seen wants and haves, version and done, or a rejection |
| `FetchRequest.InterpretLine` | pkg/gitproxy/protocol.go:184-225 | one request line and the state it leaves |
| `FetchRequest.CheckCapabilities` | pkg/gitproxy/protocol.go:203-207 | accepted exactly when every capability is recognised |
| `FetchRequest.AcceptedHex` | pkg/gitproxy/protocol.go:172-245 | an accepted request has at least one want, and its ids are hexadecimal of length 40 or 64, none twice |
| `FetchRequest.BuildUpstreamFetchRequest` | pkg/gitproxy/protocol.go:278-310 | the packets of either protocol version in order |
| `FetchRequest.RequestRoundTrip` | pkg/gitproxy/protocol.go:172-310 | parsing a built request returns the wants and haves without repetitions, the version and done |
| `FetchRequest.DistinctRoundTrip` | pkg/gitproxy/protocol.go:172-310 | for distinct ids the round trip returns the same lists |
| `Reach.Walk` | pkg/gitproxy/repocache.go:185-229 | breadth-first search terminates on any graph, cycles included, and visits a set closed under unblocked successors |
| `Reach.WalkExact` | pkg/gitproxy/repocache.go:185-204 | without blocked vertices the visited set is exactly what is reachable |
| `Reach.WalkPrunes` | pkg/gitproxy/repocache.go:206-229 | blocked by a closed set, the search visits exactly what is reachable minus that set |
| `RepoIndex.ReachableObjects` | pkg/gitproxy/repocache.go:133-171 | a duplicate-free list of exactly the commit, its tree and what the tree reaches |
| `RepoIndex.VisitChildren` | pkg/gitproxy/repocache.go:150-168 | one tree: new children are listed once and new subtrees queued |
| `Pruning.SearchCommits` | pkg/gitproxy/repocache.go:179-229 | acknowledged haves, their ancestors, and the ancestors of the wants outside those |
| `Pruning.UnionIndex` | pkg/gitproxy/repocache.go:231-237 | the union of the indexes of the excluded commits |
| `Pruning.ListMissing` | pkg/gitproxy/repocache.go:239-261 | each object of a needed commit that no excluded commit lists, once |
| `Pruning.Gather` | pkg/gitproxy/repocache.go:263-271 | the stored objects of a list, each once |
| `Pruning.Collect` | pkg/gitproxy/repocache.go:173-272 | the result is duplicate-free and exactly the chosen objects: those of needed commits outside every excluded index, or the wants when there are none |
| `Pruning.WantedHeldOrChosen` | pkg/gitproxy/repocache.go:173-272 | every object of a commit reachable from the wants is sent or listed by an excluded commit |
| `RepoStore.Store.constructor` | pkg/gitproxy/repocache.go:35-44 | an empty, valid store |
| `RepoStore.Store.HasCommit` | pkg/gitproxy/repocache.go:46-53 | key presence; and what the comment promises, that all the commit reaches is cached, whenever stored commits and the trees under them have their references stored |
| `Completeness.CachedExactly` | pkg/gitproxy/repocache.go:46-53 | presence means everything reachable is cached, for all stored commits, if and only if each stored commit and each tree under one has its own references stored |
| `RepoStore.UncachedExample` | pkg/gitproxy/repocache.go:46-53 | an ingested pack with one commit whose tree it lacks: the commit is present and its tree is not cached |
| `RepoStore.Store.HasAllCommits` | pkg/gitproxy/repocache.go:55-69 | true exactly when every id is a stored commit |
| `RepoStore.Store.GetKnownCommits` | pkg/gitproxy/repocache.go:80-91 | every stored commit once, in sorted order |
| `Sorting.AscendingUnique` | pkg/gitproxy/repocache.go:89-89 | the sorted list of a set of ids is unique, so the known commits are determined |
| `RepoStore.Store.StoreObjects` | pkg/gitproxy/repocache.go:103-122 | the store loop: objects, commits and tree entries, and the new commit ids |
| `RepoStore.Store.IngestPackfile` | pkg/gitproxy/repocache.go:93-131 | a parsed pack is stored whole and the index rebuilt; one that fails or panics changes nothing; the invariant is kept |
| `RepoStore.Store.CollectObjectsForCommits` | pkg/gitproxy/repocache.go:173-272 | pruning applied to the store |
| `RepoStore.IndexCommits` | pkg/gitproxy/repocache.go:124-128 | every commit gets its exact index |
| `RepoStore.FreshByHash` | pkg/gitproxy/repocache.go:103-122 | collision freedom gives the no-conflict condition ingestion needs |
| `RepoStore.StoreCloses` | pkg/gitproxy/repocache.go:93-131 | storing a pack closed relative to the store keeps the store closed |
| `RepoStore.ClosedIndex` | pkg/gitproxy/repocache.go:133-171 | in a closed store every indexed object is stored |
| `RepoStore.RunKeeps` | pkg/gitproxy/repocache.go:93-131 | over every sequence of packs, each closed relative to the store it meets, the store stays keyed by computed ids and closed |
| `FetchReply.BuildFetchFromStore` | pkg/gitproxy/server.go:351-378 | served exactly when the request parses, every want is stored and something stored is chosen; the reply is the chosen objects, packed and framed |
| `FetchReply.HeldDesired` | pkg/gitproxy/repocache.go:231-237 | what pruning leaves out is reachable from the acknowledged haves |
| `FetchReply.Unpacks` | pkg/gitproxy/server.go:351-378 | extracting and parsing the reply returns the packed objects |
| `FetchReply.CarriedUnpacks` | pkg/gitproxy/server.go:351-378 | a client that unpacks the reply adds exactly the chosen objects |
| `FetchReply.DesiredWanted` | pkg/gitproxy/repocache.go:133-171 | reachability over the objects themselves is covered by commits and their indexes |
| `FetchReply.Completes` | pkg/gitproxy/server.go:351-378 | a client that holds what its acknowledged haves reach and adds the chosen objects has every stored object reachable from its wants; anything else reachable is a link |
| `FetchReply.AlwaysServes` | pkg/gitproxy/repocache.go:239-261 | a store that knows the wants always has something to send, submodules included, as long as no tree entry names a stored commit |
| `FetchReply.FetchAndUnpack` | pkg/gitproxy/server.go:351-378 | end to end: a client that holds what its acknowledged haves reach gets a reply, and after extracting, parsing and storing it holds every stored object reachable from its wants, equal to the stored one; anything else reachable is a link to another repository |
| `RequestKind.CacheableExactly` | pkg/gitproxy/protocol.go:26-95 | cacheable are exactly GETs whose path ends in a digest-named object, pack or LFS file, as the three patterns say, and POSTs to upload-pack that ask for objects; no earlier test of the classification gets in the way |
| `RequestKind.AcceptedNotLsRefs` | pkg/gitproxy/protocol.go:97-110 | a body the strict parser accepts is never classified as ls-refs |
| `GitServer.CombineHaves` | pkg/gitproxy/server.go:200-213 | client haves first, then known commits, without repetitions |
| `GitServer.AugmentBody` | pkg/gitproxy/server.go:192-217 | exactly a parsed fetch on a store with commits is augmented, with the sorted list of all stored commits behind the haves; every other body goes as it came |
| `GitServer.AugmentedParses` | pkg/gitproxy/server.go:200-214 | the augmented body parses as the same wants and version, and its haves are exactly the client's and the store's commits, none twice |
| `GitServer.KeyExactly` | pkg/gitproxy/server.go:105-112 | keys are equal if and only if both or neither is a GET, the joined texts of URL and protocol agree, and unless it is a GET the body digests agree |
| `GitServer.TargetExactly` | pkg/gitproxy/server.go:105-112 | of two requests with the same joined text, URL and protocol agree if and only if the protocol headers are equally long |
| `GitServer.PlainKeyExactly` | pkg/gitproxy/server.go:105-112 | for protocol headers without a colon, keys are equal if and only if method kind, URL, protocol and, unless it is a GET, body digest agree |
| `GitServer.SharedKeyExample` | pkg/gitproxy/server.go:105-112 | with a colon in the header two requests of the same class with different URLs and headers share a key |
| `GitServer.ReplayMatches` | pkg/gitproxy/server.go:166-190 | a replayed response was the 200 answer to a cacheable request of the same method kind, joined target and body digest, forwarded unchanged; of the same URL and protocol when neither header holds a colon |
| `GitServer.IngestAnswer` | pkg/gitproxy/server.go:273-286 | the pack of an answer is ingested; an unreadable one changes nothing; whether reading it panics |
| `GitServer.StoreProven` | pkg/gitproxy/server.go:305-318 | storing a genuine exchange keeps every cached response genuine |
| `GitServer.Server.constructor` | pkg/gitproxy/server.go:75-103 | an empty response cache |
| `GitServer.Server.Evict` | pkg/cache/cache.go:98-112 | losing cache entries at any time keeps provenance |
| `GitServer.Server.TryLocal` | pkg/gitproxy/server.go:136-190 | answered locally exactly when the store serves the request, with the chosen objects, or else when the response cache has a decodable entry, with that entry |
| `GitServer.Server.KeepFetch` | pkg/gitproxy/server.go:273-303 | the answer to a fetch is ingested; an augmented one ends in a reply from the store or a 502 |
| `GitServer.Server.Finish` | pkg/gitproxy/server.go:244-349 | what is ingested, what is stored in the response cache and which reply is sent after the answer, in every case |
| `GitServer.PassedOnExactly` | pkg/gitproxy/server.go:263-349 | when haves were added, upstream's answer is passed on as it came if and only if caching is off or the status is not 200 |
| `GitServer.Server.ServeHTTP` | pkg/gitproxy/server.go:114-349 | which reply every request gets and how store and cache change, in every case; every cached response is the unmodified 200 answer upstream gave to a cacheable request with that key forwarded unchanged, and a replay is such a response |
| `ServerRuns.ServeTurn` | pkg/gitproxy/server.go:114-349 | one request keeps a store closed when the ingested answer is closed relative to it, and a reply made from the store completes its client |
| `ServerRuns.ServeRun` | pkg/gitproxy/server.go:114-349 | over every run of requests whose answers fit the store they meet, the store stays closed and each reply made from it, unpacked, leaves its client with everything reachable from its wants |
| `PodState.AgreeRun` | pkg/portals/podmap.go:50-145 | after every event sequence an indexed IP is not empty, leads to a registered pod, and that pod lists it |
| `PodState.ResolvedAdd` | pkg/portals/podmap.go:50-74 | registering keeps every IP resolving if and only if the pod takes no IP another pod lists |
| `PodState.ResolvedStep` | pkg/portals/podmap.go:50-145 | each event keeps every IP resolving if it adds no IP of another pod still in the map, stale pods included, and only then for a list of distinct UIDs |
| `PodState.ResolvedRun` | pkg/portals/podmap.go:50-145 | along every run of such events every non-empty IP of every pod resolves to it |
| `PodState.ReusedIPExample` | pkg/portals/podmap.go:95-112 | a synchronization that gives a stale pod's IP to a new pod loses the IP |
| `PodState.LostSync` | pkg/portals/podmap.go:95-112 | an IP lost during a synchronization stays lost to its end |
| `PodState.BindRegisterCommute` | pkg/portals/podmap.go:50-133 | for a new UID binding and registering in either order give the same state, annotated or not, with the explicit binding |
| `PodState.Reregister` | pkg/portals/podmap.go:54-73 | registering again keeps the binding; exactly the new IPs resolve to the pod and the others stop resolving |
| `AddressHistory.OwnerRun` | pkg/portals/podmap.go:50-112 | after every run an IP resolves to a pod if and only if the pod's claim is the latest and no event has claimed or released the IP since |
| `BindingHistory.PresentRun` | pkg/portals/podmap.go:50-133 | the map holds exactly the UIDs introduced and not dropped since |
| `BindingHistory.BoundRun` | pkg/portals/podmap.go:50-145 | a pod is bound with b if and only if some event granted b and none since ended it, for every run |
| `BindingHistory.CleanGrants` | cmd/portal-nri-plugin/main.go:694-701 | with registrations as the plugin builds them only a Bind or an annotated first registration grants |
| `BindingHistory.CarriedBindingExample` | pkg/portals/podmap.go:54-68 | a registration that carries binding fields is bound without either |
| `PodMap.Map.constructor` | pkg/portals/podmap.go:45-48 | an empty map |
| `PodMap.Map.AddOrUpdate` | pkg/portals/podmap.go:50-74 | the in-place update refines the registration event and keeps the two indexes on the same records |
| `PodMap.Map.AddOrUpdatePod` | pkg/portals/podmap.go:76-81 | a missing record changes nothing; otherwise one registration event |
| `PodMap.Map.RemovePod` | pkg/portals/podmap.go:83-93 | one removal event |
| `PodMap.Map.AddEach` | pkg/portals/podmap.go:99-103 | the first loop adds the pods in order and collects their UIDs |
| `PodMap.Map.PruneStale` | pkg/portals/podmap.go:104-111 | the second loop, in any order, removes exactly the stale pods and all their IPs |
| `PodMap.Map.SynchronizePods` | pkg/portals/podmap.go:95-112 | one synchronization event |
| `PodMap.Map.GetPodByIP` | pkg/portals/podmap.go:114-120 | the record the events give the IP, the same object its UID leads to |
| `PodMap.Map.Bind` | pkg/portals/podmap.go:122-133 | one bind event, in place on the shared record or on a new one |
| `PodMap.Map.Unbind` | pkg/portals/podmap.go:135-145 | one unbind event; fails exactly for an unknown UID |
| `Admission.SplitTokens` | pkg/portals/podmap.go:152-152 | splitting yields exactly the stretches between commas |
| `Admission.IsRuleAllowed` | pkg/portals/podmap.go:147-159 | allowed exactly for a bound pod with a policy token that, lower-cased and trimmed, is a star, the rule or the host |
| `Admission.FindRule` | pkg/portals/rules.go:255-265 | an exact route if there is one, else one whose host is a dot-terminated prefix, else none |
| `Admission.ServeHTTP` | pkg/portals/rules.go:247-333 | forwarded exactly when there is a route or fallback and, with a pod map, the caller is admitted; each reason for denial exactly; attribution headers |
| `Admission.AdmitsHistory` | pkg/portals/rules.go:269-326 | by the events alone, a caller is admitted if and only if the pod that owns its IP has a standing grant that permits the request |
| `Admission.FailClosed` | pkg/portals/rules.go:269-326 | an admitted caller's pod is present, owns the IP, and was bound by a Bind or an annotated first registration that nothing has ended |
| `Netfilter.Kernel.RunNetfilter` | cmd/portal-nri-plugin/main.go:285-309 | commands in order up to the first failure that is not tolerated |
| `Netfilter.WalkUniform` | cmd/portal-nri-plugin/main.go:231-257 | a stretch of rules with one final target decides exactly when one of them matches |
| `HostTables.DeleteHook` | cmd/portal-nri-plugin/main.go:218-229 | deleting a jump is tolerated whether or not it is there and leaves the other jumps and original rules |
| `HostTables.InstallTable` | cmd/portal-nri-plugin/main.go:215-257 | an install never fails and leaves the original table with the jump first and the chain replaced |
| `HostTables.RunTearDown` | cmd/portal-nri-plugin/main.go:274-282 | once nothing refers to the chain, flush and delete remove it |
| `HostRuns.EventRuns` | cmd/portal-nri-plugin/main.go:206-309 | one install, reinstall or cleanup goes through and the tables reflect the new set of interfaces |
| `HostRuns.Perform` | cmd/portal-nri-plugin/main.go:285-309 | the same for the kernel tables edited in place |
| `HostRuns.HostRun` | cmd/portal-nri-plugin/main.go:206-309 | after every legal sequence each built-in chain is one jump per installed interface followed by its original rules, and nothing else changed |
| `HostRuns.CleanRunRestores` | cmd/portal-nri-plugin/main.go:270-283 | when no interface is left the tables are the original ones |
| `HostVerdict.EgressVerdict` | cmd/portal-nri-plugin/main.go:231-257 | the interface's filter chain decides every packet: accept exactly established traffic, listed control messages and the proxy's ports, else reject |
| `HostVerdict.DnatVerdict` | cmd/portal-nri-plugin/main.go:220-223 | TCP 80 and 443 and DNS are translated to the proxy, nothing else |
| `HostVerdict.FilterFromInstalled` | cmd/portal-nri-plugin/main.go:206-260 | after any run a packet from an installed interface gets that verdict from INPUT and FORWARD, whatever the original rules say |
| `HostVerdict.NatFromInstalled` | cmd/portal-nri-plugin/main.go:215-223 | translated as stated, or else left to the original rules |
| `HostVerdict.NewConnection` | cmd/portal-nri-plugin/main.go:206-260 | a new connection is accepted if and only if its target after translation or redirection, by these or the node's own rules, is the proxy on an allowed port or it is a listed control message |
| `HostVerdict.OthersUntouched` | cmd/portal-nri-plugin/main.go:206-283 | packets from other interfaces meet the original rules and nothing else |
| `EgressScript.EmitDns` | images/init-service-portals/entrypoint.sh:189-201 | two rules per name server of the family |
| `EgressScript.EmitCidrs` | images/init-service-portals/entrypoint.sh:203-212 | one rule per network of the family |
| `EgressScript.EmitPorts` | images/init-service-portals/entrypoint.sh:214-219 | one rule per TCP port word |
| `EgressScript.GenerateFilter` | images/init-service-portals/entrypoint.sh:112-231 | the rules of PORTAL_EGRESS in the order they are printed |
| `EgressScript.EgressMeaning` | images/init-service-portals/entrypoint.sh:112-231 | the verdict of the chain for every packet and every list of servers, networks and ports |
| `EgressScript.EgressDecision` | images/init-service-portals/entrypoint.sh:112-231 | a packet leaves if and only if it is permitted: TCP, UDP and ICMP if local, a control message, opted-in metadata, or listed and not metadata; other protocols unless they are blocked metadata |
| `EgressScript.GenerateNat` | images/init-service-portals/entrypoint.sh:85-110 | the rules of PORTAL_OUTPUT in order |
| `EgressScript.RedirectDecision` | images/init-service-portals/entrypoint.sh:85-110 | exactly TCP outside loopback and the proxy user is redirected: all ports, or those the first covering word names; 443 to the HTTPS listener |
| `EgressScript.EgressFlow` | images/init-service-portals/entrypoint.sh:85-231 | through both tables: a new intercepted connection is turned to the proxy and accepted, every other packet leaves unchanged if and only if it is permitted, and established connections go on wherever they were turned |
| `TtlCache.InMemoryCache.constructor` | pkg/cache/cache.go:49-60 | an empty cache |
| `TtlCache.InMemoryCache.Get` | pkg/cache/cache.go:62-77 | agrees with the timed map of the history, with or without its sweeps |
| `TtlCache.InMemoryCache.Set` | pkg/cache/cache.go:79-88 | one set in the history |
| `TtlCache.InMemoryCache.Delete` | pkg/cache/cache.go:90-96 | one delete in the history |
| `TtlCache.InMemoryCache.Sweep` | pkg/cache/cache.go:98-112 | removes exactly the expired items; the history map is unchanged |
| `DiskCache.NextInv` | pkg/cache/cache.go:144-292 | every file operation of readers, writers, the janitor and the delayed remove, and every restart, keeps the invariant |
| `DiskCache.HitsAreLatest` | pkg/cache/cache.go:144-292 | in every interleaving each hit returns the latest successful Put for its key, not deleted since, and in the same Open the reader had found the latest touch of the file within the TTL by the clock of that moment |
| `DiskCache.PresentExactly` | pkg/cache/cache.go:144-292 | a key has a file if and only if nothing deleted or removed it since its latest Put |
| `DiskCache.PutLastsExactly` | pkg/cache/cache.go:202-238 | a stored value survives every run in which it stays within the TTL and is not deleted if and only if no delayed remove of its key was pending at the Put |
| `DiskCache.StaysExactly` | pkg/cache/cache.go:144-292 | the same for any file while the lock is free |
| `DiskCache.SpuriousMiss` | pkg/cache/cache.go:156-163 | a reachable run in which the delayed remove deletes a fresh replacement |

## Left out

- zlib, SHA-1, SHA-256, gob, JSON, YAML and URL parsing are not modelled; they are function values or parameters.
- RepoStore.Store.IngestPackfile: asks that no ingested object collides with a stored one, which `RepoStore.FreshByHash` derives from collision freedom.
- Sideband.SidebandExact: asks that acknowledged ids contain no upper-case P, which hexadecimal ids never do.
- PackParser.UndrainedExample: is about a stand-in codec, because zlib itself is not modelled.
- Running out of memory below the allocation limit is not modelled.
- Text is trimmed, lower-cased and split as ASCII; other Unicode white space and letters are not modelled.
- GitServer.Server.ServeHTTP: takes the store of the request's repository as a parameter; looking it up by path, request header copying, authentication tokens and streaming are left out.
- Finding a loose object, pack or LFS path by regular expression is written out as predicates on the path in `RequestKind`.
- Admission.ServeHTTP: the host and caller address come without port and in lower case; loading rules and serving certificates are left out.
- Admission.FindRule: does not say which of several prefix routes is taken, because the source tries them in map order.
- PodMap.Map.SynchronizePods: the listed records are separate objects, as the elements of a Go slice are.
- Labels of pods are not kept, because no decision reads them.
- The missing packet filter binary, intermediate tables between the commands of one install, cleanup of an interface that is not installed, interface wildcards and limits on chain names are left out.
- EgressScript.GenerateFilter: starts from the words of each list, which the shell splits at commas and blanks; reading the resolver configuration and applying the rules is left out.
- FetchReply.FetchAndUnpack: asks that the chosen objects are drained, which an empty blob among them is not; see `PackParser.UndrainedExample`.
- ServerRuns.ServeRun: is about requests one after the other on one repository; the store's lock makes each ingest and each collection one step, but a request is not interleaved with another.
- DiskCache.HitsAreLatest: files are named by key, so a SHA-256 collision between keys is not modelled, and neither is a change of a file by another program.
- The reconciliation loop between plugin and proxy, DNS, networking helpers, LLM logging, certificates and deployment files are left out, because they are plumbing or would only add easy members.
