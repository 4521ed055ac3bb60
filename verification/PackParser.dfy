/** Parsing a pack: scanning its entries, then resolving its deltas. */
module PackParser {
  import opened Octets
  import opened Packfile
  import opened DeltaResolution
  import Delta

  function Problem(z: Codec, es: seq<Entry>, store: Store): (p: Pack) {
    Pack(es, store, (b: Bytes, d: Bytes) => Delta.Apply(z.maxAlloc, b, d), (k: Kind, d: Bytes) => Object(z, k, d))
  }

  /** The objects of a pack, or None when parsing fails or panics; an empty store stands for an absent lookup. */
  function ParsePack(z: Codec, data: Bytes, store: Store): (r: Option<seq<RawObject>>) {
    match Scan(z, data)
    case None => None
    case Some(es) => Resolve(Problem(z, es, store))
  }

  /** Parsing the pack panics, in the scanner or while applying a delta. */
  predicate ParsePanics(z: Codec, data: Bytes, store: Store) {
    ScanPanics(z, data) || (Scan(z, data).Some? && ResolvePanics(Problem(z, Scan(z, data).value, store)))
  }

  method ParsePackfileWithBase(z: Codec, data: Bytes, store: Store) returns (r: Option<seq<RawObject>>, panicked: bool)
    ensures r == ParsePack(z, data, store) && panicked == ParsePanics(z, data, store)
  {
    var entries, stop := ScanPackfile(z, data);
    if entries.None? {
      return None, stop;
    }
    ScanSafe(z, data);
    ScannedAscending(z, data);
    r, panicked := ResolveDeltas(Problem(z, entries.value, store));
  }

  lemma {:induction false} EntriesSafe(z: Codec, data: Bytes, pos: nat, n: nat)
    requires |data| >= 20 && ScanEntries(z, data, pos, n).Some?
    ensures !EntriesPanic(z, data, pos, n)
    decreases n
  {
    if n > 0 { EntriesSafe(z, data, ScanEntry(z, data, pos).value.1, n - 1); }
  }

  lemma ScanSafe(z: Codec, data: Bytes)
    requires Scan(z, data).Some?
    ensures !ScanPanics(z, data)
  {
    EntriesSafe(z, data, 12, GetU32(data[8..12]));
  }

  /** A scanned pack whose deltas ask for no more than the runtime allocates and are 32-bit safe never panics. */
  lemma SafePack(z: Codec, data: Bytes, store: Store)
    requires Scan(z, data).Some?
    requires forall e :: e in Scan(z, data).value && IsDelta(e) ==> Delta.SafeDelta(z.maxAlloc, e.data)
    ensures !ParsePanics(z, data, store)
  {
    ScanSafe(z, data);
    var p := Problem(z, Scan(z, data).value, store);
    forall b, i | 0 <= i < |p.es| && IsDelta(p.es[i]) ensures p.apply(b, p.es[i].data) != Delta.Panicked {
      assert p.es[i] in Scan(z, data).value;
      Delta.SafeApply(z.maxAlloc, b, p.es[i].data);
    }
    PassesPanicCause(p, Wholes(p, |p.es|), MAX_PASSES);
  }

  lemma ScannedAscending(z: Codec, data: Bytes)
    requires Scan(z, data).Some?
    ensures Ascending(Scan(z, data).value)
  {
    ScanAscending(z, data, 12, GetU32(data[8..12]));
  }

  /** The object a pack entry with this type and payload parses to. */
  function Named(z: Codec, objs: seq<RawObject>): (r: seq<RawObject>)
    ensures |r| == |objs| && forall i :: 0 <= i < |objs| ==> r[i] == Object(z, objs[i].kind, objs[i].data)
  {
    seq(|objs|, i requires 0 <= i < |objs| => Object(z, objs[i].kind, objs[i].data))
  }

  lemma ResolveWritten(z: Codec, objs: seq<RawObject>, es: seq<Entry>, store: Store)
    requires Ascending(es) && |es| == |objs|
    requires forall i :: 0 <= i < |objs| ==>
      es[i].kind == objs[i].kind && es[i].data == objs[i].data && Packable(z, objs[i])
    ensures Resolve(Problem(z, es, store)) == Some(Named(z, objs))
  {
    var p := Problem(z, es, store);
    ResolveWholes(p);
    assert AsWhole(p) == Named(z, objs);
  }

  /** Building a pack and parsing it returns the same types and payloads in order, with their identifiers. */
  lemma BuildParse(z: Codec, objs: seq<RawObject>, store: Store)
    requires ValidCodec(z) && Readable(z, objs) && Countable(z, |objs|)
    ensures ParsePack(z, Build(z, objs), store) == Some(Named(z, objs))
  {
    ScanBuildExactly(z, objs);
    ScannedAscending(z, Build(z, objs));
    var es := Written(z, objs, 12);
    forall i | 0 <= i < |objs| ensures es[i].kind == objs[i].kind && es[i].data == objs[i].data {
      WrittenFields(z, objs, 12, i);
    }
    ResolveWritten(z, objs, es, store);
  }

  /** Objects already carrying their identifiers come back unchanged. */
  lemma BuildParseSame(z: Codec, objs: seq<RawObject>, store: Store)
    requires ValidCodec(z) && Readable(z, objs) && Countable(z, |objs|)
    requires forall i :: 0 <= i < |objs| ==> objs[i] == Object(z, objs[i].kind, objs[i].data)
    ensures ParsePack(z, Build(z, objs), store) == Some(objs)
  {
    BuildParse(z, objs, store);
    assert Named(z, objs) == objs;
  }

  /** Every parsed object carries the identifier of its type and payload. */
  lemma ParsedNamed(z: Codec, data: Bytes, store: Store)
    requires ParsePack(z, data, store).Some?
    ensures forall i :: 0 <= i < |ParsePack(z, data, store).value| ==>
      ParsePack(z, data, store).value[i]
        == Object(z, ParsePack(z, data, store).value[i].kind, ParsePack(z, data, store).value[i].data)
  {
    var p := Problem(z, Scan(z, data).value, store);
    ScannedAscending(z, data);
    var s := ResolveSound(p);
    forall i | 0 <= i < |s.objs| ensures s.objs[i] == Object(z, s.objs[i].kind, s.objs[i].data) {
      assert SolvedAt(p, s, i);
    }
  }

  /** Resolution yields whole objects only, given that the outside objects are whole. */
  lemma {:induction false} SolvedWhole(p: Pack, s: Solution, i: nat)
    requires Solves(p, s) && i < |p.es|
    requires forall k, d :: p.make(k, d).kind == k
    requires forall k :: k in p.store ==> p.store[k].kind != OFS_DELTA && p.store[k].kind != REF_DELTA
    ensures s.objs[i].kind != OFS_DELTA && s.objs[i].kind != REF_DELTA
    decreases s.late[i], i
  {
    assert SolvedAt(p, s, i);
    if s.links[i].InPack? {
      var j := s.links[i].base;
      if IsDelta(p.es[j]) {
        SolvedWhole(p, s, j);
      } else {
        assert SolvedAt(p, s, j);
      }
    }
  }

  lemma ParsedWhole(z: Codec, data: Bytes, store: Store)
    requires ParsePack(z, data, store).Some?
    requires forall k :: k in store ==> store[k].kind != OFS_DELTA && store[k].kind != REF_DELTA
    ensures forall o :: o in ParsePack(z, data, store).value ==> o.kind != OFS_DELTA && o.kind != REF_DELTA
  {
    var p := Problem(z, Scan(z, data).value, store);
    ScannedAscending(z, data);
    var s := ResolveSound(p);
    forall i | 0 <= i < |s.objs| ensures s.objs[i].kind != OFS_DELTA && s.objs[i].kind != REF_DELTA {
      SolvedWhole(p, s, i);
    }
  }

  // ----- Identifiers separate objects -----

  /** Absent SHA-1 collisions, identifiers of commits, trees, blobs and tags name one object. */
  lemma SeparatedByHash(p: Pack, z: Codec, objs: seq<RawObject>)
    requires CollisionFree(z, (set o | o in objs) + p.store.Values)
    requires forall o :: o in objs || o in p.store.Values ==> o == Object(z, o.kind, o.data) && 1 <= o.kind <= 4
    requires forall k :: k in p.store ==> p.store[k].oid == k
    ensures Separated(p, objs)
  {
    var all := (set o | o in objs) + p.store.Values;
    forall i, j | 0 <= i < |objs| && 0 <= j < |objs| ensures Apart(objs, i, j) {
      if objs[i].oid == objs[j].oid {
        SameObject(z, all, objs[i], objs[j]);
      }
    }
    forall i | 0 <= i < |objs| ensures Outside(p.store, objs[i]) {
      if objs[i].oid in p.store {
        assert p.store[objs[i].oid] in p.store.Values;
        SameObject(z, all, objs[i], p.store[objs[i].oid]);
      }
    }
  }

  lemma SameObject(z: Codec, all: set<RawObject>, a: RawObject, b: RawObject)
    requires CollisionFree(z, all) && a in all && b in all && a.oid == b.oid
    requires a == Object(z, a.kind, a.data) && b == Object(z, b.kind, b.data)
    requires 1 <= a.kind <= 4 && 1 <= b.kind <= 4
    ensures a == b
  {
    OidInjective(z, all, a, b);
    assert TypeName(a.kind)[0] == TypeName(b.kind)[0] && TypeName(a.kind)[1] == TypeName(b.kind)[1];
  }

  // ----- A codec meeting the contract, and why payloads must be drained -----

  /** Streams are framed by two marker bytes; an empty read stops after the first. */
  function FramedInflate(data: Bytes, pos: nat, size: nat): (r: Option<(Bytes, nat)>) {
    if pos + 1 + size > |data| || data[pos] != 1 then None
    else Some((data[pos + 1..pos + 1 + size], if size == 0 then 1 else size + 2))
  }

  function Framed(): (z: Codec) {
    Codec(
      d => [1] + d + [2],
      (data: Bytes, pos: nat) => pos < |data| && data[pos] == 1,
      FramedInflate,
      d => if d == [] then 1 else |d| + 2,
      _ => seq(20, _ => 0),
      0x7FFF_FFFF_FFFF)
  }

  lemma FramedValid()
    ensures ValidCodec(Framed())
    ensures forall d :: Drained(Framed(), d) <==> d != []
  {
    var z := Framed();
    forall pre, d, suf ensures InflatesAt(z, pre, d, suf) {
      var data := pre + z.deflate(d) + suf;
      assert data[|pre|] == 1;
      assert data[|pre| + 1..|pre| + 1 + |d|] == d;
    }
  }

  /** With this codec an empty blob before another object makes the pack unparsable. */
  lemma UndrainedExample()
    ensures
      var z := Framed();
      ParsePack(z, Build(z, [Object(z, BLOB, []), Object(z, BLOB, [7])]), map[]) == None
  {
    var z := Framed();
    var a, b := Object(z, BLOB, []), Object(z, BLOB, [7]);
    var objs := [a, b];
    FramedValid();
    var head, data := PackHead(2), Build(z, objs);
    var tail := EncodeEntry(z, b) + z.sha1(head + Body(z, objs));
    assert Body(z, objs[1..]) == EncodeEntry(z, b);
    assert data == head + EncodeEntry(z, a) + tail;
    assert data[..12] == head;
    ScanHead(z, data, 2);
    ScanWrittenEntry(z, head, a, tail);
    assert data[14] == 2 && data[15] == EncodeEntry(z, b)[0];
  }
}
