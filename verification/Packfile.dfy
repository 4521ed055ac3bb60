/**
 Packfiles: object identifiers, the entry scanner and the writer.  zlib and SHA-1
 enter as the functions of a `Codec` with a stated contract.
 */
module Packfile {
  import opened Octets
  import opened Varint

  /**
   `opens(data, pos)` says whether a zlib stream begins at `pos`; `inflate(data, pos, size)`
   reads exactly `size` bytes of it and reports how many compressed bytes were taken, or
   fails.  The stream is never read to its end, so `consumed(d)` may stop short of
   `deflate(d)`: it does for an empty payload, of which nothing but the stream header is
   read.  `maxAlloc` is the largest slice the runtime allocates; asking for more panics.
   */
  datatype Codec = Codec(
    deflate: Bytes -> Bytes,
    opens: (Bytes, nat) -> bool,
    inflate: (Bytes, nat, nat) -> Option<(Bytes, nat)>,
    consumed: Bytes -> nat,
    sha1: Bytes -> Bytes,
    maxAlloc: nat)

  ghost predicate InflatesAt(z: Codec, pre: Bytes, d: Bytes, suf: Bytes) {
    var data := pre + z.deflate(d) + suf;
    z.opens(data, |pre|) && z.inflate(data, |pre|, |d|) == Some((d, z.consumed(d)))
  }

  ghost predicate ValidCodec(z: Codec) {
    && (forall pre, d, suf :: InflatesAt(z, pre, d, suf))
    && (forall x :: |z.sha1(x)| == 20)
    && z.maxAlloc < 0x8000_0000_0000_0000
  }

  /** Reading the payload takes its whole compressed stream. */
  predicate Drained(z: Codec, d: Bytes) {
    z.consumed(d) == |z.deflate(d)|
  }

  // ----- Objects -----

  type Kind = k: nat | k < 8

  const COMMIT: Kind := 1
  const TREE: Kind := 2
  const BLOB: Kind := 3
  const OFS_DELTA: Kind := 6
  const REF_DELTA: Kind := 7

  type Oid = Bytes

  datatype RawObject = RawObject(kind: Kind, data: Bytes, oid: Oid)

  function TypeName(kind: Kind): (s: Bytes)
    ensures forall i :: 0 <= i < |s| ==> s[i] > 32
  {
    match kind
    case 1 => Ascii("commit")
    case 2 => Ascii("tree")
    case 3 => Ascii("blob")
    case 4 => Ascii("tag")
    case _ => Ascii("unknown")
  }

  function Decimal(n: nat): (s: Bytes)
    ensures |s| >= 1 && forall i :: 0 <= i < |s| ==> 48 <= s[i] <= 57
  {
    if n < 10 then [48 + n] else Decimal(n / 10) + [48 + n % 10]
  }

  /** What SHA-1 is taken of: type name, decimal length, NUL, payload. */
  function Preimage(kind: Kind, data: Bytes): (s: Bytes) {
    ObjectHead(kind, |data|) + [0] + data
  }

  function ObjectHead(kind: Kind, len: nat): (s: Bytes)
    ensures forall i :: 0 <= i < |s| ==> s[i] != 0
  {
    TypeName(kind) + [32] + Decimal(len)
  }

  function ComputeOid(z: Codec, kind: Kind, data: Bytes): (oid: Oid) {
    Hex(z.sha1(Preimage(kind, data)))
  }

  function Object(z: Codec, kind: Kind, data: Bytes): (o: RawObject) {
    RawObject(kind, data, ComputeOid(z, kind, data))
  }

  /** The hashed text determines the payload and, up to its name, the type. */
  lemma PreimageInjective(k1: Kind, d1: Bytes, k2: Kind, d2: Bytes)
    requires Preimage(k1, d1) == Preimage(k2, d2)
    ensures d1 == d2 && TypeName(k1) == TypeName(k2)
  {
    var h1, h2 := ObjectHead(k1, |d1|), ObjectHead(k2, |d2|);
    SplitUnique(h1, d1, h2, d2, 0);
    SplitUnique(TypeName(k1), Decimal(|d1|), TypeName(k2), Decimal(|d2|), 32);
  }

  /** A separator that does not occur before it splits a text in one way. */
  lemma SplitUnique(a: Bytes, x: Bytes, b: Bytes, y: Bytes, stop: byte)
    requires a + [stop] + x == b + [stop] + y
    requires forall i :: 0 <= i < |a| ==> a[i] != stop
    requires forall i :: 0 <= i < |b| ==> b[i] != stop
    ensures a == b && x == y
  {
    var s, t := a + [stop] + x, b + [stop] + y;
    assert s[|a|] == stop && t[|b|] == stop;
    assert forall i :: 0 <= i < |a| ==> s[i] == a[i];
    assert forall i :: 0 <= i < |b| ==> t[i] == b[i];
    assert |a| == |b|;
    assert a == s[..|a|] && b == t[..|b|];
    assert x == s[|a| + 1..] && y == t[|b| + 1..];
  }

  /** SHA-1 separates the objects of `objs`. */
  ghost predicate CollisionFree(z: Codec, objs: set<RawObject>) {
    forall a, b :: a in objs && b in objs && z.sha1(Preimage(a.kind, a.data)) == z.sha1(Preimage(b.kind, b.data))
      ==> Preimage(a.kind, a.data) == Preimage(b.kind, b.data)
  }

  /** Without collisions an identifier names one payload and one type name. */
  lemma OidInjective(z: Codec, objs: set<RawObject>, a: RawObject, b: RawObject)
    requires CollisionFree(z, objs) && a in objs && b in objs
    requires a == Object(z, a.kind, a.data) && b == Object(z, b.kind, b.data)
    requires a.oid == b.oid
    ensures a.data == b.data && TypeName(a.kind) == TypeName(b.kind)
  {
    HexInjective(z.sha1(Preimage(a.kind, a.data)), z.sha1(Preimage(b.kind, b.data)));
    PreimageInjective(a.kind, a.data, b.kind, b.data);
  }

  // ----- Entries -----

  datatype Entry = Entry(kind: Kind, offset: nat, baseOffset: int, baseOid: Oid, data: Bytes)

  /** `entryOffset - int(ofs)` in 64-bit two's complement. */
  function BaseOffset(offset: nat, ofs: nat): (r: int)
    requires ofs < 0x1_0000_0000_0000_0000
  {
    var d := if ofs < 0x8000_0000_0000_0000 then offset - ofs else offset - ofs + 0x1_0000_0000_0000_0000;
    if d < 0x8000_0000_0000_0000 then d else d - 0x1_0000_0000_0000_0000
  }

  /** The base reference behind an entry header: base offset, base identifier, next position. */
  function BaseRef(data: Bytes, kind: Kind, offset: nat, pos: nat, limit: nat): (r: Option<(int, Oid, nat)>)
    requires limit <= |data|
  {
    if kind == OFS_DELTA then
      match DecodeOfs(data, pos, limit)
      case None => None
      case Some((ofs, next)) => Some((BaseOffset(offset, ofs), [], next))
    else if kind == REF_DELTA then
      if pos + 20 > limit then None else Some((0, Hex(data[pos..pos + 20]), pos + 20))
    else Some((0, [], pos))
  }

  /** An entry up to its zlib stream: type, announced size, base reference and stream position. */
  datatype Lead = Lead(kind: Kind, size: nat, baseOffset: int, baseOid: Oid, start: nat)

  function ScanLead(data: Bytes, pos: nat): (r: Option<Lead>)
    requires |data| >= 20
    ensures r.Some? ==> pos < r.value.start
  {
    var limit := |data| - 20;
    if pos >= limit then None
    else
      var h := DecodeHeader(data, pos, limit);
      if h.None? then None
      else
        var base := BaseRef(data, h.value.kind, pos, h.value.next, limit);
        if base.None? then None
        else Some(Lead(h.value.kind, h.value.size, base.value.0, base.value.1, base.value.2))
  }

  /** The entry at `pos` and the position after it; None when reading it fails or panics. */
  function ScanEntry(z: Codec, data: Bytes, pos: nat): (r: Option<(Entry, nat)>)
    requires |data| >= 20
    ensures r.Some? ==> r.value.0.offset == pos < r.value.1
  {
    var lead := ScanLead(data, pos);
    if lead.None? || !z.opens(data, lead.value.start) || lead.value.size > z.maxAlloc then None
    else
      var l, payload := lead.value, z.inflate(data, lead.value.start, lead.value.size);
      if payload.None? then None
      else Some((Entry(l.kind, pos, l.baseOffset, l.baseOid, payload.value.0), l.start + payload.value.1))
  }

  /** The stream opens and the announced size is more than the runtime allocates. */
  predicate EntryPanics(z: Codec, data: Bytes, pos: nat)
    requires |data| >= 20
  {
    var lead := ScanLead(data, pos);
    lead.Some? && z.opens(data, lead.value.start) && lead.value.size > z.maxAlloc
  }

  function ScanEntries(z: Codec, data: Bytes, pos: nat, n: nat): (r: Option<seq<Entry>>)
    requires |data| >= 20
    ensures r.Some? ==> |r.value| == n
    decreases n
  {
    if n == 0 then Some([])
    else
      match ScanEntry(z, data, pos)
      case None => None
      case Some((e, next)) =>
        match ScanEntries(z, data, next, n - 1)
        case None => None
        case Some(rest) => Some([e] + rest)
  }

  predicate EntriesPanic(z: Codec, data: Bytes, pos: nat, n: nat)
    requires |data| >= 20
    decreases n
  {
    n > 0 && (EntryPanics(z, data, pos)
      || (ScanEntry(z, data, pos).Some? && EntriesPanic(z, data, ScanEntry(z, data, pos).value.1, n - 1)))
  }

  /** A slice of `n` references, of eight bytes each, can be allocated. */
  predicate SlotsFit(z: Codec, n: nat) {
    8 * n <= z.maxAlloc
  }

  /** The entries of a pack with a valid 12-byte header and room for the trailer, which is not compared. */
  function Scan(z: Codec, data: Bytes): (r: Option<seq<Entry>>) {
    if |data| < 32 || data[..4] != Ascii("PACK") then None
    else
      var version := GetU32(data[4..8]);
      if (version != 2 && version != 3) || !SlotsFit(z, GetU32(data[8..12])) then None
      else ScanEntries(z, data, 12, GetU32(data[8..12]))
  }

  /** Scanning the pack panics: its entries cannot be allocated, or one of them panics. */
  predicate ScanPanics(z: Codec, data: Bytes) {
    && |data| >= 32 && data[..4] == Ascii("PACK") && GetU32(data[4..8]) in {2, 3}
    && (!SlotsFit(z, GetU32(data[8..12])) || EntriesPanic(z, data, 12, GetU32(data[8..12])))
  }

  method ReadLead(data: Bytes, entryOffset: nat) returns (r: Option<Lead>)
    requires |data| >= 20
    ensures r == ScanLead(data, entryOffset)
  {
    var limit := |data| - 20;
    if entryOffset >= limit {
      return None;
    }
    var header := ReadObjectHeader(data, entryOffset, limit);
    if header.None? {
      return None;
    }
    var Header(kind, size, pos) := header.value;
    var baseOffset: int, baseOid: Oid := 0, [];
    if kind == OFS_DELTA {
      var ofs := ReadOfs(data, pos, limit);
      if ofs.None? {
        return None;
      }
      baseOffset, pos := BaseOffset(entryOffset, ofs.value.0), ofs.value.1;
    } else if kind == REF_DELTA {
      if pos + 20 > limit {
        return None;
      }
      baseOid, pos := Hex(data[pos..pos + 20]), pos + 20;
    }
    return Some(Lead(kind, size, baseOffset, baseOid, pos));
  }

  method ReadEntry(z: Codec, data: Bytes, entryOffset: nat) returns (r: Option<(Entry, nat)>, panicked: bool)
    requires |data| >= 20
    ensures r == ScanEntry(z, data, entryOffset) && panicked == EntryPanics(z, data, entryOffset)
  {
    var lead := ReadLead(data, entryOffset);
    if lead.None? {
      return None, false;
    }
    var Lead(kind, size, baseOffset, baseOid, pos) := lead.value;
    if !z.opens(data, pos) {
      return None, false;
    }
    if size > z.maxAlloc {
      return None, true;
    }
    var payload := z.inflate(data, pos, size);
    if payload.None? {
      return None, false;
    }
    return Some((Entry(kind, entryOffset, baseOffset, baseOid, payload.value.0), pos + payload.value.1)), false;
  }

  /** One turn of the entry loop, with `es` read before it. */
  lemma ScanStep(z: Codec, data: Bytes, pos: nat, n: nat, es: seq<Entry>, next: Option<(Entry, nat)>)
    requires |data| >= 20 && n > 0 && next == ScanEntry(z, data, pos)
    ensures next.None? ==>
      Prepend(es, ScanEntries(z, data, pos, n)) == None && EntriesPanic(z, data, pos, n) == EntryPanics(z, data, pos)
    ensures next.Some? ==>
      && Prepend(es, ScanEntries(z, data, pos, n))
        == Prepend(es + [next.value.0], ScanEntries(z, data, next.value.1, n - 1))
      && EntriesPanic(z, data, pos, n) == EntriesPanic(z, data, next.value.1, n - 1)
  {
    if next.Some? {
      PrependCons(es, next.value.0, ScanEntries(z, data, next.value.1, n - 1));
    }
  }

  method ReadEntries(z: Codec, data: Bytes, start: nat, numObjects: nat)
    returns (r: Option<seq<Entry>>, panicked: bool)
    requires |data| >= 20
    ensures r == ScanEntries(z, data, start, numObjects) && panicked == EntriesPanic(z, data, start, numObjects)
  {
    var pos, n := start, numObjects;
    var entries: seq<Entry> := [];
    ghost var whole, panics := ScanEntries(z, data, start, numObjects), EntriesPanic(z, data, start, numObjects);
    PrependNone(whole);
    while n > 0
      invariant whole == Prepend(entries, ScanEntries(z, data, pos, n)) && panics == EntriesPanic(z, data, pos, n)
    {
      var next, stop := ReadEntry(z, data, pos);
      ScanStep(z, data, pos, n, entries, next);
      if next.None? {
        return None, stop;
      }
      entries, pos, n := entries + [next.value.0], next.value.1, n - 1;
    }
    assert entries + [] == entries;
    return Some(entries), false;
  }

  method ScanPackfile(z: Codec, data: Bytes) returns (r: Option<seq<Entry>>, panicked: bool)
    ensures r == Scan(z, data) && panicked == ScanPanics(z, data)
  {
    if |data| < 12 + 20 || data[..4] != Ascii("PACK") {
      return None, false;
    }
    var version := GetU32(data[4..8]);
    if version != 2 && version != 3 {
      return None, false;
    }
    var numObjects := GetU32(data[8..12]);
    if !SlotsFit(z, numObjects) {
      return None, true;
    }
    r, panicked := ReadEntries(z, data, 12, numObjects);
  }

  function Prepend(es: seq<Entry>, r: Option<seq<Entry>>): (p: Option<seq<Entry>>) {
    match r case None => None case Some(rest) => Some(es + rest)
  }

  lemma PrependNone(r: Option<seq<Entry>>)
    ensures Prepend([], r) == r
  {
    if r.Some? {
      assert [] + r.value == r.value;
    }
  }

  lemma PrependCons(es: seq<Entry>, e: Entry, r: Option<seq<Entry>>)
    ensures Prepend(es, Prepend([e], r)) == Prepend(es + [e], r)
  {
    if r.Some? {
      assert es + ([e] + r.value) == (es + [e]) + r.value;
    }
  }

  ghost predicate Before(es: seq<Entry>, i: nat, j: nat)
    requires i < |es| && j < |es|
  {
    es[i].offset < es[j].offset
  }

  ghost predicate Ascending(es: seq<Entry>) {
    forall i, j :: 0 <= i < j < |es| ==> Before(es, i, j)
  }

  /** Entries come in the order of their offsets, so an offset names one entry. */
  lemma {:induction false} ScanAscending(z: Codec, data: Bytes, pos: nat, n: nat)
    requires |data| >= 20 && ScanEntries(z, data, pos, n).Some?
    ensures Ascending(ScanEntries(z, data, pos, n).value)
    ensures forall i :: 0 <= i < n ==> ScanEntries(z, data, pos, n).value[i].offset >= pos
    decreases n
  {
    if n > 0 {
      var next := ScanEntry(z, data, pos).value.1;
      ScanAscending(z, data, next, n - 1);
      var es, rest := ScanEntries(z, data, pos, n).value, ScanEntries(z, data, next, n - 1).value;
      forall i, j | 0 <= i < j < n ensures Before(es, i, j) {
        if i > 0 {
          assert Before(rest, i - 1, j - 1);
        }
      }
    }
  }

  // ----- Writing -----

  function EncodeEntry(z: Codec, o: RawObject): (e: Bytes) {
    EncodeHeader(o.kind, |o.data|) + z.deflate(o.data)
  }

  function Body(z: Codec, objs: seq<RawObject>): (b: Bytes) {
    if objs == [] then [] else EncodeEntry(z, objs[0]) + Body(z, objs[1..])
  }

  function PackHead(count: nat): (h: Bytes)
    ensures |h| == 12
  {
    Ascii("PACK") + PutU32(2) + PutU32(count % 0x1_0000_0000)
  }

  function Build(z: Codec, objs: seq<RawObject>): (p: Bytes) {
    var content := PackHead(|objs|) + Body(z, objs);
    content + z.sha1(content)
  }

  method BuildPackfile(z: Codec, objects: seq<RawObject>) returns (p: Bytes)
    ensures p == Build(z, objects)
  {
    var buf := PackHead(|objects|);
    ghost var whole := buf + Body(z, objects);
    ghost var rest := Body(z, objects);
    assert objects[0..] == objects;
    for i := 0 to |objects|
      invariant rest == Body(z, objects[i..])
      invariant buf + rest == whole
    {
      BodyStep(z, objects, i);
      var header := WriteObjectHeader(objects[i].kind, |objects[i].data|);
      var compressed := z.deflate(objects[i].data);
      rest := Body(z, objects[i + 1..]);
      Assoc(buf, header + compressed, rest);
      Assoc(buf, header, compressed);
      buf := buf + header + compressed;
    }
    assert rest == [];
    assert buf + rest == buf;
    p := buf + z.sha1(buf);
  }

  lemma BodyStep(z: Codec, objects: seq<RawObject>, i: nat)
    requires i < |objects|
    ensures Body(z, objects[i..]) == EncodeEntry(z, objects[i]) + Body(z, objects[i + 1..])
  {
    assert objects[i..][1..] == objects[i + 1..];
  }

  // ----- Round trip -----

  /** Objects this writer can place in a pack: whole, and no larger than a slice can be. */
  predicate Packable(z: Codec, o: RawObject) {
    o.kind != OFS_DELTA && o.kind != REF_DELTA && |o.data| <= z.maxAlloc
  }

  /** Every payload but the last must be drained, or the next header is read from inside a stream. */
  ghost predicate Readable(z: Codec, objs: seq<RawObject>) {
    forall i :: 0 <= i < |objs| ==> Packable(z, objs[i]) && (i < |objs| - 1 ==> Drained(z, objs[i].data))
  }

  /** A number of objects that a pack can announce and a reader can allocate entries for. */
  predicate Countable(z: Codec, n: nat) {
    n < 0x1_0000_0000 && SlotsFit(z, n)
  }

  /** The entries a written pack holds when its first object starts at `pos`. */
  function Written(z: Codec, objs: seq<RawObject>, pos: nat): (es: seq<Entry>)
    ensures |es| == |objs|
  {
    if objs == [] then []
    else
      [Entry(objs[0].kind, pos, 0, [], objs[0].data)] + Written(z, objs[1..], pos + |EncodeEntry(z, objs[0])|)
  }

  lemma {:induction false} WrittenFields(z: Codec, objs: seq<RawObject>, pos: nat, i: nat)
    requires i < |objs|
    ensures Written(z, objs, pos)[i].kind == objs[i].kind && Written(z, objs, pos)[i].data == objs[i].data
    decreases i
  {
    if i > 0 {
      WrittenFields(z, objs[1..], pos + |EncodeEntry(z, objs[0])|, i - 1);
    }
  }

  lemma ScanWrittenEntry(z: Codec, pre: Bytes, o: RawObject, suf: Bytes)
    requires ValidCodec(z) && Packable(z, o) && |suf| >= 20
    ensures ScanEntry(z, pre + EncodeEntry(z, o) + suf, |pre|) ==
      Some((Entry(o.kind, |pre|, 0, [], o.data), |pre| + |EncodeHeader(o.kind, |o.data|)| + z.consumed(o.data)))
  {
    var h, c := EncodeHeader(o.kind, |o.data|), z.deflate(o.data);
    var data := pre + EncodeEntry(z, o) + suf;
    Assoc(pre, h, c);
    Assoc(pre + h, c, suf);
    HeaderRoundTrip(pre, o.kind, |o.data|, c + suf, |data| - 20);
    assert InflatesAt(z, pre + h, o.data, suf);
  }

  lemma ReadableTail(z: Codec, objs: seq<RawObject>)
    requires objs != [] && Readable(z, objs)
    ensures Readable(z, objs[1..])
    ensures |objs| > 1 ==> Drained(z, objs[0].data)
  {
    var rest := objs[1..];
    forall i | 0 <= i < |rest|
      ensures Packable(z, rest[i]) && (i < |rest| - 1 ==> Drained(z, rest[i].data))
    {
      assert rest[i] == objs[i + 1];
    }
  }

  lemma ScanCons(z: Codec, data: Bytes, pos: nat, n: nat, e: Entry, next: nat, rest: seq<Entry>)
    requires |data| >= 20 && n > 0 && ScanEntry(z, data, pos) == Some((e, next))
    requires ScanEntries(z, data, next, n - 1) == Some(rest)
    ensures ScanEntries(z, data, pos, n) == Some([e] + rest)
  {
  }

  /** The first object of a written stretch, given that the rest is read back. */
  lemma ScanFirst(z: Codec, pre: Bytes, o: RawObject, suf: Bytes, n: nat, rest: seq<Entry>)
    requires ValidCodec(z) && Packable(z, o) && |suf| >= 20 && (n > 0 ==> Drained(z, o.data))
    requires n > 0 ==> ScanEntries(z, pre + EncodeEntry(z, o) + suf, |pre| + |EncodeEntry(z, o)|, n) == Some(rest)
    requires n == 0 ==> rest == []
    ensures ScanEntries(z, pre + EncodeEntry(z, o) + suf, |pre|, n + 1)
         == Some([Entry(o.kind, |pre|, 0, [], o.data)] + rest)
  {
    ScanWrittenEntry(z, pre, o, suf);
    var next := |pre| + |EncodeHeader(o.kind, |o.data|)| + z.consumed(o.data);
    ScanCons(z, pre + EncodeEntry(z, o) + suf, |pre|, n + 1, Entry(o.kind, |pre|, 0, [], o.data), next, rest);
  }

  lemma {:induction false} ScanWritten(z: Codec, pre: Bytes, objs: seq<RawObject>, suf: Bytes)
    requires ValidCodec(z) && Readable(z, objs) && |suf| >= 20
    ensures ScanEntries(z, pre + Body(z, objs) + suf, |pre|, |objs|) == Some(Written(z, objs, |pre|))
    decreases |objs|
  {
    if objs != [] {
      var o, rest := objs[0], objs[1..];
      var e, tail := EncodeEntry(z, o), Body(z, rest);
      Assoc(pre, e, tail);
      Assoc(pre + e, tail, suf);
      ReadableTail(z, objs);
      ScanWritten(z, pre + e, rest, suf);
      ScanFirst(z, pre, o, tail + suf, |rest|, Written(z, rest, |pre + e|));
    }
  }

  lemma ScanHead(z: Codec, data: Bytes, n: nat)
    requires |data| >= 32 && Countable(z, n) && data[..12] == PackHead(n)
    ensures Scan(z, data) == ScanEntries(z, data, 12, n)
  {
    var head := data[..12];
    assert data[..4] == head[..4] == Ascii("PACK");
    assert data[4..8] == head[4..8] == PutU32(2);
    assert data[8..12] == head[8..12] == PutU32(n);
    U32RoundTrip(2);
    U32RoundTrip(n);
  }

  /** If a written stretch reads back as written, every payload but the last was drained. */
  lemma {:induction false} WrittenReadable(z: Codec, pre: Bytes, objs: seq<RawObject>, suf: Bytes)
    requires ValidCodec(z) && AllPackable(z, objs) && |suf| >= 20
    requires ScanEntries(z, pre + Body(z, objs) + suf, |pre|, |objs|) == Some(Written(z, objs, |pre|))
    ensures Readable(z, objs)
    decreases |objs|
  {
    if objs != [] {
      var o, rest := objs[0], objs[1..];
      var e, tail := EncodeEntry(z, o), Body(z, rest);
      Assoc(pre, e, tail);
      Assoc(pre + e, tail, suf);
      var next := |pre| + |EncodeHeader(o.kind, |o.data|)| + z.consumed(o.data);
      TailWritten(z, pre, objs, suf, next);
      if rest != [] {
        assert rest[0] == objs[1];
        NextOffset(z, pre + Body(z, objs) + suf, next, |rest|, Written(z, rest, |pre + e|));
        WrittenReadable(z, pre + e, rest, suf);
      }
      forall i | 0 <= i < |objs| ensures Packable(z, objs[i]) && (i < |objs| - 1 ==> Drained(z, objs[i].data)) {
        if i > 0 { assert objs[i] == rest[i - 1]; }
      }
    }
  }

  ghost predicate AllPackable(z: Codec, objs: seq<RawObject>) {
    forall i :: 0 <= i < |objs| ==> Packable(z, objs[i])
  }

  /** Behind its first entry, the scan of a stretch that reads back goes on with the rest. */
  lemma TailWritten(z: Codec, pre: Bytes, objs: seq<RawObject>, suf: Bytes, next: nat)
    requires ValidCodec(z) && objs != [] && Packable(z, objs[0]) && |suf| >= 20
    requires next == |pre| + |EncodeHeader(objs[0].kind, |objs[0].data|)| + z.consumed(objs[0].data)
    requires ScanEntries(z, pre + Body(z, objs) + suf, |pre|, |objs|) == Some(Written(z, objs, |pre|))
    ensures ScanEntries(z, pre + Body(z, objs) + suf, next, |objs| - 1)
         == Some(Written(z, objs[1..], |pre| + |EncodeEntry(z, objs[0])|))
  {
    var e, tail := EncodeEntry(z, objs[0]), Body(z, objs[1..]);
    Assoc(pre, e, tail);
    Assoc(pre + e, tail, suf);
    ScanWrittenEntry(z, pre, objs[0], tail + suf);
    var data := pre + Body(z, objs) + suf;
    ScanStep(z, data, |pre|, |objs|, [], ScanEntry(z, data, |pre|));
    var rest := ScanEntries(z, data, next, |objs| - 1);
    PrependNone(ScanEntries(z, data, |pre|, |objs|));
    assert rest.Some? && Written(z, objs, |pre|)[1..] == rest.value;
  }

  lemma NextOffset(z: Codec, data: Bytes, pos: nat, n: nat, es: seq<Entry>)
    requires |data| >= 20 && n > 0 && ScanEntries(z, data, pos, n) == Some(es)
    ensures es[0].offset == pos
  {
  }

  /**
   Scanning a built pack finds the written entries, at the offsets where they were written, if and only if every
   payload but the last is drained.
   */
  lemma ScanBuildExactly(z: Codec, objs: seq<RawObject>)
    requires ValidCodec(z) && AllPackable(z, objs) && Countable(z, |objs|)
    ensures Scan(z, Build(z, objs)) == Some(Written(z, objs, 12)) <==> Readable(z, objs)
  {
    var head, body := PackHead(|objs|), Body(z, objs);
    var sum := z.sha1(head + body);
    var data := head + body + sum;
    assert data[..12] == head;
    ScanHead(z, data, |objs|);
    if Readable(z, objs) {
      ScanWritten(z, head, objs, sum);
    } else if Scan(z, data) == Some(Written(z, objs, 12)) {
      WrittenReadable(z, head, objs, sum);
    }
  }
}
