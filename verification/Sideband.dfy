/** The upload-pack reply: acknowledgements, then the pack in sideband channel 1. */
module Sideband {
  import opened Octets
  import opened PktLine

  // ----- Extraction -----

  function BandOne(s: Bytes): (r: Bytes) {
    if s != [] && s[0] == 1 then s[1..] else []
  }

  /** All channel-1 data up to the first malformed frame. */
  function Band(data: Bytes): (r: Bytes)
    decreases |data|
  {
    match NextHex(data)
    case Stop => []
    case Skip(rest) => Band(rest)
    case Packet(s, rest) => BandOne(s) + Band(rest)
  }

  /** From the first occurrence of `pat` on. */
  function From(data: Bytes, pat: Bytes): (r: Option<Bytes>) {
    if HasPrefix(data, pat) then Some(data)
    else if data == [] then None
    else From(data[1..], pat)
  }

  function Extract(resp: Bytes): (r: Option<Bytes>) {
    if HasPrefix(resp, Ascii("PACK")) then Some(resp)
    else if Band(resp) != [] then Some(Band(resp))
    else From(resp, Ascii("PACK"))
  }

  method ExtractPackfileFromResponse(resp: Bytes) returns (r: Option<Bytes>)
    ensures r == Extract(resp)
  {
    if HasPrefix(resp, Ascii("PACK")) {
      return Some(resp);
    }
    var packBuf := ReadBand(resp);
    if |packBuf| > 0 {
      return Some(packBuf);
    }
    r := From(resp, Ascii("PACK"));
  }

  method ReadBand(resp: Bytes) returns (packBuf: Bytes)
    ensures packBuf == Band(resp)
  {
    packBuf := [];
    var pos: nat := 0;
    ghost var rest := Band(resp);
    assert resp[0..] == resp && packBuf + rest == rest;
    while pos + 4 <= |resp|
      invariant pos <= |resp|
      invariant rest == Band(resp[pos..]) && packBuf + rest == Band(resp)
    {
      var length := HexNumber(resp[pos..pos + 4]);
      assert resp[pos..][..4] == resp[pos..pos + 4];
      BandStep(resp[pos..], Cut(resp[pos..], length));
      var f := ReadFrame(resp, pos, length);
      match f {
        case End =>
          break;
        case Gap =>
          pos := pos + 4;
        case Data(packet, next) =>
          pos := next;
          rest := Band(resp[pos..]);
          Assoc(packBuf, BandOne(packet), rest);
          packBuf := packBuf + BandOne(packet);
      }
    }
    assert rest == [];
    assert packBuf + [] == packBuf;
  }

  lemma BandStep(data: Bytes, s: Step)
    requires NextHex(data) == s
    ensures Band(data) ==
      match s
      case Stop => []
      case Skip(rest) => Band(rest)
      case Packet(x, rest) => BandOne(x) + Band(rest)
  {
  }

  // ----- Formatting -----

  const MAX_CHUNK: nat := 65515

  function AckLine(isV2: bool, ack: Bytes): (p: Pkt) {
    Line(Ascii("ACK ") + ack + if isV2 then Ascii("\n") else Ascii(" common\n"))
  }

  function AckLines(isV2: bool, acks: seq<Bytes>): (ps: seq<Pkt>)
    ensures |ps| == |acks| && forall i :: 0 <= i < |acks| ==> ps[i] == AckLine(isV2, acks[i])
  {
    seq(|acks|, i requires 0 <= i < |acks| => AckLine(isV2, acks[i]))
  }

  /** The acknowledgment section of protocol version 2. */
  function AckSection(acks: seq<Bytes>): (ps: seq<Pkt>) {
    [Text("acknowledgments\n")] + AckLines(true, acks) + (if acks == [] then [Text("NAK\n")] else [])
      + [Text("ready\n")] + [Delim]
  }

  /** What precedes the pack in either protocol version. */
  function Preamble(isV2: bool, acks: seq<Bytes>, hasHaves: bool): (ps: seq<Pkt>) {
    if isV2 then (if hasHaves then AckSection(acks) else []) + [Text("packfile\n")]
    else if acks == [] then [Text("NAK\n")]
    else AckLines(false, acks)
  }

  /** The pack in channel-1 packets of at most `MAX_CHUNK` bytes. */
  function Chunks(pack: Bytes): (ps: seq<Pkt>)
    decreases |pack|
  {
    if pack == [] then []
    else
      var n := if |pack| <= MAX_CHUNK then |pack| else MAX_CHUNK;
      [Line([1] + pack[..n])] + Chunks(pack[n..])
  }

  function Packets(pack: Bytes, isV2: bool, acks: seq<Bytes>, hasHaves: bool): (ps: seq<Pkt>) {
    Preamble(isV2, acks, hasHaves) + Chunks(pack) + [Flush]
  }

  function Format(pack: Bytes, isV2: bool, acks: seq<Bytes>, hasHaves: bool): (resp: Bytes) {
    EncodeAll(Packets(pack, isV2, acks, hasHaves))
  }

  method FormatSidebandPackfile(pack: Bytes, isV2: bool, acks: seq<Bytes>, hasHaves: bool) returns (buf: Bytes)
    ensures buf == Format(pack, isV2, acks, hasHaves)
  {
    ghost var ps, rest := Preamble(isV2, acks, hasHaves), Chunks(pack);
    buf := WriteAll([], Preamble(isV2, acks, hasHaves), []);
    assert [] + ps == ps;
    var pos := 0;
    assert pack[0..] == pack;
    while pos < |pack|
      invariant 0 <= pos <= |pack|
      invariant rest == Chunks(pack[pos..])
      invariant ps + rest == Preamble(isV2, acks, hasHaves) + Chunks(pack)
      invariant buf == EncodeAll(ps)
    {
      var end := pos + MAX_CHUNK;
      if end > |pack| {
        end := |pack|;
      }
      ChunkStep(pack, pos, end);
      var p := Line([1] + pack[pos..end]);
      buf := Write(buf, p, ps);
      rest := Chunks(pack[end..]);
      Assoc(ps, [p], rest);
      ps := ps + [p];
      pos := end;
    }
    assert ps + [] == ps;
    buf := Write(buf, Flush, ps);
  }

  lemma ChunkStep(pack: Bytes, pos: nat, end: nat)
    requires pos < |pack| && end == if pos + MAX_CHUNK > |pack| then |pack| else pos + MAX_CHUNK
    ensures Chunks(pack[pos..]) == [Line([1] + pack[pos..end])] + Chunks(pack[end..])
  {
    var d, n := pack[pos..], end - pos;
    assert d[..n] == pack[pos..end] && d[n..] == pack[end..];
  }

  // ----- Round trip -----

  function BandOf(ps: seq<Pkt>): (r: Bytes) {
    if ps == [] then []
    else (if ps[0].Line? then BandOne(ps[0].payload) else []) + BandOf(ps[1..])
  }

  lemma {:induction false} BandRoundTrip(ps: seq<Pkt>)
    requires forall i :: 0 <= i < |ps| ==> Short(ps[i])
    ensures Band(EncodeAll(ps)) == BandOf(ps)
  {
    if ps != [] {
      var p, rest := ps[0], ps[1..];
      assert ps == [p] + rest;
      EncodeCons(p, rest);
      FramePkt(p, EncodeAll(rest));
      BandStep(Encode(p) + EncodeAll(rest), StepOf(p, EncodeAll(rest)));
      BandRoundTrip(rest);
    }
  }

  lemma {:induction false} BandOfAppend(a: seq<Pkt>, b: seq<Pkt>)
    ensures BandOf(a + b) == BandOf(a) + BandOf(b)
  {
    if a == [] {
      assert a + b == b;
    } else {
      BandOfAppend(a[1..], b);
      assert (a + b)[1..] == a[1..] + b;
      Assoc(if a[0].Line? then BandOne(a[0].payload) else [], BandOf(a[1..]), BandOf(b));
    }
  }

  /** A packet that carries no pack data and keeps within the packet limit. */
  ghost predicate Aside(p: Pkt) {
    p.Line? ==> 0 < |p.payload| <= 65516 && p.payload[0] != 1
  }

  lemma {:induction false} BandOfAside(ps: seq<Pkt>)
    requires forall i :: 0 <= i < |ps| ==> Aside(ps[i])
    ensures BandOf(ps) == []
  {
    if ps != [] {
      assert Aside(ps[0]);
      BandOfAside(ps[1..]);
    }
  }

  /** Every acknowledgment fits a packet of 65520 bytes, in either version; object ids are far shorter. */
  ghost predicate ShortAcks(acks: seq<Bytes>) {
    forall i :: 0 <= i < |acks| ==> |acks[i]| <= 65504
  }

  lemma PreambleAside(isV2: bool, acks: seq<Bytes>, hasHaves: bool)
    requires ShortAcks(acks)
    ensures var ps := Preamble(isV2, acks, hasHaves);
      ps != [] && forall i :: 0 <= i < |ps| ==> Aside(ps[i])
  {
    AcksAside(isV2, acks);
  }

  lemma AcksAside(isV2: bool, acks: seq<Bytes>)
    requires ShortAcks(acks)
    ensures forall i :: 0 <= i < |acks| ==> Aside(AckLines(isV2, acks)[i])
  {
    forall i | 0 <= i < |acks| ensures Aside(AckLines(isV2, acks)[i]) {
      assert AckLine(isV2, acks[i]).payload[0] == 65;
    }
  }

  lemma {:induction false} ChunksCarry(pack: Bytes)
    ensures BandOf(Chunks(pack)) == pack
    ensures forall i :: 0 <= i < |Chunks(pack)| ==> Chunks(pack)[i].Line? && |Chunks(pack)[i].payload| <= 65516
    decreases |pack|
  {
    if pack != [] {
      var n := if |pack| <= MAX_CHUNK then |pack| else MAX_CHUNK;
      ChunksCarry(pack[n..]);
      assert BandOne([1] + pack[..n]) == pack[..n];
      assert pack == pack[..n] + pack[n..];
    }
  }

  /** Every emitted packet is at most 65520 bytes. */
  lemma PacketBound(pack: Bytes, isV2: bool, acks: seq<Bytes>, hasHaves: bool)
    requires ShortAcks(acks)
    ensures forall i :: 0 <= i < |Packets(pack, isV2, acks, hasHaves)| ==>
      |Encode(Packets(pack, isV2, acks, hasHaves)[i])| <= 65520
    ensures forall i :: 0 <= i < |Packets(pack, isV2, acks, hasHaves)| ==> Short(Packets(pack, isV2, acks, hasHaves)[i])
  {
    var ps := Packets(pack, isV2, acks, hasHaves);
    var pre := Preamble(isV2, acks, hasHaves);
    PreambleAside(isV2, acks, hasHaves);
    ChunksCarry(pack);
    forall i | 0 <= i < |ps| ensures |Encode(ps[i])| <= 65520 && Short(ps[i]) {
      if i < |pre| {
        assert Aside(pre[i]);
      }
    }
  }

  lemma PacketsCarry(pack: Bytes, isV2: bool, acks: seq<Bytes>, hasHaves: bool)
    requires ShortAcks(acks)
    ensures Band(Format(pack, isV2, acks, hasHaves)) == pack
  {
    var pre, body := Preamble(isV2, acks, hasHaves), Chunks(pack);
    PacketBound(pack, isV2, acks, hasHaves);
    var ps := Packets(pack, isV2, acks, hasHaves);
    BandRoundTrip(ps);
    BandOfAppend(pre + body, [Flush]);
    BandOfAppend(pre, body);
    PreambleAside(isV2, acks, hasHaves);
    BandOfAside(pre);
    ChunksCarry(pack);
    assert BandOf([Flush]) == [];
    assert [] + pack == pack && pack + [] == pack;
  }

  lemma NotRawPack(ps: seq<Pkt>)
    requires ps != []
    ensures !HasPrefix(EncodeAll(ps), Ascii("PACK"))
  {
    assert ps == [ps[0]] + ps[1..];
    EncodeCons(ps[0], ps[1..]);
    EncodeFirst(ps[0]);
    assert EncodeAll(ps)[0] != 80;
  }

  lemma EncodeFirst(p: Pkt)
    ensures Encode(p) != [] && Encode(p)[0] != 80
  {
    if p.Line? {
      HexHighDigits((|p.payload| + 4) / 16 / 16 / 16 / 16);
    }
  }

  lemma {:induction false} HexHighDigits(n: nat)
    ensures forall i :: 0 <= i < |HexHigh(n)| ==> HexHigh(n)[i] != 80
  {
    if n > 0 {
      HexHighDigits(n / 16);
    }
  }

  /** Extracting from a formatted reply returns the pack, for every non-empty pack of any length. */
  lemma SidebandRoundTrip(pack: Bytes, isV2: bool, acks: seq<Bytes>, hasHaves: bool)
    requires pack != [] && ShortAcks(acks)
    ensures Extract(Format(pack, isV2, acks, hasHaves)) == Some(pack)
  {
    PacketsCarry(pack, isV2, acks, hasHaves);
    NotRawPack(Packets(pack, isV2, acks, hasHaves));
  }

  /** No packet written for an empty pack contains a `P`, so the fallback search finds nothing. */
  ghost predicate NoP(b: Bytes) {
    forall i :: 0 <= i < |b| ==> b[i] != 80
  }

  lemma {:induction false} FromNothing(data: Bytes)
    requires NoP(data)
    ensures From(data, Ascii("PACK")) == None
  {
    if |data| >= 4 {
      assert data[..4][0] == data[0] != 80;
    }
    if data != [] {
      FromNothing(data[1..]);
    }
  }

  lemma {:induction false} FlattenNoP(parts: seq<Bytes>)
    requires forall i :: 0 <= i < |parts| ==> NoP(parts[i])
    ensures NoP(Flatten(parts))
  {
    if parts != [] {
      FlattenNoP(parts[1..]);
      assert NoP(parts[0]);
    }
  }

  lemma EncodeNoP(p: Pkt)
    requires p.Line? ==> NoP(p.payload)
    ensures NoP(Encode(p))
  {
    if p.Line? {
      HexHighDigits((|p.payload| + 4) / 16 / 16 / 16 / 16);
      var h := Hex04(|p.payload| + 4);
      assert NoP(h);
    }
  }

  ghost predicate LineNoP(p: Pkt) {
    p.Line? ==> NoP(p.payload)
  }

  lemma AcksNoP(isV2: bool, acks: seq<Bytes>)
    requires forall i :: 0 <= i < |acks| ==> NoP(acks[i])
    ensures forall i :: 0 <= i < |acks| ==> LineNoP(AckLines(isV2, acks)[i])
  {
    forall i | 0 <= i < |acks| ensures LineNoP(AckLines(isV2, acks)[i]) {
      assert NoP(acks[i]);
      assert NoP(if isV2 then Ascii("\n") else Ascii(" common\n"));
      assert NoP(Ascii("ACK ") + acks[i]);
    }
  }

  lemma PreambleNoP(isV2: bool, acks: seq<Bytes>, hasHaves: bool)
    requires forall i :: 0 <= i < |acks| ==> NoP(acks[i])
    ensures var ps := Preamble(isV2, acks, hasHaves); forall i :: 0 <= i < |ps| ==> LineNoP(ps[i])
  {
    AcksNoP(isV2, acks);
    assert LineNoP(Text("acknowledgments\n")) && LineNoP(Text("NAK\n"));
    assert LineNoP(Text("ready\n")) && LineNoP(Text("packfile\n")) && LineNoP(Delim);
  }

  /** The round trip holds exactly for the non-empty packs, when acknowledgements are hex identifiers. */
  lemma SidebandExact(pack: Bytes, isV2: bool, acks: seq<Bytes>, hasHaves: bool)
    requires ShortAcks(acks) && forall i :: 0 <= i < |acks| ==> NoP(acks[i])
    ensures Extract(Format(pack, isV2, acks, hasHaves)) == (if pack == [] then None else Some(pack))
  {
    if pack != [] {
      SidebandRoundTrip(pack, isV2, acks, hasHaves);
    } else {
      var ps := Packets(pack, isV2, acks, hasHaves);
      PacketsCarry(pack, isV2, acks, hasHaves);
      NotRawPack(ps);
      PreambleNoP(isV2, acks, hasHaves);
      forall i | 0 <= i < |ps| ensures NoP(Parts(ps)[i]) {
        assert LineNoP(ps[i]);
        EncodeNoP(ps[i]);
      }
      FlattenNoP(Parts(ps));
      FromNothing(Format(pack, isV2, acks, hasHaves));
    }
  }
}
