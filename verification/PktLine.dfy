/** pkt-line framing (gitprotocol-common, "pkt-line Format"). */
module PktLine {
  import opened Octets

  datatype Pkt = Flush | Delim | ResponseEnd | Line(payload: Bytes)

  // ----- Writing -----

  function HexHigh(n: nat): (s: Bytes) {
    if n == 0 then [] else HexHigh(n / 16) + [HexDigit(n % 16)]
  }

  /** `%04x`: at least four digits. */
  function Hex04(n: nat): (s: Bytes)
    ensures |s| >= 4 && (n < 0x1_0000 ==> |s| == 4)
  {
    HexHigh(n / 16 / 16 / 16 / 16)
    + [HexDigit(n / 16 / 16 / 16 % 16), HexDigit(n / 16 / 16 % 16), HexDigit(n / 16 % 16), HexDigit(n % 16)]
  }

  function Encode(p: Pkt): (e: Bytes) {
    match p
    case Flush => Ascii("0000")
    case Delim => Ascii("0001")
    case ResponseEnd => Ascii("0002")
    case Line(s) => Hex04(|s| + 4) + s
  }

  /** The encodings of the packets, in order. */
  function Parts(ps: seq<Pkt>): (parts: seq<Bytes>)
    ensures |parts| == |ps| && forall i :: 0 <= i < |ps| ==> parts[i] == Encode(ps[i])
  {
    seq(|ps|, i requires 0 <= i < |ps| => Encode(ps[i]))
  }

  function EncodeAll(ps: seq<Pkt>): (e: Bytes) {
    Flatten(Parts(ps))
  }

  lemma EncodeSnoc(a: seq<Pkt>, p: Pkt)
    ensures EncodeAll(a + [p]) == EncodeAll(a) + Encode(p)
  {
    assert Parts(a + [p]) == Parts(a) + [Encode(p)];
    FlattenSnoc(Parts(a), Encode(p));
  }

  lemma EncodeCons(p: Pkt, ps: seq<Pkt>)
    ensures EncodeAll([p] + ps) == Encode(p) + EncodeAll(ps)
  {
    assert Parts([p] + ps) == [Encode(p)] + Parts(ps);
  }

  /** A line of literal text. */
  function Text(s: string): (p: Pkt) {
    Line(Ascii(s))
  }

  /** Append one packet to a buffer; `ps` are the packets already in it. */
  method Write(buf: Bytes, p: Pkt, ghost ps: seq<Pkt>) returns (r: Bytes)
    requires buf == EncodeAll(ps)
    ensures r == EncodeAll(ps + [p])
  {
    EncodeSnoc(ps, p);
    r := buf + Encode(p);
  }

  method WriteAll(buf: Bytes, ps: seq<Pkt>, ghost before: seq<Pkt>) returns (r: Bytes)
    requires buf == EncodeAll(before)
    ensures r == EncodeAll(before + ps)
  {
    r := buf;
    ghost var done, rest := before, ps;
    assert before + ps == done + rest;
    for i := 0 to |ps|
      invariant rest == ps[i..] && done + rest == before + ps
      invariant r == EncodeAll(done)
    {
      r := Write(r, ps[i], done);
      Assoc(done, [ps[i]], ps[i + 1..]);
      assert rest == [ps[i]] + ps[i + 1..];
      done, rest := done + [ps[i]], ps[i + 1..];
    }
    assert done + [] == done;
  }

  // ----- Reading -----

  function HexVal(c: byte): (v: Option<nat>)
    ensures v.Some? ==> v.value < 16
  {
    if 48 <= c <= 57 then Some(c as int - 48)
    else if 97 <= c <= 102 then Some(c as int - 87)
    else if 65 <= c <= 70 then Some(c as int - 55)
    else None
  }

  /** The value of a digit list, or `None` at the first byte that is no digit. */
  function HexNumber(s: Bytes): (v: Option<nat>) {
    if s == [] then Some(0)
    else
      match (HexNumber(s[..|s| - 1]), HexVal(s[|s| - 1]))
      case (Some(hi), Some(lo)) => Some(16 * hi + lo)
      case _ => None
  }

  /** `strconv.ParseInt(s, 16, 32)` on four bytes: digits, or a sign and three digits. */
  function ParseInt16(s: Bytes): (v: Option<int>)
    requires |s| == 4
  {
    if s[0] == 43 then HexNumber(s[1..])
    else if s[0] == 45 then
      match HexNumber(s[1..]) case None => None case Some(n) => Some(-(n as int))
    else HexNumber(s)
  }

  /** One framing step: nothing more, a special packet, or a payload. */
  datatype Step = Stop | Skip(rest: Bytes) | Packet(payload: Bytes, rest: Bytes)

  function Cut(data: Bytes, len: Option<int>): (s: Step)
    requires |data| >= 4
    ensures !s.Stop? ==> |s.rest| < |data|
  {
    match len
    case None => Stop
    case Some(n) =>
      if 0 <= n <= 2 then Skip(data[4..])
      else if n < 4 || n > |data| then Stop
      else Packet(data[4..n], data[n..])
  }

  /** Framing as the reply reader does it, with exactly four hex digits. */
  function NextHex(data: Bytes): (s: Step)
    ensures !s.Stop? ==> |s.rest| < |data|
  {
    if |data| < 4 then Stop else Cut(data, HexNumber(data[..4]))
  }

  /** Framing as the request reader does it. */
  function NextInt(data: Bytes): (s: Step)
    ensures !s.Stop? ==> |s.rest| < |data|
  {
    if |data| < 4 then Stop else Cut(data, ParseInt16(data[..4]))
  }

  /** `parsePktLines`: the payloads up to the first malformed frame. */
  function Lines(data: Bytes): (r: seq<Bytes>)
    decreases |data|
  {
    match NextInt(data)
    case Stop => []
    case Skip(rest) => Lines(rest)
    case Packet(s, rest) => [s] + Lines(rest)
  }

  /** A frame at a position: none, a special packet of four bytes, or a payload ending at `next`. */
  datatype Frame = End | Gap | Data(packet: Bytes, next: nat)

  method ReadFrame(data: Bytes, pos: nat, length: Option<int>) returns (f: Frame)
    requires pos + 4 <= |data|
    ensures f.End? ==> Cut(data[pos..], length) == Stop
    ensures f.Gap? ==> Cut(data[pos..], length) == Skip(data[pos + 4..])
    ensures f.Data? ==> pos + 4 <= f.next <= |data| && Cut(data[pos..], length) == Packet(f.packet, data[f.next..])
  {
    if length.None? {
      return End;
    }
    if length.value == 0 || length.value == 1 || length.value == 2 {
      DropDrop(data, pos, 4);
      return Gap;
    }
    if length.value < 4 || pos + length.value > |data| {
      return End;
    }
    DropDrop(data, pos, length.value);
    assert data[pos..][4..length.value] == data[pos + 4..pos + length.value];
    return Data(data[pos + 4..pos + length.value], pos + length.value);
  }

  method ParsePktLines(data: Bytes) returns (lines: seq<Bytes>)
    ensures lines == Lines(data)
  {
    lines := [];
    var pos: nat := 0;
    ghost var rest := Lines(data);
    assert data[0..] == data && lines + rest == rest;
    while pos + 4 <= |data|
      invariant pos <= |data|
      invariant rest == Lines(data[pos..]) && lines + rest == Lines(data)
    {
      var length := ParseInt16(data[pos..pos + 4]);
      assert data[pos..][..4] == data[pos..pos + 4];
      LinesStep(data[pos..], Cut(data[pos..], length));
      var f := ReadFrame(data, pos, length);
      match f {
        case End =>
          break;
        case Gap =>
          pos := pos + 4;
        case Data(line, next) =>
          pos := next;
          rest := Lines(data[pos..]);
          Assoc(lines, [line], rest);
          lines := lines + [line];
      }
    }
    assert rest == [];
    assert lines + [] == lines;
  }

  // ----- Reading back -----

  lemma HexDigitVal(d: nat)
    requires d < 16
    ensures HexVal(HexDigit(d)) == Some(d)
  {
  }

  lemma HexNumberStep(s: Bytes, hi: nat, d: nat)
    requires d < 16 && HexNumber(s) == Some(hi)
    ensures HexNumber(s + [HexDigit(d)]) == Some(16 * hi + d)
  {
    var t := s + [HexDigit(d)];
    assert t[..|t| - 1] == s;
    HexDigitVal(d);
  }

  lemma HexLength(n: nat)
    requires n < 0x1_0000
    ensures HexNumber(Hex04(n)) == Some(n) && ParseInt16(Hex04(n)) == Some(n)
  {
    var a, b, c, d := n / 16 / 16 / 16, n / 16 / 16, n / 16, n;
    assert Hex04(n) == [HexDigit(a), HexDigit(b % 16), HexDigit(c % 16), HexDigit(d % 16)];
    HexDigits4(a, b % 16, c % 16, d % 16);
  }

  lemma HexDigits4(a: nat, b: nat, c: nat, d: nat)
    requires a < 16 && b < 16 && c < 16 && d < 16
    ensures HexNumber([HexDigit(a), HexDigit(b), HexDigit(c), HexDigit(d)]) == Some(16 * (16 * (16 * a + b) + c) + d)
  {
    var e := [HexDigit(a), HexDigit(b), HexDigit(c), HexDigit(d)];
    assert e[..1] == [] + [HexDigit(a)] && e[..2] == e[..1] + [HexDigit(b)];
    assert e[..3] == e[..2] + [HexDigit(c)] && e == e[..3] + [HexDigit(d)];
    HexNumberStep([], 0, a);
    HexNumberStep(e[..1], a, b);
    HexNumberStep(e[..2], 16 * a + b, c);
    HexNumberStep(e[..3], 16 * (16 * a + b) + c, d);
  }

  /** Payloads whose length still fits four hex digits. */
  predicate Short(p: Pkt) {
    p.Line? ==> |p.payload| <= 65531
  }

  function StepOf(p: Pkt, rest: Bytes): (s: Step) {
    match p case Line(s) => Packet(s, rest) case _ => Skip(rest)
  }

  lemma FrameCut(n: nat, h: Bytes, body: Bytes, rest: Bytes)
    requires |h| == 4 && n < 0x1_0000
    requires HexNumber(h) == Some(n) && ParseInt16(h) == Some(n)
    requires n <= 2 ==> body == []
    requires n > 2 ==> n == |body| + 4
    ensures NextInt(h + body + rest) == NextHex(h + body + rest) == if n <= 2 then Skip(rest) else Packet(body, rest)
  {
    var d := h + body + rest;
    assert d[..4] == h;
    if n <= 2 {
      assert d[4..] == rest;
    } else {
      assert d[4..n] == body && d[n..] == rest;
    }
  }

  /** Either reader sees the packet that was written. */
  lemma FramePkt(p: Pkt, rest: Bytes)
    requires Short(p)
    ensures NextInt(Encode(p) + rest) == NextHex(Encode(p) + rest) == StepOf(p, rest)
  {
    match p {
      case Line(s) =>
        HexLength(|s| + 4);
        FrameCut(|s| + 4, Hex04(|s| + 4), s, rest);
      case Flush => Special(0, Ascii("0000"), rest);
      case Delim => Special(1, Ascii("0001"), rest);
      case ResponseEnd => Special(2, Ascii("0002"), rest);
    }
  }

  lemma Special(n: nat, h: Bytes, rest: Bytes)
    requires n <= 2 && |h| == 4 && h[0] == 48 && h[1] == 48 && h[2] == 48 && h[3] == 48 + n
    ensures NextInt(h + rest) == NextHex(h + rest) == Skip(rest)
  {
    HexLength(n);
    assert h == Hex04(n);
    assert h + rest == h + [] + rest;
    FrameCut(n, h, [], rest);
  }

  function Payloads(ps: seq<Pkt>): (r: seq<Bytes>) {
    if ps == [] then []
    else (if ps[0].Line? then [ps[0].payload] else []) + Payloads(ps[1..])
  }

  lemma {:induction false} PayloadsAppend(a: seq<Pkt>, b: seq<Pkt>)
    ensures Payloads(a + b) == Payloads(a) + Payloads(b)
  {
    if a == [] {
      assert a + b == b;
    } else {
      PayloadsAppend(a[1..], b);
      assert (a + b)[1..] == a[1..] + b;
      Assoc(if a[0].Line? then [a[0].payload] else [], Payloads(a[1..]), Payloads(b));
    }
  }

  /** Any packet list with short payloads and interleaved special packets reads back as its payloads. */
  lemma {:induction false} LinesRoundTrip(ps: seq<Pkt>)
    requires forall i :: 0 <= i < |ps| ==> Short(ps[i])
    ensures Lines(EncodeAll(ps)) == Payloads(ps)
  {
    if ps != [] {
      var p, rest := ps[0], ps[1..];
      assert ps == [p] + rest;
      EncodeCons(p, rest);
      FramePkt(p, EncodeAll(rest));
      LinesStep(Encode(p) + EncodeAll(rest), StepOf(p, EncodeAll(rest)));
      LinesRoundTrip(rest);
    }
  }

  lemma LinesStep(data: Bytes, s: Step)
    requires NextInt(data) == s
    ensures Lines(data) ==
      match s
      case Stop => []
      case Skip(rest) => Lines(rest)
      case Packet(x, rest) => [x] + Lines(rest)
  {
  }
}
