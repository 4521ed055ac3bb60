/**
 Fetch requests (gitprotocol-v2, "fetch"): the strict parser and the builder of the
 request sent upstream.  White space is ASCII white space.
 */
module FetchRequest {
  import opened Octets
  import opened PktLine
  import opened Reach
  import opened Words

  // ----- Text -----

  predicate IsHex(c: byte) {
    48 <= c <= 57 || 97 <= c <= 102 || 65 <= c <= 70
  }

  predicate IsHexOid(s: Bytes) {
    (|s| == 40 || |s| == 64) && forall i :: 0 <= i < |s| ==> IsHex(s[i])
  }

  predicate AnyPrefix(s: Bytes, prefixes: seq<Bytes>) {
    exists i :: 0 <= i < |prefixes| && HasPrefix(s, prefixes[i])
  }

  predicate IsRecognizedCapability(c: Bytes) {
    || c in [Ascii("multi_ack"), Ascii("multi_ack_detailed"), Ascii("no-done"), Ascii("side-band"),
             Ascii("side-band-64k"), Ascii("thin-pack"), Ascii("ofs-delta"), Ascii("no-progress"), Ascii("include-tag")]
    || AnyPrefix(c, [Ascii("agent="), Ascii("object-format="), Ascii("session-id="), Ascii("symref="),
                     Ascii("clnt-os="), Ascii("clnt-version=")])
  }

  predicate IsRecognizedV2Argument(a: Bytes) {
    || a in [Ascii("thin-pack"), Ascii("no-progress"), Ascii("include-tag"), Ascii("ofs-delta"), Ascii("sideband-all"),
             Ascii("wait-for-done")]
    || AnyPrefix(a, [Ascii("agent="), Ascii("object-format="), Ascii("session-id=")])
  }

  // ----- Parsing -----

  datatype Request = Request(wants: seq<Bytes>, haves: seq<Bytes>, isV2: bool, done: bool)

  const EMPTY: Request := Request([], [], false, false)

  /** Append unless present, the effect of the set kept beside each list. */
  function AddNew(xs: seq<Bytes>, x: Bytes): (r: seq<Bytes>) {
    if x in xs then xs else xs + [x]
  }

  predicate AllCapabilities(ws: seq<Bytes>) {
    forall i :: 0 <= i < |ws| ==> IsRecognizedCapability(ws[i])
  }

  /** The effect of one line, already trimmed; `None` rejects the request. */
  function Interpret(req: Request, t: Bytes): (r: Option<Request>) {
    if t == [] then Some(req)
    else if t == Ascii("command=fetch") then Some(req.(isV2 := true))
    else if HasPrefix(t, Ascii("want ")) then
      var ws := Fields(t[5..]);
      if ws == [] || !IsHexOid(ws[0]) || !AllCapabilities(ws[1..]) then None
      else Some(req.(wants := AddNew(req.wants, ws[0])))
    else if HasPrefix(t, Ascii("have ")) then
      var ws := Fields(t[5..]);
      if ws == [] || !IsHexOid(ws[0]) then None else Some(req.(haves := AddNew(req.haves, ws[0])))
    else if t == Ascii("done") then Some(req.(done := true))
    else if IsRecognizedV2Argument(t) then Some(req)
    else None
  }

  function InterpretAll(req: Request, lines: seq<Bytes>): (r: Option<Request>)
    decreases |lines|
  {
    if lines == [] then Some(req)
    else
      match Interpret(req, Trim(lines[0]))
      case None => None
      case Some(next) => InterpretAll(next, lines[1..])
  }

  function ParseFetch(body: Bytes): (r: Option<Request>) {
    var lines := Lines(body);
    if lines == [] then None
    else
      match InterpretAll(EMPTY, lines)
      case None => None
      case Some(req) => if req.wants == [] then None else Some(req)
  }

  method CheckCapabilities(caps: seq<Bytes>) returns (ok: bool)
    ensures ok <==> AllCapabilities(caps)
  {
    for i := 0 to |caps|
      invariant forall j :: 0 <= j < i ==> IsRecognizedCapability(caps[j])
    {
      if !IsRecognizedCapability(caps[i]) {
        return false;
      }
    }
    return true;
  }

  method InterpretLine(req: Request, line: Bytes) returns (r: Option<Request>)
    ensures r == Interpret(req, Trim(line))
  {
    var trimmed := Trim(line);
    if trimmed == [] {
      return Some(req);
    }
    if trimmed == Ascii("command=fetch") {
      return Some(req.(isV2 := true));
    }
    if HasPrefix(trimmed, Ascii("want ")) {
      var fields := Fields(trimmed[5..]);
      if |fields| == 0 || !IsHexOid(fields[0]) {
        return None;
      }
      var ok := CheckCapabilities(fields[1..]);
      if !ok {
        return None;
      }
      return Some(req.(wants := AddNew(req.wants, fields[0])));
    }
    if HasPrefix(trimmed, Ascii("have ")) {
      var fields := Fields(trimmed[5..]);
      if |fields| == 0 || !IsHexOid(fields[0]) {
        return None;
      }
      return Some(req.(haves := AddNew(req.haves, fields[0])));
    }
    if trimmed == Ascii("done") {
      return Some(req.(done := true));
    }
    return if IsRecognizedV2Argument(trimmed) then Some(req) else None;
  }

  method ParseFetchRequest(body: Bytes) returns (r: Option<Request>)
    ensures r == ParseFetch(body)
  {
    var lines := ParsePktLines(body);
    if |lines| == 0 {
      return None;
    }
    var req := EMPTY;
    assert lines[0..] == lines;
    for i := 0 to |lines|
      invariant InterpretAll(EMPTY, lines) == InterpretAll(req, lines[i..])
    {
      assert lines[i..][1..] == lines[i + 1..] && lines[i..][0] == lines[i];
      var next := InterpretLine(req, lines[i]);
      if next.None? {
        return None;
      }
      req := next.value;
    }
    if |req.wants| == 0 {
      return None;
    }
    return Some(req);
  }

  /** Hexadecimal identifiers, none twice. */
  ghost predicate HexRequest(req: Request) {
    && (forall i :: 0 <= i < |req.wants| ==> IsHexOid(req.wants[i]))
    && (forall i :: 0 <= i < |req.haves| ==> IsHexOid(req.haves[i]))
    && NoDup(req.wants) && NoDup(req.haves)
  }

  lemma AddNewOnce(xs: seq<Bytes>, x: Bytes)
    requires NoDup(xs)
    ensures NoDup(AddNew(xs, x))
  {
    if x !in xs { NoDupSnoc(xs, x); }
  }

  lemma InterpretHex(req: Request, t: Bytes)
    requires HexRequest(req) && Interpret(req, t).Some?
    ensures HexRequest(Interpret(req, t).value)
  {
    var r := Interpret(req, t).value;
    if r.wants != req.wants { AddNewOnce(req.wants, r.wants[|r.wants| - 1]); }
    if r.haves != req.haves { AddNewOnce(req.haves, r.haves[|r.haves| - 1]); }
  }

  lemma {:induction false} InterpretAllHex(req: Request, lines: seq<Bytes>)
    requires HexRequest(req) && InterpretAll(req, lines).Some?
    ensures HexRequest(InterpretAll(req, lines).value)
    decreases |lines|
  {
    if lines != [] {
      InterpretHex(req, Trim(lines[0]));
      InterpretAllHex(Interpret(req, Trim(lines[0])).value, lines[1..]);
    }
  }

  /** An accepted request names hex identifiers only, each once, and at least one want. */
  lemma AcceptedHex(body: Bytes)
    requires ParseFetch(body).Some?
    ensures HexRequest(ParseFetch(body).value) && ParseFetch(body).value.wants != []
  {
    InterpretAllHex(EMPTY, Lines(body));
  }

  // ----- Building -----

  function WantLine(oid: Bytes): (p: Pkt) {
    Line(Ascii("want ") + oid + Ascii("\n"))
  }

  function FirstWantLine(oid: Bytes): (p: Pkt) {
    Line(Ascii("want ") + (oid + CAPS) + Ascii("\n"))
  }

  /** The capabilities behind the first want of a version 0 request, with their leading space. */
  const CAPS: Bytes := [32] + (Ascii("multi_ack_detailed")
    + ([32] + (Ascii("side-band-64k") + ([32] + Ascii("ofs-delta")))))

  function HaveLine(oid: Bytes): (p: Pkt) {
    Line(Ascii("have ") + oid + Ascii("\n"))
  }

  function WantLines(oids: seq<Bytes>): (ps: seq<Pkt>)
    ensures |ps| == |oids| && forall i :: 0 <= i < |oids| ==> ps[i] == WantLine(oids[i])
  {
    seq(|oids|, i requires 0 <= i < |oids| => WantLine(oids[i]))
  }

  function HaveLines(oids: seq<Bytes>): (ps: seq<Pkt>)
    ensures |ps| == |oids| && forall i :: 0 <= i < |oids| ==> ps[i] == HaveLine(oids[i])
  {
    seq(|oids|, i requires 0 <= i < |oids| => HaveLine(oids[i]))
  }

  /** The fixed head of a version 2 request. */
  const HEAD: seq<Pkt> := [Text("command=fetch\n"), Text("agent=gitproxy\n"), Delim, Text("thin-pack\n"),
    Text("ofs-delta\n")]

  function RequestPkts(wants: seq<Bytes>, haves: seq<Bytes>, isV2: bool): (ps: seq<Pkt>) {
    if isV2 then
      HEAD + WantLines(wants) + HaveLines(haves) + [Text("done\n")] + [Flush]
    else
      FirstWants(wants) + [Flush] + HaveLines(haves) + [Text("done\n")]
  }

  function FirstWants(wants: seq<Bytes>): (ps: seq<Pkt>) {
    if wants == [] then [] else [FirstWantLine(wants[0])] + WantLines(wants[1..])
  }

  method BuildUpstreamFetchRequest(wants: seq<Bytes>, haves: seq<Bytes>, isV2: bool) returns (buf: Bytes)
    ensures buf == EncodeAll(RequestPkts(wants, haves, isV2))
  {
    if isV2 {
      buf := WriteAll([], HEAD, []);
      assert [] + HEAD == HEAD;
      buf := WriteAll(buf, WantLines(wants), HEAD);
      buf := WriteAll(buf, HaveLines(haves), HEAD + WantLines(wants));
      buf := WriteAll(buf, [Text("done\n")], HEAD + WantLines(wants) + HaveLines(haves));
      buf := WriteAll(buf, [Flush], HEAD + WantLines(wants) + HaveLines(haves) + [Text("done\n")]);
    } else {
      var first := FirstWants(wants);
      buf := WriteAll([], first, []);
      assert [] + first == first;
      buf := WriteAll(buf, [Flush], first);
      buf := WriteAll(buf, HaveLines(haves), first + [Flush]);
      buf := WriteAll(buf, [Text("done\n")], first + [Flush] + HaveLines(haves));
    }
  }

  // ----- Round trip -----

  lemma HexOidWord(oid: Bytes)
    requires IsHexOid(oid)
    ensures IsWord(oid)
  {
  }

  lemma InterpretWant(req: Request, oid: Bytes)
    requires IsHexOid(oid)
    ensures Interpret(req, Trim(WantLine(oid).payload)) == Some(req.(wants := AddNew(req.wants, oid)))
  {
    var w := Ascii("want ");
    var t := w + oid;
    HexOidWord(oid);
    assert WantLine(oid).payload == t + [10];
    TrimLine(t);
    DropAppend(w, oid);
    FieldsLast(oid);
    assert t[0] == 119;
  }

  lemma InterpretHave(req: Request, oid: Bytes)
    requires IsHexOid(oid)
    ensures Interpret(req, Trim(HaveLine(oid).payload)) == Some(req.(haves := AddNew(req.haves, oid)))
  {
    var h := Ascii("have ");
    var t := h + oid;
    HexOidWord(oid);
    assert HaveLine(oid).payload == t + [10];
    TrimLine(t);
    DropAppend(h, oid);
    FieldsLast(oid);
    assert t[0] == 104 && t[..5][0] == 104;
  }

  lemma SpacedWord(w: Bytes, rest: Bytes)
    requires IsWord(w) && (rest == [] || IsSpace(rest[0]))
    ensures Fields([32] + (w + rest)) == [w] + Fields(rest)
  {
    FieldsSpace(w + rest);
    FieldsWord(w, rest);
  }

  lemma CapWords()
    ensures IsWord(Ascii("multi_ack_detailed")) && IsWord(Ascii("side-band-64k")) && IsWord(Ascii("ofs-delta"))
  {
  }

  lemma CapFields()
    ensures Fields(CAPS) == [Ascii("multi_ack_detailed")] + ([Ascii("side-band-64k")] + [Ascii("ofs-delta")])
  {
    CapWords();
    var c := Ascii("ofs-delta");
    FieldsSpace(c);
    FieldsLast(c);
    SpacedWord(Ascii("side-band-64k"), [32] + c);
    SpacedWord(Ascii("multi_ack_detailed"), [32] + (Ascii("side-band-64k") + ([32] + c)));
  }

  lemma CapsRecognized()
    ensures AllCapabilities(Fields(CAPS))
  {
    CapFields();
  }

  lemma InterpretFirstWant(req: Request, oid: Bytes)
    requires IsHexOid(oid)
    ensures Interpret(req, Trim(FirstWantLine(oid).payload)) == Some(req.(wants := AddNew(req.wants, oid)))
  {
    var w := Ascii("want ");
    var t := w + (oid + CAPS);
    HexOidWord(oid);
    assert FirstWantLine(oid).payload == t + [10];
    assert t[|t| - 1] == CAPS[|CAPS| - 1] == Ascii("ofs-delta")[8];
    TrimLine(t);
    DropAppend(w, oid + CAPS);
    FieldsWord(oid, CAPS);
    CapsRecognized();
    assert t[0] == 119;
    var ws := Fields(oid + CAPS);
    assert ws[0] == oid && ws[1..] == Fields(CAPS);
  }

  lemma InterpretCommand(req: Request)
    ensures Interpret(req, Trim(Ascii("command=fetch\n"))) == Some(req.(isV2 := true))
  {
    assert Ascii("command=fetch\n") == Ascii("command=fetch") + [10];
    TrimLine(Ascii("command=fetch"));
  }

  lemma InterpretDone(req: Request)
    ensures Interpret(req, Trim(Ascii("done\n"))) == Some(req.(done := true))
  {
    var t := Ascii("done");
    assert Ascii("done\n") == t + [10];
    TrimLine(t);
  }

  lemma InterpretArgument(req: Request, t: Bytes)
    requires IsRecognizedV2Argument(t) && t != [] && !IsSpace(t[0]) && !IsSpace(t[|t| - 1])
    requires t[0] != 99 && t[0] != 119 && t[0] != 104 && t[0] != 100
    ensures Interpret(req, Trim(t + [10])) == Some(req)
  {
    TrimLine(t);
    FirstByte(t, Ascii("want "));
    FirstByte(t, Ascii("have "));
  }

  lemma FirstByte(t: Bytes, p: Bytes)
    requires p != [] && t != [] && t[0] != p[0]
    ensures !HasPrefix(t, p)
  {
    if |p| <= |t| {
      assert t[..|p|][0] == t[0];
    }
  }

  lemma {:induction false} InterpretAppend(req: Request, a: seq<Bytes>, b: seq<Bytes>, mid: Request)
    requires InterpretAll(req, a) == Some(mid)
    ensures InterpretAll(req, a + b) == InterpretAll(mid, b)
    decreases |a|
  {
    if a == [] {
      assert a + b == b;
    } else {
      assert (a + b)[1..] == a[1..] + b;
      InterpretAppend(Interpret(req, Trim(a[0])).value, a[1..], b, mid);
    }
  }

  lemma InterpretOne(req: Request, line: Bytes, next: Request)
    requires Interpret(req, Trim(line)) == Some(next)
    ensures InterpretAll(req, [line]) == Some(next)
  {
    assert [line][1..] == [];
    assert InterpretAll(next, []) == Some(next);
  }

  /** Add all, in order. */
  function AddAll(xs: seq<Bytes>, ys: seq<Bytes>): (r: seq<Bytes>)
    decreases |ys|
  {
    if ys == [] then xs else AddAll(AddNew(xs, ys[0]), ys[1..])
  }

  lemma {:induction false} InterpretWants(req: Request, oids: seq<Bytes>)
    requires forall i :: 0 <= i < |oids| ==> IsHexOid(oids[i])
    ensures InterpretAll(req, Payloads(WantLines(oids))) == Some(req.(wants := AddAll(req.wants, oids)))
    decreases |oids|
  {
    if oids != [] {
      assert WantLines(oids) == [WantLine(oids[0])] + WantLines(oids[1..]);
      InterpretWant(req, oids[0]);
      InterpretWants(req.(wants := AddNew(req.wants, oids[0])), oids[1..]);
      assert Payloads(WantLines(oids))[1..] == Payloads(WantLines(oids[1..]));
    }
  }

  lemma {:induction false} InterpretHaves(req: Request, oids: seq<Bytes>)
    requires forall i :: 0 <= i < |oids| ==> IsHexOid(oids[i])
    ensures InterpretAll(req, Payloads(HaveLines(oids))) == Some(req.(haves := AddAll(req.haves, oids)))
    decreases |oids|
  {
    if oids != [] {
      assert HaveLines(oids) == [HaveLine(oids[0])] + HaveLines(oids[1..]);
      InterpretHave(req, oids[0]);
      InterpretHaves(req.(haves := AddNew(req.haves, oids[0])), oids[1..]);
      assert Payloads(HaveLines(oids))[1..] == Payloads(HaveLines(oids[1..]));
    }
  }

  lemma PayloadOne(p: Pkt)
    ensures Payloads([p]) == if p.Line? then [p.payload] else []
  {
    assert [p][1..] == [];
  }

  lemma InterpretText(req: Request, s: string, next: Request)
    requires Interpret(req, Trim(Ascii(s))) == Some(next)
    ensures InterpretAll(req, Payloads([Text(s)])) == Some(next)
  {
    PayloadOne(Text(s));
    InterpretOne(req, Ascii(s), next);
  }

  /** Packets `a` then `b`, when `a` leads from `req` to `mid` and `b` from there to `next`. */
  lemma InterpretBoth(req: Request, a: seq<Pkt>, mid: Request, b: seq<Pkt>, next: Request)
    requires InterpretAll(req, Payloads(a)) == Some(mid) && InterpretAll(mid, Payloads(b)) == Some(next)
    ensures InterpretAll(req, Payloads(a + b)) == Some(next)
  {
    PayloadsAppend(a, b);
    InterpretAppend(req, Payloads(a), Payloads(b), mid);
  }

  lemma InterpretArguments(req: Request)
    ensures Interpret(req, Trim(Ascii("agent=gitproxy\n"))) == Some(req)
    ensures Interpret(req, Trim(Ascii("thin-pack\n"))) == Some(req)
    ensures Interpret(req, Trim(Ascii("ofs-delta\n"))) == Some(req)
  {
    var a, t, o := Ascii("agent=gitproxy"), Ascii("thin-pack"), Ascii("ofs-delta");
    assert Ascii("agent=gitproxy\n") == a + [10];
    assert Ascii("thin-pack\n") == t + [10] && Ascii("ofs-delta\n") == o + [10];
    AgentPrefix();
    InterpretArgument(req, a);
    InterpretArgument(req, t);
    InterpretArgument(req, o);
  }

  lemma AgentPrefix()
    ensures IsRecognizedV2Argument(Ascii("agent=gitproxy"))
  {
    var ps := [Ascii("agent="), Ascii("object-format="), Ascii("session-id=")];
    assert HasPrefix(Ascii("agent=gitproxy"), ps[0]) by {
      assert Ascii("agent=gitproxy")[..6] == Ascii("agent=");
    }
    assert AnyPrefix(Ascii("agent=gitproxy"), ps);
  }

  lemma HeadPayloads()
    ensures Payloads(HEAD)
         == [Ascii("command=fetch\n")] + ([Ascii("agent=gitproxy\n")]
           + ([Ascii("thin-pack\n")] + [Ascii("ofs-delta\n")]))
  {
    assert HEAD[1..][1..] == [Delim, Text("thin-pack\n"), Text("ofs-delta\n")];
    assert HEAD[1..][1..][1..][1..][1..] == [];
  }

  lemma InterpretStep(req: Request, line: Bytes, rest: seq<Bytes>, next: Request)
    requires Interpret(req, Trim(line)) == Some(next)
    ensures InterpretAll(req, [line] + rest) == InterpretAll(next, rest)
  {
    assert ([line] + rest)[1..] == rest;
  }

  lemma InterpretHead()
    ensures InterpretAll(EMPTY, Payloads(HEAD)) == Some(EMPTY.(isV2 := true))
  {
    var r := EMPTY.(isV2 := true);
    var o := [Ascii("ofs-delta\n")];
    var t := [Ascii("thin-pack\n")] + o;
    var a := [Ascii("agent=gitproxy\n")] + t;
    HeadPayloads();
    InterpretCommand(EMPTY);
    InterpretArguments(r);
    InterpretStep(EMPTY, Ascii("command=fetch\n"), a, r);
    InterpretStep(r, Ascii("agent=gitproxy\n"), t, r);
    InterpretStep(r, Ascii("thin-pack\n"), o, r);
    InterpretOne(r, Ascii("ofs-delta\n"), r);
  }

  lemma InterpretNone(req: Request, p: Pkt)
    requires !p.Line?
    ensures InterpretAll(req, Payloads([p])) == Some(req)
  {
    PayloadOne(p);
  }

  lemma InterpretFirstWants(wants: seq<Bytes>)
    requires wants != [] && forall i :: 0 <= i < |wants| ==> IsHexOid(wants[i])
    ensures InterpretAll(EMPTY, Payloads(FirstWants(wants))) == Some(EMPTY.(wants := AddAll([], wants)))
  {
    var mid := EMPTY.(wants := AddNew([], wants[0]));
    InterpretFirstWant(EMPTY, wants[0]);
    PayloadOne(FirstWantLine(wants[0]));
    InterpretOne(EMPTY, FirstWantLine(wants[0]).payload, mid);
    InterpretWants(mid, wants[1..]);
    InterpretBoth(EMPTY, [FirstWantLine(wants[0])], mid, WantLines(wants[1..]), EMPTY.(wants := AddAll([], wants)));
  }

  lemma InterpretV2(wants: seq<Bytes>, haves: seq<Bytes>)
    requires forall i :: 0 <= i < |wants| ==> IsHexOid(wants[i])
    requires forall i :: 0 <= i < |haves| ==> IsHexOid(haves[i])
    ensures InterpretAll(EMPTY, Payloads(RequestPkts(wants, haves, true)))
         == Some(Request(AddAll([], wants), AddAll([], haves), true, true))
  {
    var r0 := EMPTY.(isV2 := true);
    var r1 := r0.(wants := AddAll([], wants));
    var r2 := r1.(haves := AddAll([], haves));
    var r3 := r2.(done := true);
    var w, h := WantLines(wants), HaveLines(haves);
    InterpretHead();
    InterpretWants(r0, wants);
    InterpretBoth(EMPTY, HEAD, r0, w, r1);
    InterpretHaves(r1, haves);
    InterpretBoth(EMPTY, HEAD + w, r1, h, r2);
    InterpretDone(r2);
    InterpretText(r2, "done\n", r3);
    InterpretBoth(EMPTY, HEAD + w + h, r2, [Text("done\n")], r3);
    InterpretNone(r3, Flush);
    InterpretBoth(EMPTY, HEAD + w + h + [Text("done\n")], r3, [Flush], r3);
  }

  lemma InterpretV0(wants: seq<Bytes>, haves: seq<Bytes>)
    requires wants != [] && forall i :: 0 <= i < |wants| ==> IsHexOid(wants[i])
    requires forall i :: 0 <= i < |haves| ==> IsHexOid(haves[i])
    ensures InterpretAll(EMPTY, Payloads(RequestPkts(wants, haves, false)))
         == Some(Request(AddAll([], wants), AddAll([], haves), false, true))
  {
    var r1 := EMPTY.(wants := AddAll([], wants));
    var r2 := r1.(haves := AddAll([], haves));
    var r3 := r2.(done := true);
    var w, h := FirstWants(wants), HaveLines(haves);
    InterpretFirstWants(wants);
    InterpretNone(r1, Flush);
    InterpretBoth(EMPTY, w, r1, [Flush], r1);
    InterpretHaves(r1, haves);
    InterpretBoth(EMPTY, w + [Flush], r1, h, r2);
    InterpretDone(r2);
    InterpretText(r2, "done\n", r3);
    InterpretBoth(EMPTY, w + [Flush] + h, r2, [Text("done\n")], r3);
  }

  /** Adding all keeps first occurrences: no repetition and nothing lost. */
  lemma {:induction false} AddAllSet(xs: seq<Bytes>, ys: seq<Bytes>)
    requires NoDup(xs)
    ensures NoDup(AddAll(xs, ys)) && forall x :: x in AddAll(xs, ys) <==> x in xs || x in ys
    decreases |ys|
  {
    if ys != [] {
      AddNewOnce(xs, ys[0]);
      AddAllSet(AddNew(xs, ys[0]), ys[1..]);
      assert forall x :: x in ys <==> x == ys[0] || x in ys[1..];
    }
  }

  lemma {:induction false} AddAllSame(xs: seq<Bytes>, ys: seq<Bytes>)
    requires NoDup(xs + ys)
    ensures AddAll(xs, ys) == xs + ys
    decreases |ys|
  {
    if ys == [] {
      assert xs + ys == xs;
    } else {
      NotRepeated(xs, ys);
      assert (xs + [ys[0]]) + ys[1..] == xs + ys;
      AddAllSame(xs + [ys[0]], ys[1..]);
    }
  }

  lemma NotRepeated(xs: seq<Bytes>, ys: seq<Bytes>)
    requires ys != [] && NoDup(xs + ys)
    ensures ys[0] !in xs
  {
    assert (xs + ys)[|xs|] == ys[0];
    assert forall i :: 0 <= i < |xs| ==> Differ(xs + ys, i, |xs|) ==> (xs + ys)[i] == xs[i] != ys[0];
  }

  lemma ShortRequest(wants: seq<Bytes>, haves: seq<Bytes>, isV2: bool)
    requires forall i :: 0 <= i < |wants| ==> IsHexOid(wants[i])
    requires forall i :: 0 <= i < |haves| ==> IsHexOid(haves[i])
    ensures var ps := RequestPkts(wants, haves, isV2); forall i :: 0 <= i < |ps| ==> Short(ps[i])
  {
  }

  lemma FinishParse(body: Bytes, req: Request)
    requires InterpretAll(EMPTY, Lines(body)) == Some(req) && req.wants != []
    ensures ParseFetch(body) == Some(req)
  {
    assert InterpretAll(EMPTY, []) == Some(EMPTY);
  }

  /**
   A request built for upstream parses back: same version, done set, and the wants and
   haves with repetitions removed.
   */
  lemma RequestRoundTrip(wants: seq<Bytes>, haves: seq<Bytes>, isV2: bool)
    requires wants != [] && forall i :: 0 <= i < |wants| ==> IsHexOid(wants[i])
    requires forall i :: 0 <= i < |haves| ==> IsHexOid(haves[i])
    ensures ParseFetch(EncodeAll(RequestPkts(wants, haves, isV2)))
         == Some(Request(AddAll([], wants), AddAll([], haves), isV2, true))
  {
    ShortRequest(wants, haves, isV2);
    LinesRoundTrip(RequestPkts(wants, haves, isV2));
    if isV2 { InterpretV2(wants, haves); } else { InterpretV0(wants, haves); }
    AddAllSet([], wants);
    assert wants[0] in AddAll([], wants);
    FinishParse(EncodeAll(RequestPkts(wants, haves, isV2)), Request(AddAll([], wants), AddAll([], haves), isV2, true));
  }

  /** Distinct wants and haves come back exactly. */
  lemma DistinctRoundTrip(wants: seq<Bytes>, haves: seq<Bytes>, isV2: bool)
    requires wants != [] && forall i :: 0 <= i < |wants| ==> IsHexOid(wants[i])
    requires forall i :: 0 <= i < |haves| ==> IsHexOid(haves[i])
    requires NoDup(wants) && NoDup(haves)
    ensures ParseFetch(EncodeAll(RequestPkts(wants, haves, isV2))) == Some(Request(wants, haves, isV2, true))
  {
    DistinctKept(wants);
    DistinctKept(haves);
    RequestRoundTrip(wants, haves, isV2);
  }

  lemma DistinctKept(xs: seq<Bytes>)
    requires NoDup(xs)
    ensures AddAll([], xs) == xs
  {
    assert [] + xs == xs;
    AddAllSame([], xs);
  }
}
