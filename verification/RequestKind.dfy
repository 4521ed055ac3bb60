/** Classification of Git HTTP requests; only content-addressed ones are cacheable. */
module RequestKind {
  import opened Octets
  import opened PktLine
  import opened FetchRequest
  import opened Words

  datatype Kind = Other | Refs | UploadPackFetch | UploadPackLsRefs | ContentObject | ReceivePack

  /** What classification and the cache key read of a request whose upstream is resolved. */
  datatype HttpRequest = HttpRequest(
    method_: Bytes, path: Bytes, service: Bytes, proto: Bytes, url: Bytes, body: Bytes)

  predicate HasSuffix(s: Bytes, t: Bytes) {
    |t| <= |s| && s[|s| - |t|..] == t
  }

  function TrimSlashes(s: Bytes): (r: Bytes) {
    if s != [] && s[|s| - 1] == 47 then TrimSlashes(s[..|s| - 1]) else s
  }

  // ----- Commands -----

  /** The first command line decides. */
  function LsRefsIn(lines: seq<Bytes>): (b: bool) {
    if lines == [] then false
    else if Trim(lines[0]) == Ascii("command=ls-refs") then true
    else if HasPrefix(Trim(lines[0]), Ascii("command=")) then false
    else LsRefsIn(lines[1..])
  }

  predicate HasLsRefsCommand(body: Bytes) {
    LsRefsIn(Lines(body))
  }

  predicate FetchLine(line: Bytes) {
    Trim(line) == Ascii("command=fetch") || HasPrefix(Trim(line), Ascii("want "))
  }

  predicate Contains(s: Bytes, t: Bytes) {
    HasPrefix(s, t) || (s != [] && Contains(s[1..], t))
  }

  predicate HasFetchCommand(body: Bytes) {
    || (exists i :: 0 <= i < |Lines(body)| && FetchLine(Lines(body)[i]))
    || Contains(body, Ascii("command=fetch")) || Contains(body, Ascii("want "))
  }

  // ----- Content-addressed paths -----

  predicate AllHex(s: Bytes) {
    forall i :: 0 <= i < |s| ==> IsHex(s[i])
  }

  /** `/objects/xx/` and 38 to 62 hex digits at the end. */
  predicate LooseObject(path: Bytes) {
    exists n: nat :: 38 <= n <= 62 && LooseAt(path, n)
  }

  predicate LooseAt(path: Bytes, n: nat) {
    n + 12 <= |path| &&
    var t := path[|path| - n - 12..];
    t[..9] == Ascii("/objects/") && AllHex(t[9..11]) && t[11] == 47 && AllHex(t[12..])
  }

  /** `/objects/pack/pack-`, hex digits, `.pack` or `.idx`. */
  predicate PackName(path: Bytes) {
    || (HasSuffix(path, Ascii(".pack")) && PackStem(path[..|path| - 5]))
    || (HasSuffix(path, Ascii(".idx")) && PackStem(path[..|path| - 4]))
  }

  predicate PackStem(s: Bytes) {
    exists n: nat :: 1 <= n <= |s| && PackStemAt(s, n)
  }

  predicate PackStemAt(s: Bytes, n: nat) {
    n + 19 <= |s| && AllHex(s[|s| - n..]) && s[|s| - n - 19..|s| - n] == Ascii("/objects/pack/pack-")
  }

  predicate LfsObject(path: Bytes) {
    |path| >= 82 && AllHex(path[|path| - 64..]) && path[|path| - 82..|path| - 64] == Ascii("/info/lfs/objects/")
  }

  function Classify(r: HttpRequest): (k: Kind) {
    var path := TrimSlashes(r.path);
    if HasSuffix(path, Ascii("/git-receive-pack"))
      || (HasSuffix(path, Ascii("/info/refs")) && r.service == Ascii("git-receive-pack")) then ReceivePack
    else if HasSuffix(path, Ascii("/info/refs")) || HasSuffix(path, Ascii("/HEAD")) then Refs
    else if HasSuffix(path, Ascii("/git-upload-pack")) then
      if r.method_ != Ascii("POST") then Other
      else if HasLsRefsCommand(r.body) then UploadPackLsRefs
      else if HasFetchCommand(r.body) then UploadPackFetch
      else Other
    else if r.method_ == Ascii("GET") && (LooseObject(path) || PackName(path) || LfsObject(path)) then ContentObject
    else Other
  }

  predicate IsCacheable(k: Kind) {
    k == UploadPackFetch || k == ContentObject
  }

  // ----- What is cacheable -----

  const SLASH: byte := 47

  ghost predicate IsLoose(path: Bytes, pre: Bytes, a: Bytes, b: Bytes) {
    && path == pre + (Ascii("/objects/") + a + [SLASH] + b)
    && |a| == 2 && 38 <= |b| <= 62 && AllHex(a) && AllHex(b)
  }

  /** A loose object: two hex digits, a slash, and 38 to 62 more at the end. */
  ghost predicate LoosePath(path: Bytes) {
    exists pre, a, b :: IsLoose(path, pre, a, b)
  }

  ghost predicate IsPack(path: Bytes, pre: Bytes, h: Bytes, ext: Bytes) {
    path == pre + Ascii("/objects/pack/pack-") + h + ext && h != [] && AllHex(h)
  }

  /** A pack or its index, named by hex digits. */
  ghost predicate PackPath(path: Bytes) {
    exists pre, h :: IsPack(path, pre, h, Ascii(".pack")) || IsPack(path, pre, h, Ascii(".idx"))
  }

  ghost predicate LfsPath(path: Bytes) {
    exists pre, h :: path == pre + Ascii("/info/lfs/objects/") + h && |h| == 64 && AllHex(h)
  }

  /** The path ends in the name of immutable content. */
  ghost predicate ContentPath(path: Bytes) {
    LoosePath(path) || PackPath(path) || LfsPath(path)
  }

  lemma LooseShape(path: Bytes)
    ensures LooseObject(path) <==> LoosePath(path)
  {
    if n: nat :| 38 <= n <= 62 && LooseAt(path, n) { LooseParts(path, n); }
    if pre, a, b :| IsLoose(path, pre, a, b) { LooseWhole(path, pre, a, b); }
  }

  lemma LooseParts(path: Bytes, n: nat)
    requires 38 <= n <= 62 && LooseAt(path, n)
    ensures LoosePath(path)
  {
    var k := |path| - n - 12;
    var pre, t := path[..k], path[k..];
    var a, b := t[9..11], t[12..];
    assert t == t[..9] + t[9..11] + [t[11]] + t[12..];
    assert path == pre + t;
    assert IsLoose(path, pre, a, b);
  }

  lemma LooseWhole(path: Bytes, pre: Bytes, a: Bytes, b: Bytes)
    requires IsLoose(path, pre, a, b)
    ensures LooseAt(path, |b|)
  {
    var t := Ascii("/objects/") + a + [SLASH] + b;
    DropAppend(pre, t);
    assert t[..9] == Ascii("/objects/") && t[9..11] == a && t[11] == SLASH && t[12..] == b;
  }

  lemma StemShape(s: Bytes)
    ensures PackStem(s) <==> exists pre, h :: IsPack(s, pre, h, [])
  {
    if n: nat :| 1 <= n <= |s| && PackStemAt(s, n) {
      var pre, h := s[..|s| - n - 19], s[|s| - n..];
      assert s == pre + Ascii("/objects/pack/pack-") + h + [];
      assert IsPack(s, pre, h, []);
    }
    if pre, h :| IsPack(s, pre, h, []) {
      assert s[|s| - |h|..] == h;
      assert s[|s| - |h| - 19..|s| - |h|] == Ascii("/objects/pack/pack-");
      assert PackStemAt(s, |h|);
    }
  }

  lemma ExtShape(path: Bytes, ext: Bytes)
    ensures (HasSuffix(path, ext) && PackStem(path[..|path| - |ext|])) <==> exists pre, h :: IsPack(path, pre, h, ext)
  {
    if HasSuffix(path, ext) && PackStem(path[..|path| - |ext|]) {
      var s := path[..|path| - |ext|];
      StemShape(s);
      var pre, h :| IsPack(s, pre, h, []);
      assert path == s + ext && s == pre + Ascii("/objects/pack/pack-") + h;
      assert IsPack(path, pre, h, ext);
    }
    if pre, h :| IsPack(path, pre, h, ext) {
      var s := pre + Ascii("/objects/pack/pack-") + h;
      assert path[..|path| - |ext|] == s && path[|path| - |ext|..] == ext && s == s + [];
      StemShape(s);
      assert IsPack(s, pre, h, []);
    }
  }

  lemma PackShape(path: Bytes)
    ensures PackName(path) <==> PackPath(path)
  {
    ExtShape(path, Ascii(".pack"));
    ExtShape(path, Ascii(".idx"));
  }

  lemma LfsShape(path: Bytes)
    ensures LfsObject(path) <==> LfsPath(path)
  {
    if LfsObject(path) {
      assert path == path[..|path| - 82] + Ascii("/info/lfs/objects/") + path[|path| - 64..];
    }
    if pre, h :| path == pre + Ascii("/info/lfs/objects/") + h && |h| == 64 && AllHex(h) {
      assert path[|path| - 64..] == h && path[|path| - 82..|path| - 64] == Ascii("/info/lfs/objects/");
    }
  }

  /** A path that differs from `t` in its byte `k` from the end does not end in `t`. */
  lemma OtherEnd(s: Bytes, t: Bytes, k: nat)
    requires k < |t| && k < |s| && s[|s| - 1 - k] != t[|t| - 1 - k]
    ensures !HasSuffix(s, t)
  {
    if |t| <= |s| { assert s[|s| - |t|..][|t| - 1 - k] == s[|s| - 1 - k]; }
  }

  /** Trailing hex digits, or the extension of a pack: no path of the protocol ends like that. */
  lemma ContentIsNoService(path: Bytes)
    requires LooseObject(path) || PackName(path) || LfsObject(path)
    ensures !HasSuffix(path, Ascii("/git-receive-pack")) && !HasSuffix(path, Ascii("/info/refs"))
    ensures !HasSuffix(path, Ascii("/HEAD")) && !HasSuffix(path, Ascii("/git-upload-pack"))
  {
    ContentTail(path);
    NotService(path, Ascii("/info/refs"));
    NotService(path, Ascii("/HEAD"));
    NotService(path, Ascii("/git-receive-pack"));
    NotService(path, Ascii("/git-upload-pack"));
  }

  lemma NotService(path: Bytes, t: Bytes)
    requires |path| >= 5 && path[|path| - 5] != SLASH && path[|path| - 5] != 45 && path[|path| - 1] != 115
    requires |t| >= 5 && (t[|t| - 5] == SLASH || t[|t| - 5] == 45 || t[|t| - 1] == 115)
    ensures !HasSuffix(path, t)
  {
    if t[|t| - 1] == 115 {
      OtherEnd(path, t, 0);
    } else {
      OtherEnd(path, t, 4);
    }
  }

  /** The fifth byte from the end is neither a slash nor a hyphen, and the last is not an s. */
  lemma ContentTail(path: Bytes)
    requires LooseObject(path) || PackName(path) || LfsObject(path)
    ensures |path| >= 5 && path[|path| - 5] != SLASH && path[|path| - 5] != 45 && path[|path| - 1] != 115
  {
    var n := |path|;
    if HasSuffix(path, Ascii(".pack")) && PackStem(path[..n - 5]) {
      assert path[n - 5..][0] == 46 && path[n - 5..][4] == 107;
    } else if HasSuffix(path, Ascii(".idx")) && PackStem(path[..n - 4]) {
      assert path[n - 4..][3] == 120;
      var s := path[..n - 4];
      var m: nat :| 1 <= m <= |s| && PackStemAt(s, m);
      assert s[|s| - m..][m - 1] == path[n - 5];
    } else {
      HexTail(path);
    }
  }

  lemma HexTail(path: Bytes)
    requires LooseObject(path) || LfsObject(path)
    ensures |path| >= 5 && IsHex(path[|path| - 1]) && IsHex(path[|path| - 5])
  {
    if LooseObject(path) {
      var n: nat :| 38 <= n <= 62 && LooseAt(path, n);
      var t := path[|path| - n - 12..];
      assert t[12..][n - 1] == path[|path| - 1] && t[12..][n - 5] == path[|path| - 5];
    } else {
      var h := path[|path| - 64..];
      assert h[63] == path[|path| - 1] && h[59] == path[|path| - 5];
    }
  }

  /**
   Exactly two families of requests are cacheable: fetching content that its path names by digest, and asking
   upload-pack for objects.  No earlier test of the classification gets in the way of either.
   */
  lemma CacheableExactly(r: HttpRequest)
    ensures
      var path := TrimSlashes(r.path);
      IsCacheable(Classify(r)) <==>
        || (r.method_ == Ascii("GET") && ContentPath(path))
        || (r.method_ == Ascii("POST") && HasSuffix(path, Ascii("/git-upload-pack"))
            && !HasLsRefsCommand(r.body) && HasFetchCommand(r.body))
  {
    var path := TrimSlashes(r.path);
    LooseShape(path);
    PackShape(path);
    LfsShape(path);
    if LooseObject(path) || PackName(path) || LfsObject(path) { ContentIsNoService(path); }
    if HasSuffix(path, Ascii("/git-upload-pack")) { UploadIsUpload(path); }
    assert Ascii("GET")[0] != Ascii("POST")[0];
  }

  lemma UploadIsUpload(path: Bytes)
    requires HasSuffix(path, Ascii("/git-upload-pack"))
    ensures !HasSuffix(path, Ascii("/git-receive-pack")) && !HasSuffix(path, Ascii("/info/refs"))
    ensures !HasSuffix(path, Ascii("/HEAD"))
  {
    var t := path[|path| - 16..];
    assert t[15] == path[|path| - 1] == 107 && t[10] == path[|path| - 6] == 100;
    OtherEnd(path, Ascii("/git-receive-pack"), 5);
    OtherEnd(path, Ascii("/info/refs"), 0);
    OtherEnd(path, Ascii("/HEAD"), 0);
  }

  // ----- Fetch requests of this proxy classify as fetches -----

  lemma {:induction false} NoLsRefs(lines: seq<Bytes>)
    requires forall i :: 0 <= i < |lines| ==> Trim(lines[i]) != Ascii("command=ls-refs")
    ensures !LsRefsIn(lines)
  {
    if lines != [] {
      NoLsRefs(lines[1..]);
    }
  }

  /** A body the strict parser accepts is never taken for ls-refs. */
  lemma AcceptedNotLsRefs(body: Bytes)
    requires ParseFetch(body).Some?
    ensures !HasLsRefsCommand(body)
  {
    forall i | 0 <= i < |Lines(body)| ensures Trim(Lines(body)[i]) != Ascii("command=ls-refs") {
      AcceptedLine(EMPTY, Lines(body), i);
      LsRefsRejected();
    }
    NoLsRefs(Lines(body));
  }

  lemma {:induction false} AcceptedLine(req: Request, lines: seq<Bytes>, i: nat)
    requires i < |lines| && InterpretAll(req, lines).Some?
    ensures exists q :: Interpret(q, Trim(lines[i])).Some?
    decreases i
  {
    if i == 0 {
      assert Interpret(req, Trim(lines[0])).Some?;
    } else {
      AcceptedLine(Interpret(req, Trim(lines[0])).value, lines[1..], i - 1);
    }
  }

  lemma LsRefsRejected()
    ensures forall q :: Interpret(q, Ascii("command=ls-refs")) == None
  {
    var t := Ascii("command=ls-refs");
    assert t[8] == 108 && Ascii("command=fetch")[8] == 102;
    assert t[0] == 99;
    FirstByte(t, Ascii("want "));
    FirstByte(t, Ascii("have "));
    FirstByte(t, Ascii("agent="));
    FirstByte(t, Ascii("object-format="));
    FirstByte(t, Ascii("session-id="));
    assert !IsRecognizedV2Argument(t) by {
      assert t[0] != Ascii("thin-pack")[0] && t[0] != Ascii("no-progress")[0] && t[0] != Ascii("include-tag")[0];
      assert t[0] != Ascii("ofs-delta")[0] && t[0] != Ascii("sideband-all")[0] && t[0] != Ascii("wait-for-done")[0];
    }
  }
}
