/**
 The in-pod rules the init script generates: the filter chain for outgoing packets and the nat chain
 that redirects outgoing TCP connections to the sidecar proxy.
 */
module EgressScript {
  import opened Octets
  import opened Netfilter

  /** The ports to intercept: all of them, or the words of a list. */
  datatype Intercept = AllPorts | Listed(words: seq<Bytes>)

  /** The script's settings; lists are given as their words. */
  datatype Env = Env(
    v4: bool, action: Bytes, proxyPort: Bytes, httpsPort: Bytes, proxyUid: Bytes, allowMetadata: Bytes,
    intercept: Intercept, dns: seq<Bytes>, cidrs: seq<Bytes>, ports: seq<Bytes>)

  const LO := Ascii("lo")
  const OUTPUT := Ascii("OUTPUT")
  const EGRESS := Ascii("PORTAL_EGRESS")
  const REDIRECTS := Ascii("PORTAL_OUTPUT")

  function Upper(s: Bytes): (r: Bytes)
    ensures |r| == |s|
  {
    seq(|s|, i requires 0 <= i < |s| => if 97 <= s[i] <= 122 then s[i] as int - 32 else s[i])
  }

  function Block(env: Env): (g: Target) {
    if Upper(env.action) == Ascii("DROP") then Drop else Reject
  }

  function Localhost(env: Env): (net: Bytes) {
    if env.v4 then Ascii("127.0.0.1/32") else Ascii("::1/128")
  }

  function IcmpOf(env: Env): (q: Proto) {
    if env.v4 then Icmp else Icmp6
  }

  /** `is_ipv6`: the text has a colon. */
  predicate IsV6(s: Bytes) {
    58 in s
  }

  /** The word is not empty and belongs to the family. */
  predicate Family(env: Env, s: Bytes) {
    s != [] && env.v4 == !IsV6(s)
  }

  function IcmpTypes(env: Env): (ts: seq<nat>) {
    if env.v4 then [0, 3, 11] else [1, 2, 3, 4, 130, 131, 132, 143, 133, 134, 135, 136, 137]
  }

  function MetadataNets(env: Env): (nets: seq<Bytes>) {
    if env.v4 then [Ascii("169.254.0.0/16")]
    else [Ascii("fd00:ec2::254/128"), Ascii("fd20:ce::254/128"), Ascii("fe80::/10")]
  }

  function MetadataTarget(env: Env): (g: Target) {
    if env.allowMetadata == Ascii("true") then Accept else Block(env)
  }

  // The rules, as a function of the settings.

  function LocalRules(env: Env): (rs: seq<Rule>) {
    [Rule([OutIf(LO)], Accept), Rule([Dst(Localhost(env))], Accept), Rule([Established], Accept),
     Rule([OwnerIs(env.proxyUid)], Accept)]
  }

  function IcmpRule(env: Env, n: nat): (rs: seq<Rule>) {
    [Rule([ProtoIs(IcmpOf(env)), IcmpTypeIs(n)], Accept)]
  }

  function MetadataRule(env: Env, net: Bytes): (rs: seq<Rule>) {
    [Rule([Dst(net)], MetadataTarget(env))]
  }

  function DnsRule(env: Env, ip: Bytes): (rs: seq<Rule>) {
    if !Family(env, ip) then []
    else [Rule([Dst(ip), ProtoIs(Udp), DportIs(53)], Accept), Rule([Dst(ip), ProtoIs(Tcp), DportIs(53)], Accept)]
  }

  function CidrRule(env: Env, cidr: Bytes): (rs: seq<Rule>) {
    if Family(env, cidr) then [Rule([Dst(cidr)], Accept)] else []
  }

  function PortRule(port: Bytes): (rs: seq<Rule>) {
    if port != [] then [Rule([ProtoIs(Tcp), DportIn(port)], Accept)] else []
  }

  function BlockRules(env: Env): (rs: seq<Rule>) {
    [Rule([ProtoIs(IcmpOf(env))], Block(env)), Rule([ProtoIs(Tcp)], Block(env)), Rule([ProtoIs(Udp)], Block(env))]
  }

  /** The rules of each word in turn. */
  function Emit<T>(f: T -> seq<Rule>, xs: seq<T>): (rs: seq<Rule>) {
    if xs == [] then [] else Emit(f, xs[..|xs| - 1]) + f(xs[|xs| - 1])
  }

  function AllowRules(env: Env): (rs: seq<Rule>) {
    Emit(ip => DnsRule(env, ip), env.dns) + Emit(c => CidrRule(env, c), env.cidrs) + Emit(PortRule, env.ports)
  }

  function FilterRules(env: Env): (rs: seq<Rule>) {
    LocalRules(env) + (Emit(n => IcmpRule(env, n), IcmpTypes(env))
      + (Emit(net => MetadataRule(env, net), MetadataNets(env)) + (AllowRules(env) + BlockRules(env))))
  }

  // The script's loops.

  lemma EmitSnoc<T>(f: T -> seq<Rule>, xs: seq<T>, i: nat)
    requires i < |xs|
    ensures Emit(f, xs[..i + 1]) == Emit(f, xs[..i]) + f(xs[i])
  {
    assert xs[..i + 1][..i] == xs[..i];
  }

  method EmitDns(env: Env) returns (out: seq<Rule>)
    ensures out == Emit(ip => DnsRule(env, ip), env.dns)
  {
    out := [];
    ghost var f := ip => DnsRule(env, ip);
    for i := 0 to |env.dns|
      invariant out == Emit(f, env.dns[..i])
    {
      EmitSnoc(f, env.dns, i);
      var ip := env.dns[i];
      if ip != [] {
        if env.v4 && !IsV6(ip) {
          out := out + [Rule([Dst(ip), ProtoIs(Udp), DportIs(53)], Accept),
            Rule([Dst(ip), ProtoIs(Tcp), DportIs(53)], Accept)];
        } else if !env.v4 && IsV6(ip) {
          out := out + [Rule([Dst(ip), ProtoIs(Udp), DportIs(53)], Accept),
            Rule([Dst(ip), ProtoIs(Tcp), DportIs(53)], Accept)];
        }
      }
    }
    assert env.dns[..|env.dns|] == env.dns;
  }

  method EmitCidrs(env: Env) returns (out: seq<Rule>)
    ensures out == Emit(c => CidrRule(env, c), env.cidrs)
  {
    out := [];
    ghost var f := c => CidrRule(env, c);
    for i := 0 to |env.cidrs|
      invariant out == Emit(f, env.cidrs[..i])
    {
      EmitSnoc(f, env.cidrs, i);
      var cidr := env.cidrs[i];
      if cidr != [] {
        if env.v4 && !IsV6(cidr) {
          out := out + [Rule([Dst(cidr)], Accept)];
        } else if !env.v4 && IsV6(cidr) {
          out := out + [Rule([Dst(cidr)], Accept)];
        }
      }
    }
    assert env.cidrs[..|env.cidrs|] == env.cidrs;
  }

  method EmitPorts(env: Env) returns (out: seq<Rule>)
    ensures out == Emit(PortRule, env.ports)
  {
    out := [];
    for i := 0 to |env.ports|
      invariant out == Emit(PortRule, env.ports[..i])
    {
      EmitSnoc(PortRule, env.ports, i);
      if env.ports[i] != [] { out := out + [Rule([ProtoIs(Tcp), DportIn(env.ports[i])], Accept)]; }
    }
    assert env.ports[..|env.ports|] == env.ports;
  }

  /** The filter part of `generate_rules`: the rules of PORTAL_EGRESS in the order they are printed. */
  method GenerateFilter(env: Env) returns (out: seq<Rule>)
    ensures out == FilterRules(env)
  {
    var dns := EmitDns(env);
    var cidrs := EmitCidrs(env);
    var ports := EmitPorts(env);
    out := LocalRules(env) + (Emit(n => IcmpRule(env, n), IcmpTypes(env))
      + (Emit(net => MetadataRule(env, net), MetadataNets(env)) + (dns + cidrs + ports + BlockRules(env))));
  }

  // What the rules mean.

  /** Some word's rules match. */
  lemma {:induction false} EmitFires<T(!new)>(w: World, f: T -> seq<Rule>, xs: seq<T>, p: Packet)
    ensures Fires(w, Emit(f, xs), p) <==> exists x :: x in xs && Fires(w, f(x), p)
  {
    if xs != [] {
      var n := |xs| - 1;
      EmitFires(w, f, xs[..n], p);
      FiresAppend(w, Emit(f, xs[..n]), f(xs[n]), p);
      assert xs == xs[..n] + [xs[n]];
      if x :| x in xs && Fires(w, f(x), p) {
        assert x in xs[..n] || x == xs[n];
      }
    }
  }

  lemma FiresAppend(w: World, a: seq<Rule>, b: seq<Rule>, p: Packet)
    ensures Fires(w, a + b, p) <==> Fires(w, a, p) || Fires(w, b, p)
  {
  }

  lemma {:induction false} EmitTarget<T(!new)>(f: T -> seq<Rule>, xs: seq<T>, g: Target)
    requires forall x :: x in xs ==> forall r :: r in f(x) ==> r.target == g
    ensures forall r :: r in Emit(f, xs) ==> r.target == g
  {
    if xs != [] {
      assert xs == xs[..|xs| - 1] + [xs[|xs| - 1]];
      EmitTarget(f, xs[..|xs| - 1], g);
    }
  }

  /** Loopback, localhost, established or related, or the proxy's own traffic. */
  predicate Local(w: World, env: Env, p: Packet) {
    p.outIf == LO || w.inNet(Localhost(env), p.dst) || p.established || p.uid == env.proxyUid
  }

  predicate Control(env: Env, p: Packet) {
    p.proto == IcmpOf(env) && p.icmpType in IcmpTypes(env)
  }

  ghost predicate Metadata(w: World, env: Env, p: Packet) {
    exists net :: net in MetadataNets(env) && w.inNet(net, p.dst)
  }

  ghost predicate ToDns(w: World, env: Env, p: Packet) {
    && (p.proto == Udp || p.proto == Tcp) && p.dport == 53
    && exists ip :: ip in env.dns && Family(env, ip) && w.inNet(ip, p.dst)
  }

  ghost predicate ToCidr(w: World, env: Env, p: Packet) {
    exists c :: c in env.cidrs && Family(env, c) && w.inNet(c, p.dst)
  }

  ghost predicate ToPort(w: World, env: Env, p: Packet) {
    p.proto == Tcp && exists q :: q in env.ports && q != [] && w.inPorts(q, p.dport)
  }

  ghost predicate Listing(w: World, env: Env, p: Packet) {
    ToDns(w, env, p) || ToCidr(w, env, p) || ToPort(w, env, p)
  }

  lemma LocalFires(w: World, env: Env, p: Packet)
    ensures Fires(w, LocalRules(env), p) <==> Local(w, env, p)
  {
    var rs := LocalRules(env);
    Holds1(w, OutIf(LO), p);
    Holds1(w, Dst(Localhost(env)), p);
    Holds1(w, Established, p);
    Holds1(w, OwnerIs(env.proxyUid), p);
    assert rs[0] in rs && rs[1] in rs && rs[2] in rs && rs[3] in rs;
  }

  lemma ControlFires(w: World, env: Env, p: Packet)
    ensures Fires(w, Emit(n => IcmpRule(env, n), IcmpTypes(env)), p) <==> Control(env, p)
  {
    var f := (n: nat) => IcmpRule(env, n);
    EmitFires(w, f, IcmpTypes(env), p);
    forall n: nat ensures Fires(w, f(n), p) <==> p.proto == IcmpOf(env) && p.icmpType == n {
      Holds2(w, ProtoIs(IcmpOf(env)), IcmpTypeIs(n), p);
      assert f(n)[0] in f(n);
    }
  }

  lemma MetadataFires(w: World, env: Env, p: Packet)
    ensures Fires(w, Emit(net => MetadataRule(env, net), MetadataNets(env)), p) <==> Metadata(w, env, p)
  {
    var f := net => MetadataRule(env, net);
    EmitFires(w, f, MetadataNets(env), p);
    forall net ensures Fires(w, f(net), p) <==> w.inNet(net, p.dst) {
      Holds1(w, Dst(net), p);
      assert f(net)[0] in f(net);
    }
  }

  lemma DnsFires(w: World, env: Env, p: Packet)
    ensures Fires(w, Emit(ip => DnsRule(env, ip), env.dns), p) <==> ToDns(w, env, p)
  {
    var f := ip => DnsRule(env, ip);
    EmitFires(w, f, env.dns, p);
    forall ip
      ensures Fires(w, f(ip), p) <==>
        Family(env, ip) && w.inNet(ip, p.dst) && (p.proto == Udp || p.proto == Tcp) && p.dport == 53
    {
      Holds3(w, Dst(ip), ProtoIs(Udp), DportIs(53), p);
      Holds3(w, Dst(ip), ProtoIs(Tcp), DportIs(53), p);
      if Family(env, ip) { assert f(ip)[0] in f(ip) && f(ip)[1] in f(ip); }
    }
  }

  lemma CidrFires(w: World, env: Env, p: Packet)
    ensures Fires(w, Emit(c => CidrRule(env, c), env.cidrs), p) <==> ToCidr(w, env, p)
  {
    var f := c => CidrRule(env, c);
    EmitFires(w, f, env.cidrs, p);
    forall c ensures Fires(w, f(c), p) <==> Family(env, c) && w.inNet(c, p.dst) {
      Holds1(w, Dst(c), p);
      if Family(env, c) { assert f(c)[0] in f(c); }
    }
  }

  lemma PortFires(w: World, env: Env, p: Packet)
    ensures Fires(w, Emit(PortRule, env.ports), p) <==> ToPort(w, env, p)
  {
    EmitFires(w, PortRule, env.ports, p);
    forall q ensures Fires(w, PortRule(q), p) <==> q != [] && p.proto == Tcp && w.inPorts(q, p.dport) {
      Holds2(w, ProtoIs(Tcp), DportIn(q), p);
      if q != [] { assert PortRule(q)[0] in PortRule(q); }
    }
  }

  lemma AllowFires(w: World, env: Env, p: Packet)
    ensures Fires(w, AllowRules(env), p) <==> Listing(w, env, p)
    ensures forall r :: r in AllowRules(env) ==> r.target == Accept
  {
    var a, b, c := Emit(ip => DnsRule(env, ip), env.dns), Emit(c => CidrRule(env, c), env.cidrs),
      Emit(PortRule, env.ports);
    DnsFires(w, env, p);
    CidrFires(w, env, p);
    PortFires(w, env, p);
    FiresAppend(w, a, b, p);
    FiresAppend(w, a + b, c, p);
    EmitTarget(ip => DnsRule(env, ip), env.dns, Accept);
    EmitTarget(c => CidrRule(env, c), env.cidrs, Accept);
    EmitTarget(PortRule, env.ports, Accept);
  }

  /** Protocols the last three rules cover. */
  predicate Covered(env: Env, p: Packet) {
    p.proto in {IcmpOf(env), Tcp, Udp}
  }

  lemma BlockFires(w: World, env: Env, p: Packet)
    ensures Fires(w, BlockRules(env), p) <==> Covered(env, p)
  {
    var rs := BlockRules(env);
    Holds1(w, ProtoIs(IcmpOf(env)), p);
    Holds1(w, ProtoIs(Tcp), p);
    Holds1(w, ProtoIs(Udp), p);
    assert rs[0] in rs && rs[1] in rs && rs[2] in rs;
  }

  /** What becomes of a packet in PORTAL_EGRESS; None if no rule decides. */
  ghost function EgressOf(w: World, env: Env, p: Packet): (v: Option<Target>) {
    if Local(w, env, p) || Control(env, p) then Some(Accept)
    else if Metadata(w, env, p) then Some(MetadataTarget(env))
    else if Listing(w, env, p) then Some(Accept)
    else if Covered(env, p) then Some(Block(env))
    else None
  }

  lemma BlockVerdict(w: World, t: Table, env: Env, p: Packet, depth: nat)
    ensures Walk(w, t, AllowRules(env) + BlockRules(env), p, depth) ==
      if Listing(w, env, p) then Some(Accept) else if Covered(env, p) then Some(Block(env)) else None
  {
    AllowFires(w, env, p);
    BlockFires(w, env, p);
    assert BlockRules(env) + [] == BlockRules(env);
    WalkUniform(w, t, BlockRules(env), Block(env), [], p, depth);
    WalkUniform(w, t, AllowRules(env), Accept, BlockRules(env), p, depth);
  }

  /** The generated chain decides every packet as stated, for every list of servers, networks and ports. */
  lemma EgressMeaning(w: World, t: Table, env: Env, p: Packet, depth: nat)
    ensures Walk(w, t, FilterRules(env), p, depth) == EgressOf(w, env, p)
  {
    var icmp, meta := Emit(n => IcmpRule(env, n), IcmpTypes(env)),
      Emit(net => MetadataRule(env, net), MetadataNets(env));
    var tail := AllowRules(env) + BlockRules(env);
    LocalFires(w, env, p);
    ControlFires(w, env, p);
    MetadataFires(w, env, p);
    EmitTarget(n => IcmpRule(env, n), IcmpTypes(env), Accept);
    EmitTarget(net => MetadataRule(env, net), MetadataNets(env), MetadataTarget(env));
    BlockVerdict(w, t, env, p, depth);
    WalkUniform(w, t, meta, MetadataTarget(env), tail, p, depth);
    WalkUniform(w, t, icmp, Accept, meta + tail, p, depth);
    WalkUniform(w, t, LocalRules(env), Accept, icmp + (meta + tail), p, depth);
  }

  // The restored filter table.

  function FilterTable(env: Env): (t: Table) {
    map[Ascii("INPUT") := [], Ascii("FORWARD") := [], OUTPUT := [Rule([], Jump(EGRESS))], EGRESS := FilterRules(env)]
  }

  /** A packet leaves the pod if its chain accepts it or, as the policy of OUTPUT says, if nothing decides. */
  function Leaves(w: World, t: Table, p: Packet, depth: nat): (b: bool)
    requires OUTPUT in t
  {
    Walk(w, t, t[OUTPUT], p, depth) in {None, Some(Accept)}
  }

  /**
   TCP, UDP and ICMP: local traffic, a needed control message, metadata with opt-in, or listed and not metadata;
   so the metadata rule wins over every list.  Other protocols: anything but blocked metadata.
   */
  ghost predicate Permitted(w: World, env: Env, p: Packet) {
    if Covered(env, p) then
      || Local(w, env, p)
      || Control(env, p)
      || (Metadata(w, env, p) && env.allowMetadata == Ascii("true"))
      || (!Metadata(w, env, p) && Listing(w, env, p))
    else
      Local(w, env, p) || !Metadata(w, env, p) || env.allowMetadata == Ascii("true")
  }

  /** A packet leaves if and only if it is permitted. */
  lemma EgressDecision(w: World, env: Env, p: Packet, depth: nat)
    requires depth > 0
    ensures Leaves(w, FilterTable(env), p, depth) <==> Permitted(w, env, p)
  {
    var t := FilterTable(env);
    var rule := Rule([], Jump(EGRESS));
    assert |EGRESS| == 13 && |OUTPUT| == 6;
    assert t[EGRESS] == FilterRules(env) && t[OUTPUT] == [rule];
    EgressMeaning(w, t, env, p, depth - 1);
    assert [rule][1..] == [];
    assert Walk(w, t, [], p, depth) == None;
    assert Walk(w, t, [rule], p, depth) == Fire(w, t, rule.target, [], p, depth);
  }

  // Redirection.

  const HTTPS := Ascii("443")

  function RedirectRule(env: Env, port: Bytes): (rs: seq<Rule>) {
    if port == [] then []
    else if port == HTTPS then [Rule([ProtoIs(Tcp), DportIs(443)], Redirect(env.httpsPort))]
    else [Rule([ProtoIs(Tcp), DportIn(port)], Redirect(env.proxyPort))]
  }

  const EXEMPT_LO := Rule([OutIf(LO)], Return)

  function RedirectRules(env: Env): (rs: seq<Rule>) {
    [EXEMPT_LO, Rule([OwnerIs(env.proxyUid)], Return)] + PortRedirects(env)
  }

  function PortRedirects(env: Env): (rs: seq<Rule>) {
    match env.intercept
    case AllPorts =>
      [Rule([ProtoIs(Tcp), DportIs(443)], Redirect(env.httpsPort)),
        Rule([ProtoIs(Tcp), DportNot(443)], Redirect(env.proxyPort))]
    case Listed(words) => Emit(port => RedirectRule(env, port), words)
  }

  /** The nat part of `generate_rules`: the rules of PORTAL_OUTPUT. */
  method GenerateNat(env: Env) returns (out: seq<Rule>)
    ensures out == RedirectRules(env)
  {
    out := [EXEMPT_LO, Rule([OwnerIs(env.proxyUid)], Return)];
    if env.intercept.AllPorts? {
      out := out + [Rule([ProtoIs(Tcp), DportIs(443)], Redirect(env.httpsPort)),
                    Rule([ProtoIs(Tcp), DportNot(443)], Redirect(env.proxyPort))];
    } else {
      var words, ports := env.intercept.words, [];
      ghost var f := port => RedirectRule(env, port);
      for i := 0 to |words|
        invariant ports == Emit(f, words[..i])
      {
        EmitSnoc(f, words, i);
        if words[i] != [] {
          if words[i] == HTTPS {
            ports := ports + [Rule([ProtoIs(Tcp), DportIs(443)], Redirect(env.httpsPort))];
          } else {
            ports := ports + [Rule([ProtoIs(Tcp), DportIn(words[i])], Redirect(env.proxyPort))];
          }
        }
      }
      assert words[..|words|] == words;
      out := out + ports;
    }
  }

  /** Whether a listed port word covers the port. */
  predicate Covers(w: World, word: Bytes, port: nat) {
    word != [] && if word == HTTPS then port == 443 else w.inPorts(word, port)
  }

  /** Word `k` is the first that covers the port. */
  ghost predicate FirstCovering(w: World, words: seq<Bytes>, port: nat, k: nat) {
    k < |words| && Covers(w, words[k], port) && forall j :: 0 <= j < k ==> !Covers(w, words[j], port)
  }

  function ProxyFor(env: Env, word: Bytes): (v: Option<Target>) {
    Some(Redirect(if word == HTTPS then env.httpsPort else env.proxyPort))
  }

  /** The first covering word decides where a TCP connection to the port goes. */
  ghost predicate SentBy(w: World, env: Env, words: seq<Bytes>, port: nat, v: Option<Target>) {
    if v.None? then forall k :: 0 <= k < |words| ==> !Covers(w, words[k], port)
    else exists k: nat :: FirstCovering(w, words, port, k) && v == ProxyFor(env, words[k])
  }

  lemma OneWord(w: World, t: Table, env: Env, word: Bytes, p: Packet, depth: nat)
    requires p.proto == Tcp
    ensures Walk(w, t, RedirectRule(env, word), p, depth) ==
      if Covers(w, word, p.dport) then ProxyFor(env, word) else None
  {
    Holds2(w, ProtoIs(Tcp), DportIs(443), p);
    Holds2(w, ProtoIs(Tcp), DportIn(word), p);
    assert Walk(w, t, [], p, depth) == None;
  }

  /** One more word behind a list whose first covering word is known. */
  lemma SentMore(w: World, env: Env, less: seq<Bytes>, word: Bytes, port: nat, v: Option<Target>)
    requires SentBy(w, env, less, port, v)
    ensures SentBy(w, env, less + [word], port,
      if v.Some? then v else if Covers(w, word, port) then ProxyFor(env, word) else None) == true
  {
    var words := less + [word];
    assert words[|less|] == word && forall j :: 0 <= j < |less| ==> words[j] == less[j];
    if v.Some? {
      var k: nat :| FirstCovering(w, less, port, k) && v == ProxyFor(env, less[k]);
      assert FirstCovering(w, words, port, k);
    } else if Covers(w, word, port) {
      assert FirstCovering(w, words, port, |less|);
    }
  }

  lemma {:induction false} ListedVerdict(w: World, t: Table, env: Env, words: seq<Bytes>, p: Packet, depth: nat)
    requires p.proto == Tcp
    ensures SentBy(w, env, words, p.dport, Walk(w, t, Emit(word => RedirectRule(env, word), words), p, depth)) == true
  {
    var f := word => RedirectRule(env, word);
    if words != [] {
      var n := |words| - 1;
      var less := words[..n];
      assert words == less + [words[n]];
      ListedVerdict(w, t, env, less, p, depth);
      FinalRedirects(env, less);
      WalkAppend(w, t, Emit(f, less), f(words[n]), p, depth);
      OneWord(w, t, env, words[n], p, depth);
      SentMore(w, env, less, words[n], p.dport, Walk(w, t, Emit(f, less), p, depth));
    }
  }

  lemma {:induction false} FinalRedirects(env: Env, words: seq<Bytes>)
    ensures forall r :: r in Emit(word => RedirectRule(env, word), words) ==> Final(r)
  {
    if words != [] { FinalRedirects(env, words[..|words| - 1]); }
  }

  lemma AllVerdict(w: World, t: Table, env: Env, p: Packet, depth: nat)
    requires p.proto == Tcp && env.intercept.AllPorts?
    ensures Walk(w, t, PortRedirects(env), p, depth)
      == Some(Redirect(if p.dport == 443 then env.httpsPort else env.proxyPort))
  {
    var rs := PortRedirects(env);
    Holds2(w, ProtoIs(Tcp), DportIs(443), p);
    Holds2(w, ProtoIs(Tcp), DportNot(443), p);
    assert rs[1..] == [rs[1]];
    assert Walk(w, t, [rs[1]], p, depth) ==
      if p.dport != 443 then Some(Redirect(env.proxyPort)) else Walk(w, t, [], p, depth);
  }

  function NatTable(env: Env): (t: Table) {
    map[OUTPUT := [Rule([ProtoIs(Tcp)], Jump(REDIRECTS))], REDIRECTS := RedirectRules(env)]
  }

  lemma ExemptVerdict(w: World, t: Table, env: Env, p: Packet, depth: nat)
    ensures Walk(w, t, RedirectRules(env), p, depth) ==
      if p.outIf == LO || p.uid == env.proxyUid then None else Walk(w, t, PortRedirects(env), p, depth)
  {
    var rs, owner := RedirectRules(env), Rule([OwnerIs(env.proxyUid)], Return);
    Holds1(w, OutIf(LO), p);
    Holds1(w, OwnerIs(env.proxyUid), p);
    assert rs[1..] == [owner] + PortRedirects(env) && rs[1..][1..] == PortRedirects(env);
    assert Walk(w, t, rs[1..], p, depth) ==
      if HoldsAll(w, owner.conds, p) then None else Walk(w, t, PortRedirects(env), p, depth);
  }

  /**
   Only TCP connections that neither use loopback nor come from the proxy are redirected: all of them, or those
   whose port some listed word covers; port 443 goes to the HTTPS listener.
   */
  lemma RedirectDecision(w: World, env: Env, p: Packet, depth: nat)
    requires depth > 0
    ensures
      var v := Walk(w, NatTable(env), NatTable(env)[OUTPUT], p, depth);
      if p.proto != Tcp || p.outIf == LO || p.uid == env.proxyUid then v == None
      else if env.intercept.AllPorts? then v == Some(Redirect(if p.dport == 443 then env.httpsPort else env.proxyPort))
      else SentBy(w, env, env.intercept.words, p.dport, v)
  {
    var t, rule := NatTable(env), Rule([ProtoIs(Tcp)], Jump(REDIRECTS));
    assert |REDIRECTS| == 13 && |OUTPUT| == 6;
    assert t[REDIRECTS] == RedirectRules(env) && t[OUTPUT] == [rule];
    assert [rule][1..] == [] && Walk(w, t, [], p, depth) == None;
    Holds1(w, ProtoIs(Tcp), p);
    ExemptVerdict(w, t, env, p, depth - 1);
    assert Walk(w, t, [rule], p, depth) == if p.proto == Tcp then Fire(w, t, rule.target, [], p, depth) else None;
    if p.proto == Tcp {
      if env.intercept.AllPorts? {
        AllVerdict(w, t, env, p, depth - 1);
      } else {
        ListedVerdict(w, t, env, env.intercept.words, p, depth - 1);
      }
    }
  }

  // Both tables, in the order a packet meets them.

  /** A new TCP connection that neither uses loopback nor comes from the proxy, to an intercepted port. */
  ghost predicate Intercepted(w: World, env: Env, p: Packet) {
    && p.proto == Tcp && p.outIf != LO && p.uid != env.proxyUid && !p.established
    && (env.intercept.Listed? ==> exists word :: word in env.intercept.words && Covers(w, word, p.dport))
  }

  /** The packet in front of the filter table; only the first packet of a connection meets the nat table. */
  function Outgoing(w: World, env: Env, p: Packet, depth: nat, self: Bytes, portOf: Bytes -> nat): (q: Packet) {
    if p.established then p
    else Translated(Walk(w, NatTable(env), NatTable(env)[OUTPUT], p, depth), p, self, portOf)
  }

  /**
   A new intercepted connection is turned to the proxy on this host and gets there, whatever its target was; every
   other packet leaves as it is if and only if it is permitted, and packets of established connections always are,
   wherever their connection was turned.
   */
  lemma EgressFlow(w: World, env: Env, p: Packet, depth: nat, self: Bytes, portOf: Bytes -> nat)
    requires depth > 0 && w.inNet(Localhost(env), self)
    ensures
      var q := Outgoing(w, env, p, depth, self, portOf);
      if Intercepted(w, env, p) then
        && q.dst == self && q.dport in {portOf(env.proxyPort), portOf(env.httpsPort)}
        && Leaves(w, FilterTable(env), q, depth)
      else q == p && (Leaves(w, FilterTable(env), p, depth) <==> Permitted(w, env, p))
    ensures p.established ==> forall d, n :: Leaves(w, FilterTable(env), p.(dst := d, dport := n), depth)
  {
    RedirectDecision(w, env, p, depth);
    var v := Walk(w, NatTable(env), NatTable(env)[OUTPUT], p, depth);
    if env.intercept.Listed? && p.proto == Tcp && p.outIf != LO && p.uid != env.proxyUid {
      InterceptedSent(w, env, env.intercept.words, p.dport, v);
    }
    EgressDecision(w, env, Outgoing(w, env, p, depth, self, portOf), depth);
    if p.established {
      forall d, n ensures Leaves(w, FilterTable(env), p.(dst := d, dport := n), depth) {
        EgressDecision(w, env, p.(dst := d, dport := n), depth);
      }
    }
  }

  lemma InterceptedSent(w: World, env: Env, words: seq<Bytes>, port: nat, v: Option<Target>)
    requires SentBy(w, env, words, port, v)
    ensures v.Some? <==> exists word :: word in words && Covers(w, word, port)
    ensures v.Some? ==> v == Some(Redirect(env.proxyPort)) || v == Some(Redirect(env.httpsPort))
  {
    if v.Some? {
      var k: nat :| FirstCovering(w, words, port, k) && v == ProxyFor(env, words[k]);
      assert words[k] in words;
    }
  }
}
