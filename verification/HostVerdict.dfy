/** What the installed rules mean for packets: which are redirected, accepted, rejected or left alone. */
module HostVerdict {
  import opened Octets
  import opened Netfilter
  import opened HostRules
  import opened HostTables
  import opened HostRuns

  /** A chain with jumps in front: the packet's own interface decides, if it is hooked. */
  lemma {:induction false} WalkJumps(w: World, t: Table, prefix: Bytes, ifs: seq<Bytes>, rest: seq<Rule>, p: Packet,
      depth: nat)
    requires depth > 0 && forall i :: i in ifs ==> prefix + i in t
    ensures
      Walk(w, t, Jumps(prefix, ifs) + rest, p, depth) ==
      if p.inIf in ifs && Walk(w, t, t[prefix + p.inIf], p, depth - 1).Some?
      then Walk(w, t, t[prefix + p.inIf], p, depth - 1)
      else Walk(w, t, rest, p, depth)
    decreases ifs
  {
    var rs := Jumps(prefix, ifs) + rest;
    if ifs == [] {
      assert rs == rest;
    } else {
      assert ifs == [ifs[0]] + ifs[1..] && rs[0] == JumpTo(prefix, ifs[0]) && rs[1..] == Jumps(prefix, ifs[1..]) + rest;
      Holds1(w, InIf(ifs[0]), p);
      WalkJumps(w, t, prefix, ifs[1..], rest, p, depth);
    }
  }

  lemma IcmpFires(w: World, types: seq<nat>, p: Packet)
    ensures Fires(w, IcmpRules(types), p) <==> p.proto == Icmp6 && p.icmpType in types
  {
    var rs := IcmpRules(types);
    forall i | 0 <= i < |types|
      ensures HoldsAll(w, rs[i].conds, p) <==> p.proto == Icmp6 && p.icmpType == types[i]
    {
      Holds2(w, ProtoIs(Icmp6), IcmpTypeIs(types[i]), p);
    }
    if p.proto == Icmp6 && p.icmpType in types {
      var i :| 0 <= i < |types| && types[i] == p.icmpType;
      assert rs[i] in rs;
    }
  }

  /** The packet is addressed to the proxy on one of its protocols and ports. */
  predicate ToProxy(w: World, cfg: Config, p: Packet) {
    && w.inNet(cfg.host, p.dst)
    && ((p.proto == Tcp && p.dport in {cfg.http, cfg.https, DnsPort(cfg)})
      || (p.proto == Udp && p.dport == DnsPort(cfg)))
  }

  lemma ProxyFires(w: World, cfg: Config, p: Packet)
    ensures Fires(w, ProxyRules(cfg), p) <==> ToProxy(w, cfg, p)
  {
    var rs := ProxyRules(cfg);
    Holds3(w, Dst(cfg.host), ProtoIs(Tcp), DportIs(cfg.http), p);
    Holds3(w, Dst(cfg.host), ProtoIs(Tcp), DportIs(cfg.https), p);
    Holds3(w, Dst(cfg.host), ProtoIs(Udp), DportIs(DnsPort(cfg)), p);
    Holds3(w, Dst(cfg.host), ProtoIs(Tcp), DportIs(DnsPort(cfg)), p);
    assert rs[0] in rs && rs[1] in rs && rs[2] in rs && rs[3] in rs;
  }

  /** A control message that neighbour discovery and path MTU discovery need. */
  predicate ControlMessage(cfg: Config, p: Packet) {
    cfg.v6 && p.proto == Icmp6 && p.icmpType in {1, 2, 3, 4, 133, 135, 136}
  }

  predicate Allowed(w: World, cfg: Config, p: Packet) {
    p.established || ControlMessage(cfg, p) || ToProxy(w, cfg, p)
  }

  lemma RejectAll(w: World, t: Table, p: Packet, depth: nat)
    ensures Walk(w, t, REJECT_RULES, p, depth) == Some(Reject)
  {
    var rs := REJECT_RULES;
    assert rs[2] in rs && HoldsAll(w, rs[2].conds, p);
    WalkUniform(w, t, rs, Reject, [], p, depth);
    assert rs + [] == rs;
  }

  /** The interface's filter chain decides every packet. */
  lemma EgressVerdict(w: World, t: Table, cfg: Config, p: Packet, depth: nat)
    ensures Walk(w, t, EgressRules(cfg), p, depth) == Some(if Allowed(w, cfg, p) then Accept else Reject)
  {
    var first := [Rule([Established], Accept)];
    var icmp := if cfg.v6 then IcmpRules(ICMP6_TYPES) else [];
    var tail := ProxyRules(cfg) + REJECT_RULES;
    Assoc(first, icmp, tail);
    Holds1(w, Established, p);
    assert first[0] in first;
    assert Fires(w, first, p) <==> p.established;
    IcmpFires(w, ICMP6_TYPES, p);
    assert Fires(w, icmp, p) <==> ControlMessage(cfg, p);
    ProxyFires(w, cfg, p);
    RejectAll(w, t, p, depth);
    WalkUniform(w, t, ProxyRules(cfg), Accept, REJECT_RULES, p, depth);
    WalkUniform(w, t, icmp, Accept, tail, p, depth);
    WalkUniform(w, t, first, Accept, icmp + tail, p, depth);
  }

  /** Where the interface's nat chain sends a new connection. */
  function RedirectOf(cfg: Config, p: Packet): (v: Option<Target>) {
    if p.proto == Tcp && p.dport == 80 then Some(Dnat(cfg.host, cfg.http))
    else if p.proto == Tcp && p.dport == 443 then Some(Dnat(cfg.host, cfg.https))
    else if (p.proto == Udp || p.proto == Tcp) && p.dport == 53 then Some(Dnat(cfg.host, DnsPort(cfg)))
    else None
  }

  lemma DnatVerdict(w: World, t: Table, cfg: Config, p: Packet, depth: nat)
    ensures Walk(w, t, DnatRules(cfg), p, depth) == RedirectOf(cfg, p)
  {
    var rs := DnatRules(cfg);
    Holds2(w, ProtoIs(Tcp), DportIs(80), p);
    Holds2(w, ProtoIs(Tcp), DportIs(443), p);
    Holds2(w, ProtoIs(Udp), DportIs(53), p);
    Holds2(w, ProtoIs(Tcp), DportIs(53), p);
    assert Walk(w, t, rs[4..], p, depth) == None;
    assert rs[3..][1..] == rs[4..] && rs[2..][1..] == rs[3..] && rs[1..][1..] == rs[2..];
    assert Walk(w, t, rs[3..], p, depth) == if HoldsAll(w, rs[3].conds, p) then Some(rs[3].target) else None;
    assert Walk(w, t, rs[2..], p, depth) == if HoldsAll(w, rs[2].conds, p) then Some(rs[2].target)
      else Walk(w, t, rs[3..], p, depth);
    assert Walk(w, t, rs[1..], p, depth) == if HoldsAll(w, rs[1].conds, p) then Some(rs[1].target)
      else Walk(w, t, rs[2..], p, depth);
  }

  // Packets against the node's tables.

  /** A hooked chain, for a packet from an installed interface. */
  lemma WalkHook(w: World, t: Table, orig: Table, prefix: Bytes, hs: seq<Bytes>, f: Config -> seq<Rule>, n: Node,
      hook: Bytes, p: Packet, depth: nat)
    requires Based(orig, prefix, hs) && Shows(t, orig, prefix, ViewOf(n, hs, f)) && ValidNode(n)
    requires hook in hs && depth > 0 && p.inIf in n.cfgs
    ensures hook in t
    ensures
      var inner := Walk(w, t, f(n.cfgs[p.inIf]), p, depth - 1);
      Walk(w, t, t[hook], p, depth) == if inner.Some? then inner else Walk(w, t, orig[hook], p, depth)
  {
    var v := ViewOf(n, hs, f);
    assert ShowsAt(t, orig, prefix, v, hook);
    forall i | i in n.order ensures prefix + i in t && t[prefix + i] == f(n.cfgs[i]) {
      PortalChain(t, orig, prefix, v, i);
    }
    WalkJumps(w, t, prefix, n.order, orig[hook], p, depth);
  }

  /** From an installed interface only established traffic, control messages and the proxy's ports get through. */
  lemma FilterFromInstalled(w: World, ts: Tables, orig: Tables, n: Node, hook: Bytes, p: Packet, depth: nat)
    requires Original(orig) && Reflects(ts, orig, n) && ValidNode(n)
    requires hook in FILTER_HOOKS && depth > 0 && p.inIf in n.cfgs
    ensures hook in ts.filter_
    ensures Walk(w, ts.filter_, ts.filter_[hook], p, depth)
      == Some(if Allowed(w, n.cfgs[p.inIf], p) then Accept else Reject)
  {
    WalkHook(w, ts.filter_, orig.filter_, EG, FILTER_HOOKS, EgressRules, n, hook, p, depth);
    EgressVerdict(w, ts.filter_, n.cfgs[p.inIf], p, depth - 1);
  }

  lemma NatFromInstalled(w: World, ts: Tables, orig: Tables, n: Node, p: Packet, depth: nat)
    requires Original(orig) && Reflects(ts, orig, n) && ValidNode(n) && depth > 0 && p.inIf in n.cfgs
    ensures PREROUTING in ts.nat_ && PREROUTING in orig.nat_
    ensures
      var redirect := RedirectOf(n.cfgs[p.inIf], p);
      Walk(w, ts.nat_, ts.nat_[PREROUTING], p, depth) ==
      if redirect.Some? then redirect else Walk(w, ts.nat_, orig.nat_[PREROUTING], p, depth)
  {
    assert PREROUTING == NAT_HOOKS[0];
    WalkHook(w, ts.nat_, orig.nat_, PR, NAT_HOOKS, DnatRules, n, PREROUTING, p, depth);
    DnatVerdict(w, ts.nat_, n.cfgs[p.inIf], p, depth - 1);
  }

  /**
   A new connection from an installed interface is accepted if and only if, after translation, it is addressed to
   the proxy on an allowed protocol and port or is a listed control message; web and DNS connections always are.
   */
  lemma NewConnection(w: World, ts: Tables, orig: Tables, n: Node, hook: Bytes, p: Packet, depth: nat,
      self: Bytes, portOf: Bytes -> nat)
    requires Original(orig) && Reflects(ts, orig, n) && ValidNode(n)
    requires hook in FILTER_HOOKS && depth > 0 && p.inIf in n.cfgs && !p.established
    ensures PREROUTING in ts.nat_ && hook in ts.filter_
    ensures
      var cfg := n.cfgs[p.inIf];
      var q := Translated(Walk(w, ts.nat_, ts.nat_[PREROUTING], p, depth), p, self, portOf);
      var verdict := Walk(w, ts.filter_, ts.filter_[hook], q, depth);
      && verdict == Some(if ToProxy(w, cfg, q) || ControlMessage(cfg, q) then Accept else Reject)
      && (RedirectOf(cfg, p).Some? && w.inNet(cfg.host, cfg.host) ==> q.dst == cfg.host && verdict == Some(Accept))
  {
    NatFromInstalled(w, ts, orig, n, p, depth);
    var q := Translated(Walk(w, ts.nat_, ts.nat_[PREROUTING], p, depth), p, self, portOf);
    FilterFromInstalled(w, ts, orig, n, hook, q, depth);
  }

  // Packets from other interfaces.

  lemma {:induction false} WalkPast(w: World, t: Table, prefix: Bytes, ifs: seq<Bytes>, rest: seq<Rule>, p: Packet,
      depth: nat)
    requires p.inIf !in ifs
    ensures Walk(w, t, Jumps(prefix, ifs) + rest, p, depth) == Walk(w, t, rest, p, depth)
    decreases ifs
  {
    var rs := Jumps(prefix, ifs) + rest;
    if ifs == [] {
      assert rs == rest;
    } else {
      assert ifs == [ifs[0]] + ifs[1..] && rs[0] == JumpTo(prefix, ifs[0]) && rs[1..] == Jumps(prefix, ifs[1..]) + rest;
      Holds1(w, InIf(ifs[0]), p);
      WalkPast(w, t, prefix, ifs[1..], rest, p, depth);
    }
  }

  /** Original rules treat a packet from elsewhere as they did in the original table. */
  lemma {:induction false} WalkElsewhere(w: World, t: Table, orig: Table, prefix: Bytes, v: View, rules: seq<Rule>,
      p: Packet, depth: nat)
    requires Pristine(orig, prefix) && Shows(t, orig, prefix, v) && PlainRules(prefix, rules)
    requires forall h :: h in v.hooks ==> p.inIf !in v.hooks[h]
    ensures Walk(w, t, rules, p, depth) == Walk(w, orig, rules, p, depth)
    decreases depth, |rules|
  {
    if rules != [] {
      var g := rules[0].target;
      assert rules[0] in rules && PlainRule(prefix, rules[0]);
      WalkElsewhere(w, t, orig, prefix, v, rules[1..], p, depth);
      if g.Jump? && depth > 0 {
        assert ShowsAt(t, orig, prefix, v, g.chain);
        if g.chain in orig {
          WalkPast(w, t, prefix, HookedIfs(v, g.chain), orig[g.chain], p, depth - 1);
          WalkElsewhere(w, t, orig, prefix, v, orig[g.chain], p, depth - 1);
        }
      }
    }
  }

  /** A packet from an interface that is not installed meets the original rules and nothing else. */
  lemma OthersUntouched(w: World, ts: Tables, orig: Tables, n: Node, id: TableId, c: Bytes, p: Packet, depth: nat)
    requires Original(orig) && Reflects(ts, orig, n) && ValidNode(n) && p.inIf !in n.cfgs && c in orig.Get(id)
    ensures c in ts.Get(id)
    ensures Walk(w, ts.Get(id), ts.Get(id)[c], p, depth) == Walk(w, orig.Get(id), orig.Get(id)[c], p, depth)
  {
    var prefix := if id == Nat then PR else EG;
    var v := if id == Nat then ViewOf(n, NAT_HOOKS, DnatRules) else ViewOf(n, FILTER_HOOKS, EgressRules);
    var t, o := ts.Get(id), orig.Get(id);
    assert ShowsAt(t, o, prefix, v, c);
    WalkPast(w, t, prefix, HookedIfs(v, c), o[c], p, depth);
    WalkElsewhere(w, t, o, prefix, v, o[c], p, depth);
  }
}
