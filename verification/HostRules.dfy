/** The commands the node plugin issues for one pod interface, and the rules they leave behind. */
module HostRules {
  import opened Octets
  import opened Netfilter

  /** Where the node's proxy listens; `dns` is None when the DNS port is not configured. */
  datatype Config = Config(v6: bool, host: Bytes, http: nat, https: nat, dns: Option<nat>)

  function DnsPort(cfg: Config): (n: nat) {
    if cfg.dns.Some? then cfg.dns.value else 53
  }

  const PR := Ascii("PORTAL_PR_")
  const EG := Ascii("PORTAL_EG_")
  const PREROUTING := Ascii("PREROUTING")
  const INPUT := Ascii("INPUT")
  const FORWARD := Ascii("FORWARD")

  function JumpTo(prefix: Bytes, iface: Bytes): (r: Rule) {
    Rule([InIf(iface)], Jump(prefix + iface))
  }

  function DnatRules(cfg: Config): (rs: seq<Rule>) {
    [Rule([ProtoIs(Tcp), DportIs(80)], Dnat(cfg.host, cfg.http)),
     Rule([ProtoIs(Tcp), DportIs(443)], Dnat(cfg.host, cfg.https)),
     Rule([ProtoIs(Udp), DportIs(53)], Dnat(cfg.host, DnsPort(cfg))),
     Rule([ProtoIs(Tcp), DportIs(53)], Dnat(cfg.host, DnsPort(cfg)))]
  }

  /** Path MTU and neighbour discovery, without router advertisements and redirects. */
  const ICMP6_TYPES: seq<nat> := [1, 2, 3, 4, 133, 135, 136]

  function IcmpRules(types: seq<nat>): (rs: seq<Rule>)
    ensures |rs| == |types|
  {
    seq(|types|, i requires 0 <= i < |types| => Rule([ProtoIs(Icmp6), IcmpTypeIs(types[i])], Accept))
  }

  function ProxyRules(cfg: Config): (rs: seq<Rule>) {
    [Rule([Dst(cfg.host), ProtoIs(Tcp), DportIs(cfg.http)], Accept),
     Rule([Dst(cfg.host), ProtoIs(Tcp), DportIs(cfg.https)], Accept),
     Rule([Dst(cfg.host), ProtoIs(Udp), DportIs(DnsPort(cfg))], Accept),
     Rule([Dst(cfg.host), ProtoIs(Tcp), DportIs(DnsPort(cfg))], Accept)]
  }

  const REJECT_RULES := [Rule([ProtoIs(Tcp)], Reject), Rule([ProtoIs(Udp)], Reject), Rule([], Reject)]

  function EgressRules(cfg: Config): (rs: seq<Rule>) {
    [Rule([Established], Accept)] + (if cfg.v6 then IcmpRules(ICMP6_TYPES) else []) + (ProxyRules(cfg) + REJECT_RULES)
  }

  function Appends(chain: Bytes, rs: seq<Rule>): (ops: seq<Op>)
    ensures |ops| == |rs|
  {
    seq(|rs|, i requires 0 <= i < |rs| => Append(chain, rs[i]))
  }

  /** Make the jump to the interface's chain the first rule of each hook. */
  function Hooks(prefix: Bytes, iface: Bytes, hooks: seq<Bytes>): (ops: seq<Op>) {
    if hooks == [] then []
    else
      var jump := JumpTo(prefix, iface);
      [Delete(hooks[0], jump), Insert(hooks[0], jump)] + Hooks(prefix, iface, hooks[1..])
  }

  function InstallOps(prefix: Bytes, iface: Bytes, hooks: seq<Bytes>, body: seq<Rule>): (ops: seq<Op>) {
    [New(prefix + iface), Flush(prefix + iface)] + (Hooks(prefix, iface, hooks) + Appends(prefix + iface, body))
  }

  const NAT_HOOKS := [PREROUTING]
  const FILTER_HOOKS := [INPUT, FORWARD]

  /** `buildHostNetfilterRules`. */
  function BuildInstall(iface: Bytes, cfg: Config): (cmds: seq<Cmd>) {
    Tag(Nat, InstallOps(PR, iface, NAT_HOOKS, DnatRules(cfg)))
      + Tag(Filter, InstallOps(EG, iface, FILTER_HOOKS, EgressRules(cfg)))
  }

  function Unhooks(prefix: Bytes, iface: Bytes, hooks: seq<Bytes>): (ops: seq<Op>) {
    if hooks == [] then [] else [Delete(hooks[0], JumpTo(prefix, iface))] + Unhooks(prefix, iface, hooks[1..])
  }

  function CleanupOps(prefix: Bytes, iface: Bytes, hooks: seq<Bytes>): (ops: seq<Op>) {
    Unhooks(prefix, iface, hooks) + [Flush(prefix + iface), Remove(prefix + iface)]
  }

  /** `buildHostCleanupRules`. */
  function BuildCleanup(iface: Bytes): (cmds: seq<Cmd>) {
    Tag(Nat, CleanupOps(PR, iface, NAT_HOOKS)) + Tag(Filter, CleanupOps(EG, iface, FILTER_HOOKS))
  }
}
