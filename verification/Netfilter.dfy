/**
 Packet filter tables: rules, first-match traversal of chains, and the commands that edit a table.
 How an address specification or a port specification matches is left to the world they are used in.
 */
module Netfilter {
  import opened Octets

  datatype Proto = Tcp | Udp | Icmp | Icmp6 | OtherProto

  /** The parts of a packet that rules look at. */
  datatype Packet = Packet(
    inIf: Bytes, outIf: Bytes, proto: Proto, dst: Bytes, dport: nat, icmpType: nat, established: bool, uid: Bytes)

  datatype Cond =
    | InIf(name: Bytes)
    | OutIf(name: Bytes)
    | ProtoIs(proto: Proto)
    | Dst(net: Bytes)
    | DportIs(port: nat)
    | DportNot(port: nat)
    | DportIn(ports: Bytes)
    | Established
    | OwnerIs(uid: Bytes)
    | IcmpTypeIs(icmpType: nat)

  datatype Target =
    | Accept | Reject | Drop | Return
    | Jump(chain: Bytes)
    | Dnat(host: Bytes, port: nat)
    | Redirect(toPorts: Bytes)

  datatype Rule = Rule(conds: seq<Cond>, target: Target)

  /** Whether an address lies in a network specification, and a port in a port specification. */
  datatype World = World(inNet: (Bytes, Bytes) -> bool, inPorts: (Bytes, nat) -> bool)

  type Table = map<Bytes, seq<Rule>>

  // Traversal.

  predicate Holds(w: World, c: Cond, p: Packet) {
    match c
    case InIf(n) => p.inIf == n
    case OutIf(n) => p.outIf == n
    case ProtoIs(q) => p.proto == q
    case Dst(net) => w.inNet(net, p.dst)
    case DportIs(n) => p.dport == n
    case DportNot(n) => p.dport != n
    case DportIn(ports) => w.inPorts(ports, p.dport)
    case Established => p.established
    case OwnerIs(u) => p.uid == u
    case IcmpTypeIs(n) => p.icmpType == n
  }

  predicate HoldsAll(w: World, cs: seq<Cond>, p: Packet) {
    cs == [] || (Holds(w, cs[0], p) && HoldsAll(w, cs[1..], p))
  }

  /**
   The target that ends the traversal, or None when the rules run out or return.  A jump that cannot be
   followed, to a missing chain or deeper than `depth`, drops the packet.
   */
  function Walk(w: World, t: Table, rules: seq<Rule>, p: Packet, depth: nat): (v: Option<Target>)
    decreases depth, |rules|, 0
  {
    if rules == [] then None
    else if !HoldsAll(w, rules[0].conds, p) then Walk(w, t, rules[1..], p, depth)
    else Fire(w, t, rules[0].target, rules[1..], p, depth)
  }

  /** What a matching rule does, with the rules after it. */
  function Fire(w: World, t: Table, g: Target, rest: seq<Rule>, p: Packet, depth: nat): (v: Option<Target>)
    decreases depth, |rest|, 1
  {
    if g.Return? then None
    else if !g.Jump? then Some(g)
    else if depth == 0 || g.chain !in t then Some(Drop)
    else
      var inner := Walk(w, t, t[g.chain], p, depth - 1);
      if inner.Some? then inner else Walk(w, t, rest, p, depth)
  }

  /**
   A new connection's packet after the nat table: destination translation, or redirection to this host, whose
   address is `self`, at the port that `portOf` reads from the rule.
   */
  function Translated(v: Option<Target>, p: Packet, self: Bytes, portOf: Bytes -> nat): (q: Packet) {
    if v.Some? && v.value.Dnat? then p.(dst := v.value.host, dport := v.value.port)
    else if v.Some? && v.value.Redirect? then p.(dst := self, dport := portOf(v.value.toPorts))
    else p
  }

  lemma Holds1(w: World, a: Cond, p: Packet)
    ensures HoldsAll(w, [a], p) <==> Holds(w, a, p)
  {
  }

  lemma Holds2(w: World, a: Cond, b: Cond, p: Packet)
    ensures HoldsAll(w, [a, b], p) <==> Holds(w, a, p) && Holds(w, b, p)
  {
    assert [a, b][1..] == [b];
    Holds1(w, b, p);
  }

  lemma Holds3(w: World, a: Cond, b: Cond, c: Cond, p: Packet)
    ensures HoldsAll(w, [a, b, c], p) <==> Holds(w, a, p) && Holds(w, b, p) && Holds(w, c, p)
  {
    assert [a, b, c][1..] == [b, c];
    Holds2(w, b, c, p);
  }

  /** Some rule of the list matches the packet. */
  ghost predicate Fires(w: World, rs: seq<Rule>, p: Packet) {
    exists r :: r in rs && HoldsAll(w, r.conds, p)
  }

  /** A stretch of rules with the same final target. */
  lemma {:induction false} WalkUniform(w: World, t: Table, rs: seq<Rule>, g: Target, rest: seq<Rule>, p: Packet,
      depth: nat)
    requires forall r :: r in rs ==> r.target == g
    requires !g.Jump? && !g.Return?
    ensures Walk(w, t, rs + rest, p, depth) == if Fires(w, rs, p) then Some(g) else Walk(w, t, rest, p, depth)
    decreases rs
  {
    if rs == [] {
      assert rs + rest == rest;
    } else {
      assert rs == [rs[0]] + rs[1..] && (rs + rest)[1..] == rs[1..] + rest;
      WalkUniform(w, t, rs[1..], g, rest, p, depth);
      assert Fires(w, rs, p) <==> HoldsAll(w, rs[0].conds, p) || Fires(w, rs[1..], p);
    }
  }

  predicate Final(r: Rule) {
    !r.target.Jump? && !r.target.Return?
  }

  /** Rules with final targets, then more rules. */
  lemma {:induction false} WalkAppend(w: World, t: Table, a: seq<Rule>, b: seq<Rule>, p: Packet, depth: nat)
    requires forall r :: r in a ==> Final(r)
    ensures Walk(w, t, a + b, p, depth) ==
      if Walk(w, t, a, p, depth).Some? then Walk(w, t, a, p, depth) else Walk(w, t, b, p, depth)
    decreases a
  {
    if a == [] {
      assert a + b == b;
    } else {
      assert a[0] in a && Final(a[0]);
      assert (a + b)[1..] == a[1..] + b;
      WalkAppend(w, t, a[1..], b, p, depth);
    }
  }

  // Commands.

  datatype Op =
    | New(chain: Bytes)                  // -N
    | Flush(chain: Bytes)                // -F
    | Delete(chain: Bytes, rule: Rule)   // -D
    | Insert(chain: Bytes, rule: Rule)   // -I chain 1
    | Append(chain: Bytes, rule: Rule)   // -A
    | Remove(chain: Bytes)               // -X

  datatype Status = Done | Exists | Missing | BadRule | TooManyLinks | NotEmpty

  function RemoveFirst<T(==)>(xs: seq<T>, x: T): (ys: seq<T>) {
    if xs == [] then [] else if xs[0] == x then xs[1..] else [xs[0]] + RemoveFirst(xs[1..], x)
  }

  predicate Refers(rules: seq<Rule>, c: Bytes) {
    exists r :: r in rules && r.target == Jump(c)
  }

  predicate Referenced(t: Table, c: Bytes) {
    exists d :: d in t && Refers(t[d], c)
  }

  /** The chain exists, and so does the chain the rule jumps to. */
  predicate Known(t: Table, c: Bytes, r: Rule) {
    c in t && (r.target.Jump? ==> r.target.chain in t)
  }

  function StatusOf(t: Table, op: Op): (s: Status) {
    match op
    case New(c) => if c in t then Exists else Done
    case Flush(c) => if c in t then Done else Missing
    case Delete(c, r) => if !Known(t, c, r) then Missing else if r in t[c] then Done else BadRule
    case Insert(c, r) => if Known(t, c, r) then Done else Missing
    case Append(c, r) => if Known(t, c, r) then Done else Missing
    case Remove(c) =>
      if c !in t then Missing else if Referenced(t, c) then TooManyLinks else if t[c] != [] then NotEmpty else Done
  }

  /** The table after a command; a command that fails changes nothing. */
  function Exec(t: Table, op: Op): (r: Table) {
    if StatusOf(t, op) != Done then t
    else match op
      case New(c) => t[c := []]
      case Flush(c) => t[c := []]
      case Delete(c, r) => t[c := RemoveFirst(t[c], r)]
      case Insert(c, r) => t[c := [r] + t[c]]
      case Append(c, r) => t[c := t[c] + [r]]
      case Remove(c) => t - {c}
  }

  /** The failures `runNetfilter` goes on after. */
  predicate Tolerated(op: Op, s: Status) {
    || s == Done
    || (op.New? && s == Exists)
    || ((op.Delete? || op.Remove?) && s in {Missing, BadRule, TooManyLinks})
  }

  /** Commands in order up to the first failure that is not tolerated. */
  function RunOps(t: Table, ops: seq<Op>): (r: Option<Table>)
    decreases ops
  {
    if ops == [] then Some(t)
    else if !Tolerated(ops[0], StatusOf(t, ops[0])) then None
    else RunOps(Exec(t, ops[0]), ops[1..])
  }

  lemma {:induction false} RunOpsAppend(t: Table, a: seq<Op>, b: seq<Op>)
    requires RunOps(t, a).Some?
    ensures RunOps(t, a + b) == RunOps(RunOps(t, a).value, b)
    decreases a
  {
    if a == [] {
      assert a + b == b;
    } else {
      assert (a + b)[1..] == a[1..] + b;
      RunOpsAppend(Exec(t, a[0]), a[1..], b);
    }
  }

  // The two tables of a node.

  datatype TableId = Nat | Filter

  datatype Tables = Tables(nat_: Table, filter_: Table) {
    function Get(id: TableId): (t: Table) { if id == Nat then nat_ else filter_ }

    function Set(id: TableId, t: Table): (r: Tables)
      ensures r.Get(id) == t && forall o :: o != id ==> r.Get(o) == Get(o)
    {
      if id == Nat then Tables(t, filter_) else Tables(nat_, t)
    }
  }

  datatype Cmd = Cmd(id: TableId, op: Op)

  /** The tables when the commands stop, and whether they all went through. */
  function Run(ts: Tables, cmds: seq<Cmd>): (r: (Tables, bool))
    decreases cmds
  {
    if cmds == [] then (ts, true)
    else
      var t, op := ts.Get(cmds[0].id), cmds[0].op;
      if !Tolerated(op, StatusOf(t, op)) then (ts, false)
      else Run(ts.Set(cmds[0].id, Exec(t, op)), cmds[1..])
  }

  /** The commands of one table. */
  function Tag(id: TableId, ops: seq<Op>): (cmds: seq<Cmd>)
    ensures |cmds| == |ops|
  {
    seq(|ops|, i requires 0 <= i < |ops| => Cmd(id, ops[i]))
  }

  lemma {:induction false} RunTag(ts: Tables, id: TableId, ops: seq<Op>, rest: seq<Cmd>)
    requires RunOps(ts.Get(id), ops).Some?
    ensures Run(ts, Tag(id, ops) + rest) == Run(ts.Set(id, RunOps(ts.Get(id), ops).value), rest)
    decreases ops
  {
    var cmds := Tag(id, ops) + rest;
    if ops == [] {
      assert cmds == rest;
    } else {
      assert cmds[1..] == Tag(id, ops[1..]) + rest;
      var next := ts.Set(id, Exec(ts.Get(id), ops[0]));
      RunTag(next, id, ops[1..], rest);
    }
  }

  /** The kernel's tables, edited one command at a time. */
  class Kernel {
    var tables: Tables

    constructor (ts: Tables)
      ensures tables == ts
    {
      tables := ts;
    }

    /** One run of the command-line tool. */
    method Iptables(cmd: Cmd) returns (s: Status)
      modifies this
      ensures s == StatusOf(old(tables).Get(cmd.id), cmd.op)
      ensures tables == old(tables).Set(cmd.id, Exec(old(tables).Get(cmd.id), cmd.op))
    {
      var t := tables.Get(cmd.id);
      s := StatusOf(t, cmd.op);
      tables := tables.Set(cmd.id, Exec(t, cmd.op));
    }

    method RunNetfilter(cmds: seq<Cmd>) returns (ok: bool)
      modifies this
      ensures (tables, ok) == Run(old(tables), cmds)
    {
      for i := 0 to |cmds|
        invariant Run(tables, cmds[i..]) == Run(old(tables), cmds)
      {
        assert cmds[i..][1..] == cmds[i + 1..];
        ghost var before := tables;
        var s := Iptables(cmds[i]);
        if !Tolerated(cmds[i].op, s) {
          FailedSame(before, cmds[i]);
          return false;
        }
      }
      return true;
    }
  }

  /** A command that is not tolerated leaves the tables as they were. */
  lemma FailedSame(ts: Tables, cmd: Cmd)
    requires !Tolerated(cmd.op, StatusOf(ts.Get(cmd.id), cmd.op))
    ensures ts.Set(cmd.id, Exec(ts.Get(cmd.id), cmd.op)) == ts
  {
  }
}
