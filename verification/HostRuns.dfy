/**
 Whole runs of the node plugin: any sequence of installs, reinstalls and cleanups of installed
 interfaces goes through, and the tables always are the original ones plus what is installed.
 */
module HostRuns {
  import opened Octets
  import opened Netfilter
  import opened HostRules
  import opened HostTables
  import opened Reach

  /** The installed interfaces, latest first, and their configurations. */
  datatype Node = Node(order: seq<Bytes>, cfgs: map<Bytes, Config>)

  const NOTHING := Node([], map[])

  datatype Event = Install(iface: Bytes, cfg: Config) | Cleanup(iface: Bytes)

  function Step(n: Node, e: Event): (r: Node) {
    match e
    case Install(i, cfg) => Node([i] + RemoveFirst(n.order, i), n.cfgs[i := cfg])
    case Cleanup(i) => Node(RemoveFirst(n.order, i), n.cfgs - {i})
  }

  ghost predicate ValidNode(n: Node) {
    NoDup(n.order) && forall i :: i in n.order <==> i in n.cfgs
  }

  lemma {:induction false} RemoveOnce<T>(xs: seq<T>, x: T)
    requires NoDup(xs)
    ensures NoDup(RemoveFirst(xs, x)) && forall y :: y in RemoveFirst(xs, x) <==> y in xs && y != x
  {
    if xs != [] {
      TailNoDup(xs);
      RemoveOnce(xs[1..], x);
      assert xs == [xs[0]] + xs[1..];
      if xs[0] != x { ConsNoDup(xs[0], RemoveFirst(xs[1..], x)); }
    }
  }

  lemma StepValid(n: Node, e: Event)
    requires ValidNode(n)
    ensures ValidNode(Step(n, e))
  {
    RemoveOnce(n.order, e.iface);
    if e.Install? { ConsNoDup(e.iface, RemoveFirst(n.order, e.iface)); }
  }

  /** One table's view of a node: every hook jumps to the interfaces in order. */
  ghost function ViewOf(n: Node, hs: seq<Bytes>, f: Config -> seq<Rule>): (v: View) {
    View(map h | h in hs :: n.order, map i | i in n.cfgs :: f(n.cfgs[i]))
  }

  lemma {:induction false} HookAllAt(v: View, iface: Bytes, hs: seq<Bytes>)
    requires NoDup(hs) && forall h :: h in hs ==> h in v.hooks
    ensures HookAll(v, iface, hs).hooks ==
      map h | h in v.hooks :: if h in hs then [iface] + RemoveFirst(v.hooks[h], iface) else v.hooks[h]
    decreases hs
  {
    if hs != [] {
      TailNoDup(hs);
      HookAllAt(v.(hooks := v.hooks[hs[0] := [iface] + RemoveFirst(v.hooks[hs[0]], iface)]), iface, hs[1..]);
    } else {
      assert v.hooks == map h | h in v.hooks :: v.hooks[h];
    }
  }

  lemma {:induction false} UnhookAllAt(v: View, iface: Bytes, hs: seq<Bytes>)
    requires NoDup(hs) && forall h :: h in hs ==> h in v.hooks
    ensures UnhookAll(v, iface, hs).hooks ==
      map h | h in v.hooks :: if h in hs then RemoveFirst(v.hooks[h], iface) else v.hooks[h]
    decreases hs
  {
    if hs != [] {
      TailNoDup(hs);
      UnhookAllAt(v.(hooks := v.hooks[hs[0] := RemoveFirst(v.hooks[hs[0]], iface)]), iface, hs[1..]);
    } else {
      assert v.hooks == map h | h in v.hooks :: v.hooks[h];
    }
  }

  /** The hooks are chains of the original table, each named once. */
  ghost predicate Based(orig: Table, prefix: Bytes, hs: seq<Bytes>) {
    Pristine(orig, prefix) && NoDup(hs) && forall h :: h in hs ==> h in orig
  }

  ghost predicate Plain(f: Config -> seq<Rule>) {
    forall c :: NoJumps(f(c))
  }

  lemma InstallNode(t: Table, orig: Table, prefix: Bytes, hs: seq<Bytes>, f: Config -> seq<Rule>, n: Node,
      iface: Bytes, cfg: Config)
    requires Based(orig, prefix, hs) && Plain(f) && Shows(t, orig, prefix, ViewOf(n, hs, f))
    ensures
      var r := RunOps(t, InstallOps(prefix, iface, hs, f(cfg)));
      r.Some? && Shows(r.value, orig, prefix, ViewOf(Step(n, Install(iface, cfg)), hs, f))
  {
    var v, v' := ViewOf(n, hs, f), ViewOf(Step(n, Install(iface, cfg)), hs, f);
    InstallTable(t, orig, prefix, v, iface, hs, f(cfg));
    HookAllAt(v, iface, hs);
    assert HookAll(v, iface, hs).hooks == v'.hooks;
    assert v.bodies[iface := f(cfg)] == v'.bodies;
  }

  lemma CleanupNode(t: Table, orig: Table, prefix: Bytes, hs: seq<Bytes>, f: Config -> seq<Rule>, n: Node, iface: Bytes)
    requires Based(orig, prefix, hs) && Plain(f) && Shows(t, orig, prefix, ViewOf(n, hs, f)) && ValidNode(n)
      && iface in n.cfgs
    ensures
      var r := RunOps(t, CleanupOps(prefix, iface, hs));
      r.Some? && Shows(r.value, orig, prefix, ViewOf(Step(n, Cleanup(iface)), hs, f))
  {
    var v, v' := ViewOf(n, hs, f), ViewOf(Step(n, Cleanup(iface)), hs, f);
    RunUnhooks(t, orig, prefix, v, iface, hs);
    UnhookAllAt(v, iface, hs);
    RemoveOnce(n.order, iface);
    var u, w := RunOps(t, Unhooks(prefix, iface, hs)).value, UnhookAll(v, iface, hs);
    assert w.hooks == v'.hooks;
    assert w.bodies - {iface} == v'.bodies;
    RunTearDown(u, orig, prefix, w, iface);
    RunOpsAppend(t, Unhooks(prefix, iface, hs), [Flush(prefix + iface), Remove(prefix + iface)]);
  }

  // Both tables.

  ghost predicate Original(orig: Tables) {
    Based(orig.nat_, PR, NAT_HOOKS) && Based(orig.filter_, EG, FILTER_HOOKS)
  }

  /** The tables are the original ones plus what the node has installed. */
  ghost predicate Reflects(ts: Tables, orig: Tables, n: Node) {
    && Shows(ts.nat_, orig.nat_, PR, ViewOf(n, NAT_HOOKS, DnatRules))
    && Shows(ts.filter_, orig.filter_, EG, ViewOf(n, FILTER_HOOKS, EgressRules))
  }

  lemma PlainBodies()
    ensures Plain(DnatRules) && Plain(EgressRules)
  {
    forall c: Config ensures NoJumps(EgressRules(c)) {
    }
  }

  function Commands(e: Event): (cmds: seq<Cmd>) {
    match e
    case Install(i, cfg) => BuildInstall(i, cfg)
    case Cleanup(i) => BuildCleanup(i)
  }

  /** Cleanup is only asked of an installed interface. */
  predicate Legal(n: Node, e: Event) {
    e.Cleanup? ==> e.iface in n.cfgs
  }

  /** One completed event: no command fails for good, and the tables reflect the new node. */
  lemma EventRuns(ts: Tables, orig: Tables, n: Node, e: Event)
    requires Original(orig) && Reflects(ts, orig, n) && ValidNode(n) && Legal(n, e)
    ensures Run(ts, Commands(e)).1 && Reflects(Run(ts, Commands(e)).0, orig, Step(n, e))
  {
    PlainBodies();
    match e {
      case Install(i, cfg) =>
        InstallNode(ts.nat_, orig.nat_, PR, NAT_HOOKS, DnatRules, n, i, cfg);
        InstallNode(ts.filter_, orig.filter_, EG, FILTER_HOOKS, EgressRules, n, i, cfg);
        TwoTables(ts, InstallOps(PR, i, NAT_HOOKS, DnatRules(cfg)), InstallOps(EG, i, FILTER_HOOKS, EgressRules(cfg)));
      case Cleanup(i) =>
        CleanupNode(ts.nat_, orig.nat_, PR, NAT_HOOKS, DnatRules, n, i);
        CleanupNode(ts.filter_, orig.filter_, EG, FILTER_HOOKS, EgressRules, n, i);
        TwoTables(ts, CleanupOps(PR, i, NAT_HOOKS), CleanupOps(EG, i, FILTER_HOOKS));
    }
  }

  lemma TwoTables(ts: Tables, a: seq<Op>, b: seq<Op>)
    requires RunOps(ts.nat_, a).Some? && RunOps(ts.filter_, b).Some?
    ensures Run(ts, Tag(Nat, a) + Tag(Filter, b))
      == (Tables(RunOps(ts.nat_, a).value, RunOps(ts.filter_, b).value), true)
  {
    var mid := ts.Set(Nat, RunOps(ts.nat_, a).value);
    RunTag(ts, Nat, a, Tag(Filter, b));
    RunTag(mid, Filter, b, []);
    assert Tag(Filter, b) + [] == Tag(Filter, b);
  }

  /** The plugin's step on the kernel's tables. */
  method Perform(k: Kernel, e: Event, ghost orig: Tables, ghost n: Node) returns (ok: bool)
    requires Original(orig) && Reflects(k.tables, orig, n) && ValidNode(n) && Legal(n, e)
    modifies k
    ensures ok && Reflects(k.tables, orig, Step(n, e)) && ValidNode(Step(n, e))
  {
    EventRuns(k.tables, orig, n, e);
    StepValid(n, e);
    ok := k.RunNetfilter(Commands(e));
  }

  /** Events one after the other, each run to its end; None when a command fails for good. */
  function RunEvents(ts: Tables, es: seq<Event>): (r: Option<Tables>)
    decreases es
  {
    if es == [] then Some(ts)
    else
      var next := Run(ts, Commands(es[0]));
      if next.1 then RunEvents(next.0, es[1..]) else None
  }

  function NodeAfter(n: Node, es: seq<Event>): (r: Node)
    decreases es
  {
    if es == [] then n else NodeAfter(Step(n, es[0]), es[1..])
  }

  predicate LegalRun(n: Node, es: seq<Event>)
    decreases es
  {
    es == [] || (Legal(n, es[0]) && LegalRun(Step(n, es[0]), es[1..]))
  }

  lemma {:induction false} RunReflects(ts: Tables, orig: Tables, n: Node, es: seq<Event>)
    requires Original(orig) && Reflects(ts, orig, n) && ValidNode(n) && LegalRun(n, es)
    ensures RunEvents(ts, es).Some? && Reflects(RunEvents(ts, es).value, orig, NodeAfter(n, es))
      && ValidNode(NodeAfter(n, es))
    decreases es
  {
    if es != [] {
      EventRuns(ts, orig, n, es[0]);
      StepValid(n, es[0]);
      RunReflects(Run(ts, Commands(es[0])).0, orig, Step(n, es[0]), es[1..]);
    }
  }

  lemma StartReflects(orig: Tables)
    ensures Reflects(orig, orig, NOTHING) && ValidNode(NOTHING)
  {
    EmptyShows(orig.nat_, PR, NAT_HOOKS, DnatRules);
    EmptyShows(orig.filter_, EG, FILTER_HOOKS, EgressRules);
  }

  lemma EmptyShows(orig: Table, prefix: Bytes, hs: seq<Bytes>, f: Config -> seq<Rule>)
    ensures Shows(orig, orig, prefix, ViewOf(NOTHING, hs, f))
  {
    var v := ViewOf(NOTHING, hs, f);
    forall c ensures ShowsAt(orig, orig, prefix, v, c) {
      assert Jumps(prefix, HookedIfs(v, c)) == [] && (c in orig ==> [] + orig[c] == orig[c]);
    }
  }

  /** After every run of completed events, each original chain is one jump per installed interface and then itself. */
  lemma HostRun(orig: Tables, es: seq<Event>)
    requires Original(orig) && LegalRun(NOTHING, es)
    ensures RunEvents(orig, es).Some? && Reflects(RunEvents(orig, es).value, orig, NodeAfter(NOTHING, es))
    ensures ValidNode(NodeAfter(NOTHING, es))
  {
    StartReflects(orig);
    RunReflects(orig, orig, NOTHING, es);
  }

  /** Cleaning up every interface restores the original tables. */
  lemma CleanRunRestores(orig: Tables, es: seq<Event>)
    requires Original(orig) && LegalRun(NOTHING, es) && NodeAfter(NOTHING, es).order == []
    ensures RunEvents(orig, es) == Some(orig)
  {
    HostRun(orig, es);
    var ts, n := RunEvents(orig, es).value, NodeAfter(NOTHING, es);
    assert n.cfgs == map[] by {
      assert forall i :: i in n.cfgs ==> i in n.order;
    }
    SameTable(ts.nat_, orig.nat_, PR, NAT_HOOKS, DnatRules);
    SameTable(ts.filter_, orig.filter_, EG, FILTER_HOOKS, EgressRules);
  }

  lemma SameTable(t: Table, orig: Table, prefix: Bytes, hs: seq<Bytes>, f: Config -> seq<Rule>)
    requires Shows(t, orig, prefix, ViewOf(NOTHING, hs, f))
    ensures t == orig
  {
    EmptyShows(orig, prefix, hs, f);
    forall c ensures Lookup(t, c) == Lookup(orig, c) {
      assert ShowsAt(t, orig, prefix, ViewOf(NOTHING, hs, f), c)
        && ShowsAt(orig, orig, prefix, ViewOf(NOTHING, hs, f), c);
    }
    assert t.Keys == orig.Keys by {
      forall c ensures c in t <==> c in orig { assert Lookup(t, c) == Lookup(orig, c); }
    }
    forall c | c in t ensures t[c] == orig[c] { assert Lookup(t, c) == Lookup(orig, c); }
  }
}
