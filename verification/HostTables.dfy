/**
 What installing and cleaning up interfaces does to a whole table: at every moment the table is the
 original one plus the hooked jumps and the interfaces' own chains.
 */
module HostTables {
  import opened Octets
  import opened Netfilter
  import opened HostRules

  /** The interfaces hooked into each built-in chain, and the chain of each interface. */
  datatype View = View(hooks: map<Bytes, seq<Bytes>>, bodies: map<Bytes, seq<Rule>>)

  function Jumps(prefix: Bytes, ifs: seq<Bytes>): (rs: seq<Rule>)
    ensures |rs| == |ifs| && forall i :: 0 <= i < |ifs| ==> rs[i] == JumpTo(prefix, ifs[i])
  {
    seq(|ifs|, i requires 0 <= i < |ifs| => JumpTo(prefix, ifs[i]))
  }

  function HookedIfs(v: View, c: Bytes): (ifs: seq<Bytes>) {
    if c in v.hooks then v.hooks[c] else []
  }

  function Lookup(t: Table, c: Bytes): (rs: Option<seq<Rule>>) {
    if c in t then Some(t[c]) else None
  }

  /** The rules of a chain: an original chain follows its jumps, a portal chain is its interface's. */
  function ChainAt(orig: Table, prefix: Bytes, v: View, c: Bytes): (rs: Option<seq<Rule>>) {
    if c in orig then Some(Jumps(prefix, HookedIfs(v, c)) + orig[c])
    else if HasPrefix(c, prefix) && c[|prefix|..] in v.bodies then Some(v.bodies[c[|prefix|..]])
    else None
  }

  ghost predicate ShowsAt(t: Table, orig: Table, prefix: Bytes, v: View, c: Bytes) {
    Lookup(t, c) == ChainAt(orig, prefix, v, c)
  }

  ghost predicate Shows(t: Table, orig: Table, prefix: Bytes, v: View) {
    forall c :: ShowsAt(t, orig, prefix, v, c)
  }

  predicate PlainRule(prefix: Bytes, r: Rule) {
    r.target.Jump? ==> !HasPrefix(r.target.chain, prefix)
  }

  predicate PlainRules(prefix: Bytes, rs: seq<Rule>) {
    forall r :: r in rs ==> PlainRule(prefix, r)
  }

  /** The original table has no portal chain and no jump to one. */
  ghost predicate Pristine(orig: Table, prefix: Bytes) {
    forall c :: c in orig ==> !HasPrefix(c, prefix) && PlainRules(prefix, orig[c])
  }

  lemma PortalName(prefix: Bytes, iface: Bytes, c: Bytes)
    ensures c == prefix + iface <==> HasPrefix(c, prefix) && c[|prefix|..] == iface
  {
    if HasPrefix(c, prefix) { assert c == c[..|prefix|] + c[|prefix|..]; }
    DropAppend(prefix, iface);
  }

  /** The chain of an interface, as seen in the table. */
  lemma PortalChain(t: Table, orig: Table, prefix: Bytes, v: View, iface: Bytes)
    requires Pristine(orig, prefix) && Shows(t, orig, prefix, v)
    ensures prefix + iface !in orig
    ensures Lookup(t, prefix + iface) == Lookup(v.bodies, iface)
  {
    PortalName(prefix, iface, prefix + iface);
    assert ShowsAt(t, orig, prefix, v, prefix + iface);
  }

  /** Giving the interface's chain new rules. */
  lemma SetBody(t: Table, orig: Table, prefix: Bytes, v: View, iface: Bytes, rs: seq<Rule>)
    requires Pristine(orig, prefix) && Shows(t, orig, prefix, v)
    ensures Shows(t[prefix + iface := rs], orig, prefix, v.(bodies := v.bodies[iface := rs]))
  {
    var u, w := t[prefix + iface := rs], v.(bodies := v.bodies[iface := rs]);
    PortalChain(t, orig, prefix, v, iface);
    forall c ensures ShowsAt(u, orig, prefix, w, c) {
      assert ShowsAt(t, orig, prefix, v, c);
      PortalName(prefix, iface, c);
    }
  }

  /** Giving a hook a new list of jumps. */
  lemma SetHook(t: Table, orig: Table, prefix: Bytes, v: View, hook: Bytes, ifs: seq<Bytes>)
    requires Shows(t, orig, prefix, v) && hook in orig
    ensures Shows(t[hook := Jumps(prefix, ifs) + orig[hook]], orig, prefix, v.(hooks := v.hooks[hook := ifs]))
  {
    var u, w := t[hook := Jumps(prefix, ifs) + orig[hook]], v.(hooks := v.hooks[hook := ifs]);
    forall c ensures ShowsAt(u, orig, prefix, w, c) {
      assert ShowsAt(t, orig, prefix, v, c);
    }
  }

  lemma JumpIn(prefix: Bytes, ifs: seq<Bytes>, rest: seq<Rule>, iface: Bytes)
    requires PlainRules(prefix, rest)
    ensures JumpTo(prefix, iface) in Jumps(prefix, ifs) + rest <==> iface in ifs
  {
    var j, rs := JumpTo(prefix, iface), Jumps(prefix, ifs);
    DropAppend(prefix, iface);
    assert !PlainRule(prefix, j);
    if iface in ifs {
      var i :| 0 <= i < |ifs| && ifs[i] == iface;
      assert (rs + rest)[i] == j;
    }
    if j in rs {
      var i :| 0 <= i < |rs| && rs[i] == j;
      assert rs[i] == JumpTo(prefix, ifs[i]) && j.conds[0] == InIf(ifs[i]);
    }
  }

  lemma {:induction false} JumpRemoved(prefix: Bytes, ifs: seq<Bytes>, rest: seq<Rule>, iface: Bytes)
    requires iface in ifs
    ensures RemoveFirst(Jumps(prefix, ifs) + rest, JumpTo(prefix, iface))
      == Jumps(prefix, RemoveFirst(ifs, iface)) + rest
  {
    var rs := Jumps(prefix, ifs) + rest;
    assert rs[0] == JumpTo(prefix, ifs[0]) && rs[0].conds[0] == InIf(ifs[0]);
    assert rs[1..] == Jumps(prefix, ifs[1..]) + rest;
    if ifs[0] != iface {
      assert JumpTo(prefix, iface).conds[0] == InIf(iface);
      JumpRemoved(prefix, ifs[1..], rest, iface);
      assert Jumps(prefix, [ifs[0]] + RemoveFirst(ifs[1..], iface))
        == [rs[0]] + Jumps(prefix, RemoveFirst(ifs[1..], iface));
    }
  }

  lemma {:induction false} RemoveAbsent<T>(xs: seq<T>, x: T)
    requires x !in xs
    ensures RemoveFirst(xs, x) == xs
  {
    if xs != [] { RemoveAbsent(xs[1..], x); }
  }

  /** `-D hook`: tolerated whether or not the jump was there. */
  lemma DeleteHook(t: Table, orig: Table, prefix: Bytes, v: View, hook: Bytes, iface: Bytes)
    requires Pristine(orig, prefix) && Shows(t, orig, prefix, v) && hook in orig && hook in v.hooks && iface in v.bodies
    ensures
      var op := Delete(hook, JumpTo(prefix, iface));
      && Tolerated(op, StatusOf(t, op))
      && Shows(Exec(t, op), orig, prefix, v.(hooks := v.hooks[hook := RemoveFirst(v.hooks[hook], iface)]))
  {
    var ifs := v.hooks[hook];
    assert ShowsAt(t, orig, prefix, v, hook);
    PortalChain(t, orig, prefix, v, iface);
    JumpIn(prefix, ifs, orig[hook], iface);
    if iface in ifs {
      JumpRemoved(prefix, ifs, orig[hook], iface);
      SetHook(t, orig, prefix, v, hook, RemoveFirst(ifs, iface));
    } else {
      RemoveAbsent(ifs, iface);
      assert v.hooks[hook := ifs] == v.hooks;
    }
  }

  /** `-I hook 1`. */
  lemma InsertHook(t: Table, orig: Table, prefix: Bytes, v: View, hook: Bytes, iface: Bytes)
    requires Pristine(orig, prefix) && Shows(t, orig, prefix, v) && hook in orig && hook in v.hooks && iface in v.bodies
    ensures
      var op := Insert(hook, JumpTo(prefix, iface));
      && StatusOf(t, op) == Done
      && Shows(Exec(t, op), orig, prefix, v.(hooks := v.hooks[hook := [iface] + v.hooks[hook]]))
  {
    var ifs := v.hooks[hook];
    assert ShowsAt(t, orig, prefix, v, hook);
    PortalChain(t, orig, prefix, v, iface);
    assert [JumpTo(prefix, iface)] + (Jumps(prefix, ifs) + orig[hook]) == Jumps(prefix, [iface] + ifs) + orig[hook];
    SetHook(t, orig, prefix, v, hook, [iface] + ifs);
  }

  // Whole command lists.

  /** Moving the interface to the front of each listed hook. */
  function HookAll(v: View, iface: Bytes, hs: seq<Bytes>): (r: View)
    requires forall h :: h in hs ==> h in v.hooks
    decreases hs
  {
    if hs == [] then v
    else HookAll(v.(hooks := v.hooks[hs[0] := [iface] + RemoveFirst(v.hooks[hs[0]], iface)]), iface, hs[1..])
  }

  lemma {:induction false} RunHooks(t: Table, orig: Table, prefix: Bytes, v: View, iface: Bytes, hs: seq<Bytes>)
    requires Pristine(orig, prefix) && Shows(t, orig, prefix, v) && iface in v.bodies
    requires forall h :: h in hs ==> h in v.hooks && h in orig
    ensures
      var r := RunOps(t, Hooks(prefix, iface, hs));
      r.Some? && Shows(r.value, orig, prefix, HookAll(v, iface, hs))
    decreases hs
  {
    if hs != [] {
      var h, ops := hs[0], Hooks(prefix, iface, hs);
      var ifs := RemoveFirst(v.hooks[h], iface);
      var u := Exec(t, ops[0]);
      DeleteHook(t, orig, prefix, v, h, iface);
      InsertHook(u, orig, prefix, v.(hooks := v.hooks[h := ifs]), h, iface);
      assert v.hooks[h := ifs][h := [iface] + ifs] == v.hooks[h := [iface] + ifs];
      var w := v.(hooks := v.hooks[h := [iface] + ifs]);
      RunHooks(Exec(u, ops[1]), orig, prefix, w, iface, hs[1..]);
      assert ops[1..][1..] == Hooks(prefix, iface, hs[1..]);
    }
  }

  predicate NoJumps(rs: seq<Rule>) {
    forall r :: r in rs ==> !r.target.Jump?
  }

  lemma {:induction false} RunAppends(t: Table, orig: Table, prefix: Bytes, v: View, iface: Bytes, rs: seq<Rule>)
    requires Pristine(orig, prefix) && Shows(t, orig, prefix, v) && iface in v.bodies && NoJumps(rs)
    ensures
      var r := RunOps(t, Appends(prefix + iface, rs));
      r.Some? && Shows(r.value, orig, prefix, v.(bodies := v.bodies[iface := v.bodies[iface] + rs]))
    decreases rs
  {
    var ops, body := Appends(prefix + iface, rs), v.bodies[iface];
    if rs == [] {
      assert body + rs == body && v.bodies[iface := body] == v.bodies;
    } else {
      PortalChain(t, orig, prefix, v, iface);
      assert rs[0] in rs;
      SetBody(t, orig, prefix, v, iface, body + [rs[0]]);
      var w := v.(bodies := v.bodies[iface := body + [rs[0]]]);
      RunAppends(Exec(t, ops[0]), orig, prefix, w, iface, rs[1..]);
      assert ops[1..] == Appends(prefix + iface, rs[1..]);
      assert body + [rs[0]] + rs[1..] == body + rs;
      assert w.bodies[iface := body + rs] == v.bodies[iface := body + rs];
    }
  }

  /** `-N` then `-F`: the chain exists and is empty, whether or not it was there before. */
  lemma RunSetUp(t: Table, orig: Table, prefix: Bytes, v: View, iface: Bytes)
    requires Pristine(orig, prefix) && Shows(t, orig, prefix, v)
    ensures
      var r := RunOps(t, [New(prefix + iface), Flush(prefix + iface)]);
      r.Some? && Shows(r.value, orig, prefix, v.(bodies := v.bodies[iface := []]))
  {
    var c := prefix + iface;
    var ops := [New(c), Flush(c)];
    PortalChain(t, orig, prefix, v, iface);
    SetBody(t, orig, prefix, v, iface, []);
    var u := Exec(t, New(c));
    assert c in u && u[c := []] == t[c := []];
    assert ops[1..] == [Flush(c)] && ops[1..][1..] == [];
    assert RunOps(t, ops) == RunOps(u, [Flush(c)]);
    assert RunOps(u, ops[1..]) == RunOps(u[c := []], []);
  }

  /** Installing on one table. */
  lemma InstallTable(t: Table, orig: Table, prefix: Bytes, v: View, iface: Bytes, hs: seq<Bytes>, body: seq<Rule>)
    requires Pristine(orig, prefix) && Shows(t, orig, prefix, v) && NoJumps(body)
    requires forall h :: h in hs ==> h in v.hooks && h in orig
    ensures
      var r := RunOps(t, InstallOps(prefix, iface, hs, body));
      r.Some? && Shows(r.value, orig, prefix, View(HookAll(v, iface, hs).hooks, v.bodies[iface := body]))
  {
    var setUp := [New(prefix + iface), Flush(prefix + iface)];
    RunSetUp(t, orig, prefix, v, iface);
    var t1, v1 := RunOps(t, setUp).value, v.(bodies := v.bodies[iface := []]);
    RunHooks(t1, orig, prefix, v1, iface, hs);
    var t2, v2 := RunOps(t1, Hooks(prefix, iface, hs)).value, HookAll(v1, iface, hs);
    HookAllBodies(v, iface, hs, v1.bodies);
    RunAppends(t2, orig, prefix, v2, iface, body);
    assert [] + body == body && v1.bodies[iface := body] == v.bodies[iface := body];
    RunOpsAppend(t1, Hooks(prefix, iface, hs), Appends(prefix + iface, body));
    RunOpsAppend(t, setUp, Hooks(prefix, iface, hs) + Appends(prefix + iface, body));
  }

  lemma {:induction false} HookAllBodies(v: View, iface: Bytes, hs: seq<Bytes>, bodies: map<Bytes, seq<Rule>>)
    requires forall h :: h in hs ==> h in v.hooks
    ensures HookAll(v.(bodies := bodies), iface, hs) == View(HookAll(v, iface, hs).hooks, bodies)
    decreases hs
  {
    if hs != [] {
      HookAllBodies(v.(hooks := v.hooks[hs[0] := [iface] + RemoveFirst(v.hooks[hs[0]], iface)]), iface, hs[1..],
        bodies);
    }
  }

  /** Taking the interface out of each listed hook. */
  function UnhookAll(v: View, iface: Bytes, hs: seq<Bytes>): (r: View)
    requires forall h :: h in hs ==> h in v.hooks
    decreases hs
  {
    if hs == [] then v else UnhookAll(v.(hooks := v.hooks[hs[0] := RemoveFirst(v.hooks[hs[0]], iface)]), iface, hs[1..])
  }

  lemma {:induction false} RunUnhooks(t: Table, orig: Table, prefix: Bytes, v: View, iface: Bytes, hs: seq<Bytes>)
    requires Pristine(orig, prefix) && Shows(t, orig, prefix, v) && iface in v.bodies
    requires forall h :: h in hs ==> h in v.hooks && h in orig
    ensures
      var r := RunOps(t, Unhooks(prefix, iface, hs));
      r.Some? && Shows(r.value, orig, prefix, UnhookAll(v, iface, hs)) && UnhookAll(v, iface, hs).bodies == v.bodies
    decreases hs
  {
    if hs != [] {
      var h, ops := hs[0], Unhooks(prefix, iface, hs);
      DeleteHook(t, orig, prefix, v, h, iface);
      var w := v.(hooks := v.hooks[h := RemoveFirst(v.hooks[h], iface)]);
      RunUnhooks(Exec(t, ops[0]), orig, prefix, w, iface, hs[1..]);
      assert ops[1..] == Unhooks(prefix, iface, hs[1..]);
    }
  }

  /** No chain refers to the interface once it is hooked nowhere. */
  lemma Unreferenced(t: Table, orig: Table, prefix: Bytes, v: View, iface: Bytes)
    requires Pristine(orig, prefix) && Shows(t, orig, prefix, v)
    requires forall h :: h in v.hooks ==> iface !in v.hooks[h]
    requires forall i :: i in v.bodies ==> NoJumps(v.bodies[i])
    ensures !Referenced(t, prefix + iface)
  {
    forall d | d in t ensures !Refers(t[d], prefix + iface) {
      assert ShowsAt(t, orig, prefix, v, d);
      if d in orig { PlainReferences(prefix, HookedIfs(v, d), orig[d], iface); }
    }
  }

  lemma PlainReferences(prefix: Bytes, ifs: seq<Bytes>, rest: seq<Rule>, iface: Bytes)
    requires PlainRules(prefix, rest) && iface !in ifs
    ensures !Refers(Jumps(prefix, ifs) + rest, prefix + iface)
  {
    var rs := Jumps(prefix, ifs);
    DropAppend(prefix, iface);
    forall r | r in rs + rest ensures r.target != Jump(prefix + iface) {
      if r in rs {
        var i :| 0 <= i < |rs| && rs[i] == r;
        DropAppend(prefix, ifs[i]);
      } else {
        assert PlainRule(prefix, r);
      }
    }
  }

  /** `-F` then `-X`, once nothing refers to the chain. */
  lemma RunTearDown(t: Table, orig: Table, prefix: Bytes, v: View, iface: Bytes)
    requires Pristine(orig, prefix) && Shows(t, orig, prefix, v) && iface in v.bodies
    requires forall h :: h in v.hooks ==> iface !in v.hooks[h]
    requires forall i :: i in v.bodies ==> NoJumps(v.bodies[i])
    ensures
      var r := RunOps(t, [Flush(prefix + iface), Remove(prefix + iface)]);
      r.Some? && Shows(r.value, orig, prefix, v.(bodies := v.bodies - {iface}))
  {
    var c := prefix + iface;
    var ops := [Flush(c), Remove(c)];
    PortalChain(t, orig, prefix, v, iface);
    SetBody(t, orig, prefix, v, iface, []);
    var u, w := t[c := []], v.(bodies := v.bodies[iface := []]);
    Unreferenced(u, orig, prefix, w, iface);
    DropBody(u, orig, prefix, w, iface);
    assert w.bodies - {iface} == v.bodies - {iface};
    assert ops[1..] == [Remove(c)] && ops[1..][1..] == [];
    assert RunOps(t, ops) == RunOps(u, [Remove(c)]);
    assert RunOps(u, ops[1..]) == RunOps(u - {c}, []);
  }

  lemma DropBody(t: Table, orig: Table, prefix: Bytes, v: View, iface: Bytes)
    requires Pristine(orig, prefix) && Shows(t, orig, prefix, v)
    ensures Shows(t - {prefix + iface}, orig, prefix, v.(bodies := v.bodies - {iface}))
  {
    var u, w := t - {prefix + iface}, v.(bodies := v.bodies - {iface});
    PortalChain(t, orig, prefix, v, iface);
    forall c ensures ShowsAt(u, orig, prefix, w, c) {
      assert ShowsAt(t, orig, prefix, v, c);
      PortalName(prefix, iface, c);
    }
  }
}
