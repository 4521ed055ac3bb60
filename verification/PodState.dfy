/**
 Pod identities on a node as a value: the registered pods by UID and the IP index, the events that
 change them, and what every sequence of events leaves behind.
 */
module PodState {
  import opened Octets
  import opened Reach

  /** Identity and policy assigned to a pod. */
  datatype Binding = Binding(identity: Bytes, policy: Bytes, bound: bool)

  const UNBOUND := Binding([], [], false)

  datatype Pod = Pod(
    uid: Bytes, namespace: Bytes, name: Bytes, ips: seq<Bytes>, annotations: map<Bytes, Bytes>, binding: Binding)

  const POLICY_KEY := Ascii("service-portal.gke.io/policy")
  const IDENTITY_KEY := Ascii("service-portal.gke.io/identity")

  /** The index sends an IP to the UID of its pod; the class in PodMap shares the pod object itself. */
  datatype State = State(byUID: map<Bytes, Pod>, byIP: map<Bytes, Bytes>)

  const EMPTY := State(map[], map[])

  datatype Event =
    | Register(pod: Pod)
    | Remove(uid: Bytes)
    | Synchronize(pods: seq<Pod>)
    | Bind(uid: Bytes, identity: Bytes, policy: Bytes)
    | Unbind(uid: Bytes)

  predicate Annotated(p: Pod) {
    POLICY_KEY in p.annotations && p.annotations[POLICY_KEY] != []
  }

  /** The binding of a pod that was not in the map before. */
  function FirstBinding(p: Pod): (b: Binding) {
    if !Annotated(p) then p.binding
    else
      var identity := if IDENTITY_KEY in p.annotations then p.annotations[IDENTITY_KEY] else [];
      Binding(identity, p.annotations[POLICY_KEY], true)
  }

  /** The index after every non-empty IP of the list was pointed at `owner`. */
  function Claim<T>(byIP: map<Bytes, T>, ips: seq<Bytes>, owner: T): (m: map<Bytes, T>) {
    map ip | ip in byIP.Keys + (ToSet(ips) - {[]}) :: if ip in ips && ip != [] then owner else byIP[ip]
  }

  /** The pod as the map keeps it: an existing UID keeps its binding. */
  function Stored(s: State, p: Pod): (q: Pod) {
    p.(binding := if p.uid in s.byUID then s.byUID[p.uid].binding else FirstBinding(p))
  }

  /** The IPs an update takes out of the index. */
  function Dropped(s: State, p: Pod): (ips: set<Bytes>) {
    if p.uid in s.byUID then ToSet(s.byUID[p.uid].ips) - ToSet(p.ips) else {}
  }

  function Add(s: State, p: Pod): (r: State) {
    if p.uid == [] then s
    else State(s.byUID[p.uid := Stored(s, p)], Claim(s.byIP - Dropped(s, p), p.ips, p.uid))
  }

  function AddAll(s: State, pods: seq<Pod>): (r: State)
    decreases pods
  {
    if pods == [] then s else AddAll(Add(s, pods[0]), pods[1..])
  }

  function Delete(s: State, uid: Bytes): (r: State) {
    if uid !in s.byUID then s else State(s.byUID - {uid}, s.byIP - ToSet(s.byUID[uid].ips))
  }

  /** The IPs of the pods that are not active. */
  function StaleIPs(s: State, active: set<Bytes>): (ips: set<Bytes>) {
    set u, ip | u in s.byUID && u !in active && ip in s.byUID[u].ips :: ip
  }

  function Prune(s: State, active: set<Bytes>): (r: State) {
    State(s.byUID - (s.byUID.Keys - active), s.byIP - StaleIPs(s, active))
  }

  function Uids(pods: seq<Pod>): (us: set<Bytes>) {
    set p | p in pods :: p.uid
  }

  function Assign(s: State, uid: Bytes, b: Binding): (r: State) {
    var pod := if uid in s.byUID then s.byUID[uid] else Pod(uid, [], [], [], map[], UNBOUND);
    s.(byUID := s.byUID[uid := pod.(binding := b)])
  }

  function Step(s: State, e: Event): (r: State) {
    match e
    case Register(p) => Add(s, p)
    case Remove(u) => Delete(s, u)
    case Synchronize(pods) => Prune(AddAll(s, pods), Uids(pods))
    case Bind(u, identity, policy) => Assign(s, u, Binding(identity, policy, true))
    case Unbind(u) => if u in s.byUID then Assign(s, u, UNBOUND) else s
  }

  function Run(es: seq<Event>): (s: State) {
    if es == [] then EMPTY else Step(Run(es[..|es| - 1]), es[|es| - 1])
  }

  lemma RunSnoc(es: seq<Event>, e: Event)
    ensures Run(es + [e]) == Step(Run(es), e)
  {
    assert (es + [e])[..|es|] == es;
  }

  lemma AddAllStep(s: State, pods: seq<Pod>, i: nat)
    requires i < |pods|
    ensures AddAll(s, pods[i..]) == AddAll(Add(s, pods[i]), pods[i + 1..])
    ensures Uids(pods[..i + 1]) == Uids(pods[..i]) + {pods[i].uid}
  {
    assert pods[i..][1..] == pods[i + 1..];
    assert pods[..i + 1] == pods[..i] + [pods[i]];
  }

  // Index agreement.

  /** The IP is indexed to a registered pod that lists it. */
  predicate IndexedTo(s: State, ip: Bytes) {
    ip in s.byIP && ip != [] && s.byIP[ip] in s.byUID && ip in s.byUID[s.byIP[ip]].ips
  }

  predicate KeyedBy(s: State, u: Bytes) {
    u in s.byUID && s.byUID[u].uid == u
  }

  ghost predicate Agree(s: State) {
    && (forall ip :: ip in s.byIP ==> IndexedTo(s, ip))
    && (forall u :: u in s.byUID ==> KeyedBy(s, u))
  }

  lemma AgreeAdd(s: State, p: Pod)
    requires Agree(s)
    ensures Agree(Add(s, p))
  {
    var r := Add(s, p);
    forall ip | ip in r.byIP ensures IndexedTo(r, ip) {
      assert ip in s.byIP ==> IndexedTo(s, ip);
    }
    forall u | u in r.byUID ensures KeyedBy(r, u) {
      assert u in s.byUID ==> KeyedBy(s, u);
    }
  }

  lemma {:induction false} AgreeAddAll(s: State, pods: seq<Pod>)
    requires Agree(s)
    ensures Agree(AddAll(s, pods))
    decreases pods
  {
    if pods != [] {
      AgreeAdd(s, pods[0]);
      AgreeAddAll(Add(s, pods[0]), pods[1..]);
    }
  }

  lemma AgreePrune(s: State, active: set<Bytes>)
    requires Agree(s)
    ensures Agree(Prune(s, active))
  {
    var r := Prune(s, active);
    forall ip | ip in r.byIP ensures IndexedTo(r, ip) {
      assert IndexedTo(s, ip);
    }
    forall u | u in r.byUID ensures KeyedBy(r, u) {
      assert KeyedBy(s, u);
    }
  }

  lemma AgreeDelete(s: State, uid: Bytes)
    requires Agree(s)
    ensures Agree(Delete(s, uid))
  {
    var r := Delete(s, uid);
    forall ip | ip in r.byIP ensures IndexedTo(r, ip) {
      assert IndexedTo(s, ip);
    }
    forall u | u in r.byUID ensures KeyedBy(r, u) {
      assert KeyedBy(s, u);
    }
  }

  lemma AgreeAssign(s: State, uid: Bytes, b: Binding)
    requires Agree(s)
    ensures Agree(Assign(s, uid, b))
  {
    var r := Assign(s, uid, b);
    forall ip | ip in r.byIP ensures IndexedTo(r, ip) {
      assert IndexedTo(s, ip);
    }
    forall u | u in r.byUID ensures KeyedBy(r, u) {
      assert u in s.byUID ==> KeyedBy(s, u);
    }
  }

  lemma AgreeStep(s: State, e: Event)
    requires Agree(s)
    ensures Agree(Step(s, e))
  {
    match e
    case Register(p) => AgreeAdd(s, p);
    case Remove(u) => AgreeDelete(s, u);
    case Synchronize(pods) => AgreeAddAll(s, pods); AgreePrune(AddAll(s, pods), Uids(pods));
    case Bind(u, identity, policy) => AgreeAssign(s, u, Binding(identity, policy, true));
    case Unbind(u) => AgreeAssign(s, u, UNBOUND);
  }

  /** After every run an indexed IP belongs to a registered pod that lists it. */
  lemma {:induction false} AgreeRun(es: seq<Event>)
    ensures Agree(Run(es))
  {
    if es != [] {
      AgreeRun(es[..|es| - 1]);
      AgreeStep(Run(es[..|es| - 1]), es[|es| - 1]);
    }
  }

  // Resolution: every non-empty IP of every pod leads to it, exactly while no pod takes another's IP.

  predicate Resolves(s: State, u: Bytes, ip: Bytes) {
    ip in s.byIP && s.byIP[ip] == u
  }

  ghost predicate Resolved(s: State) {
    forall u, ip :: u in s.byUID && ip in s.byUID[u].ips && ip != [] ==> Resolves(s, u, ip)
  }

  /** No non-empty IP of `p` is listed by another pod of the map. */
  ghost predicate Apart(s: State, p: Pod) {
    forall u, ip :: u in s.byUID && ip in s.byUID[u].ips && ip != [] && u != p.uid ==> ip !in p.ips
  }

  ghost predicate AllApart(s: State, pods: seq<Pod>)
    decreases pods
  {
    pods == [] || ((pods[0].uid == [] || Apart(s, pods[0])) && AllApart(Add(s, pods[0]), pods[1..]))
  }

  ghost predicate ApartAt(s: State, e: Event) {
    match e
    case Register(p) => p.uid == [] || Apart(s, p)
    case Synchronize(pods) => AllApart(s, pods)
    case _ => true
  }

  /** Registering keeps every IP resolving if and only if the pod takes no other pod's IP. */
  lemma ResolvedAdd(s: State, p: Pod)
    requires Agree(s) && Resolved(s) && p.uid != []
    ensures Resolved(Add(s, p)) <==> Apart(s, p)
  {
    var r := Add(s, p);
    if Apart(s, p) {
      forall u, ip | u in r.byUID && ip in r.byUID[u].ips && ip != [] ensures Resolves(r, u, ip) {
        if u != p.uid {
          assert u in s.byUID && Resolves(s, u, ip);
        }
      }
    }
    if Resolved(r) {
      forall u, ip | u in s.byUID && ip in s.byUID[u].ips && ip != [] && u != p.uid ensures ip !in p.ips {
        assert u in r.byUID && r.byUID[u] == s.byUID[u];
        assert Resolves(r, u, ip);
      }
    }
  }

  lemma {:induction false} ResolvedAddAll(s: State, pods: seq<Pod>)
    requires Agree(s) && Resolved(s) && AllApart(s, pods)
    ensures Agree(AddAll(s, pods)) && Resolved(AddAll(s, pods))
    decreases pods
  {
    if pods != [] {
      AgreeAdd(s, pods[0]);
      if pods[0].uid != [] { ResolvedAdd(s, pods[0]); }
      ResolvedAddAll(Add(s, pods[0]), pods[1..]);
    }
  }

  lemma ResolvedPrune(s: State, active: set<Bytes>)
    requires Resolved(s)
    ensures Resolved(Prune(s, active))
  {
    var r := Prune(s, active);
    forall u, ip | u in r.byUID && ip in r.byUID[u].ips && ip != [] ensures Resolves(r, u, ip) {
      assert Resolves(s, u, ip);
    }
  }

  lemma ResolvedDelete(s: State, uid: Bytes)
    requires Resolved(s)
    ensures Resolved(Delete(s, uid))
  {
    var r := Delete(s, uid);
    forall u, ip | u in r.byUID && ip in r.byUID[u].ips && ip != [] ensures Resolves(r, u, ip) {
      assert Resolves(s, u, ip);
      assert uid in s.byUID && ip in s.byUID[uid].ips ==> Resolves(s, uid, ip);
    }
  }

  lemma ResolvedAssign(s: State, uid: Bytes, b: Binding)
    requires Resolved(s)
    ensures Resolved(Assign(s, uid, b))
  {
    var r := Assign(s, uid, b);
    forall u, ip | u in r.byUID && ip in r.byUID[u].ips && ip != [] ensures Resolves(r, u, ip) {
      assert u in s.byUID ==> Resolves(s, u, ip);
    }
  }

  /** The pod `v` has lost the IP: it does not resolve to `v`, or another pod lists it too. */
  ghost predicate Lost(s: State, v: Bytes, ip: Bytes) {
    !Resolves(s, v, ip) || exists u :: u in s.byUID && u != v && ip in s.byUID[u].ips
  }

  lemma LostAdd(s: State, v: Bytes, ip: Bytes, p: Pod)
    requires Lost(s, v, ip) && p.uid != v
    ensures Lost(Add(s, p), v, ip)
  {
    var r := Add(s, p);
    if Resolves(r, v, ip) {
      var u :| u in s.byUID && u != v && ip in s.byUID[u].ips;
      assert u in r.byUID && (u != p.uid ==> r.byUID[u] == s.byUID[u]);
    }
  }

  /** A lost IP stays lost to the end of a synchronization that does not list its pod again. */
  lemma {:induction false} LostSync(s: State, rest: seq<Pod>, active: set<Bytes>, v: Bytes, ip: Bytes)
    requires v in s.byUID && ip in s.byUID[v].ips && ip != [] && v !in Uids(rest) && v in active && Lost(s, v, ip)
    ensures !Resolved(Prune(AddAll(s, rest), active))
    decreases rest
  {
    if rest == [] {
      var r := Prune(s, active);
      assert !Resolves(s, v, ip) ==> !Resolves(r, v, ip);
      if u :| u in s.byUID && u != v && ip in s.byUID[u].ips {
        assert u !in active ==> ip in StaleIPs(s, active);
        assert r.byUID[v] == s.byUID[v] && (u in active ==> r.byUID[u] == s.byUID[u]);
        assert !(Resolves(r, u, ip) && Resolves(r, v, ip));
      }
    } else {
      assert rest[0] in rest && rest[0].uid in Uids(rest);
      assert forall p :: p in rest[1..] ==> p in rest;
      LostAdd(s, v, ip, rest[0]);
      LostSync(Add(s, rest[0]), rest[1..], active, v, ip);
    }
  }

  /** No UID is listed twice. */
  ghost predicate DistinctUids(pods: seq<Pod>) {
    pods == [] || (pods[0].uid !in Uids(pods[1..]) && DistinctUids(pods[1..]))
  }

  lemma {:induction false} SyncNeedsApart(s: State, pods: seq<Pod>, active: set<Bytes>)
    requires Agree(s) && Resolved(s) && DistinctUids(pods) && Uids(pods) <= active && !AllApart(s, pods)
    ensures !Resolved(Prune(AddAll(s, pods), active))
    decreases pods
  {
    var p, r := pods[0], Add(s, pods[0]);
    assert p in pods && p.uid in Uids(pods);
    if p.uid != [] && !Apart(s, p) {
      var u, ip :| u in s.byUID && ip in s.byUID[u].ips && ip != [] && u != p.uid && ip in p.ips;
      assert u in r.byUID && ip in r.byUID[u].ips;
      LostSync(r, pods[1..], active, p.uid, ip);
    } else {
      AgreeAdd(s, p);
      if p.uid != [] { ResolvedAdd(s, p); }
      SyncStep(pods, active);
      SyncNeedsApart(r, pods[1..], active);
    }
  }

  lemma SyncStep(pods: seq<Pod>, active: set<Bytes>)
    requires pods != [] && Uids(pods) <= active
    ensures Uids(pods[1..]) <= active
  {
    forall p | p in pods[1..] ensures p.uid in active {
      assert p in pods && p.uid in Uids(pods);
    }
  }

  /**
   One event keeps every IP resolving if and only if it adds no IP that another pod still in the map lists;
   for a synchronization the pods it is about to drop count as well.
   */
  lemma ResolvedStep(s: State, e: Event)
    requires Agree(s) && Resolved(s)
    ensures ApartAt(s, e) ==> Resolved(Step(s, e))
    ensures Resolved(Step(s, e)) && (e.Synchronize? ==> DistinctUids(e.pods)) ==> ApartAt(s, e)
  {
    match e
    case Register(p) => if p.uid != [] { ResolvedAdd(s, p); }
    case Remove(u) => ResolvedDelete(s, u);
    case Synchronize(pods) => ResolvedSync(s, pods);
    case Bind(u, identity, policy) => ResolvedAssign(s, u, Binding(identity, policy, true));
    case Unbind(u) => ResolvedAssign(s, u, UNBOUND);
  }

  lemma ResolvedSync(s: State, pods: seq<Pod>)
    requires Agree(s) && Resolved(s)
    ensures AllApart(s, pods) ==> Resolved(Step(s, Synchronize(pods)))
    ensures Resolved(Step(s, Synchronize(pods))) && DistinctUids(pods) ==> AllApart(s, pods)
  {
    if AllApart(s, pods) {
      ResolvedAddAll(s, pods);
      ResolvedPrune(AddAll(s, pods), Uids(pods));
    } else if DistinctUids(pods) {
      SyncNeedsApart(s, pods, Uids(pods));
    }
  }

  /** No event of the run adds an IP that another pod still in the map lists. */
  ghost predicate ApartRun(es: seq<Event>) {
    es == [] || (ApartRun(es[..|es| - 1]) && ApartAt(Run(es[..|es| - 1]), es[|es| - 1]))
  }

  lemma {:induction false} ResolvedRun(es: seq<Event>)
    requires ApartRun(es)
    ensures Resolved(Run(es))
  {
    if es != [] {
      AgreeRun(es[..|es| - 1]);
      ResolvedRun(es[..|es| - 1]);
      ResolvedStep(Run(es[..|es| - 1]), es[|es| - 1]);
    }
  }

  /** A synchronization that gives a stale pod's IP to a new pod loses the IP. */
  lemma ReusedIPExample(ip: Bytes)
    requires ip != []
    ensures
      var p, q := Pod([1], [], [], [ip], map[], UNBOUND), Pod([2], [], [], [ip], map[], UNBOUND);
      !Resolved(Step(Add(EMPTY, p), Synchronize([q])))
  {
    var p, q := Pod([1], [], [], [ip], map[], UNBOUND), Pod([2], [], [], [ip], map[], UNBOUND);
    var s := Add(EMPTY, p);
    AgreeAdd(EMPTY, p);
    ResolvedAdd(EMPTY, p);
    assert [1] in s.byUID && ip in s.byUID[[1]].ips && ip in q.ips;
    assert !Apart(s, q) && [q][1..] == [];
    assert !AllApart(s, [q]);
    assert DistinctUids([q]);
    ResolvedSync(s, [q]);
  }

  // Binding and registering.

  /** For a UID not in the map, binding and registering reach the same state in either order. */
  lemma BindRegisterCommute(s: State, p: Pod, identity: Bytes, policy: Bytes)
    requires p.uid != [] && p.uid !in s.byUID
    ensures
      var bind := Bind(p.uid, identity, policy);
      var r := Step(Step(s, bind), Register(p));
      && r == Step(Step(s, Register(p)), bind)
      && r.byUID == s.byUID[p.uid := p.(binding := Binding(identity, policy, true))]
      && r.byIP == Claim(s.byIP, p.ips, p.uid)
  {
    var bound := Assign(s, p.uid, Binding(identity, policy, true));
    assert s.byIP - Dropped(bound, p) == s.byIP == s.byIP - Dropped(s, p);
    var a, b := Add(bound, p), Assign(Add(s, p), p.uid, Binding(identity, policy, true));
    assert a.byUID == b.byUID;
  }

  /** Registering a pod again keeps its binding, moves its IPs, and touches no other pod. */
  lemma Reregister(s: State, p: Pod)
    requires Agree(s) && p.uid != [] && p.uid in s.byUID
    ensures
      var r := Step(s, Register(p));
      && r.byUID == s.byUID[p.uid := p.(binding := s.byUID[p.uid].binding)]
      && (forall ip :: ip in p.ips && ip != [] ==> Resolves(r, p.uid, ip))
      && (forall ip :: ip in s.byUID[p.uid].ips && ip !in p.ips ==> ip !in r.byIP)
      && (forall ip :: Resolves(r, p.uid, ip) ==> ip in p.ips)
  {
    var r := Step(s, Register(p));
    forall ip | Resolves(r, p.uid, ip) ensures ip in p.ips {
      assert ip in s.byIP ==> IndexedTo(s, ip);
    }
  }
}
