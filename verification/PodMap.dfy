/**
 The pod map as the proxy keeps it: two maps to shared pod records that are updated in place.
 Each operation refines its event in PodState; locking makes every operation one step.
 */
module PodMap {
  import opened Octets
  import opened Reach
  import PodState

  /** A pod record; only its binding is ever reassigned. */
  class Info {
    const uid: Bytes
    const namespace: Bytes
    const name: Bytes
    const ips: seq<Bytes>
    const annotations: map<Bytes, Bytes>
    var binding: PodState.Binding

    constructor (p: PodState.Pod)
      ensures Value() == p
    {
      uid, namespace, name, ips := p.uid, p.namespace, p.name, p.ips;
      annotations, binding := p.annotations, p.binding;
    }

    function Value(): (p: PodState.Pod)
      reads this
    {
      PodState.Pod(uid, namespace, name, ips, annotations, binding)
    }
  }

  /** The values of a list of records. */
  function Values(infos: seq<Info>): (ps: seq<PodState.Pod>)
    reads infos
    ensures |ps| == |infos| && forall i :: 0 <= i < |infos| ==> ps[i] == infos[i].Value()
  {
    seq(|infos|, i requires 0 <= i < |infos| reads infos => infos[i].Value())
  }

  // The two maps, as values that hold references.

  /** The indexed record is the very record its UID leads to, and it lists the IP. */
  predicate SharedAt(byUID: map<Bytes, Info>, byIP: map<Bytes, Info>, ip: Bytes) {
    ip in byIP && ip != [] && byIP[ip].uid in byUID && byUID[byIP[ip].uid] == byIP[ip] && ip in byIP[ip].ips
  }

  predicate KeyedAt(byUID: map<Bytes, Info>, u: Bytes) {
    u in byUID && byUID[u].uid == u
  }

  ghost predicate Shared(byUID: map<Bytes, Info>, byIP: map<Bytes, Info>) {
    && (forall ip :: ip in byIP ==> SharedAt(byUID, byIP, ip))
    && (forall u :: u in byUID ==> KeyedAt(byUID, u))
  }

  function Index(byIP: map<Bytes, Info>): (m: map<Bytes, Bytes>) {
    map ip | ip in byIP :: byIP[ip].uid
  }

  lemma IndexMinus(byIP: map<Bytes, Info>, ips: set<Bytes>)
    ensures Index(byIP - ips) == Index(byIP) - ips
  {
  }

  lemma IndexClaim(byIP: map<Bytes, Info>, info: Info)
    ensures Index(PodState.Claim(byIP, info.ips, info)) == PodState.Claim(Index(byIP), info.ips, info.uid)
  {
  }

  /** The IPs that an update of this UID takes out of the index. */
  function Outdated(byUID: map<Bytes, Info>, info: Info): (ips: set<Bytes>) {
    if info.uid in byUID then ToSet(byUID[info.uid].ips) - ToSet(info.ips) else {}
  }

  lemma UpdateShared(byUID: map<Bytes, Info>, byIP: map<Bytes, Info>, info: Info)
    requires Shared(byUID, byIP) && info.uid != []
    ensures Shared(byUID[info.uid := info], PodState.Claim(byIP - Outdated(byUID, info), info.ips, info))
  {
    var us, at := byUID[info.uid := info], PodState.Claim(byIP - Outdated(byUID, info), info.ips, info);
    forall ip | ip in at ensures SharedAt(us, at, ip) {
      assert ip in byIP ==> SharedAt(byUID, byIP, ip);
    }
    forall u | u in us ensures KeyedAt(us, u) {
      assert u in byUID ==> KeyedAt(byUID, u);
    }
  }

  /** Records of other UIDs are other records. */
  lemma ApartRecords(byUID: map<Bytes, Info>, info: Info)
    requires forall u :: u in byUID ==> KeyedAt(byUID, u)
    ensures forall u :: u in byUID && u != info.uid ==> byUID[u] != info
  {
    forall u | u in byUID && u != info.uid ensures byUID[u] != info { assert KeyedAt(byUID, u); }
  }

  /** Removing a record together with its IPs. */
  lemma RemoveShared(byUID: map<Bytes, Info>, byIP: map<Bytes, Info>, uid: Bytes)
    requires Shared(byUID, byIP) && uid in byUID
    ensures Shared(byUID - {uid}, byIP - ToSet(byUID[uid].ips))
  {
    var us, at := byUID - {uid}, byIP - ToSet(byUID[uid].ips);
    forall ip | ip in at ensures SharedAt(us, at, ip) {
      assert SharedAt(byUID, byIP, ip);
    }
    forall u | u in us ensures KeyedAt(us, u) {
      assert KeyedAt(byUID, u);
    }
  }

  /** A record without IPs under a new UID. */
  lemma NewShared(byUID: map<Bytes, Info>, byIP: map<Bytes, Info>, info: Info)
    requires Shared(byUID, byIP) && info.uid !in byUID
    ensures Shared(byUID[info.uid := info], byIP)
  {
    var us := byUID[info.uid := info];
    forall ip | ip in byIP ensures SharedAt(us, byIP, ip) {
      assert SharedAt(byUID, byIP, ip);
    }
    forall u | u in us ensures KeyedAt(us, u) {
      assert u in byUID ==> KeyedAt(byUID, u);
    }
  }

  /** The IPs of the inactive records among `done`. */
  function Stale(byUID: map<Bytes, Info>, done: set<Bytes>, active: set<Bytes>): (ips: set<Bytes>) {
    set u, ip | u in byUID && u in done && u !in active && ip in byUID[u].ips :: ip
  }

  lemma StaleMore(byUID: map<Bytes, Info>, byIP: map<Bytes, Info>, done: set<Bytes>, active: set<Bytes>, u: Bytes)
    requires u in byUID && u !in done
    ensures u in active ==> byUID - (done + {u} - active) == byUID - (done - active)
    ensures u in active ==> byIP - Stale(byUID, done + {u}, active) == byIP - Stale(byUID, done, active)
    ensures u !in active ==> u in byUID - (done - active) && (byUID - (done - active))[u] == byUID[u]
    ensures u !in active ==> byUID - (done + {u} - active) == byUID - (done - active) - {u}
    ensures u !in active ==>
      byIP - Stale(byUID, done + {u}, active) == byIP - Stale(byUID, done, active) - ToSet(byUID[u].ips)
  {
    var more := if u in active then {} else ToSet(byUID[u].ips);
    assert Stale(byUID, done + {u}, active) == Stale(byUID, done, active) + more;
  }

  lemma SetMinusOne<T>(all: set<T>, done: set<T>, u: T)
    requires u in all && u !in done
    ensures |all - (done + {u})| < |all - done|
  {
    assert all - done == (all - (done + {u})) + {u};
  }

  /** The records from position `i` on hold the listed values. */
  ghost predicate Waiting(pods: seq<Info>, vs: seq<PodState.Pod>, i: nat)
    reads pods
    requires |vs| == |pods|
  {
    forall j :: i <= j < |pods| ==> WaitingAt(pods[j], vs[j])
  }

  ghost predicate WaitingAt(pod: Info, v: PodState.Pod)
    reads pod
  {
    pod.Value() == v
  }

  class Map {
    var byUID: map<Bytes, Info>
    var byIP: map<Bytes, Info>
    ghost var events: seq<PodState.Event>

    ghost function Pods(): (m: map<Bytes, PodState.Pod>)
      reads this`byUID, byUID.Values
    {
      map u | u in byUID :: byUID[u].Value()
    }

    ghost function Abs(): (s: PodState.State)
      reads this`byUID, this`byIP, byUID.Values
    {
      PodState.State(Pods(), Index(byIP))
    }

    /** The maps share their records and are what the recorded events produce. */
    ghost predicate Valid()
      reads this, byUID.Values
    {
      Shared(byUID, byIP) && Abs() == PodState.Run(events)
    }

    constructor ()
      ensures Valid() && events == [] && byUID == map[]
    {
      byUID, byIP, events := map[], map[], [];
      new;
      assert Abs() == PodState.EMPTY;
    }

    /** Deletes each listed IP that is not kept from the index. */
    method DropIPs(ips: seq<Bytes>, keep: set<Bytes>)
      modifies this`byIP
      ensures byIP == old(byIP) - (ToSet(ips) - keep)
    {
      for i := 0 to |ips|
        invariant byIP == old(byIP) - (ToSet(ips[..i]) - keep)
      {
        assert ips[..i + 1] == ips[..i] + [ips[i]];
        if ips[i] !in keep { byIP := byIP - {ips[i]}; }
      }
      assert ips[..|ips|] == ips;
    }

    /** Points every non-empty IP of the record at it. */
    method ClaimIPs(info: Info)
      modifies this`byIP
      ensures byIP == PodState.Claim(old(byIP), info.ips, info)
    {
      var ips := info.ips;
      for i := 0 to |ips|
        invariant byIP == PodState.Claim(old(byIP), ips[..i], info)
      {
        assert ips[..i + 1] == ips[..i] + [ips[i]];
        if ips[i] != [] { byIP := byIP[ips[i] := info]; }
      }
      assert ips[..|ips|] == ips;
    }

    /** The first half of an update: old IPs leave the index and the new record takes its binding. */
    method Prepare(info: Info)
      requires Shared(byUID, byIP) && info.uid != []
      modifies this`byIP, info
      ensures byIP == old(byIP) - Outdated(byUID, info)
      ensures info.Value() == old(PodState.Stored(Abs(), info.Value()))
    {
      if info.uid in byUID {
        var ex := byUID[info.uid];
        DropIPs(ex.ips, ToSet(info.ips));
        info.binding := ex.binding;
      } else if PodState.POLICY_KEY in info.annotations && info.annotations[PodState.POLICY_KEY] != [] {
        info.binding := PodState.FirstBinding(info.Value());
      }
    }

    /** The second half: the record becomes the one of its UID and of its IPs. */
    method Enter(info: Info)
      modifies this`byUID, this`byIP
      ensures byUID == old(byUID)[info.uid := info] && byIP == PodState.Claim(old(byIP), info.ips, info)
    {
      byUID := byUID[info.uid := info];
      ClaimIPs(info);
    }

    /** The map's value when the record of one UID changed and the others did not. */
    twostate lemma PodsUpdated(info: Info)
      requires byUID == old(byUID)[info.uid := info]
      requires forall u :: u in old(byUID) && u != info.uid ==> byUID[u].Value() == old(byUID[u].Value())
      ensures Pods() == old(Pods())[info.uid := info.Value()]
    {
    }

    /** `addOrUpdateLocked`. */
    method AddOrUpdate(info: Info)
      requires Shared(byUID, byIP)
      modifies this`byUID, this`byIP, info
      ensures Shared(byUID, byIP) && Abs() == old(PodState.Add(Abs(), info.Value()))
      ensures byUID == if info.uid == [] then old(byUID) else old(byUID)[info.uid := info]
    {
      if info.uid != [] {
        UpdateShared(byUID, byIP, info);
        IndexMinus(byIP, Outdated(byUID, info));
        IndexClaim(byIP - Outdated(byUID, info), info);
        OutdatedAbs(info);
        ApartRecords(byUID, info);
        Prepare(info);
        Enter(info);
        PodsUpdated(info);
      }
    }

    lemma OutdatedAbs(info: Info)
      ensures Outdated(byUID, info) == PodState.Dropped(Abs(), info.Value())
    {
    }

    /** `AddOrUpdatePod`: a missing record and one without a UID change nothing. */
    method AddOrUpdatePod(info: Info?)
      requires Valid()
      modifies this, info
      ensures Valid()
      ensures events == if info == null then old(events) else old(events + [PodState.Register(info.Value())])
    {
      if info != null {
        ghost var e := PodState.Register(info.Value());
        PodState.RunSnoc(events, e);
        AddOrUpdate(info);
        events := events + [e];
      }
    }

    /** Deletes one record and all its IPs. */
    method DeletePod(uid: Bytes)
      requires Shared(byUID, byIP) && uid in byUID
      modifies this`byUID, this`byIP
      ensures Shared(byUID, byIP) && byUID == old(byUID) - {uid} && byIP == old(byIP) - ToSet(old(byUID)[uid].ips)
    {
      RemoveShared(byUID, byIP, uid);
      assert ToSet(byUID[uid].ips) - {} == ToSet(byUID[uid].ips);
      DropIPs(byUID[uid].ips, {});
      byUID := byUID - {uid};
    }

    method RemovePod(uid: Bytes)
      requires Valid()
      modifies this
      ensures Valid() && events == old(events) + [PodState.Remove(uid)]
    {
      PodState.RunSnoc(events, PodState.Remove(uid));
      if uid in byUID {
        IndexMinus(byIP, ToSet(byUID[uid].ips));
        DeletePod(uid);
        assert Pods() == old(Pods()) - {uid};
      }
      events := events + [PodState.Remove(uid)];
    }

    /** The second loop of `SynchronizePods`, over the records in any order. */
    method PruneStale(active: set<Bytes>)
      requires Shared(byUID, byIP)
      modifies this`byUID, this`byIP
      ensures Shared(byUID, byIP)
      ensures byUID == old(byUID - (byUID.Keys - active)) && byIP == old(byIP - Stale(byUID, byUID.Keys, active))
    {
      var us, at := byUID, byIP;
      var done := {};
      while done != us.Keys
        invariant Shared(byUID, byIP) && done <= us.Keys
        invariant byUID == us - (done - active) && byIP == at - Stale(us, done, active)
        decreases |us.Keys - done|
      {
        var u :| u in us.Keys - done;
        StaleMore(us, at, done, active, u);
        SetMinusOne(us.Keys, done, u);
        if u !in active { DeletePod(u); }
        done := done + {u};
      }
    }

    /** The same pruning, of the map's value. */
    method Prune(active: set<Bytes>)
      requires Shared(byUID, byIP)
      modifies this`byUID, this`byIP
      ensures Shared(byUID, byIP) && Abs() == old(PodState.Prune(Abs(), active))
    {
      StaleAbs(active);
      IndexMinus(byIP, Stale(byUID, byUID.Keys, active));
      PruneStale(active);
      assert Pods() == old(Pods() - (byUID.Keys - active));
    }

    lemma StaleAbs(active: set<Bytes>)
      ensures Stale(byUID, byUID.Keys, active) == PodState.StaleIPs(Abs(), active)
    {
      forall u | u in byUID ensures Abs().byUID[u].ips == byUID[u].ips {
      }
    }

    /** One turn of the first loop of `SynchronizePods`. */
    method AddWaiting(pods: seq<Info>, i: nat, ghost vs: seq<PodState.Pod>)
      requires i < |pods| == |vs| && Shared(byUID, byIP) && NoDup(pods) && Waiting(pods, vs, i)
      modifies this`byUID, this`byIP, pods[i]
      ensures Shared(byUID, byIP) && Abs() == old(PodState.Add(Abs(), vs[i])) && Waiting(pods, vs, i + 1)
    {
      assert WaitingAt(pods[i], vs[i]);
      AddOrUpdate(pods[i]);
      forall j | i < j < |pods| ensures WaitingAt(pods[j], vs[j]) {
        assert Differ(pods, i, j) && old(WaitingAt(pods[j], vs[j]));
      }
    }

    /** The first loop of `SynchronizePods`. */
    method AddEach(pods: seq<Info>) returns (active: set<Bytes>)
      requires Shared(byUID, byIP) && NoDup(pods)
      modifies this`byUID, this`byIP, pods
      ensures Shared(byUID, byIP) && active == old(PodState.Uids(Values(pods)))
      ensures Abs() == old(PodState.AddAll(Abs(), Values(pods)))
    {
      active := {};
      ghost var s, vs := Abs(), Values(pods);
      for i := 0 to |pods|
        invariant Shared(byUID, byIP) && Waiting(pods, vs, i) && active == PodState.Uids(vs[..i])
        invariant PodState.AddAll(Abs(), vs[i..]) == PodState.AddAll(s, vs)
      {
        PodState.AddAllStep(Abs(), vs, i);
        assert WaitingAt(pods[i], vs[i]);
        active := active + {pods[i].uid};
        AddWaiting(pods, i, vs);
      }
      assert vs[..|pods|] == vs;
    }

    /** `SynchronizePods`: the elements of the list are separate records. */
    method SynchronizePods(pods: seq<Info>)
      requires Valid() && NoDup(pods)
      modifies this, pods
      ensures Valid() && events == old(events + [PodState.Synchronize(Values(pods))])
    {
      ghost var e := PodState.Synchronize(Values(pods));
      PodState.RunSnoc(events, e);
      var active := AddEach(pods);
      Prune(active);
      events := events + [e];
    }

    method GetPodByIP(ip: Bytes) returns (pod: Info?)
      requires Valid()
      ensures pod == null <==> ip !in PodState.Run(events).byIP
      ensures pod != null ==> pod.uid in byUID && byUID[pod.uid] == pod && ip in pod.ips
      ensures pod != null ==> pod.uid == PodState.Run(events).byIP[ip] && pod.uid in PodState.Run(events).byUID
      ensures pod != null ==> PodState.Run(events).byUID[pod.uid] == pod.Value()
    {
      pod := null;
      if ip in byIP {
        assert SharedAt(byUID, byIP, ip);
        pod := byIP[ip];
        assert Pods()[pod.uid] == pod.Value();
      }
      assert Index(byIP) == PodState.Run(events).byIP;
    }

    method Bind(uid: Bytes, identity: Bytes, policy: Bytes)
      requires Valid()
      modifies this, byUID.Values
      ensures Valid() && events == old(events) + [PodState.Bind(uid, identity, policy)]
      ensures uid in old(byUID) ==> byUID == old(byUID)
    {
      PodState.RunSnoc(events, PodState.Bind(uid, identity, policy));
      if uid in byUID {
        SetBinding(uid, PodState.Binding(identity, policy, true));
      } else {
        AddBound(uid, PodState.Binding(identity, policy, true));
      }
      events := events + [PodState.Bind(uid, identity, policy)];
    }

    method Unbind(uid: Bytes) returns (ok: bool)
      requires Valid()
      modifies this, byUID.Values
      ensures Valid() && events == old(events) + [PodState.Unbind(uid)]
      ensures byUID == old(byUID) && ok == (uid in byUID)
    {
      PodState.RunSnoc(events, PodState.Unbind(uid));
      ok := uid in byUID;
      if ok { SetBinding(uid, PodState.UNBOUND); }
      events := events + [PodState.Unbind(uid)];
    }

    /** A new record, with nothing but its UID and binding. */
    method AddBound(uid: Bytes, b: PodState.Binding)
      requires Shared(byUID, byIP) && uid !in byUID
      modifies this`byUID
      ensures Shared(byUID, byIP) && Abs() == old(PodState.Assign(Abs(), uid, b))
    {
      var pod := new Info(PodState.Pod(uid, [], [], [], map[], PodState.UNBOUND));
      pod.binding := b;
      NewShared(byUID, byIP, pod);
      byUID := byUID[uid := pod];
      assert Pods() == old(PodState.Assign(Abs(), uid, b).byUID);
    }

    /** Reassigns the binding of one record; distinct UIDs have distinct records. */
    method SetBinding(uid: Bytes, b: PodState.Binding)
      requires Shared(byUID, byIP) && uid in byUID
      modifies byUID[uid]
      ensures Abs() == old(PodState.Assign(Abs(), uid, b))
    {
      assert KeyedAt(byUID, uid);
      assert forall u :: u in byUID && u != uid ==> KeyedAt(byUID, u) ==> byUID[u] != byUID[uid];
      byUID[uid].binding := b;
      assert Pods() == old(PodState.Assign(Abs(), uid, b).byUID);
    }
  }
}
