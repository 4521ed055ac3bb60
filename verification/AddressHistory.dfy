/**
 Which pod an IP belongs to, read off the events alone: the latest claim of the IP that nothing has moved since.
 The index agrees with that reading after every run.
 */
module AddressHistory {
  import opened Octets
  import opened PodState

  /** What an event does to pods and IPs, one pod at a time. */
  datatype Move = Adds(pod: Pod) | Drops(uid: Bytes) | Retains(active: set<Bytes>)

  function AddsOf(pods: seq<Pod>): (ms: seq<Move>)
    ensures |ms| == |pods|
  {
    seq(|pods|, i requires 0 <= i < |pods| => Adds(pods[i]))
  }

  /** A synchronization adds its pods in order and then drops all others; binding moves nothing. */
  function MovesOf(e: Event): (ms: seq<Move>) {
    match e
    case Register(p) => [Adds(p)]
    case Remove(u) => [Drops(u)]
    case Synchronize(pods) => AddsOf(pods) + [Retains(Uids(pods))]
    case Bind(_, _, _) => []
    case Unbind(_) => []
  }

  function Moves(es: seq<Event>): (ms: seq<Move>) {
    if es == [] then [] else Moves(es[..|es| - 1]) + MovesOf(es[|es| - 1])
  }

  /** The IPs the pod was last added with, if it has not been dropped since. */
  function IPsOf(ms: seq<Move>, u: Bytes): (ips: seq<Bytes>) {
    if ms == [] then []
    else
      var m := ms[|ms| - 1];
      if m.Adds? && m.pod.uid == u && u != [] then m.pod.ips
      else if (m.Drops? && m.uid == u) || (m.Retains? && u !in m.active) then []
      else IPsOf(ms[..|ms| - 1], u)
  }

  /** The move claims the IP for the pod. */
  predicate Claims(m: Move, u: Bytes, ip: Bytes) {
    m.Adds? && m.pod.uid == u && u != [] && ip in m.pod.ips && ip != []
  }

  /** After `ms`, the move claims the IP or releases it, by updating or dropping a pod that lists it. */
  ghost predicate Touches(ms: seq<Move>, m: Move, ip: Bytes) {
    match m
    case Adds(p) => p.uid != [] && (ip in p.ips || ip in IPsOf(ms, p.uid))
    case Drops(u) => ip in IPsOf(ms, u)
    case Retains(active) => exists u :: u !in active && ip in IPsOf(ms, u)
  }

  /** Move `i` claimed the IP for the pod and no later move touches it. */
  ghost predicate OwnsFrom(ms: seq<Move>, i: nat, u: Bytes, ip: Bytes)
    requires i < |ms|
  {
    Claims(ms[i], u, ip) && forall j :: i < j < |ms| ==> !Touches(ms[..j], ms[j], ip)
  }

  ghost predicate Owns(ms: seq<Move>, u: Bytes, ip: Bytes) {
    exists i :: 0 <= i < |ms| && OwnsFrom(ms, i, u, ip)
  }

  lemma OwnsSnoc(ms: seq<Move>, m: Move, u: Bytes, ip: Bytes)
    ensures Owns(ms + [m], u, ip) <==> Claims(m, u, ip) || (Owns(ms, u, ip) && !Touches(ms, m, ip))
  {
    var all := ms + [m];
    assert all[|ms|] == m && all[..|ms|] == ms;
    if Claims(m, u, ip) { assert OwnsFrom(all, |ms|, u, ip); }
    if i :| 0 <= i < |ms| && OwnsFrom(ms, i, u, ip) {
      if !Touches(ms, m, ip) { OwnsLater(ms, m, i, u, ip); }
    }
    if i :| 0 <= i < |all| && OwnsFrom(all, i, u, ip) {
      if i < |ms| { OwnsBefore(ms, m, i, u, ip); }
    }
  }

  lemma OwnsLater(ms: seq<Move>, m: Move, i: nat, u: Bytes, ip: Bytes)
    requires i < |ms| && OwnsFrom(ms, i, u, ip) && !Touches(ms, m, ip)
    ensures OwnsFrom(ms + [m], i, u, ip)
  {
    var all := ms + [m];
    forall j | i < j < |all| ensures !Touches(all[..j], all[j], ip) {
      if j < |ms| { assert all[..j] == ms[..j]; } else { assert all[..j] == ms; }
    }
  }

  lemma OwnsBefore(ms: seq<Move>, m: Move, i: nat, u: Bytes, ip: Bytes)
    requires i < |ms| && OwnsFrom(ms + [m], i, u, ip)
    ensures OwnsFrom(ms, i, u, ip) && !Touches(ms, m, ip)
  {
    var all := ms + [m];
    assert all[..|ms|] == ms && all[|ms|] == m;
    forall j | i < j < |ms| ensures !Touches(ms[..j], ms[j], ip) {
      assert all[..j] == ms[..j] && !Touches(all[..j], all[j], ip);
    }
  }

  // The map against the moves.

  function Listed(s: State, u: Bytes): (ips: seq<Bytes>) {
    if u in s.byUID then s.byUID[u].ips else []
  }

  ghost predicate ListsAt(s: State, ms: seq<Move>, u: Bytes) {
    Listed(s, u) == IPsOf(ms, u)
  }

  ghost predicate OwnsAt(s: State, ms: seq<Move>, u: Bytes, ip: Bytes) {
    Resolves(s, u, ip) <==> Owns(ms, u, ip)
  }

  ghost predicate Follows(s: State, ms: seq<Move>) {
    (forall u :: ListsAt(s, ms, u)) && forall u, ip :: OwnsAt(s, ms, u, ip)
  }

  lemma IPsSnoc(ms: seq<Move>, m: Move, u: Bytes)
    ensures IPsOf(ms + [m], u) ==
      if m.Adds? && m.pod.uid == u && u != [] then m.pod.ips
      else if (m.Drops? && m.uid == u) || (m.Retains? && u !in m.active) then []
      else IPsOf(ms, u)
  {
    assert (ms + [m])[..|ms|] == ms;
  }

  lemma FollowsAdd(s: State, ms: seq<Move>, p: Pod)
    requires Follows(s, ms)
    ensures Follows(Add(s, p), ms + [Adds(p)])
  {
    var t, all := Add(s, p), ms + [Adds(p)];
    forall u ensures ListsAt(t, all, u) {
      assert ListsAt(s, ms, u);
      IPsSnoc(ms, Adds(p), u);
    }
    forall u, ip ensures OwnsAt(t, all, u, ip) {
      assert OwnsAt(s, ms, u, ip) && ListsAt(s, ms, p.uid);
      AddOwner(s, ms, p, u, ip);
    }
  }

  lemma AddOwner(s: State, ms: seq<Move>, p: Pod, u: Bytes, ip: Bytes)
    requires OwnsAt(s, ms, u, ip) && ListsAt(s, ms, p.uid)
    ensures OwnsAt(Add(s, p), ms + [Adds(p)], u, ip) == true
  {
    OwnsSnoc(ms, Adds(p), u, ip);
    AddResolves(s, p, u, ip);
    if ip == [] { NoEmptyOwner(ms, u); }
  }

  /** Where an IP leads after a pod was added. */
  lemma AddResolves(s: State, p: Pod, u: Bytes, ip: Bytes)
    ensures Resolves(Add(s, p), u, ip) <==>
      if p.uid != [] && ip in p.ips && ip != [] then u == p.uid
      else Resolves(s, u, ip) && (p.uid == [] || ip in p.ips || ip !in Listed(s, p.uid))
  {
  }

  lemma NoEmptyOwner(ms: seq<Move>, u: Bytes)
    ensures !Owns(ms, u, [])
  {
  }

  lemma FollowsDrop(s: State, ms: seq<Move>, v: Bytes)
    requires Follows(s, ms)
    ensures Follows(Delete(s, v), ms + [Drops(v)])
  {
    var t, m := Delete(s, v), Drops(v);
    forall u ensures ListsAt(t, ms + [m], u) {
      assert ListsAt(s, ms, u);
      IPsSnoc(ms, m, u);
    }
    forall u, ip ensures OwnsAt(t, ms + [m], u, ip) {
      assert OwnsAt(s, ms, u, ip) && ListsAt(s, ms, v);
      OwnsSnoc(ms, m, u, ip);
    }
  }

  lemma FollowsRetain(s: State, ms: seq<Move>, active: set<Bytes>)
    requires Follows(s, ms)
    ensures Follows(Prune(s, active), ms + [Retains(active)])
  {
    var t, m := Prune(s, active), Retains(active);
    forall u ensures ListsAt(t, ms + [m], u) {
      assert ListsAt(s, ms, u);
      IPsSnoc(ms, m, u);
    }
    forall u, ip ensures OwnsAt(t, ms + [m], u, ip) {
      assert OwnsAt(s, ms, u, ip);
      OwnsSnoc(ms, m, u, ip);
      StaleTouched(s, ms, active, ip);
    }
  }

  lemma StaleTouched(s: State, ms: seq<Move>, active: set<Bytes>, ip: Bytes)
    requires Follows(s, ms)
    ensures ip in StaleIPs(s, active) <==> Touches(ms, Retains(active), ip)
  {
    if ip in StaleIPs(s, active) {
      var u :| u in s.byUID && u !in active && ip in s.byUID[u].ips;
      assert ListsAt(s, ms, u);
    }
    if u :| u !in active && ip in IPsOf(ms, u) { assert ListsAt(s, ms, u); }
  }

  lemma {:induction false} FollowsAdds(s: State, ms: seq<Move>, pods: seq<Pod>)
    requires Follows(s, ms)
    ensures Follows(AddAll(s, pods), ms + AddsOf(pods))
    decreases pods
  {
    if pods == [] {
      assert ms + AddsOf(pods) == ms;
    } else {
      FollowsAdd(s, ms, pods[0]);
      FollowsAdds(Add(s, pods[0]), ms + [Adds(pods[0])], pods[1..]);
      assert ms + AddsOf(pods) == (ms + [Adds(pods[0])]) + AddsOf(pods[1..]);
    }
  }

  /** Binding leaves lists and index alone. */
  lemma FollowsAssign(s: State, ms: seq<Move>, v: Bytes, b: Binding)
    requires Follows(s, ms)
    ensures Follows(Assign(s, v, b), ms)
  {
    var t := Assign(s, v, b);
    forall u ensures ListsAt(t, ms, u) { assert ListsAt(s, ms, u); }
    forall u, ip ensures OwnsAt(t, ms, u, ip) { assert OwnsAt(s, ms, u, ip); }
  }

  lemma FollowsStep(s: State, ms: seq<Move>, e: Event)
    requires Follows(s, ms)
    ensures Follows(Step(s, e), ms + MovesOf(e))
  {
    assert ms + [] == ms;
    match e
    case Register(p) => FollowsAdd(s, ms, p);
    case Remove(u) => FollowsDrop(s, ms, u);
    case Synchronize(pods) =>
      FollowsAdds(s, ms, pods);
      FollowsRetain(AddAll(s, pods), ms + AddsOf(pods), Uids(pods));
      Assoc(ms, AddsOf(pods), [Retains(Uids(pods))]);
    case Bind(u, identity, policy) => FollowsAssign(s, ms, u, Binding(identity, policy, true));
    case Unbind(u) => FollowsAssign(s, ms, u, UNBOUND);
  }

  lemma {:induction false} FollowsRun(es: seq<Event>)
    ensures Follows(Run(es), Moves(es))
  {
    if es != [] {
      FollowsRun(es[..|es| - 1]);
      FollowsStep(Run(es[..|es| - 1]), Moves(es[..|es| - 1]), es[|es| - 1]);
    }
  }

  /** After every run an IP resolves to a pod if and only if the pod's claim of it is the latest and still stands. */
  lemma OwnerRun(es: seq<Event>, u: Bytes, ip: Bytes)
    ensures Resolves(Run(es), u, ip) <==> Owns(Moves(es), u, ip)
  {
    FollowsRun(es);
    assert OwnsAt(Run(es), Moves(es), u, ip);
  }
}
