/**
 The router's decision: a request goes to the matching rule's proxy or to the fallback only if the
 caller's IP belongs to a bound pod whose policy names the rule, the host or everything.
 */
module Admission {
  import opened Octets
  import opened Words
  import PodState
  import PodMap
  import AddressHistory
  import BindingHistory

  /** `strings.ToLower` on ASCII letters. */
  function Lower(s: Bytes): (r: Bytes)
    ensures |r| == |s|
  {
    seq(|s|, i requires 0 <= i < |s| => if 65 <= s[i] <= 90 then s[i] as int + 32 else s[i])
  }

  const COMMA: byte := 44

  /** Length of the part before the first comma. */
  function CommaLen(s: Bytes): (n: nat)
    ensures n <= |s| && (n < |s| ==> s[n] == COMMA) && forall k :: 0 <= k < n ==> s[k] != COMMA
  {
    if s == [] || s[0] == COMMA then 0 else 1 + CommaLen(s[1..])
  }

  /** `strings.Split` at commas. */
  function Split(s: Bytes): (ts: seq<Bytes>)
    decreases |s|
  {
    var n := CommaLen(s);
    if n == |s| then [s] else [s[..n]] + Split(s[n + 1..])
  }

  /** `t` stands in `s` between two commas, or a comma and an end, and holds none. */
  ghost predicate IsToken(s: Bytes, pre: Bytes, t: Bytes, post: Bytes) {
    && s == pre + t + post && COMMA !in t
    && (pre == [] || pre[|pre| - 1] == COMMA) && (post == [] || post[0] == COMMA)
  }

  ghost predicate TokenOf(s: Bytes, t: Bytes) {
    exists pre, post :: IsToken(s, pre, t, post)
  }

  /** Splitting yields exactly the stretches between commas. */
  lemma SplitTokens(s: Bytes, t: Bytes)
    ensures t in Split(s) <==> TokenOf(s, t)
  {
    if t in Split(s) { SplitIsToken(s, t); }
    if pre, post :| IsToken(s, pre, t, post) { TokenInSplit(s, pre, t, post); }
  }

  lemma {:induction false} SplitIsToken(s: Bytes, t: Bytes)
    requires t in Split(s)
    ensures TokenOf(s, t)
    decreases |s|
  {
    var n := CommaLen(s);
    assert n == |s| ==> s[..n] == s;
    if t == s[..n] {
      assert IsToken(s, [], t, s[n..]);
    } else {
      SplitIsToken(s[n + 1..], t);
      var pre, post :| IsToken(s[n + 1..], pre, t, post);
      TokenLater(s, n, pre, t, post);
    }
  }

  lemma TokenLater(s: Bytes, n: nat, pre: Bytes, t: Bytes, post: Bytes)
    requires n < |s| && s[n] == COMMA && IsToken(s[n + 1..], pre, t, post)
    ensures IsToken(s, s[..n + 1] + pre, t, post)
  {
    var head := s[..n + 1];
    assert s == head + s[n + 1..];
    Assoc(head, pre + t, post);
    Assoc(head, pre, t);
  }

  lemma {:induction false} TokenInSplit(s: Bytes, pre: Bytes, t: Bytes, post: Bytes)
    requires IsToken(s, pre, t, post)
    ensures t in Split(s)
    decreases |s|
  {
    var n := CommaLen(s);
    if pre == [] {
      FirstComma(t, post);
      assert s == t + post && s[..n] == t;
      assert Split(s)[0] == t;
    } else {
      assert s[|pre| - 1] == COMMA;
      assert s[n + 1..] == pre[n + 1..] + t + post;
      TokenInSplit(s[n + 1..], pre[n + 1..], t, post);
    }
  }

  lemma FirstComma(t: Bytes, post: Bytes)
    requires COMMA !in t && (post == [] || post[0] == COMMA)
    ensures CommaLen(t + post) == |t|
  {
    var s := t + post;
    assert forall k :: 0 <= k < |t| ==> s[k] == t[k];
    assert post != [] ==> s[|t|] == COMMA;
  }

  const ANY := Ascii("*")

  predicate Matches(t: Bytes, rule: Bytes, host: Bytes) {
    var tok := Trim(Lower(t));
    tok == ANY || tok == Lower(rule) || tok == Lower(host)
  }

  /** Some token of the policy names everything, the rule or the host. */
  ghost predicate Permits(policy: Bytes, rule: Bytes, host: Bytes) {
    policy != [] && exists t :: TokenOf(policy, t) && Matches(t, rule, host)
  }

  method IsRuleAllowed(pod: PodMap.Info?, rule: Bytes, host: Bytes) returns (ok: bool)
    ensures ok <==> pod != null && pod.binding.bound && Permits(pod.binding.policy, rule, host)
  {
    if pod == null || !pod.binding.bound || pod.binding.policy == [] { return false; }
    var policy := pod.binding.policy;
    var ts := Split(policy);
    for i := 0 to |ts|
      invariant forall k :: 0 <= k < i ==> !Matches(ts[k], rule, host)
    {
      if Matches(ts[i], rule, host) {
        SplitTokens(policy, ts[i]);
        return true;
      }
    }
    forall t | TokenOf(policy, t) ensures !Matches(t, rule, host) { SplitTokens(policy, t); }
    ok := false;
  }

  datatype Rule = Rule(name: Bytes, attributionHeaders: bool)

  /** The loaded routes; `fallback` says whether a fallback handler is set. */
  datatype Router = Router(routes: map<Bytes, Rule>, fallback: bool)

  const DOT := Ascii(".")

  /** The route's host is the request's host, or a dot-terminated prefix of it when there is no exact route. */
  ghost predicate RouteFor(routes: map<Bytes, Rule>, host: Bytes, h: Bytes) {
    h in routes && (h == host || (host !in routes && HasPrefix(host, h + DOT)))
  }

  ghost predicate Routed(routes: map<Bytes, Rule>, host: Bytes, m: Option<Rule>) {
    if m.None? then forall h :: !RouteFor(routes, host, h)
    else exists h :: RouteFor(routes, host, h) && routes[h] == m.value
  }

  /** The lookup; the routes are tried in no particular order. */
  method FindRule(routes: map<Bytes, Rule>, host: Bytes) returns (m: Option<Rule>)
    ensures Routed(routes, host, m)
  {
    if host in routes {
      assert RouteFor(routes, host, host);
      return Some(routes[host]);
    }
    var todo := routes.Keys;
    while todo != {}
      invariant todo <= routes.Keys
      invariant forall h :: h in routes && h !in todo ==> !RouteFor(routes, host, h)
      decreases |todo|
    {
      var h :| h in todo;
      if HasPrefix(host, h + DOT) {
        assert RouteFor(routes, host, h);
        return Some(routes[h]);
      }
      todo := todo - {h};
    }
    m := None;
  }

  datatype Reason = UnknownCaller | UnboundPod | NotInPolicy | NoRoute

  /** A proxied request may have its pod and identity headers set. */
  datatype Outcome =
    | Denied(reason: Reason)
    | Proxied(rule: Rule, podHeader: Option<Bytes>, identityHeader: Option<Bytes>)
    | FellBack

  /** The pod behind an IP. */
  function CallerPod(s: PodState.State, ip: Bytes): (p: Option<PodState.Pod>) {
    if ip in s.byIP && s.byIP[ip] in s.byUID then Some(s.byUID[s.byIP[ip]]) else None
  }

  /** The caller's IP belongs to a bound pod whose policy permits the rule and host. */
  ghost predicate Admits(s: PodState.State, ip: Bytes, rule: Bytes, host: Bytes) {
    var p := CallerPod(s, ip);
    p.Some? && p.value.binding.bound && Permits(p.value.binding.policy, rule, host)
  }

  const FALLBACK := Ascii("fallback")

  /** The rule name the policy is asked about. */
  function AskedName(m: Option<Rule>): (name: Bytes) {
    if m.Some? then m.value.name else FALLBACK
  }

  /** The headers set for a known pod when the rule opts in. */
  function PodHeader(pod: Option<PodState.Pod>, rule: Rule): (h: Option<Bytes>) {
    if pod.Some? && rule.attributionHeaders then Some(pod.value.namespace + Ascii("/") + pod.value.name) else None
  }

  function IdentityHeader(pod: Option<PodState.Pod>, rule: Rule): (h: Option<Bytes>) {
    if pod.Some? && rule.attributionHeaders && pod.value.binding.identity != [] then Some(pod.value.binding.identity)
    else None
  }

  /** `host` is lower case and without its port, `ip` the caller's address without its port. */
  method ServeHTTP(rr: Router, pm: PodMap.Map?, host: Bytes, ip: Bytes) returns (out: Outcome, matched: Option<Rule>)
    requires pm != null ==> pm.Valid()
    ensures Routed(rr.routes, host, matched)
    // Forwarded exactly when there is somewhere to go and, with a pod map, the caller is admitted.
    ensures !out.Denied? <==>
      (matched.Some? || rr.fallback) && (pm != null ==> Admits(PodState.Run(pm.events), ip, AskedName(matched), host))
    ensures out.Proxied? ==> matched == Some(out.rule)
    ensures out.FellBack? ==> matched.None?
    // Why it was denied.
    ensures out == Denied(UnknownCaller) <==> pm != null && CallerPod(PodState.Run(pm.events), ip).None?
    ensures out == Denied(UnboundPod) <==>
      pm != null && CallerPod(PodState.Run(pm.events), ip).Some?
        && !CallerPod(PodState.Run(pm.events), ip).value.binding.bound
    ensures out == Denied(NoRoute) <==>
      && matched.None? && !rr.fallback
      && (pm != null ==> CallerPod(PodState.Run(pm.events), ip).Some?
                         && CallerPod(PodState.Run(pm.events), ip).value.binding.bound)
    ensures out == Denied(NotInPolicy) <==>
      && (matched.Some? || rr.fallback) && pm != null && CallerPod(PodState.Run(pm.events), ip).Some?
      && CallerPod(PodState.Run(pm.events), ip).value.binding.bound
      && !Permits(CallerPod(PodState.Run(pm.events), ip).value.binding.policy, AskedName(matched), host)
    // The headers are the caller's own.
    ensures out.Proxied? ==>
      var pod := if pm == null then None else CallerPod(PodState.Run(pm.events), ip);
      out.podHeader == PodHeader(pod, out.rule) && out.identityHeader == IdentityHeader(pod, out.rule)
  {
    matched := FindRule(rr.routes, host);
    var pod: PodMap.Info? := null;
    if pm != null {
      pod := pm.GetPodByIP(ip);
      if pod == null { return Denied(UnknownCaller), matched; }
      if !pod.binding.bound { return Denied(UnboundPod), matched; }
    }
    if matched.Some? || rr.fallback {
      if pm != null {
        var ok := IsRuleAllowed(pod, AskedName(matched), host);
        if !ok { return Denied(NotInPolicy), matched; }
      }
      if matched.Some? {
        var caller := if pod == null then None else Some(pod.Value());
        out := Proxied(matched.value, PodHeader(caller, matched.value), IdentityHeader(caller, matched.value));
      } else {
        out := FellBack;
      }
    } else {
      out := Denied(NoRoute);
    }
  }

  // Admission from the events.

  /** By the events alone, the IP belongs to the pod and a grant of the binding still stands for it. */
  ghost predicate Holds(es: seq<PodState.Event>, ip: Bytes, u: Bytes, b: PodState.Binding) {
    AddressHistory.Owns(AddressHistory.Moves(es), u, ip) && BindingHistory.Stands(es, u, b)
  }

  /** A caller is admitted if and only if its IP's pod holds a grant that permits the request. */
  lemma AdmitsHistory(es: seq<PodState.Event>, ip: Bytes, rule: Bytes, host: Bytes)
    ensures Admits(PodState.Run(es), ip, rule, host) <==>
      exists u, b :: Holds(es, ip, u, b) && Permits(b.policy, rule, host)
  {
    var s := PodState.Run(es);
    if Admits(s, ip, rule, host) {
      var u := s.byIP[ip];
      AddressHistory.OwnerRun(es, u, ip);
      BindingHistory.BoundRun(es, u, s.byUID[u].binding);
      assert Holds(es, ip, u, s.byUID[u].binding);
    }
    if u, b :| Holds(es, ip, u, b) && Permits(b.policy, rule, host) {
      AddressHistory.OwnerRun(es, u, ip);
      BindingHistory.BoundRun(es, u, b);
    }
  }

  /**
   Fail closed: with registrations as the plugin builds them, an admitted caller's pod is registered, owns the IP,
   and was bound by a Bind or an annotated first registration that no event has ended since.
   */
  lemma FailClosed(es: seq<PodState.Event>, ip: Bytes, rule: Bytes, host: Bytes)
      returns (u: Bytes, i: nat, policy: Bytes)
    requires BindingHistory.Clean(es) && Admits(PodState.Run(es), ip, rule, host)
    ensures BindingHistory.Present(es, u) && AddressHistory.Owns(AddressHistory.Moves(es), u, ip)
    ensures Permits(policy, rule, host)
    ensures i < |es| && forall j :: i < j < |es| ==> !BindingHistory.Ends(es[j], u)
    ensures
      var added := BindingHistory.Added(es[i], u);
      || (es[i].Bind? && es[i].uid == u && es[i].policy == policy)
      || (added.Some? && PodState.Annotated(added.value) && added.value.annotations[PodState.POLICY_KEY] == policy
          && !BindingHistory.Present(es[..i], u))
  {
    var s := PodState.Run(es);
    u := s.byIP[ip];
    PodState.AgreeRun(es);
    assert PodState.IndexedTo(s, ip);
    var b := s.byUID[u].binding;
    AddressHistory.OwnerRun(es, u, ip);
    BindingHistory.PresentRun(es, u);
    BindingHistory.BoundRun(es, u, b);
    var k :| 0 <= k < |es| && BindingHistory.StandsFrom(es, k, u, b);
    BindingHistory.CleanGrants(es, k, u, b);
    i, policy := k, b.policy;
  }
}
