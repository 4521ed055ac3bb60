/**
 Which binding a pod has, read off the events alone: the latest binding event since the pod was last
 added decides.  The map agrees with that reading after every run.
 */
module BindingHistory {
  import opened Octets
  import opened PodState

  /** The first listed pod with this UID. */
  function FirstOf(pods: seq<Pod>, u: Bytes): (p: Option<Pod>)
    ensures p.Some? <==> u in Uids(pods)
    ensures p.Some? ==> p.value in pods && p.value.uid == u
  {
    if pods == [] then None
    else
      assert Uids(pods) == {pods[0].uid} + Uids(pods[1..]);
      if pods[0].uid == u then Some(pods[0]) else FirstOf(pods[1..], u)
  }

  /** The pod, if any, an event adds under this UID; a pod without a UID is ignored. */
  function Added(e: Event, u: Bytes): (p: Option<Pod>) {
    if u == [] then None
    else if e.Register? && e.pod.uid == u then Some(e.pod)
    else if e.Synchronize? then FirstOf(e.pods, u)
    else None
  }

  predicate Introduces(e: Event, u: Bytes) {
    Added(e, u).Some? || (e.Bind? && e.uid == u)
  }

  predicate Drops(e: Event, u: Bytes) {
    (e.Remove? && e.uid == u) || (e.Synchronize? && u !in Uids(e.pods))
  }

  /** Some event introduced the UID and none since dropped it. */
  ghost predicate Present(es: seq<Event>, u: Bytes) {
    exists i :: 0 <= i < |es| && IntroducedAt(es, i, u)
  }

  ghost predicate IntroducedAt(es: seq<Event>, i: nat, u: Bytes)
    requires i < |es|
  {
    Introduces(es[i], u) && forall j :: i < j < |es| ==> !Drops(es[j], u)
  }

  /** The event gives the pod this binding: a Bind, or the first registration of a pod that comes bound. */
  predicate GrantedBy(e: Event, isNew: bool, u: Bytes, b: Binding) {
    && b.bound
    && ((e.Bind? && e.uid == u && b == Binding(e.identity, e.policy, true))
        || (Added(e, u).Some? && isNew && b == FirstBinding(Added(e, u).value)))
  }

  ghost predicate Grants(es: seq<Event>, i: nat, u: Bytes, b: Binding)
    requires i < |es|
  {
    GrantedBy(es[i], !Present(es[..i], u), u, b)
  }

  /** Events after which an earlier binding no longer stands. */
  predicate Ends(e: Event, u: Bytes) {
    Drops(e, u) || (e.Unbind? && e.uid == u) || (e.Bind? && e.uid == u)
  }

  ghost predicate StandsFrom(es: seq<Event>, i: nat, u: Bytes, b: Binding)
    requires i < |es|
  {
    Grants(es, i, u, b) && forall j :: i < j < |es| ==> !Ends(es[j], u)
  }

  ghost predicate Stands(es: seq<Event>, u: Bytes, b: Binding) {
    exists i :: 0 <= i < |es| && StandsFrom(es, i, u, b)
  }

  /** The map holds the pod, bound, with this binding. */
  predicate BoundTo(s: State, u: Bytes, b: Binding) {
    u in s.byUID && s.byUID[u].binding == b && b.bound
  }

  // One event at a time.

  lemma PresentStep(es: seq<Event>, e: Event, u: Bytes)
    ensures Present(es + [e], u) <==> Introduces(e, u) || (Present(es, u) && !Drops(e, u))
  {
    var fs := es + [e];
    assert fs[|es|] == e && fs[..|es|] == es;
    if Introduces(e, u) {
      assert IntroducedAt(fs, |es|, u);
    }
    if i :| 0 <= i < |es| && IntroducedAt(es, i, u) {
      if !Drops(e, u) { assert IntroducedAt(fs, i, u); }
    }
    if i :| 0 <= i < |fs| && IntroducedAt(fs, i, u) {
      assert i < |es| ==> IntroducedAt(es, i, u) && !Drops(fs[|es|], u) by {
        if i < |es| { Prefix(es, e, i); }
      }
    }
  }

  lemma Prefix(es: seq<Event>, e: Event, i: nat)
    requires i < |es|
    ensures (es + [e])[i] == es[i] && (es + [e])[..i] == es[..i]
    ensures forall j :: i < j < |es| ==> (es + [e])[j] == es[j]
  {
  }

  lemma StandsStep(es: seq<Event>, e: Event, u: Bytes, b: Binding)
    ensures Stands(es + [e], u, b) <==> Grants(es + [e], |es|, u, b) || (Stands(es, u, b) && !Ends(e, u))
  {
    var fs := es + [e];
    assert fs[|es|] == e;
    if Grants(fs, |es|, u, b) {
      assert StandsFrom(fs, |es|, u, b);
    }
    if i :| 0 <= i < |es| && StandsFrom(es, i, u, b) {
      Prefix(es, e, i);
      if !Ends(e, u) { assert StandsFrom(fs, i, u, b); }
    }
    if i :| 0 <= i < |fs| && StandsFrom(fs, i, u, b) {
      if i < |es| {
        Prefix(es, e, i);
        assert !Ends(fs[|es|], u);
        assert StandsFrom(es, i, u, b);
      }
    }
  }

  /** What adding a list of pods does to one UID. */
  lemma {:induction false} AddAllOne(s: State, pods: seq<Pod>, u: Bytes)
    ensures
      var r := AddAll(s, pods);
      && (u in r.byUID <==> u in s.byUID || (u != [] && FirstOf(pods, u).Some?))
      && (u in s.byUID ==> r.byUID[u].binding == s.byUID[u].binding)
      && (u !in s.byUID && u != [] && FirstOf(pods, u).Some? ==>
            r.byUID[u].binding == FirstBinding(FirstOf(pods, u).value))
    decreases pods
  {
    if pods != [] {
      AddAllOne(Add(s, pods[0]), pods[1..], u);
    }
  }

  /** Membership and binding of one UID after one event. */
  lemma StepOne(s: State, e: Event, u: Bytes)
    ensures
      var r := Step(s, e);
      && (u in r.byUID <==> Introduces(e, u) || (u in s.byUID && !Drops(e, u)))
      && (u in r.byUID && u in s.byUID && !Ends(e, u) ==> r.byUID[u].binding == s.byUID[u].binding)
      && (u !in s.byUID && Added(e, u).Some? ==> r.byUID[u].binding == FirstBinding(Added(e, u).value))
      && (e.Bind? && e.uid == u ==> r.byUID[u].binding == Binding(e.identity, e.policy, true))
      && (e.Unbind? && e.uid == u && u in s.byUID ==> r.byUID[u].binding == UNBOUND)
  {
    if e.Synchronize? {
      AddAllOne(s, e.pods, u);
      assert u in Uids(e.pods) ==> FirstOf(e.pods, u).Some?;
    }
  }

  // Whole runs.

  /** The map holds exactly the UIDs that the history says are present. */
  lemma {:induction false} PresentRun(es: seq<Event>, u: Bytes)
    ensures u in Run(es).byUID <==> Present(es, u)
  {
    if es != [] {
      var fs, e := es[..|es| - 1], es[|es| - 1];
      assert es == fs + [e];
      PresentRun(fs, u);
      PresentStep(fs, e, u);
      StepOne(Run(fs), e, u);
    }
  }

  /** The binding of a pod after one more event, from whether it was bound before. */
  lemma BoundOne(s: State, r: State, e: Event, u: Bytes, b: Binding)
    requires r == Step(s, e)
    ensures BoundTo(r, u, b) <==> GrantedBy(e, u !in s.byUID, u, b) || (BoundTo(s, u, b) && !Ends(e, u))
  {
    StepOne(s, e, u);
  }

  lemma BoundStep(es: seq<Event>, e: Event, u: Bytes, b: Binding)
    ensures BoundTo(Step(Run(es), e), u, b) <==> Grants(es + [e], |es|, u, b) || (BoundTo(Run(es), u, b) && !Ends(e, u))
  {
    assert (es + [e])[|es|] == e && (es + [e])[..|es|] == es;
    PresentRun(es, u);
    BoundOne(Run(es), Step(Run(es), e), e, u, b);
  }

  /** After every run a pod is bound with `b` if and only if a grant of `b` still stands. */
  lemma {:induction false} BoundRun(es: seq<Event>, u: Bytes, b: Binding)
    ensures BoundTo(Run(es), u, b) <==> Stands(es, u, b)
  {
    if es != [] {
      var fs, e := es[..|es| - 1], es[|es| - 1];
      assert es == fs + [e];
      BoundRun(fs, u, b);
      StandsStep(fs, e, u, b);
      BoundStep(fs, e, u, b);
    }
  }

  /** Registrations as the node plugin builds them: no binding fields of their own. */
  ghost predicate Clean(es: seq<Event>) {
    forall i :: 0 <= i < |es| ==> CleanEvent(es[i])
  }

  predicate CleanEvent(e: Event) {
    && (e.Register? ==> e.pod.binding == UNBOUND)
    && (e.Synchronize? ==> forall p :: p in e.pods ==> p.binding == UNBOUND)
  }

  /** With clean registrations only a Bind or an annotated first registration grants. */
  lemma CleanGrants(es: seq<Event>, i: nat, u: Bytes, b: Binding)
    requires Clean(es) && i < |es| && Grants(es, i, u, b)
    ensures
      || es[i] == Bind(u, b.identity, b.policy)
      || (Added(es[i], u).Some? && Annotated(Added(es[i], u).value)
          && b.policy == Added(es[i], u).value.annotations[POLICY_KEY]
          && !Present(es[..i], u))
  {
    assert CleanEvent(es[i]);
  }

  /** A registration that carries a binding is bound without a Bind or an annotation. */
  lemma CarriedBindingExample(u: Bytes, b: Binding)
    requires u != [] && b.bound
    ensures
      var es := [Register(Pod(u, [], [], [], map[], b))];
      !Clean(es) && BoundTo(Run(es), u, b)
  {
    var es := [Register(Pod(u, [], [], [], map[], b))];
    assert !CleanEvent(es[0]);
    assert es[..0] == [] && Run(es[..0]) == EMPTY;
  }
}
