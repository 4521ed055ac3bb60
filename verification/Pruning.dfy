/**
 Choosing the objects of a fetch: the commits to send are those reachable from the
 wants and not from the acknowledged haves, and of their objects those in no index
 of an excluded commit.
 */
module Pruning {
  import opened Packfile
  import opened GitObjects
  import opened Reach
  import opened RepoIndex

  /** What pruning reads of a store. */
  datatype View = View(objects: Objects, commits: map<Oid, Commit>, index: map<Oid, seq<Oid>>)

  function ParentGraph(commits: map<Oid, Commit>): (g: Graph<Oid>) {
    map c | c in commits :: commits[c].parents
  }

  /** The haves the store knows, in request order. */
  function Acks(v: View, haves: seq<Oid>): (acks: seq<Oid>) {
    if haves == [] then []
    else Acks(v, haves[..|haves| - 1]) + if haves[|haves| - 1] in v.commits then [haves[|haves| - 1]] else []
  }

  /** A commit the client has: reachable from an acknowledged have. */
  ghost predicate Excluded(v: View, haves: seq<Oid>, c: Oid) {
    Reachable(ParentGraph(v.commits), ToSet(Acks(v, haves)), c)
  }

  /** A commit to send: reachable from a want and not excluded. */
  ghost predicate Needed(v: View, wants: seq<Oid>, haves: seq<Oid>, c: Oid) {
    Reachable(ParentGraph(v.commits), ToSet(wants), c) && !Excluded(v, haves, c)
  }

  predicate Listed(index: map<Oid, seq<Oid>>, c: Oid, o: Oid) {
    c in index && o in index[c]
  }

  /** An object the client has: in the index of an excluded commit. */
  ghost predicate Held(v: View, haves: seq<Oid>, o: Oid) {
    exists c :: Excluded(v, haves, c) && Listed(v.index, c, o)
  }

  /** An object the client lacks: in the index of a needed commit and not held. */
  ghost predicate Missing(v: View, wants: seq<Oid>, haves: seq<Oid>, o: Oid) {
    (exists c :: Needed(v, wants, haves, c) && Listed(v.index, c, o)) && !Held(v, haves, o)
  }

  ghost predicate AnyMissing(v: View, wants: seq<Oid>, haves: seq<Oid>) {
    exists o :: Missing(v, wants, haves, o)
  }

  /** What is chosen: the missing objects, or the wants themselves when nothing is missing. */
  ghost predicate Chosen(v: View, wants: seq<Oid>, haves: seq<Oid>, o: Oid) {
    if AnyMissing(v, wants, haves) then Missing(v, wants, haves, o) else o in wants
  }

  // ----- The searches -----

  method AckedHaves(v: View, haves: seq<Oid>) returns (acks: seq<Oid>)
    ensures acks == Acks(v, haves)
  {
    acks := [];
    assert haves[..0] == [];
    for i := 0 to |haves|
      invariant acks == Acks(v, haves[..i])
    {
      assert haves[..i + 1][..i] == haves[..i];
      if haves[i] in v.commits {
        acks := acks + [haves[i]];
      }
    }
    assert haves[..|haves|] == haves;
  }

  method Unexcluded(wants: seq<Oid>, excluded: set<Oid>) returns (start: seq<Oid>)
    ensures ToSet(start) == ToSet(wants) - excluded
  {
    start := [];
    for i := 0 to |wants|
      invariant ToSet(start) == ToSet(wants[..i]) - excluded
    {
      assert wants[..i + 1] == wants[..i] + [wants[i]];
      if wants[i] !in excluded {
        start := start + [wants[i]];
      }
    }
    assert wants[..|wants|] == wants;
  }

  /** Both searches end on every graph, and find exactly the excluded and the needed commits. */
  method SearchCommits(v: View, wants: seq<Oid>, haves: seq<Oid>)
      returns (acks: seq<Oid>, excluded: set<Oid>, needed: set<Oid>)
    ensures acks == Acks(v, haves)
    ensures forall c :: c in excluded <==> Excluded(v, haves, c)
    ensures forall c :: c in needed <==> Needed(v, wants, haves, c)
  {
    var g := ParentGraph(v.commits);
    acks := AckedHaves(v, haves);
    excluded := Walk(g, acks, {});
    forall c ensures c in excluded <==> Excluded(v, haves, c) {
      WalkExact(g, ToSet(acks), excluded, c);
    }
    WalkCloses(g, ToSet(acks), excluded);
    var start := Unexcluded(wants, excluded);
    assert forall x :: x in start ==> x in ToSet(start);
    needed := Walk(g, start, excluded);
    forall c ensures c in needed <==> Needed(v, wants, haves, c) {
      WalkPrunes(g, ToSet(wants), ToSet(start), excluded, needed, c);
    }
  }

  // ----- The objects -----

  method UnionIndex(index: map<Oid, seq<Oid>>, cs: set<Oid>) returns (s: set<Oid>)
    ensures forall o :: o in s <==> exists c :: c in cs && Listed(index, c, o)
  {
    s := {};
    var todo := cs;
    while todo != {}
      invariant todo <= cs
      invariant forall o :: o in s <==> exists c :: c in cs - todo && Listed(index, c, o)
    {
      var c :| c in todo;
      var more := if c in index then ToSet(index[c]) else {};
      UnionStep(index, cs - todo, c, s, more);
      assert cs - todo + {c} == cs - (todo - {c});
      s, todo := s + more, todo - {c};
    }
    assert cs - todo == cs;
  }

  lemma UnionStep(index: map<Oid, seq<Oid>>, done: set<Oid>, c: Oid, s: set<Oid>, more: set<Oid>)
    requires forall o :: o in s <==> exists d :: d in done && Listed(index, d, o)
    requires forall o :: o in more <==> Listed(index, c, o)
    ensures forall o :: o in s + more <==> exists d :: d in done + {c} && Listed(index, d, o)
  {
    forall o ensures o in s + more <==> exists d :: d in done + {c} && Listed(index, d, o) {
      if o in s {
        var d :| d in done && Listed(index, d, o);
        assert d in done + {c};
      }
      if o in more {
        assert c in done + {c} && Listed(index, c, o);
      }
    }
  }

  /** Append the elements of `next` that are neither held nor listed yet. */
  method AppendNew(next: seq<Oid>, have: set<Oid>, list: seq<Oid>) returns (r: seq<Oid>)
    requires NoDup(list)
    ensures NoDup(r) && forall o :: o in r <==> o in list || (o in next && o !in have)
  {
    r := list;
    for i := 0 to |next|
      invariant NoDup(r) && forall o :: o in r <==> o in list || (o in next[..i] && o !in have)
    {
      assert next[..i + 1] == next[..i] + [next[i]];
      if next[i] !in have && next[i] !in r {
        NoDupSnoc(r, next[i]);
        r := r + [next[i]];
      }
    }
    assert next[..|next|] == next;
  }

  method ListMissing(index: map<Oid, seq<Oid>>, cs: set<Oid>, have: set<Oid>) returns (list: seq<Oid>)
    ensures NoDup(list)
    ensures forall o :: o in list <==> o !in have && exists c :: c in cs && Listed(index, c, o)
  {
    list := [];
    var todo := cs;
    while todo != {}
      invariant todo <= cs && NoDup(list)
      invariant forall o :: o in list <==> o !in have && exists c :: c in cs - todo && Listed(index, c, o)
    {
      var c :| c in todo;
      var next := if c in index then index[c] else [];
      var r := AppendNew(next, have, list);
      MissingStep(index, cs - todo, have, c, list, next, r);
      assert cs - todo + {c} == cs - (todo - {c});
      list, todo := r, todo - {c};
    }
    assert cs - todo == cs;
  }

  lemma MissingStep(index: map<Oid, seq<Oid>>, done: set<Oid>, have: set<Oid>, c: Oid, list: seq<Oid>, next: seq<Oid>,
      r: seq<Oid>)
    requires forall o :: o in list <==> o !in have && exists d :: d in done && Listed(index, d, o)
    requires forall o :: o in next <==> Listed(index, c, o)
    requires forall o :: o in r <==> o in list || (o in next && o !in have)
    ensures forall o :: o in r <==> o !in have && exists d :: d in done + {c} && Listed(index, d, o)
  {
    forall o ensures o in r <==> o !in have && exists d :: d in done + {c} && Listed(index, d, o) {
      if o in list {
        var d :| d in done && Listed(index, d, o);
        assert d in done + {c};
      }
      if o in next {
        assert c in done + {c} && Listed(index, c, o);
      }
    }
  }

  function Ids(objs: seq<RawObject>): (ids: seq<Oid>)
    ensures |ids| == |objs| && forall i :: 0 <= i < |objs| ==> ids[i] == objs[i].oid
  {
    seq(|objs|, i requires 0 <= i < |objs| => objs[i].oid)
  }

  /** `objs` are stored objects, none twice. */
  ghost predicate StoredOnce(objects: Objects, objs: seq<RawObject>) {
    NoDup(Ids(objs)) && forall i :: 0 <= i < |objs| ==> objs[i].oid in objects && objects[objs[i].oid] == objs[i]
  }

  /** The stored objects among `oids`. */
  method Gather(objects: Objects, oids: seq<Oid>) returns (objs: seq<RawObject>)
    requires NoDup(oids) && forall k :: k in objects ==> objects[k].oid == k
    ensures StoredOnce(objects, objs)
    ensures forall o :: o in Ids(objs) <==> o in objects && o in oids
  {
    objs := [];
    for i := 0 to |oids|
      invariant StoredOnce(objects, objs)
      invariant forall o :: o in Ids(objs) <==> o in objects && o in oids[..i]
    {
      assert oids[..i + 1] == oids[..i] + [oids[i]];
      if oids[i] in objects {
        assert oids[i] !in oids[..i] by { NotEarlier(oids, i); }
        NoDupSnoc(Ids(objs), oids[i]);
        assert Ids(objs + [objects[oids[i]]]) == Ids(objs) + [oids[i]];
        objs := objs + [objects[oids[i]]];
      }
    }
    assert oids[..|oids|] == oids;
  }

  lemma NotEarlier(xs: seq<Oid>, i: nat)
    requires NoDup(xs) && i < |xs|
    ensures xs[i] !in xs[..i]
  {
    forall j | 0 <= j < i ensures xs[..i][j] != xs[i] {
      assert Differ(xs, j, i);
    }
  }

  /** `CollectObjectsForCommits`: the stored ones among the chosen objects, none twice. */
  method Collect(v: View, wants: seq<Oid>, haves: seq<Oid>) returns (objs: seq<RawObject>, acks: seq<Oid>)
    requires forall k :: k in v.objects ==> v.objects[k].oid == k
    ensures acks == Acks(v, haves)
    ensures StoredOnce(v.objects, objs)
    ensures forall o :: o in Ids(objs) <==> o in v.objects && Chosen(v, wants, haves, o)
  {
    var excluded, needed;
    acks, excluded, needed := SearchCommits(v, wants, haves);
    var have := UnionIndex(v.index, excluded);
    var list := ListMissing(v.index, needed, have);
    ListsMissing(v, wants, haves, excluded, needed, have, list);
    if |list| == 0 {
      list := AppendNew(wants, {}, []);
    } else {
      assert Missing(v, wants, haves, list[0]);
    }
    objs := Gather(v.objects, list);
  }

  lemma ListsMissing(v: View, wants: seq<Oid>, haves: seq<Oid>, excluded: set<Oid>, needed: set<Oid>, have: set<Oid>,
      list: seq<Oid>)
    requires forall c :: c in excluded <==> Excluded(v, haves, c)
    requires forall c :: c in needed <==> Needed(v, wants, haves, c)
    requires forall o :: o in have <==> exists c :: c in excluded && Listed(v.index, c, o)
    requires forall o :: o in list <==> o !in have && exists c :: c in needed && Listed(v.index, c, o)
    ensures forall o :: o in list <==> Missing(v, wants, haves, o)
    ensures list == [] ==> !AnyMissing(v, wants, haves)
  {
    forall o ensures o in have <==> Held(v, haves, o) {
      if o in have {
        var c :| c in excluded && Listed(v.index, c, o);
        assert Excluded(v, haves, c);
      }
    }
    forall o ensures o in list <==> Missing(v, wants, haves, o) {
      if o in list {
        var c :| c in needed && Listed(v.index, c, o);
        assert Needed(v, wants, haves, c);
      }
    }
  }

  // ----- What pruning guarantees -----

  /** Everything of a commit reachable from the wants, by the indexes of the store. */
  ghost predicate Wanted(v: View, wants: seq<Oid>, o: Oid) {
    exists c :: Reachable(ParentGraph(v.commits), ToSet(wants), c) && Listed(v.index, c, o)
  }

  /** A wanted object is held already or chosen. */
  lemma WantedHeldOrChosen(v: View, wants: seq<Oid>, haves: seq<Oid>, o: Oid)
    requires Wanted(v, wants, o)
    ensures Held(v, haves, o) || Chosen(v, wants, haves, o)
  {
    var c :| Reachable(ParentGraph(v.commits), ToSet(wants), c) && Listed(v.index, c, o);
    if !Excluded(v, haves, c) {
      assert Needed(v, wants, haves, c);
      if !Held(v, haves, o) {
        assert Missing(v, wants, haves, o);
      }
    }
  }
}
