/**
 Delta resolution in repeated passes over the entries of a pack.  The loop is
 compared with a declarative notion of solution: objects, a base for every delta,
 and for every entry the number of links of its base chain that point to a delta
 placed later in the pack.
 */
module DeltaResolution {
  import opened Octets
  import opened Packfile
  import Delta

  type Store = map<Oid, RawObject>

  /**
   A resolution problem: the scanned entries, the objects known outside the pack, and
   the two operations resolution is built from (delta application and object naming).
   */
  datatype Pack = Pack(
    es: seq<Entry>,
    store: Store,
    apply: (Bytes, Bytes) -> Delta.Outcome,
    make: (Kind, Bytes) -> RawObject)

  datatype State = State(byOffset: map<int, RawObject>, byOid: map<Oid, RawObject>)

  predicate IsDelta(e: Entry) {
    e.kind == OFS_DELTA || e.kind == REF_DELTA
  }

  function Register(st: State, offset: int, o: RawObject): (r: State) {
    State(st.byOffset[offset := o], st.byOid[o.oid := o])
  }

  /** The whole objects among the first `n` entries. */
  function Wholes(p: Pack, n: nat): (st: State)
    requires n <= |p.es|
  {
    if n == 0 then State(map[], map[])
    else
      var st, e := Wholes(p, n - 1), p.es[n - 1];
      if IsDelta(e) then st else Register(st, e.offset, p.make(e.kind, e.data))
  }

  /** The base of a delta, from the pack first and then from outside it. */
  function FindBase(store: Store, st: State, e: Entry): (b: Option<RawObject>) {
    if e.kind == OFS_DELTA then
      if e.baseOffset in st.byOffset then Some(st.byOffset[e.baseOffset]) else None
    else if e.baseOid in st.byOid then Some(st.byOid[e.baseOid])
    else if e.baseOid in store then Some(store[e.baseOid])
    else None
  }

  /** Visit one entry; `None` when its delta does not apply. */
  function Visit(p: Pack, st: State, e: Entry): (r: Option<State>)
    ensures r.Some? ==> st.byOffset.Keys <= r.value.byOffset.Keys <= st.byOffset.Keys + {e.offset as int}
  {
    if !IsDelta(e) || e.offset in st.byOffset then Some(st)
    else
      match FindBase(p.store, st, e)
      case None => Some(st)
      case Some(b) =>
        match p.apply(b.data, e.data)
        case Applied(t) => Some(Register(st, e.offset, p.make(b.kind, t)))
        case _ => None
  }

  /** One pass, up to entry `n`. */
  function PassTo(p: Pack, st: State, n: nat): (r: Option<State>)
    requires n <= |p.es|
  {
    if n == 0 then Some(st)
    else
      match PassTo(p, st, n - 1)
      case None => None
      case Some(cur) => Visit(p, cur, p.es[n - 1])
  }

  predicate Done(p: Pack, st: State, i: nat)
    requires i < |p.es|
  {
    p.es[i].offset in st.byOffset
  }

  predicate AllResolved(p: Pack, st: State) {
    forall i :: 0 <= i < |p.es| ==> Done(p, st, i)
  }

  /** At most `n` passes, stopping when everything or nothing new is resolved. */
  function Passes(p: Pack, st: State, n: nat): (r: Option<State>)
    decreases n
  {
    if n == 0 then Some(st)
    else
      match PassTo(p, st, |p.es|)
      case None => None
      case Some(cur) =>
        if AllResolved(p, cur) || cur.byOffset.Keys == st.byOffset.Keys then Some(cur) else Passes(p, cur, n - 1)
  }

  const MAX_PASSES: nat := 50

  function Collect(p: Pack, st: State): (objs: seq<RawObject>)
    requires AllResolved(p, st)
    ensures |objs| == |p.es| && forall i :: 0 <= i < |objs| ==> Done(p, st, i) && objs[i] == st.byOffset[p.es[i].offset]
  {
    seq(|p.es|, i requires 0 <= i < |p.es| && Done(p, st, i) => st.byOffset[p.es[i].offset])
  }

  function Resolve(p: Pack): (r: Option<seq<RawObject>>) {
    match Passes(p, Wholes(p, |p.es|), MAX_PASSES)
    case None => None
    case Some(st) => if AllResolved(p, st) then Some(Collect(p, st)) else None
  }

  // ----- Panics -----

  /** Visiting the entry panics: its base is known and applying its delta does. */
  predicate VisitPanics(p: Pack, st: State, e: Entry) {
    && IsDelta(e) && e.offset !in st.byOffset && FindBase(p.store, st, e).Some?
    && p.apply(FindBase(p.store, st, e).value.data, e.data) == Delta.Panicked
  }

  predicate PassPanics(p: Pack, st: State, n: nat)
    requires n <= |p.es|
  {
    n > 0 && (PassPanics(p, st, n - 1)
      || (PassTo(p, st, n - 1).Some? && VisitPanics(p, PassTo(p, st, n - 1).value, p.es[n - 1])))
  }

  predicate PassesPanic(p: Pack, st: State, n: nat)
    decreases n
  {
    n > 0 && (PassPanics(p, st, |p.es|)
      || (PassTo(p, st, |p.es|).Some?
          && var cur := PassTo(p, st, |p.es|).value;
          !AllResolved(p, cur) && cur.byOffset.Keys != st.byOffset.Keys && PassesPanic(p, cur, n - 1)))
  }

  predicate ResolvePanics(p: Pack) {
    PassesPanic(p, Wholes(p, |p.es|), MAX_PASSES)
  }

  /** A pass that comes through did not panic. */
  lemma {:induction false} PassSafe(p: Pack, st: State, n: nat)
    requires n <= |p.es| && PassTo(p, st, n).Some?
    ensures !PassPanics(p, st, n)
  {
    if n > 0 { PassSafe(p, st, n - 1); }
  }

  /** A pass that stops at entry `i` panicked if and only if that visit did. */
  lemma {:induction false} PassStops(p: Pack, st: State, i: nat, m: nat)
    requires i < m <= |p.es| && PassTo(p, st, i).Some? && Visit(p, PassTo(p, st, i).value, p.es[i]).None?
    ensures PassTo(p, st, m).None? && PassPanics(p, st, m) == VisitPanics(p, PassTo(p, st, i).value, p.es[i])
    decreases m
  {
    if m == i + 1 {
      PassSafe(p, st, i);
    } else {
      PassStops(p, st, i, m - 1);
    }
  }

  /** Only a delta that panics on some base makes resolution panic. */
  lemma {:induction false} PassesPanicCause(p: Pack, st: State, n: nat)
    requires forall b, i :: 0 <= i < |p.es| && IsDelta(p.es[i]) ==> p.apply(b, p.es[i].data) != Delta.Panicked
    ensures !PassesPanic(p, st, n)
    decreases n
  {
    if n > 0 {
      PassPanicCause(p, st, |p.es|);
      if PassTo(p, st, |p.es|).Some? { PassesPanicCause(p, PassTo(p, st, |p.es|).value, n - 1); }
    }
  }

  lemma {:induction false} PassPanicCause(p: Pack, st: State, n: nat)
    requires n <= |p.es|
    requires forall b, i :: 0 <= i < |p.es| && IsDelta(p.es[i]) ==> p.apply(b, p.es[i].data) != Delta.Panicked
    ensures !PassPanics(p, st, n)
  {
    if n > 0 { PassPanicCause(p, st, n - 1); }
  }

  // ----- Solutions -----

  /** Where an entry gets its content: itself, another entry, or an object outside the pack. */
  datatype Link = Whole | InPack(base: nat) | Thin

  datatype Solution = Solution(objs: seq<RawObject>, links: seq<Link>, late: seq<nat>)

  ghost predicate Derives(p: Pack, b: RawObject, e: Entry, o: RawObject) {
    p.apply(b.data, e.data).Applied? && o == p.make(b.kind, p.apply(b.data, e.data).target)
  }

  /** Entry `e` names entry `j`, whose object is `o`, as its base. */
  ghost predicate Names(p: Pack, e: Entry, j: nat, o: RawObject)
    requires j < |p.es|
  {
    IsDelta(e) && if e.kind == OFS_DELTA then p.es[j].offset == e.baseOffset else o.oid == e.baseOid
  }

  /** Does the link from `i` to `j` cost a pass?  Only if `j` is a delta not visited before `i`. */
  function Cost(p: Pack, i: nat, j: nat): (c: nat)
    requires j < |p.es|
  {
    if j >= i && IsDelta(p.es[j]) then 1 else 0
  }

  ghost predicate Shaped(p: Pack, s: Solution) {
    |s.objs| == |s.links| == |s.late| == |p.es|
  }

  ghost predicate SolvedAt(p: Pack, s: Solution, i: nat)
    requires Shaped(p, s) && i < |p.es|
  {
    var e, o := p.es[i], s.objs[i];
    if s.links[i].Whole? then !IsDelta(e) && o == p.make(e.kind, e.data) && s.late[i] == 0
    else if s.links[i].Thin? then
      e.kind == REF_DELTA && e.baseOid in p.store && Derives(p, p.store[e.baseOid], e, o) && s.late[i] == 0
    else
      var j := s.links[i].base;
      j < |p.es| && Names(p, e, j, s.objs[j]) && Derives(p, s.objs[j], e, o) && s.late[i] == s.late[j] + Cost(p, i, j)
  }

  ghost predicate Solves(p: Pack, s: Solution) {
    Shaped(p, s) && forall i :: 0 <= i < |p.es| ==> SolvedAt(p, s, i)
  }

  /** Objects `i` and `j` are the same if their identifiers are. */
  ghost predicate Apart(objs: seq<RawObject>, i: nat, j: nat)
    requires i < |objs| && j < |objs|
  {
    objs[i].oid == objs[j].oid ==> objs[i] == objs[j]
  }

  ghost predicate Outside(store: Store, o: RawObject) {
    o.oid in store ==> store[o.oid] == o
  }

  /** An identifier names one object, in the pack and outside it. */
  ghost predicate Separated(p: Pack, objs: seq<RawObject>) {
    && (forall i, j :: 0 <= i < |objs| && 0 <= j < |objs| ==> Apart(objs, i, j))
    && (forall i :: 0 <= i < |objs| ==> Outside(p.store, objs[i]))
  }

  // ----- Every solution is found -----

  ghost predicate IsObj(s: Solution, o: RawObject) {
    o in s.objs
  }

  /** Entry `i` is stored as the solution has it. */
  ghost predicate Kept(p: Pack, s: Solution, st: State, i: nat)
    requires Shaped(p, s) && i < |p.es|
  {
    Done(p, st, i) ==> st.byOffset[p.es[i].offset] == s.objs[i] && s.objs[i].oid in st.byOid
  }

  ghost predicate Indexed(s: Solution, st: State, k: Oid)
    requires k in st.byOid
  {
    IsObj(s, st.byOid[k]) && st.byOid[k].oid == k
  }

  /** The state holds objects of the solution only, and the whole entries among the first `n`. */
  ghost predicate AgreesTo(p: Pack, s: Solution, st: State, n: nat)
    requires Shaped(p, s)
  {
    && (forall i :: 0 <= i < |p.es| ==> Kept(p, s, st, i))
    && (forall k :: k in st.byOid ==> Indexed(s, st, k))
    && (forall i :: 0 <= i < n && i < |p.es| && !IsDelta(p.es[i]) ==> Done(p, st, i))
  }

  ghost predicate Agrees(p: Pack, s: Solution, st: State)
    requires Shaped(p, s)
  {
    AgreesTo(p, s, st, |p.es|)
  }

  /** Whatever base is found, it is the base of the solution. */
  lemma BaseAgrees(p: Pack, s: Solution, st: State, i: nat)
    requires Solves(p, s) && Separated(p, s.objs) && Agrees(p, s, st)
    requires i < |p.es| && IsDelta(p.es[i]) && FindBase(p.store, st, p.es[i]).Some?
    ensures Derives(p, FindBase(p.store, st, p.es[i]).value, p.es[i], s.objs[i])
  {
    assert SolvedAt(p, s, i);
    var e, b := p.es[i], FindBase(p.store, st, p.es[i]).value;
    if s.links[i].InPack? && e.kind == OFS_DELTA {
      assert Kept(p, s, st, s.links[i].base);
    } else if e.baseOid in st.byOid {
      assert Indexed(s, st, e.baseOid);
      var j :| 0 <= j < |s.objs| && s.objs[j] == b;
      if s.links[i].InPack? {
        assert Apart(s.objs, j, s.links[i].base);
      } else {
        assert Outside(p.store, s.objs[j]);
      }
    } else if s.links[i].InPack? {
      assert Outside(p.store, s.objs[s.links[i].base]);
    }
  }

  lemma VisitAgrees(p: Pack, s: Solution, st: State, i: nat)
    requires Ascending(p.es) && Solves(p, s) && Separated(p, s.objs) && Agrees(p, s, st)
    requires i < |p.es|
    ensures Visit(p, st, p.es[i]).Some? && Agrees(p, s, Visit(p, st, p.es[i]).value)
    ensures IsDelta(p.es[i]) && FindBase(p.store, st, p.es[i]).Some? ==> Done(p, Visit(p, st, p.es[i]).value, i)
  {
    var e := p.es[i];
    if IsDelta(e) && !Done(p, st, i) && FindBase(p.store, st, e).Some? {
      BaseAgrees(p, s, st, i);
      RegisterAgrees(p, s, st, i, |p.es|);
    }
  }

  lemma RegisterAgrees(p: Pack, s: Solution, st: State, i: nat, n: nat)
    requires Ascending(p.es) && Shaped(p, s) && i < |p.es| && AgreesTo(p, s, st, n)
    ensures AgreesTo(p, s, Register(st, p.es[i].offset, s.objs[i]), n)
    ensures n == i ==> AgreesTo(p, s, Register(st, p.es[i].offset, s.objs[i]), n + 1)
  {
    var r := Register(st, p.es[i].offset, s.objs[i]);
    forall k | k in r.byOid ensures Indexed(s, r, k) {
      if k != s.objs[i].oid { assert Indexed(s, st, k); }
    }
    forall j | 0 <= j < |p.es| ensures Kept(p, s, r, j) {
      if j < i { assert Before(p.es, j, i); } else if i < j { assert Before(p.es, i, j); }
      assert Kept(p, s, st, j);
    }
    assert forall j :: 0 <= j < |p.es| && Done(p, st, j) ==> Done(p, r, j);
  }

  /** The base entry of `i` is resolved. */
  ghost predicate Ready(p: Pack, s: Solution, st: State, i: nat)
    requires Solves(p, s) && i < |p.es|
  {
    assert SolvedAt(p, s, i);
    s.links[i].InPack? ==> Done(p, st, s.links[i].base)
  }

  lemma ReadyFound(p: Pack, s: Solution, st: State, i: nat)
    requires Solves(p, s) && Agrees(p, s, st) && i < |p.es| && IsDelta(p.es[i]) && Ready(p, s, st, i)
    ensures FindBase(p.store, st, p.es[i]).Some?
  {
    assert SolvedAt(p, s, i);
    if s.links[i].InPack? {
      assert Kept(p, s, st, s.links[i].base);
    }
  }

  /** Everything of lateness below `k` is resolved. */
  ghost predicate Upto(p: Pack, s: Solution, st: State, k: nat)
    requires Shaped(p, s)
  {
    forall i :: 0 <= i < |p.es| && s.late[i] < k ==> Done(p, st, i)
  }

  /** Pass `k` resolves lateness `k`: a later base was resolved by the pass before. */
  lemma {:induction false} PassReaches(p: Pack, s: Solution, st: State, k: nat, n: nat)
    requires Ascending(p.es) && Solves(p, s) && Separated(p, s.objs) && Agrees(p, s, st)
    requires Upto(p, s, st, k) && n <= |p.es|
    ensures PassTo(p, st, n).Some? && Agrees(p, s, PassTo(p, st, n).value)
    ensures st.byOffset.Keys <= PassTo(p, st, n).value.byOffset.Keys
    ensures forall i :: 0 <= i < n && s.late[i] <= k ==> Done(p, PassTo(p, st, n).value, i)
  {
    if n > 0 {
      PassReaches(p, s, st, k, n - 1);
      var cur, i := PassTo(p, st, n - 1).value, n - 1;
      VisitAgrees(p, s, cur, i);
      if s.late[i] <= k && IsDelta(p.es[i]) {
        assert Ready(p, s, cur, i) by { LateReady(p, s, st, cur, k, i); }
        ReadyFound(p, s, cur, i);
      }
    }
  }

  lemma LateReady(p: Pack, s: Solution, st: State, cur: State, k: nat, i: nat)
    requires Solves(p, s) && i < |p.es| && s.late[i] <= k
    requires Agrees(p, s, cur) && Upto(p, s, st, k) && st.byOffset.Keys <= cur.byOffset.Keys
    requires forall j :: 0 <= j < i && s.late[j] <= k ==> Done(p, cur, j)
    ensures Ready(p, s, cur, i)
  {
    assert SolvedAt(p, s, i);
    if s.links[i].InPack? {
      var j := s.links[i].base;
      if IsDelta(p.es[j]) && j >= i {
        assert Done(p, st, j);
      }
    }
  }

  lemma {:induction false} PassGrows(p: Pack, st: State, n: nat, m: nat)
    requires n <= m <= |p.es| && PassTo(p, st, m).Some?
    ensures PassTo(p, st, n).Some? && PassTo(p, st, n).value.byOffset.Keys <= PassTo(p, st, m).value.byOffset.Keys
  {
    if n < m {
      PassGrows(p, st, n, m - 1);
    }
  }

  /** A pass that resolves nothing new has nothing left to resolve. */
  lemma {:induction false} FixpointDone(p: Pack, s: Solution, st: State, i: nat)
    requires Ascending(p.es) && Solves(p, s) && Separated(p, s.objs) && Agrees(p, s, st)
    requires PassTo(p, st, |p.es|).Some? && PassTo(p, st, |p.es|).value.byOffset.Keys == st.byOffset.Keys
    requires i < |p.es|
    ensures Done(p, st, i)
    decreases s.late[i], i
  {
    if IsDelta(p.es[i]) {
      assert SolvedAt(p, s, i);
      if s.links[i].InPack? {
        var j := s.links[i].base;
        if IsDelta(p.es[j]) {
          FixpointDone(p, s, st, j);
        }
      }
      FixpointStep(p, s, st, i);
    }
  }

  lemma VisitReady(p: Pack, s: Solution, st: State, i: nat)
    requires Ascending(p.es) && Solves(p, s) && Separated(p, s.objs) && Agrees(p, s, st)
    requires i < |p.es| && IsDelta(p.es[i]) && Ready(p, s, st, i)
    ensures Visit(p, st, p.es[i]).Some? && Done(p, Visit(p, st, p.es[i]).value, i)
  {
    ReadyFound(p, s, st, i);
    VisitAgrees(p, s, st, i);
  }

  lemma FixpointStep(p: Pack, s: Solution, st: State, i: nat)
    requires Ascending(p.es) && Solves(p, s) && Separated(p, s.objs) && Agrees(p, s, st)
    requires PassTo(p, st, |p.es|).Some? && PassTo(p, st, |p.es|).value.byOffset.Keys == st.byOffset.Keys
    requires i < |p.es| && IsDelta(p.es[i]) && Ready(p, s, st, i)
    ensures Done(p, st, i)
  {
    PassReaches(p, s, st, 0, i);
    var cur := PassTo(p, st, i).value;
    assert Ready(p, s, cur, i);
    VisitReady(p, s, cur, i);
    PassGrows(p, st, i + 1, |p.es|);
    assert Done(p, PassTo(p, st, i + 1).value, i);
  }

  lemma FixpointAll(p: Pack, s: Solution, st: State)
    requires Ascending(p.es) && Solves(p, s) && Separated(p, s.objs) && Agrees(p, s, st)
    requires PassTo(p, st, |p.es|).Some? && PassTo(p, st, |p.es|).value.byOffset.Keys == st.byOffset.Keys
    ensures AllResolved(p, PassTo(p, st, |p.es|).value)
  {
    forall i | 0 <= i < |p.es| ensures Done(p, PassTo(p, st, |p.es|).value, i) {
      FixpointDone(p, s, st, i);
    }
  }

  lemma {:induction false} PassesComplete(p: Pack, s: Solution, st: State, k: nat, n: nat)
    requires Ascending(p.es) && Solves(p, s) && Separated(p, s.objs) && Agrees(p, s, st)
    requires Upto(p, s, st, k) && LateBelow(s, k + n)
    ensures Passes(p, st, n).Some? && Agrees(p, s, Passes(p, st, n).value) && AllResolved(p, Passes(p, st, n).value)
    decreases n
  {
    if n == 0 {
      assert forall i :: 0 <= i < |p.es| ==> Done(p, st, i);
    } else {
      PassReaches(p, s, st, k, |p.es|);
      var cur := PassTo(p, st, |p.es|).value;
      if cur.byOffset.Keys == st.byOffset.Keys {
        FixpointAll(p, s, st);
      } else if !AllResolved(p, cur) {
        PassesComplete(p, s, cur, k + 1, n - 1);
      }
    }
  }

  lemma {:induction false} WholesAgree(p: Pack, s: Solution, n: nat)
    requires Ascending(p.es) && Solves(p, s) && n <= |p.es|
    ensures AgreesTo(p, s, Wholes(p, n), n)
  {
    if n > 0 {
      WholesAgree(p, s, n - 1);
      assert SolvedAt(p, s, n - 1);
      RegisterAgrees(p, s, Wholes(p, n - 1), n - 1, n - 1);
    }
  }

  ghost predicate LateBelow(s: Solution, n: nat) {
    forall i :: 0 <= i < |s.late| ==> s.late[i] < n
  }

  /** A pack with a solution of fewer than 50 late links per chain resolves to that solution. */
  lemma ResolveComplete(p: Pack, s: Solution)
    requires Ascending(p.es) && Solves(p, s) && Separated(p, s.objs) && LateBelow(s, MAX_PASSES)
    ensures Resolve(p) == Some(s.objs)
  {
    var st := Wholes(p, |p.es|);
    WholesAgree(p, s, |p.es|);
    assert Agrees(p, s, st);
    PassesComplete(p, s, st, 0, MAX_PASSES);
    var fin := Passes(p, st, MAX_PASSES).value;
    forall i | 0 <= i < |p.es| ensures Collect(p, fin)[i] == s.objs[i] {
      assert Done(p, fin, i) && Kept(p, s, fin, i);
    }
    assert Collect(p, fin) == s.objs;
  }

  // ----- Whatever is found is a solution -----

  /** How a resolved entry was resolved. */
  datatype Mark = Mark(link: Link, late: nat)

  type Marks = map<nat, Mark>

  ghost predicate MarkedAt(p: Pack, st: State, w: Marks, i: nat)
    requires i in w
  {
    i < |p.es| && Done(p, st, i) &&
    var e, o := p.es[i], st.byOffset[p.es[i].offset];
    if w[i].link.Whole? then !IsDelta(e) && o == p.make(e.kind, e.data) && w[i].late == 0
    else if w[i].link.Thin? then
      e.kind == REF_DELTA && e.baseOid in p.store && Derives(p, p.store[e.baseOid], e, o) && w[i].late == 0
    else
      var j := w[i].link.base;
      j in w && j < |p.es| && Done(p, st, j) &&
      var b := st.byOffset[p.es[j].offset];
      Names(p, e, j, b) && Derives(p, b, e, o) && w[i].late == w[j].late + Cost(p, i, j)
  }

  ghost predicate HasOffset(p: Pack, w: Marks, off: int) {
    exists i :: i in w && i < |p.es| && p.es[i].offset == off
  }

  ghost predicate HasObject(p: Pack, st: State, w: Marks, o: RawObject) {
    exists i :: i in w && i < |p.es| && Done(p, st, i) && st.byOffset[p.es[i].offset] == o
  }

  /** In pass `k`, after `n` visits: a delta yet to be visited was resolved in an earlier pass. */
  ghost predicate OnTime(p: Pack, w: Marks, k: nat, n: nat, i: nat)
    requires i in w && i < |p.es|
  {
    w[i].late <= k && (IsDelta(p.es[i]) && i >= n ==> w[i].late < k)
  }

  /** (Lemmas below write `Witnessed(...) == true` where the verifier should carry it as one fact.) */
  ghost predicate Witnessed(p: Pack, st: State, w: Marks, k: nat, n: nat) {
    && (forall i {:trigger MarkedAt(p, st, w, i)} :: i in w ==> MarkedAt(p, st, w, i))
    && (forall i :: i in w ==> i < |p.es|)
    && (forall i {:trigger OnTime(p, w, k, n, i)} :: i in w && i < |p.es| ==> OnTime(p, w, k, n, i))
    && (forall i :: 0 <= i < |p.es| && Done(p, st, i) ==> i in w)
    && (forall off :: off in st.byOffset ==> HasOffset(p, w, off))
    && (forall o :: o in st.byOid ==> HasObject(p, st, w, st.byOid[o]) && st.byOid[o].oid == o)
  }

  /** Resolving a new entry extends the marks. */
  lemma ExtendMarks(p: Pack, st: State, w: Marks, k: nat, n: nat, i: nat, o: RawObject, m: Mark)
    requires Ascending(p.es) && Witnessed(p, st, w, k, n)
    requires i < |p.es| && !Done(p, st, i)
    requires MarkedAt(p, Register(st, p.es[i].offset, o), w[i := m], i) && OnTime(p, w[i := m], k, n, i)
    ensures Witnessed(p, Register(st, p.es[i].offset, o), w[i := m], k, n)
  {
    var r, v := Register(st, p.es[i].offset, o), w[i := m];
    forall j | j in v ensures MarkedAt(p, r, v, j) && OnTime(p, v, k, n, j) {
      if j != i {
        assert MarkedAt(p, st, w, j) && OnTime(p, w, k, n, j);
        OtherOffset(p, i, j);
        if w[j].link.InPack? {
          OtherOffset(p, i, w[j].link.base);
        }
      }
    }
    forall j | 0 <= j < |p.es| && Done(p, r, j) ensures j in v {
      OtherOffset(p, i, j);
      assert j != i ==> Done(p, st, j);
    }
    forall off | off in r.byOffset ensures HasOffset(p, v, off) {
      if off != p.es[i].offset {
        assert HasOffset(p, w, off);
        var j :| j in w && j < |p.es| && p.es[j].offset == off;
        assert j in v;
      } else {
        assert i in v;
      }
    }
    NotMarked(p, st, w, k, n, i);
    ExtendObjects(p, st, w, i, o, m);
  }

  lemma OtherOffset(p: Pack, i: nat, j: nat)
    requires Ascending(p.es) && i < |p.es| && j < |p.es|
    ensures i != j ==> p.es[i].offset != p.es[j].offset
  {
    if i < j { assert Before(p.es, i, j); } else if j < i { assert Before(p.es, j, i); }
  }

  lemma ExtendObjects(p: Pack, st: State, w: Marks, i: nat, o: RawObject, m: Mark)
    requires Ascending(p.es) && i < |p.es| && i !in w
    requires forall k :: k in st.byOid ==> HasObject(p, st, w, st.byOid[k]) && st.byOid[k].oid == k
    ensures var r, v := Register(st, p.es[i].offset, o), w[i := m];
      forall k :: k in r.byOid ==> HasObject(p, r, v, r.byOid[k]) && r.byOid[k].oid == k
  {
    var r, v := Register(st, p.es[i].offset, o), w[i := m];
    forall k | k in r.byOid ensures HasObject(p, r, v, r.byOid[k]) && r.byOid[k].oid == k {
      if k == o.oid {
        assert i in v && Done(p, r, i);
      } else {
        assert HasObject(p, st, w, st.byOid[k]);
        var j :| j in w && j < |p.es| && Done(p, st, j) && st.byOffset[p.es[j].offset] == st.byOid[k];
        OtherOffset(p, i, j);
        assert j in v && Done(p, r, j);
      }
    }
  }

  /** The link an entry was resolved through. */
  lemma FindLink(p: Pack, st: State, w: Marks, k: nat, n: nat, i: nat) returns (m: Mark)
    requires Witnessed(p, st, w, k, n) && i == n < |p.es| && i !in w
    requires IsDelta(p.es[i]) && FindBase(p.store, st, p.es[i]).Some?
    ensures m.late <= k
    ensures m.link.Thin? ==> m.late == 0 && p.es[i].kind == REF_DELTA && p.es[i].baseOid in p.store
    ensures m.link.Thin? ==> FindBase(p.store, st, p.es[i]) == Some(p.store[p.es[i].baseOid])
    ensures m.link.InPack? ==>
      var j := m.link.base;
      j in w && j < |p.es| && Done(p, st, j) && FindBase(p.store, st, p.es[i]) == Some(st.byOffset[p.es[j].offset]) &&
      Names(p, p.es[i], j, st.byOffset[p.es[j].offset]) && m.late == w[j].late + Cost(p, i, j)
    ensures !m.link.Whole?
  {
    var e := p.es[i];
    var j: nat;
    if e.kind == OFS_DELTA {
      assert HasOffset(p, w, e.baseOffset);
      j :| j in w && j < |p.es| && p.es[j].offset == e.baseOffset;
    } else if e.baseOid in st.byOid {
      assert HasObject(p, st, w, st.byOid[e.baseOid]);
      j :| j in w && j < |p.es| && Done(p, st, j) && st.byOffset[p.es[j].offset] == st.byOid[e.baseOid];
    } else {
      return Mark(Thin, 0);
    }
    assert MarkedAt(p, st, w, j) && OnTime(p, w, k, n, j);
    m := Mark(InPack(j), w[j].late + Cost(p, i, j));
  }

  /** The newly registered object carries its mark. */
  lemma MarkVisited(p: Pack, st: State, w: Marks, i: nat, m: Mark)
    requires Ascending(p.es) && i < |p.es| && IsDelta(p.es[i]) && i !in w
    requires FindBase(p.store, st, p.es[i]).Some?
    requires p.apply(FindBase(p.store, st, p.es[i]).value.data, p.es[i].data).Applied?
    requires m.link.Thin? ==> m.late == 0 && p.es[i].kind == REF_DELTA && p.es[i].baseOid in p.store
    requires m.link.Thin? ==> FindBase(p.store, st, p.es[i]) == Some(p.store[p.es[i].baseOid])
    requires m.link.InPack? ==>
      var j := m.link.base;
      j in w && j < |p.es| && Done(p, st, j) && FindBase(p.store, st, p.es[i]) == Some(st.byOffset[p.es[j].offset]) &&
      Names(p, p.es[i], j, st.byOffset[p.es[j].offset]) && m.late == w[j].late + Cost(p, i, j)
    requires !m.link.Whole?
    ensures var b := FindBase(p.store, st, p.es[i]).value;
      MarkedAt(p, Register(st, p.es[i].offset, p.make(b.kind, p.apply(b.data, p.es[i].data).target)), w[i := m], i)
  {
    if m.link.InPack? {
      OtherOffset(p, i, m.link.base);
    }
  }

  lemma VisitWitnessed(p: Pack, st: State, w: Marks, k: nat, n: nat, next: State) returns (v: Marks)
    requires Ascending(p.es) && (Witnessed(p, st, w, k, n) == true) && n < |p.es| && Visit(p, st, p.es[n]) == Some(next)
    ensures Witnessed(p, next, v, k, n + 1) == true
  {
    var e := p.es[n];
    v := w;
    Later(p, st, w, k, n);
    if IsDelta(e) && !Done(p, st, n) && FindBase(p.store, st, e).Some? {
      NotMarked(p, st, w, k, n, n);
      var m := FindLink(p, st, w, k, n, n);
      MarkVisited(p, st, w, n, m);
      var b := FindBase(p.store, st, e).value;
      v := w[n := m];
      ExtendMarks(p, st, w, k, n + 1, n, p.make(b.kind, p.apply(b.data, e.data).target), m);
    }
  }

  lemma NotMarked(p: Pack, st: State, w: Marks, k: nat, n: nat, i: nat)
    requires Witnessed(p, st, w, k, n) && i < |p.es| && !Done(p, st, i)
    ensures i !in w
  {
    assert i in w ==> MarkedAt(p, st, w, i);
  }

  lemma Later(p: Pack, st: State, w: Marks, k: nat, n: nat)
    requires Witnessed(p, st, w, k, n)
    ensures Witnessed(p, st, w, k, n + 1) == true
    ensures Witnessed(p, st, w, k + 1, 0) == true
  {
    forall i | i in w ensures OnTime(p, w, k, n + 1, i) && OnTime(p, w, k + 1, 0, i) {
      assert OnTime(p, w, k, n, i);
    }
  }

  lemma {:induction false} PassWitnessed(p: Pack, st: State, w: Marks, k: nat, n: nat, cur: State) returns (v: Marks)
    requires Ascending(p.es) && (Witnessed(p, st, w, k, 0) == true) && n <= |p.es| && PassTo(p, st, n) == Some(cur)
    ensures Witnessed(p, cur, v, k, n) == true
  {
    if n == 0 {
      v := w;
    } else {
      var before := PassTo(p, st, n - 1).value;
      v := PassWitnessed(p, st, w, k, n - 1, before);
      v := VisitWitnessed(p, before, v, k, n - 1, cur);
    }
  }

  /** A whole pass, from boundary `k` to boundary `k + 1`. */
  lemma WholePass(p: Pack, st: State, w: Marks, k: nat, cur: State) returns (v: Marks)
    requires Ascending(p.es) && (Witnessed(p, st, w, k, 0) == true) && PassTo(p, st, |p.es|) == Some(cur)
    ensures Witnessed(p, cur, v, k + 1, 0) == true
  {
    v := PassWitnessed(p, st, w, k, |p.es|, cur);
    Later(p, cur, v, k, |p.es|);
  }

  lemma {:induction false} PassesWitnessed(p: Pack, st: State, w: Marks, k: nat, n: nat, fin: State) returns (v: Marks)
    requires Ascending(p.es) && (Witnessed(p, st, w, k, 0) == true) && Passes(p, st, n) == Some(fin)
    ensures Witnessed(p, fin, v, k + n, 0) == true
    decreases n
  {
    if fin == st {
      Relax(p, st, w, k, k + n);
      v := w;
    } else {
      var cur := FirstPass(p, st, n, fin);
      v := WholePass(p, st, w, k, cur);
      if cur == fin {
        Relax(p, cur, v, k + 1, k + n);
      } else {
        v := PassesWitnessed(p, cur, v, k + 1, n - 1, fin);
      }
    }
  }

  lemma FirstPass(p: Pack, st: State, n: nat, fin: State) returns (cur: State)
    requires Passes(p, st, n) == Some(fin) && fin != st
    ensures n > 0 && PassTo(p, st, |p.es|) == Some(cur)
    ensures cur == fin || Passes(p, cur, n - 1) == Some(fin)
  {
    cur := PassTo(p, st, |p.es|).value;
  }

  lemma Relax(p: Pack, st: State, w: Marks, k: nat, m: nat)
    requires Witnessed(p, st, w, k, 0) && k <= m
    ensures Witnessed(p, st, w, m, 0)
  {
    forall i | i in w ensures OnTime(p, w, m, 0, i) {
      assert OnTime(p, w, k, 0, i);
    }
  }

  lemma MarkWhole(p: Pack, st: State, w: Marks, n: nat)
    requires Ascending(p.es) && n < |p.es| && !IsDelta(p.es[n])
    requires Witnessed(p, st, w, 0, 0) && forall i :: i in w ==> i < n
    ensures Witnessed(p, Register(st, p.es[n].offset, p.make(p.es[n].kind, p.es[n].data)), w[n := Mark(Whole, 0)], 0, 0)
  {
    var e, m := p.es[n], Mark(Whole, 0);
    var o := p.make(e.kind, e.data);
    assert !Done(p, st, n);
    assert MarkedAt(p, Register(st, e.offset, o), w[n := m], n);
    ExtendMarks(p, st, w, 0, 0, n, o, m);
  }

  lemma {:induction false} WholesWitnessed(p: Pack, n: nat) returns (w: Marks)
    requires Ascending(p.es) && n <= |p.es|
    ensures Witnessed(p, Wholes(p, n), w, 0, 0)
    ensures forall i :: i in w ==> i < n
  {
    w := map[];
    if n > 0 {
      w := WholesWitnessed(p, n - 1);
      if !IsDelta(p.es[n - 1]) {
        MarkWhole(p, Wholes(p, n - 1), w, n - 1);
        w := w[n - 1 := Mark(Whole, 0)];
      }
    }
  }

  /** Whatever resolution returns is a solution with fewer than 50 late links per chain. */
  lemma ResolveSound(p: Pack) returns (s: Solution)
    requires Ascending(p.es) && Resolve(p).Some?
    ensures Solves(p, s) && s.objs == Resolve(p).value && LateBelow(s, MAX_PASSES)
  {
    var st := Wholes(p, |p.es|);
    var w := WholesWitnessed(p, |p.es|);
    var fin := Passes(p, st, MAX_PASSES).value;
    w := PassesWitnessed(p, st, w, 0, MAX_PASSES, fin);
    s := FromMarks(p, fin, w, MAX_PASSES);
  }

  lemma FromMarks(p: Pack, st: State, w: Marks, k: nat) returns (s: Solution)
    requires Witnessed(p, st, w, k, 0) && AllResolved(p, st) && k > 0
    ensures Solves(p, s) && s.objs == Collect(p, st) && LateBelow(s, k)
  {
    assert forall i :: 0 <= i < |p.es| ==> Done(p, st, i) && i in w;
    s := Solution(
      Collect(p, st),
      seq(|p.es|, i requires 0 <= i < |p.es| && i in w => w[i].link),
      seq(|p.es|, i requires 0 <= i < |p.es| && i in w => w[i].late));
    forall i | 0 <= i < |p.es| ensures SolvedAt(p, s, i) && s.late[i] < k {
      assert MarkedAt(p, st, w, i) && OnTime(p, w, k, 0, i);
    }
  }

  /** Resolution succeeds with `objs` exactly when `objs` is a solution within the pass limit. */
  lemma ResolveExact(p: Pack, objs: seq<RawObject>)
    requires Ascending(p.es) && Separated(p, objs)
    ensures Resolve(p) == Some(objs) <==> exists s :: Solves(p, s) && s.objs == objs && LateBelow(s, MAX_PASSES)
  {
    if Resolve(p) == Some(objs) {
      var s := ResolveSound(p);
    }
    if s :| Solves(p, s) && s.objs == objs && LateBelow(s, MAX_PASSES) {
      ResolveComplete(p, s);
    }
  }

  // ----- The loops -----

  ghost function Offsets(es: seq<Entry>): (r: set<int>) {
    set i | 0 <= i < |es| :: es[i].offset as int
  }

  lemma {:induction false} OffsetCount(es: seq<Entry>)
    requires Ascending(es)
    ensures |Offsets(es)| == |es|
  {
    if es != [] {
      var n := |es| - 1;
      var front := es[..n];
      forall i, j | 0 <= i < j < n ensures Before(front, i, j) {
        assert Before(es, i, j);
      }
      OffsetCount(front);
      assert es[n].offset !in Offsets(front) by {
        forall i | 0 <= i < n ensures front[i].offset < es[n].offset {
          assert Before(es, i, n);
        }
      }
      assert Offsets(es) == Offsets(front) + {es[n].offset as int};
    }
  }

  lemma SubsetCount(a: set<int>, b: set<int>)
    requires a <= b
    ensures |a| <= |b| && (|a| == |b| <==> a == b)
  {
    assert b == a + (b - a);
    if |a| == |b| {
      assert b - a == {};
    }
  }

  /** Counting resolved offsets decides whether every entry is resolved. */
  lemma Counted(p: Pack, st: State)
    requires Ascending(p.es) && st.byOffset.Keys <= Offsets(p.es)
    ensures |st.byOffset| <= |p.es|
    ensures |st.byOffset| == |p.es| <==> AllResolved(p, st)
  {
    OffsetCount(p.es);
    assert |st.byOffset| == |st.byOffset.Keys|;
    SubsetCount(st.byOffset.Keys, Offsets(p.es));
    if AllResolved(p, st) {
      forall off | off in Offsets(p.es) ensures off in st.byOffset {
        var i :| 0 <= i < |p.es| && p.es[i].offset == off;
        assert Done(p, st, i);
      }
    }
  }

  method RegisterWholes(p: Pack) returns (st: State)
    ensures st == Wholes(p, |p.es|) && st.byOffset.Keys <= Offsets(p.es)
  {
    st := State(map[], map[]);
    for i := 0 to |p.es|
      invariant st == Wholes(p, i) && st.byOffset.Keys <= Offsets(p.es)
    {
      var e := p.es[i];
      if e.kind != OFS_DELTA && e.kind != REF_DELTA {
        st := Register(st, e.offset, p.make(e.kind, e.data));
      }
    }
  }

  method VisitEntry(p: Pack, st: State, e: Entry) returns (r: Option<State>, progress: bool, panicked: bool)
    ensures r == Visit(p, st, e) && panicked == VisitPanics(p, st, e)
    ensures progress ==>
      r.Some? && e.offset !in st.byOffset && r.value.byOffset.Keys == st.byOffset.Keys + {e.offset as int}
    ensures !progress && r.Some? ==> r.value == st
  {
    if (e.kind != OFS_DELTA && e.kind != REF_DELTA) || e.offset in st.byOffset {
      return Some(st), false, false;
    }
    var base: RawObject;
    if e.kind == OFS_DELTA {
      if e.baseOffset !in st.byOffset {
        return Some(st), false, false;
      }
      base := st.byOffset[e.baseOffset];
    } else if e.baseOid in st.byOid {
      base := st.byOid[e.baseOid];
    } else if e.baseOid in p.store {
      base := p.store[e.baseOid];
    } else {
      return Some(st), false, false;
    }
    var applied := p.apply(base.data, e.data);
    if !applied.Applied? {
      return None, false, applied.Panicked?;
    }
    return Some(Register(st, e.offset, p.make(base.kind, applied.target))), true, false;
  }

  method RunPass(p: Pack, start: State) returns (r: Option<State>, progress: bool, panicked: bool)
    requires start.byOffset.Keys <= Offsets(p.es)
    ensures r == PassTo(p, start, |p.es|) && panicked == PassPanics(p, start, |p.es|)
    ensures r.Some? ==> r.value.byOffset.Keys <= Offsets(p.es)
    ensures r.Some? ==> (progress <==> r.value.byOffset.Keys != start.byOffset.Keys)
  {
    var st := start;
    progress := false;
    for i := 0 to |p.es|
      invariant PassTo(p, start, i) == Some(st)
      invariant start.byOffset.Keys <= st.byOffset.Keys <= Offsets(p.es)
      invariant progress <==> st.byOffset.Keys != start.byOffset.Keys
    {
      var next, moved, stop := VisitEntry(p, st, p.es[i]);
      if next.None? {
        PassStops(p, start, i, |p.es|);
        return None, progress, stop;
      }
      progress := progress || moved;
      st := next.value;
    }
    PassSafe(p, start, |p.es|);
    return Some(st), progress, false;
  }

  method RunPasses(p: Pack, wholes: State) returns (r: Option<State>, panicked: bool)
    requires Ascending(p.es) && wholes.byOffset.Keys <= Offsets(p.es)
    ensures r == Passes(p, wholes, MAX_PASSES) && panicked == PassesPanic(p, wholes, MAX_PASSES)
    ensures r.Some? ==> r.value.byOffset.Keys <= Offsets(p.es)
  {
    var st := wholes;
    for pass := 0 to MAX_PASSES
      invariant st.byOffset.Keys <= Offsets(p.es)
      invariant Passes(p, wholes, MAX_PASSES) == Passes(p, st, MAX_PASSES - pass)
      invariant PassesPanic(p, wholes, MAX_PASSES) == PassesPanic(p, st, MAX_PASSES - pass)
    {
      var next, progress, stop := RunPass(p, st);
      if next.None? {
        return None, stop;
      }
      PassSafe(p, st, |p.es|);
      Counted(p, next.value);
      if |next.value.byOffset| == |p.es| || !progress {
        return next, false;
      }
      st := next.value;
    }
    return Some(st), false;
  }

  method ResolveDeltas(p: Pack) returns (r: Option<seq<RawObject>>, panicked: bool)
    requires Ascending(p.es)
    ensures r == Resolve(p) && panicked == ResolvePanics(p)
  {
    var wholes := RegisterWholes(p);
    var final, stop := RunPasses(p, wholes);
    if final.None? {
      return None, stop;
    }
    PassesSafe(p, wholes, MAX_PASSES);
    var st := final.value;
    Counted(p, st);
    if |st.byOffset| < |p.es| {
      return None, false;
    }
    var result := CollectObjects(p, st);
    return Some(result), false;
  }

  lemma {:induction false} PassesSafe(p: Pack, st: State, n: nat)
    requires Passes(p, st, n).Some?
    ensures !PassesPanic(p, st, n)
    decreases n
  {
    if n > 0 {
      PassSafe(p, st, |p.es|);
      var cur := PassTo(p, st, |p.es|).value;
      if !AllResolved(p, cur) && cur.byOffset.Keys != st.byOffset.Keys { PassesSafe(p, cur, n - 1); }
    }
  }

  method CollectObjects(p: Pack, st: State) returns (result: seq<RawObject>)
    requires AllResolved(p, st)
    ensures result == Collect(p, st)
  {
    result := [];
    for i := 0 to |p.es|
      invariant result == Collect(p, st)[..i]
    {
      assert Done(p, st, i);
      result := result + [st.byOffset[p.es[i].offset]];
    }
  }

  // ----- Special packs -----

  /** Offset deltas name earlier entries, so an offset-only pack is solved without lateness. */
  ghost predicate OffsetOnly(p: Pack) {
    forall i :: 0 <= i < |p.es| && IsDelta(p.es[i]) ==> p.es[i].kind == OFS_DELTA && p.es[i].baseOffset < p.es[i].offset
  }

  /** By offset the state holds the solution's objects: of the whole entries and of the first `n`. */
  ghost predicate OffsetAt(p: Pack, s: Solution, st: State, n: nat, i: nat)
    requires Shaped(p, s) && i < |p.es|
  {
    if i < n || !IsDelta(p.es[i]) then Done(p, st, i) && st.byOffset[p.es[i].offset] == s.objs[i] else !Done(p, st, i)
  }

  ghost predicate OffsetAgrees(p: Pack, s: Solution, st: State, n: nat)
    requires Shaped(p, s)
  {
    forall i :: 0 <= i < |p.es| ==> OffsetAt(p, s, st, n, i)
  }

  lemma {:induction false} WholesByOffset(p: Pack, s: Solution, n: nat, i: nat)
    requires Ascending(p.es) && Solves(p, s) && n <= |p.es| && i < |p.es|
    ensures
      var st := Wholes(p, n);
      if i < n && !IsDelta(p.es[i]) then Done(p, st, i) && st.byOffset[p.es[i].offset] == s.objs[i] else !Done(p, st, i)
    decreases n
  {
    if n > 0 {
      assert SolvedAt(p, s, n - 1);
      WholesByOffset(p, s, n - 1, i);
      assert i < n - 1 ==> Before(p.es, i, n - 1);
      assert n - 1 < i ==> Before(p.es, n - 1, i);
    }
  }

  lemma OffsetStep(p: Pack, s: Solution, st: State, n: nat)
    requires Ascending(p.es) && OffsetOnly(p) && Solves(p, s) && n < |p.es| && OffsetAgrees(p, s, st, n)
    ensures Visit(p, st, p.es[n]).Some? && OffsetAgrees(p, s, Visit(p, st, p.es[n]).value, n + 1)
  {
    assert SolvedAt(p, s, n) && OffsetAt(p, s, st, n, n);
    if IsDelta(p.es[n]) {
      var j := s.links[n].base;
      assert n < j ==> Before(p.es, n, j);
      assert OffsetAt(p, s, st, n, j);
    }
    var next, m := Visit(p, st, p.es[n]).value, n + 1;
    forall i | 0 <= i < |p.es| ensures OffsetAt(p, s, next, m, i) {
      assert OffsetAt(p, s, st, n, i);
      assert i < n ==> Before(p.es, i, n);
      assert n < i ==> Before(p.es, n, i);
    }
  }

  lemma {:induction false} OffsetPass(p: Pack, s: Solution, n: nat)
    requires Ascending(p.es) && OffsetOnly(p) && Solves(p, s) && n <= |p.es|
    ensures PassTo(p, Wholes(p, |p.es|), n).Some? && OffsetAgrees(p, s, PassTo(p, Wholes(p, |p.es|), n).value, n)
  {
    if n == 0 {
      forall i | 0 <= i < |p.es| ensures OffsetAt(p, s, Wholes(p, |p.es|), 0, i) { WholesByOffset(p, s, |p.es|, i); }
    } else {
      OffsetPass(p, s, n - 1);
      OffsetStep(p, s, PassTo(p, Wholes(p, |p.es|), n - 1).value, n - 1);
    }
  }

  /** An offset-only pack is finished by the first pass, however long its chains and whatever its identifiers. */
  lemma OffsetOnlyOnePass(p: Pack, s: Solution)
    requires Ascending(p.es) && OffsetOnly(p) && Solves(p, s)
    ensures PassTo(p, Wholes(p, |p.es|), |p.es|).Some? && AllResolved(p, PassTo(p, Wholes(p, |p.es|), |p.es|).value)
    ensures Resolve(p) == Some(s.objs)
  {
    OffsetPass(p, s, |p.es|);
    var st, cur := Wholes(p, |p.es|), PassTo(p, Wholes(p, |p.es|), |p.es|).value;
    forall i | 0 <= i < |p.es| ensures Done(p, cur, i) && cur.byOffset[p.es[i].offset] == s.objs[i] {
      assert OffsetAt(p, s, cur, |p.es|, i);
    }
    assert Passes(p, st, MAX_PASSES) == Some(cur);
    assert Collect(p, cur) == s.objs;
  }

  /** The entries taken as whole objects, in pack order. */
  function AsWhole(p: Pack): (objs: seq<RawObject>)
    ensures |objs| == |p.es| && forall i :: 0 <= i < |p.es| ==> objs[i] == p.make(p.es[i].kind, p.es[i].data)
  {
    seq(|p.es|, i requires 0 <= i < |p.es| => p.make(p.es[i].kind, p.es[i].data))
  }

  /** A pack without deltas resolves to its entries, whatever their identifiers. */
  lemma ResolveWholes(p: Pack)
    requires Ascending(p.es) && forall i :: 0 <= i < |p.es| ==> !IsDelta(p.es[i])
    ensures Resolve(p) == Some(AsWhole(p))
  {
    var st := Wholes(p, |p.es|);
    WholesOnly(p, |p.es|);
    PassWholes(p, st, |p.es|);
    assert Passes(p, st, MAX_PASSES) == Some(st);
    assert AllResolved(p, st);
    assert Collect(p, st) == AsWhole(p);
  }

  lemma {:induction false} WholesOnly(p: Pack, n: nat)
    requires Ascending(p.es) && n <= |p.es| && forall i :: 0 <= i < |p.es| ==> !IsDelta(p.es[i])
    ensures forall i :: 0 <= i < n ==> Done(p, Wholes(p, n), i)
    ensures forall i :: 0 <= i < n && Done(p, Wholes(p, n), i) ==>
      Wholes(p, n).byOffset[p.es[i].offset] == p.make(p.es[i].kind, p.es[i].data)
  {
    if n > 0 {
      WholesOnly(p, n - 1);
      forall i | 0 <= i < n
        ensures Done(p, Wholes(p, n), i) && Wholes(p, n).byOffset[p.es[i].offset] == p.make(p.es[i].kind, p.es[i].data)
      {
        if i < n - 1 {
          assert Before(p.es, i, n - 1) && Done(p, Wholes(p, n - 1), i);
        }
      }
    }
  }

  lemma {:induction false} PassWholes(p: Pack, st: State, n: nat)
    requires n <= |p.es| && forall i :: 0 <= i < |p.es| ==> !IsDelta(p.es[i])
    ensures PassTo(p, st, n) == Some(st)
  {
    if n > 0 {
      PassWholes(p, st, n - 1);
    }
  }
}
