/**
 The disk cache as a state machine over its file operations.  Readers share a lock, writers and the janitor
 hold it alone, and the remove of an expired file runs later without it.  A file is named by its key.
 */
module DiskCache {
  import opened Octets

  datatype File = File(content: Bytes, mtime: int)

  /** What a run has done that the claims speak about. */
  datatype Event =
    | Started(now: int, ttl: int)                                  // the process started with this TTL
    | Ticked(now: int)                                             // the clock moved on
    | Adopted(ttl: int)                                            // the first positive TTL of a Set was taken over
    | Began(id: nat, key: Bytes)                                   // a reader entered Open
    | Seen(id: nat, key: Bytes, stamp: int)                        // its Stat found the file with this time
    | Checked(id: nat, key: Bytes, stamp: int, at: int, ttl: int)  // it found that time within the TTL
    | Touched(key: Bytes, stamp: int)                              // a reader renewed the file's time
    | Hit(id: nat, key: Bytes, value: Bytes)                       // a reader opened the file
    | Put(key: Bytes, value: Bytes, stamp: int)                    // a new file is in place
    | Deleted(key: Bytes)                                          // an explicit delete
    | Removed(key: Bytes)                                          // the janitor or a delayed remove took the file

  /** Where a reader inside `Open` is; each step between is one file operation or clock reading. */
  datatype Reader =
    | Begun(key: Bytes)
    | Statted(key: Bytes, mtime: int)
    | InTime(key: Bytes)
    | Touching(key: Bytes, now: int)
    | Opening(key: Bytes)

  datatype Writer = Nobody | Putting(key: Bytes, value: Bytes, since: int) | Sweeping(now: int)

  datatype State = State(
    clock: int, ttl: int, files: map<Bytes, File>, readers: map<nat, Reader>, writer: Writer,
    pending: multiset<Bytes>, log: seq<Event>)

  function Init(clock: int, ttl: int): (s: State) {
    State(clock, ttl, map[], map[], Nobody, multiset{}, [Started(clock, ttl)])
  }

  /** One atomic step; `ok` says whether the operating system's call succeeds. */
  datatype Action =
    | Tick(now: int)
    | Restart(ttl: int)
    | AdoptTTL(ttl: int)
    | Begin(id: nat, key: Bytes)
    | Stat(id: nat)
    | Check(id: nat)
    | ReadClock(id: nat)
    | Chtimes(id: nat, ok: bool)
    | OpenFile(id: nat, ok: bool)
    | BeginPut(key: Bytes, value: Bytes)
    | EndPut(ok: bool, stamp: int)
    | Delete(key: Bytes, ok: bool)
    | BeginSweep
    | SweepFile(key: Bytes, ok: bool)
    | EndSweep
    | RunPending(key: Bytes, ok: bool)

  predicate Unlocked(s: State) {
    s.writer == Nobody && s.readers == map[]
  }

  predicate Enabled(s: State, a: Action) {
    match a
    case Tick(now) => s.clock <= now
    case Restart(ttl) => true
    case AdoptTTL(ttl) => ttl > 0 && s.ttl <= 0
    case Begin(id, key) => s.writer == Nobody && id !in s.readers
    case Stat(id) => id in s.readers && s.readers[id].Begun?
    case Check(id) => id in s.readers && s.readers[id].Statted?
    case ReadClock(id) => id in s.readers && s.readers[id].InTime?
    case Chtimes(id, ok) => id in s.readers && s.readers[id].Touching?
    case OpenFile(id, ok) => id in s.readers && s.readers[id].Opening?
    case BeginPut(key, value) => Unlocked(s)
    case EndPut(ok, stamp) => s.writer.Putting? && s.writer.since <= stamp <= s.clock
    case Delete(key, ok) => Unlocked(s)
    case BeginSweep => Unlocked(s) && s.ttl > 0
    case SweepFile(key, ok) => s.writer.Sweeping? && key in s.files && s.writer.now - s.files[key].mtime > s.ttl
    case EndSweep => s.writer.Sweeping?
    case RunPending(key, ok) => key in s.pending
  }

  function Log(s: State, e: Event): (r: State) {
    s.(log := s.log + [e])
  }

  function SetReader(s: State, id: nat, r: Reader): (t: State) {
    s.(readers := s.readers[id := r])
  }

  function Leave(s: State, id: nat): (r: State) {
    s.(readers := s.readers - {id})
  }

  /** The file is unlinked, if it is there. */
  function Unlink(s: State, key: Bytes): (r: State) {
    if key in s.files then Log(s.(files := s.files - {key}), Removed(key)) else s
  }

  function Next(s: State, a: Action): (r: State)
    requires Enabled(s, a)
  {
    match a
    case Tick(now) => Log(s.(clock := now), Ticked(now))
    case Restart(ttl) =>
      Log(s.(ttl := ttl, readers := map[], writer := Nobody, pending := multiset{}), Started(s.clock, ttl))
    case AdoptTTL(ttl) => Log(s.(ttl := ttl), Adopted(ttl))
    case Begin(id, key) => SetReader(Log(s, Began(id, key)), id, Begun(key))
    case Stat(id) =>
      var key := s.readers[id].key;
      if key !in s.files then Leave(s, id)
      else SetReader(Log(s, Seen(id, key, s.files[key].mtime)), id, Statted(key, s.files[key].mtime))
    case Check(id) =>
      var key, mtime := s.readers[id].key, s.readers[id].mtime;
      if s.ttl > 0 && s.clock - mtime > s.ttl then Leave(s, id).(pending := s.pending + multiset{key})
      else SetReader(Log(s, Checked(id, key, mtime, s.clock, s.ttl)), id, InTime(key))
    case ReadClock(id) => SetReader(s, id, Touching(s.readers[id].key, s.clock))
    case Chtimes(id, ok) =>
      var key, now := s.readers[id].key, s.readers[id].now;
      var next := SetReader(s, id, Opening(key));
      if ok && key in s.files then Log(next.(files := s.files[key := s.files[key].(mtime := now)]), Touched(key, now))
      else next
    case OpenFile(id, ok) =>
      var key := s.readers[id].key;
      if ok && key in s.files then Log(Leave(s, id), Hit(id, key, s.files[key].content)) else Leave(s, id)
    case BeginPut(key, value) => s.(writer := Putting(key, value, s.clock))
    case EndPut(ok, stamp) =>
      var key, value := s.writer.key, s.writer.value;
      if ok then Log(s.(writer := Nobody, files := s.files[key := File(value, stamp)]), Put(key, value, stamp))
      else s.(writer := Nobody)
    case Delete(key, ok) => if ok then Log(s.(files := s.files - {key}), Deleted(key)) else s
    case BeginSweep => s.(writer := Sweeping(s.clock))
    case SweepFile(key, ok) => if ok then Unlink(s, key) else s
    case EndSweep => s.(writer := Nobody)
    case RunPending(key, ok) =>
      var next := s.(pending := s.pending - multiset{key});
      if ok then Unlink(next, key) else next
  }

  /** The actions are enabled one after the other. */
  predicate IsRun(s: State, acts: seq<Action>)
    decreases acts
  {
    acts == [] || (Enabled(s, acts[0]) && IsRun(Next(s, acts[0]), acts[1..]))
  }

  function Run(s: State, acts: seq<Action>): (r: State)
    requires IsRun(s, acts)
    decreases acts
  {
    if acts == [] then s else Run(Next(s, acts[0]), acts[1..])
  }

  // The history's account of a key.

  /** The clock after these events. */
  function ClockOf(log: seq<Event>): (t: int) {
    if log == [] then 0
    else
      var e := log[|log| - 1];
      if e.Started? || e.Ticked? then e.now else ClockOf(log[..|log| - 1])
  }

  /** The TTL in force after these events. */
  function TtlOf(log: seq<Event>): (t: int) {
    if log == [] then 0
    else
      var e := log[|log| - 1];
      if e.Started? || e.Adopted? then e.ttl else TtlOf(log[..|log| - 1])
  }

  predicate Changes(e: Event, key: Bytes) {
    (e.Put? || e.Deleted?) && e.key == key
  }

  /** The value of the latest successful Put, unless a delete came after it. */
  function LatestPut(log: seq<Event>, key: Bytes): (v: Option<Bytes>) {
    if log == [] then None
    else
      var e := log[|log| - 1];
      if !Changes(e, key) then LatestPut(log[..|log| - 1], key) else if e.Put? then Some(e.value) else None
  }

  /** The latest event that put, deleted or removed the key's file put it. */
  predicate Standing(log: seq<Event>, key: Bytes) {
    if log == [] then false
    else
      var e := log[|log| - 1];
      if !Changes(e, key) && e != Removed(key) then Standing(log[..|log| - 1], key) else e.Put?
  }

  /** The event sets the time of the key's file. */
  predicate Stamps(e: Event, key: Bytes) {
    (e.Put? || e.Touched?) && e.key == key
  }

  /** Event `m` is the latest that set the time of the key's file, to `stamp`, and no delete came after it. */
  ghost predicate StampedAt(log: seq<Event>, m: nat, key: Bytes, stamp: int) {
    && m < |log| && Stamps(log[m], key) && log[m].stamp == stamp
    && forall k :: m < k < |log| ==> !Stamps(log[k], key) && log[k] != Deleted(key)
  }

  ghost predicate Stamped(log: seq<Event>, key: Bytes, stamp: int) {
    exists m: nat :: StampedAt(log, m, key, stamp)
  }

  /** The event opens or closes a stay of the reader in Open. */
  predicate Bounds(e: Event, id: nat) {
    (e.Began? || e.Hit?) && e.id == id
  }

  /** Event `b` began the reader's present stay in Open, which has not hit yet. */
  ghost predicate BeganAt(log: seq<Event>, b: nat, id: nat, key: Bytes) {
    b < |log| && log[b] == Began(id, key) && forall k :: b < k < |log| ==> !Bounds(log[k], id)
  }

  /**
   In that stay, event `t` is the reader's Stat.  It saw the time that event `m`, the latest to set it, had set,
   and the file has been neither replaced nor deleted since.
   */
  ghost predicate SeenAt(log: seq<Event>, b: nat, m: nat, t: nat, id: nat, key: Bytes, stamp: int) {
    && BeganAt(log, b, id, key) && b < t < |log| && log[t] == Seen(id, key, stamp)
    && StampedAt(log[..t], m, key, stamp) && forall k :: m < k < |log| ==> !Changes(log[k], key)
  }

  /** Later in that stay, event `j` found that time within the TTL, by the clock and TTL of that moment. */
  ghost predicate CheckedAt(log: seq<Event>, b: nat, m: nat, t: nat, j: nat, id: nat, key: Bytes) {
    && t < j < |log| && log[j].Checked? && log[j].id == id && log[j].key == key
    && SeenAt(log, b, m, t, id, key, log[j].stamp)
    && log[j].at == ClockOf(log[..j]) && log[j].ttl == TtlOf(log[..j])
    && (log[j].ttl > 0 ==> log[j].at - log[j].stamp <= log[j].ttl)
  }

  ghost predicate HasSeen(log: seq<Event>, id: nat, key: Bytes, stamp: int) {
    exists b: nat, m: nat, t: nat :: SeenAt(log, b, m, t, id, key, stamp)
  }

  ghost predicate Ready(log: seq<Event>, id: nat, key: Bytes) {
    exists b: nat, m: nat, t: nat, j: nat :: CheckedAt(log, b, m, t, j, id, key)
  }

  /**
   The hit returned the latest successful Put, and in the same stay in Open the reader had found the file's last
   touch within the TTL.
   */
  ghost predicate GoodHit(log: seq<Event>, i: nat)
    requires i < |log|
  {
    log[i].Hit? ==>
      LatestPut(log[..i], log[i].key) == Some(log[i].value) && Ready(log[..i], log[i].id, log[i].key)
  }

  ghost predicate GoodHits(log: seq<Event>) {
    forall i :: 0 <= i < |log| ==> GoodHit(log, i)
  }

  // The invariant.

  ghost predicate FileOk(log: seq<Event>, key: Bytes, f: File) {
    LatestPut(log, key) == Some(f.content) && Stamped(log, key, f.mtime)
  }

  ghost predicate HasBegun(log: seq<Event>, id: nat, key: Bytes) {
    exists b: nat :: BeganAt(log, b, id, key)
  }

  ghost predicate ReaderOk(log: seq<Event>, id: nat, r: Reader) {
    match r
    case Begun(key) => HasBegun(log, id, key)
    case Statted(key, mtime) => HasSeen(log, id, key, mtime)
    case InTime(key) => Ready(log, id, key)
    case Touching(key, _) => Ready(log, id, key)
    case Opening(key) => Ready(log, id, key)
  }

  ghost predicate FilesOk(s: State) {
    forall key :: key in s.files ==> FileOk(s.log, key, s.files[key])
  }

  ghost predicate ReadersOk(s: State) {
    forall id :: id in s.readers ==> ReaderOk(s.log, id, s.readers[id])
  }

  ghost predicate StandingOk(s: State, key: Bytes) {
    key in s.files <==> Standing(s.log, key)
  }

  ghost predicate TimesOk(s: State) {
    s.clock == ClockOf(s.log) && s.ttl == TtlOf(s.log)
  }

  ghost predicate Inv(s: State) {
    && FilesOk(s) && ReadersOk(s) && (s.writer != Nobody ==> s.readers == map[]) && GoodHits(s.log) && TimesOk(s)
    && forall key :: StandingOk(s, key)
  }

  // One more event.

  lemma Snoc(log: seq<Event>, e: Event)
    ensures (log + [e])[..|log|] == log && (log + [e])[|log|] == e
  {
  }

  lemma LatestPutSnoc(log: seq<Event>, e: Event, key: Bytes)
    ensures LatestPut(log + [e], key) ==
      if !Changes(e, key) then LatestPut(log, key) else if e.Put? then Some(e.value) else None
    ensures Standing(log + [e], key) == if !Changes(e, key) && e != Removed(key) then Standing(log, key) else e.Put?
  {
    Snoc(log, e);
  }

  lemma TimesSnoc(log: seq<Event>, e: Event)
    ensures ClockOf(log + [e]) == if e.Started? || e.Ticked? then e.now else ClockOf(log)
    ensures TtlOf(log + [e]) == if e.Started? || e.Adopted? then e.ttl else TtlOf(log)
  {
    Snoc(log, e);
  }

  lemma StampedSnoc(log: seq<Event>, e: Event, key: Bytes, stamp: int)
    requires Stamped(log, key, stamp) && !Changes(e, key) && !Stamps(e, key)
    ensures Stamped(log + [e], key, stamp)
  {
    var m: nat :| StampedAt(log, m, key, stamp);
    assert StampedAt(log + [e], m, key, stamp);
  }

  lemma BeganSnoc(log: seq<Event>, e: Event, b: nat, id: nat, key: Bytes)
    requires BeganAt(log, b, id, key) && !Bounds(e, id)
    ensures BeganAt(log + [e], b, id, key)
  {
  }

  lemma SeenSnoc(log: seq<Event>, e: Event, b: nat, m: nat, t: nat, id: nat, key: Bytes, stamp: int)
    requires SeenAt(log, b, m, t, id, key, stamp) && !Bounds(e, id) && !Changes(e, key)
    ensures SeenAt(log + [e], b, m, t, id, key, stamp)
  {
    BeganSnoc(log, e, b, id, key);
    assert (log + [e])[..t] == log[..t];
  }

  lemma ReadySnoc(log: seq<Event>, e: Event, id: nat, key: Bytes)
    requires Ready(log, id, key) && !Bounds(e, id) && !Changes(e, key)
    ensures Ready(log + [e], id, key)
  {
    var b: nat, m: nat, t: nat, j: nat :| CheckedAt(log, b, m, t, j, id, key);
    SeenSnoc(log, e, b, m, t, id, key, log[j].stamp);
    assert (log + [e])[..j] == log[..j];
    assert CheckedAt(log + [e], b, m, t, j, id, key);
  }

  lemma FileSnoc(log: seq<Event>, e: Event, key: Bytes, f: File)
    requires FileOk(log, key, f) && !Changes(e, key) && !Stamps(e, key)
    ensures FileOk(log + [e], key, f)
  {
    LatestPutSnoc(log, e, key);
    StampedSnoc(log, e, key, f.mtime);
  }

  lemma ReaderSnoc(log: seq<Event>, e: Event, id: nat, r: Reader)
    requires ReaderOk(log, id, r) && !Bounds(e, id) && !Changes(e, r.key)
    ensures ReaderOk(log + [e], id, r)
  {
    if r.Begun? {
      var b: nat :| BeganAt(log, b, id, r.key);
      BeganSnoc(log, e, b, id, r.key);
    } else if r.Statted? {
      var b: nat, m: nat, t: nat :| SeenAt(log, b, m, t, id, r.key, r.mtime);
      SeenSnoc(log, e, b, m, t, id, r.key, r.mtime);
    } else {
      ReadySnoc(log, e, id, r.key);
    }
  }

  lemma GoodSnoc(log: seq<Event>, e: Event)
    requires GoodHits(log)
    requires e.Hit? ==> LatestPut(log, e.key) == Some(e.value) && Ready(log, e.id, e.key)
    ensures GoodHits(log + [e])
  {
    var more := log + [e];
    forall i | 0 <= i < |more| ensures GoodHit(more, i) {
      if i < |log| {
        assert GoodHit(log, i) && more[..i] == log[..i];
      } else {
        assert more[..i] == log;
      }
    }
  }

  /** The readers go on, when the event is not about them and changes no file under them. */
  lemma ReadersSnoc(s: State, e: Event)
    requires ReadersOk(s)
    requires forall id :: id in s.readers ==> !Bounds(e, id)
    requires (e.Put? || e.Deleted?) ==> s.readers == map[]
    ensures ReadersOk(Log(s, e))
  {
    forall id | id in s.readers ensures ReaderOk(s.log + [e], id, s.readers[id]) {
      assert ReaderOk(s.log, id, s.readers[id]);
      ReaderSnoc(s.log, e, id, s.readers[id]);
    }
  }

  /** Logging an event that concerns no file and no reader in Open; the clock and the TTL follow it. */
  lemma LogQuiet(s: State, e: Event)
    requires Inv(s) && (forall id :: id in s.readers ==> !Bounds(e, id))
    requires !e.Put? && !e.Deleted? && !e.Removed? && !e.Touched?
    requires e.Hit? ==> LatestPut(s.log, e.key) == Some(e.value) && Ready(s.log, e.id, e.key)
    ensures Inv(Log(s, e).(clock := ClockOf(s.log + [e]), ttl := TtlOf(s.log + [e])))
  {
    var r := Log(s, e).(clock := ClockOf(s.log + [e]), ttl := TtlOf(s.log + [e]));
    GoodSnoc(s.log, e);
    ReadersSnoc(s, e);
    forall key | key in r.files ensures FileOk(r.log, key, r.files[key]) {
      assert FileOk(s.log, key, s.files[key]);
      FileSnoc(s.log, e, key, s.files[key]);
    }
    forall key ensures StandingOk(r, key) {
      assert StandingOk(s, key);
      LatestPutSnoc(s.log, e, key);
    }
  }

  /** An event that leaves the clock and the TTL. */
  lemma LogEvent(s: State, e: Event)
    requires Inv(s) && (forall id :: id in s.readers ==> !Bounds(e, id))
    requires !e.Put? && !e.Deleted? && !e.Removed? && !e.Touched? && !e.Started? && !e.Ticked? && !e.Adopted?
    requires e.Hit? ==> LatestPut(s.log, e.key) == Some(e.value) && Ready(s.log, e.id, e.key)
    ensures Inv(Log(s, e))
  {
    TimesSnoc(s.log, e);
    LogQuiet(s, e);
  }

  /** Logging an event about the file of one key, which changes as the event says. */
  lemma LogFile(s: State, e: Event, files: map<Bytes, File>)
    requires Inv(s) && (e.Put? || e.Deleted? || e.Removed? || e.Touched?)
    requires (e.Put? || e.Deleted?) ==> s.readers == map[]
    requires files - {e.key} == s.files - {e.key}
    requires e.key in files <==> Standing(s.log + [e], e.key)
    requires e.key in files ==> FileOk(s.log + [e], e.key, files[e.key])
    ensures Inv(Log(s.(files := files), e))
  {
    var r := Log(s.(files := files), e);
    GoodSnoc(s.log, e);
    ReadersSnoc(s, e);
    TimesSnoc(s.log, e);
    forall key | key in files ensures FileOk(r.log, key, files[key]) {
      if key != e.key {
        assert key in files - {e.key} && (files - {e.key})[key] == (s.files - {e.key})[key];
        assert FileOk(s.log, key, s.files[key]);
        FileSnoc(s.log, e, key, s.files[key]);
      }
    }
    forall key ensures StandingOk(r, key) {
      assert StandingOk(s, key);
      LatestPutSnoc(s.log, e, key);
      assert key != e.key ==>
        (key in files <==> key in files - {e.key}) && (key in s.files <==> key in s.files - {e.key});
    }
  }

  lemma SetReaderOk(s: State, id: nat, r: Reader)
    requires Inv(s) && s.writer == Nobody && ReaderOk(s.log, id, r)
    ensures Inv(SetReader(s, id, r))
  {
    var n := SetReader(s, id, r);
    forall k | k in n.readers ensures ReaderOk(n.log, k, n.readers[k]) {
      assert k != id ==> ReaderOk(s.log, k, s.readers[k]);
    }
    forall key ensures StandingOk(n, key) { assert StandingOk(s, key); }
  }

  lemma LeaveOk(s: State, id: nat)
    requires Inv(s) && s.writer == Nobody
    ensures Inv(Leave(s, id))
  {
    var n := Leave(s, id);
    forall k | k in n.readers ensures ReaderOk(n.log, k, n.readers[k]) {
      assert ReaderOk(s.log, k, s.readers[k]);
    }
    forall key ensures StandingOk(n, key) { assert StandingOk(s, key); }
  }

  lemma UnlinkOk(s: State, key: Bytes)
    requires Inv(s)
    ensures Inv(Unlink(s, key))
  {
    if key in s.files {
      var e := Removed(key);
      LatestPutSnoc(s.log, e, key);
      assert (s.files - {key}) - {key} == s.files - {key};
      LogFile(s, e, s.files - {key});
    }
  }

  /** Fields the invariant does not speak of. */
  lemma SetOther(s: State, w: Writer, pending: multiset<Bytes>)
    requires Inv(s) && (w != Nobody ==> s.readers == map[])
    ensures Inv(s.(writer := w, pending := pending))
  {
    var n := s.(writer := w, pending := pending);
    forall key ensures StandingOk(n, key) { assert StandingOk(s, key); }
  }

  // Every step.

  lemma TimeStep(s: State, a: Action)
    requires Inv(s) && Enabled(s, a) && (a.Tick? || a.Restart? || a.AdoptTTL?)
    ensures Inv(Next(s, a))
  {
    match a
    case Tick(now) =>
      TimesSnoc(s.log, Ticked(now));
      LogQuiet(s, Ticked(now));
    case AdoptTTL(ttl) =>
      TimesSnoc(s.log, Adopted(ttl));
      LogQuiet(s, Adopted(ttl));
    case Restart(ttl) =>
      var r := s.(readers := map[], writer := Nobody, pending := multiset{});
      forall key ensures StandingOk(r, key) { assert StandingOk(s, key); }
      TimesSnoc(s.log, Started(s.clock, ttl));
      LogQuiet(r, Started(s.clock, ttl));
  }

  lemma BeginStep(s: State, id: nat, key: Bytes)
    requires Inv(s) && Enabled(s, Begin(id, key))
    ensures Inv(Next(s, Begin(id, key)))
  {
    var e := Began(id, key);
    LogEvent(s, e);
    assert BeganAt(s.log + [e], |s.log|, id, key);
    SetReaderOk(Log(s, e), id, Begun(key));
  }

  lemma StatStep(s: State, id: nat)
    requires Inv(s) && Enabled(s, Stat(id))
    ensures Inv(Next(s, Stat(id)))
  {
    var key := s.readers[id].key;
    if key !in s.files {
      LeaveOk(s, id);
    } else {
      var stamp := s.files[key].mtime;
      var e := Seen(id, key, stamp);
      LogEvent(s, e);
      assert ReaderOk(s.log, id, s.readers[id]) && FileOk(s.log, key, s.files[key]);
      var b: nat :| BeganAt(s.log, b, id, key);
      var m: nat :| StampedAt(s.log, m, key, stamp);
      BeganSnoc(s.log, e, b, id, key);
      Snoc(s.log, e);
      assert SeenAt(s.log + [e], b, m, |s.log|, id, key, stamp);
      SetReaderOk(Log(s, e), id, Statted(key, stamp));
    }
  }

  lemma CheckStep(s: State, id: nat)
    requires Inv(s) && Enabled(s, Check(id))
    ensures Inv(Next(s, Check(id)))
  {
    var key, mtime := s.readers[id].key, s.readers[id].mtime;
    if s.ttl > 0 && s.clock - mtime > s.ttl {
      LeaveOk(s, id);
      SetOther(Leave(s, id), Nobody, s.pending + multiset{key});
    } else {
      var e := Checked(id, key, mtime, s.clock, s.ttl);
      LogEvent(s, e);
      assert ReaderOk(s.log, id, s.readers[id]);
      var b: nat, m: nat, t: nat :| SeenAt(s.log, b, m, t, id, key, mtime);
      SeenSnoc(s.log, e, b, m, t, id, key, mtime);
      Snoc(s.log, e);
      assert CheckedAt(s.log + [e], b, m, t, |s.log|, id, key);
      SetReaderOk(Log(s, e), id, InTime(key));
    }
  }

  lemma ChtimesStep(s: State, id: nat, ok: bool)
    requires Inv(s) && Enabled(s, Chtimes(id, ok))
    ensures Inv(Next(s, Chtimes(id, ok)))
  {
    var key, now := s.readers[id].key, s.readers[id].now;
    assert ReaderOk(s.log, id, s.readers[id]);
    SetReaderOk(s, id, Opening(key));
    if ok && key in s.files {
      var e, f := Touched(key, now), s.files[key].(mtime := now);
      assert FileOk(s.log, key, s.files[key]) && StandingOk(s, key);
      LatestPutSnoc(s.log, e, key);
      assert StampedAt(s.log + [e], |s.log|, key, now);
      assert s.files[key := f] - {key} == s.files - {key};
      LogFile(SetReader(s, id, Opening(key)), e, s.files[key := f]);
    }
  }

  lemma OpenStep(s: State, id: nat, ok: bool)
    requires Inv(s) && Enabled(s, OpenFile(id, ok))
    ensures Inv(Next(s, OpenFile(id, ok)))
  {
    var key := s.readers[id].key;
    LeaveOk(s, id);
    if ok && key in s.files {
      assert ReaderOk(s.log, id, s.readers[id]) && FileOk(s.log, key, s.files[key]);
      LogEvent(Leave(s, id), Hit(id, key, s.files[key].content));
    }
  }

  lemma EndPutStep(s: State, ok: bool, stamp: int)
    requires Inv(s) && Enabled(s, EndPut(ok, stamp))
    ensures Inv(Next(s, EndPut(ok, stamp)))
  {
    SetOther(s, Nobody, s.pending);
    if ok {
      var key, f := s.writer.key, File(s.writer.value, stamp);
      var e := Put(key, f.content, stamp);
      LatestPutSnoc(s.log, e, key);
      assert StampedAt(s.log + [e], |s.log|, key, stamp);
      assert s.files[key := f] - {key} == s.files - {key};
      LogFile(s.(writer := Nobody), e, s.files[key := f]);
    }
  }

  lemma DeleteStep(s: State, key: Bytes, ok: bool)
    requires Inv(s) && Enabled(s, Delete(key, ok))
    ensures Inv(Next(s, Delete(key, ok)))
  {
    if ok {
      var e := Deleted(key);
      LatestPutSnoc(s.log, e, key);
      assert (s.files - {key}) - {key} == s.files - {key};
      LogFile(s, e, s.files - {key});
    }
  }

  lemma NextInv(s: State, a: Action)
    requires Inv(s) && Enabled(s, a)
    ensures Inv(Next(s, a))
  {
    match a
    case Begin(id, key) => BeginStep(s, id, key);
    case Stat(id) => StatStep(s, id);
    case Check(id) => CheckStep(s, id);
    case ReadClock(id) =>
      assert ReaderOk(s.log, id, s.readers[id]);
      SetReaderOk(s, id, Touching(s.readers[id].key, s.clock));
    case Chtimes(id, ok) => ChtimesStep(s, id, ok);
    case OpenFile(id, ok) => OpenStep(s, id, ok);
    case BeginPut(key, value) => SetOther(s, Putting(key, value, s.clock), s.pending);
    case EndPut(ok, stamp) => EndPutStep(s, ok, stamp);
    case Delete(key, ok) => DeleteStep(s, key, ok);
    case BeginSweep => SetOther(s, Sweeping(s.clock), s.pending);
    case SweepFile(key, ok) => UnlinkOk(s, key);
    case EndSweep => SetOther(s, Nobody, s.pending);
    case RunPending(key, ok) =>
      SetOther(s, s.writer, s.pending - multiset{key});
      UnlinkOk(s.(pending := s.pending - multiset{key}), key);
    case _ => TimeStep(s, a);
  }

  lemma {:induction false} RunInv(s: State, acts: seq<Action>)
    requires Inv(s) && IsRun(s, acts)
    ensures Inv(Run(s, acts))
    decreases acts
  {
    if acts != [] {
      NextInv(s, acts[0]);
      RunInv(Next(s, acts[0]), acts[1..]);
    }
  }

  lemma InitInv(clock: int, ttl: int)
    ensures Inv(Init(clock, ttl))
  {
    var log := [Started(clock, ttl)];
    assert log == [] + [Started(clock, ttl)];
    TimesSnoc([], Started(clock, ttl));
    forall key ensures !Standing(log, key) { LatestPutSnoc([], Started(clock, ttl), key); }
  }

  /**
   In every interleaving, restarts included, every hit returns the value of the latest successful Put for its key,
   not deleted since, and the reader had, in the same stay in Open, found the file's last touch within the TTL.
   */
  lemma HitsAreLatest(clock: int, ttl: int, acts: seq<Action>)
    requires IsRun(Init(clock, ttl), acts)
    ensures GoodHits(Run(Init(clock, ttl), acts).log)
  {
    InitInv(clock, ttl);
    RunInv(Init(clock, ttl), acts);
  }

  // When a file is there.

  /** A key has a file exactly when nothing deleted or removed it since its latest Put. */
  lemma PresentExactly(clock: int, ttl: int, acts: seq<Action>, key: Bytes)
    requires IsRun(Init(clock, ttl), acts)
    ensures key in Run(Init(clock, ttl), acts).files <==> Standing(Run(Init(clock, ttl), acts).log, key)
  {
    InitInv(clock, ttl);
    RunInv(Init(clock, ttl), acts);
    assert StandingOk(Run(Init(clock, ttl), acts), key);
  }

  /** A file of this time has not outlived the TTL. */
  predicate Young(s: State, stamp: int) {
    s.ttl > 0 ==> s.clock - stamp <= s.ttl
  }

  /** The file stays young all along and nobody deletes the key. */
  predicate YoungRun(s: State, acts: seq<Action>, key: Bytes, stamp: int)
    requires IsRun(s, acts)
    decreases acts
  {
    Young(s, stamp)
    && (acts == [] || (!(acts[0].Delete? && acts[0].key == key) && YoungRun(Next(s, acts[0]), acts[1..], key, stamp)))
  }

  /** Nobody knows the key's file by a time before `stamp`. */
  predicate LateReader(r: Reader, key: Bytes, stamp: int) {
    r.key == key ==> (r.Statted? ==> stamp <= r.mtime) && (r.Touching? ==> stamp <= r.now)
  }

  ghost predicate Kept(s: State, key: Bytes, stamp: int) {
    && key in s.files && stamp <= s.files[key].mtime && stamp <= s.clock && key !in s.pending
    && (forall id :: id in s.readers ==> LateReader(s.readers[id], key, stamp))
    && (s.writer.Putting? ==> stamp <= s.writer.since) && (s.writer.Sweeping? ==> s.writer.now <= s.clock && s.ttl > 0)
  }

  /** No step of a reader makes anybody know the file by an earlier time. */
  lemma LateNext(s: State, a: Action, key: Bytes, stamp: int)
    requires Kept(s, key, stamp) && Enabled(s, a)
    ensures var t := Next(s, a); forall id :: id in t.readers ==> LateReader(t.readers[id], key, stamp)
  {
    var t := Next(s, a);
    forall id | id in t.readers ensures LateReader(t.readers[id], key, stamp) {
      assert id in s.readers ==> LateReader(s.readers[id], key, stamp);
    }
  }

  lemma KeptRead(s: State, a: Action, key: Bytes, stamp: int)
    requires Kept(s, key, stamp) && Enabled(s, a) && Young(s, stamp) && (a.Check? || a.Chtimes?)
    ensures Kept(Next(s, a), key, stamp)
  {
    LateNext(s, a, key, stamp);
    assert LateReader(s.readers[a.id], key, stamp);
  }

  /** Sweeps and delayed removes take other files only, and a Put of the key brings a later time. */
  lemma KeptWrite(s: State, a: Action, key: Bytes, stamp: int)
    requires Kept(s, key, stamp) && Enabled(s, a) && Young(s, stamp) && (a.EndPut? || a.SweepFile? || a.RunPending?)
    ensures Kept(Next(s, a), key, stamp)
  {
    LateNext(s, a, key, stamp);
  }

  lemma KeptNext(s: State, a: Action, key: Bytes, stamp: int)
    requires Kept(s, key, stamp) && Enabled(s, a) && Young(s, stamp) && !(a.Delete? && a.key == key)
    ensures Kept(Next(s, a), key, stamp)
  {
    if a.Check? || a.Chtimes? {
      KeptRead(s, a, key, stamp);
    } else if a.EndPut? || a.SweepFile? || a.RunPending? {
      KeptWrite(s, a, key, stamp);
    } else {
      LateNext(s, a, key, stamp);
    }
  }

  lemma {:induction false} KeptRun(s: State, acts: seq<Action>, key: Bytes, stamp: int)
    requires Kept(s, key, stamp) && IsRun(s, acts) && YoungRun(s, acts, key, stamp)
    ensures key in Run(s, acts).files
    decreases acts
  {
    if acts != [] {
      KeptNext(s, acts[0], key, stamp);
      KeptRun(Next(s, acts[0]), acts[1..], key, stamp);
    }
  }

  /** The file survives every further run in which it stays young and is not deleted. */
  ghost predicate Survives(s: State, key: Bytes, stamp: int) {
    forall acts :: SurvivesRun(s, acts, key, stamp)
  }

  ghost predicate SurvivesRun(s: State, acts: seq<Action>, key: Bytes, stamp: int) {
    IsRun(s, acts) && YoungRun(s, acts, key, stamp) ==> key in Run(s, acts).files
  }

  /** A pending remove can take the file at once. */
  lemma PendingTakes(s: State, key: Bytes, stamp: int)
    requires key in s.pending && Young(s, stamp)
    ensures !SurvivesRun(s, [RunPending(key, true)], key, stamp)
  {
    var a := RunPending(key, true);
    LeadsOne(s, a);
    assert [a][1..] == [] && YoungRun(Next(s, a), [], key, stamp);
    assert YoungRun(s, [a], key, stamp);
  }

  /**
   With the lock free, as a Put leaves it, a young file survives every further run in which it stays young and is
   not deleted if and only if no remove of its key is pending.
   */
  lemma StaysExactly(s: State, key: Bytes)
    requires Unlocked(s) && key in s.files && s.files[key].mtime <= s.clock && Young(s, s.files[key].mtime)
    ensures Survives(s, key, s.files[key].mtime) <==> key !in s.pending
  {
    var stamp := s.files[key].mtime;
    if key in s.pending {
      PendingTakes(s, key, stamp);
    } else {
      forall acts ensures SurvivesRun(s, acts, key, stamp) {
        if IsRun(s, acts) && YoungRun(s, acts, key, stamp) { KeptRun(s, acts, key, stamp); }
      }
    }
  }

  /** So a Put lasts as long as the TTL exactly when no remove of an older file of its key is still to come. */
  lemma PutLastsExactly(s: State, stamp: int)
    requires Inv(s) && Enabled(s, EndPut(true, stamp)) && Young(s, stamp)
    ensures
      var t := Next(s, EndPut(true, stamp));
      t.files[s.writer.key] == File(s.writer.value, stamp)
      && (Survives(t, s.writer.key, stamp) <==> s.writer.key !in s.pending)
  {
    StaysExactly(Next(s, EndPut(true, stamp)), s.writer.key);
  }

  // Misses may be spurious.

  ghost predicate Leads(s: State, acts: seq<Action>, t: State) {
    IsRun(s, acts) && Run(s, acts) == t
  }

  lemma LeadsOne(s: State, a: Action)
    requires Enabled(s, a)
    ensures Leads(s, [a], Next(s, a))
  {
    assert [a][1..] == [] && IsRun(Next(s, a), []);
  }

  lemma {:induction false} LeadsOn(s: State, a: seq<Action>, t: State, b: seq<Action>, u: State)
    requires Leads(s, a, t) && Leads(t, b, u)
    ensures Leads(s, a + b, u)
    decreases a
  {
    if a == [] {
      assert a + b == b;
    } else {
      assert (a + b)[1..] == a[1..] + b;
      LeadsOn(Next(s, a[0]), a[1..], t, b, u);
    }
  }

  lemma PutLeads(s: State, key: Bytes, value: Bytes) returns (acts: seq<Action>)
    requires Unlocked(s)
    ensures Leads(s, acts, Log(s.(files := s.files[key := File(value, s.clock)]), Put(key, value, s.clock)))
  {
    var mid := Next(s, BeginPut(key, value));
    LeadsOne(s, BeginPut(key, value));
    LeadsOne(mid, EndPut(true, s.clock));
    LeadsOn(s, [BeginPut(key, value)], mid, [EndPut(true, s.clock)], Next(mid, EndPut(true, s.clock)));
    acts := [BeginPut(key, value)] + [EndPut(true, s.clock)];
  }

  /** A reader that finds the file expired leaves a remove behind. */
  lemma ExpiredLeads(s: State, key: Bytes) returns (acts: seq<Action>, t: State)
    requires Unlocked(s) && key in s.files && s.ttl > 0 && s.clock - s.files[key].mtime > s.ttl
    ensures Leads(s, acts, t) && t == s.(pending := s.pending + multiset{key}, log := t.log)
  {
    var s1 := Next(s, Begin(0, key));
    var s2 := Next(s1, Stat(0));
    LeadsOne(s, Begin(0, key));
    LeadsOne(s1, Stat(0));
    LeadsOne(s2, Check(0));
    t := Next(s2, Check(0));
    LeadsOn(s, [Begin(0, key)], s1, [Stat(0)], s2);
    LeadsOn(s, [Begin(0, key)] + [Stat(0)], s2, [Check(0)], t);
    assert t.readers == s.readers;
    acts := [Begin(0, key)] + [Stat(0)] + [Check(0)];
  }

  /** A delayed remove can delete the fresh replacement of the file it was meant for: the next read misses. */
  lemma SpuriousMiss(key: Bytes, a: Bytes, b: Bytes) returns (acts: seq<Action>)
    ensures IsRun(Init(0, 1), acts)
    ensures
      var t := Run(Init(0, 1), acts);
      key !in t.files && t.clock == 2 && Put(key, b, 2) in t.log && LatestPut(t.log, key) == Some(b)
  {
    var s, late := Init(0, 1), RunPending(key, true);
    var first := PutLeads(s, key, a);
    var s1 := Run(s, first);
    var s2 := Next(s1, Tick(2));
    LeadsOne(s1, Tick(2));
    var expire, s3 := ExpiredLeads(s2, key);
    var second := PutLeads(s3, key, b);
    var s4 := Run(s3, second);
    LatestPutSnoc(s3.log, Put(key, b, 2), key);
    LatestPutSnoc(s4.log, Removed(key), key);
    LeadsOne(s4, late);
    var s5 := Next(s4, late);
    assert s4.log[|s3.log|] == Put(key, b, 2) && s5.log[|s3.log|] == s4.log[|s3.log|];
    LeadsOn(s3, second, s4, [late], s5);
    LeadsOn(s2, expire, s3, second + [late], s5);
    LeadsOn(s1, [Tick(2)], s2, expire + (second + [late]), s5);
    LeadsOn(s, first, s1, [Tick(2)] + (expire + (second + [late])), s5);
    acts := first + ([Tick(2)] + (expire + (second + [late])));
  }
}
