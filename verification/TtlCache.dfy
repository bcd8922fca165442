/**
 The read-through cache in front of the database, as a state machine whose steps are the
 sections the code runs under a shard lock, its generation counter operations, and single reads
 and commits of the database. Runs interleave any number of loaders, readers and writers.

 A value is told apart by its version: the number of commits of its key before it was read.
 */
module TtlCache {

  type Key(==, !new)
  type Pid(==, !new)

  import opened Collections

  datatype Answer = Nothing | Hit(version: nat) | Loaded(version: nat) | Waited(version: nat)

  /** `floor`: the newest version of the key whose writer had finished when the caller came in. */
  datatype Process =
    /** A write is committed; its keys are invalidated by one call or several. */
    | Writer(versions: map<Key, nat>, todo: set<Key>, active: set<Key>)
    | Getter(key: Key, floor: nat, generation: nat, load: bool)
    | Holder(key: Key, floor: nat, generation: nat, load: bool, version: nat)
    | Missed(key: Key, floor: nat)
    | Loader(key: Key, floor: nat, generation: nat, read: Option<nat>, shared: bool)
    | Waiter(key: Key, floor: nat, pending: Pid, guarded: bool)
    | Done(key: Key, floor: nat, answer: Answer, guarded: bool)

  datatype State = State(
    generation: nat,
    items: map<Key, nat>,
    inFlight: map<Key, Pid>,
    processes: map<Pid, Process>,
    last: map<Key, nat>,
    /** The newest version for which an invalidation has begun, and has finished. */
    begun: map<Key, nat>,
    settled: map<Key, nat>)

  function At(versions: map<Key, nat>, k: Key): nat {
    if k in versions then versions[k] else 0
  }

  function Raise(to: map<Key, nat>, versions: map<Key, nat>, keys: set<Key>): map<Key, nat>
    requires keys <= versions.Keys
  {
    to + map k | k in keys :: if At(to, k) < versions[k] then versions[k] else At(to, k)
  }

  lemma RaiseAt(to: map<Key, nat>, versions: map<Key, nat>, keys: set<Key>)
    requires keys <= versions.Keys
    ensures forall k :: At(Raise(to, versions, keys), k) ==
              if k in keys && At(to, k) < versions[k] then versions[k] else At(to, k)
  {
  }

  const INITIAL := State(0, map[], map[], map[], map[], map[], map[])

  // ---- Steps ----

  datatype Step =
    | Commit(p: Pid, keys: set<Key>)
    | Begin(p: Pid, keys: set<Key>)
    | Remove(p: Pid, keys: set<Key>)
    | Evict(keys: set<Key>)
    | StartGet(p: Pid, key: Key, load: bool)
    | Look(p: Pid, usable: bool)
    | Check(p: Pid)
    | Lock(p: Pid, usable: bool)
    | StartLoad(p: Pid, key: Key)
    | Read(p: Pid)
    | Store(p: Pid)
    | Fail(p: Pid)
    | Wake(p: Pid)

  function Put(s: State, p: Pid, q: Process): State {
    s.(processes := s.processes[p := q])
  }

  function AfterMiss(key: Key, floor: nat, load: bool): Process {
    if load then Missed(key, floor) else Done(key, floor, Nothing, true)
  }

  predicate Enabled(s: State, e: Step) {
    match e
    case Commit(p, keys) => p !in s.processes
    case Begin(p, keys) => p in s.processes && s.processes[p].Writer? && s.processes[p].active == {} &&
      keys <= s.processes[p].todo
    case Remove(p, keys) => p in s.processes && s.processes[p].Writer?
    case Evict(_) => true
    case StartGet(p, _, _) => p !in s.processes
    case Look(p, _) => p in s.processes && s.processes[p].Getter?
    case Check(p) => p in s.processes && s.processes[p].Holder?
    case Lock(p, _) => p in s.processes && s.processes[p].Missed?
    case StartLoad(p, _) => p !in s.processes
    case Read(p) => p in s.processes && s.processes[p].Loader? && s.processes[p].read == None
    case Store(p) => p in s.processes && s.processes[p].Loader? && s.processes[p].read.Some?
    case Fail(p) => p in s.processes && s.processes[p].Loader?
    case Wake(p) => p in s.processes && s.processes[p].Waiter? &&
                    s.processes[p].pending in s.processes && s.processes[s.processes[p].pending].Done?
  }

  /** The database commits new values of some keys. */
  function Committed(s: State, p: Pid, keys: set<Key>): State {
    var versions := map k | k in keys :: At(s.last, k) + 1;
    Put(s, p, Writer(versions, keys, {})).(last := s.last + versions)
  }

  /** `Delete`, `Clear` and `DeleteFunc` first raise the generation ... */
  function Begun(s: State, p: Pid, keys: set<Key>): State
    requires Enabled(s, Begin(p, keys))
  {
    var w := s.processes[p];
    Put(s, p, w.(todo := w.todo - keys, active := keys)).(generation := s.generation + 1,
                                                          begun := Raise(s.begun, w.versions, keys * w.versions.Keys))
  }

  /** ... and then remove entries, one shard at a time. */
  function Removed(s: State, p: Pid, keys: set<Key>): State
    requires Enabled(s, Remove(p, keys))
  {
    var w := s.processes[p];
    Put(s, p, w.(active := w.active - keys)).(
      items := s.items - keys, settled := Raise(s.settled, w.versions, w.active * keys * w.versions.Keys))
  }

  function Looked(s: State, p: Pid, usable: bool): State
    requires Enabled(s, Look(p, usable))
  {
    var q := s.processes[p];
    Put(s, p, if q.key in s.items && usable then Holder(q.key, q.floor, q.generation, q.load, s.items[q.key])
              else AfterMiss(q.key, q.floor, q.load))
  }

  function Checked(s: State, p: Pid): State
    requires Enabled(s, Check(p))
  {
    var q := s.processes[p];
    Put(s, p, if q.generation == s.generation then Done(q.key, q.floor, Hit(q.version), true)
      else AfterMiss(q.key, q.floor, q.load))
  }

  /** The second look of `GetOrLoad`, under the lock: a hit, a load to wait for, or a new load. */
  function Locked(s: State, p: Pid, usable: bool): State
    requires Enabled(s, Lock(p, usable))
  {
    var q := s.processes[p];
    if q.key in s.items && usable then Put(s, p, Done(q.key, q.floor, Hit(s.items[q.key]), true))
    else if q.key in s.inFlight then
      Put(s, p, Waiter(q.key, q.floor, s.inFlight[q.key], Guarded(s, s.inFlight[q.key])))
    else Put(s, p, Loader(q.key, q.floor, s.generation, None, true)).(inFlight := s.inFlight[q.key := p])
  }

  /** The check a waiter could make: the load has not read yet, or nothing was invalidated since it began. */
  predicate Guarded(s: State, pending: Pid) {
    pending in s.processes && s.processes[pending].Loader? &&
    (s.processes[pending].read == None || s.processes[pending].generation == s.generation)
  }

  function DropFlight(s: State, q: Process): map<Key, Pid>
    requires q.Loader?
  {
    if q.shared then s.inFlight - {q.key} else s.inFlight
  }

  /** The result is stored only if the generation is still the one the load began with. */
  function Stored(s: State, p: Pid): State
    requires Enabled(s, Store(p))
  {
    var q := s.processes[p];
    Put(s, p, Done(q.key, q.floor, Loaded(q.read.value), true)).(
      items := if q.generation == s.generation then s.items[q.key := q.read.value] else s.items,
      inFlight := DropFlight(s, q))
  }

  function Failed(s: State, p: Pid): State
    requires Enabled(s, Fail(p))
  {
    var q := s.processes[p];
    Put(s, p, Done(q.key, q.floor, Nothing, true)).(inFlight := DropFlight(s, q))
  }

  /** A waiter gets what the load it waited for got. */
  function Woken(s: State, p: Pid): State
    requires Enabled(s, Wake(p))
  {
    var q := s.processes[p];
    var got := s.processes[q.pending].answer;
    Put(s, p, Done(q.key, q.floor, if got.Loaded? then Waited(got.version) else Nothing, q.guarded))
  }

  function Next(s: State, e: Step): State
    requires Enabled(s, e)
  {
    match e
    case Commit(p, keys) => Committed(s, p, keys)
    case Begin(p, keys) => Begun(s, p, keys)
    case Remove(p, keys) => Removed(s, p, keys)
    case Evict(keys) => s.(items := s.items - keys)
    case StartGet(p, key, load) => Put(s, p, Getter(key, At(s.settled, key), s.generation, load))
    case Look(p, usable) => Looked(s, p, usable)
    case Check(p) => Checked(s, p)
    case Lock(p, usable) => Locked(s, p, usable)
    case StartLoad(p, key) => Put(s, p, Loader(key, At(s.settled, key), s.generation, None, false))
    case Read(p) => Put(s, p, s.processes[p].(read := Some(At(s.last, s.processes[p].key))))
    case Store(p) => Stored(s, p)
    case Fail(p) => Failed(s, p)
    case Wake(p) => Woken(s, p)
  }

  // ---- The invariant ----

  predicate WriterOk(s: State, q: Process)
    requires q.Writer?
  {
    && q.todo <= q.versions.Keys && q.active <= q.versions.Keys && q.todo !! q.active
    && (forall k | k in q.versions :: q.versions[k] <= At(s.last, k))
    && (forall k | k in q.active :: q.versions[k] <= At(s.begun, k))
    && (forall k | k in q.versions && k !in q.todo && k !in q.active :: q.versions[k] <= At(s.settled, k))
  }

  predicate LoaderOk(s: State, q: Process)
    requires q.Loader?
  {
    && q.floor <= At(s.settled, q.key) && q.generation <= s.generation
    && (q.read.Some? ==> q.floor <= q.read.value <= At(s.last, q.key))
    && (q.read.Some? && q.generation == s.generation ==> At(s.begun, q.key) <= q.read.value)
  }

  /** What a waiter may count on from the load it waits for. */
  predicate PendingOk(load: Process, q: Process)
    requires q.Waiter?
  {
    match load
    case Loader(key, _, _, read, shared) => shared && key == q.key &&
      (q.guarded && read.Some? ==> q.floor <= read.value)
    case Done(key, _, answer, _) => key == q.key && (q.guarded && answer.Loaded? ==> q.floor <= answer.version)
    case _ => false
  }

  predicate Fresh(q: Process)
    requires q.Done?
  {
    match q.answer
    case Nothing => true
    case Hit(version) => q.floor <= version
    case Loaded(version) => q.floor <= version
    case Waited(version) => q.guarded ==> q.floor <= version
  }

  predicate ProcessOk(s: State, q: Process) {
    match q
    case Writer(_, _, _) => WriterOk(s, q)
    case Getter(key, floor, _, _) => floor <= At(s.settled, key)
    case Holder(key, floor, _, _, version) => floor <= At(s.settled, key) && floor <= version
    case Missed(key, floor) => floor <= At(s.settled, key)
    case Loader(_, _, _, _, _) => LoaderOk(s, q)
    case Waiter(key, floor, pending, _) => floor <= At(s.settled, key) && pending in s.processes &&
      PendingOk(s.processes[pending], q)
    case Done(_, _, _, _) => Fresh(q)
  }

  predicate Writes(q: Process, k: Key, version: nat) {
    q.Writer? && (k in q.todo || k in q.active) && k in q.versions && q.versions[k] == version
  }

  /** An unfinished writer of the newest version of `k`. */
  ghost predicate Unfinished(s: State, k: Key) {
    exists p :: p in s.processes && Writes(s.processes[p], k, At(s.last, k))
  }

  predicate KeyOk(s: State, k: Key) {
    && At(s.settled, k) <= At(s.begun, k) <= At(s.last, k)
    && (k in s.items ==> At(s.settled, k) <= s.items[k] <= At(s.last, k))
    && (k in s.inFlight ==> s.inFlight[k] in s.processes && s.processes[s.inFlight[k]].Loader? &&
                            s.processes[s.inFlight[k]].shared && s.processes[s.inFlight[k]].key == k)
  }

  ghost predicate Inv(s: State) {
    && (forall k :: KeyOk(s, k))
    && (forall p | p in s.processes :: ProcessOk(s, s.processes[p]))
    && (forall k :: At(s.settled, k) == At(s.last, k) || Unfinished(s, k))
  }

  /** What a step must leave alone for the processes that do not take it. */
  predicate Later(s: State, t: State, p: Pid) {
    && t.generation >= s.generation
    && (forall q | q in s.processes && q != p :: q in t.processes && t.processes[q] == s.processes[q])
    && (forall q | q in t.processes && q != p :: q in s.processes)
  }

  ghost predicate Grows(a: map<Key, nat>, b: map<Key, nat>) {
    forall k :: At(a, k) <= At(b, k)
  }

  /** A process that takes no part in a step stays as good as it was. */
  lemma OthersStay(s: State, t: State, p: Pid)
    requires Inv(s) && Later(s, t, p)
    requires Grows(s.settled, t.settled) && Grows(s.begun, t.begun) && Grows(s.last, t.last)
    requires t.generation > s.generation || t.begun == s.begun
    requires p in s.processes && !s.processes[p].Writer? && (s.processes[p].Loader? || s.processes[p].Done?) ==>
               p in t.processes && forall q: Process ::
                 q.Waiter? && PendingOk(s.processes[p], q) && q.floor <= At(s.settled, q.key) ==>
                   PendingOk(t.processes[p], q)
    ensures forall q | q in t.processes && q != p :: ProcessOk(t, t.processes[q])
  {
    forall q | q in t.processes && q != p ensures ProcessOk(t, t.processes[q]) {
      var x := s.processes[q];
      assert ProcessOk(s, x);
      if x.Waiter? {
        if x.pending != p {
          assert t.processes[x.pending] == s.processes[x.pending];
        }
      }
    }
  }

  /** A step of `p` that leaves the versions, the entries and the generation alone, and is no writer's. */
  lemma QuietStep(s: State, t: State, p: Pid)
    requires Inv(s) && Later(s, t, p) && p in t.processes && !t.processes[p].Writer? && ProcessOk(t, t.processes[p])
    requires t.last == s.last && t.begun == s.begun && t.settled == s.settled && t.generation == s.generation
    requires p in s.processes ==> !s.processes[p].Writer?
    requires p in s.processes && (s.processes[p].Loader? || s.processes[p].Done?) ==>
               forall q: Process ::
                 q.Waiter? && PendingOk(s.processes[p], q) && q.floor <= At(s.settled, q.key) ==>
                   PendingOk(t.processes[p], q)
    requires forall k :: KeyOk(t, k)
    ensures Inv(t)
  {
    OthersStay(s, t, p);
    forall k ensures At(t.settled, k) == At(t.last, k) || Unfinished(t, k) {
      assert KeyOk(t, k);
      UnfinishedStays(s, t, p, k);
    }
  }

  lemma UnfinishedStays(s: State, t: State, p: Pid, k: Key)
    requires Later(s, t, p) && At(t.last, k) == At(s.last, k)
    requires At(s.settled, k) == At(s.last, k) || Unfinished(s, k)
    requires At(s.settled, k) <= At(t.settled, k) <= At(t.last, k)
    requires p in s.processes ==>
               !Writes(s.processes[p], k, At(s.last, k)) ||
                 (p in t.processes && Writes(t.processes[p], k, At(s.last, k)))
    ensures At(t.settled, k) == At(t.last, k) || Unfinished(t, k)
  {
    if At(s.settled, k) != At(s.last, k) {
      var q :| q in s.processes && Writes(s.processes[q], k, At(s.last, k));
      assert q in t.processes && Writes(t.processes[q], k, At(t.last, k));
    }
  }

  lemma CommittedWriter(s: State, p: Pid, keys: set<Key>)
    requires Inv(s) && Enabled(s, Commit(p, keys))
    ensures var t := Committed(s, p, keys);
            WriterOk(t, t.processes[p]) && Later(s, t, p) && Grows(s.last, t.last) && forall k :: KeyOk(t, k)
  {
    var t := Committed(s, p, keys);
    forall k ensures KeyOk(t, k) { assert KeyOk(s, k); }
  }

  lemma CommitKeeps(s: State, p: Pid, keys: set<Key>)
    requires Inv(s) && Enabled(s, Commit(p, keys))
    ensures Inv(Committed(s, p, keys))
  {
    hide WriterOk, Later, Grows;
    var t := Committed(s, p, keys);
    CommittedWriter(s, p, keys);
    assert Grows(s.begun, t.begun) && Grows(s.settled, t.settled) by { GrowsSame(s.begun); GrowsSame(s.settled); }
    OthersStay(s, t, p);
    forall k ensures At(t.settled, k) == At(t.last, k) || Unfinished(t, k) {
      assert KeyOk(s, k) && KeyOk(t, k);
      if k in keys {
        assert Writes(t.processes[p], k, At(t.last, k));
      } else {
        UnfinishedStays(s, t, p, k);
      }
    }
  }

  lemma GrowsSame(a: map<Key, nat>)
    ensures Grows(a, a)
  {
  }

  lemma BegunWriter(s: State, p: Pid, keys: set<Key>)
    requires Inv(s) && Enabled(s, Begin(p, keys))
    ensures var t := Begun(s, p, keys);
            WriterOk(t, t.processes[p]) && Later(s, t, p) && Grows(s.begun, t.begun) && forall k :: KeyOk(t, k)
    ensures forall k, v :: Writes(s.processes[p], k, v) ==> Writes(Begun(s, p, keys).processes[p], k, v)
  {
    hide Raise;
    var t, w := Begun(s, p, keys), s.processes[p];
    assert ProcessOk(s, w);
    RaiseAt(s.begun, w.versions, keys * w.versions.Keys);
    forall k ensures KeyOk(t, k) { assert KeyOk(s, k); }
  }

  lemma BeginKeeps(s: State, p: Pid, keys: set<Key>)
    requires Inv(s) && Enabled(s, Begin(p, keys))
    ensures Inv(Begun(s, p, keys))
  {
    hide WriterOk, Later, Grows, Raise, Writes;
    var t := Begun(s, p, keys);
    BegunWriter(s, p, keys);
    GrowsSame(s.last);
    GrowsSame(s.settled);
    OthersStay(s, t, p);
    forall k ensures At(t.settled, k) == At(t.last, k) || Unfinished(t, k) {
      assert KeyOk(s, k) && KeyOk(t, k);
      UnfinishedStays(s, t, p, k);
    }
  }

  lemma RemovedKeys(s: State, p: Pid, keys: set<Key>)
    requires Inv(s) && Enabled(s, Remove(p, keys))
    ensures Grows(s.settled, Removed(s, p, keys).settled) && forall k :: KeyOk(Removed(s, p, keys), k)
  {
    hide Raise;
    var t, w := Removed(s, p, keys), s.processes[p];
    assert ProcessOk(s, w);
    RaiseAt(s.settled, w.versions, w.active * keys * w.versions.Keys);
    forall k ensures KeyOk(t, k) { assert KeyOk(s, k); }
  }

  lemma RemovedWriter(s: State, p: Pid, keys: set<Key>)
    requires Inv(s) && Enabled(s, Remove(p, keys))
    ensures var t := Removed(s, p, keys);
            WriterOk(t, t.processes[p]) && Later(s, t, p)
    ensures var t := Removed(s, p, keys);
            forall k ::
              Writes(s.processes[p], k, At(s.last, k)) ==>
                At(t.settled, k) >= At(t.last, k) || Writes(t.processes[p], k, At(s.last, k))
  {
    hide Raise, KeyOk, ProcessOk;
    var t, w := Removed(s, p, keys), s.processes[p];
    assert WriterOk(s, w) by { WriterIsOk(s, p); }
    var done := w.active * keys * w.versions.Keys;
    RaiseAt(s.settled, w.versions, done);
    assert forall k :: k in done <==> k in w.active && k in keys;
  }

  lemma WriterIsOk(s: State, p: Pid)
    requires Inv(s) && p in s.processes && s.processes[p].Writer?
    ensures WriterOk(s, s.processes[p])
  {
    assert ProcessOk(s, s.processes[p]);
  }

  lemma RemoveKeeps(s: State, p: Pid, keys: set<Key>)
    requires Inv(s) && Enabled(s, Remove(p, keys))
    ensures Inv(Removed(s, p, keys))
  {
    hide WriterOk, Later, Raise, Writes;
    var t := Removed(s, p, keys);
    RemovedKeys(s, p, keys);
    RemovedWriter(s, p, keys);
    GrowsSame(s.last);
    GrowsSame(s.begun);
    OthersStay(s, t, p);
    forall k ensures At(t.settled, k) == At(t.last, k) || Unfinished(t, k) {
      assert KeyOk(s, k) && KeyOk(t, k);
      if At(t.settled, k) != At(t.last, k) { UnfinishedStays(s, t, p, k); }
    }
  }

  lemma EvictKeeps(s: State, keys: set<Key>)
    requires Inv(s)
    ensures Inv(s.(items := s.items - keys))
  {
    var t := s.(items := s.items - keys);
    forall k ensures KeyOk(t, k) && (At(t.settled, k) == At(t.last, k) || Unfinished(t, k)) {
      assert KeyOk(s, k);
      if Unfinished(s, k) {
        var q :| q in s.processes && Writes(s.processes[q], k, At(s.last, k));
        assert q in t.processes && Writes(t.processes[q], k, At(t.last, k));
      }
    }
    forall q | q in t.processes ensures ProcessOk(t, t.processes[q]) {
      assert ProcessOk(s, s.processes[q]);
    }
  }

  lemma StartKeeps(s: State, e: Step)
    requires Inv(s) && Enabled(s, e) && (e.StartGet? || e.StartLoad?)
    ensures Inv(Next(s, e))
  {
    hide Committed, Begun, Removed, Stored, Raise;
    var t, p := Next(s, e), e.p;
    assert KeyOk(s, e.key);
    forall k ensures KeyOk(t, k) { assert KeyOk(s, k); }
    QuietStep(s, t, p);
  }

  lemma LookKeeps(s: State, e: Step)
    requires Inv(s) && Enabled(s, e) && (e.Look? || e.Check?)
    ensures Inv(Next(s, e))
  {
    hide Committed, Begun, Removed, Stored, Raise;
    var t, p := Next(s, e), e.p;
    var q := s.processes[p];
    assert ProcessOk(s, q) && KeyOk(s, q.key);
    forall k ensures KeyOk(t, k) { assert KeyOk(s, k); }
    QuietStep(s, t, p);
  }

  /** A process that misses is as good as before, whichever way it goes on. */
  lemma LockedProcess(s: State, p: Pid, usable: bool)
    requires Inv(s) && Enabled(s, Lock(p, usable))
    ensures ProcessOk(Locked(s, p, usable), Locked(s, p, usable).processes[p])
  {
    var q := s.processes[p];
    assert ProcessOk(s, q) && KeyOk(s, q.key);
    if q.key in s.inFlight { assert ProcessOk(s, s.processes[s.inFlight[q.key]]); }
  }

  lemma LockedKeys(s: State, p: Pid, usable: bool)
    requires Inv(s) && Enabled(s, Lock(p, usable))
    ensures forall k :: KeyOk(Locked(s, p, usable), k)
  {
    forall k ensures KeyOk(Locked(s, p, usable), k) { assert KeyOk(s, k); }
  }

  lemma LockKeeps(s: State, p: Pid, usable: bool)
    requires Inv(s) && Enabled(s, Lock(p, usable))
    ensures Inv(Locked(s, p, usable))
  {
    hide ProcessOk, KeyOk, Inv, Guarded;
    LockedProcess(s, p, usable);
    LockedKeys(s, p, usable);
    QuietStep(s, Locked(s, p, usable), p);
  }

  lemma ReadKeeps(s: State, e: Step)
    requires Inv(s) && Enabled(s, e) && (e.Read? || e.Fail?)
    ensures Inv(Next(s, e))
  {
    hide Committed, Begun, Removed, Stored, Raise;
    var t, p := Next(s, e), e.p;
    var q := s.processes[p];
    assert ProcessOk(s, q) && KeyOk(s, q.key);
    forall k ensures KeyOk(t, k) { assert KeyOk(s, k); }
    QuietStep(s, t, p);
  }

  lemma WakeKeeps(s: State, e: Step)
    requires Inv(s) && Enabled(s, e) && (e.Wake?)
    ensures Inv(Next(s, e))
  {
    hide Committed, Begun, Removed, Stored, Raise;
    var t, p := Next(s, e), e.p;
    var q := s.processes[p];
    assert ProcessOk(s, q) && KeyOk(s, q.key);
    forall k ensures KeyOk(t, k) { assert KeyOk(s, k); }
    assert ProcessOk(s, s.processes[q.pending]);
    QuietStep(s, t, p);
  }

  lemma StoreKeeps(s: State, p: Pid)
    requires Inv(s) && Enabled(s, Store(p))
    ensures Inv(Stored(s, p))
  {
    var t, q := Stored(s, p), s.processes[p];
    assert ProcessOk(s, q) && KeyOk(s, q.key);
    forall k ensures KeyOk(t, k) { assert KeyOk(s, k); }
    QuietStep(s, t, p);
  }

  lemma StepKeeps(s: State, e: Step)
    requires Inv(s) && Enabled(s, e)
    ensures Inv(Next(s, e))
  {
    hide Inv, Committed, Begun, Removed, Stored, Looked, Checked, Locked, Failed, Woken;
    match e
    case Commit(p, keys) => CommitKeeps(s, p, keys);
    case Begin(p, keys) => BeginKeeps(s, p, keys);
    case Remove(p, keys) => RemoveKeeps(s, p, keys);
    case Evict(keys) => EvictKeeps(s, keys);
    case Store(p) => StoreKeeps(s, p);
    case StartGet(_, _, _) => StartKeeps(s, e);
    case StartLoad(_, _) => StartKeeps(s, e);
    case Look(_, _) => LookKeeps(s, e);
    case Check(_) => LookKeeps(s, e);
    case Lock(p, usable) => LockKeeps(s, p, usable);
    case Read(_) => ReadKeeps(s, e);
    case Fail(_) => ReadKeeps(s, e);
    case Wake(_) => WakeKeeps(s, e);
  }

  // ---- Runs ----

  ghost predicate Possible(s: State, steps: seq<Step>)
    decreases |steps|
  {
    steps == [] || (Enabled(s, steps[0]) && Possible(Next(s, steps[0]), steps[1..]))
  }

  ghost function After(s: State, steps: seq<Step>): State
    requires Possible(s, steps)
    decreases |steps|
  {
    if steps == [] then s else After(Next(s, steps[0]), steps[1..])
  }

  lemma {:induction false} RunKeeps(s: State, steps: seq<Step>)
    requires Inv(s) && Possible(s, steps)
    ensures Inv(After(s, steps))
    decreases |steps|
  {
    hide Inv, Next, Enabled;
    if steps != [] {
      StepKeeps(s, steps[0]);
      RunKeeps(Next(s, steps[0]), steps[1..]);
    }
  }

  /** A caller keeps its key and its floor. */
  predicate Asks(s: State, p: Pid, key: Key, floor: nat) {
    p in s.processes && !s.processes[p].Writer? && s.processes[p].key == key && s.processes[p].floor == floor
  }

  lemma {:induction false} AskStays(s: State, steps: seq<Step>, p: Pid, key: Key, floor: nat)
    requires Possible(s, steps) && Asks(s, p, key, floor)
    ensures Asks(After(s, steps), p, key, floor)
    decreases |steps|
  {
    if steps != [] {
      AskStaysOnce(s, steps[0], p, key, floor);
      hide Next, Enabled, Asks;
      AskStays(Next(s, steps[0]), steps[1..], p, key, floor);
    }
  }

  lemma AskStaysOnce(s: State, e: Step, p: Pid, key: Key, floor: nat)
    requires Enabled(s, e) && Asks(s, p, key, floor)
    ensures Asks(Next(s, e), p, key, floor)
  {
    hide Raise;
  }

  /**
   In every run, a caller that is answered from the cache or by its own load gets a version no older
   than that of any write whose invalidation had finished when the call began.
   */
  lemma AnswerIsFresh(before: seq<Step>, call: Step, rest: seq<Step>, writer: Pid)
    requires call.StartGet? || call.StartLoad?
    requires Possible(INITIAL, before) && Enabled(After(INITIAL, before), call)
    requires Possible(Next(After(INITIAL, before), call), rest)
    requires var s := After(INITIAL, before);
             writer in s.processes && s.processes[writer].Writer? && call.key in s.processes[writer].versions &&
             call.key !in s.processes[writer].todo && call.key !in s.processes[writer].active
    ensures var s, t := After(INITIAL, before), After(Next(After(INITIAL, before), call), rest);
            call.p in t.processes &&
            (t.processes[call.p].Done? ==>
              match t.processes[call.p].answer
              case Hit(version) => s.processes[writer].versions[call.key] <= version
              case Loaded(version) => s.processes[writer].versions[call.key] <= version
              case Waited(version) => t.processes[call.p].guarded ==> s.processes[writer].versions[call.key] <= version
              case Nothing => true)
  {
    var s := After(INITIAL, before);
    var u := Next(s, call);
    InitialOk();
    RunKeeps(INITIAL, before);
    assert ProcessOk(s, s.processes[writer]);
    StepKeeps(s, call);
    RunKeeps(u, rest);
    AskStays(u, rest, call.p, call.key, At(s.settled, call.key));
    var t := After(u, rest);
    assert ProcessOk(t, t.processes[call.p]);
  }

  lemma InitialOk()
    ensures Inv(INITIAL)
  {
  }

  /** In every run, an entry older than the database is there only while a writer of its key is unfinished. */
  lemma StaleOnlyWhileWriting(steps: seq<Step>, k: Key)
    requires Possible(INITIAL, steps)
    ensures var s := After(INITIAL, steps);
            k in s.items ==> s.items[k] <= At(s.last, k) && (s.items[k] < At(s.last, k) ==> Unfinished(s, k))
  {
    InitialOk();
    RunKeeps(INITIAL, steps);
    var s := After(INITIAL, steps);
    assert KeyOk(s, k);
  }

  ghost predicate Reachable(s: State) {
    exists steps :: Possible(INITIAL, steps) && After(INITIAL, steps) == s
  }

  lemma {:induction false} RunSnoc(s: State, steps: seq<Step>, e: Step)
    requires Possible(s, steps) && Enabled(After(s, steps), e)
    ensures Possible(s, steps + [e]) && After(s, steps + [e]) == Next(After(s, steps), e)
    decreases |steps|
  {
    hide Next, Enabled;
    if steps == [] {
      assert [] + [e] == [e] && [e][1..] == [];
    } else {
      assert (steps + [e])[1..] == steps[1..] + [e];
      RunSnoc(Next(s, steps[0]), steps[1..], e);
    }
  }

  lemma StepReaches(s: State, e: Step) returns (t: State)
    requires Reachable(s) && Enabled(s, e)
    ensures Reachable(t) && t == Next(s, e)
  {
    hide Next, Enabled;
    var steps :| Possible(INITIAL, steps) && After(INITIAL, steps) == s;
    RunSnoc(INITIAL, steps, e);
    t := Next(s, e);
  }

  /** A load that has read the database and not yet stored what it read. */
  lemma ReachLoad(k: Key, loader: Pid) returns (s: State)
    ensures Reachable(s)
    ensures s == State(0, map[], map[k := loader], map[loader := Loader(k, 0, 0, Some(0), true)], map[], map[], map[])
  {
    hide Reachable, Raise, Possible, After;
    assert Reachable(INITIAL) by { InitialReached(); }
    s := StepReaches(INITIAL, StartGet(loader, k, true));
    assert s.processes == map[loader := Getter(k, 0, 0, true)];
    s := StepReaches(s, Look(loader, true));
    assert s.processes == map[loader := Missed(k, 0)];
    s := StepReaches(s, Lock(loader, true));
    assert s.processes == map[loader := Loader(k, 0, 0, None, true)] && s.inFlight == map[k := loader];
    s := StepReaches(s, Read(loader));
    assert s.processes == map[loader := Loader(k, 0, 0, Some(0), true)];
  }

  lemma InitialReached()
    ensures Reachable(INITIAL)
  {
    assert Possible(INITIAL, []) && After(INITIAL, []) == INITIAL;
  }

  /** A write, of that key or another, begun and finished while that load is under way. */
  lemma ReachWrite(k: Key, j: Key, loader: Pid, writer: Pid) returns (s: State)
    requires loader != writer
    ensures Reachable(s) && s.generation == 1 && s.items == map[] && s.inFlight == map[k := loader]
    ensures s.processes == map[loader := Loader(k, 0, 0, Some(0), true), writer := Writer(map[j := 1], {}, {})]
    ensures s.last == map[j := 1] && forall x :: At(s.settled, x) == if x == j then 1 else 0
  {
    hide Reachable, Possible, After, Next, Enabled, Raise;
    s := ReachLoad(k, loader);
    s := ReachCommitted(s, j, writer);
    s := ReachBegun(s, j, writer);
    s := ReachRemoved(s, j, writer);
  }

  lemma ReachCommitted(s: State, k: Key, writer: Pid) returns (t: State)
    requires Reachable(s) && writer !in s.processes && s.last == map[]
    ensures Reachable(t) && t == s.(processes := s.processes[writer := Writer(map[k := 1], {k}, {})],
                                    last := map[k := 1])
  {
    hide Reachable, Possible, After, Raise;
    t := StepReaches(s, Commit(writer, {k}));
    assert t.processes[writer] == Writer(map[k := 1], {k}, {}) && t.last == map[k := 1];
  }

  lemma ReachBegun(s: State, k: Key, writer: Pid) returns (t: State)
    requires Reachable(s) && writer in s.processes && s.processes[writer] == Writer(map[k := 1], {k}, {})
    ensures Reachable(t) && t.processes == s.processes[writer := Writer(map[k := 1], {}, {k})]
    ensures t.generation == s.generation + 1 && t.items == s.items && t.inFlight == s.inFlight &&
            t.settled == s.settled && t.last == s.last
  {
    hide Reachable, Possible, After, Raise;
    t := StepReaches(s, Begin(writer, {k}));
    assert t.processes[writer] == Writer(map[k := 1], {}, {k});
  }

  lemma ReachRemoved(s: State, k: Key, writer: Pid) returns (t: State)
    requires Reachable(s) && writer in s.processes && s.processes[writer] == Writer(map[k := 1], {}, {k})
    requires s.items == map[] && s.settled == map[]
    ensures Reachable(t) && t.processes == s.processes[writer := Writer(map[k := 1], {}, {})]
    ensures t.items == map[] && t.generation == s.generation && t.inFlight == s.inFlight && t.last == s.last
    ensures forall x :: At(t.settled, x) == if x == k then 1 else 0
  {
    hide Reachable, Possible, After, Raise;
    t := StepReaches(s, Remove(writer, {k}));
    assert {k} * {k} * (map[k := 1]).Keys == {k};
    assert t.processes[writer] == Writer(map[k := 1], {}, {});
    RaiseAt(map[], map[k := 1], {k});
  }

  /** A caller that waits for somebody else's load may be answered with a version older than its floor. */
  lemma WaiterIsStale(k: Key, loader: Pid, writer: Pid, waiter: Pid) returns (s: State)
    requires loader != writer && loader != waiter && writer != waiter
    ensures Reachable(s) && waiter in s.processes && s.processes[waiter] == Done(k, 1, Waited(0), false)
  {
    hide Reachable, Raise, Possible, After;
    s := ReachWrite(k, k, loader, writer);
    s := StepReaches(s, StartGet(waiter, k, true));
    assert s.processes[waiter] == Getter(k, 1, 1, true);
    s := StepReaches(s, Look(waiter, true));
    assert s.processes[waiter] == Missed(k, 1);
    s := StepReaches(s, Lock(waiter, true));
    assert s.processes[waiter] == Waiter(k, 1, loader, false);
    s := StepReaches(s, Store(loader));
    assert s.processes[loader] == Done(k, 0, Loaded(0), true);
    s := StepReaches(s, Wake(waiter));
  }

  /** A waiter for a load that has read `version`, until it is answered. */
  predicate WaitsFor(s: State, p: Pid, pending: Pid, version: nat) {
    && p in s.processes && pending in s.processes
    && (s.processes[p].Waiter? ==> s.processes[p].pending == pending)
    && (s.processes[p].Waiter? || (s.processes[p].Done? && s.processes[p].answer in {Waited(version), Nothing}))
    && (s.processes[pending].Loader? ==> s.processes[pending].read == Some(version))
    && (s.processes[pending].Loader? ||
      (s.processes[pending].Done? && s.processes[pending].answer in {Loaded(version), Nothing}))
  }

  lemma WaitStays(s: State, e: Step, p: Pid, pending: Pid, version: nat)
    requires Enabled(s, e) && WaitsFor(s, p, pending, version)
    ensures WaitsFor(Next(s, e), p, pending, version)
  {
    hide Next, Enabled;
    if e.Evict? || (e.p != p && e.p != pending) {
      OtherStays(s, e, p);
      OtherStays(s, e, pending);
    } else {
      WaitStaysOwn(s, e, p, pending, version);
    }
  }

  lemma OtherStays(s: State, e: Step, q: Pid)
    requires Enabled(s, e) && q in s.processes && (e.Evict? || e.p != q)
    ensures q in Next(s, e).processes && Next(s, e).processes[q] == s.processes[q]
  {
    hide Raise, At, AfterMiss, DropFlight, Guarded;
    match e
    case Commit(_, _) =>
    case Begin(_, _) =>
    case Remove(_, _) =>
    case Evict(_) =>
    case StartGet(_, _, _) =>
    case Look(_, _) =>
    case Check(_) =>
    case Lock(_, _) =>
    case StartLoad(_, _) =>
    case Read(_) =>
    case Store(_) =>
    case Fail(_) =>
    case Wake(_) =>
  }

  lemma WaitStaysOwn(s: State, e: Step, p: Pid, pending: Pid, version: nat)
    requires Enabled(s, e) && WaitsFor(s, p, pending, version) && !e.Evict? && e.p in {p, pending}
    ensures WaitsFor(Next(s, e), p, pending, version)
  {
    hide Raise, Committed, Begun, Removed, Looked, Checked, Locked;
  }

  lemma {:induction false} WaitStaysAll(s: State, steps: seq<Step>, p: Pid, pending: Pid, version: nat)
    requires Possible(s, steps) && WaitsFor(s, p, pending, version)
    ensures WaitsFor(After(s, steps), p, pending, version)
    decreases |steps|
  {
    hide WaitsFor, Next, Enabled;
    if steps != [] {
      WaitStays(s, steps[0], p, pending, version);
      WaitStaysAll(Next(s, steps[0]), steps[1..], p, pending, version);
    }
  }

  /** A caller that joins a load after its read is answered freshly iff that read was no older than its floor. */
  lemma WaiterIsFreshIff(s: State, p: Pid, usable: bool, rest: seq<Step>)
    requires Enabled(s, Lock(p, usable)) && Locked(s, p, usable).processes[p].Waiter?
    requires var q := Locked(s, p, usable).processes[p];
             q.pending in s.processes && q.pending != p && s.processes[q.pending].Loader? &&
               s.processes[q.pending].read.Some?
    requires Possible(Locked(s, p, usable), rest)
    ensures var q, t := Locked(s, p, usable).processes[p], After(Locked(s, p, usable), rest);
            p in t.processes &&
            (t.processes[p].Done? && t.processes[p].answer.Waited? ==>
              (q.floor <= t.processes[p].answer.version <==> q.floor <= s.processes[q.pending].read.value))
  {
    hide Raise;
    var u := Locked(s, p, usable);
    var q := u.processes[p];
    WaitStaysAll(u, rest, p, q.pending, s.processes[q.pending].read.value);
  }

  /**
   The check a waiter could make: if the load has the generation it began with, then what it has
   read is no older than the floor of any caller that finds it, so the answer is fresh.
   */
  lemma SameGenerationIsFresh(s: State, p: Pid, usable: bool, rest: seq<Step>)
    requires Reachable(s) && Enabled(s, Lock(p, usable)) && Locked(s, p, usable).processes[p].Waiter?
    requires var q := Locked(s, p, usable).processes[p];
             q.pending in s.processes && q.pending != p && s.processes[q.pending].Loader? &&
               s.processes[q.pending].read.Some?
    requires Possible(Locked(s, p, usable), rest)
    ensures var q, t := Locked(s, p, usable).processes[p], After(Locked(s, p, usable), rest);
            s.processes[q.pending].generation == s.generation ==>
              && At(s.settled, q.key) <= s.processes[q.pending].read.value
              && p in t.processes && (t.processes[p].Done? && t.processes[p].answer.Waited? ==>
                q.floor <= t.processes[p].answer.version)
  {
    hide Possible, After, Raise, Next;
    hide Inv, Reachable, Locked;
    ReachableOk(s);
    JoinedLoad(s, p, usable);
    WaiterIsFreshIff(s, p, usable, rest);
  }

  lemma ReachableOk(s: State)
    requires Reachable(s)
    ensures Inv(s)
  {
    hide Possible, After, Inv;
    var steps :| Possible(INITIAL, steps) && After(INITIAL, steps) == s;
    InitialOk();
    RunKeeps(INITIAL, steps);
  }

  /** A load of the present generation has read what every settled write has left, or later. */
  lemma JoinedLoad(s: State, p: Pid, usable: bool)
    requires Inv(s) && Enabled(s, Lock(p, usable)) && Locked(s, p, usable).processes[p].Waiter?
    requires var q := Locked(s, p, usable).processes[p];
             q.pending in s.processes && s.processes[q.pending].Loader? && s.processes[q.pending].read.Some?
    ensures var q := Locked(s, p, usable).processes[p];
            s.processes[q.pending].generation == s.generation ==>
              q.floor <= At(s.settled, q.key) <= s.processes[q.pending].read.value
  {
    var q := Locked(s, p, usable).processes[p];
    assert KeyOk(s, q.key) && ProcessOk(s, s.processes[p]) && ProcessOk(s, s.processes[q.pending]);
  }

  /** The check is not necessary: a write of another key changes the generation, and the waiter is answered freshly. */
  lemma OtherKeyChangesGeneration(k: Key, j: Key, loader: Pid, writer: Pid, waiter: Pid) returns (s: State)
    requires loader != writer && loader != waiter && writer != waiter && j != k
    ensures Reachable(s) && waiter in s.processes && s.processes[waiter] == Done(k, 0, Waited(0), false)
    ensures s.generation == 1 && At(s.last, k) == 0
  {
    hide Reachable, Raise, Possible, After;
    s := ReachWrite(k, j, loader, writer);
    s := StepReaches(s, StartGet(waiter, k, true));
    assert s.processes[waiter] == Getter(k, 0, 1, true);
    s := StepReaches(s, Look(waiter, true));
    assert s.processes[waiter] == Missed(k, 0);
    s := StepReaches(s, Lock(waiter, true));
    assert s.processes[waiter] == Waiter(k, 0, loader, false);
    s := StepReaches(s, Store(loader));
    assert s.processes[loader] == Done(k, 0, Loaded(0), true);
    s := StepReaches(s, Wake(waiter));
  }

  // ---- One shard's capacity ----

  type Value(==, !new)

  datatype Item = Item(value: Value, expiredAt: int)

  predicate Expired(item: Item, now: int) {
    now > item.expiredAt
  }

  function Unexpired(items: map<Key, Item>, now: int): map<Key, Item> {
    map k | k in items && !Expired(items[k], now) :: items[k]
  }

  predicate Oldest(items: map<Key, Item>, k: Key) {
    k in items && forall j | j in items :: items[k].expiredAt <= items[j].expiredAt
  }

  /**
   Entries that make room for a new key: none while there is room, else the expired ones, else one
   that expires first.
   */
  ghost predicate MakesRoom(before: map<Key, Item>, after: map<Key, Item>, capacity: nat, now: int) {
    if |before| < capacity then after == before
    else if |Unexpired(before, now)| < capacity then after == Unexpired(before, now)
    else exists k :: Oldest(Unexpired(before, now), k) && after == Unexpired(before, now) - {k}
  }

  class Shard {
    var items: map<Key, Item>
    const capacity: nat

    constructor (capacity: nat)
      requires capacity > 0
      ensures Valid() && items == map[] && this.capacity == capacity
    {
      items, this.capacity := map[], capacity;
    }

    predicate Valid()
      reads this
    {
      0 < capacity && |items| <= capacity
    }

    /** `setLocked`. The new entry is there, the bound holds, and only the entries that make room are gone. */
    method SetLocked(key: Key, value: Value, expiredAt: int, now: int)
      requires Valid()
      modifies this
      ensures Valid()
      ensures if key in old(items) then items == old(items)[key := Item(value, expiredAt)]
              else exists rest ::
                MakesRoom(old(items), rest, capacity, now) && items == rest[key := Item(value, expiredAt)]
    {
      if key !in items && |items| >= capacity {
        EvictExpired(now);
        ghost var unexpired := items;
        UnexpiredFits(old(items), now);
        if |items| >= capacity {
          var found, oldestKey := false, key;
          var oldestExpiry := 0;
          var left := items.Keys;
          while left != {}
            invariant left <= items.Keys && items == unexpired
            invariant found <==> left != items.Keys
            invariant found ==> oldestKey in items && items[oldestKey].expiredAt == oldestExpiry
            invariant found ==> forall j | j in items && j !in left :: oldestExpiry <= items[j].expiredAt
            decreases |left|
          {
            var candidate :| candidate in left;
            if !found || items[candidate].expiredAt < oldestExpiry {
              oldestKey, oldestExpiry, found := candidate, items[candidate].expiredAt, true;
            }
            left := left - {candidate};
          }
          if found {
            assert Oldest(unexpired, oldestKey);
            items := items - {oldestKey};
            assert |unexpired| == |items| + 1 by { RemoveOne(unexpired, oldestKey); }
          }
        }
      }
      ghost var rest := items;
      items := items[key := Item(value, expiredAt)];
      assert key !in old(items) ==>
        MakesRoom(old(items), rest, capacity, now) && items == rest[key := Item(value, expiredAt)];
      PutOne(rest, key, Item(value, expiredAt));
    }

    method EvictExpired(now: int)
      modifies this
      ensures items == Unexpired(old(items), now)
    {
      var left := items.Keys;
      while left != {}
        invariant left <= old(items).Keys
        invariant items == map k | k in old(items) && (k in left || !Expired(old(items)[k], now)) :: old(items)[k]
        decreases |left|
      {
        var candidate :| candidate in left;
        if Expired(items[candidate], now) {
          items := items - {candidate};
        }
        left := left - {candidate};
      }
    }
  }

  lemma RemoveOne(items: map<Key, Item>, k: Key)
    requires k in items
    ensures |items| == |items - {k}| + 1
  {
    assert items.Keys == (items - {k}).Keys + {k};
  }

  lemma PutOne(items: map<Key, Item>, k: Key, item: Item)
    ensures |items[k := item]| <= |items| + if k in items then 0 else 1
  {
    assert items[k := item].Keys == items.Keys + {k};
  }

  lemma UnexpiredFits(items: map<Key, Item>, now: int)
    ensures |Unexpired(items, now)| <= |items|
  {
    SubsetSize(Unexpired(items, now).Keys, items.Keys);
  }
}
