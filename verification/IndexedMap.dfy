/**
 Local references over a remote store of encrypted values. The remote store may lose any value and
 may answer for one key with what was written under another; encryption is ideal, so that a value
 opens only under the key it was sealed with. Runs interleave any number of stores, deletes and loads.
 */
module IndexedMap {

  import opened Collections

  type Key(==, !new)
  type Value(==, !new)
  type Pid(==, !new)

  /** Random nonces allow that many values per encryption key. */
  const MAX_VALUES := 0x1_0000_0000

  datatype Sealed = Sealed(key: nat, data: Value)

  function Open(s: Sealed, key: nat): Option<Value> {
    if s.key == key then Some(s.data) else None
  }

  datatype Process =
    | Storing(key: Key, value: Value, blob: Option<nat>)
    | Releasing(blob: Option<nat>)
    | Loading(key: Key, blob: Option<nat>)
    | Fetched(key: Key, blob: Option<nat>, got: Option<Value>)
    | Answered(key: Key, hit: Option<Value>)
    | Finished

  /**
   `entries`: the local references; `plain`: an ordinary map with the same stores and deletes;
   `written`: what was sealed under each remote key.
   */
  datatype State = State(
    entries: map<Key, Option<nat>>,
    plain: map<Key, Value>,
    sequence: nat,
    written: map<nat, Value>,
    remote: map<nat, Sealed>,
    processes: map<Pid, Process>)

  const INITIAL := State(map[], map[], 0, map[], map[], map[])

  datatype Reply = Accepted | AcceptedButFailed | Failed | NotTried

  datatype Step =
    | Put(p: Pid, key: Key, value: Value, reply: Reply)
    | Swap(p: Pid)
    | Remove(p: Pid, key: Key)
    | Release(p: Pid, works: bool)
    | Lose(n: nat)
    | Confuse(n: nat, with_: nat)
    | Start(p: Pid, key: Key)
    | Fetch(p: Pid, works: bool)
    | Recheck(p: Pid)

  predicate Enabled(s: State, e: Step) {
    match e
    case Put(p, _, _, _) => p !in s.processes
    case Swap(p) => p in s.processes && s.processes[p].Storing?
    case Remove(p, _) => p !in s.processes
    case Release(p, _) => p in s.processes && s.processes[p].Releasing?
    case Lose(_) => true
    case Confuse(_, m) => m in s.written
    case Start(p, _) => p !in s.processes
    case Fetch(p, _) => p in s.processes && s.processes[p].Loading?
    case Recheck(p) => p in s.processes && s.processes[p].Fetched?
  }

  function Now(s: State, p: Pid, q: Process): State {
    s.(processes := s.processes[p := q])
  }

  /** A value is sealed and sent under a key that was never used before. */
  function AfterPut(s: State, p: Pid, key: Key, value: Value, reply: Reply): State {
    if reply == NotTried then Now(s, p, Storing(key, value, None))
    else
      var n := s.sequence + 1;
      if n > MAX_VALUES then Now(s, p, Storing(key, value, None)).(sequence := n)
      else
        Now(s, p, Storing(key, value, if reply == Accepted then Some(n) else None)).(
          sequence := n, written := s.written[n := value],
          remote := if reply == Failed then s.remote else s.remote[n := Sealed(n, value)])
  }

  function BlobOf(s: State, key: Key): Option<nat> {
    if key in s.entries then s.entries[key] else None
  }

  function AfterSwap(s: State, p: Pid): State
    requires Enabled(s, Swap(p))
  {
    var q := s.processes[p];
    Now(s, p, Releasing(BlobOf(s, q.key))).(entries := s.entries[q.key := q.blob], plain := s.plain[q.key := q.value])
  }

  function AfterRemove(s: State, p: Pid, key: Key): State {
    Now(s, p, Releasing(BlobOf(s, key))).(entries := s.entries - {key}, plain := s.plain - {key})
  }

  function AfterFetch(s: State, p: Pid, works: bool): State
    requires Enabled(s, Fetch(p, works))
  {
    var q := s.processes[p];
    Now(s, p, Fetched(q.key, q.blob,
      if works && q.blob.Some? && q.blob.value in s.remote then Open(s.remote[q.blob.value], q.blob.value) else None))
  }

  /** The value counts only if the reference is still the one it was read through. */
  function AfterRecheck(s: State, p: Pid): State
    requires Enabled(s, Recheck(p))
  {
    var q := s.processes[p];
    Now(s, p, Answered(q.key, if q.key in s.entries && s.entries[q.key] == q.blob then q.got else None))
  }

  function Next(s: State, e: Step): State
    requires Enabled(s, e)
  {
    match e
    case Put(p, key, value, reply) => AfterPut(s, p, key, value, reply)
    case Swap(p) => AfterSwap(s, p)
    case Remove(p, key) => AfterRemove(s, p, key)
    case Release(p, works) =>
      Now(s, p, Finished).(remote := if works && s.processes[p].blob.Some? then s.remote - {s.processes[p].blob.value}
        else s.remote)
    case Lose(n) => s.(remote := s.remote - {n})
    case Confuse(n, m) => s.(remote := s.remote[n := Sealed(m, s.written[m])])
    case Start(p, key) => Now(s, p, if key in s.entries then Loading(key, s.entries[key]) else Answered(key, None))
    case Fetch(p, works) => AfterFetch(s, p, works)
    case Recheck(p) => AfterRecheck(s, p)
  }

  // ---- The invariant ----

  predicate Wrote(s: State, blob: Option<nat>, value: Value) {
    blob.Some? ==> blob.value in s.written && s.written[blob.value] == value
  }

  predicate ProcessOk(s: State, q: Process) {
    match q
    case Storing(_, value, blob) => Wrote(s, blob, value)
    case Fetched(_, blob, got) => got.Some? ==> blob.Some? && Wrote(s, blob, got.value)
    case _ => true
  }

  ghost predicate Inv(s: State) {
    && s.entries.Keys == s.plain.Keys
    && (forall k | k in s.entries :: Wrote(s, s.entries[k], s.plain[k]))
    && (forall n | n in s.written :: n <= s.sequence)
    && (forall n | n in s.remote :: s.remote[n].key in s.written && s.written[s.remote[n].key] == s.remote[n].data)
    && (forall p | p in s.processes :: ProcessOk(s, s.processes[p]))
  }

  lemma PutKeeps(s: State, e: Step)
    requires Inv(s) && Enabled(s, e) && e.Put?
    ensures Inv(Next(s, e))
  {
    var t := Next(s, e);
    forall p | p in t.processes ensures ProcessOk(t, t.processes[p]) {
      if p in s.processes { assert ProcessOk(s, s.processes[p]); }
    }
  }

  lemma LocalKeeps(s: State, e: Step)
    requires Inv(s) && Enabled(s, e) && (e.Swap? || e.Remove? || e.Start? || e.Recheck?)
    ensures Inv(Next(s, e))
  {
    hide AfterPut, AfterFetch;
    var t := Next(s, e);
    forall p | p in t.processes ensures ProcessOk(t, t.processes[p]) {
      if p in s.processes { assert ProcessOk(s, s.processes[p]); }
    }
  }

  lemma RemoteKeeps(s: State, e: Step)
    requires Inv(s) && Enabled(s, e) && (e.Release? || e.Lose? || e.Confuse? || e.Fetch?)
    ensures Inv(Next(s, e))
  {
    hide AfterPut, AfterSwap, AfterRemove, AfterRecheck;
    var t := Next(s, e);
    forall p | p in t.processes ensures ProcessOk(t, t.processes[p]) {
      if p in s.processes { assert ProcessOk(s, s.processes[p]); }
    }
  }

  lemma StepKeeps(s: State, e: Step)
    requires Inv(s) && Enabled(s, e)
    ensures Inv(Next(s, e))
  {
    hide Inv, Next, Enabled;
    if e.Put? {
      PutKeeps(s, e);
    } else if e.Swap? || e.Remove? || e.Start? || e.Recheck? {
      LocalKeeps(s, e);
    } else {
      RemoteKeeps(s, e);
    }
  }

  ghost predicate Possible(s: State, steps: seq<Step>)
    decreases |steps|
  {
    steps == [] || (Enabled(s, steps[0]) && Possible(Next(s, steps[0]), steps[1..]))
  }

  ghost function After(s: State, steps: seq<Step>): State
    requires Possible(s, steps)
    decreases |steps|
  {
    if steps == [] then s else After(Next(s, steps[0]), steps[1..])
  }

  lemma {:induction false} RunKeeps(s: State, steps: seq<Step>)
    requires Inv(s) && Possible(s, steps)
    ensures Inv(After(s, steps))
    decreases |steps|
  {
    hide Inv, Next, Enabled;
    if steps != [] {
      StepKeeps(s, steps[0]);
      RunKeeps(Next(s, steps[0]), steps[1..]);
    }
  }

  /** After every run: a hit returns what an ordinary map holds at the recheck. */
  lemma HitIsCurrent(steps: seq<Step>, p: Pid)
    requires Possible(INITIAL, steps) && Enabled(After(INITIAL, steps), Recheck(p))
    ensures var s := After(INITIAL, steps);
            var q := AfterRecheck(s, p).processes[p];
            q.hit.Some? ==> q.key in s.plain && s.plain[q.key] == q.hit.value
  {
    assert Inv(INITIAL);
    RunKeeps(INITIAL, steps);
    var s := After(INITIAL, steps);
    assert ProcessOk(s, s.processes[p]);
  }

  /** `Contains` agrees with the ordinary map, whatever the remote store has lost. */
  lemma SameKeys(steps: seq<Step>)
    requires Possible(INITIAL, steps)
    ensures After(INITIAL, steps).entries.Keys == After(INITIAL, steps).plain.Keys
  {
    assert Inv(INITIAL);
    RunKeeps(INITIAL, steps);
  }

  /** What was written under a remote key is never replaced. */
  lemma {:induction false} WrittenOnce(s: State, steps: seq<Step>, n: nat)
    requires Inv(s) && Possible(s, steps) && n in s.written
    ensures n in After(s, steps).written && After(s, steps).written[n] == s.written[n]
    decreases |steps|
  {
    if steps != [] {
      StepKeeps(s, steps[0]);
      assert n <= s.sequence;
      var t := Next(s, steps[0]);
      assert n in t.written && t.written[n] == s.written[n];
      hide Inv, Next, Enabled;
      WrittenOnce(t, steps[1..], n);
    }
  }

  /**
   Without the recheck the value could be outdated: a fetched value and a reference to another one
   exist together after a store that overlaps the load.
   */
  lemma FetchedMayBeOld(k: Key, older: Value, newer: Value, a: Pid, b: Pid, c: Pid) returns (steps: seq<Step>)
    requires older != newer && a != b && b != c && a != c
    ensures Possible(INITIAL, steps)
    ensures var s := After(INITIAL, steps);
            && b in s.processes && s.processes[b] == Fetched(k, Some(1), Some(older)) && s.plain == map[k := newer]
  {
    hide Next, Enabled, Possible, After;
    var s1, s2, s3 := StoreAndStart(k, older, a, b);
    var s4, s5, s6 := FetchAndStore(s3, k, older, newer, b, c);
    Last(s5, Swap(c));
    Before(s4, Put(c, k, newer, Accepted), [Swap(c)]);
    var three := [Put(c, k, newer, Accepted)] + [Swap(c)];
    Before(s3, Fetch(b, true), three);
    Before(s2, Start(b, k), [Fetch(b, true)] + three);
    Before(s1, Swap(a), [Start(b, k)] + ([Fetch(b, true)] + three));
    steps := [Put(a, k, older, Accepted)] + ([Swap(a)] + ([Start(b, k)] + ([Fetch(b, true)] + three)));
    Before(INITIAL, Put(a, k, older, Accepted), [Swap(a)] + ([Start(b, k)] + ([Fetch(b, true)] + three)));
  }

  lemma StoreAndStart(k: Key, value: Value, a: Pid, b: Pid) returns (s1: State, s2: State, s3: State)
    requires a != b
    ensures Enabled(INITIAL, Put(a, k, value, Accepted)) && s1 == Next(INITIAL, Put(a, k, value, Accepted))
    ensures Enabled(s1, Swap(a)) && s2 == Next(s1, Swap(a))
    ensures Enabled(s2, Start(b, k)) && s3 == Next(s2, Start(b, k))
    ensures s3.processes == map[a := Releasing(None), b := Loading(k, Some(1))] && s3.sequence == 1
    ensures s3.remote == map[1 := Sealed(1, value)] && s3.plain == map[k := value]
  {
    s1 := Next(INITIAL, Put(a, k, value, Accepted));
    s2 := Next(s1, Swap(a));
    s3 := Next(s2, Start(b, k));
    assert s3.processes == map[a := Releasing(None), b := Loading(k, Some(1))];
  }

  lemma FetchAndStore(s3: State, k: Key, value: Value, newer: Value, b: Pid, c: Pid)
    returns (s4: State, s5: State, s6: State)
    requires b in s3.processes && s3.processes[b] == Loading(k, Some(1)) && c !in s3.processes && s3.sequence == 1
    requires s3.remote == map[1 := Sealed(1, value)] && s3.plain == map[k := value]
    ensures Enabled(s3, Fetch(b, true)) && s4 == Next(s3, Fetch(b, true))
    ensures Enabled(s4, Put(c, k, newer, Accepted)) && s5 == Next(s4, Put(c, k, newer, Accepted))
    ensures Enabled(s5, Swap(c)) && s6 == Next(s5, Swap(c))
    ensures b in s6.processes && s6.processes[b] == Fetched(k, Some(1), Some(value)) && s6.plain == map[k := newer]
  {
    s4 := Next(s3, Fetch(b, true));
    s5 := Next(s4, Put(c, k, newer, Accepted));
    s6 := Next(s5, Swap(c));
  }

  lemma Last(s: State, e: Step)
    requires Enabled(s, e)
    ensures Possible(s, [e]) && After(s, [e]) == Next(s, e)
  {
    assert [e][1..] == [];
  }

  lemma Before(s: State, e: Step, rest: seq<Step>)
    requires Enabled(s, e) && Possible(Next(s, e), rest)
    ensures Possible(s, [e] + rest) && After(s, [e] + rest) == After(Next(s, e), rest)
  {
    assert ([e] + rest)[1..] == rest;
  }

  // ---- Deleting in batches ----

  type RemoteId(==, !new)

  datatype Blob = Blob(remote: RemoteId, key: nat)
  datatype Batch = Batch(remote: RemoteId, keys: seq<nat>)

  const BATCH := 128

  /** The keys of the blobs of one remote, in order. */
  function KeysOf(blobs: seq<Option<Blob>>, r: RemoteId): seq<nat> {
    if blobs == [] then []
    else
      var last := blobs[|blobs| - 1];
      KeysOf(blobs[..|blobs| - 1], r) + if last.Some? && last.value.remote == r then [last.value.key] else []
  }

  /** The keys sent to one remote, in order. */
  function SentTo(batches: seq<Batch>, r: RemoteId): seq<nat> {
    if batches == [] then []
    else
      var last := batches[|batches| - 1];
      SentTo(batches[..|batches| - 1], r) + if last.remote == r then last.keys else []
  }

  lemma SentSnoc(batches: seq<Batch>, b: Batch, r: RemoteId)
    ensures SentTo(batches + [b], r) == SentTo(batches, r) + if b.remote == r then b.keys else []
  {
    assert (batches + [b])[..|batches|] == batches;
  }

  function Group(groups: map<RemoteId, seq<nat>>, r: RemoteId): seq<nat> {
    if r in groups then groups[r] else []
  }

  predicate Bounded(batches: seq<Batch>) {
    forall i | 0 <= i < |batches| :: 0 < |batches[i].keys| <= BATCH
  }

  /** `DeleteBlobs`: every key goes to its own remote, once and in order, in batches of bounded size. */
  method DeleteBlobs(blobs: seq<Option<Blob>>) returns (batches: seq<Batch>)
    ensures forall r :: SentTo(batches, r) == KeysOf(blobs, r)
    ensures Bounded(batches)
  {
    hide KeysOf, SentTo;
    var groups;
    batches, groups := SendFullBatches(blobs);
    var left := groups.Keys;
    while left != {}
      invariant left <= groups.Keys && Bounded(batches)
      invariant forall r :: SentTo(batches, r) + (if r in left then groups[r] else []) == KeysOf(blobs, r)
      decreases |left|
    {
      var remote :| remote in left;
      ghost var sent := batches;
      if |groups[remote]| > 0 {
        batches := batches + [Batch(remote, groups[remote])];
      }
      forall r ensures SentTo(batches, r) == SentTo(sent, r) + if r == remote then groups[remote] else [] {
        SentSnoc(sent, Batch(remote, groups[remote]), r);
      }
      left := left - {remote};
    }
  }

  /** The first loop: a group that is full is sent at once. */
  method SendFullBatches(blobs: seq<Option<Blob>>) returns (batches: seq<Batch>, groups: map<RemoteId, seq<nat>>)
    ensures forall r :: SentTo(batches, r) + Group(groups, r) == KeysOf(blobs, r)
    ensures Bounded(batches) && forall r | r in groups :: |groups[r]| < BATCH
  {
    batches, groups := [], map[];
    for n := 0 to |blobs|
      invariant forall r :: SentTo(batches, r) + Group(groups, r) == KeysOf(blobs[..n], r)
      invariant Bounded(batches) && forall r | r in groups :: |groups[r]| < BATCH
    {
      ghost var sent, before := batches, groups;
      if blobs[n].Some? {
        var blob := blobs[n].value;
        var keys := Group(groups, blob.remote) + [blob.key];
        if |keys| == BATCH {
          batches := batches + [Batch(blob.remote, keys)];
          keys := [];
        }
        groups := groups[blob.remote := keys];
      }
      forall r ensures SentTo(batches, r) + Group(groups, r) == KeysOf(blobs[..n + 1], r) {
        KeysSnoc(blobs, n, r);
        if blobs[n].Some? {
          var b := blobs[n].value;
          SentSnoc(sent, Batch(b.remote, Group(before, b.remote) + [b.key]), r);
          Associate(SentTo(sent, r), Group(before, r), [b.key]);
        }
      }
    }
    assert blobs[..|blobs|] == blobs;
  }

  lemma KeysSnoc(blobs: seq<Option<Blob>>, n: nat, r: RemoteId)
    requires n < |blobs|
    ensures KeysOf(blobs[..n + 1], r) == KeysOf(blobs[..n], r) +
              if blobs[n].Some? && blobs[n].value.remote == r then [blobs[n].value.key] else []
  {
    assert blobs[..n + 1][..n] == blobs[..n];
  }

  lemma Associate(a: seq<nat>, b: seq<nat>, c: seq<nat>)
    ensures a + (b + c) == a + b + c && a + b + [] == a + b && a + (b + c) + [] == a + b + c
  {
  }

  datatype Reference = Reference(index: Value, blob: Option<Blob>)

  class Local {
    var references: map<Key, Reference>

    constructor ()
      ensures references == map[]
    {
      references := map[];
    }

    /**
     `DeleteMatching`: the removed references are selected ones, no more of them than a positive
     limit, and all of them when the limit is not reached; their blobs are what is deleted remotely.
     */
    method DeleteMatching(selects: (Key, Value) -> bool, limit: int)
      returns (removed: nat, batches: seq<Batch>, ghost gone: seq<Key>)
      modifies this
      ensures |gone| == removed && Distinct(gone) && AllSelected(old(references), selects, gone)
      ensures Without(old(references), references, gone)
      ensures limit > 0 ==> removed <= limit
      ensures limit <= 0 || removed < limit ==> forall k | k in references :: !selects(k, references[k].index)
      ensures forall r :: SentTo(batches, r) == KeysOf(BlobsOf(old(references), gone), r)
    {
      var blobs: seq<Option<Blob>>;
      removed, blobs, gone := RemoveMatching(selects, limit);
      batches := DeleteBlobs(blobs);
    }

    method RemoveMatching(selects: (Key, Value) -> bool, limit: int)
      returns (removed: nat, blobs: seq<Option<Blob>>, ghost gone: seq<Key>)
      modifies this
      ensures |gone| == removed && Distinct(gone) && AllSelected(old(references), selects, gone)
      ensures Without(old(references), references, gone)
      ensures limit > 0 ==> removed <= limit
      ensures limit <= 0 || removed < limit ==> forall k | k in references :: !selects(k, references[k].index)
      ensures blobs == BlobsOf(old(references), gone)
    {
      hide Distinct, Without, BlobsOf;
      removed, blobs, gone := 0, [], [];
      StartRemoving(references, selects);
      var left := references.Keys;
      while left != {}
        invariant left <= references.Keys
        invariant |gone| == removed && Distinct(gone) && AllSelected(old(references), selects, gone)
        invariant Without(old(references), references, gone)
        invariant limit > 0 ==> removed < limit
        invariant forall k | k in references && k !in left :: !selects(k, references[k].index)
        invariant blobs == BlobsOf(old(references), gone)
        decreases |left|
      {
        var key :| key in left;
        left := left - {key};
        var reference := references[key];
        if selects(key, reference.index) {
          RemoveOne(old(references), references, selects, gone, key);
          references := references - {key};
          removed, blobs := removed + 1, blobs + [reference.blob];
          gone := gone + [key];
        }
        if !(limit <= 0 || removed < limit) { break; }
      }
    }
  }

  predicate Distinct(keys: seq<Key>) {
    forall i, j | 0 <= i < j < |keys| :: keys[i] != keys[j]
  }

  predicate AllSelected(references: map<Key, Reference>, selects: (Key, Value) -> bool, gone: seq<Key>) {
    forall k | k in gone :: k in references && selects(k, references[k].index)
  }

  ghost predicate Without(before: map<Key, Reference>, after: map<Key, Reference>, gone: seq<Key>) {
    forall k :: (k in after <==> k in before && k !in gone) && (k in after ==> after[k] == before[k])
  }

  function BlobsOf(references: map<Key, Reference>, gone: seq<Key>): seq<Option<Blob>>
    requires forall k | k in gone :: k in references
  {
    seq(|gone|, i requires 0 <= i < |gone| => references[gone[i]].blob)
  }

  lemma StartRemoving(references: map<Key, Reference>, selects: (Key, Value) -> bool)
    ensures Distinct([]) && AllSelected(references, selects, []) && Without(references, references, []) &&
            BlobsOf(references, []) == []
  {
  }

  lemma RemoveOne(before: map<Key, Reference>, now: map<Key, Reference>, selects: (Key, Value) -> bool, gone: seq<Key>,
                  key: Key)
    requires Distinct(gone) && AllSelected(before, selects, gone) && Without(before, now, gone)
    requires key in now && selects(key, now[key].index)
    ensures Distinct(gone + [key]) && AllSelected(before, selects, gone + [key]) &&
            Without(before, now - {key}, gone + [key])
    ensures BlobsOf(before, gone + [key]) == BlobsOf(before, gone) + [now[key].blob]
  {
    assert key in before && key !in gone;
  }
}
