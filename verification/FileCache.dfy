/**
 The byte-bounded file cache: sixteen shards, each with a map of entries and a queue of keys that
 may hold stale keys and duplicates. The model is the in-memory mode, called sequentially.
 */
module FileCache {

  import opened Collections

  type Key(==, !new)
  type Byte(==, !new)
  type Bytes = seq<Byte>
  type Entries = map<Key, Bytes>

  const SHARD_COUNT := 16
  const DEFAULT_BYTES := 16777216

  datatype Shard = Shard(entries: Entries, order: seq<Key>) {
    /** Every live key is queued, so that eviction can find it. */
    predicate Covered() {
      forall k | k in entries :: k in order
    }
  }

  // ---- Sizes ----

  ghost function Size(entries: Entries): nat
    decreases |entries|
  {
    if entries == map[] then 0 else var k :| k in entries; |entries[k]| + Size(entries - {k})
  }

  lemma {:induction false} SizeRemove(entries: Entries, k: Key)
    requires k in entries
    ensures Size(entries) == |entries[k]| + Size(entries - {k})
    decreases |entries|
  {
    var j :| j in entries && Size(entries) == |entries[j]| + Size(entries - {j});
    if j != k {
      SizeRemove(entries - {j}, k);
      SizeRemove(entries - {k}, j);
      assert entries - {j} - {k} == entries - {k} - {j};
    }
  }

  lemma SizeSet(entries: Entries, k: Key, value: Bytes)
    ensures Size(entries[k := value]) == Size(entries) + |value| - (if k in entries then |entries[k]| else 0)
  {
    SizeRemove(entries[k := value], k);
    assert entries[k := value] - {k} == entries - {k};
    if k in entries { SizeRemove(entries, k); } else { assert entries - {k} == entries; }
  }

  ghost function Total(shards: seq<Shard>): nat {
    if shards == [] then 0 else Size(shards[0].entries) + Total(shards[1..])
  }

  lemma {:induction false} TotalUpdate(shards: seq<Shard>, i: nat, shard: Shard)
    requires i < |shards|
    ensures Total(shards[i := shard]) == Total(shards) - Size(shards[i].entries) + Size(shard.entries)
    decreases |shards|
  {
    if i > 0 {
      TotalUpdate(shards[1..], i - 1, shard);
      assert shards[i := shard][1..] == shards[1..][i - 1 := shard];
    } else {
      assert shards[0 := shard][1..] == shards[1..];
    }
  }

  /** When no shard but one holds anything, the total is the size of that one. */
  lemma {:induction false} TotalOfOne(shards: seq<Shard>, at: nat)
    requires at < |shards| && forall i | 0 <= i < |shards| && i != at :: shards[i].entries == map[]
    ensures Total(shards) == Size(shards[at].entries)
    decreases |shards|
  {
    if at > 0 {
      TotalOfOne(shards[1..], at - 1);
    } else {
      TotalOfNone(shards[1..]);
    }
  }

  lemma {:induction false} TotalOfNone(shards: seq<Shard>)
    requires forall i | 0 <= i < |shards| :: shards[i].entries == map[]
    ensures Total(shards) == 0
    decreases |shards|
  {
    if shards != [] { TotalOfNone(shards[1..]); }
  }

  // ---- Which entry goes, and which queued keys stay ----

  predicate Evictable(entries: Entries, protect: Key, k: Key) {
    k in entries && k != protect
  }

  /** The position of the first evictable key, or the length of the queue. */
  function FirstVictim(order: seq<Key>, entries: Entries, protect: Key): (r: nat)
    ensures r <= |order| && (r < |order| ==> Evictable(entries, protect, order[r]))
    ensures forall i | 0 <= i < r :: !Evictable(entries, protect, order[i])
  {
    if order == [] || Evictable(entries, protect, order[0]) then 0
    else 1 + FirstVictim(order[1..], entries, protect)
  }

  lemma {:induction false} FirstVictimIs(order: seq<Key>, entries: Entries, protect: Key, r: nat)
    requires r <= |order| && (r < |order| ==> Evictable(entries, protect, order[r]))
    requires forall i | 0 <= i < r :: !Evictable(entries, protect, order[i])
    ensures FirstVictim(order, entries, protect) == r
  {
    if r > 0 {
      assert !Evictable(entries, protect, order[0]);
      assert forall i | 0 <= i < r - 1 :: order[1..][i] == order[i + 1];
      FirstVictimIs(order[1..], entries, protect, r - 1);
    }
  }

  function Victim(order: seq<Key>, entries: Entries, protect: Key): Option<Key> {
    var at := FirstVictim(order, entries, protect);
    if at < |order| then Some(order[at]) else None
  }

  lemma VictimIsEvictable(order: seq<Key>, entries: Entries, protect: Key)
    ensures Victim(order, entries, protect).Some? ==> Evictable(entries, protect, Victim(order, entries, protect).value)
  {
  }

  lemma HeadIsVictim(order: seq<Key>, entries: Entries, protect: Key)
    requires order != [] && Evictable(entries, protect, order[0])
    ensures Victim(order, entries, protect) == Some(order[0])
  {
  }

  lemma HeadIsNoVictim(order: seq<Key>, entries: Entries, protect: Key)
    requires order != [] && !Evictable(entries, protect, order[0])
    ensures FirstVictim(order, entries, protect) > 0
  {
  }

  lemma VictimExists(order: seq<Key>, entries: Entries, protect: Key, k: Key)
    requires k in order && Evictable(entries, protect, k)
    ensures Victim(order, entries, protect).Some?
  {
    var i :| 0 <= i < |order| && order[i] == k;
  }

  lemma AloneAtMost(entries: Entries, a: Key, b: Key)
    requires a in entries && b in entries && |entries| <= 1
    ensures a == b
  {
    SubsetSize({a, b}, entries.Keys);
  }

  /** Taking the head off, and queueing it again if it is protected, brings the victim one closer. */
  lemma Rotated(order: seq<Key>, entries: Entries, protect: Key)
    requires order != [] && FirstVictim(order, entries, protect) > 0
    ensures var f, rest := FirstVictim(order, entries, protect), order[1..];
            && FirstVictim(rest, entries, protect) == f - 1
            && Victim(rest, entries, protect) == Victim(order, entries, protect)
            && Victim(rest + [protect], entries, protect) == Victim(order, entries, protect)
            && (Victim(order, entries, protect).Some? ==> FirstVictim(rest + [protect], entries, protect) == f - 1)
  {
    var f, rest := FirstVictim(order, entries, protect), order[1..];
    FirstVictimIs(rest, entries, protect, f - 1);
    if f < |order| {
      FirstVictimIs(rest + [protect], entries, protect, f - 1);
    } else {
      FirstVictimIs(rest + [protect], entries, protect, |order|);
    }
  }

  function Live(order: seq<Key>, entries: Entries): (r: seq<Key>)
    ensures |r| <= |order|
  {
    if order == [] then []
    else (if order[0] in entries then [order[0]] else []) + Live(order[1..], entries)
  }

  lemma {:induction false} LiveHas(order: seq<Key>, entries: Entries)
    ensures forall k :: k in Live(order, entries) <==> k in order && k in entries
    decreases |order|
  {
    if order != [] { LiveHas(order[1..], entries); }
  }

  lemma {:induction false} LiveSnoc(order: seq<Key>, entries: Entries, i: nat)
    requires i < |order|
    ensures Live(order[..i + 1], entries) == Live(order[..i], entries) + if order[i] in entries then [order[i]] else []
  {
    if i == 0 {
      assert order[..1] == [order[0]] && order[..0] == [] && [order[0]][1..] == [];
    } else {
      LiveSnoc(order[1..], entries, i - 1);
      var more := if order[i] in entries then [order[i]] else [];
      var first := if order[0] in entries then [order[0]] else [];
      assert order[..i + 1][1..] == order[1..][..i] && order[..i][1..] == order[1..][..i - 1];
      assert order[..i + 1][0] == order[..i][0] == order[0];
      assert first + (Live(order[1..][..i - 1], entries) + more) == (first + Live(order[1..][..i - 1], entries)) + more;
    }
  }

  function Compacted(s: Shard): Shard {
    if |s.entries| == 0 then Shard(map[], [])
    else if |s.order| <= 2 * |s.entries| + 32 then s
    else s.(order := Live(s.order, s.entries))
  }

  /** Compaction keeps the entries and their cover, and leaves at most a fixed share of stale keys or none. */
  lemma CompactedCovers(s: Shard)
    requires s.Covered()
    ensures Compacted(s).Covered() && Compacted(s).entries == s.entries
    ensures |Compacted(s).order| <= 2 * |s.entries| + 32 || forall k | k in Compacted(s).order :: k in s.entries
  {
    LiveHas(s.order, s.entries);
    if |s.entries| == 0 { assert s.entries == map[]; }
  }

  // ---- The cache ----

  /** The simple thing the cache stands for: the last value stored under a key, until it is deleted. */
  datatype Op = Put(key: Key, value: Bytes) | Remove(key: Key) | Look(key: Key)

  function Apply(stored: Entries, op: Op, maxBytes: nat): Entries {
    match op
    case Put(key, value) => if |value| > maxBytes then stored else stored[key := value]
    case Remove(key) => stored - {key}
    case Look(_) => stored
  }

  class FileByteCache {
    const maxBytes: nat
    const hash: Key -> nat
    var used: int
    var shards: array<Shard>
    ghost var stored: Entries

    constructor (maxBytes: int, hash: Key -> nat)
      ensures Valid() && fresh(shards) && stored == map[] && used == 0
      ensures this.maxBytes == (if maxBytes <= 0 then DEFAULT_BYTES else maxBytes)
    {
      this.maxBytes := if maxBytes <= 0 then DEFAULT_BYTES else maxBytes;
      this.hash := hash;
      used, stored := 0, map[];
      shards := new Shard[SHARD_COUNT](_ => Shard(map[], []));
      new;
      TotalOfNone(shards[..]);
    }

    function Index(key: Key): (i: nat)
      ensures i < SHARD_COUNT
    {
      hash(key) % SHARD_COUNT
    }

    /** Each shard by itself: covered, holding keys that belong to it and values that were stored last. */
    ghost predicate ShardOk(i: nat, s: Shard, stored: Entries) {
      && s.Covered()
      && (forall k | k in s.entries :: Index(k) == i && k in stored && stored[k] == s.entries[k])
    }

    ghost predicate Sound(shards: seq<Shard>, used: int, stored: Entries) {
      && |shards| == SHARD_COUNT
      && used == Total(shards)
      && forall i | 0 <= i < SHARD_COUNT :: ShardOk(i, shards[i], stored)
    }

    ghost predicate Consistent()
      reads this, shards
    {
      Sound(shards[..], used, stored)
    }

    /** One shard gives up entries. */
    lemma ShrinkSound(before: seq<Shard>, used: int, stored: Entries, i: nat, s: Shard)
      requires Sound(before, used, stored) && i < SHARD_COUNT && s.Covered()
      requires forall k | k in s.entries :: k in before[i].entries && s.entries[k] == before[i].entries[k]
      ensures Sound(before[i := s], used - Size(before[i].entries) + Size(s.entries), stored)
    {
      hide Total;
      TotalUpdate(before, i, s);
      assert ShardOk(i, before[i], stored);
    }

    /** A value is stored in its shard. */
    lemma PutSound(before: seq<Shard>, used: int, stored: Entries, key: Key, value: Bytes, s: Shard)
      requires Sound(before, used, stored) && s.Covered() && s.entries == before[Index(key)].entries[key := value]
      ensures Sound(before[Index(key) := s], Grown(used, before[Index(key)].entries, key, value), stored[key := value])
    {
      hide Total;
      var i, now := Index(key), stored[key := value];
      TotalUpdate(before, i, s);
      SizeSet(before[i].entries, key, value);
      assert ShardOk(i, before[i], stored);
      forall j | 0 <= j < SHARD_COUNT && j != i ensures ShardOk(j, before[j], now) {
        assert ShardOk(j, before[j], stored);
        assert key !in before[j].entries;
      }
    }

    /** A key that no shard holds may be forgotten. */
    lemma ForgetSound(shards: seq<Shard>, used: int, stored: Entries, key: Key)
      requires Sound(shards, used, stored) && key !in shards[Index(key)].entries
      ensures Sound(shards, used, stored - {key})
    {
      forall j | 0 <= j < SHARD_COUNT ensures ShardOk(j, shards[j], stored - {key}) {
        assert ShardOk(j, shards[j], stored);
        assert key !in shards[j].entries;
      }
    }

    ghost predicate Valid()
      reads this, shards
    {
      Consistent() && used <= maxBytes
    }

    ghost predicate Holds(key: Key, value: Bytes)
      requires shards.Length == SHARD_COUNT
      reads this, shards
    {
      HeldIn(shards[..], key, value)
    }

    method Get(key: Key) returns (r: Option<Bytes>)
      requires Valid()
      ensures r == if key in shards[Index(key)].entries then Some(shards[Index(key)].entries[key]) else None
      ensures r.Some? ==> key in stored && r.value == stored[key]
    {
      var s := shards[Index(key)];
      assert ShardOk(Index(key), s, stored);
      r := if key in s.entries then Some(s.entries[key]) else None;
    }

    method CompactOrder(i: nat)
      requires i < shards.Length
      modifies shards
      ensures shards[..] == old(shards[..])[i := Compacted(old(shards[i]))]
    {
      var s := shards[i];
      if |s.entries| == 0 {
        shards[i] := Shard(map[], []);
        return;
      }
      if |s.order| <= 2 * |s.entries| + 32 { return; }
      var kept: seq<Key> := [];
      for j := 0 to |s.order|
        invariant kept == Live(s.order[..j], s.entries)
        invariant shards[..] == old(shards[..])
      {
        LiveSnoc(s.order, s.entries, j);
        if s.order[j] in s.entries {
          kept := kept + [s.order[j]];
        }
      }
      assert s.order[..|s.order|] == s.order;
      shards[i] := s.(order := kept);
    }

    /** Removes the first queued entry other than `protect`, if the shard has such an entry. */
    method EvictOne(i: nat, protect: Key) returns (evicted: bool)
      requires shards.Length == SHARD_COUNT && i < SHARD_COUNT && shards[i].Covered()
      modifies this`used, shards
      ensures var s := old(shards[i]); var victim := Victim(s.order, s.entries, protect);
              evicted == victim.Some? &&
              (evicted ==> victim.value in s.entries && shards[i].entries == s.entries - {victim.value} &&
                           used == old(used) - |s.entries[victim.value]|)
      ensures !evicted ==> forall k | k in old(shards[i].entries) :: k == protect
      ensures !evicted ==> shards[i].entries == old(shards[i].entries) && used == old(used)
      ensures shards[i].Covered()
      ensures forall j | 0 <= j < SHARD_COUNT && j != i :: shards[j] == old(shards[j])
    {
      hide FirstVictim, Victim;
      var entries, order := shards[i].entries, shards[i].order;
      VictimIsEvictable(order, entries, protect);
      ghost var victim := Victim(order, entries, protect);
      forall k | Evictable(entries, protect, k) ensures victim.Some? { VictimExists(order, entries, protect, k); }
      while |order| > 0
        invariant forall k | k in entries :: k in order
        invariant Victim(order, entries, protect) == victim
        invariant shards[..] == old(shards[..]) && used == old(used)
        decreases FirstVictim(order, entries, protect)
      {
        var k := order[0];
        if k == protect {
          HeadIsNoVictim(order, entries, protect);
          Rotated(order, entries, protect);
          order := order[1..] + [k];
          if |entries| <= 1 { break; }
          TwoHaveVictim(order, entries, protect);
          continue;
        }
        if k in entries {
          HeadIsVictim(order, entries, protect);
          shards[i] := Shard(entries - {k}, order[1..]);
          used := used - |entries[k]|;
          return true;
        }
        HeadIsNoVictim(order, entries, protect);
        Rotated(order, entries, protect);
        order := order[1..];
      }
      assert |entries| <= 1 by { if order == [] { assert entries == map[]; } }
      var left := entries.Keys;
      while left != {}
        invariant left <= entries.Keys
        invariant forall k | k in entries && k !in left :: k == protect
        decreases |left|
      {
        var k :| k in left;
        if k == protect {
          left := left - {k};
          continue;
        }
        VictimExists(order, entries, protect, k);
        AloneAtMost(entries, k, victim.value);
        shards[i] := Shard(entries - {k}, order);
        used := used - |entries[k]|;
        return true;
      }
      shards[i] := Shard(entries, order);
      return false;
    }

    /** One step of a pass over the shards. */
    method TrimShard(i: nat, protect: Key) returns (evicted: bool)
      requires Consistent() && i < SHARD_COUNT
      modifies this`used, shards
      ensures Consistent() && Shrunk(old(shards[..]), shards[..], protect)
      ensures LiveCount(shards[..]) == LiveCount(old(shards[..])) - if evicted then 1 else 0
      ensures !evicted ==> forall k | k in shards[i].entries :: k == protect
      ensures forall j | 0 <= j < SHARD_COUNT && j != i :: shards[j] == old(shards[j])
    {
      hide Total, Size, LiveCount, Compacted;
      ghost var before := shards[..];
      ghost var s := before[i];
      assert ShardOk(i, s, stored);
      evicted := EvictOne(i, protect);
      ghost var middle := shards[i];
      CompactedCovers(middle);
      CompactOrder(i);
      assert shards[..] == before[i := Compacted(middle)];
      ShrinkSound(before, old(used), stored, i, Compacted(middle));
      LiveCountUpdate(before, i, Compacted(middle));
      if evicted { SizeRemove(s.entries, Victim(s.order, s.entries, protect).value); }
    }

    /** Evicts shard by shard, in passes, until the rest fits. */
    method TrimToMax(protect: Key, ghost value: Bytes)
      requires Consistent() && Holds(protect, value) && |value| <= maxBytes
      modifies this`used, shards
      ensures Valid() && Holds(protect, value) && Shrunk(old(shards[..]), shards[..], protect)
      ensures old(used) <= maxBytes ==> shards[..] == old(shards[..])
    {
      ghost var before := shards[..];
      ShrunkSame(before, protect);
      while used > maxBytes
        invariant Consistent() && Shrunk(before, shards[..], protect)
        invariant old(used) <= maxBytes ==> shards[..] == old(shards[..])
        decreases LiveCount(shards[..])
      {
        var progress := false;
        ghost var count := LiveCount(shards[..]);
        for i := 0 to SHARD_COUNT
          invariant Consistent() && Shrunk(before, shards[..], protect)
          invariant LiveCount(shards[..]) <= count && (progress ==> LiveCount(shards[..]) < count)
          invariant !progress ==> forall j, k | 0 <= j < i && k in shards[j].entries :: k == protect
          invariant old(used) > maxBytes
        {
          if used <= maxBytes { return; }
          ghost var now := shards[..];
          var evicted := TrimShard(i, protect);
          ShrunkTwice(before, now, shards[..], protect);
          if evicted { progress := true; }
        }
        if !progress {
          OnlyProtected(protect, value);
          return;
        }
      }
    }

    lemma OnlyProtected(protect: Key, value: Bytes)
      requires Consistent() && Holds(protect, value)
      requires forall j, k | 0 <= j < SHARD_COUNT && k in shards[j].entries :: k == protect
      ensures used == |value|
    {
      forall j | 0 <= j < SHARD_COUNT && j != Index(protect) ensures shards[j].entries == map[] {
        assert ShardOk(j, shards[j], stored);
        assert forall k | k in shards[j].entries :: k == protect;
      }
      var at := Index(protect);
      TotalOfOne(shards[..], at);
      SizeRemove(shards[at].entries, protect);
      assert shards[at].entries - {protect} == map[];
    }

    /** Stores a value; one larger than the whole cache is ignored. */
    method Set(key: Key, value: Bytes)
      requires Valid()
      modifies this`used, this`stored, shards
      ensures Valid() && stored == Apply(old(stored), Put(key, value), maxBytes)
      ensures |value| > maxBytes ==> shards[..] == old(shards[..]) && used == old(used)
      ensures |value| <= maxBytes ==> Holds(key, value)
      ensures |value| <= maxBytes ==> forall k, v :: k != key && Holds(k, v) ==> old(Holds(k, v))
      ensures |value| <= maxBytes && Grown(old(used), old(shards[Index(key)].entries), key, value) <= maxBytes ==>
                forall k, v :: k != key && old(Holds(k, v)) ==> Holds(k, v)
    {
      hide Total, Size, Shrunk, ShardOk;
      if |value| > maxBytes { return; }
      var i := Index(key);
      var s := shards[i];
      ghost var before := shards[..];
      assert s.Covered() by { assert ShardOk(i, s, stored); Revealed(i, s); }
      var delta := |value|;
      if key in s.entries {
        delta := delta - |s.entries[key]|;
        shards[i] := s.(entries := s.entries[key := value]);
      } else {
        shards[i] := Shard(s.entries[key := value], s.order + [key]);
      }
      used := used + delta;
      stored := stored[key := value];
      ghost var inserted := shards[..];
      assert inserted == before[i := shards[i]];
      PutSound(before, old(used), old(stored), key, value, shards[i]);
      if used > maxBytes {
        TrimToMax(key, value);
      } else {
        ShrunkSame(inserted, key);
      }
      OthersHeld(before, inserted, shards[..], key, value);
    }

    lemma Revealed(i: nat, s: Shard)
      requires ShardOk(i, s, stored)
      ensures s.Covered()
    {
    }

    /** What a trim after storing `key` leaves of the other keys. */
    lemma OthersHeld(before: seq<Shard>, inserted: seq<Shard>, after: seq<Shard>, key: Key, value: Bytes)
      requires |before| == |inserted| == |after| == SHARD_COUNT && Shrunk(inserted, after, key)
      requires inserted == before[Index(key) := inserted[Index(key)]]
      requires inserted[Index(key)].entries == before[Index(key)].entries[key := value]
      ensures forall k, v :: k != key && HeldIn(after, k, v) ==> HeldIn(before, k, v)
      ensures after == inserted ==> forall k, v :: k != key && HeldIn(before, k, v) ==> HeldIn(after, k, v)
    {
      forall k, v | k != key && HeldIn(after, k, v) ensures HeldIn(before, k, v) {
        assert ShrunkShard(inserted[Index(k)].entries, after[Index(k)].entries, key);
      }
    }

    predicate HeldIn(shards: seq<Shard>, k: Key, v: Bytes)
      requires |shards| == SHARD_COUNT
    {
      k in shards[Index(k)].entries && shards[Index(k)].entries[k] == v
    }

    method Delete(key: Key)
      requires Valid()
      modifies this`used, this`stored, shards
      ensures Valid() && stored == Apply(old(stored), Remove(key), maxBytes)
      ensures forall k, v :: Holds(k, v) <==> k != key && old(Holds(k, v))
    {
      hide Total, Size, Compacted;
      var i := Index(key);
      var s := shards[i];
      ghost var before := shards[..];
      assert ShardOk(i, s, stored);
      if key in s.entries {
        used := used - |s.entries[key]|;
        shards[i] := s.(entries := s.entries - {key});
        ghost var smaller := shards[i];
        CompactedCovers(smaller);
        CompactOrder(i);
        assert shards[..] == before[i := Compacted(smaller)];
        ShrinkSound(before, old(used), stored, i, Compacted(smaller));
        SizeRemove(s.entries, key);
      }
      ForgetSound(shards[..], used, stored, key);
      stored := stored - {key};
    }
  }

  /** The bytes in use once `value` is stored under `key` and before anything is evicted. */
  function Grown(used: int, entries: Entries, key: Key, value: Bytes): int {
    used + |value| - (if key in entries then |entries[key]| else 0)
  }

  ghost function LiveCount(shards: seq<Shard>): nat {
    if shards == [] then 0 else |shards[0].entries| + LiveCount(shards[1..])
  }

  lemma {:induction false} LiveCountUpdate(shards: seq<Shard>, i: nat, shard: Shard)
    requires i < |shards|
    ensures LiveCount(shards[i := shard]) == LiveCount(shards) - |shards[i].entries| + |shard.entries|
    decreases |shards|
  {
    if i > 0 {
      LiveCountUpdate(shards[1..], i - 1, shard);
      assert shards[i := shard][1..] == shards[1..][i - 1 := shard];
    } else {
      assert shards[0 := shard][1..] == shards[1..];
    }
  }

  /** Nothing was added or changed, and the protected key was not removed. */
  ghost predicate Shrunk(before: seq<Shard>, after: seq<Shard>, protect: Key) {
    && |after| == |before|
    && forall i | 0 <= i < |before| :: ShrunkShard(before[i].entries, after[i].entries, protect)
  }

  predicate ShrunkShard(before: Entries, after: Entries, protect: Key) {
    && (forall k | k in after :: k in before && after[k] == before[k])
    && (protect in before ==> protect in after)
  }

  lemma ShrunkSame(shards: seq<Shard>, protect: Key)
    ensures Shrunk(shards, shards, protect)
  {
  }

  lemma ShrunkTwice(a: seq<Shard>, b: seq<Shard>, c: seq<Shard>, protect: Key)
    requires Shrunk(a, b, protect) && Shrunk(b, c, protect)
    ensures Shrunk(a, c, protect)
  {
    forall i | 0 <= i < |a| ensures ShrunkShard(a[i].entries, c[i].entries, protect) {
      assert ShrunkShard(a[i].entries, b[i].entries, protect) && ShrunkShard(b[i].entries, c[i].entries, protect);
    }
  }

  lemma TwoHaveVictim(order: seq<Key>, entries: Entries, protect: Key)
    requires (forall k | k in entries :: k in order) && |entries| > 1
    ensures Victim(order, entries, protect).Some?
  {
    if forall k | k in entries :: k == protect {
      assert entries.Keys <= {protect};
      SubsetSize(entries.Keys, {protect});
    } else {
      var k :| k in entries && k != protect;
      VictimExists(order, entries, protect, k);
    }
  }

  /** The simple thing after a run, from `stored` on. */
  function ApplyAll(stored: Entries, ops: seq<Op>, maxBytes: nat): Entries {
    if ops == [] then stored
    else Apply(ApplyAll(stored, ops[..|ops| - 1], maxBytes), ops[|ops| - 1], maxBytes)
  }

  /** What a run may answer to operation `i`: a miss, or the value of the simple thing at that point. */
  ghost predicate AnswerOk(ops: seq<Op>, i: nat, answer: Option<Bytes>, maxBytes: nat)
    requires i < |ops|
  {
    var stored := ApplyAll(map[], ops[..i], maxBytes);
    answer.Some? ==> ops[i].Look? && ops[i].key in stored && answer.value == stored[ops[i].key]
  }

  predicate IsPutOf(op: Op, key: Key, value: Bytes, maxBytes: nat) {
    op == Put(key, value) && |value| <= maxBytes
  }

  /** A look directly after a store that fits finds the stored value. */
  predicate AnsweredAfterPut(ops: seq<Op>, answers: seq<Option<Bytes>>, maxBytes: nat) {
    && |answers| == |ops|
    && forall i | 0 < i < |ops| && ops[i].Look? && ops[i - 1].Put? ::
      IsPutOf(ops[i - 1], ops[i].key, ops[i - 1].value, maxBytes) ==>
         answers[i] == Some(ops[i - 1].value)
  }

  lemma NothingAnswered(ops: seq<Op>, maxBytes: nat)
    ensures AnsweredAfterPut(ops[..0], [], maxBytes)
  {
  }

  lemma AnswerAdded(ops: seq<Op>, i: nat, answers: seq<Option<Bytes>>, answer: Option<Bytes>, maxBytes: nat)
    requires i < |ops| && AnsweredAfterPut(ops[..i], answers, maxBytes)
    requires (i > 0 && ops[i].Look? && ops[i - 1].Put? &&
              IsPutOf(ops[i - 1], ops[i].key, ops[i - 1].value, maxBytes)) ==> answer == Some(ops[i - 1].value)
    ensures AnsweredAfterPut(ops[..i + 1], answers + [answer], maxBytes)
  {
  }

  /** One operation. Answers are values of the simple thing, and a value that is held is answered. */
  method Perform(cache: FileByteCache, op: Op) returns (answer: Option<Bytes>)
    requires cache.Valid()
    modifies cache`used, cache`stored, cache.shards
    ensures cache.Valid() && cache.stored == Apply(old(cache.stored), op, cache.maxBytes)
    ensures answer.Some? ==> op.Look? && op.key in old(cache.stored) && answer.value == old(cache.stored)[op.key]
    ensures op.Put? && |op.value| <= cache.maxBytes ==> cache.Holds(op.key, op.value)
    ensures op.Look? ==> forall v :: old(cache.Holds(op.key, v)) ==> answer == Some(v)
  {
    hide FileByteCache.ShardOk, Total, Size, Shard.Covered;
    answer := None;
    match op {
      case Put(k, v) => cache.Set(k, v);
      case Remove(k) => cache.Delete(k);
      case Look(k) => answer := cache.Get(k);
    }
  }

  /**
   Every run of a new cache: no answer but the last value stored, a look directly after a store
   that fits is answered, and the budget holds after every operation.
   */
  method Replay(maxBytes: int, hash: Key -> nat, ops: seq<Op>)
    returns (answers: seq<Option<Bytes>>, cache: FileByteCache)
    ensures |answers| == |ops| && forall i | 0 <= i < |ops| :: AnswerOk(ops, i, answers[i], cache.maxBytes)
    ensures AnsweredAfterPut(ops, answers, cache.maxBytes)
    ensures cache.Valid() && cache.stored == ApplyAll(map[], ops, cache.maxBytes)
  {
    hide FileByteCache.ShardOk, Total, Size, Shard.Covered, AnsweredAfterPut;
    cache := new FileByteCache(maxBytes, hash);
    answers := [];
    assert AnsweredAfterPut(ops[..0], answers, cache.maxBytes) by { NothingAnswered(ops, cache.maxBytes); }
    for i := 0 to |ops|
      invariant cache.Valid() && fresh(cache) && fresh(cache.shards)
      invariant |answers| == i && cache.stored == ApplyAll(map[], ops[..i], cache.maxBytes)
      invariant forall j | 0 <= j < i :: AnswerOk(ops, j, answers[j], cache.maxBytes)
      invariant 0 < i && ops[i - 1].Put? && |ops[i - 1].value| <= cache.maxBytes ==>
                  cache.Holds(ops[i - 1].key, ops[i - 1].value)
      invariant AnsweredAfterPut(ops[..i], answers, cache.maxBytes)
    {
      assert ops[..i + 1][..i] == ops[..i];
      var answer := Perform(cache, ops[i]);
      AnswerAdded(ops, i, answers, answer, cache.maxBytes);
      answers := answers + [answer];
    }
    assert ops[..|ops|] == ops;
  }
}
