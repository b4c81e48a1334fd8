/** The mitigator and the server requests that go through it, as mutable objects on top of the store. */
module MitigatorObject {
  import opened Common
  import opened TimedStore
  import opened KeySplit
  import Sketch
  import opened SketchObject
  import opened StoreObject

  class Mitigator {
    const store: Store
    var mitigatedKeys: set<Key>
    const shardCount: nat
    const detector: Detector

    ghost function Model(): State
      reads this, store
    {
      State(store.flat, mitigatedKeys, store.clock)
    }

    ghost predicate Valid()
      reads this, store, store.shards, detector.sketch, detector.sketch.table
    {
      shardCount >= 2 && store.Valid() && detector.sketch.Valid()
    }

    /** What the detector will say when it records the next access to `key`. */
    ghost predicate Hot(key: Key)
      requires detector.sketch.Valid()
      reads detector.sketch, detector.sketch.table
    {
      Sketch.RecordAccess(detector.sketch.params, detector.sketch.history, detector.hotThreshold, key)
    }

    constructor (store: Store, detector: Detector, shardCount: int)
      requires store.Valid() && detector.sketch.Valid()
      ensures Valid() && this.store == store && this.detector == detector
      ensures Model() == State(store.flat, {}, store.clock)
      ensures this.shardCount == if shardCount < 2 then 4 else shardCount
    {
      this.store, this.detector := store, detector;
      this.shardCount := if shardCount < 2 then 4 else shardCount;
      mitigatedKeys := {};
    }

    /** Copies the key's value, without a deadline, to every shard name; a key that is gone is left alone. */
    method ApplySplitting(key: Key, now: int)
      requires Valid() && store.clock <= now
      modifies store, store.shards
      ensures Valid() && store.clock == now
      ensures store.flat == if Live(old(store.flat), key, now)
                then WriteCopies(old(store.flat), key, SplitEntries(old(store.flat)[key].value, shardCount))
                else old(store.flat)
    {
      var value := store.Get(key, now, now);
      if value.None? { return; }
      ghost var es := SplitEntries(value.value, shardCount);
      for i := 0 to shardCount
        modifies store, store.shards
        invariant Valid() && store.clock == now
        invariant store.flat == WriteCopies(old(store.flat), key, es[..i])
      {
        assert es[..i + 1][..i] == es[..i];
        store.Set(ShardKeyName(key, i), value.value, 0, now);
      }
      assert es[..shardCount] == es;
    }

    /** Records the access; a key that has become hot is split, once. */
    method CheckAndMitigate(key: Key, now: int) returns (hot: bool)
      requires Valid() && store.clock <= now
      modifies this, store, store.shards, detector.sketch, detector.sketch.table
      ensures Valid() && store.clock == if hot && key !in old(mitigatedKeys) then now else old(store.clock)
      ensures hot == old(Hot(key))
      ensures detector.sketch.history == old(detector.sketch.history) + [Sketch.Inc(key)]
      ensures Model().(clock := now)
              == (if hot then Mitigate(old(Model()), key, now, shardCount) else old(Model())).(clock := now)
    {
      hot := detector.RecordAccess(key);
      if !hot { return; }
      if key in mitigatedKeys { return; }
      ApplySplitting(key, now);
      mitigatedKeys := mitigatedKeys + {key};
    }

    /** `at(0)` is the clock reading for the key, `at(i + 1)` the one for copy `i`. */
    method WriteToShards(key: Key, value: Value, ttl: int, at: nat -> int)
      requires Valid() && Timely(Model(), Op.Set(key, value, ttl, at))
      modifies store, store.shards
      ensures Valid() && Model() == Step(old(Model()), Op.Set(key, value, ttl, at), shardCount)
    {
      store.Set(key, value, ttl, at(0));
      if key !in mitigatedKeys { return; }
      ghost var written, es := store.flat, WriteEntries(value, ttl, at, shardCount);
      for i := 0 to shardCount
        modifies store, store.shards
        invariant Valid() && store.clock == at(i)
        invariant store.flat == WriteCopies(written, key, es[..i])
      {
        assert es[..i + 1][..i] == es[..i];
        store.Set(ShardKeyName(key, i), value, ttl, at(i + 1));
      }
      assert es[..shardCount] == es;
    }

    /** The server's Set at the primary. */
    method ServerSet(key: Key, value: Value, ttl: int, at: nat -> int)
      requires Valid() && Timely(Model(), Op.Set(key, value, ttl, at))
      modifies store, store.shards
      ensures Valid() && Model() == Step(old(Model()), Op.Set(key, value, ttl, at), shardCount)
    {
      if key in mitigatedKeys {
        WriteToShards(key, value, ttl, at);
      } else {
        store.Set(key, value, ttl, at(0));
      }
    }

    /** The server's Get: only keys that are found are counted and, when hot, split. */
    method ServerGet(key: Key, now: int, later: int) returns (r: Option<Value>, hot: bool)
      requires Valid() && Timely(Model(), Op.Get(key, false, now, later))
      modifies this, store, store.shards, detector.sketch, detector.sketch.table
      ensures Valid() && r == FlatGet(old(store.flat), key, now)
      ensures Model() == Step(old(Model()), Op.Get(key, hot, now, later), shardCount)
      ensures r.Some? ==> hot == old(Hot(key))
    {
      r := store.Get(key, now, later);
      if r.None? { return r, false; }
      hot := CheckAndMitigate(key, later);
      MitigateAnytime(old(Model()), later, key, later, shardCount);
    }

    /** The server's Delete and the delete half of its Replicate. */
    method ServerDelete(key: Key) returns (existed: bool)
      requires Valid()
      modifies store, store.shards
      ensures Valid() && Model() == Step(old(Model()), Op.Delete(key), shardCount)
      ensures existed == old(InShard(store.layout, store.shards[..], key))
    {
      existed := store.Delete(key);
    }

    method ServerExpire(key: Key, ttl: int, now: int) returns (found: bool)
      requires Valid() && store.clock <= now
      modifies store, store.shards
      ensures Valid() && found == Live(old(store.flat), key, now)
      ensures Model() == Step(old(Model()), Op.Expire(key, ttl, now), shardCount)
    {
      found := store.Expire(key, ttl, now);
    }

    /** The write half of the server's Replicate. */
    method ServerReplicate(key: Key, value: Value, ttl: int, now: int)
      requires Valid() && store.clock <= now
      modifies store, store.shards
      ensures Valid() && Model() == Step(old(Model()), Op.Replicated(key, value, ttl, now), shardCount)
    {
      store.Set(key, value, ttl, now);
    }
  }
}
