/** The cache store over Redis commands: each method against the value it leaves behind or returns. */
module RedisCache {
  import opened Options
  import opened Vectors
  import opened Text
  import opened ZSets
  import Clusters
  import ActiveIndex
  import BandStore
  import Timeline

  type Time = real

  datatype Cached<T> = Cached(value: T, expiry: Time)

  function LiveObjects<T>(m: map<string, Cached<T>>, now: Time): map<string, T> {
    map k | k in m && m[k].expiry > now :: m[k].value
  }

  class RedisCacheStore {
    var clusters: map<string, Cached<Clusters.Row>>
    var active: ZSet
    var timeline: ZSet
    var bands: BandStore.RedisBands
    var embeddings: map<string, Cached<Vec>>

    constructor ()
      ensures clusters == map[] && active == map[] && timeline == map[] && bands == map[] && embeddings == map[]
    {
      clusters, active, timeline, bands, embeddings := map[], map[], map[], map[], map[];
    }

    // ---- clusters --------------------------------------------------------------------------

    /** `SET ... EX 86400`, then the index gains or loses the id. */
    method SetCluster(id: string, row: Clusters.Row, isActive: bool, now: Time)
      modifies this`clusters, this`active
      ensures clusters == old(clusters)[id := Cached(row, now + 86400.0)]
      ensures active == if isActive then old(active)[id := row.lastActivity] else old(active) - {id}
      ensures forall stores :: ActiveIndex.IndexAfter(stores) == old(active) ==>
        ActiveIndex.IndexAfter(stores + [ActiveIndex.Stored(id, isActive, row.lastActivity, now, None)]) == active
    {
      forall stores | ActiveIndex.IndexAfter(stores) == active
        ensures ActiveIndex.IndexAfter(stores + [ActiveIndex.Stored(id, isActive, row.lastActivity, now, None)])
             == if isActive then active[id := row.lastActivity] else active - {id}
      {
        ActiveIndex.IndexGrows(stores, ActiveIndex.Stored(id, isActive, row.lastActivity, now, None));
      }
      clusters := clusters[id := Cached(row, now + ActiveIndex.CLUSTER_TTL)];
      if isActive {
        active := active[id := row.lastActivity];
      } else {
        active := active - {id};
      }
    }

    method GetCluster(id: string, now: Time) returns (row: Option<Clusters.Row>)
      ensures row == if id in LiveObjects(clusters, now) then Some(LiveObjects(clusters, now)[id]) else None
    {
      if id in clusters && clusters[id].expiry > now {
        row := Some(clusters[id].value);
      } else {
        row := None;
      }
    }

    /** The ids of one page, `MGET` of their objects, and the loop that drops the missing ones. */
    method GetActiveClusters(offset: nat, limit: nat, now: Time) returns (rows: seq<Clusters.Row>)
      ensures rows == ActiveIndex.Page(active, LiveObjects(clusters, now), offset, limit)
    {
      var ids := RevRange(Ranked(active), offset, offset + limit - 1);
      var live := LiveObjects(clusters, now);
      rows := [];
      for i := 0 to |ids|
        invariant rows + ActiveIndex.Live(ids[i..], live) == ActiveIndex.Live(ids, live)
      {
        assert ids[i..][1..] == ids[i + 1..];
        if ids[i] in clusters && clusters[ids[i]].expiry > now {
          rows := rows + [clusters[ids[i]].value];
        }
      }
    }

    // ---- timeline --------------------------------------------------------------------------

    /** `ZADD`, then `ZREMRANGEBYRANK 0 -1001`. */
    method AddToTimeline(hash: string, timestamp: Time)
      modifies this`timeline
      ensures timeline == Timeline.AddTrimmed(old(timeline), hash, timestamp) && |timeline| <= 1000
    {
      Timeline.AddKeepsBest(timeline, hash, timestamp);
      timeline := timeline[hash := timestamp];
      timeline := Timeline.KeepTop(timeline, Timeline.TIMELINE_SIZE);
    }

    /** The page asked for, but everything for the empty page at the start. */
    method GetTimeline(offset: nat, limit: nat) returns (hashes: seq<string>)
      ensures hashes == if offset == 0 && limit == 0 then Ranked(timeline) else Slice(Ranked(timeline), offset, limit)
    {
      PageIsSliceExactly(Ranked(timeline), offset, limit);
      hashes := RevRange(Ranked(timeline), offset, offset + limit - 1);
    }

    // ---- band values -----------------------------------------------------------------------

    /** One `ZADD` and one clean-up for each band of the dictionary. */
    method AddSimhashBands(entry: string, bs: map<nat, string>, ttl: Time, now: Time)
      modifies this`bands
      ensures bands == BandStore.Register(old(bands), bs, entry, ttl, now)
    {
      var todo := bs.Keys;
      ghost var done: map<nat, string> := map[];
      assert bands == BandStore.Register(old(bands), done, entry, ttl, now);
      while todo != {}
        invariant todo <= bs.Keys
        invariant done == map i | i in bs && i !in todo :: bs[i]
        invariant bands == BandStore.Register(old(bands), done, entry, ttl, now)
        decreases todo
      {
        var i :| i in todo;
        var z := BandStore.ZSetAt(bands, i)[BandStore.Member(bs[i], entry) := now + ttl];
        RegisterOne(old(bands), done, entry, ttl, now, i, bs[i]);
        bands := bands[i := BandStore.Purge(z, now)];
        done := done[i := bs[i]];
        todo := todo - {i};
      }
      assert done == bs;
    }

    /** For each band, scan its set for the prefix and collect what is unexpired. */
    method CheckSimhashBands(bs: map<nat, string>, now: Time) returns (collisions: set<string>)
      ensures collisions == BandStore.Lookup(bands, bs, now)
    {
      collisions := {};
      var todo := bs.Keys;
      ghost var done: map<nat, string> := map[];
      while todo != {}
        invariant todo <= bs.Keys
        invariant done == map i | i in bs && i !in todo :: bs[i]
        invariant collisions == BandStore.Lookup(bands, done, now)
        decreases todo
      {
        var i :| i in todo;
        var found := ScanBand(BandStore.ZSetAt(bands, i), bs[i], now);
        LookupOne(bands, done, now, i, bs[i]);
        collisions := collisions + found;
        done := done[i := bs[i]];
        todo := todo - {i};
      }
      assert done == bs;
    }

    // ---- embeddings ------------------------------------------------------------------------

    method CacheEmbedding(hash: string, embedding: Vec, ttl: Time, now: Time)
      modifies this`embeddings
      ensures embeddings == old(embeddings)[hash := Cached(embedding, now + ttl)]
    {
      embeddings := embeddings[hash := Cached(embedding, now + ttl)];
    }

    method GetCachedEmbeddings(hashes: seq<string>, now: Time) returns (found: map<string, Vec>)
      ensures found == map h | h in hashes && h in LiveObjects(embeddings, now) :: LiveObjects(embeddings, now)[h]
    {
      var live := LiveObjects(embeddings, now);
      found := map[];
      for i := 0 to |hashes|
        invariant found == map h | h in hashes[..i] && h in live :: live[h]
      {
        if hashes[i] in live { found := found[hashes[i] := live[hashes[i]]]; }
      }
      assert hashes[..|hashes|] == hashes;
    }
  }

  // ---- what a reader finds -----------------------------------------------------------------

  /** One `SET` of a cluster or of an embedding, with the instant at which it expires, or the eviction of
      a key by a Redis that is short of memory. */
  datatype Change<T> = Write(key: string, value: T, expiry: Time) | Evict(key: string)

  function AfterChanges<T>(changes: seq<Change<T>>): map<string, Cached<T>> {
    if changes == [] then map[]
    else
      var c := changes[|changes| - 1];
      var before := AfterChanges(changes[..|changes| - 1]);
      if c.Write? then before[c.key := Cached(c.value, c.expiry)] else before - {c.key}
  }

  predicate LastChange<T>(changes: seq<Change<T>>, key: string, k: nat) {
    k < |changes| && changes[k].key == key && forall j :: k < j < |changes| ==> changes[j].key != key
  }

  predicate Serves<T(==)>(c: Change<T>, value: T, now: Time) {
    c.Write? && c.value == value && now < c.expiry
  }

  /** A write is alive at once. */
  lemma WriteIsLive<T>(m: map<string, Cached<T>>, key: string, value: T, expiry: Time, now: Time)
    requires expiry > now
    ensures LiveObjects(m[key := Cached(value, expiry)], now) == LiveObjects(m, now)[key := value]
  {
  }

  /** After any run of writes and evictions, a reader at any time finds for a key exactly what was last
      written for it, and only before that expires and if it was not evicted since. */
  lemma {:induction false} LastWriteIsServed<T>(changes: seq<Change<T>>, key: string, value: T, now: Time)
    ensures key in LiveObjects(AfterChanges(changes), now) && LiveObjects(AfterChanges(changes), now)[key] == value
       <==> exists k: nat :: LastChange(changes, key, k) && Serves(changes[k], value, now)
  {
    if changes != [] {
      var n := |changes| - 1;
      var front := changes[..n];
      LastWriteIsServed(front, key, value, now);
      if changes[n].key == key {
        assert LastChange(changes, key, n);
      } else {
        forall k: nat ensures LastChange(changes, key, k) <==> LastChange(front, key, k) {
          assert k < n ==> changes[k] == front[k];
          assert forall j :: k < j < n ==> changes[j] == front[j];
        }
        assert forall k: nat :: k < n ==> changes[k] == front[k];
      }
    }
  }

  method ScanBand(z: BandStore.Scores, value: string, now: Time) returns (found: set<string>)
    ensures found == BandStore.Scan(z, value, now)
  {
    found := {};
    var todo := z.Keys;
    while todo != {}
      invariant todo <= z.Keys
      invariant found == BandStore.Scan(map m | m in z && m !in todo :: z[m], value, now)
      decreases todo
    {
      var m :| m in todo;
      if value + COLON <= m && z[m] > now && ':' in m { found := found + {AfterColon(m)}; }
      todo := todo - {m};
    }
    assert z == map m | m in z :: z[m];
  }

  /** A band that the call has not reached yet is still as it was. */
  lemma RegisterOne(store: BandStore.RedisBands, done: map<nat, string>, entry: string, ttl: Time, now: Time, i: nat, v: string)
    requires i !in done
    ensures BandStore.Register(store, done[i := v], entry, ttl, now)
         == BandStore.Register(store, done, entry, ttl, now)
              [i := BandStore.Purge(BandStore.ZSetAt(BandStore.Register(store, done, entry, ttl, now), i)
                                      [BandStore.Member(v, entry) := now + ttl], now)]
  {
    assert BandStore.ZSetAt(BandStore.Register(store, done, entry, ttl, now), i) == BandStore.ZSetAt(store, i);
  }

  lemma LookupOne(store: BandStore.RedisBands, done: map<nat, string>, now: Time, i: nat, v: string)
    requires i !in done
    ensures BandStore.Lookup(store, done[i := v], now)
         == BandStore.Lookup(store, done, now) + BandStore.Scan(BandStore.ZSetAt(store, i), v, now)
  {
    var more := done[i := v];
    forall c | c in BandStore.Lookup(store, more, now)
      ensures c in BandStore.Lookup(store, done, now) + BandStore.Scan(BandStore.ZSetAt(store, i), v, now)
    {
      var j :| j in more && c in BandStore.Scan(BandStore.ZSetAt(store, j), more[j], now);
      if j != i { assert j in done; }
    }
    assert i in more && more[i] == v;
    assert forall j :: j in done ==> j in more && more[j] == done[j];
  }
}
