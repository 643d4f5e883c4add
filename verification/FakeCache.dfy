/** The in-memory cache: plain dictionaries and lists, the simple form that the Redis store refines. */
module FakeCache {
  import opened Options
  import opened ZSets
  import BandStore
  import Timeline

  type Time = real

  class FakeCacheStore {
    var timeline: seq<Timeline.Entry>
    var simhashBands: BandStore.PlainBands

    constructor ()
      ensures timeline == [] && simhashBands == map[]
    {
      timeline, simhashBands := [], map[];
    }

    /** Drops the hash's old entry, appends the new one, and sorts by descending time. */
    method AddToTimeline(hash: string, timestamp: Time)
      modifies this`timeline
      ensures timeline == Timeline.AddPlain(old(timeline), hash, timestamp)
    {
      var kept := [];
      for i := 0 to |timeline|
        invariant timeline == old(timeline)
        invariant kept + Timeline.Drop(timeline[i..], hash) == Timeline.Drop(timeline, hash)
      {
        DropNext(kept, timeline, i, hash);
        if timeline[i].1 != hash { kept := kept + [timeline[i]]; }
      }
      assert kept == Timeline.Drop(timeline, hash);
      timeline := Timeline.SortDesc(kept + [(timestamp, hash)]);
    }

    method GetTimeline(offset: nat, limit: nat) returns (hashes: seq<string>)
      ensures hashes == Slice(Timeline.Hashes(timeline), offset, limit)
    {
      var from := if offset < |timeline| then offset else |timeline|;
      var to := if offset + limit < |timeline| then offset + limit else |timeline|;
      hashes := Timeline.Hashes(timeline[from..to]);
    }

    method AddSimhashBands(entry: string, bands: map<nat, string>, ttl: Time, now: Time)
      modifies this`simhashBands
      ensures simhashBands == BandStore.PlainRegister(old(simhashBands), bands, entry, ttl, now)
    {
      var todo := bands.Keys;
      ghost var done: map<nat, string> := map[];
      while todo != {}
        invariant todo <= bands.Keys
        invariant done == map i | i in bands && i !in todo :: bands[i]
        invariant simhashBands == BandStore.PlainRegister(old(simhashBands), done, entry, ttl, now)
        decreases todo
      {
        var i :| i in todo;
        var key := (i, bands[i]);
        RegisterOne(old(simhashBands), done, entry, ttl, now, i, bands[i]);
        simhashBands := simhashBands[key := BandStore.PlainAt(simhashBands, key)[entry := now + ttl]];
        done := done[i := bands[i]];
        todo := todo - {i};
      }
      assert done == bands;
    }

    method CheckSimhashBands(bands: map<nat, string>, now: Time) returns (matches: set<string>)
      ensures matches == BandStore.PlainLookup(simhashBands, bands, now)
    {
      matches := {};
      var todo := bands.Keys;
      ghost var done: map<nat, string> := map[];
      while todo != {}
        invariant todo <= bands.Keys
        invariant done == map i | i in bands && i !in todo :: bands[i]
        invariant matches == BandStore.PlainLookup(simhashBands, done, now)
        decreases todo
      {
        var i :| i in todo;
        var entries := BandStore.PlainAt(simhashBands, (i, bands[i]));
        LookupOne(simhashBands, done, now, i, bands[i]);
        matches := matches + set c | c in entries && entries[c] > now;
        done := done[i := bands[i]];
        todo := todo - {i};
      }
      assert done == bands;
    }
  }

  lemma DropNext(kept: seq<Timeline.Entry>, list: seq<Timeline.Entry>, i: nat, hash: string)
    requires i < |list|
    ensures kept + Timeline.Drop(list[i..], hash)
         == (if list[i].1 == hash then kept else kept + [list[i]]) + Timeline.Drop(list[i + 1..], hash)
  {
    DropHead(list[i..], hash);
    assert list[i..][1..] == list[i + 1..];
  }

  lemma DropHead(s: seq<Timeline.Entry>, hash: string)
    requires s != []
    ensures Timeline.Drop(s, hash) == (if s[0].1 == hash then [] else [s[0]]) + Timeline.Drop(s[1..], hash)
  {
  }

  lemma RegisterOne(plain: BandStore.PlainBands, done: map<nat, string>, entry: string, ttl: Time, now: Time, i: nat, v: string)
    requires i !in done
    ensures var before := BandStore.PlainRegister(plain, done, entry, ttl, now);
      BandStore.PlainRegister(plain, done[i := v], entry, ttl, now)
      == before[(i, v) := BandStore.PlainAt(before, (i, v))[entry := now + ttl]]
  {
    var before := BandStore.PlainRegister(plain, done, entry, ttl, now);
    var after := BandStore.PlainRegister(plain, done[i := v], entry, ttl, now);
    RegisteredAt(plain, done, entry, ttl, now, (i, v));
    forall key
      ensures key in after <==> key in before || key == (i, v)
      ensures BandStore.PlainAt(after, key)
           == if key == (i, v) then BandStore.PlainAt(before, key)[entry := now + ttl] else BandStore.PlainAt(before, key)
    {
      RegisteredAt(plain, done, entry, ttl, now, key);
      RegisteredAt(plain, done[i := v], entry, ttl, now, key);
    }
    forall key | key in after
      ensures after[key] == before[(i, v) := BandStore.PlainAt(before, (i, v))[entry := now + ttl]][key]
    {
      assert BandStore.PlainAt(after, key) == after[key];
    }
  }

  predicate Names(bands: map<nat, string>, key: (nat, string)) {
    key.0 in bands && bands[key.0] == key.1
  }

  lemma RegisteredAt(plain: BandStore.PlainBands, bands: map<nat, string>, entry: string, ttl: Time, now: Time, key: (nat, string))
    ensures var r := BandStore.PlainRegister(plain, bands, entry, ttl, now);
      && (key in r <==> key in plain || Names(bands, key))
      && BandStore.PlainAt(r, key) == if Names(bands, key) then BandStore.PlainAt(plain, key)[entry := now + ttl]
                                      else BandStore.PlainAt(plain, key)
  {
    assert Names(bands, key) <==> key in set i | i in bands :: (i, bands[i]);
  }

  lemma LookupOne(plain: BandStore.PlainBands, done: map<nat, string>, now: Time, i: nat, v: string)
    requires i !in done
    ensures var entries := BandStore.PlainAt(plain, (i, v));
      BandStore.PlainLookup(plain, done[i := v], now)
      == BandStore.PlainLookup(plain, done, now) + (set c | c in entries && entries[c] > now)
  {
    var more := done[i := v];
    var entries := BandStore.PlainAt(plain, (i, v));
    forall c | c in BandStore.PlainLookup(plain, more, now)
      ensures c in BandStore.PlainLookup(plain, done, now) || (c in entries && entries[c] > now)
    {
      var j :| j in more && c in BandStore.PlainAt(plain, (j, more[j])) && BandStore.PlainAt(plain, (j, more[j]))[c] > now;
      if j != i { assert j in done && done[j] == more[j]; }
    }
    assert i in more && more[i] == v;
    assert forall j :: j in done ==> j in more && more[j] == done[j];
  }
}
