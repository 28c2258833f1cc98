/**
 The coloured-icon cache: every entry is evictable, so unlike the image cache it never exceeds its
 limits, and what `insert` retires obeys the same exact law.
 */
module SvgCache {
  import opened Basics
  import opened CacheEviction

  type Key = string

  type Entries = map<Key, Entry<Image>>

  const LRU: Policy<Image> := Policy((i: Image) => true, (i: Image) => false)

  function Images(entries: Entries): set<Image> { set k | k in entries :: entries[k].state }

  /** Byte counter, budget and stamps of a cache state. */
  ghost predicate Coherent(entries: Entries, clock: nat, decodedBytes: nat) {
    && decodedBytes == Sum(entries)
    && Stamped(entries, clock)
    && forall k :: k in entries ==> entries[k].decodedBytes == entries[k].state.decodedBytes
  }

  lemma ImagesAfterRemoval(entries: Entries, k: Key)
    requires k in entries
    ensures Images(entries - {k}) <= Images(entries) <= Images(entries - {k}) + {entries[k].state}
  {
    var after := entries - {k};
    forall x | x in Images(entries) ensures x in Images(after) + {entries[k].state} {
      var j :| j in entries && entries[j].state == x;
      assert j != k ==> j in after && after[j] == entries[j];
    }
  }

  lemma ImagesAfterInsert(entries: Entries, k: Key, e: Entry<Image>)
    ensures Images(entries[k := e]) <= Images(entries) + {e.state}
    ensures Images(entries) + {e.state} <= Images(entries[k := e]) + if k in entries then {entries[k].state} else {}
  {
    var after := entries[k := e];
    assert after[k] == e;
    forall x | x in Images(entries) ensures x in Images(after) + if k in entries then {entries[k].state} else {} {
      var j :| j in entries && entries[j].state == x;
      assert j != k ==> j in after && after[j] == entries[j];
    }
  }

  lemma BytesAfterInsert(entries: Entries, k: Key, e: Entry<Image>)
    ensures Sum(entries[k := e])
            == Sum(entries) - (if k in entries then entries[k].decodedBytes else 0) + e.decodedBytes
  {
    SumAfterUpdate(entries, k, e);
    if k in entries {
      SumAfterRemoval(entries, k);
    } else {
      assert entries - {k} == entries;
    }
  }

  lemma NewestAlone(entries: Entries, key: Key, clock: nat)
    requires Stamped(entries, clock) && key in entries && entries[key].lastAccess == clock
    ensures var rest := entries - Ahead(LRU, entries, key); |rest| == 1 && Sum(rest) == entries[key].decodedBytes
  {
    var ahead := Ahead(LRU, entries, key);
    forall j | j in entries && j != key ensures j in ahead {
      assert LRU.evictable(entries[j].state) && Precedes(LRU, entries[j], entries[key]);
    }
    assert (entries - ahead).Keys == {key};
    SingleEntry(entries - ahead, key);
  }

  /** The newest entry survives an eviction pass exactly when it fits on its own. */
  lemma NewestSurvivesIffItFits(before: Entries, after: Entries, key: Key, clock: nat, maxEntries: nat, maxBytes: nat)
    requires Stamped(before, clock) && key in before && before[key].lastAccess == clock && 1 <= maxEntries
    requires IsEviction(LRU, before, after, maxEntries, maxBytes)
    ensures key in after <==> before[key].decodedBytes <= maxBytes
    ensures Fits(after, maxEntries, maxBytes)
  {
    EvictedExactly(LRU, before, after, key, maxEntries, maxBytes);
    NewestAlone(before, key, clock);
    if after != map[] {
      var k :| k in after;
      assert LRU.evictable(after[k].state);
    }
  }

  /** What goes is older than what stays, and what stays is unchanged. */
  lemma OlderGoFirst(before: Entries, after: Entries, maxEntries: nat, maxBytes: nat)
    requires IsEviction(LRU, before, after, maxEntries, maxBytes)
    ensures forall k, s :: k in before && k !in after && s in after ==> before[k].lastAccess < after[s].lastAccess
    ensures forall k :: k in after ==> k in before && after[k] == before[k]
  {
    forall k, s | k in before && k !in after && s in after ensures before[k].lastAccess < after[s].lastAccess {
      assert LRU.evictable(before[s].state) && Precedes(LRU, before[k], before[s]);
    }
  }

  lemma InsertOutcome(was: Entries, key: Key, entry: Entry<Image>, after: Entries, maxEntries: nat, maxBytes: nat)
    requires IsEviction(LRU, was[key := entry], after, maxEntries, maxBytes)
    ensures key in after ==> after[key] == entry
    ensures forall k :: k in after && k != key ==> k in was && after[k] == was[k]
    ensures forall k, s :: k in was && k !in after && k != key && s in after && s != key ==>
                             was[k].lastAccess < after[s].lastAccess
  {
    OlderGoFirst(was[key := entry], after, maxEntries, maxBytes);
    assert forall k :: k in was && k != key ==> was[key := entry][k] == was[k];
  }

  class ColoredSvgCache {
    var entries: Entries
    var clock: nat
    var decodedBytes: nat
    const maxEntries: nat
    const maxDecodedBytes: nat

    ghost predicate Valid()
      reads this
    {
      && Coherent(entries, clock, decodedBytes)
      && Fits(entries, maxEntries, maxDecodedBytes)
      && 1 <= maxEntries && 1 <= maxDecodedBytes <= USIZE_MAX - MAX_IMAGE_BYTES
    }

    constructor (maxEntries: nat, maxDecodedBytes: nat)
      requires maxDecodedBytes <= USIZE_MAX - MAX_IMAGE_BYTES
      ensures Valid() && entries == map[]
    {
      entries, clock, decodedBytes := map[], 0, 0;
      this.maxEntries := if maxEntries < 1 then 1 else maxEntries;
      this.maxDecodedBytes := if maxDecodedBytes < 1 then 1 else maxDecodedBytes;
    }

    method Get(key: Key) returns (image: Option<Image>)
      requires Valid()
      modifies this
      ensures Valid() && clock == old(clock) + 1 && decodedBytes == old(decodedBytes)
      ensures image == if key in old(entries) then Some(old(entries)[key].state) else None
      ensures entries == if key in old(entries) then old(entries)[key := old(entries)[key].(lastAccess := clock)]
                         else old(entries)
    {
      clock := clock + 1;
      if key !in entries {
        return None;
      }
      BytesAfterInsert(entries, key, entries[key].(lastAccess := clock));
      entries := entries[key := entries[key].(lastAccess := clock)];
      assert entries.Keys == old(entries).Keys;
      assert |entries| == |entries.Keys| && |old(entries)| == |old(entries).Keys|;
      return Some(entries[key].state);
    }

    method PushIfUncached(retired: seq<Image>, image: Image) returns (out: seq<Image>)
      ensures out == CacheEviction.PushIfUncached(retired, image, Images(entries))
    {
      if (exists k | k in entries :: entries[k].state == image) || image in retired {
        return retired;
      }
      return retired + [image];
    }

    method Oldest() returns (k: Option<Key>)
      ensures k.None? ==> entries == map[]
      ensures k.Some? ==> IsNext(LRU, entries, k.value)
    {
      if entries == map[] {
        return None;
      }
      NextExists(LRU, entries, entries.Keys);
      var k' :| k' in entries && forall j | j in entries :: entries[k'].lastAccess <= entries[j].lastAccess;
      return Some(k');
    }

    /** Store the image under `key`, before any eviction. */
    method Put(key: Key, image: Image) returns (retired: seq<Image>)
      requires Valid()
      modifies this
      ensures clock == old(clock) + 1 && entries == old(entries)[key := Entry(image, image.decodedBytes, clock)]
      ensures Coherent(entries, clock, decodedBytes)
      ensures Images(entries) <= Images(old(entries)) + {image}
      ensures RetiredExactly(Images(old(entries)) + {image}, Images(entries), retired)
    {
      clock := clock + 1;
      var bytes := image.decodedBytes;
      ghost var had := Images(entries) + {image};
      var previous := if key in entries then Some(entries[key]) else None;
      ghost var before := entries;
      ImagesAfterInsert(before, key, Entry(image, bytes, clock));
      BytesAfterInsert(before, key, Entry(image, bytes, clock));
      entries := entries[key := Entry(image, bytes, clock)];
      retired := [];
      if previous.Some? {
        SumAfterRemoval(before, key);
        decodedBytes := SaturatingSub(decodedBytes, previous.value.decodedBytes);
        retired := PushIfUncached(retired, previous.value.state);
        PushKeepsExact(had, had, Images(entries), [], previous.value.state);
      }
      decodedBytes := SaturatingAdd(decodedBytes, bytes);
    }

    method TrimInto(retired: seq<Image>, ghost had: set<Image>) returns (out: seq<Image>)
      requires Coherent(entries, clock, decodedBytes)
      requires Images(entries) <= had && RetiredExactly(had, Images(entries), retired)
      modifies this`entries, this`decodedBytes
      ensures Coherent(entries, clock, decodedBytes)
      ensures IsEviction(LRU, old(entries), entries, maxEntries, maxDecodedBytes)
      ensures RetiredExactly(had, Images(entries), out)
    {
      out := retired;
      ghost var start, last: Option<Key> := entries, None;
      while |entries| > maxEntries || decodedBytes > maxDecodedBytes
        invariant Coherent(entries, clock, decodedBytes)
        invariant Passing(LRU, start, entries, last, maxEntries, maxDecodedBytes)
        invariant Images(entries) <= had && RetiredExactly(had, Images(entries), out)
        decreases |entries|
      {
        var k := Oldest();
        if k.None? {
          break;
        }
        PassStep(LRU, start, entries, last, k.value, clock, maxEntries, maxDecodedBytes);
        out := Evict(k.value, out, had);
        last := k;
      }
      PassEnds(LRU, start, entries, last, maxEntries, maxDecodedBytes);
    }

    /**
     The retired images are exactly those that were cached, or the incoming one, and no longer are.
     The limits hold afterwards, and the incoming image stays exactly when it fits the byte budget.
     */
    method Insert(key: Key, image: Image) returns (retired: seq<Image>)
      requires Valid()
      modifies this
      ensures Valid()
      ensures RetiredExactly(Images(old(entries)) + {image}, Images(entries), retired)
      ensures IsEviction(LRU, old(entries)[key := Entry(image, image.decodedBytes, clock)], entries,
                         maxEntries, maxDecodedBytes)
      ensures key in entries <==> image.decodedBytes <= maxDecodedBytes
      ensures key in entries ==> entries[key] == Entry(image, image.decodedBytes, clock)
      ensures forall k :: k in entries && k != key ==> k in old(entries) && entries[k] == old(entries)[k]
      ensures forall k, s :: k in old(entries) && k !in entries && k != key && s in entries && s != key ==>
                               old(entries)[k].lastAccess < entries[s].lastAccess
    {
      ghost var had := Images(entries) + {image};
      retired := Put(key, image);
      ghost var start := entries;
      retired := TrimInto(retired, had);
      NewestSurvivesIffItFits(start, entries, key, clock, maxEntries, maxDecodedBytes);
      InsertOutcome(old(entries), key, Entry(image, image.decodedBytes, clock), entries, maxEntries, maxDecodedBytes);
    }

    method Evict(k: Key, retired: seq<Image>, ghost had: set<Image>) returns (out: seq<Image>)
      requires k in entries && Coherent(entries, clock, decodedBytes)
      requires Images(entries) <= had && RetiredExactly(had, Images(entries), retired)
      modifies this`entries, this`decodedBytes
      ensures entries == old(entries) - {k} && Coherent(entries, clock, decodedBytes)
      ensures Images(entries) <= had && RetiredExactly(had, Images(entries), out)
    {
      var evicted := entries[k];
      ghost var mid := Images(entries);
      RemovalFacts(entries, k);
      ImagesAfterRemoval(entries, k);
      assert evicted.state in mid;
      entries := entries - {k};
      decodedBytes := SaturatingSub(decodedBytes, evicted.decodedBytes);
      out := PushIfUncached(retired, evicted.state);
      PushKeepsExact(had, mid, Images(entries), retired, evicted.state);
    }
  }
}
