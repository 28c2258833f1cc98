/**
 What the two image caches share: byte sums over their entries, least-recently-used eviction as a
 declarative specification, and the exact retirement of GPU images.
 */
module CacheEviction {
  import opened Basics

  const USIZE_MAX: nat := 0xFFFF_FFFF_FFFF_FFFF

  /** The decoder's allocation limit; it keeps the saturating byte counters exact. */
  const MAX_IMAGE_BYTES: nat := 64 * 1024 * 1024

  function SaturatingAdd(a: nat, b: nat): nat { if a + b > USIZE_MAX then USIZE_MAX else a + b }

  function SaturatingSub(a: nat, b: nat): nat { if a < b then 0 else a - b }

  /** A reference-counted GPU image; two references are the same image when their ids agree. */
  datatype RenderImage = RenderImage(id: nat, decodedBytes: nat)

  type Image = i: RenderImage | i.decodedBytes <= MAX_IMAGE_BYTES witness RenderImage(0, 0)

  datatype Entry<+S> = Entry(state: S, decodedBytes: nat, lastAccess: nat)

  // ---------------------------------------------------------------- byte sums

  ghost function Sum<K(!new), S>(m: map<K, Entry<S>>): nat
    decreases |m|
  {
    if m == map[] then 0
    else
      var k :| k in m;
      SizeAfterRemoval(m, k);
      m[k].decodedBytes + Sum(m - {k})
  }

  lemma SumAfterRemoval<K(!new), S>(m: map<K, Entry<S>>, k: K)
    requires k in m
    ensures Sum(m) == m[k].decodedBytes + Sum(m - {k})
    decreases |m|
  {
    var j :| j in m && Sum(m) == m[j].decodedBytes + Sum(m - {j});
    if j != k {
      SizeAfterRemoval(m, j);
      SizeAfterRemoval(m, k);
      SumAfterRemoval(m - {j}, k);
      SumAfterRemoval(m - {k}, j);
      assert m - {j} - {k} == m - {k} - {j};
    }
  }

  lemma SumAfterUpdate<K(!new), S>(m: map<K, Entry<S>>, k: K, e: Entry<S>)
    ensures Sum(m[k := e]) == Sum(m - {k}) + e.decodedBytes
  {
    SumAfterRemoval(m[k := e], k);
    assert m[k := e] - {k} == m - {k};
  }

  lemma SumOfNothing<K(!new), S>(m: map<K, Entry<S>>)
    requires forall k :: k in m ==> m[k].decodedBytes == 0
    ensures Sum(m) == 0
    decreases |m|
  {
    if m != map[] {
      var k :| k in m;
      SizeAfterRemoval(m, k);
      SumAfterRemoval(m, k);
      SumOfNothing(m - {k});
    }
  }

  lemma SingleEntry<K(!new), S>(m: map<K, Entry<S>>, k: K)
    requires m.Keys == {k}
    ensures |m| == 1 && Sum(m) == m[k].decodedBytes
  {
    assert |m| == |m.Keys|;
    SumAfterRemoval(m, k);
    assert m - {k} == map[];
  }

  // ---------------------------------------------------------------- eviction

  /** Access stamps are distinct and none is ahead of the clock. */
  ghost predicate Stamped<K(!new), S>(m: map<K, Entry<S>>, clock: nat) {
    && (forall k :: k in m ==> m[k].lastAccess <= clock)
    && (forall j, k :: j in m && k in m && j != k ==> m[j].lastAccess != m[k].lastAccess)
  }

  /** Which entries an eviction pass may remove, and which of those it spares while others remain. */
  datatype Policy<!S> = Policy(evictable: S -> bool, deferred: S -> bool)

  predicate Precedes<S>(p: Policy<S>, a: Entry<S>, b: Entry<S>) {
    if p.deferred(a.state) == p.deferred(b.state) then a.lastAccess < b.lastAccess else p.deferred(b.state)
  }

  /** `k` is the next entry to go. */
  predicate IsNext<K(!new), S>(p: Policy<S>, m: map<K, Entry<S>>, k: K) {
    k in m && p.evictable(m[k].state)
    && forall j | j in m :: p.evictable(m[j].state) ==> !Precedes(p, m[j], m[k])
  }

  ghost predicate Fits<K(!new), S>(m: map<K, Entry<S>>, maxEntries: nat, maxBytes: nat) {
    |m| <= maxEntries && Sum(m) <= maxBytes
  }

  /** Nothing may be removed any more. */
  ghost predicate Exhausted<K(!new), S>(p: Policy<S>, m: map<K, Entry<S>>) {
    forall k :: k in m ==> !p.evictable(m[k].state)
  }

  /** `after` is `before` without a downward-closed set of evictable entries, `last` being the last removed. */
  ghost predicate Evicting<K(!new), S>(p: Policy<S>, before: map<K, Entry<S>>, after: map<K, Entry<S>>,
                                       last: Option<K>)
  {
    && (forall k :: k in after ==> k in before && after[k] == before[k])
    && (forall k :: k in before && k !in after ==> p.evictable(before[k].state))
    && (forall k, s :: k in before && k !in after && s in after && p.evictable(before[s].state) ==>
                         Precedes(p, before[k], before[s]))
    && (last.None? ==> after == before)
    && (last.Some? ==>
          && last.value in before && last.value !in after
          && forall k :: k in before && k !in after && k != last.value ==> Precedes(p, before[k], before[last.value]))
  }

  /**
   The specification of an eviction pass: it stops when the limits are met or nothing evictable is
   left, whatever went precedes whatever evictable stayed, and putting the last victim back would
   break a limit.
   */
  ghost predicate IsEviction<K(!new), S>(p: Policy<S>, before: map<K, Entry<S>>, after: map<K, Entry<S>>,
                                         maxEntries: nat, maxBytes: nat) {
    && (Fits(after, maxEntries, maxBytes) || Exhausted(p, after))
    && exists last: Option<K> ::
         && Evicting(p, before, after, last)
         && (last.Some? ==> !Fits(after[last.value := before[last.value]], maxEntries, maxBytes))
  }

  lemma NextExists<K(!new), S>(p: Policy<S>, m: map<K, Entry<S>>, eligible: set<K>)
    requires eligible != {} && forall k :: k in eligible ==> k in m
    ensures exists k :: k in eligible && forall j :: j in eligible ==> !Precedes(p, m[j], m[k])
  {
    var k :| k in eligible;
    if eligible != {k} {
      var rest := eligible - {k};
      assert eligible == rest + {k};
      NextExists(p, m, rest);
      var b :| b in rest && forall j :: j in rest ==> !Precedes(p, m[j], m[b]);
      var best := if Precedes(p, m[k], m[b]) then k else b;
      assert forall j :: j in eligible ==> j in rest || j == k;
      assert best in eligible && forall j :: j in eligible ==> !Precedes(p, m[j], m[best]);
    }
  }

  lemma RemovalFacts<K(!new), S>(m: map<K, Entry<S>>, k: K)
    requires k in m
    ensures (m - {k})[k := m[k]] == m
    ensures Sum(m) == m[k].decodedBytes + Sum(m - {k}) && |m - {k}| == |m| - 1
  {
    SumAfterRemoval(m, k);
    SizeAfterRemoval(m, k);
  }

  /** Removing the next entry continues an eviction pass. */
  lemma EvictNext<K(!new), S>(p: Policy<S>, before: map<K, Entry<S>>, mid: map<K, Entry<S>>, last: Option<K>,
                                    k: K, clock: nat)
    requires Evicting(p, before, mid, last) && Stamped(before, clock) && IsNext(p, mid, k)
    ensures Evicting(p, before, mid - {k}, Some(k))
  {
    var after := mid - {k};
    forall x, s | x in before && x !in after && s in after && p.evictable(before[s].state)
      ensures Precedes(p, before[x], before[s])
    {
      assert x == k || x !in mid;
      assert s in mid && s != k;
    }
    forall x | x in before && x !in after && x != k ensures Precedes(p, before[x], before[k]) {
      assert x !in mid;
    }
  }

  /** The invariant of an eviction loop, `last` being its latest victim. */
  ghost predicate Passing<K(!new), S>(p: Policy<S>, start: map<K, Entry<S>>, mid: map<K, Entry<S>>, last: Option<K>,
                                      maxEntries: nat, maxBytes: nat) {
    && Evicting(p, start, mid, last)
    && (last.Some? ==> !Fits(mid[last.value := start[last.value]], maxEntries, maxBytes))
  }

  lemma PassStep<K(!new), S>(p: Policy<S>, start: map<K, Entry<S>>, mid: map<K, Entry<S>>, last: Option<K>,
                             k: K, clock: nat, maxEntries: nat, maxBytes: nat)
    requires Passing(p, start, mid, last, maxEntries, maxBytes) && Stamped(start, clock)
    requires IsNext(p, mid, k) && !Fits(mid, maxEntries, maxBytes)
    ensures Passing(p, start, mid - {k}, Some(k), maxEntries, maxBytes)
    ensures |mid - {k}| < |mid|
  {
    EvictNext(p, start, mid, last, k, clock);
    RemovalFacts(mid, k);
  }

  lemma PassEnds<K(!new), S>(p: Policy<S>, start: map<K, Entry<S>>, end: map<K, Entry<S>>, last: Option<K>,
                             maxEntries: nat, maxBytes: nat)
    requires Passing(p, start, end, last, maxEntries, maxBytes)
    requires Fits(end, maxEntries, maxBytes) || Exhausted(p, end)
    ensures IsEviction(p, start, end, maxEntries, maxBytes)
  {
  }

  lemma SubmapFits<K(!new), S>(small: map<K, Entry<S>>, large: map<K, Entry<S>>)
    requires forall k :: k in small ==> k in large && small[k] == large[k]
    ensures |small| <= |large| && Sum(small) <= Sum(large)
    decreases |small|
  {
    if small != map[] {
      var k :| k in small;
      RemovalFacts(small, k);
      RemovalFacts(large, k);
      SubmapFits(small - {k}, large - {k});
    }
  }

  // ---------------------------------------------------------------- who is evicted

  /** The entries an eviction pass prefers to `k`. */
  ghost function Ahead<K(!new), S>(p: Policy<S>, m: map<K, Entry<S>>, k: K): set<K>
    requires k in m
  {
    set j | j in m && p.evictable(m[j].state) && Precedes(p, m[j], m[k])
  }

  lemma LastIsNotAhead<K(!new), S>(p: Policy<S>, before: map<K, Entry<S>>, after: map<K, Entry<S>>, last: K, k: K)
    requires Evicting(p, before, after, Some(last)) && k in before && k !in after
    ensures forall s :: s in after || s == last ==> s in before && s !in Ahead(p, before, k)
  {
    assert k != last ==> Precedes(p, before[k], before[last]);
    forall s | s in after && p.evictable(before[s].state) ensures !Precedes(p, before[s], before[k]) {
      assert Precedes(p, before[k], before[s]);
    }
  }

  lemma EvictedDoesNotFit<K(!new), S>(p: Policy<S>, before: map<K, Entry<S>>, after: map<K, Entry<S>>, k: K,
                                      maxEntries: nat, maxBytes: nat)
    requires IsEviction(p, before, after, maxEntries, maxBytes)
    requires k in before && p.evictable(before[k].state) && k !in after
    ensures !Fits(before - Ahead(p, before, k), maxEntries, maxBytes)
  {
    var last: Option<K> :|
      && Evicting(p, before, after, last)
      && (last.Some? ==> !Fits(after[last.value := before[last.value]], maxEntries, maxBytes));
    LastIsNotAhead(p, before, after, last.value, k);
    SubmapFits(after[last.value := before[last.value]], before - Ahead(p, before, k));
  }

  lemma KeptFits<K(!new), S>(p: Policy<S>, before: map<K, Entry<S>>, after: map<K, Entry<S>>, k: K,
                             maxEntries: nat, maxBytes: nat)
    requires IsEviction(p, before, after, maxEntries, maxBytes)
    requires k in before && p.evictable(before[k].state) && k in after
    ensures Fits(before - Ahead(p, before, k), maxEntries, maxBytes)
  {
    var last: Option<K> :| Evicting(p, before, after, last);
    SubmapFits(before - Ahead(p, before, k), after);
  }

  /** An entry is evicted exactly when what is left without all preferred ones still does not fit. */
  lemma EvictedExactly<K(!new), S>(p: Policy<S>, before: map<K, Entry<S>>, after: map<K, Entry<S>>, k: K,
                                   maxEntries: nat, maxBytes: nat)
    requires IsEviction(p, before, after, maxEntries, maxBytes)
    requires k in before && p.evictable(before[k].state)
    ensures k !in after <==> !Fits(before - Ahead(p, before, k), maxEntries, maxBytes)
  {
    if k in after {
      KeptFits(p, before, after, k, maxEntries, maxBytes);
    } else {
      EvictedDoesNotFit(p, before, after, k, maxEntries, maxBytes);
    }
  }

  /** So the outcome of an eviction pass is determined. */
  lemma EvictionUnique<K(!new), S>(p: Policy<S>, before: map<K, Entry<S>>, after: map<K, Entry<S>>,
                                   after': map<K, Entry<S>>, maxEntries: nat, maxBytes: nat)
    requires IsEviction(p, before, after, maxEntries, maxBytes)
    requires IsEviction(p, before, after', maxEntries, maxBytes)
    ensures after == after'
  {
    forall k | k in before ensures k in after <==> k in after' {
      if p.evictable(before[k].state) {
        EvictedExactly(p, before, after, k, maxEntries, maxBytes);
        EvictedExactly(p, before, after', k, maxEntries, maxBytes);
      }
    }
  }

  lemma FittingEvictsNothing<K(!new), S>(p: Policy<S>, before: map<K, Entry<S>>, after: map<K, Entry<S>>,
                                         maxEntries: nat, maxBytes: nat)
    requires IsEviction(p, before, after, maxEntries, maxBytes) && Fits(before, maxEntries, maxBytes)
    ensures after == before
  {
    forall k | k in before ensures k in after {
      if k !in after {
        EvictedDoesNotFit(p, before, after, k, maxEntries, maxBytes);
        SubmapFits(before - Ahead(p, before, k), before);
      }
    }
  }

  // ---------------------------------------------------------------- retirement

  /** `retired` lists, without repetition, exactly the images that were cached and no longer are. */
  ghost predicate RetiredExactly(had: set<Image>, has: set<Image>, retired: seq<Image>) {
    && (forall i, j :: 0 <= i < j < |retired| ==> retired[i] != retired[j])
    && (forall x :: x in retired <==> x in had && x !in has)
  }

  /** The list `push_if_uncached` leaves when image `x` has just lost an entry. */
  function PushIfUncached(retired: seq<Image>, x: Image, has: set<Image>): seq<Image> {
    if x in has || x in retired then retired else retired + [x]
  }

  lemma PushKeepsExact(had: set<Image>, mid: set<Image>, has: set<Image>, retired: seq<Image>, x: Image)
    requires RetiredExactly(had, mid, retired) && x in had && has <= mid <= has + {x}
    ensures RetiredExactly(had, has, PushIfUncached(retired, x, has))
  {
    var out := PushIfUncached(retired, x, has);
    forall y ensures y in out <==> y in had && y !in has {
      assert y in mid <==> y in has || (y == x && x in mid);
    }
  }
}
