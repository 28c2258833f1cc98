/**
 The decoded-image cache: in-flight, ready and failed entries, load generations, eviction by
 entries and bytes, and memory pressure.

 `Cache` is the abstract state, `Transition` what each operation may do to it. The theorems are
 about every run of transitions; the class is the imperative code, each method a transition.
 The clock and the generations are unbounded.
 */
module ImageCache {
  import opened Basics
  import opened CacheEviction

  type Source = string

  datatype ImageState = Loading(generation: nat) | Ready(image: Image) | Failed

  type Entries = map<Source, Entry<ImageState>>

  datatype Cache = Cache(entries: Entries, clock: nat, loadGeneration: nat, decodedBytes: nat,
                         maxEntries: nat, maxDecodedBytes: nat)

  datatype Lookup = Existing(state: ImageState) | StartLoad(generation: nat) | AtCapacity

  datatype Pressure = Normal | Warning | Critical

  /** Least recently used first; in-flight entries are never evicted. */
  const TRIM: Policy<ImageState> := Policy((s: ImageState) => !s.Loading?, (s: ImageState) => false)

  /** As `TRIM`, but failed entries go before ready ones. */
  const WARN: Policy<ImageState> := Policy((s: ImageState) => !s.Loading?, (s: ImageState) => s.Ready?)

  function Weight(s: ImageState): nat { if s.Ready? then s.image.decodedBytes else 0 }

  function Images(entries: Entries): set<Image> {
    set k | k in entries && entries[k].state.Ready? :: entries[k].state.image
  }

  function ImageOf(s: ImageState): set<Image> { if s.Ready? then {s.image} else {} }

  function Loads(entries: Entries): set<Source> { set k | k in entries && entries[k].state.Loading? }

  // ---------------------------------------------------------------- transitions

  function New(maxEntries: nat, maxDecodedBytes: nat): Cache {
    Cache(map[], 0, 0, 0, if maxEntries < 1 then 1 else maxEntries, if maxDecodedBytes < 1 then 1 else maxDecodedBytes)
  }

  predicate Full(c: Cache) {
    |c.entries| >= c.maxEntries && forall k | k in c.entries :: c.entries[k].state.Loading?
  }

  function LookedUp(c: Cache, src: Source): (Cache, Lookup) {
    var c1 := c.(clock := c.clock + 1);
    if src in c.entries then
      (c1.(entries := c.entries[src := c.entries[src].(lastAccess := c1.clock)]), Existing(c.entries[src].state))
    else if Full(c) then (c1, AtCapacity)
    else
      var g := c.loadGeneration + 1;
      (c1.(entries := c.entries[src := Entry(Loading(g), 0, c1.clock)], loadGeneration := g), StartLoad(g))
  }

  predicate IsCurrent(c: Cache, src: Source, g: nat) {
    src in c.entries && c.entries[src].state == Loading(g)
  }

  /** An accepted load result, before trimming. */
  function Installed(c: Cache, src: Source, state: ImageState): Cache {
    c.(entries := c.entries[src := Entry(state, Weight(state), c.clock + 1)],
       clock := c.clock + 1,
       decodedBytes := c.decodedBytes + Weight(state))
  }

  ghost predicate Trims(p: Policy<ImageState>, c: Cache, c': Cache, maxEntries: nat, maxBytes: nat) {
    && c' == c.(entries := c'.entries, decodedBytes := Sum(c'.entries))
    && IsEviction(p, c.entries, c'.entries, maxEntries, maxBytes)
  }

  ghost predicate Finishes(c: Cache, src: Source, g: nat, state: ImageState, c': Cache) {
    if IsCurrent(c, src, g) then Trims(TRIM, Installed(c, src, state), c', c.maxEntries, c.maxDecodedBytes)
    else c' == c
  }

  function Aborted(c: Cache, src: Source, g: nat): Cache {
    if IsCurrent(c, src, g) then c.(entries := c.entries - {src}) else c
  }

  function Retried(c: Cache, src: Source): Cache {
    if src in c.entries && c.entries[src].state.Failed? then c.(entries := c.entries - {src}) else c
  }

  ghost predicate Relieves(c: Cache, pressure: Pressure, c': Cache) {
    match pressure
    case Normal => Trims(TRIM, c, c', c.maxEntries, c.maxDecodedBytes)
    case Warning => Trims(WARN, c, c', c.maxEntries / 2, c.maxDecodedBytes / 2)
    case Critical => c' == c.(entries := map[], decodedBytes := 0)
  }

  /** A load ends as ready or failed; both callers of `finish` pass one of the two. */
  type Outcome = s: ImageState | !s.Loading? witness Failed

  datatype Op =
    | DoLookup(src: Source)
    | DoFinish(src: Source, generation: nat, outcome: Outcome)
    | DoAbort(src: Source, generation: nat)
    | DoRetry(src: Source)
    | DoPressure(pressure: Pressure)

  ghost predicate Transition(c: Cache, op: Op, c': Cache) {
    match op
    case DoLookup(src) => c' == LookedUp(c, src).0
    case DoFinish(src, g, outcome) => Finishes(c, src, g, outcome, c')
    case DoAbort(src, g) => c' == Aborted(c, src, g)
    case DoRetry(src) => c' == Retried(c, src)
    case DoPressure(pressure) => Relieves(c, pressure, c')
  }

  // ---------------------------------------------------------------- the invariant

  ghost predicate LoadsDistinct(c: Cache) {
    && (forall k :: k in c.entries && c.entries[k].state.Loading? ==>
                      1 <= c.entries[k].state.generation <= c.loadGeneration)
    && (forall j, k :: j in c.entries && k in c.entries && j != k && c.entries[j].state.Loading? ==>
                         c.entries[j].state != c.entries[k].state)
  }

  /** The invariant apart from the byte budget, which an insertion may exceed until the trim. */
  ghost predicate Coherent(c: Cache) {
    && c.decodedBytes == Sum(c.entries)
    && (forall k :: k in c.entries ==> c.entries[k].decodedBytes == Weight(c.entries[k].state))
    && Stamped(c.entries, c.clock)
    && LoadsDistinct(c)
    && 1 <= c.maxEntries && 1 <= c.maxDecodedBytes <= USIZE_MAX - MAX_IMAGE_BYTES
  }

  ghost predicate Valid(c: Cache) {
    Coherent(c) && c.decodedBytes <= c.maxDecodedBytes
  }

  lemma TrimKeepsValid(p: Policy<ImageState>, c: Cache, c': Cache, maxEntries: nat, maxBytes: nat)
    requires Coherent(c) && Trims(p, c, c', maxEntries, maxBytes) && maxBytes <= c.maxDecodedBytes
    requires forall s :: p.evictable(s) <==> !s.Loading?
    ensures Valid(c')
  {
    if !Fits(c'.entries, maxEntries, maxBytes) {
      SumOfNothing(c'.entries);
    }
  }

  lemma InstalledBytes(c: Cache, src: Source, state: Outcome)
    requires src in c.entries && c.entries[src].decodedBytes == 0
    ensures Sum(Installed(c, src, state).entries) == Sum(c.entries) + Weight(state)
    ensures |Installed(c, src, state).entries| == |c.entries|
  {
    var entries := Installed(c, src, state).entries;
    SumAfterUpdate(c.entries, src, entries[src]);
    SumAfterRemoval(c.entries, src);
    assert entries.Keys == c.entries.Keys;
    assert |entries| == |entries.Keys| == |c.entries.Keys|;
  }

  lemma InstalledIsCoherent(c: Cache, src: Source, g: nat, state: Outcome)
    requires Valid(c) && IsCurrent(c, src, g)
    ensures Coherent(Installed(c, src, state)) && Installed(c, src, state).decodedBytes <= USIZE_MAX
    ensures |Installed(c, src, state).entries| == |c.entries|
  {
    InstalledBytes(c, src, state);
  }

  lemma InstalledImages(c: Cache, src: Source, g: nat, state: Outcome)
    requires IsCurrent(c, src, g)
    ensures Images(Installed(c, src, state).entries) == Images(c.entries) + ImageOf(state)
  {
    var entries := Installed(c, src, state).entries;
    forall x | x in Images(c.entries) + ImageOf(state) ensures x in Images(entries) {
      if x in Images(c.entries) {
        var k :| k in c.entries && c.entries[k].state.Ready? && c.entries[k].state.image == x;
        assert k in entries && entries[k] == c.entries[k];
      } else {
        assert entries[src].state.Ready? && entries[src].state.image == x;
      }
    }
  }

  lemma RemovalKeepsValid(c: Cache, src: Source)
    requires Valid(c) && src in c.entries && !c.entries[src].state.Ready?
    ensures Valid(c.(entries := c.entries - {src}))
  {
    RemovalFacts(c.entries, src);
  }

  lemma LookupKeepsBytes(c: Cache, src: Source)
    ensures Sum(LookedUp(c, src).0.entries) == Sum(c.entries)
  {
    var c' := LookedUp(c, src).0;
    if src in c'.entries {
      SumAfterUpdate(c.entries, src, c'.entries[src]);
      if src in c.entries {
        SumAfterRemoval(c.entries, src);
      } else {
        assert c.entries - {src} == c.entries;
      }
    }
  }

  lemma LookupKeepsLoads(c: Cache, src: Source)
    requires LoadsDistinct(c)
    ensures LoadsDistinct(LookedUp(c, src).0)
  {
  }

  lemma LookupKeepsWeights(c: Cache, src: Source)
    requires forall k :: k in c.entries ==> c.entries[k].decodedBytes == Weight(c.entries[k].state)
    ensures var c' := LookedUp(c, src).0;
            && c'.decodedBytes == c.decodedBytes && c'.clock == c.clock + 1
            && c'.maxEntries == c.maxEntries && c'.maxDecodedBytes == c.maxDecodedBytes
            && forall k :: k in c'.entries ==> c'.entries[k].decodedBytes == Weight(c'.entries[k].state)
  {
  }

  lemma LookupKeepsStamps(c: Cache, src: Source)
    requires Stamped(c.entries, c.clock)
    ensures Stamped(LookedUp(c, src).0.entries, c.clock + 1)
  {
  }

  lemma LookupKeepsValid(c: Cache, src: Source)
    requires Valid(c)
    ensures Valid(LookedUp(c, src).0)
  {
    LookupKeepsBytes(c, src);
    LookupKeepsWeights(c, src);
    LookupKeepsStamps(c, src);
    LookupKeepsLoads(c, src);
  }

  lemma TransitionKeepsValid(c: Cache, op: Op, c': Cache)
    requires Valid(c) && Transition(c, op, c')
    ensures Valid(c')
  {
    match op
    case DoLookup(src) => LookupKeepsValid(c, src);
    case DoFinish(src, g, outcome) =>
      if IsCurrent(c, src, g) {
        InstalledIsCoherent(c, src, g, outcome);
        TrimKeepsValid(TRIM, Installed(c, src, outcome), c', c.maxEntries, c.maxDecodedBytes);
      }
    case DoAbort(src, g) => if IsCurrent(c, src, g) { RemovalKeepsValid(c, src); }
    case DoRetry(src) => if c' != c { RemovalKeepsValid(c, src); }
    case DoPressure(Normal) => TrimKeepsValid(TRIM, c, c', c.maxEntries, c.maxDecodedBytes);
    case DoPressure(Warning) => TrimKeepsValid(WARN, c, c', c.maxEntries / 2, c.maxDecodedBytes / 2);
    case DoPressure(Critical) =>
  }

  lemma ReliefKeepsValid(c: Cache, pressure: Pressure, c': Cache)
    requires Valid(c) && Relieves(c, pressure, c')
    ensures Valid(c') && |c'.entries| <= |c.entries| && c'.decodedBytes <= c.decodedBytes
  {
    TransitionKeepsValid(c, DoPressure(pressure), c');
    SubmapFits(c'.entries, c.entries);
  }

  // ---------------------------------------------------------------- whole runs

  ghost predicate IsRun(states: seq<Cache>, ops: seq<Op>) {
    && |states| == |ops| + 1
    && (exists maxEntries, maxBytes: nat ::
          maxBytes <= USIZE_MAX - MAX_IMAGE_BYTES && states[0] == New(maxEntries, maxBytes))
    && forall i :: 0 <= i < |ops| ==> Transition(states[i], ops[i], states[i + 1])
  }

  /**
   In every reachable state the byte counter is the sum over the entries, loading and failed
   entries weigh nothing, and the counter is within the budget.
   */
  lemma {:induction false} RunsStayValid(states: seq<Cache>, ops: seq<Op>, i: nat)
    requires IsRun(states, ops) && i < |states|
    ensures Valid(states[i])
  {
    if i > 0 {
      RunsStayValid(states, ops, i - 1);
      TransitionKeepsValid(states[i - 1], ops[i - 1], states[i]);
    }
  }

  /** An accepted result leaves the limits met, or only loads in the cache. */
  lemma AcceptedFinishFits(c: Cache, src: Source, g: nat, outcome: Outcome, c': Cache)
    requires IsCurrent(c, src, g) && Finishes(c, src, g, outcome, c')
    ensures |c'.entries| <= c.maxEntries || forall k :: k in c'.entries ==> c'.entries[k].state.Loading?
  {
  }

  /** What it evicts is older than every surviving non-loading entry, and no other load is touched. */
  lemma AcceptedFinishEvictsOldest(c: Cache, src: Source, g: nat, outcome: Outcome, c': Cache)
    requires IsCurrent(c, src, g) && Finishes(c, src, g, outcome, c')
    ensures forall k, s ::
              k in c.entries && k !in c'.entries && k != src && s in c'.entries && !c'.entries[s].state.Loading?
              ==> c.entries[k].lastAccess < c'.entries[s].lastAccess
    ensures forall k :: k in c.entries && k != src && c.entries[k].state.Loading? ==>
                          k in c'.entries && c'.entries[k] == c.entries[k]
  {
    var mid := Installed(c, src, outcome);
    var last: Option<Source> :| Evicting(TRIM, mid.entries, c'.entries, last);
    forall k, s | k in c.entries && k !in c'.entries && k != src && s in c'.entries && !c'.entries[s].state.Loading?
      ensures c.entries[k].lastAccess < c'.entries[s].lastAccess
    {
      assert Precedes(TRIM, mid.entries[k], mid.entries[s]);
    }
    forall k | k in c.entries && k != src && c.entries[k].state.Loading?
      ensures k in c'.entries && c'.entries[k] == c.entries[k]
    {
      assert mid.entries[k] == c.entries[k] && !TRIM.evictable(mid.entries[k].state);
    }
  }

  /** A result that fits evicts nothing. */
  lemma AcceptedFinishWithRoom(c: Cache, src: Source, g: nat, outcome: Outcome, c': Cache)
    requires Valid(c) && IsCurrent(c, src, g) && Finishes(c, src, g, outcome, c')
    requires |c.entries| <= c.maxEntries && c.decodedBytes + Weight(outcome) <= c.maxDecodedBytes
    ensures c' == Installed(c, src, outcome)
  {
    InstalledIsCoherent(c, src, g, outcome);
    FittingEvictsNothing(TRIM, Installed(c, src, outcome).entries, c'.entries, c.maxEntries, c.maxDecodedBytes);
  }

  /** What the trim after an accepted result evicts: an entry that does not fit even without all older ones. */
  lemma AcceptedFinishEvictsExactly(c: Cache, src: Source, g: nat, outcome: Outcome, c': Cache, k: Source)
    requires IsCurrent(c, src, g) && Finishes(c, src, g, outcome, c')
    requires k in c.entries && (k == src || !c.entries[k].state.Loading?)
    ensures var mid := Installed(c, src, outcome).entries;
            k !in c'.entries <==> !Fits(mid - Ahead(TRIM, mid, k), c.maxEntries, c.maxDecodedBytes)
  {
    EvictedExactly(TRIM, Installed(c, src, outcome).entries, c'.entries, k, c.maxEntries, c.maxDecodedBytes);
  }

  lemma OlderThanResult(c: Cache, src: Source, g: nat, outcome: Outcome)
    requires Valid(c) && IsCurrent(c, src, g)
    ensures var mid := Installed(c, src, outcome).entries; (mid - Ahead(TRIM, mid, src)).Keys == Loads(c.entries)
  {
    var mid := Installed(c, src, outcome).entries;
    var ahead := Ahead(TRIM, mid, src);
    forall j | j in mid && j != src ensures j in ahead <==> j !in Loads(c.entries) {
      assert mid[j] == c.entries[j] && mid[j].lastAccess <= c.clock;
    }
    assert src in Loads(c.entries) && src !in ahead;
  }

  lemma AloneWithLoads(c: Cache, src: Source, g: nat, outcome: Outcome)
    requires Valid(c) && IsCurrent(c, src, g)
    ensures var mid := Installed(c, src, outcome).entries; var rest := mid - Ahead(TRIM, mid, src);
            |rest| == |Loads(c.entries)| && Sum(rest) == Weight(outcome)
  {
    var mid := Installed(c, src, outcome).entries;
    var rest := mid - Ahead(TRIM, mid, src);
    OlderThanResult(c, src, g, outcome);
    LoadsWeigh(c, src, g, outcome, rest);
  }

  lemma LoadsWeigh(c: Cache, src: Source, g: nat, outcome: Outcome, rest: Entries)
    requires Valid(c) && IsCurrent(c, src, g) && rest.Keys == Loads(c.entries)
    requires forall k :: k in rest ==> rest[k] == Installed(c, src, outcome).entries[k]
    ensures |rest| == |Loads(c.entries)| && Sum(rest) == Weight(outcome)
  {
    assert |rest| == |rest.Keys|;
    RemovalFacts(rest, src);
    forall k | k in rest - {src} ensures rest[k].decodedBytes == 0 {
      assert rest[k] == c.entries[k] && k in Loads(c.entries);
    }
    SumOfNothing(rest - {src});
  }

  /** The result itself stays exactly when it fits the byte budget and the loads leave it a slot. */
  lemma ResultSurvivesExactly(c: Cache, src: Source, g: nat, outcome: Outcome, c': Cache)
    requires Valid(c) && IsCurrent(c, src, g) && Finishes(c, src, g, outcome, c')
    ensures src in c'.entries <==> Weight(outcome) <= c.maxDecodedBytes && |Loads(c.entries)| <= c.maxEntries
  {
    AcceptedFinishEvictsExactly(c, src, g, outcome, c', src);
    AloneWithLoads(c, src, g, outcome);
  }

  /** A warning pass evicts no ready image while a failed entry remains, and no load at all. */
  lemma WarningSparesReady(c: Cache, c': Cache)
    requires Relieves(c, Warning, c')
    ensures (exists k :: k in c.entries && k !in c'.entries && c.entries[k].state.Ready?) ==>
              forall s :: s in c'.entries ==> !c'.entries[s].state.Failed?
    ensures forall k :: k in c.entries && c.entries[k].state.Loading? ==>
                          k in c'.entries && c'.entries[k] == c.entries[k]
  {
    var last: Option<Source> :| Evicting(WARN, c.entries, c'.entries, last);
    if k :| k in c.entries && k !in c'.entries && c.entries[k].state.Ready? {
      forall s | s in c'.entries ensures !c'.entries[s].state.Failed? {
        if c'.entries[s].state.Failed? {
          assert Precedes(WARN, c.entries[k], c.entries[s]) by {
            assert WARN.evictable(c.entries[s].state);
          }
        }
      }
    }
  }

  /** Among entries of one kind, failed or ready, a warning pass evicts the older ones. */
  lemma WarningEvictsOldest(c: Cache, c': Cache)
    requires Relieves(c, Warning, c')
    ensures forall k, s ::
              k in c.entries && k !in c'.entries && s in c'.entries && !c'.entries[s].state.Loading?
              && c.entries[k].state.Failed? == c'.entries[s].state.Failed?
              ==> c.entries[k].lastAccess < c'.entries[s].lastAccess
  {
    var last: Option<Source> :| Evicting(WARN, c.entries, c'.entries, last);
    forall k, s | k in c.entries && k !in c'.entries && s in c'.entries
                  && c.entries[k].state.Failed? == c'.entries[s].state.Failed? && !c'.entries[s].state.Loading?
      ensures c.entries[k].lastAccess < c'.entries[s].lastAccess
    {
      assert WARN.evictable(c.entries[s].state) && Precedes(WARN, c.entries[k], c.entries[s]);
    }
  }

  /** Relief meets its limits, halved under warning pressure, or leaves only loads; what stays is unchanged. */
  lemma ReliefMeetsLimits(c: Cache, pressure: Pressure, c': Cache)
    requires Relieves(c, pressure, c')
    ensures pressure.Normal? ==> || (|c'.entries| <= c.maxEntries && c'.decodedBytes <= c.maxDecodedBytes)
                                 || forall k :: k in c'.entries ==> c'.entries[k].state.Loading?
    ensures pressure.Warning? ==> || (|c'.entries| <= c.maxEntries / 2 && c'.decodedBytes <= c.maxDecodedBytes / 2)
                                  || forall k :: k in c'.entries ==> c'.entries[k].state.Loading?
    ensures pressure.Critical? ==> c'.entries == map[] && c'.decodedBytes == 0
    ensures forall k :: k in c'.entries ==> k in c.entries && c'.entries[k] == c.entries[k]
  {
  }

  /** The accepted result is stored as it came, with the newest stamp; nothing else that stays changes. */
  lemma AcceptedFinishStores(c: Cache, src: Source, g: nat, outcome: Outcome, c': Cache)
    requires Valid(c) && IsCurrent(c, src, g) && Finishes(c, src, g, outcome, c')
    ensures src in c'.entries ==>
              c'.entries[src].state == outcome
              && forall k :: k in c'.entries && k != src ==> c'.entries[k].lastAccess < c'.entries[src].lastAccess
    ensures forall k :: k in c'.entries && k != src ==> k in c.entries && c'.entries[k] == c.entries[k]
  {
    var mid := Installed(c, src, outcome).entries;
    assert forall k :: k in c'.entries ==> k in mid && c'.entries[k] == mid[k];
  }

  // ---------------------------------------------------------------- what a lookup answers

  /** A cached source is answered with its state; only its stamp changes, and becomes the newest. */
  lemma LookupHits(c: Cache, src: Source)
    requires Valid(c) && src in c.entries
    ensures var (c', r) := LookedUp(c, src);
            && r == Existing(c.entries[src].state) && c'.loadGeneration == c.loadGeneration
            && c'.entries.Keys == c.entries.Keys
            && c'.entries[src] == c.entries[src].(lastAccess := c'.entries[src].lastAccess)
            && forall k :: k in c.entries && k != src ==>
                             c'.entries[k] == c.entries[k] && c'.entries[k].lastAccess < c'.entries[src].lastAccess
  {
  }

  /** A lookup is refused exactly when the source is absent and every slot is taken by a load. */
  lemma LookupRefusesExactly(c: Cache, src: Source)
    ensures var (c', r) := LookedUp(c, src);
            && (r.AtCapacity? <==> src !in c.entries && c.maxEntries <= |c.entries|
                                   && forall k :: k in c.entries ==> c.entries[k].state.Loading?)
            && (r.AtCapacity? ==> c'.entries == c.entries && c'.loadGeneration == c.loadGeneration)
            && (r.Existing? <==> src in c.entries)
  {
  }

  /** A started load is the current one of its source, under a generation above every earlier one. */
  lemma LookupStarts(c: Cache, src: Source)
    requires Valid(c) && LookedUp(c, src).1.StartLoad?
    ensures var (c', r) := LookedUp(c, src);
            && IsCurrent(c', src, r.generation) && c.loadGeneration < r.generation == c'.loadGeneration
            && (forall k :: k in c.entries && c.entries[k].state.Loading? ==>
                              c.entries[k].state.generation < r.generation)
            && (forall k :: k in c.entries ==> c'.entries[k].lastAccess < c'.entries[src].lastAccess)
            && c'.entries - {src} == c.entries
  {
    assert LookedUp(c, src).0.entries - {src} == c.entries;
  }

  /** An entry just looked up is the last to go: a trim takes it only after every other finished entry. */
  lemma JustUsedGoesLast(c: Cache, src: Source, after: Entries, maxEntries: nat, maxBytes: nat)
    requires Valid(c) && src in c.entries && !c.entries[src].state.Loading?
    requires IsEviction(TRIM, LookedUp(c, src).0.entries, after, maxEntries, maxBytes)
    ensures src !in after ==> forall k :: k in after ==> after[k].state.Loading?
  {
    var entries := LookedUp(c, src).0.entries;
    LookupHits(c, src);
    if src !in after {
      assert forall k :: k in after && !after[k].state.Loading? ==> Precedes(TRIM, entries[src], entries[k]);
    }
  }

  lemma FinishedStateStays(c: Cache, op: Op, c': Cache, src: Source)
    requires Transition(c, op, c') && src in c.entries && !c.entries[src].state.Loading? && src in c'.entries
    ensures c'.entries[src].state == c.entries[src].state
  {
  }

  lemma {:induction false} FinishedStateLasts(states: seq<Cache>, ops: seq<Op>, i: nat, j: nat, src: Source)
    requires IsRun(states, ops) && i <= j < |states|
    requires forall n :: i <= n <= j ==> src in states[n].entries
    requires !states[i].entries[src].state.Loading?
    ensures states[j].entries[src].state == states[i].entries[src].state
  {
    if i < j {
      FinishedStateLasts(states, ops, i, j - 1, src);
      FinishedStateStays(states[j - 1], ops[j - 1], states[j], src);
    }
  }

  /** In every run, as long as an accepted result stays cached, it is what a lookup of its source answers. */
  lemma ResultIsAnswered(states: seq<Cache>, ops: seq<Op>, i: nat, j: nat)
    requires IsRun(states, ops) && i < j < |states|
    requires ops[i].DoFinish? && IsCurrent(states[i], ops[i].src, ops[i].generation)
    requires forall n :: i < n <= j ==> ops[i].src in states[n].entries
    ensures LookedUp(states[j], ops[i].src).1 == Existing(ops[i].outcome)
  {
    RunsStayValid(states, ops, i);
    AcceptedFinishStores(states[i], ops[i].src, ops[i].generation, ops[i].outcome, states[i + 1]);
    FinishedStateLasts(states, ops, i + 1, j, ops[i].src);
  }

  /** A retry forgets a failed source and nothing else; the next lookup starts a load unless loads fill the cache. */
  lemma RetryStartsAgain(c: Cache, src: Source)
    requires Valid(c) && src in c.entries
    ensures !c.entries[src].state.Failed? ==> Retried(c, src) == c
    ensures c.entries[src].state.Failed? ==>
              && Retried(c, src).entries == c.entries - {src}
              && (LookedUp(Retried(c, src), src).1.StartLoad?
                  <==> |c.entries| <= c.maxEntries || |Loads(c.entries)| < |c.entries| - 1)
  {
    if c.entries[src].state.Failed? {
      var rest := c.entries - {src};
      SizeAfterRemoval(c.entries, src);
      LoadsLeft(c.entries, src);
      assert Loads(rest) == rest.Keys <==> forall k :: k in rest ==> rest[k].state.Loading?;
      assert |rest| == |rest.Keys|;
      if Loads(rest) != rest.Keys { assert Loads(rest) < rest.Keys; ProperSize(Loads(rest), rest.Keys); }
    }
  }

  lemma LoadsLeft(entries: Entries, k: Source)
    requires k in entries && !entries[k].state.Loading?
    ensures Loads(entries - {k}) == Loads(entries)
  {
  }

  lemma ProperSize(a: set<Source>, b: set<Source>)
    requires a < b
    ensures |a| < |b|
  {
    assert b == a + (b - a);
  }

  /** An abort takes away only its own load: a newer one of the same source, a result, and all others stay. */
  lemma AbortSparesOthers(c: Cache, src: Source, g: nat, k: Source)
    requires Valid(c) && k in c.entries
    ensures k in Aborted(c, src, g).entries <==> !(k == src && c.entries[k].state == Loading(g))
    ensures k in Aborted(c, src, g).entries ==> Aborted(c, src, g).entries[k] == c.entries[k]
    ensures forall newer :: newer != g && IsCurrent(c, src, newer) ==> Aborted(c, src, g) == c
  {
  }

  /** Some entry is waiting for load `g`. */
  ghost predicate IsLive(c: Cache, g: nat) {
    exists k :: IsCurrent(c, k, g)
  }

  /** A generation already handed out and no longer live never becomes live again. */
  lemma DeadStaysDead(c: Cache, op: Op, c': Cache, g: nat)
    requires Transition(c, op, c') && g <= c.loadGeneration && !IsLive(c, g)
    ensures g <= c'.loadGeneration && !IsLive(c', g)
  {
    forall k ensures !IsCurrent(c', k, g) {
      assert !IsCurrent(c, k, g);
    }
  }

  predicate EndsLoad(op: Op, src: Source, g: nat) {
    op == DoPressure(Critical) || ((op.DoFinish? || op.DoAbort?) && op.src == src && op.generation == g)
  }

  /** After a result, an abort or a critical wipe for load `g`, that load is no longer live. */
  lemma LoadEnds(c: Cache, op: Op, c': Cache, src: Source, g: nat)
    requires Valid(c) && Transition(c, op, c') && IsCurrent(c, src, g)
    requires EndsLoad(op, src, g)
    ensures g <= c'.loadGeneration && !IsLive(c', g)
  {
    forall k ensures !IsCurrent(c', k, g) {
      assert k != src ==> !IsCurrent(c, k, g);
    }
  }

  lemma {:induction false} DeadForever(states: seq<Cache>, ops: seq<Op>, i: nat, j: nat, g: nat)
    requires IsRun(states, ops) && i <= j < |states|
    requires g <= states[i].loadGeneration && !IsLive(states[i], g)
    ensures g <= states[j].loadGeneration && !IsLive(states[j], g)
  {
    if i < j {
      DeadForever(states, ops, i, j - 1, g);
      DeadStaysDead(states[j - 1], ops[j - 1], states[j], g);
    }
  }

  lemma DeadAfterEnd(states: seq<Cache>, ops: seq<Op>, i: nat, j: nat, src: Source, g: nat)
    requires IsRun(states, ops) && i < j < |ops|
    requires IsCurrent(states[i], src, g) && EndsLoad(ops[i], src, g)
    ensures !IsLive(states[j], g)
  {
    RunsStayValid(states, ops, i);
    LoadEnds(states[i], ops[i], states[i + 1], src, g);
    DeadForever(states, ops, i + 1, j, g);
  }

  lemma FinishWhenDead(c: Cache, op: Op, c': Cache, g: nat)
    requires Transition(c, op, c') && op.DoFinish? && op.generation == g && !IsLive(c, g)
    ensures c' == c
  {
    assert !IsCurrent(c, op.src, g);
  }

  /**
   Every started load takes effect at most once in any run: once it was finished, aborted or wiped,
   a later result for it, under whatever source, changes nothing.
   */
  lemma TakesEffectAtMostOnce(states: seq<Cache>, ops: seq<Op>, i: nat, j: nat, src: Source, g: nat)
    requires IsRun(states, ops) && i < j < |ops|
    requires IsCurrent(states[i], src, g)
    requires EndsLoad(ops[i], src, g)
    requires ops[j].DoFinish? && ops[j].generation == g
    ensures states[j + 1] == states[j]
  {
    DeadAfterEnd(states, ops, i, j, src, g);
    FinishWhenDead(states[j], ops[j], states[j + 1], g);
  }

  // ---------------------------------------------------------------- what the entry limit does not promise

  /** Starting a load keeps the entry count within the limit exactly when there was room for one more. */
  lemma StartKeepsLimitExactly(c: Cache, src: Source)
    requires LookedUp(c, src).1.StartLoad?
    ensures |LookedUp(c, src).0.entries| <= c.maxEntries <==> |c.entries| < c.maxEntries
  {
    RemovalFacts(LookedUp(c, src).0.entries, src);
    assert LookedUp(c, src).0.entries - {src} == c.entries;
  }

  function Name(n: nat): Source { seq(n, _ => 'x') }

  /** A new cache after its first load has ended with `first`. */
  function Begun(c: Cache, src: Source, first: Outcome): Cache { Installed(LookedUp(c, src).0, src, first) }

  /** The same cache after `n` further lookups of new sources. */
  function Crowd(maxEntries: nat, maxBytes: nat, first: Outcome, n: nat): Cache {
    if n == 0 then Begun(New(maxEntries, maxBytes), Name(0), first)
    else LookedUp(Crowd(maxEntries, maxBytes, first, n - 1), Name(n)).0
  }

  /** A finished entry lets a lookup of a new source in, however many entries there are. */
  lemma LookupJoins(c: Cache, first: Source, k: Source)
    requires first in c.entries && !c.entries[first].state.Loading? && k !in c.entries
    ensures var c' := LookedUp(c, k).0;
            && |c'.entries| == |c.entries| + 1 && k in c'.entries && c'.entries - {k} == c.entries
            && c'.entries[k].state == Loading(c'.loadGeneration) && c'.loadGeneration == c.loadGeneration + 1
  {
    assert !Full(c);
    var c' := LookedUp(c, k).0;
    assert c'.entries - {k} == c.entries;
    RemovalFacts(c'.entries, k);
  }

  /** The first entry, finished, and `n` loads beside it, their names at most `n` long. */
  ghost predicate Crowded(c: Cache, first: Outcome, n: nat) {
    && |c.entries| == n + 1 && c.loadGeneration == n + 1
    && Name(0) in c.entries && c.entries[Name(0)].state == first
    && (forall k :: k in c.entries ==> |k| <= n && (k == Name(0) || c.entries[k].state.Loading?))
    && (n > 0 ==> IsCurrent(c, Name(1), 2))
  }

  lemma FirstOfCrowd(c: Cache, src: Source, first: Outcome)
    requires c.entries == map[] && c.loadGeneration == 0 && c.maxEntries > 0 && src == Name(0)
    ensures Crowded(Begun(c, src, first), first, 0)
  {
    assert Begun(c, src, first).entries.Keys == {src};
    SingleEntry(Begun(c, src, first).entries, src);
  }

  lemma JoinedCrowd(c: Cache, first: Outcome, n: nat, k: Source)
    requires Crowded(c, first, n) && |k| == n + 1 && k == Name(n + 1)
    ensures Crowded(LookedUp(c, k).0, first, n + 1)
  {
    LookupJoins(c, Name(0), k);
    var c' := LookedUp(c, k).0;
    forall j | j in c'.entries && j != k ensures j in c.entries && c'.entries[j] == c.entries[j] {
      assert j in c'.entries - {k};
    }
    assert Name(0) != k && (n > 0 ==> Name(1) != k) by {
      assert |Name(0)| == 0 && |Name(1)| == 1;
    }
  }

  lemma {:induction false} CrowdSize(maxEntries: nat, maxBytes: nat, first: Outcome, n: nat)
    ensures Crowded(Crowd(maxEntries, maxBytes, first, n), first, n)
  {
    if n == 0 {
      FirstOfCrowd(New(maxEntries, maxBytes), Name(0), first);
    } else {
      var c := Crowd(maxEntries, maxBytes, first, n - 1);
      CrowdSize(maxEntries, maxBytes, first, n - 1);
      JoinedCrowd(c, first, n - 1, Name(n));
    }
  }

  lemma {:induction false} CrowdLimit(maxEntries: nat, maxBytes: nat, first: Outcome, n: nat)
    ensures Crowd(maxEntries, maxBytes, first, n).maxEntries == New(maxEntries, maxBytes).maxEntries
  {
    if n > 0 {
      CrowdLimit(maxEntries, maxBytes, first, n - 1);
    }
  }

  lemma NothingToTrim(p: Policy<ImageState>, c: Cache, maxEntries: nat, maxBytes: nat)
    requires Fits(c.entries, maxEntries, maxBytes) && c.decodedBytes == Sum(c.entries)
    ensures Trims(p, c, c, maxEntries, maxBytes)
  {
    assert Evicting(p, c.entries, c.entries, None);
  }

  lemma FirstResult(c: Cache, src: Source, first: Outcome)
    requires c.entries == map[] && c.decodedBytes == 0 && c.loadGeneration == 0
    requires c.maxEntries > 0 && Weight(first) <= c.maxDecodedBytes
    ensures Transition(LookedUp(c, src).0, DoFinish(src, 1, first), Begun(c, src, first))
  {
    var c1, c2 := LookedUp(c, src).0, Begun(c, src, first);
    assert IsCurrent(c1, src, 1);
    assert c2.entries.Keys == {src};
    SingleEntry(c2.entries, src);
    NothingToTrim(TRIM, c2, c.maxEntries, c.maxDecodedBytes);
  }

  lemma RunBegins(maxEntries: nat, maxBytes: nat)
    requires maxBytes <= USIZE_MAX - MAX_IMAGE_BYTES
    ensures IsRun([New(maxEntries, maxBytes)], [])
  {
  }

  lemma RunGoesOn(states: seq<Cache>, ops: seq<Op>, op: Op, c: Cache)
    requires IsRun(states, ops) && Transition(states[|ops|], op, c)
    ensures IsRun(states + [c], ops + [op]) && (states + [c])[0] == states[0]
  {
  }

  lemma CrowdBegins(maxEntries: nat, maxBytes: nat, first: Outcome) returns (states: seq<Cache>, ops: seq<Op>)
    requires maxBytes <= USIZE_MAX - MAX_IMAGE_BYTES && Weight(first) <= maxBytes
    ensures IsRun(states, ops) && states[0] == New(maxEntries, maxBytes)
    ensures states[|ops|] == Begun(New(maxEntries, maxBytes), Name(0), first)
  {
    var c, src := New(maxEntries, maxBytes), Name(0);
    RunBegins(maxEntries, maxBytes);
    RunGoesOn([c], [], DoLookup(src), LookedUp(c, src).0);
    states, ops := [c] + [LookedUp(c, src).0], [] + [DoLookup(src)];
    FirstResult(c, src, first);
    RunGoesOn(states, ops, DoFinish(src, 1, first), Begun(c, src, first));
    states, ops := states + [Begun(c, src, first)], ops + [DoFinish(src, 1, first)];
  }

  /** The crowd is reached by one lookup, one result and `n` lookups. */
  lemma {:induction false} CrowdIsReached(maxEntries: nat, maxBytes: nat, first: Outcome, n: nat)
    returns (states: seq<Cache>, ops: seq<Op>)
    requires maxBytes <= USIZE_MAX - MAX_IMAGE_BYTES && Weight(first) <= maxBytes
    ensures IsRun(states, ops) && states[0] == New(maxEntries, maxBytes)
    ensures states[|ops|] == Crowd(maxEntries, maxBytes, first, n)
  {
    if n == 0 {
      states, ops := CrowdBegins(maxEntries, maxBytes, first);
    } else {
      states, ops := CrowdIsReached(maxEntries, maxBytes, first, n - 1);
      var next := LookedUp(states[|ops|], Name(n)).0;
      RunGoesOn(states, ops, DoLookup(Name(n)), next);
      states, ops := states + [next], ops + [DoLookup(Name(n))];
    }
  }

  /**
   So the entry count is not bounded by the limit, nor by anything: in a cache of any capacity one
   failed entry lets loads pile up.
   */
  lemma EntryCountUnbounded(maxEntries: nat, maxBytes: nat, n: nat) returns (states: seq<Cache>, ops: seq<Op>)
    requires maxBytes <= USIZE_MAX - MAX_IMAGE_BYTES
    ensures IsRun(states, ops) && states[0] == New(maxEntries, maxBytes) && |states[|ops|].entries| > n
  {
    states, ops := CrowdIsReached(maxEntries, maxBytes, Failed, n);
    CrowdSize(maxEntries, maxBytes, Failed, n);
  }

  // ---------------------------------------------------------------- what a failed result may retire

  /** The entries an eviction prefers to `k`: those not in flight and accessed before it. */
  function Older(c: Cache, k: Source): set<Source>
    requires k in c.entries
  {
    set j | j in c.entries && !c.entries[j].state.Loading? && c.entries[j].lastAccess < c.entries[k].lastAccess
  }

  lemma AheadAreOlder(c: Cache, src: Source, g: nat, k: Source)
    requires Valid(c) && IsCurrent(c, src, g) && k in c.entries && k != src
    ensures Ahead(TRIM, Installed(c, src, Failed).entries, k) == Older(c, k)
  {
  }

  /** After a failed result an entry goes exactly when too few entries are older than it to make up the excess. */
  lemma FailedFinishEvictsExactly(c: Cache, src: Source, g: nat, c': Cache, k: Source)
    requires Valid(c) && IsCurrent(c, src, g) && Finishes(c, src, g, Failed, c')
    requires k in c.entries && !c.entries[k].state.Loading?
    ensures k !in c'.entries <==> |Older(c, k)| + c.maxEntries < |c.entries|
  {
    var mid := Installed(c, src, Failed).entries;
    var rest := mid - Older(c, k);
    AcceptedFinishEvictsExactly(c, src, g, Failed, c', k);
    AheadAreOlder(c, src, g, k);
    InstalledIsCoherent(c, src, g, Failed);
    SubmapFits(rest, mid);
    assert Older(c, k) <= mid.Keys && rest.Keys == mid.Keys - Older(c, k);
    assert |rest| == |rest.Keys| == |mid| - |Older(c, k)|;
  }

  /** Every entry that holds the image is among the oldest, whose number the excess over the limit exceeds. */
  ghost predicate Doomed(c: Cache, img: Image) {
    && img in Images(c.entries)
    && forall k :: k in c.entries && c.entries[k].state == Ready(img) ==> |Older(c, k)| + c.maxEntries < |c.entries|
  }

  lemma FailedFinishDropsExactly(c: Cache, src: Source, g: nat, c': Cache, img: Image)
    requires Valid(c) && IsCurrent(c, src, g) && Finishes(c, src, g, Failed, c') && img in Images(c.entries)
    ensures img !in Images(c'.entries) <==> Doomed(c, img)
  {
    forall k | k in c.entries && c.entries[k].state == Ready(img)
      ensures k !in c'.entries <==> |Older(c, k)| + c.maxEntries < |c.entries|
    {
      FailedFinishEvictsExactly(c, src, g, c', k);
    }
    if img in Images(c'.entries) {
      var k :| k in c'.entries && c'.entries[k].state.Ready? && c'.entries[k].state.image == img;
      assert c'.entries[k] == Installed(c, src, Failed).entries[k] && k != src;
      assert c.entries[k].state == Ready(img);
    }
    if !Doomed(c, img) {
      var k :| k in c.entries && c.entries[k].state == Ready(img) && k in c'.entries;
      assert c'.entries[k] == c.entries[k];
    }
  }

  /** A failed result retires an image exactly when the count is over the limit by more than the image's age. */
  lemma FailedFinishRetiresExactly(c: Cache, src: Source, g: nat, c': Cache, retired: seq<Image>)
    requires Valid(c) && IsCurrent(c, src, g) && Finishes(c, src, g, Failed, c')
    requires RetiredExactly(Images(c.entries), Images(c'.entries), retired)
    ensures retired != [] <==> exists img :: Doomed(c, img)
  {
    forall img | img in Images(c.entries) ensures img !in Images(c'.entries) <==> Doomed(c, img) {
      FailedFinishDropsExactly(c, src, g, c', img);
    }
    if retired != [] {
      assert retired[0] in retired;
    }
  }

  lemma CrowdImages(c: Cache, img: Image, n: nat)
    requires Crowded(c, Ready(img), n)
    ensures Images(c.entries) == {img}
  {
    assert c.entries[Name(0)].state.image == img;
  }

  /** The cache when the load of `b` has failed and the entry of `a` is gone. */
  function Culled(c: Cache, a: Source, b: Source): Cache {
    var mid := Installed(c, b, Failed);
    mid.(entries := mid.entries - {a}, decodedBytes := 0)
  }

  /** `a` is the only finished entry, and `b` is load 2. */
  ghost predicate OneFinished(c: Cache, a: Source, b: Source) {
    && a in c.entries && !c.entries[a].state.Loading? && IsCurrent(c, b, 2)
    && forall k :: k in c.entries && k != a ==> c.entries[k].state.Loading?
  }

  lemma CulledWeighsNothing(c: Cache, a: Source, b: Source)
    requires Valid(c) && OneFinished(c, a, b)
    ensures Sum(Culled(c, a, b).entries) == 0 && Images(Culled(c, a, b).entries) == {}
  {
    SumOfNothing(Culled(c, a, b).entries);
  }

  lemma CulledSize(c: Cache, a: Source, b: Source)
    requires Valid(c) && OneFinished(c, a, b)
    ensures var mid, after := Installed(c, b, Failed).entries, Culled(c, a, b).entries;
            a in mid && |mid| == |c.entries| == |after| + 1 && after[a := mid[a]] == mid
  {
    InstalledIsCoherent(c, b, 2, Failed);
    RemovalFacts(Installed(c, b, Failed).entries, a);
  }

  /** Removing the only finished entry but a newer one is an eviction. */
  lemma OldestGoes(mid: Entries, after: Entries, oldest: Source, newest: Source)
    requires oldest in mid && newest in mid && oldest != newest && after == mid - {oldest}
    requires !mid[oldest].state.Loading? && mid[oldest].lastAccess < mid[newest].lastAccess
    requires forall k :: k in after ==> k == newest || after[k].state.Loading?
    ensures Evicting(TRIM, mid, after, Some(oldest))
  {
  }

  lemma CulledTrims(c: Cache, a: Source, b: Source)
    requires Valid(c) && OneFinished(c, a, b) && |c.entries| == c.maxEntries + 1
    ensures Transition(c, DoFinish(b, 2, Failed), Culled(c, a, b))
  {
    var mid, after := Installed(c, b, Failed).entries, Culled(c, a, b).entries;
    CulledWeighsNothing(c, a, b);
    CulledSize(c, a, b);
    assert mid[a] == c.entries[a] && mid[a].lastAccess <= c.clock < mid[b].lastAccess;
    OldestGoes(mid, after, a, b);
  }

  /**
   Such a state is reached in a cache of any capacity, for every image within its budget: load the
   image, start as many loads as there are slots, and let one fail.
   */
  lemma FailedFinishMayRetire(maxEntries: nat, maxBytes: nat, img: Image) returns (states: seq<Cache>, ops: seq<Op>)
    requires maxEntries > 0 && img.decodedBytes <= maxBytes <= USIZE_MAX - MAX_IMAGE_BYTES
    ensures IsRun(states, ops) && ops != [] && states[0] == New(maxEntries, maxBytes)
    ensures var n, op := |ops| - 1, ops[|ops| - 1];
            && op.DoFinish? && op.outcome == Failed && IsCurrent(states[n], op.src, op.generation)
            && Images(states[n].entries) == {img} && Images(states[n + 1].entries) == {}
  {
    states, ops := CrowdIsReached(maxEntries, maxBytes, Ready(img), maxEntries);
    var c := states[|ops|];
    RunsStayValid(states, ops, |ops|);
    CrowdSize(maxEntries, maxBytes, Ready(img), maxEntries);
    CrowdLimit(maxEntries, maxBytes, Ready(img), maxEntries);
    CrowdImages(c, img, maxEntries);
    CulledWeighsNothing(c, Name(0), Name(1));
    CulledTrims(c, Name(0), Name(1));
    RunGoesOn(states, ops, DoFinish(Name(1), 2, Failed), Culled(c, Name(0), Name(1)));
    states, ops := states + [Culled(c, Name(0), Name(1))], ops + [DoFinish(Name(1), 2, Failed)];
  }

  // ---------------------------------------------------------------- the imperative code

  datatype TrimResult = TrimResult(evictedEntries: nat, evictedBytes: nat, invalidatedLoads: nat,
                                   remainingEntries: nat, remainingBytes: nat, retired: seq<Image>)

  lemma ImagesAfterRemoval(entries: Entries, k: Source)
    requires k in entries
    ensures Images(entries - {k}) <= Images(entries) <= Images(entries - {k}) + ImageOf(entries[k].state)
    ensures ImageOf(entries[k].state) <= Images(entries)
  {
    var after := entries - {k};
    forall x | x in Images(entries) ensures x in Images(after) + ImageOf(entries[k].state) {
      var j :| j in entries && entries[j].state.Ready? && entries[j].state.image == x;
      assert j != k ==> j in after && after[j] == entries[j];
    }
    forall x | x in Images(after) ensures x in Images(entries) {
      var j :| j in after && after[j].state.Ready? && after[j].state.image == x;
      assert j in entries;
    }
  }

  lemma LoadsAfterRemoval(entries: Entries, k: Source)
    requires k in entries
    ensures |Loads(entries)| == |Loads(entries - {k})| + if entries[k].state.Loading? then 1 else 0
    ensures |entries - {k}| < |entries|
  {
    assert Loads(entries - {k}) == Loads(entries) - {k};
    if !entries[k].state.Loading? { assert Loads(entries) - {k} == Loads(entries); }
    SizeAfterRemoval(entries, k);
  }

  lemma PassStarts(p: Policy<ImageState>, c: Cache, maxEntries: nat, maxBytes: nat)
    requires Coherent(c)
    ensures c.decodedBytes == Sum(c.entries) && Stamped(c.entries, c.clock)
    ensures Passing(p, c.entries, c.entries, None, maxEntries, maxBytes)
  {
  }

  lemma TrimmedState(p: Policy<ImageState>, c: Cache, c': Cache, maxEntries: nat, maxBytes: nat)
    requires c' == c.(entries := c'.entries, decodedBytes := c'.decodedBytes) && c'.decodedBytes == Sum(c'.entries)
    requires IsEviction(p, c.entries, c'.entries, maxEntries, maxBytes)
    ensures Trims(p, c, c', maxEntries, maxBytes)
  {
  }

  class DecodedImageCache {
    var entries: Entries
    var clock: nat
    var loadGeneration: nat
    var decodedBytes: nat
    const maxEntries: nat
    const maxDecodedBytes: nat

    ghost function View(): Cache
      reads this
    {
      Cache(entries, clock, loadGeneration, decodedBytes, maxEntries, maxDecodedBytes)
    }

    constructor (maxEntries: nat, maxDecodedBytes: nat)
      requires maxDecodedBytes <= USIZE_MAX - MAX_IMAGE_BYTES
      ensures View() == New(maxEntries, maxDecodedBytes) && Valid(View())
      ensures entries == map[] && decodedBytes == 0
      ensures this.maxEntries == (if maxEntries == 0 then 1 else maxEntries)
      ensures this.maxDecodedBytes == (if maxDecodedBytes == 0 then 1 else maxDecodedBytes)
    {
      entries, clock, loadGeneration, decodedBytes := map[], 0, 0, 0;
      this.maxEntries := if maxEntries < 1 then 1 else maxEntries;
      this.maxDecodedBytes := if maxDecodedBytes < 1 then 1 else maxDecodedBytes;
    }

    method LookupOrStart(src: Source) returns (r: Lookup)
      requires Valid(View())
      modifies this
      ensures (View(), r) == LookedUp(old(View()), src) && Valid(View())
      ensures r.Existing? <==> src in old(entries)
      ensures r.Existing? ==>
                && r.state == old(entries)[src].state && entries.Keys == old(entries).Keys
                && entries[src] == old(entries)[src].(lastAccess := entries[src].lastAccess)
                && forall k :: k in entries && k != src ==>
                                 entries[k] == old(entries)[k] && entries[k].lastAccess < entries[src].lastAccess
      ensures r.AtCapacity? <==> src !in old(entries) && maxEntries <= |old(entries)|
                                 && forall k :: k in old(entries) ==> old(entries)[k].state.Loading?
      ensures r.AtCapacity? ==> entries == old(entries)
      ensures r.StartLoad? ==>
                && IsCurrent(View(), src, r.generation) && old(loadGeneration) < r.generation
                && entries - {src} == old(entries)
    {
      ghost var next := LookedUp(View(), src);
      clock := clock + 1;
      if src in entries {
        r := Existing(entries[src].state);
        entries := entries[src := entries[src].(lastAccess := clock)];
      } else if |entries| >= maxEntries && forall k | k in entries :: entries[k].state.Loading? {
        r := AtCapacity;
      } else {
        loadGeneration := loadGeneration + 1;
        entries := entries[src := Entry(Loading(loadGeneration), 0, clock)];
        r := StartLoad(loadGeneration);
      }
      assert View() == next.0;
      LookupKeepsValid(old(View()), src);
      LookupRefusesExactly(old(View()), src);
      if r.Existing? {
        LookupHits(old(View()), src);
      } else if r.StartLoad? {
        LookupStarts(old(View()), src);
      }
    }

    method PushIfUncached(retired: seq<Image>, state: ImageState) returns (out: seq<Image>)
      ensures out == if state.Ready? then CacheEviction.PushIfUncached(retired, state.image, Images(entries))
                     else retired
    {
      if !state.Ready? {
        return retired;
      }
      if (exists k | k in entries :: entries[k].state.Ready? && entries[k].state.image == state.image)
         || state.image in retired {
        return retired;
      }
      return retired + [state.image];
    }

    /** Remove one entry and retire its image if that was its last one. */
    method Evict(k: Source, retired: seq<Image>, ghost had: set<Image>) returns (out: seq<Image>)
      requires k in entries && decodedBytes == Sum(entries)
      requires Images(entries) <= had && RetiredExactly(had, Images(entries), retired)
      modifies this`entries, this`decodedBytes
      ensures entries == old(entries) - {k} && decodedBytes == Sum(entries)
      ensures Images(entries) <= had && RetiredExactly(had, Images(entries), out)
    {
      var evicted := entries[k];
      ghost var mid := Images(entries);
      RemovalFacts(entries, k);
      ImagesAfterRemoval(entries, k);
      entries := entries - {k};
      decodedBytes := SaturatingSub(decodedBytes, evicted.decodedBytes);
      out := PushIfUncached(retired, evicted.state);
      if evicted.state.Ready? {
        PushKeepsExact(had, mid, Images(entries), retired, evicted.state.image);
      }
    }

    /** The least recently used entry that is not in flight. */
    method OldestCandidate() returns (k: Option<Source>)
      ensures k.None? ==> Exhausted(TRIM, entries)
      ensures k.Some? ==> IsNext(TRIM, entries, k.value)
    {
      var candidates := set k | k in entries && !entries[k].state.Loading?;
      if candidates == {} {
        assert forall k :: k in entries ==> k !in candidates;
        return None;
      }
      NextExists(TRIM, entries, candidates);
      var k' :| k' in candidates && forall j | j in candidates :: entries[k'].lastAccess <= entries[j].lastAccess;
      return Some(k');
    }

    /** The same, with failed entries before ready ones. */
    method OldestFailedFirst() returns (k: Option<Source>)
      ensures k.None? ==> Exhausted(WARN, entries)
      ensures k.Some? ==> IsNext(WARN, entries, k.value)
    {
      var candidates := set k | k in entries && !entries[k].state.Loading?;
      if candidates == {} {
        assert forall k :: k in entries ==> k !in candidates;
        return None;
      }
      NextExists(WARN, entries, candidates);
      var k' :| k' in candidates && forall j | j in candidates :: !Precedes(WARN, entries[j], entries[k']);
      return Some(k');
    }

    /** One turn of the trimming loop. */
    method EvictOldest(retired: seq<Image>, ghost had: set<Image>, ghost start: Entries, ghost last: Option<Source>)
      returns (k: Option<Source>, out: seq<Image>)
      requires decodedBytes == Sum(entries) && Passing(TRIM, start, entries, last, maxEntries, maxDecodedBytes)
      requires Stamped(start, clock) && !Fits(entries, maxEntries, maxDecodedBytes)
      requires Images(entries) <= had && RetiredExactly(had, Images(entries), retired)
      modifies this`entries, this`decodedBytes
      ensures decodedBytes == Sum(entries) && Images(entries) <= had && RetiredExactly(had, Images(entries), out)
      ensures k.None? ==> entries == old(entries) && Exhausted(TRIM, entries)
      ensures k.Some? ==> Passing(TRIM, start, entries, k, maxEntries, maxDecodedBytes) && |entries| < |old(entries)|
    {
      out := retired;
      k := OldestCandidate();
      if k.Some? {
        PassStep(TRIM, start, entries, last, k.value, clock, maxEntries, maxDecodedBytes);
        out := Evict(k.value, out, had);
      }
    }

    method TrimInto(retired: seq<Image>, ghost had: set<Image>) returns (out: seq<Image>)
      requires Coherent(View()) && Images(entries) <= had && RetiredExactly(had, Images(entries), retired)
      modifies this`entries, this`decodedBytes
      ensures Trims(TRIM, old(View()), View(), maxEntries, maxDecodedBytes)
      ensures Images(entries) <= had && RetiredExactly(had, Images(entries), out)
    {
      out := retired;
      ghost var start, last: Option<Source> := entries, None;
      PassStarts(TRIM, View(), maxEntries, maxDecodedBytes);
      while |entries| > maxEntries || decodedBytes > maxDecodedBytes
        invariant decodedBytes == Sum(entries) && Passing(TRIM, start, entries, last, maxEntries, maxDecodedBytes)
        invariant Images(entries) <= had && RetiredExactly(had, Images(entries), out)
        decreases |entries|
      {
        var k;
        k, out := EvictOldest(out, had, start, last);
        if k.None? {
          break;
        }
        last := k;
      }
      PassEnds(TRIM, start, entries, last, maxEntries, maxDecodedBytes);
      TrimmedState(TRIM, old(View()), View(), maxEntries, maxDecodedBytes);
    }

    /** Put an accepted result in the place of its load. */
    method Install(src: Source, generation: nat, state: Outcome) returns (retired: seq<Image>)
      requires Valid(View()) && IsCurrent(View(), src, generation)
      modifies this
      ensures View() == Installed(old(View()), src, state) && Coherent(View()) && retired == []
    {
      ghost var next := Installed(View(), src, state);
      assert next.decodedBytes <= USIZE_MAX by { InstalledIsCoherent(View(), src, generation, state); }
      var bytes := if state.Ready? then state.image.decodedBytes else 0;
      var previous := entries[src];
      assert previous.decodedBytes == 0;
      clock := clock + 1;
      entries := entries[src := Entry(state, bytes, clock)];
      decodedBytes := SaturatingSub(decodedBytes, previous.decodedBytes);
      retired := PushIfUncached([], previous.state);
      decodedBytes := SaturatingAdd(decodedBytes, bytes);
      assert View() == next;
      InstalledIsCoherent(old(View()), src, generation, state);
    }

    /** Every retired image was cached, or is the incoming one, and is no longer cached; every such image is retired. */
    method Finish(src: Source, generation: nat, state: Outcome) returns (retired: seq<Image>)
      requires Valid(View())
      modifies this
      ensures Finishes(old(View()), src, generation, state, View()) && Valid(View())
      ensures RetiredExactly(Images(old(entries)) + ImageOf(state), Images(entries), retired)
      ensures !IsCurrent(old(View()), src, generation) ==> View() == old(View())
      ensures IsCurrent(old(View()), src, generation) && src in entries ==> entries[src].state == state
      ensures forall k :: k in entries && k != src ==> k in old(entries) && entries[k] == old(entries)[k]
    {
      ghost var before, had := View(), Images(entries) + ImageOf(state);
      if src !in entries || entries[src].state != Loading(generation) {
        retired := PushIfUncached([], state);
        if state.Ready? {
          PushKeepsExact(had, had, Images(entries), [], state.image);
        }
        return;
      }
      InstalledImages(before, src, generation, state);
      retired := Install(src, generation, state);
      retired := TrimInto(retired, had);
      TrimKeepsValid(TRIM, Installed(before, src, state), View(), maxEntries, maxDecodedBytes);
      AcceptedFinishStores(before, src, generation, state, View());
    }

    method AbortStart(src: Source, generation: nat)
      requires Valid(View())
      modifies this
      ensures View() == Aborted(old(View()), src, generation) && Valid(View())
      ensures entries == if src in old(entries) && old(entries)[src].state == Loading(generation)
                         then old(entries) - {src} else old(entries)
    {
      TransitionKeepsValid(View(), DoAbort(src, generation), Aborted(View(), src, generation));
      if src in entries && entries[src].state == Loading(generation) {
        entries := entries - {src};
      }
    }

    method RetryFailed(src: Source)
      requires Valid(View())
      modifies this
      ensures View() == Retried(old(View()), src) && Valid(View())
      ensures entries == if src in old(entries) && old(entries)[src].state.Failed?
                         then old(entries) - {src} else old(entries)
    {
      TransitionKeepsValid(View(), DoRetry(src), Retried(View(), src));
      if src in entries && entries[src].state.Failed? {
        entries := entries - {src};
      }
    }

    /** One turn of the loop under warning pressure. */
    method EvictFailedFirst(retired: seq<Image>, ghost had: set<Image>, ghost start: Entries,
                            ghost last: Option<Source>, ghost targetEntries: nat, ghost targetBytes: nat)
      returns (k: Option<Source>, out: seq<Image>)
      requires decodedBytes == Sum(entries) && Passing(WARN, start, entries, last, targetEntries, targetBytes)
      requires Stamped(start, clock) && !Fits(entries, targetEntries, targetBytes)
      requires Images(entries) <= had && RetiredExactly(had, Images(entries), retired)
      modifies this`entries, this`decodedBytes
      ensures decodedBytes == Sum(entries) && Images(entries) <= had && RetiredExactly(had, Images(entries), out)
      ensures k.None? ==> entries == old(entries) && Exhausted(WARN, entries)
      ensures k.Some? ==> Passing(WARN, start, entries, k, targetEntries, targetBytes) && |entries| < |old(entries)|
    {
      out := retired;
      k := OldestFailedFirst();
      if k.Some? {
        PassStep(WARN, start, entries, last, k.value, clock, targetEntries, targetBytes);
        out := Evict(k.value, out, had);
      }
    }

    method WarningPass(ghost had: set<Image>) returns (out: seq<Image>)
      requires Coherent(View()) && had == Images(entries)
      modifies this`entries, this`decodedBytes
      ensures Trims(WARN, old(View()), View(), maxEntries / 2, maxDecodedBytes / 2)
      ensures RetiredExactly(had, Images(entries), out)
    {
      var targetEntries, targetBytes := maxEntries / 2, maxDecodedBytes / 2;
      out := [];
      ghost var start, last: Option<Source> := entries, None;
      PassStarts(WARN, View(), targetEntries, targetBytes);
      while |entries| > targetEntries || decodedBytes > targetBytes
        invariant decodedBytes == Sum(entries) && Passing(WARN, start, entries, last, targetEntries, targetBytes)
        invariant Images(entries) <= had && RetiredExactly(had, Images(entries), out)
        decreases |entries|
      {
        var k;
        k, out := EvictFailedFirst(out, had, start, last, targetEntries, targetBytes);
        if k.None? {
          break;
        }
        last := k;
      }
      PassEnds(WARN, start, entries, last, targetEntries, targetBytes);
      TrimmedState(WARN, old(View()), View(), targetEntries, targetBytes);
    }

    /** Empty the cache, in whatever order the map yields its keys. */
    method CriticalPass(ghost had: set<Image>) returns (out: seq<Image>, invalidated: nat)
      requires Coherent(View()) && had == Images(entries)
      modifies this`entries, this`decodedBytes
      ensures View() == old(View()).(entries := map[], decodedBytes := 0)
      ensures RetiredExactly(had, Images(entries), out) && invalidated == |Loads(old(entries))|
    {
      out, invalidated := [], 0;
      ghost var loads := Loads(entries);
      while entries != map[]
        invariant decodedBytes == Sum(entries)
        invariant Images(entries) <= had && RetiredExactly(had, Images(entries), out)
        invariant invalidated + |Loads(entries)| == |loads|
        decreases |entries|
      {
        var k :| k in entries;
        LoadsAfterRemoval(entries, k);
        if entries[k].state.Loading? {
          invalidated := invalidated + 1;
        }
        out := Evict(k, out, had);
      }
    }

    method ApplyMemoryPressure(pressure: Pressure) returns (r: TrimResult)
      requires Valid(View())
      modifies this
      ensures Relieves(old(View()), pressure, View()) && Valid(View())
      ensures RetiredExactly(Images(old(entries)), Images(entries), r.retired)
      ensures r.evictedEntries + r.remainingEntries == |old(entries)| && r.remainingEntries == |entries|
      ensures r.evictedBytes + r.remainingBytes == old(decodedBytes) && r.remainingBytes == decodedBytes
      ensures r.invalidatedLoads == if pressure.Critical? then |Loads(old(entries))| else 0
      ensures !pressure.Critical? ==>
                var share := if pressure.Normal? then 1 else 2;
                || (|entries| <= maxEntries / share && decodedBytes <= maxDecodedBytes / share)
                || forall k :: k in entries ==> entries[k].state.Loading?
      ensures pressure.Critical? ==> entries == map[] && decodedBytes == 0
    {
      ghost var before := View();
      ghost var had := Images(entries);
      var beforeEntries, beforeBytes := |entries|, decodedBytes;
      var retired, invalidated := [], 0;
      match pressure {
        case Normal => retired := TrimInto(retired, had);
        case Warning => retired := WarningPass(had);
        case Critical => retired, invalidated := CriticalPass(had);
      }
      ReliefKeepsValid(before, pressure, View());
      ReliefMeetsLimits(before, pressure, View());
      r := TrimResult(SaturatingSub(beforeEntries, |entries|), SaturatingSub(beforeBytes, decodedBytes), invalidated,
                      |entries|, decodedBytes, retired);
    }
  }
}
