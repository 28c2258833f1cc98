/**
 The one-slot video frame mailbox and its leases.

 Every method that takes the store's lock is one atomic step on `Store`; a `System` is a store,
 the leases in flight, and ghost counters for the frames that leave without being counted. The
 laws hold in every state a run of steps reaches, whatever the interleaving.
 The classes at the end are the imperative code; each method is its step.
 */
module FrameMailbox {
  import opened Basics

  /** The frame published as number `serial`; the pixels play no part. */
  datatype Frame = Frame(serial: nat)

  datatype Stats = Stats(published: nat, presented: nat, overwritten: nat)

  datatype Store = Store(generation: nat, frame: Option<Frame>, lastPresented: nat, stats: Stats)

  const EMPTY_STORE := Store(0, None, 0, Stats(0, 0, 0))

  datatype Lease = Lease(generation: nat, frame: Option<Frame>)

  // ---------------------------------------------------------------- the locked sections

  function Published(st: Store, f: Frame): Store {
    var lost := st.frame.Some? && st.lastPresented < st.generation;
    st.(generation := st.generation + 1,
        frame := Some(f),
        stats := st.stats.(published := st.stats.published + 1,
                           overwritten := st.stats.overwritten + if lost then 1 else 0))
  }

  function Claimed(st: Store, after: nat): (Store, Option<Lease>) {
    if st.generation <= after || st.frame.None? then (st, None)
    else (st.(frame := None), Some(Lease(st.generation, st.frame)))
  }

  /** The acknowledgement shared by committing a lease and by `mark_presented`. */
  predicate Acknowledges(st: Store, generation: nat) {
    st.lastPresented < generation <= st.generation
  }

  function Acknowledge(st: Store, generation: nat): Store {
    if Acknowledges(st, generation) then
      st.(lastPresented := generation, stats := st.stats.(presented := st.stats.presented + 1))
    else st
  }

  predicate Restores(st: Store, lease: Lease) {
    lease.frame.Some? && st.generation == lease.generation && st.frame.None?
  }

  function GiveBack(st: Store, lease: Lease): Store {
    if lease.frame.None? then st
    else if Restores(st, lease) then st.(frame := lease.frame)
    else if st.generation > lease.generation then
      st.(stats := st.stats.(overwritten := st.stats.overwritten + 1))
    else st
  }

  function ClearIf(st: Store, generation: nat): (Store, bool) {
    if st.generation != generation then (st, false) else (st.(frame := None), true)
  }

  // ---------------------------------------------------------------- interleavings

  /**
   `open` maps a lease's name to the lease. The counters say what became of the frames the
   statistics do not mention: committed after a newer one was presented, dropped with their pixels
   taken out, replaced in the mailbox after having been marked, cleared; and how many
   presentations came from marks.
   */
  datatype System = System(store: Store, open: map<nat, Lease>, nextLease: nat,
                           late: nat, abandoned: nat, superseded: nat, cleared: nat, marked: nat)

  const INITIAL := System(EMPTY_STORE, map[], 0, 0, 0, 0, 0, 0)

  datatype Step =
    | DoPublish(f: Frame)
    | DoClaim(after: nat)
    | DoTake(lease: nat)
    | DoReturn(lease: nat, f: Frame)
    | DoCommit(lease: nat)
    | DoDrop(lease: nat)
    | DoMark(generation: nat)
    | DoClear(generation: nat)

  function Count(b: bool): nat { if b then 1 else 0 }

  /** One atomic step; naming a lease that is not open does nothing. */
  function Next(s: System, step: Step): System {
    match step
    case DoPublish(f) =>
      s.(store := Published(s.store, f),
         superseded := s.superseded + Count(s.store.frame.Some? && s.store.generation <= s.store.lastPresented))
    case DoClaim(after) =>
      var (store, lease) := Claimed(s.store, after);
      if lease.None? then s.(store := store)
      else s.(store := store, open := s.open[s.nextLease := lease.value], nextLease := s.nextLease + 1)
    case DoTake(k) =>
      if k !in s.open then s else s.(open := s.open[k := s.open[k].(frame := None)])
    case DoReturn(k, f) =>
      if k !in s.open || s.open[k].frame.Some? then s
      else s.(open := s.open[k := s.open[k].(frame := Some(f))])
    case DoCommit(k) =>
      if k !in s.open then s
      else s.(store := Acknowledge(s.store, s.open[k].generation), open := s.open - {k},
              late := s.late + Count(!Acknowledges(s.store, s.open[k].generation)))
    case DoDrop(k) =>
      if k !in s.open then s
      else s.(store := GiveBack(s.store, s.open[k]), open := s.open - {k},
              abandoned := s.abandoned + Count(s.open[k].frame.None?))
    case DoMark(g) =>
      s.(store := Acknowledge(s.store, g), marked := s.marked + Count(Acknowledges(s.store, g)))
    case DoClear(g) =>
      s.(store := ClearIf(s.store, g).0,
         cleared := s.cleared + Count(s.store.generation == g && s.store.frame.Some?))
  }

  function Run(s: System, steps: seq<Step>): System
    decreases |steps|
  {
    if steps == [] then s else Run(Next(s, steps[0]), steps[1..])
  }

  // ---------------------------------------------------------------- invariants

  /** Leases carry distinct generations, none newer than the store, none equal to the mailbox's frame. */
  ghost predicate LeasesApart(s: System) {
    && (forall k :: k in s.open ==> k < s.nextLease && 0 < s.open[k].generation <= s.store.generation)
    && (forall j, k :: j in s.open && k in s.open && j != k ==> s.open[j].generation != s.open[k].generation)
    && (s.store.frame.Some? ==> forall k :: k in s.open ==> s.open[k].generation != s.store.generation)
    && (s.store.frame.Some? ==> 0 < s.store.generation)
  }

  /** The books: every frame is somewhere, and marks are the only presentations not backed by one. */
  ghost predicate Balanced(s: System) {
    s.store.stats.published + s.marked ==
      s.store.stats.presented + s.store.stats.overwritten + Count(s.store.frame.Some?) + |s.open|
      + s.late + s.abandoned + s.superseded + s.cleared
  }

  ghost predicate Inv(s: System) {
    && LeasesApart(s)
    && Balanced(s)
    && s.store.stats.published == s.store.generation
    && s.store.lastPresented <= s.store.generation
  }

  lemma SizeAfterUpdate(m: map<nat, Lease>, k: nat, v: Lease)
    ensures |m[k := v]| == if k in m then |m| else |m| + 1
  {
    assert m[k := v].Keys == m.Keys + {k};
    if k in m { assert m.Keys + {k} == m.Keys; }
  }

  /** The silent case of `drop` (same generation, mailbox full) cannot occur. */
  lemma NoSilentLoss(s: System, k: nat)
    requires LeasesApart(s) && k in s.open && s.open[k].frame.Some?
    ensures Restores(s.store, s.open[k]) || s.store.generation > s.open[k].generation
  {
  }

  lemma CommitKeepsLeasesApart(s: System, k: nat)
    requires LeasesApart(s)
    ensures LeasesApart(Next(s, DoCommit(k)))
  {
  }

  lemma DropKeepsLeasesApart(s: System, k: nat)
    requires LeasesApart(s)
    ensures LeasesApart(Next(s, DoDrop(k)))
  {
  }

  lemma SameGenerationsStayApart(s: System, t: System)
    requires LeasesApart(s) && t.store == s.store && t.nextLease == s.nextLease && t.open.Keys == s.open.Keys
    requires forall k :: k in s.open ==> t.open[k].generation == s.open[k].generation
    ensures LeasesApart(t)
  {
  }

  lemma HandlingKeepsLeasesApart(s: System, k: nat, f: Frame)
    requires LeasesApart(s)
    ensures LeasesApart(Next(s, DoTake(k))) && LeasesApart(Next(s, DoReturn(k, f)))
  {
    if k in s.open {
      SameGenerationsStayApart(s, Next(s, DoTake(k)));
      SameGenerationsStayApart(s, Next(s, DoReturn(k, f)));
    }
  }

  lemma ClaimKeepsLeasesApart(s: System, after: nat)
    requires LeasesApart(s)
    ensures LeasesApart(Next(s, DoClaim(after)))
  {
  }

  lemma PublishKeepsLeasesApart(s: System, f: Frame)
    requires LeasesApart(s)
    ensures LeasesApart(Next(s, DoPublish(f)))
  {
  }

  lemma DecoderKeepsLeasesApart(s: System, g: nat)
    requires LeasesApart(s)
    ensures LeasesApart(Next(s, DoMark(g))) && LeasesApart(Next(s, DoClear(g)))
  {
  }

  lemma StepKeepsLeasesApart(s: System, step: Step)
    requires LeasesApart(s)
    ensures LeasesApart(Next(s, step))
  {
    match step
    case DoPublish(f) => PublishKeepsLeasesApart(s, f);
    case DoClaim(after) => ClaimKeepsLeasesApart(s, after);
    case DoTake(k) => HandlingKeepsLeasesApart(s, k, Frame(0));
    case DoReturn(k, f) => HandlingKeepsLeasesApart(s, k, f);
    case DoCommit(k) => CommitKeepsLeasesApart(s, k);
    case DoDrop(k) => DropKeepsLeasesApart(s, k);
    case DoMark(g) => DecoderKeepsLeasesApart(s, g);
    case DoClear(g) => DecoderKeepsLeasesApart(s, g);
  }

  lemma ClaimKeepsBalance(s: System, after: nat)
    requires Balanced(s) && s.nextLease !in s.open
    ensures Balanced(Next(s, DoClaim(after)))
  {
    var lease := Claimed(s.store, after).1;
    if lease.Some? { SizeAfterUpdate(s.open, s.nextLease, lease.value); }
  }

  lemma HandlingKeepsBalance(s: System, k: nat, f: Frame)
    requires Balanced(s)
    ensures Balanced(Next(s, DoTake(k))) && Balanced(Next(s, DoReturn(k, f)))
  {
    if k in s.open {
      SizeAfterUpdate(s.open, k, s.open[k].(frame := None));
      SizeAfterUpdate(s.open, k, s.open[k].(frame := Some(f)));
    }
  }

  lemma CommitKeepsBalance(s: System, k: nat)
    requires Balanced(s)
    ensures Balanced(Next(s, DoCommit(k)))
  {
    if k in s.open { SizeAfterRemoval(s.open, k); }
  }

  lemma DropKeepsBalance(s: System, k: nat)
    requires LeasesApart(s) && Balanced(s)
    ensures Balanced(Next(s, DoDrop(k)))
  {
    if k in s.open {
      SizeAfterRemoval(s.open, k);
      if s.open[k].frame.Some? { NoSilentLoss(s, k); }
    }
  }

  lemma DecoderKeepsBalance(s: System, f: Frame, g: nat)
    requires Balanced(s)
    ensures Balanced(Next(s, DoPublish(f))) && Balanced(Next(s, DoMark(g))) && Balanced(Next(s, DoClear(g)))
  {
  }

  lemma StepKeepsBalance(s: System, step: Step)
    requires LeasesApart(s) && Balanced(s)
    ensures Balanced(Next(s, step))
  {
    match step
    case DoPublish(f) => DecoderKeepsBalance(s, f, 0);
    case DoClaim(after) => ClaimKeepsBalance(s, after);
    case DoTake(k) => HandlingKeepsBalance(s, k, Frame(0));
    case DoReturn(k, f) => HandlingKeepsBalance(s, k, f);
    case DoCommit(k) => CommitKeepsBalance(s, k);
    case DoDrop(k) => DropKeepsBalance(s, k);
    case DoMark(g) => DecoderKeepsBalance(s, Frame(0), g);
    case DoClear(g) => DecoderKeepsBalance(s, Frame(0), g);
  }

  lemma StepKeepsGenerations(s: System, step: Step)
    requires s.store.stats.published == s.store.generation && s.store.lastPresented <= s.store.generation
    ensures var t := Next(s, step).store; t.stats.published == t.generation && t.lastPresented <= t.generation
  {
  }

  lemma StepKeepsInv(s: System, step: Step)
    requires Inv(s)
    ensures Inv(Next(s, step))
  {
    StepKeepsLeasesApart(s, step);
    StepKeepsBalance(s, step);
    StepKeepsGenerations(s, step);
  }

  lemma {:induction false} RunKeepsInv(s: System, steps: seq<Step>)
    requires Inv(s)
    ensures Inv(Run(s, steps))
    decreases |steps|
  {
    if steps != [] {
      StepKeepsInv(s, steps[0]);
      RunKeepsInv(Next(s, steps[0]), steps[1..]);
    }
  }

  /**
   In every interleaving of every method: the books balance, open leases have distinct
   generations different from the mailbox's, and no drop loses a frame silently.
   */
  lemma EveryRunIsSafe(steps: seq<Step>)
    ensures var s := Run(INITIAL, steps);
            && Balanced(s) && LeasesApart(s)
            && forall k :: k in s.open && s.open[k].frame.Some? ==>
                             Restores(s.store, s.open[k]) || s.store.generation > s.open[k].generation
  {
    RunKeepsInv(INITIAL, steps);
    var s := Run(INITIAL, steps);
    forall k | k in s.open && s.open[k].frame.Some?
      ensures Restores(s.store, s.open[k]) || s.store.generation > s.open[k].generation
    {
      NoSilentLoss(s, k);
    }
  }

  // ---------------------------------------------------------------- the exact ledger

  predicate Bypasses(step: Step) { step.DoMark? || step.DoClear? }

  /** The ledger the statistics promise, with no allowance for marks and clears. */
  ghost predicate LedgerHolds(s: System) {
    s.store.stats.published ==
      s.store.stats.presented + s.store.stats.overwritten + Count(s.store.frame.Some?) + |s.open|
      + s.late + s.abandoned
  }

  /** Without marks and clears, neither the mailbox nor a lease holds the newest presented frame. */
  ghost predicate Unacknowledged(s: System) {
    && s.marked == 0 && s.superseded == 0 && s.cleared == 0
    && (s.store.frame.Some? ==> s.store.lastPresented < s.store.generation)
    && (forall k :: k in s.open ==> s.open[k].generation != s.store.lastPresented)
  }

  lemma StepStaysUnacknowledged(s: System, step: Step)
    requires LeasesApart(s) && s.store.lastPresented <= s.store.generation && Unacknowledged(s) && !Bypasses(step)
    ensures Unacknowledged(Next(s, step))
  {
  }

  lemma {:induction false} LeasedRunsStayUnacknowledged(s: System, steps: seq<Step>)
    requires Inv(s) && Unacknowledged(s)
    requires forall i :: 0 <= i < |steps| ==> !Bypasses(steps[i])
    ensures Inv(Run(s, steps)) && Unacknowledged(Run(s, steps))
    decreases |steps|
  {
    if steps != [] {
      StepKeepsInv(s, steps[0]);
      StepStaysUnacknowledged(s, steps[0]);
      LeasedRunsStayUnacknowledged(Next(s, steps[0]), steps[1..]);
    }
  }

  /** The exact ledger holds throughout every run of publish, claim, take, return, commit and drop. */
  lemma LedgerOfLeasedRuns(steps: seq<Step>)
    requires forall i :: 0 <= i < |steps| ==> !Bypasses(steps[i])
    ensures LedgerHolds(Run(INITIAL, steps))
  {
    LeasedRunsStayUnacknowledged(INITIAL, steps);
  }

  /** The guard under which a step takes a frame off the books, or presents one that stays on them. */
  predicate Unbooked(st: Store, step: Step) {
    match step
    case DoPublish(_) => st.frame.Some? && st.generation <= st.lastPresented
    case DoMark(g) => Acknowledges(st, g)
    case DoClear(g) => st.generation == g && st.frame.Some?
    case _ => false
  }

  /** A step preserves the ledger exactly when it is not one of those. */
  lemma StepKeepsLedgerExactly(s: System, step: Step)
    requires Inv(s) && LedgerHolds(s)
    ensures LedgerHolds(Next(s, step)) <==> !Unbooked(s.store, step)
  {
    StepKeepsInv(s, step);
    if step.DoDrop? && step.lease in s.open && s.open[step.lease].frame.Some? { NoSilentLoss(s, step.lease); }
  }

  /** In general the ledger holds exactly when marks are matched by marked or cleared frames leaving the mailbox. */
  lemma LedgerExactly(steps: seq<Step>)
    ensures var s := Run(INITIAL, steps); LedgerHolds(s) <==> s.marked == s.superseded + s.cleared
  {
    RunKeepsInv(INITIAL, steps);
  }

  lemma RunFrom(s: System, steps: seq<Step>, k: nat)
    requires k < |steps|
    ensures Run(s, steps[k..]) == Run(Next(s, steps[k]), steps[k + 1..])
  {
    assert steps[k..][1..] == steps[k + 1..];
  }

  lemma RunFour(s: System, a: Step, b: Step, c: Step, d: Step, rest: seq<Step>)
    ensures Run(s, [a, b, c, d] + rest) == Run(Next(Next(Next(Next(s, a), b), c), d), rest)
  {
    var steps := [a, b, c, d] + rest;
    assert steps[0..] == steps && steps[4..] == rest;
    RunFrom(s, steps, 0);
    RunFrom(Next(s, a), steps, 1);
    RunFrom(Next(Next(s, a), b), steps, 2);
    RunFrom(Next(Next(Next(s, a), b), c), steps, 3);
  }

  /** Marking a leased generation breaks it: the one frame counts as presented and as overwritten. */
  lemma MarkBreaksLedger(f: Frame, f': Frame)
    ensures var s := Run(INITIAL, [DoPublish(f), DoClaim(0), DoMark(1), DoPublish(f')] + [DoDrop(0)]);
            && s.store.stats == Stats(2, 1, 1) && s.store.frame.Some?
            && s.late == s.abandoned == 0 && s.open == map[] && !LedgerHolds(s)
  {
    RunFour(INITIAL, DoPublish(f), DoClaim(0), DoMark(1), DoPublish(f'), [DoDrop(0)]);
    var s := Next(Next(Next(INITIAL, DoPublish(f)), DoClaim(0)), DoMark(1));
    assert s.store == Store(1, None, 1, Stats(1, 1, 0)) && s.open == map[0 := Lease(1, Some(f))];
    var t := Next(s, DoPublish(f'));
    RunFrom(t, [DoDrop(0)], 0);
    assert t.open - {0} == map[];
  }

  // ---------------------------------------------------------------- which takes are counted

  /** The step gives up the lease. */
  predicate Ends(step: Step, k: nat) { (step.DoCommit? || step.DoDrop?) && step.lease == k }

  /** The step acknowledges `g` or a later generation: a mark of a published one, or the commit of another lease. */
  predicate Overtakes(s: System, step: Step, k: nat, g: nat) {
    match step
    case DoMark(h) => g <= h <= s.store.generation
    case DoCommit(j) => j != k && j in s.open && g <= s.open[j].generation
    case _ => false
  }

  /** Some step of the run does. */
  predicate Overtaken(s: System, steps: seq<Step>, k: nat, g: nat)
    decreases |steps|
  {
    steps != [] && (Overtakes(s, steps[0], k, g) || Overtaken(Next(s, steps[0]), steps[1..], k, g))
  }

  lemma StepKeepsLease(s: System, step: Step, k: nat)
    requires k in s.open && k != s.nextLease && !Ends(step, k)
    ensures k in Next(s, step).open && Next(s, step).open[k].generation == s.open[k].generation
  {
  }

  /** A generation stays ahead of the last acknowledged one except when a step overtakes it. */
  lemma StepAheadExactly(s: System, step: Step, k: nat)
    requires Inv(s) && k in s.open && !Ends(step, k)
    ensures var g := s.open[k].generation;
            Next(s, step).store.lastPresented < g <==> s.store.lastPresented < g && !Overtakes(s, step, k, g)
  {
  }

  lemma {:induction false} RunAheadExactly(s: System, steps: seq<Step>, k: nat)
    requires Inv(s) && k in s.open && forall i :: 0 <= i < |steps| ==> !Ends(steps[i], k)
    ensures var g, t := s.open[k].generation, Run(s, steps);
            && Inv(t) && k in t.open && t.open[k].generation == g
            && (t.store.lastPresented < g <==> s.store.lastPresented < g && !Overtaken(s, steps, k, g))
    decreases |steps|
  {
    if steps != [] {
      StepKeepsInv(s, steps[0]);
      StepKeepsLease(s, steps[0], k);
      StepAheadExactly(s, steps[0], k);
      RunAheadExactly(Next(s, steps[0]), steps[1..], k);
    }
  }

  lemma CommitCountsExactly(s: System, k: nat)
    requires Inv(s) && k in s.open
    ensures Next(s, DoCommit(k)).store.stats.presented
            == s.store.stats.presented + Count(s.store.lastPresented < s.open[k].generation)
  {
  }

  /**
   A take is a claim, some handling of the pixels and a commit. In every reachable state a claim that
   succeeds can be followed by any steps that do not give up its lease; the commit then succeeds, and
   it is counted exactly when the claimed generation was still unacknowledged at the claim and no step
   in between acknowledged it or a later one.
   */
  lemma TakeCountedExactly(before: seq<Step>, after: nat, between: seq<Step>)
    requires Claimed(Run(INITIAL, before).store, after).1.Some?
    requires forall i :: 0 <= i < |between| ==> !Ends(between[i], Run(INITIAL, before).nextLease)
    ensures var s := Run(INITIAL, before); var k, g := s.nextLease, s.store.generation;
            var c := Next(s, DoClaim(after)); var t := Run(c, between);
            && k in t.open && t.open[k].generation == g
            && Next(t, DoCommit(k)).store.stats.presented
               == t.store.stats.presented + Count(s.store.lastPresented < g && !Overtaken(c, between, k, g))
  {
    RunKeepsInv(INITIAL, before);
    var s := Run(INITIAL, before);
    var c := Next(s, DoClaim(after));
    StepKeepsInv(s, DoClaim(after));
    RunAheadExactly(c, between, s.nextLease);
    CommitCountsExactly(Run(c, between), s.nextLease);
  }

  /** Both cases occur: of two takes that interleave, the older one may commit last and then goes uncounted. */
  lemma InterleavedTakesLoseOne(f: Frame, f': Frame)
    ensures var s := Run(INITIAL, [DoPublish(f), DoClaim(0), DoTake(0), DoPublish(f')]
                                  + ([DoClaim(0), DoTake(1), DoCommit(1), DoCommit(0)] + []));
            s.store.stats == Stats(2, 1, 0) && s.store.frame.None? && s.open == map[] && s.late == 1
  {
    RunFour(INITIAL, DoPublish(f), DoClaim(0), DoTake(0), DoPublish(f'),
            [DoClaim(0), DoTake(1), DoCommit(1), DoCommit(0)] + []);
    var s := Next(Next(Next(Next(INITIAL, DoPublish(f)), DoClaim(0)), DoTake(0)), DoPublish(f'));
    assert s.store == Store(2, Some(f'), 0, Stats(2, 0, 0)) && s.open == map[0 := Lease(1, None)];
    RunFour(s, DoClaim(0), DoTake(1), DoCommit(1), DoCommit(0), []);
    var t := Next(Next(s, DoClaim(0)), DoTake(1));
    assert t.store == Store(2, None, 0, Stats(2, 0, 0)) && t.open == map[0 := Lease(1, None), 1 := Lease(2, None)];
    assert t.open - {1} == map[0 := Lease(1, None)] && t.open - {1} - {0} == map[];
  }

  // ---------------------------------------------------------------- a newer frame always wins

  /** Serial numbers follow the decoder, and a renderer returns the frame it took. */
  predicate Honest(s: System, step: Step) {
    && (step.DoPublish? ==> step.f.serial == s.store.generation + 1)
    && (step.DoReturn? && step.lease in s.open ==> step.f.serial == s.open[step.lease].generation)
  }

  predicate HonestRun(s: System, steps: seq<Step>)
    decreases |steps|
  {
    steps == [] || (Honest(s, steps[0]) && HonestRun(Next(s, steps[0]), steps[1..]))
  }

  /** The mailbox and every lease hold the very frame their generation was published as. */
  ghost predicate Genuine(s: System) {
    && (s.store.frame.Some? ==> s.store.frame.value.serial == s.store.generation)
    && (forall k :: k in s.open && s.open[k].frame.Some? ==> s.open[k].frame.value.serial == s.open[k].generation)
  }

  lemma {:induction false} HonestRunsStayGenuine(s: System, steps: seq<Step>)
    requires Genuine(s) && HonestRun(s, steps)
    ensures Genuine(Run(s, steps))
    decreases |steps|
  {
    if steps != [] {
      HonestRunsStayGenuine(Next(s, steps[0]), steps[1..]);
    }
  }

  /** An old renderer never overwrites a newer frame: whatever is in the mailbox is the latest publication. */
  lemma NewestFrameWins(steps: seq<Step>)
    requires HonestRun(INITIAL, steps)
    ensures var s := Run(INITIAL, steps);
            s.store.frame.Some? ==> s.store.frame.value.serial == s.store.generation == s.store.stats.published
  {
    HonestRunsStayGenuine(INITIAL, steps);
    RunKeepsInv(INITIAL, steps);
  }

  /** Dropping an untouched claim with nothing published in between restores the store exactly. */
  lemma ClaimThenDropRestores(st: Store, after: nat)
    ensures var (st', lease) := Claimed(st, after); lease.Some? ==> GiveBack(st', lease.value) == st
    ensures Claimed(st, after).1.Some? <==> st.frame.Some? && after < st.generation
  {
  }

  // ---------------------------------------------------------------- the imperative code

  class VideoFrameStore {
    var generation: nat
    var frame: Option<Frame>
    var lastPresented: nat
    var stats: Stats

    ghost function View(): Store
      reads this
    {
      Store(generation, frame, lastPresented, stats)
    }

    constructor ()
      ensures View() == EMPTY_STORE
    {
      generation, frame, lastPresented, stats := 0, None, 0, Stats(0, 0, 0);
    }

    /** The answer shares the frame with the mailbox. */
    method Publish(f: Frame) returns (published: (nat, Frame, Stats))
      modifies this
      ensures View() == Published(old(View()), f)
      ensures published == (generation, f, stats) && frame == Some(published.1)
      ensures generation == old(generation) + 1 && lastPresented == old(lastPresented)
      ensures stats.published == old(stats).published + 1 && stats.presented == old(stats).presented
      ensures stats.overwritten
              == old(stats).overwritten + Count(old(frame).Some? && old(lastPresented) < old(generation))
    {
      if frame.Some? && lastPresented < generation {
        stats := stats.(overwritten := stats.overwritten + 1);
      }
      generation := generation + 1;
      stats := stats.(published := stats.published + 1);
      frame := Some(f);
      published := (generation, f, stats);
    }

    method Claim(after: nat) returns (lease: VideoFrameLease?)
      modifies this
      ensures View() == Claimed(old(View()), after).0
      ensures lease == null <==> Claimed(old(View()), after).1.None?
      ensures lease != null ==> fresh(lease) && lease.store == this && !lease.committed
                                && Claimed(old(View()), after).1 == Some(lease.View())
      ensures lease != null <==> old(frame).Some? && after < old(generation)
      ensures lease == null ==> View() == old(View())
      ensures lease != null ==> lease.generation == old(generation) && lease.frame == old(frame)
                                && View() == old(View()).(frame := None)
    {
      if generation <= after || frame.None? {
        return null;
      }
      var f := frame;
      frame := None;
      lease := new VideoFrameLease(this, generation, f);
    }

    /** Claim, take the pixels out, acknowledge and read the statistics, as separate locked sections. */
    method TakeLatest(after: nat) returns (taken: Option<(nat, Frame, Stats)>)
      modifies this
      ensures var (claimed, lease) := Claimed(old(View()), after);
              if lease.None? then taken == None && View() == claimed
              else taken == Some((lease.value.generation, lease.value.frame.value, stats))
                   && View() == Acknowledge(claimed, lease.value.generation)
      ensures taken.Some? <==> old(frame).Some? && after < old(generation)
      ensures taken == None ==> View() == old(View())
      ensures taken.Some? ==>
                && taken.value.0 == generation == old(generation) && Some(taken.value.1) == old(frame) && frame == None
                && old(lastPresented) <= lastPresented && old(generation) <= lastPresented
                && stats.presented == old(stats).presented + Count(old(lastPresented) < old(generation))
                && taken.value.2 == stats
    {
      var lease := Claim(after);
      if lease == null {
        return None;
      }
      var f := lease.TakeFrame();
      var g := lease.generation;
      lease.Commit();
      return Some((g, f.value, stats));
    }

    method MarkPresented(g: nat)
      modifies this
      ensures View() == Acknowledge(old(View()), g)
      ensures lastPresented == if old(lastPresented) < g <= generation then g else old(lastPresented)
      ensures stats.presented == old(stats).presented + Count(old(lastPresented) < g <= generation)
    {
      if lastPresented < g <= generation {
        lastPresented := g;
        stats := stats.(presented := stats.presented + 1);
      }
    }

    method ClearIfGeneration(g: nat) returns (cleared: bool)
      modifies this
      ensures (View(), cleared) == ClearIf(old(View()), g)
      ensures cleared <==> generation == g
      ensures View() == if cleared then old(View()).(frame := None) else old(View())
    {
      if generation != g {
        return false;
      }
      frame := None;
      return true;
    }

    /** Exactly then a claim after the last presentation succeeds, and the next publication loses a frame. */
    method HasUnpresentedFrame() returns (b: bool)
      ensures b <==> Claimed(View(), lastPresented).1.Some?
      ensures forall f :: b <==> Published(View(), f).stats.overwritten == stats.overwritten + 1
    {
      b := frame.Some? && lastPresented < generation;
    }
  }

  class VideoFrameLease {
    const store: VideoFrameStore
    const generation: nat
    var frame: Option<Frame>
    var committed: bool

    ghost function View(): Lease
      reads this
    {
      Lease(generation, frame)
    }

    constructor (store: VideoFrameStore, generation: nat, frame: Option<Frame>)
      ensures this.store == store && View() == Lease(generation, frame) && !committed
    {
      this.store, this.generation, this.frame, this.committed := store, generation, frame, false;
    }

    method TakeFrame() returns (f: Option<Frame>)
      modifies this
      ensures f == old(frame) && frame == None && committed == old(committed)
    {
      f := frame;
      frame := None;
    }

    method ReturnFrame(f: Frame)
      modifies this
      ensures frame == (if old(frame).None? then Some(f) else old(frame)) && committed == old(committed)
    {
      if frame.None? {
        frame := Some(f);
      }
    }

    method Commit()
      modifies this, store
      ensures store.View() == Acknowledge(old(store.View()), generation)
      ensures committed && frame == None
      ensures store.frame == old(store.frame) && store.generation == old(store.generation)
      ensures var counted := old(store.lastPresented) < generation <= store.generation;
              && store.lastPresented == (if counted then generation else old(store.lastPresented))
              && store.stats.presented == old(store.stats).presented + Count(counted)
    {
      committed := true;
      if generation > store.lastPresented && generation <= store.generation {
        store.lastPresented := generation;
        store.stats := store.stats.(presented := store.stats.presented + 1);
      }
      frame := None;
    }

    /** What the destructor does; after a commit it does nothing. */
    method Drop()
      modifies this, store
      ensures store.View() == if old(committed) then old(store.View()) else GiveBack(old(store.View()), old(View()))
      ensures old(committed) || old(frame).None? ==> store.View() == old(store.View())
      ensures store.generation < generation || (store.generation == generation && old(store.frame).Some?) ==>
                store.View() == old(store.View())
      ensures !old(committed) && old(frame).Some? && store.generation == generation && old(store.frame).None? ==>
                store.View() == old(store.View()).(frame := old(frame))
      ensures !old(committed) && old(frame).Some? && generation < store.generation ==>
                && store.frame == old(store.frame) && store.lastPresented == old(store.lastPresented)
                && store.stats == old(store.stats).(overwritten := old(store.stats).overwritten + 1)
    {
      if committed {
        return;
      }
      var f := frame;
      frame := None;
      if f.None? {
        return;
      }
      if store.generation == generation && store.frame.None? {
        store.frame := f;
      } else if store.generation > generation {
        store.stats := store.stats.(overwritten := store.stats.overwritten + 1);
      }
    }
  }
}
