/**
 The cancellation token and its future: one waiter, any number of cancellers.

 The flag swap, the flag loads, and every lock acquisition, critical section and release are
 separate steps, so a run is an arbitrary interleaving. Wakers are compared by `will_wake`,
 modelled as equality. The lock is held while the taken waker is woken, as the guard is a
 temporary of the `if let` in `cancel`.
 */
module Cancellation {
  import opened Basics

  type Waker = nat

  datatype Owner = Free | Waiter | Canceller(id: nat)

  /** Where a call to `cancel` stands after its swap. */
  datatype CancelPc =
    | WantLock
    | Holding
    | Waking(w: Waker)
    | Releasing
    | Finished(won: bool)

  datatype WaiterPc =
    | Idle
    | FirstLoad(w: Waker)
    | PollWantsLock(w: Waker)
    | SecondLoad(w: Waker)
    | Registering(w: Waker)
    | ReleasePending(w: Waker)
    | ReleaseReady
    | DropWantsLock
    | DropHolds
    | DropReleases
    | Dropped

  datatype PollResult = NeverPolled | Pending(w: Waker) | Ready

  datatype System = System(
    cancelled: bool,
    slot: Option<Waker>,
    owner: Owner,
    cancellers: map<nat, CancelPc>,
    winner: Option<nat>,
    pc: WaiterPc,
    registered: bool,
    stored: Option<Waker>,
    last: PollResult,
    woken: seq<Waker>)

  const INITIAL := System(false, None, Free, map[], None, Idle, false, None, NeverPolled, [])

  datatype Step =
    | Swap(k: nat)
    | Advance(k: nat)
    | StartPoll(w: Waker)
    | StartDrop
    | WaiterStep

  // ---------------------------------------------------------------- steps

  function AdvanceCanceller(s: System, k: nat): System
    requires k in s.cancellers
  {
    match s.cancellers[k]
    case WantLock =>
      if s.owner.Free? then s.(owner := Canceller(k), cancellers := s.cancellers[k := Holding]) else s
    case Holding =>
      s.(slot := None,
         cancellers := s.cancellers[k := if s.slot.Some? then Waking(s.slot.value) else Releasing])
    case Waking(w) => s.(woken := s.woken + [w], cancellers := s.cancellers[k := Releasing])
    case Releasing => s.(owner := Free, cancellers := s.cancellers[k := Finished(true)])
    case Finished(_) => s
  }

  function AdvanceWaiter(s: System): System {
    match s.pc
    case FirstLoad(w) =>
      if s.cancelled then s.(registered := false, last := Ready, pc := Idle) else s.(pc := PollWantsLock(w))
    case PollWantsLock(w) =>
      if s.owner.Free? then s.(owner := Waiter, pc := SecondLoad(w)) else s
    case SecondLoad(w) =>
      if s.cancelled then s.(registered := false, pc := ReleaseReady) else s.(pc := Registering(w))
    case Registering(w) =>
      s.(slot := if s.slot == Some(w) then s.slot else Some(w),
         stored := Some(w), registered := true, pc := ReleasePending(w))
    case ReleasePending(w) => s.(owner := Free, last := Pending(w), pc := Idle)
    case ReleaseReady => s.(owner := Free, last := Ready, pc := Idle)
    case DropWantsLock =>
      if s.owner.Free? then s.(owner := Waiter, pc := DropHolds) else s
    case DropHolds =>
      s.(slot := if s.stored.Some? && s.slot == s.stored then None else s.slot, pc := DropReleases)
    case DropReleases => s.(owner := Free, pc := Dropped)
    case _ => s
  }

  /** One step; a step that is not enabled does nothing. */
  function Next(s: System, step: Step): System {
    match step
    case Swap(k) =>
      if k in s.cancellers then s
      else if s.cancelled then s.(cancellers := s.cancellers[k := Finished(false)])
      else s.(cancelled := true, winner := Some(k), cancellers := s.cancellers[k := WantLock])
    case Advance(k) => if k in s.cancellers then AdvanceCanceller(s, k) else s
    case StartPoll(w) => if s.pc.Idle? then s.(pc := FirstLoad(w)) else s
    case StartDrop => if s.pc.Idle? then s.(pc := if s.registered then DropWantsLock else Dropped) else s
    case WaiterStep => AdvanceWaiter(s)
  }

  function Run(s: System, steps: seq<Step>): System
    decreases |steps|
  {
    if steps == [] then s else Run(Next(s, steps[0]), steps[1..])
  }

  // ---------------------------------------------------------------- invariant

  /** Exactly one call wins the swap; the others return at once. */
  ghost predicate OneWinner(s: System) {
    && (s.cancelled <==> s.winner.Some?)
    && (s.winner.Some? ==> s.winner.value in s.cancellers && s.cancellers[s.winner.value] != Finished(false))
    && (forall k :: k in s.cancellers && s.winner != Some(k) ==> s.cancellers[k] == Finished(false))
  }

  predicate HoldsLock(pc: CancelPc) { pc.Holding? || pc.Waking? || pc.Releasing? }

  predicate WaiterHoldsLock(pc: WaiterPc) {
    pc.SecondLoad? || pc.Registering? || pc.ReleasePending? || pc.ReleaseReady? || pc.DropHolds? || pc.DropReleases?
  }

  ghost predicate LockConsistent(s: System) {
    && (s.owner.Waiter? <==> WaiterHoldsLock(s.pc))
    && (forall k :: k in s.cancellers ==> (s.owner == Canceller(k) <==> HoldsLock(s.cancellers[k])))
    && (s.owner.Canceller? ==> s.owner.id in s.cancellers)
  }

  /** The winner has not yet emptied the slot. */
  ghost predicate BeforeTake(s: System)
    requires OneWinner(s)
  {
    s.winner.None? || s.cancellers[s.winner.value].WantLock? || s.cancellers[s.winner.value].Holding?
  }

  /** The winner has issued whatever wake it had to issue. */
  ghost predicate AfterWake(s: System)
    requires OneWinner(s)
  {
    s.winner.Some? && (s.cancellers[s.winner.value].Releasing? || s.cancellers[s.winner.value].Finished?)
  }

  ghost predicate Wakes(s: System)
    requires OneWinner(s)
  {
    && |s.woken| <= 1
    && (s.woken != [] ==> AfterWake(s))
    && (!BeforeTake(s) ==> s.slot.None?)
    // a registration whose lock section is still open precedes the winner's
    && (s.pc.Registering? || s.pc.ReleasePending? ==> s.winner.None? || s.cancellers[s.winner.value].WantLock?)
    && (s.pc.ReleaseReady? ==> s.cancelled)
  }

  /** A registered waker is in the slot until the winner takes it, and then it is the one woken. */
  ghost predicate NotLost(s: System)
    requires OneWinner(s)
  {
    && (s.registered && s.pc != DropReleases && s.pc != Dropped ==>
          && s.stored.Some?
          && (BeforeTake(s) ==> s.slot == s.stored)
          && (s.winner.Some? && s.cancellers[s.winner.value].Waking? ==>
                s.cancellers[s.winner.value].w == s.stored.value)
          && (AfterWake(s) ==> s.woken == [s.stored.value]))
    && (s.pc.ReleasePending? ==> s.registered && s.stored == Some(s.pc.w))
    && (s.pc.DropWantsLock? || s.pc.DropHolds? ==> s.registered)
    && (s.last.Pending? && s.pc.Idle? ==> s.registered && s.stored == Some(s.last.w))
  }

  /** A waker in the slot belongs to a live registration, or the winner is about to take it. */
  ghost predicate NotRetained(s: System)
    requires OneWinner(s)
  {
    s.slot.Some? ==>
      || (s.registered && s.slot == s.stored && s.pc != DropReleases && s.pc != Dropped)
      || (s.winner.Some? && BeforeTake(s))
  }

  ghost predicate Inv(s: System) {
    OneWinner(s) && LockConsistent(s) && Wakes(s) && NotLost(s) && NotRetained(s)
  }

  lemma SwapKeepsInv(s: System, k: nat)
    requires Inv(s)
    ensures Inv(Next(s, Swap(k)))
  {
  }

  lemma AdvanceKeepsInv(s: System, k: nat)
    requires Inv(s)
    ensures Inv(Next(s, Advance(k)))
  {
  }

  lemma WaiterKeepsWakes(s: System)
    requires OneWinner(s) && LockConsistent(s) && Wakes(s)
    ensures OneWinner(AdvanceWaiter(s)) && Wakes(AdvanceWaiter(s))
  {
  }

  lemma WaiterKeepsLock(s: System)
    requires LockConsistent(s)
    ensures LockConsistent(AdvanceWaiter(s))
  {
  }

  lemma WaiterKeepsRegistration(s: System)
    requires OneWinner(s) && Wakes(s) && NotLost(s) && NotRetained(s)
    ensures OneWinner(AdvanceWaiter(s)) && NotLost(AdvanceWaiter(s)) && NotRetained(AdvanceWaiter(s))
  {
  }

  lemma WaiterKeepsInv(s: System)
    requires Inv(s)
    ensures Inv(AdvanceWaiter(s))
  {
    WaiterKeepsLock(s);
    WaiterKeepsWakes(s);
    WaiterKeepsRegistration(s);
  }

  lemma StepKeepsInv(s: System, step: Step)
    requires Inv(s)
    ensures Inv(Next(s, step))
  {
    match step
    case Swap(k) => SwapKeepsInv(s, k);
    case Advance(k) => AdvanceKeepsInv(s, k);
    case WaiterStep => WaiterKeepsInv(s);
    case StartPoll(_) =>
    case StartDrop =>
  }

  lemma {:induction false} RunKeepsInv(s: System, steps: seq<Step>)
    requires Inv(s)
    ensures Inv(Run(s, steps))
    decreases |steps|
  {
    if steps != [] {
      StepKeepsInv(s, steps[0]);
      RunKeepsInv(Next(s, steps[0]), steps[1..]);
    }
  }

  // ---------------------------------------------------------------- the guarantees

  /** The winning call of `cancel` has returned. */
  predicate WinnerReturned(s: System) {
    s.winner.Some? && s.winner.value in s.cancellers && s.cancellers[s.winner.value].Finished?
  }

  /** The future last returned Pending to waker `w` and is neither being polled nor dropped. */
  predicate WaitsOn(s: System, w: Waker) {
    s.pc.Idle? && s.last == Pending(w)
  }

  /** No lost wakeup, in any interleaving: once the winning cancel returns, the waiting waker was woken, and only it. */
  lemma NoLostWakeup(steps: seq<Step>, w: Waker)
    requires WaitsOn(Run(INITIAL, steps), w) && WinnerReturned(Run(INITIAL, steps))
    ensures Run(INITIAL, steps).woken == [w]
  {
    RunKeepsInv(INITIAL, steps);
  }

  /** More exactly: while the future waits, its waker has been woken iff the winner is past its wake. */
  lemma WokenExactly(steps: seq<Step>, w: Waker)
    requires WaitsOn(Run(INITIAL, steps), w)
    ensures var s := Run(INITIAL, steps);
            w in s.woken <==>
              s.winner.Some? && s.winner.value in s.cancellers
              && (s.cancellers[s.winner.value].Releasing? || s.cancellers[s.winner.value].Finished?)
  {
    RunKeepsInv(INITIAL, steps);
  }

  /** Across all cancellers at most one wake is issued, and two parties never hold the lock. */
  lemma AtMostOneWake(steps: seq<Step>)
    ensures var s := Run(INITIAL, steps);
            && |s.woken| <= 1
            && (WaiterHoldsLock(s.pc) ==> forall k :: k in s.cancellers ==> !HoldsLock(s.cancellers[k]))
            && (forall j, k :: j in s.cancellers && k in s.cancellers ==>
                                 HoldsLock(s.cancellers[j]) && HoldsLock(s.cancellers[k]) ==> j == k)
  {
    RunKeepsInv(INITIAL, steps);
  }

  /** A dropped future leaves no waker behind, unless the winning cancel is about to take it out. */
  lemma DropUnregisters(steps: seq<Step>)
    requires Run(INITIAL, steps).pc.Dropped?
    ensures var s := Run(INITIAL, steps); !s.cancelled || WinnerReturned(s) ==> s.slot.None?
  {
    RunKeepsInv(INITIAL, steps);
  }

  lemma {:induction false} ReadyStaysJustified(s: System, steps: seq<Step>)
    requires Inv(s) && (s.last.Ready? ==> s.cancelled)
    ensures Run(s, steps).last.Ready? ==> Run(s, steps).cancelled
    decreases |steps|
  {
    if steps != [] {
      StepKeepsInv(s, steps[0]);
      ReadyStaysJustified(Next(s, steps[0]), steps[1..]);
    }
  }

  /** In every interleaving the future is ready only once the flag is set. */
  lemma ReadyMeansCancelled(steps: seq<Step>)
    ensures Run(INITIAL, steps).last.Ready? ==> Run(INITIAL, steps).cancelled
  {
    ReadyStaysJustified(INITIAL, steps);
  }

  /** A poll that loads the flag, before or under the lock, ends accordingly: ready when it is set, else registered. */
  lemma PollFollowsFlag(s: System, w: Waker)
    ensures s.pc == FirstLoad(w) && s.cancelled ==>
              var t := AdvanceWaiter(s);
              t.last.Ready? && t.pc.Idle? && !t.registered && t.slot == s.slot && t.owner == s.owner
    ensures s.pc == SecondLoad(w) ==>
              var t := AdvanceWaiter(AdvanceWaiter(s));
              if s.cancelled then t.last.Ready? && t.pc.Idle? && !t.registered && t.slot == s.slot && t.owner.Free?
              else t.slot == t.stored == Some(w) && t.registered && AdvanceWaiter(t).last == Pending(w)
                   && AdvanceWaiter(t).owner.Free?
  {
  }

  // ---------------------------------------------------------------- progress

  function WinnerWork(pc: CancelPc): nat {
    match pc
    case WantLock => 4
    case Holding => 3
    case Waking(_) => 2
    case Releasing => 1
    case Finished(_) => 0
  }

  /** How many steps the waiter needs at most to give the lock back. */
  function WaiterWork(pc: WaiterPc): nat {
    match pc
    case SecondLoad(_) => 3
    case Registering(_) => 2
    case DropHolds => 2
    case ReleasePending(_) => 1
    case ReleaseReady => 1
    case DropReleases => 1
    case _ => 0
  }

  ghost function Work(s: System): nat
    requires OneWinner(s) && s.winner.Some?
  {
    var pc := s.cancellers[s.winner.value];
    WinnerWork(pc) + if pc.WantLock? then WaiterWork(s.pc) else 0
  }

  /** Whoever is in the winner's way: the waiter while it holds the lock the winner wants, else the winner itself. */
  ghost function Helpful(s: System): Step
    requires OneWinner(s) && s.winner.Some?
  {
    if s.cancellers[s.winner.value].WantLock? && s.owner.Waiter? then WaiterStep else Advance(s.winner.value)
  }

  lemma HelpfulStepHelps(s: System)
    requires Inv(s) && s.winner.Some? && !WinnerReturned(s)
    ensures var t := Next(s, Helpful(s)); Inv(t) && t.winner == s.winner && Work(t) < Work(s)
  {
    StepKeepsInv(s, Helpful(s));
  }

  /** Steps of the winner and of a waiter that holds the lock; nobody else is needed. */
  predicate OnlyHelpers(steps: seq<Step>, winner: nat) {
    forall i :: 0 <= i < |steps| ==> steps[i] == WaiterStep || steps[i] == Advance(winner)
  }

  lemma {:induction false} WinnerCanReturn(s: System) returns (more: seq<Step>)
    requires Inv(s) && s.winner.Some?
    ensures OnlyHelpers(more, s.winner.value) && |more| <= Work(s)
    ensures Inv(Run(s, more)) && WinnerReturned(Run(s, more)) && Run(s, more).winner == s.winner
    decreases Work(s)
  {
    if WinnerReturned(s) {
      more := [];
    } else {
      HelpfulStepHelps(s);
      var rest := WinnerCanReturn(Next(s, Helpful(s)));
      more := [Helpful(s)] + rest;
      assert more[1..] == rest;
    }
  }

  /** No deadlock: from every reachable state with a winner at most seven steps let the winning cancel return. */
  lemma CancelAlwaysReturns(steps: seq<Step>) returns (more: seq<Step>)
    requires Run(INITIAL, steps).winner.Some?
    ensures var s := Run(INITIAL, steps);
            OnlyHelpers(more, s.winner.value) && |more| <= 7 && WinnerReturned(Run(INITIAL, steps + more))
  {
    RunKeepsInv(INITIAL, steps);
    more := WinnerCanReturn(Run(INITIAL, steps));
    RunConcat(INITIAL, steps, more);
  }

  lemma {:induction false} HelpersSpareIdleWaiter(s: System, more: seq<Step>, winner: nat)
    requires OnlyHelpers(more, winner) && s.pc.Idle?
    ensures Run(s, more).pc.Idle? && Run(s, more).last == s.last
    decreases |more|
  {
    if more != [] {
      HelpersSpareIdleWaiter(Next(s, more[0]), more[1..], winner);
    }
  }

  /** Once the flag is set, a waiting future can always still be woken, by the winner's own steps. */
  lemma WaiterCanBeWoken(steps: seq<Step>, w: Waker) returns (more: seq<Step>)
    requires WaitsOn(Run(INITIAL, steps), w) && Run(INITIAL, steps).cancelled
    ensures |more| <= 7 && Run(INITIAL, steps + more).woken == [w]
  {
    var s := Run(INITIAL, steps);
    RunKeepsInv(INITIAL, steps);
    more := CancelAlwaysReturns(steps);
    RunConcat(INITIAL, steps, more);
    HelpersSpareIdleWaiter(s, more, s.winner.value);
    NoLostWakeup(steps + more, w);
  }

  /** "Some cancel returned" is not enough: a losing call returns before the winner has woken anyone. */
  lemma LosingCancelReturnsEarly()
    ensures var s := Run(INITIAL, [StartPoll(7), WaiterStep, WaiterStep, WaiterStep, WaiterStep, WaiterStep,
                                   Swap(0), Swap(1)]);
            WaitsOn(s, 7) && s.cancellers[1] == Finished(false) && s.woken == []
  {
    var steps := [StartPoll(7), WaiterStep, WaiterStep, WaiterStep, WaiterStep, WaiterStep, Swap(0), Swap(1)];
    UninterruptedPoll(INITIAL, 7);
    RunConcat(INITIAL, PollSteps(7), [Swap(0), Swap(1)]);
    assert steps == PollSteps(7) + [Swap(0), Swap(1)];
    var s1 := Run(INITIAL, PollSteps(7));
    assert [Swap(0), Swap(1)][1..] == [Swap(1)] && [Swap(1)][1..] == [];
    assert Run(s1, [Swap(0), Swap(1)]) == Next(Next(s1, Swap(0)), Swap(1));
  }

  // ---------------------------------------------------------------- the imperative code

  lemma RunConcat(s: System, a: seq<Step>, b: seq<Step>)
    ensures Run(s, a + b) == Run(Run(s, a), b)
    decreases |a|
  {
    if a == [] {
      assert a + b == b;
    } else {
      assert (a + b)[1..] == a[1..] + b;
      RunConcat(Next(s, a[0]), a[1..], b);
    }
  }

  /** What a call sees and changes when nothing interleaves with it. */
  datatype Shared = Shared(cancelled: bool, slot: Option<Waker>, woken: seq<Waker>)
  datatype Local = Local(registered: bool, stored: Option<Waker>)

  function CancelCall(sh: Shared): Shared {
    if sh.cancelled then sh
    else Shared(true, None, sh.woken + if sh.slot.Some? then [sh.slot.value] else [])
  }

  function PollCall(sh: Shared, lo: Local, w: Waker): (Shared, Local, bool) {
    if sh.cancelled then (sh, lo.(registered := false), true)
    else (sh.(slot := Some(w)), Local(true, Some(w)), false)
  }

  function DropCall(sh: Shared, lo: Local): Shared {
    if lo.registered && lo.stored.Some? && sh.slot == lo.stored then sh.(slot := None) else sh
  }

  function SharedOf(s: System): Shared { Shared(s.cancelled, s.slot, s.woken) }

  function LocalOf(s: System): Local { Local(s.registered, s.stored) }

  function PollSteps(w: Waker): seq<Step> { [StartPoll(w), WaiterStep, WaiterStep, WaiterStep, WaiterStep, WaiterStep] }

  const DROP_STEPS := [StartDrop, WaiterStep, WaiterStep, WaiterStep]

  function CancelSteps(k: nat): seq<Step> { [Swap(k), Advance(k), Advance(k), Advance(k), Advance(k)] }

  lemma RunSix(s: System, a: Step, b: Step, c: Step, d: Step, e: Step, f: Step)
    ensures Run(s, [a, b, c, d, e, f]) == Next(Next(Next(Next(Next(Next(s, a), b), c), d), e), f)
  {
    RunConcat(s, [a, b, c], [d, e, f]);
    assert [a, b, c, d, e, f] == [a, b, c] + [d, e, f];
    RunThree(s, a, b, c);
    RunThree(Run(s, [a, b, c]), d, e, f);
  }

  lemma RunThree(s: System, a: Step, b: Step, c: Step)
    ensures Run(s, [a, b, c]) == Next(Next(Next(s, a), b), c)
  {
    assert [a, b, c][1..] == [b, c] && [b, c][1..] == [c] && [c][1..] == [];
    assert Run(s, [a, b, c]) == Run(Next(s, a), [b, c]) == Run(Next(Next(s, a), b), [c]);
    assert Run(Next(Next(s, a), b), [c]) == Run(Next(Next(Next(s, a), b), c), []);
  }

  lemma PollFindsFlag(s: System, w: Waker)
    requires s.pc.Idle? && s.cancelled
    ensures Run(s, PollSteps(w)) == s.(registered := false, last := Ready, pc := Idle)
  {
    RunSix(s, StartPoll(w), WaiterStep, WaiterStep, WaiterStep, WaiterStep, WaiterStep);
  }

  lemma PollStoresWaker(s: System, w: Waker)
    requires s.pc.Idle? && s.owner.Free? && !s.cancelled
    ensures Run(s, PollSteps(w))
            == s.(slot := Some(w), stored := Some(w), registered := true, last := Pending(w), pc := Idle)
  {
    RunSix(s, StartPoll(w), WaiterStep, WaiterStep, WaiterStep, WaiterStep, WaiterStep);
    var locked := s.(owner := Waiter, pc := SecondLoad(w));
    assert Next(Next(Next(s, StartPoll(w)), WaiterStep), WaiterStep) == locked;
    var stored := s.(owner := Waiter, slot := Some(w), stored := Some(w), registered := true, pc := ReleasePending(w));
    assert Next(Next(locked, WaiterStep), WaiterStep) == stored;
  }

  /** An uninterrupted poll is the sequential code. */
  lemma UninterruptedPoll(s: System, w: Waker)
    requires s.pc.Idle? && s.owner.Free?
    ensures var t := Run(s, PollSteps(w)); var (sh, lo, ready) := PollCall(SharedOf(s), LocalOf(s), w);
            && SharedOf(t) == sh && LocalOf(t) == lo && t.last == (if ready then Ready else Pending(w))
            && t.pc.Idle? && t.owner.Free? && t.cancellers == s.cancellers && t.winner == s.winner
  {
    if s.cancelled {
      PollFindsFlag(s, w);
    } else {
      PollStoresWaker(s, w);
    }
  }

  /** An uninterrupted drop is the sequential code. */
  lemma UninterruptedDrop(s: System)
    requires s.pc.Idle? && s.owner.Free?
    ensures SharedOf(Run(s, DROP_STEPS)) == DropCall(SharedOf(s), LocalOf(s)) && Run(s, DROP_STEPS).pc.Dropped?
  {
    RunConcat(s, [StartDrop], [WaiterStep, WaiterStep, WaiterStep]);
    assert DROP_STEPS == [StartDrop] + [WaiterStep, WaiterStep, WaiterStep];
    assert [StartDrop][1..] == [];
    assert Run(s, [StartDrop]) == Run(Next(s, StartDrop), []);
    RunThree(Next(s, StartDrop), WaiterStep, WaiterStep, WaiterStep);
  }

  /** An uninterrupted cancel is the sequential code. */
  lemma UninterruptedCancel(s: System, k: nat)
    requires k !in s.cancellers && s.owner.Free?
    ensures var t := Run(s, CancelSteps(k));
            SharedOf(t) == CancelCall(SharedOf(s)) && t.owner.Free? && k in t.cancellers && t.cancellers[k].Finished?
  {
    RunConcat(s, [Swap(k), Advance(k)], [Advance(k), Advance(k), Advance(k)]);
    assert CancelSteps(k) == [Swap(k), Advance(k)] + [Advance(k), Advance(k), Advance(k)];
    var s1 := Next(s, Swap(k));
    assert [Swap(k), Advance(k)][1..] == [Advance(k)] && [Advance(k)][1..] == [];
    assert Run(s, [Swap(k), Advance(k)]) == Run(s1, [Advance(k)]) == Run(Next(s1, Advance(k)), []);
    RunThree(Next(s1, Advance(k)), Advance(k), Advance(k), Advance(k));
  }

  class VideoCancellationToken {
    var cancelled: bool
    var waker: Option<Waker>
    var woken: seq<Waker>

    ghost function View(): Shared
      reads this
    {
      Shared(cancelled, waker, woken)
    }

    constructor ()
      ensures View() == Shared(false, None, [])
    {
      cancelled, waker, woken := false, None, [];
    }

    method Cancel()
      modifies this
      ensures View() == CancelCall(old(View()))
      ensures cancelled && (old(cancelled) ==> View() == old(View()))
      ensures !old(cancelled) ==>
                waker == None && woken == old(woken) + (if old(waker).Some? then [old(waker).value] else [])
    {
      var was := cancelled;
      cancelled := true;
      if was {
        return;
      }
      var taken := waker;
      waker := None;
      if taken.Some? {
        woken := woken + [taken.value];
      }
    }
  }

  class VideoCancellationFuture {
    const state: VideoCancellationToken
    var registered: bool
    var waker: Option<Waker>

    ghost function View(): Local
      reads this
    {
      Local(registered, waker)
    }

    constructor (state: VideoCancellationToken)
      ensures this.state == state && View() == Local(false, None)
    {
      this.state, registered, waker := state, false, None;
    }

    method Poll(w: Waker) returns (ready: bool)
      modifies this, state
      ensures (state.View(), View(), ready) == PollCall(old(state.View()), old(View()), w)
      ensures ready <==> old(state.cancelled)
      ensures ready ==> !registered && state.View() == old(state.View())
      ensures !ready ==> registered && waker == Some(w) == state.waker
      ensures state.cancelled == old(state.cancelled) && state.woken == old(state.woken)
    {
      if state.cancelled {
        registered := false;
        return true;
      }
      if state.waker != Some(w) {
        state.waker := Some(w);
      }
      waker := Some(w);
      registered := true;
      return false;
    }

    method Drop()
      modifies state
      ensures state.View() == DropCall(old(state.View()), View())
      ensures state.cancelled == old(state.cancelled) && state.woken == old(state.woken)
      ensures state.waker == if registered && old(state.waker) == waker then None else old(state.waker)
    {
      if !registered {
        return;
      }
      if waker.Some? && state.waker == waker {
        state.waker := None;
      }
    }
  }
}
