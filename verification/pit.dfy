/** Tick reinjection of the emulated 8254 in reinject mode (host/kvm/i8254.c:203-289).

    The timer callback, the kthread worker and any number of ack callbacks run concurrently; each
    atomic access is one step.  The work item is a flag: queueing it twice before it is taken is
    the same as queueing it once. */
module Pit {

  datatype Worker =
    | Asleep
    | Started          // work item taken, irq_ack not exchanged yet
    | MayInject        // the exchange returned 1
    | Raised           // line raised, not lowered yet

  datatype State = State(
    pending: nat,
    irqAck: bool,
    queued: bool,
    timerHalfway: bool,   // pending incremented, work not queued yet
    worker: Worker,
    acksBegun: nat,       // ack callbacks that have set irq_ack and not touched pending yet
    acksToQueue: nat,     // ack callbacks about to queue work
    awaiting: nat,        // injected interrupts whose ack callback has not begun
    resetHalfway: bool,   // a reset has cleared pending and not set irq_ack yet
    // history
    ticks: nat,           // since the last reset
    consumed: nat,        // decrements of pending since the last reset
    acksDone: nat,        // ack callbacks that got past the decrement since the last reset
    injections: nat,      // since the last reset
    carried: nat,         // interrupts injected before the last reset and not acknowledged by then
    sinceAck: nat,        // injections since an ack callback last began
    resets: nat)

  datatype Step =
    | Tick | TimerQueue
    | Wake | Exchange | Raise | Lower
    | AckBegin | AckDecrement | AckQueue
    | ResetPending | ResetAck

  ghost predicate Init(s: State) {
    s == State(0, true, false, false, Asleep, 0, 0, 0, false, 0, 0, 0, 0, 0, 0, 0)
  }

  predicate Enabled(s: State, a: Step) {
    match a
    case Tick => !s.timerHalfway
    case TimerQueue => s.timerHalfway
    case Wake => s.queued && s.worker.Asleep?
    case Exchange => s.worker.Started?
    case Raise => s.worker.MayInject?
    case Lower => s.worker.Raised?
    case AckBegin => s.awaiting > 0
    case AckDecrement => s.acksBegun > 0
    case AckQueue => s.acksToQueue > 0
    case ResetPending => !s.resetHalfway
    case ResetAck => s.resetHalfway
  }

  function Do(s: State, a: Step): State
    requires Enabled(s, a)
  {
    match a
    case Tick => s.(pending := s.pending + 1, timerHalfway := true, ticks := s.ticks + 1)
    case TimerQueue => s.(queued := true, timerHalfway := false)
    case Wake => s.(queued := false, worker := Started)
    case Exchange => s.(irqAck := false, worker := if s.irqAck then MayInject else Asleep)
    case Raise => s.(worker := Raised, awaiting := s.awaiting + 1,
                     injections := s.injections + 1, sinceAck := s.sinceAck + 1)
    case Lower => s.(worker := Asleep)
    case AckBegin => s.(irqAck := true, awaiting := s.awaiting - 1, acksBegun := s.acksBegun + 1, sinceAck := 0)
    case AckDecrement =>
      // atomic_dec_if_positive: the result is one less than the old value, stored unless negative
      s.(pending := if s.pending > 0 then s.pending - 1 else 0,
         acksBegun := s.acksBegun - 1,
         acksToQueue := if s.pending - 1 > 0 then s.acksToQueue + 1 else s.acksToQueue,
         consumed := if s.pending > 0 then s.consumed + 1 else s.consumed,
         acksDone := s.acksDone + 1)
    case AckQueue => s.(queued := true, acksToQueue := s.acksToQueue - 1)
    case ResetPending =>
      s.(pending := 0, resetHalfway := true, ticks := 0, consumed := 0, acksDone := 0, injections := 0,
         carried := s.awaiting + s.acksBegun, resets := s.resets + 1)
    case ResetAck => s.(irqAck := true, resetHalfway := false)
  }

  ghost predicate Chain(states: seq<State>, steps: seq<Step>) {
    && |states| == |steps| + 1
    && forall k :: 0 <= k < |steps| ==> Enabled(states[k], steps[k]) && states[k + 1] == Do(states[k], steps[k])
  }

  ghost predicate Run(states: seq<State>, steps: seq<Step>) {
    Chain(states, steps) && Init(states[0])
  }

  /** Nothing is in flight: no tick callback, no work, no interrupt and no ack callback. */
  predicate Quiescent(s: State) {
    && !s.timerHalfway && !s.queued && s.worker.Asleep?
    && s.acksBegun == 0 && s.acksToQueue == 0 && s.awaiting == 0
  }

  predicate FromOutside(a: Step) {
    a.Tick? || a.ResetPending? || a.ResetAck?
  }

  // ----- what every step keeps, resets included -----

  /** The worker will look at irq_ack again although nobody acknowledges anything. */
  predicate WorkComing(s: State) {
    s.queued || s.worker.Started? || s.timerHalfway || s.acksToQueue > 0
  }

  predicate AckComing(s: State) {
    s.awaiting > 0 || s.worker.MayInject?
  }

  predicate Inv(s: State) {
    && (!s.irqAck ==> AckComing(s))
    && (s.pending > 0 ==> AckComing(s) || s.acksBegun > 0 || WorkComing(s))
    && s.ticks == s.pending + s.consumed
    && s.consumed <= s.acksDone
    && s.acksDone + s.acksBegun + s.awaiting == s.injections + s.carried
  }

  function One(b: bool): nat {
    if b then 1 else 0
  }

  lemma StepKeepsInv(s: State, a: Step)
    requires Inv(s) && Enabled(s, a)
    ensures Inv(Do(s, a))
  {
  }

  lemma {:induction false} RunInv(states: seq<State>, steps: seq<Step>, k: nat)
    requires Run(states, steps) && k < |states|
    ensures Inv(states[k])
  {
    ChainKeepsInv(states, steps, k);
  }

  // ----- theorems over every run -----

  /** No tick is stranded: ticks pending with no interrupt awaiting its ack and no ack callback
      midway mean that a work item is queued, running, or about to be queued by the timer. */
  lemma PendingTickIsServed(states: seq<State>, steps: seq<Step>, k: nat)
    requires Run(states, steps) && k < |states|
    requires states[k].pending > 0
    requires states[k].awaiting == 0 && states[k].acksBegun == 0 && states[k].acksToQueue == 0
    ensures states[k].queued || states[k].worker.Started? || states[k].worker.MayInject? || states[k].timerHalfway
  {
    RunInv(states, steps, k);
  }

  /** Once everything has settled no tick is left, and each tick since the last reset has had an
      interrupt, but for one tick at most for each interrupt that was in flight at that reset. */
  lemma QuiescenceAccountsForTicks(states: seq<State>, steps: seq<Step>, k: nat)
    requires Run(states, steps) && k < |states| && Quiescent(states[k])
    ensures states[k].pending == 0
    ensures states[k].ticks <= states[k].injections + states[k].carried
    ensures states[k].carried == 0 ==> states[k].ticks <= states[k].injections
  {
    RunInv(states, steps, k);
  }

  // ----- the system settles by itself -----

  function Work(w: Worker): nat {
    match w
    case Asleep => 0
    case Started => 6
    case MayInject => 5
    case Raised => 1
  }

  /** How many steps the system can still make by itself, at most. */
  function Energy(s: State): nat {
    10 * s.pending + 8 * One(s.timerHalfway) + 7 * One(s.queued) + Work(s.worker)
    + 3 * s.awaiting + 2 * s.acksBegun + 8 * s.acksToQueue
  }

  lemma StepSpendsEnergy(s: State, a: Step)
    requires Enabled(s, a) && !FromOutside(a)
    ensures Energy(Do(s, a)) < Energy(s)
  {
  }

  lemma NotQuiescentCanMove(s: State) returns (a: Step)
    requires !Quiescent(s)
    ensures Enabled(s, a) && !FromOutside(a)
  {
    a := if s.timerHalfway then TimerQueue
         else if s.worker.Started? then Exchange
         else if s.worker.MayInject? then Raise
         else if s.worker.Raised? then Lower
         else if s.queued then Wake
         else if s.awaiting > 0 then AckBegin
         else if s.acksBegun > 0 then AckDecrement
         else AckQueue;
  }

  /** When ticks and resets stop and the guest acknowledges what it gets, the callbacks run at most
      Energy more steps, whatever their order, and where they cannot go on nothing is pending. */
  lemma {:induction false} Settles(before: seq<State>, past: seq<Step>, states: seq<State>, steps: seq<Step>)
    requires Run(before, past) && Chain(states, steps) && states[0] == before[|past|]
    requires forall k :: 0 <= k < |steps| ==> !FromOutside(steps[k])
    ensures |steps| <= Energy(states[0])
    ensures var s := states[|steps|];
            (forall a :: Enabled(s, a) ==> FromOutside(a)) ==>
              s.pending == 0 && s.ticks <= s.injections + s.carried
  {
    ChainSpendsEnergy(states, steps);
    var s := states[|steps|];
    if forall a :: Enabled(s, a) ==> FromOutside(a) {
      if !Quiescent(s) {
        var a := NotQuiescentCanMove(s);
      }
      RunInv(before, past, |past|);
      ChainKeepsInv(states, steps, |steps|);
    }
  }

  lemma {:induction false} ChainKeepsInv(states: seq<State>, steps: seq<Step>, k: nat)
    requires Chain(states, steps) && Inv(states[0]) && k < |states|
    ensures Inv(states[k])
  {
    if k > 0 {
      ChainKeepsInv(states, steps, k - 1);
      StepKeepsInv(states[k - 1], steps[k - 1]);
    }
  }

  lemma {:induction false} ChainSpendsEnergy(states: seq<State>, steps: seq<Step>)
    requires Chain(states, steps)
    requires forall k :: 0 <= k < |steps| ==> !FromOutside(steps[k])
    ensures |steps| + Energy(states[|steps|]) <= Energy(states[0])
  {
    if steps != [] {
      ChainSpendsEnergy(states[1..], steps[1..]);
      StepSpendsEnergy(states[0], steps[0]);
    }
  }

  // ----- going on with a run -----

  lemma Extend(states: seq<State>, steps: seq<Step>, s: State, a: Step)
      returns (states': seq<State>, steps': seq<Step>, t: State)
    requires Run(states, steps) && states[|steps|] == s && Enabled(s, a)
    ensures Run(states', steps') && states'[|steps'|] == t == Do(s, a)
    ensures states' == states + [t] && steps' == steps + [a]
  {
    t := Do(s, a);
    states', steps' := states + [t], steps + [a];
  }

  /** The run goes on, and no reset comes. */
  ghost predicate GoesOn(states: seq<State>, steps: seq<Step>, states': seq<State>, steps': seq<Step>) {
    && Run(states', steps') && states <= states' && steps <= steps'
    && forall k :: |steps| <= k < |steps'| ==> !steps'[k].ResetPending? && !steps'[k].ResetAck?
  }

  /** The one next step. */
  lemma Next(states: seq<State>, steps: seq<Step>, from: seq<State>, past: seq<Step>, s: State, a: Step)
      returns (states': seq<State>, steps': seq<Step>, t: State)
    requires GoesOn(from, past, states, steps) && states[|steps|] == s && Enabled(s, a)
    requires !a.ResetPending? && !a.ResetAck?
    ensures GoesOn(from, past, states', steps') && states'[|steps'|] == t == Do(s, a)
  {
    states', steps', t := Extend(states, steps, s, a);
  }

  /** One tick, injected: the state in which its interrupt waits for the guest. */
  lemma FirstInterrupt() returns (states: seq<State>, steps: seq<Step>, s: State)
    ensures Run(states, steps) && states[|steps|] == s
    ensures s == State(1, false, false, false, Asleep, 0, 0, 1, false, 1, 0, 0, 1, 0, 1, 0)
    ensures forall k :: 0 <= k < |states| ==> states[k].acksBegun == 0 && states[k].acksToQueue == 0
    ensures forall k :: 0 <= k < |steps| ==> !steps[k].ResetAck?
  {
    s := State(0, true, false, false, Asleep, 0, 0, 0, false, 0, 0, 0, 0, 0, 0, 0);
    states, steps := [s], [];
    states, steps, s := Extend(states, steps, s, Tick);
    states, steps, s := Extend(states, steps, s, TimerQueue);
    states, steps, s := Extend(states, steps, s, Wake);
    states, steps, s := Extend(states, steps, s, Exchange);
    states, steps, s := Extend(states, steps, s, Raise);
    states, steps, s := Extend(states, steps, s, Lower);
  }

  // ----- one interrupt per acknowledge -----

  /** There is one permission to inject, and it is always in exactly one place. */
  predicate OneToken(s: State) {
    s.awaiting + One(s.worker.MayInject?) + One(s.irqAck) == 1 && s.sinceAck == s.awaiting
  }

  lemma StepKeepsToken(s: State, a: Step)
    requires OneToken(s) && Enabled(s, a) && (a == ResetAck ==> !AckComing(s))
    ensures OneToken(Do(s, a))
  {
  }

  /** No reset among the first n steps sets irq_ack with an interrupt outstanding: injected and not
      acknowledged, or about to be injected. */
  ghost predicate HarmlessResets(states: seq<State>, steps: seq<Step>, n: nat)
    requires n <= |steps| && |states| == |steps| + 1
  {
    forall k :: 0 <= k < n && steps[k] == ResetAck ==> !AckComing(states[k])
  }

  lemma {:induction false} RunToken(states: seq<State>, steps: seq<Step>, k: nat)
    requires Run(states, steps) && k < |states| && HarmlessResets(states, steps, k)
    ensures OneToken(states[k])
  {
    if k > 0 {
      RunToken(states, steps, k - 1);
      StepKeepsToken(states[k - 1], steps[k - 1]);
    }
  }

  /** As long as no reset sets irq_ack with an interrupt outstanding, no second interrupt is injected
      before an ack callback has begun. */
  lemma {:induction false} OneInjectionPerAck(states: seq<State>, steps: seq<Step>, k: nat)
    requires Run(states, steps) && k < |states| && HarmlessResets(states, steps, k)
    ensures states[k].sinceAck == states[k].awaiting <= 1
  {
    RunToken(states, steps, k);
  }

  /** With irq_ack set, the worker injects after at most one more tick. */
  lemma {:induction false} InjectNow(states: seq<State>, steps: seq<Step>, from: seq<State>, past: seq<Step>, s: State)
      returns (states': seq<State>, steps': seq<Step>, t: State)
    requires GoesOn(from, past, states, steps) && states[|steps|] == s && s.irqAck && !s.worker.MayInject?
    ensures GoesOn(from, past, states', steps') && states'[|steps'|] == t && t.sinceAck == s.sinceAck + 1
  {
    states', steps', t := states, steps, s;
    if t.worker.Raised? {
      states', steps', t := Next(states', steps', from, past, t, Lower);
    }
    if t.worker.Asleep? {
      if !t.queued {
        if !t.timerHalfway {
          states', steps', t := Next(states', steps', from, past, t, Tick);
        }
        states', steps', t := Next(states', steps', from, past, t, TimerQueue);
      }
      states', steps', t := Next(states', steps', from, past, t, Wake);
    }
    states', steps', t := Next(states', steps', from, past, t, Exchange);
    states', steps', t := Next(states', steps', from, past, t, Raise);
  }

  /** And this is exact: at the first reset that is about to set irq_ack with an interrupt outstanding,
      the run can go on with that step to a second injection without an acknowledge and without
      another reset. */
  lemma {:induction false} HarmfulResetAllowsSecond(states: seq<State>, steps: seq<Step>)
      returns (states': seq<State>, steps': seq<Step>)
    requires Run(states, steps) && HarmlessResets(states, steps, |steps|)
    requires states[|steps|].resetHalfway && AckComing(states[|steps|])
    ensures GoesOn(states + [Do(states[|steps|], ResetAck)], steps + [ResetAck], states', steps')
    ensures states'[|steps'|].sinceAck == 2
  {
    RunToken(states, steps, |steps|);
    var t;
    states', steps', t := Extend(states, steps, states[|steps|], ResetAck);
    var from, past := states', steps';
    if t.worker.MayInject? {
      states', steps', t := Next(states', steps', from, past, t, Raise);
    }
    states', steps', t := InjectNow(states', steps', from, past, t);
  }

  /** Such a reset can come: with the first interrupt unacknowledged. */
  lemma ResetAllowsSecondInjection() returns (states: seq<State>, steps: seq<Step>)
    ensures Run(states, steps) && states[|steps|].sinceAck == 2
  {
    var s;
    states, steps, s := FirstInterrupt();
    states, steps, s := Extend(states, steps, s, ResetPending);
    assert HarmlessResets(states, steps, |steps|);
    states, steps := HarmfulResetAllowsSecond(states, steps);
  }

  // ----- ticks that get no interrupt -----

  /** Interrupts in flight, of which each acknowledge will take one pending tick. */
  function InFlight(s: State): nat {
    s.awaiting + s.acksBegun + One(s.worker.MayInject?) + One(s.worker.Started? && s.irqAck)
  }

  /** Every acknowledge so far has found a tick, and those in flight will. */
  predicate Plenty(s: State) {
    && s.acksDone == s.consumed
    && (InFlight(s) < s.pending
        || (InFlight(s) == s.pending <= 1 && !s.queued && s.acksToQueue == 0 && !s.timerHalfway))
  }

  /** What is in flight goes first; the worker takes new work when all else is done. */
  lemma {:induction false} OrderlyStep(s: State) returns (a: Step)
    requires Plenty(s) && !Quiescent(s)
    ensures Enabled(s, a) && !FromOutside(a) && Plenty(Do(s, a))
  {
    a := if s.timerHalfway then TimerQueue
         else if s.worker.Started? then Exchange
         else if s.worker.MayInject? then Raise
         else if s.worker.Raised? then Lower
         else if s.awaiting > 0 then AckBegin
         else if s.acksBegun > 0 then AckDecrement
         else if s.acksToQueue > 0 then AckQueue
         else Wake;
  }

  lemma {:induction false} SettleOrderly(states: seq<State>, steps: seq<Step>, from: seq<State>, past: seq<Step>, s: State)
      returns (states': seq<State>, steps': seq<Step>, t: State)
    requires GoesOn(from, past, states, steps) && states[|steps|] == s && Plenty(s)
    ensures GoesOn(from, past, states', steps') && states'[|steps'|] == t
    ensures Quiescent(t) && t.acksDone == t.consumed && t.carried == s.carried
    decreases Energy(s)
  {
    states', steps', t := states, steps, s;
    if !Quiescent(s) {
      var a := OrderlyStep(s);
      StepSpendsEnergy(s, a);
      states', steps', t := Next(states, steps, from, past, s, a);
      states', steps', t := SettleOrderly(states', steps', from, past, t);
    }
  }

  lemma {:induction false} ManyTicks(states: seq<State>, steps: seq<Step>, from: seq<State>, past: seq<Step>, s: State, n: nat)
      returns (states': seq<State>, steps': seq<Step>, t: State)
    requires GoesOn(from, past, states, steps) && states[|steps|] == s && !s.timerHalfway
    ensures GoesOn(from, past, states', steps') && states'[|steps'|] == t
    ensures t == s.(pending := s.pending + n, ticks := s.ticks + n, queued := s.queued || n > 0)
  {
    states', steps', t := states, steps, s;
    if n > 0 {
      states', steps', t := ManyTicks(states, steps, from, past, s, n - 1);
      states', steps', t := Next(states', steps', from, past, t, Tick);
      states', steps', t := Next(states', steps', from, past, t, TimerQueue);
    }
  }

  /** The premise "carried == 0" of QuiescenceAccountsForTicks is exact: after any reset with an interrupt
      in flight the run can go on, without another reset, until all is quiet and one tick for each such
      interrupt has had none. */
  lemma {:induction false} CarriedInterruptsCostTicks(states: seq<State>, steps: seq<Step>)
      returns (states': seq<State>, steps': seq<Step>)
    requires Run(states, steps) && steps != [] && steps[|steps| - 1] == ResetPending
    requires states[|steps|].carried > 0
    ensures GoesOn(states + [Do(states[|steps|], ResetAck)], steps + [ResetAck], states', steps')
    ensures var t := states'[|steps'|];
            Quiescent(t) && t.carried == states[|steps|].carried && t.ticks == t.injections + t.carried > t.injections
  {
    assert states[|steps|] == Do(states[|steps| - 1], ResetPending);
    var t;
    states', steps', t := Extend(states, steps, states[|steps|], ResetAck);
    var from, past := states', steps';
    if t.timerHalfway {
      states', steps', t := Next(states', steps', from, past, t, TimerQueue);
    }
    states', steps', t := ManyTicks(states', steps', from, past, t, InFlight(t) + 1);
    states', steps', t := SettleOrderly(states', steps', from, past, t);
    RunInv(states', steps', |steps'|);
  }

  /** The shortest such run: the interrupt that a reset left unacknowledged takes the only tick. */
  lemma TickWithoutInterrupt() returns (states: seq<State>, steps: seq<Step>)
    ensures Run(states, steps) && Quiescent(states[|steps|])
    ensures states[|steps|].ticks == 1 && states[|steps|].injections == 0
  {
    var s;
    states, steps, s := FirstInterrupt();
    states, steps, s := Extend(states, steps, s, ResetPending);
    states, steps, s := Extend(states, steps, s, Tick);
    states, steps, s := Extend(states, steps, s, TimerQueue);
    states, steps, s := Extend(states, steps, s, Wake);
    states, steps, s := Extend(states, steps, s, Exchange);
    states, steps, s := Extend(states, steps, s, ResetAck);
    states, steps, s := Extend(states, steps, s, AckBegin);
    states, steps, s := Extend(states, steps, s, AckDecrement);
  }

  // ----- interrupts that no tick asked for -----

  /** More ticks are pending than interrupts are in flight that will take one. */
  predicate Wanted(s: State) {
    s.pending > s.acksBegun + s.awaiting
  }

  ghost predicate AllWanted(states: seq<State>, steps: seq<Step>, n: nat)
    requires n <= |steps| && |states| == |steps| + 1
  {
    forall k :: 0 <= k < n && steps[k] == Raise ==> Wanted(states[k])
  }

  /** Acknowledges that found or will find no tick belong to interrupts from before the last reset. */
  predicate WellSpent(s: State) {
    && s.acksDone - s.consumed <= s.carried
    && s.acksDone - s.consumed + s.acksBegun + s.awaiting - s.pending <= s.carried
  }

  lemma StepKeepsWellSpent(s: State, a: Step)
    requires Inv(s) && WellSpent(s) && Enabled(s, a) && (a == Raise ==> Wanted(s))
    ensures WellSpent(Do(s, a))
  {
  }

  lemma {:induction false} RunWellSpent(states: seq<State>, steps: seq<Step>, k: nat)
    requires Run(states, steps) && k < |states| && AllWanted(states, steps, k)
    ensures WellSpent(states[k])
  {
    if k > 0 {
      RunWellSpent(states, steps, k - 1);
      RunInv(states, steps, k - 1);
      StepKeepsWellSpent(states[k - 1], steps[k - 1]);
    }
  }

  /** If every injection finds more ticks pending than interrupts in flight, interrupts never outnumber
      ticks, whatever resets there are; and once all is quiet they are equal in number if the last reset
      left none in flight. */
  lemma {:induction false} InjectionsWithinTicks(states: seq<State>, steps: seq<Step>, k: nat)
    requires Run(states, steps) && k < |states| && AllWanted(states, steps, k)
    ensures states[k].injections <= states[k].ticks
    ensures Quiescent(states[k]) && states[k].carried == 0 ==> states[k].injections == states[k].ticks
  {
    RunWellSpent(states, steps, k);
    RunInv(states, steps, k);
  }

  /** An injection for which no tick is pending beyond those that interrupts in flight will take puts
      interrupts ahead of ticks at once, unless the last reset left interrupts in flight. */
  lemma {:induction false} UnwantedInjectionExceeds(states: seq<State>, steps: seq<Step>, k: nat)
    requires Run(states, steps) && k < |steps| && AllWanted(states, steps, k)
    requires steps[k] == Raise && states[k].carried == 0
    ensures states[k + 1].injections > states[k + 1].ticks <==> !Wanted(states[k])
  {
    RunWellSpent(states, steps, k);
    RunInv(states, steps, k);
    assert states[k + 1] == Do(states[k], Raise);
  }

  /** In runs whose resets find no interrupt in flight this is exact: interrupts stay within ticks if and
      only if every injection finds more ticks pending than interrupts in flight. */
  lemma {:induction false} WithinTicksExactly(states: seq<State>, steps: seq<Step>)
    requires Run(states, steps) && forall k :: 0 <= k < |states| ==> states[k].carried == 0
    ensures AllWanted(states, steps, |steps|)
       <==> forall k :: 0 <= k < |states| ==> states[k].injections <= states[k].ticks
  {
    if AllWanted(states, steps, |steps|) {
      forall k | 0 <= k < |states| ensures states[k].injections <= states[k].ticks {
        InjectionsWithinTicks(states, steps, k);
      }
    } else if forall k :: 0 <= k < |states| ==> states[k].injections <= states[k].ticks {
      WithinTicksMeansWanted(states, steps, |steps|);
    }
  }

  lemma {:induction false} WithinTicksMeansWanted(states: seq<State>, steps: seq<Step>, n: nat)
    requires Run(states, steps) && n <= |steps|
    requires forall k :: 0 <= k < |states| ==> states[k].carried == 0 && states[k].injections <= states[k].ticks
    ensures AllWanted(states, steps, n)
  {
    if n > 0 {
      WithinTicksMeansWanted(states, steps, n - 1);
      if steps[n - 1] == Raise {
        UnwantedInjectionExceeds(states, steps, n - 1);
        assert states[n].injections <= states[n].ticks;
      }
    }
  }

  /** It can happen with two ack callbacks that overlap: the first finds a tick that the second needs. */
  lemma MoreInjectionsThanTicks() returns (states: seq<State>, steps: seq<Step>)
    ensures Run(states, steps)
    ensures states[|steps|].ticks == 2 && states[|steps|].injections == 3 && states[|steps|].resets == 0
  {
    var s;
    states, steps, s := FirstInterrupt();
    states, steps, s := Extend(states, steps, s, AckBegin);
    states, steps, s := Extend(states, steps, s, Tick);
    states, steps, s := Extend(states, steps, s, TimerQueue);
    states, steps, s := Extend(states, steps, s, Wake);
    states, steps, s := Extend(states, steps, s, Exchange);
    states, steps, s := Extend(states, steps, s, Raise);
    states, steps, s := Extend(states, steps, s, Lower);
    states, steps, s := Extend(states, steps, s, AckBegin);
    states, steps, s := Extend(states, steps, s, AckDecrement);
    states, steps, s := Extend(states, steps, s, AckDecrement);
    states, steps, s := Extend(states, steps, s, AckQueue);
    states, steps, s := Extend(states, steps, s, Wake);
    states, steps, s := Extend(states, steps, s, Exchange);
    states, steps, s := Extend(states, steps, s, Raise);
  }

  ghost predicate OneAtATime(states: seq<State>) {
    forall k :: 0 <= k < |states| ==> states[k].acksBegun + states[k].acksToQueue <= 1
  }

  lemma ExtendAlone(states: seq<State>, steps: seq<Step>, s: State, a: Step)
      returns (states': seq<State>, steps': seq<Step>, t: State)
    requires Run(states, steps) && states[|steps|] == s && Enabled(s, a) && OneAtATime(states)
    requires Do(s, a).acksBegun + Do(s, a).acksToQueue <= 1
    ensures Run(states', steps') && states'[|steps'|] == t == Do(s, a) && OneAtATime(states')
  {
    states', steps', t := Extend(states, steps, s, a);
  }

  /** And it can happen with ack callbacks that never overlap: the work item queued for a tick runs after
      an ack callback has taken that tick. */
  lemma MoreInjectionsOneAtATime() returns (states: seq<State>, steps: seq<Step>)
    ensures Run(states, steps) && OneAtATime(states)
    ensures states[|steps|].ticks == 2 && states[|steps|].injections == 3 && states[|steps|].resets == 0
  {
    var s;
    states, steps, s := FirstInterrupt();
    states, steps, s := ExtendAlone(states, steps, s, Tick);
    states, steps, s := ExtendAlone(states, steps, s, TimerQueue);
    states, steps, s := ExtendAlone(states, steps, s, AckBegin);
    states, steps, s := ExtendAlone(states, steps, s, Wake);
    states, steps, s := ExtendAlone(states, steps, s, Exchange);
    states, steps, s := ExtendAlone(states, steps, s, Raise);
    states, steps, s := ExtendAlone(states, steps, s, Lower);
    states, steps, s := ExtendAlone(states, steps, s, AckDecrement);
    states, steps, s := ExtendAlone(states, steps, s, AckQueue);
    states, steps, s := ExtendAlone(states, steps, s, AckBegin);
    states, steps, s := ExtendAlone(states, steps, s, AckDecrement);
    states, steps, s := ExtendAlone(states, steps, s, Wake);
    states, steps, s := ExtendAlone(states, steps, s, Exchange);
    states, steps, s := ExtendAlone(states, steps, s, Raise);
  }
}
