/**
 Progress of the shared timer, whatever ticks, polls and new requests come in between: a pass ends, requests leave the
 channel in the order they were sent, and what is due when a pass reads the clock is fired in that pass.
 */
module RetryProgress {
  import opened Outcomes
  import opened RetryTimer
  import opened RetryInterleaving

  function Schedules(steps: seq<Step>): nat {
    if steps == [] then 0 else (if steps[0] == Schedule then 1 else 0) + Schedules(steps[1..])
  }

  /** An upper bound on the scheduler's own steps before it blocks in the receive. */
  function Left(s: State): nat {
    var p := |s.pending|;
    match s.scan
    case ReadClock => 3 * p + 3
    case Scanning(_, index) => (if index < p then 2 * (p - index) else 0) + p + 2
    case Firing(_, index, _) => (if index < p then 2 * (p - index) else 0) + p + 3
    case Measuring(_, index, _) => (if index < p then p - index else 0) + 1
    case Receiving(_, _, _) => 0
  }

  lemma {:induction false} ScheduleDescends(s: State)
    requires Inv(s) && !s.scan.Receiving?
    ensures Left(Next(s, Schedule)) < Left(s)
  {
    hide Accounted, Handshakes, Measured;
    if s.scan.Scanning? && s.scan.index < |s.pending| {
      SwapRemoveTakesOne(s.pending, s.scan.index);
    }
  }

  lemma {:induction false} OthersLeaveTheScan(s: State, step: Step)
    requires Inv(s) && step != Schedule && !s.scan.Receiving?
    ensures Next(s, step).scan == s.scan && Next(s, step).pending == s.pending
  {
  }

  /** The thread comes to its blocking receive at some point of the run. */
  ghost predicate ReachesReceive(s: State, steps: seq<Step>)
    requires Inv(s)
    decreases |steps|
  {
    s.scan.Receiving? ||
    (steps != [] && (StepKeepsInv(s, steps[0]); ReachesReceive(Next(s, steps[0]), steps[1..])))
  }

  /** A pass with its measuring ends after boundedly many steps of the scheduler, whatever comes in between. */
  lemma {:induction false} EveryPassEnds(s: State, steps: seq<Step>)
    requires Inv(s) && Schedules(steps) >= Left(s)
    ensures ReachesReceive(s, steps)
    decreases |steps|
  {
    if !s.scan.Receiving? && steps != [] {
      StepKeepsInv(s, steps[0]);
      if steps[0] == Schedule {
        ScheduleDescends(s);
      } else {
        OthersLeaveTheScan(s, steps[0]);
      }
      hide Inv, Next;
      EveryPassEnds(Next(s, steps[0]), steps[1..]);
    }
  }

  // ---- Out of the channel ----

  predicate Takes(s: State, step: Step) {
    step == ReceiveRequest && s.scan.Receiving? && s.channel != []
  }

  /** How many requests a run takes out of the channel. */
  ghost function Taken(s: State, steps: seq<Step>): nat
    requires Inv(s)
    decreases |steps|
  {
    if steps == [] then 0
    else
      StepKeepsInv(s, steps[0]);
      (if Takes(s, steps[0]) then 1 else 0) + Taken(Next(s, steps[0]), steps[1..])
  }

  /** The request is in the timer's hands: in its vector, or fired. */
  predicate Received(s: State, id: nat) {
    id < |s.sleepers| && (s.sleepers[id].ready || id in s.pending)
  }

  lemma {:induction false} OthersStay(ids: seq<nat>, i: nat, id: nat)
    requires i < |ids|
    ensures id in ids && id != ids[i] ==> id in SwapRemove(ids, i)
  {
    SwapRemoveTakesOne(ids, i);
    if id in ids && id != ids[i] {
      assert id in multiset(ids);
      assert id in multiset(SwapRemove(ids, i)) + multiset{ids[i]};
      assert id in multiset(SwapRemove(ids, i));
    }
  }

  lemma {:induction false} ReceivedStays(s: State, step: Step, id: nat)
    requires Inv(s) && Received(s, id)
    ensures Received(Next(s, step), id)
  {
    hide Accounted, Timely, Handshakes, Measured;
    if step == Schedule && s.scan.Scanning? && s.scan.index < |s.pending| {
      OthersStay(s.pending, s.scan.index, id);
      hide SwapRemove;
    }
  }

  lemma {:induction false} ChannelIsAQueue(s: State, step: Step)
    requires Inv(s)
    ensures var t := Next(s, step);
            && t.channel == (if Takes(s, step) then s.channel[1..]
                             else if step.Sleep? then s.channel + [|s.sleepers|] else s.channel)
            && (Takes(s, step) ==> Received(t, s.channel[0]) && t.scan.ReadClock?)
  {
    if Takes(s, step) {
      assert s.channel[0] in Waiting(s);
      WaitingAreKnown(Waiting(s), s.sleepers, s.channel[0]);
    }
    hide Accounted, Timely, Handshakes, Measured;
  }

  /** The request has `ahead` others before it in the channel, or is in the timer's hands when the number is used up. */
  predicate InTurn(t: State, id: nat, ahead: int) {
    if ahead >= 0 then ahead < |t.channel| && t.channel[ahead] == id else Received(t, id)
  }

  lemma {:induction false} OneTurn(s: State, step: Step, id: nat, ahead: int)
    requires Inv(s) && InTurn(s, id, ahead)
    ensures InTurn(Next(s, step), id, if Takes(s, step) then ahead - 1 else ahead)
  {
    ChannelIsAQueue(s, step);
    if ahead < 0 {
      ReceivedStays(s, step, id);
    }
    hide Inv, Next, Received;
  }

  /**
   Requests are taken in the order they were sent: the one with `ahead` others before it moves up with each request
   taken, and is in the timer's hands exactly from the receive that follows those.
   */
  lemma {:induction false} ReceivedInOrder(s: State, steps: seq<Step>, id: nat, ahead: int)
    requires Inv(s) && InTurn(s, id, ahead)
    ensures InTurn(Run(s, steps), id, ahead - Taken(s, steps))
    decreases |steps|
  {
    hide InTurn, Takes;
    if steps != [] {
      StepKeepsInv(s, steps[0]);
      OneTurn(s, steps[0], id, ahead);
      hide Inv, Next;
      ReceivedInOrder(Next(s, steps[0]), steps[1..], id, if Takes(s, steps[0]) then ahead - 1 else ahead);
    }
  }

  // ---- Out of the vector ----

  /** The request is fired, or due and still ahead of a pass that has read, or will read, a clock past its deadline. */
  predicate DueInPass(s: State, id: nat) {
    && id < |s.sleepers|
    && (s.sleepers[id].ready
        || (id in s.pending
            && match s.scan
               case ReadClock => s.clock >= s.sleepers[id].deadline
               case Scanning(now, _) => now >= s.sleepers[id].deadline
               case Firing(now, _, _) => now >= s.sleepers[id].deadline
               case _ => false))
  }

  lemma {:induction false} NothingDueIsLeft(s: State, id: nat)
    requires Inv(s) && id < |s.sleepers| && s.scan.Scanning? && s.scan.index >= |s.pending|
    ensures s.sleepers[id].deadline <= s.scan.now ==> id !in s.pending
  {
    hide Accounted, Handshakes, Measured;
    assert forall k | 0 <= k < |s.pending| :: s.sleepers[s.pending[k]].deadline > s.scan.now;
  }

  lemma {:induction false} PassKeepsDue(s: State, step: Step, id: nat)
    requires Inv(s) && DueInPass(s, id)
    ensures DueInPass(Next(s, step), id)
  {
    ReceivedStays(s, step, id);
    if s.scan.Scanning? && s.scan.index >= |s.pending| {
      NothingDueIsLeft(s, id);
    }
    hide Accounted, Handshakes, Measured, Timely;
  }

  /** A request that is due when a pass reads the clock is fired in that pass, whatever comes in between. */
  lemma {:induction false} DueIsFired(s: State, steps: seq<Step>, id: nat)
    requires Inv(s) && DueInPass(s, id) && Schedules(steps) >= Left(s)
    ensures id < |Run(s, steps).sleepers| && Run(s, steps).sleepers[id].ready
    decreases |steps|
  {
    if s.sleepers[id].ready {
      ReadyReturns(s, steps, id);
      ReadyStays(s, steps, id);
    } else if steps != [] {
      StepKeepsInv(s, steps[0]);
      PassKeepsDue(s, steps[0], id);
      if steps[0] == Schedule {
        ScheduleDescends(s);
      } else {
        OthersLeaveTheScan(s, steps[0]);
      }
      hide Inv, Next, DueInPass;
      DueIsFired(Next(s, steps[0]), steps[1..], id);
    }
  }

  lemma {:induction false} ReadyStays(s: State, steps: seq<Step>, id: nat)
    requires Inv(s) && id < |s.sleepers| && s.sleepers[id].ready
    ensures id < |Run(s, steps).sleepers| && Run(s, steps).sleepers[id].ready
    decreases |steps|
  {
    if steps != [] {
      StepKeepsInv(s, steps[0]);
      OneStepForTheReady(s, steps[0], id);
      hide Inv, Next;
      ReadyStays(Next(s, steps[0]), steps[1..], id);
    }
  }
}
