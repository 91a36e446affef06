/**
 Every interleaving of the timer's scheduler thread with any number of sleepers. A step is one atomic load or store,
 one section under the waker's mutex, one channel operation or one clock reading. A poll is named by its number, and so
 is the waker it leaves behind.
 */
module RetryInterleaving {
  import opened Outcomes
  import opened RetryTimer

  /** Where a sleeper's task stands: between polls, at the first load, at the store, at the second load, or returned. */
  datatype Poller = Idle | FirstLoad | StoreWaker | SecondLoad | Returned

  datatype Sleeper = Sleeper(
    deadline: nat,
    ready: bool,
    waker: Option<nat>,
    poller: Poller,
    /** How many polls have begun. */
    polls: nat,
    /** The latest poll that returned Pending. */
    parked: Option<nat>,
    woken: seq<nat>)

  /** `from` is when the measuring of the remaining waits began, `since` when the blocking receive did. */
  datatype Scan =
    | ReadClock
    | Scanning(now: nat, index: nat)
    | Firing(now: nat, index: nat, id: nat)
    | Measuring(from: nat, index: nat, wait: Option<nat>)
    | Receiving(from: nat, since: nat, until: Option<nat>)

  datatype State = State(clock: nat, channel: seq<nat>, pending: seq<nat>, scan: Scan, sleepers: seq<Sleeper>)

  datatype Step =
    | Tick(now: nat)
    | Sleep(deadline: nat)
    | ReceiveRequest
    | ReceiveTimeout
    | Schedule
    | Poll(id: nat)

  function WakerOf(n: Option<nat>): seq<nat> {
    if n.Some? then [n.value] else []
  }

  function PollStep(z: Sleeper): Sleeper {
    match z.poller
    case Idle => z.(poller := FirstLoad, polls := z.polls + 1)
    case FirstLoad => z.(poller := if z.ready then Returned else StoreWaker)
    case StoreWaker => z.(poller := SecondLoad, waker := Some(z.polls))
    case SecondLoad => if z.ready then z.(poller := Returned) else z.(poller := Idle, parked := Some(z.polls))
    case Returned => z
  }

  /** The waker out of its slot, and woken while the slot is locked. */
  function TakeAndWake(z: Sleeper): Sleeper {
    z.(waker := None, woken := z.woken + WakerOf(z.waker))
  }

  predicate KnownIds(s: State) {
    && (forall k | 0 <= k < |s.pending| :: s.pending[k] < |s.sleepers|)
    && (s.scan.Firing? ==> s.scan.id < |s.sleepers|)
  }

  function Min(a: nat, b: nat): nat {
    if a < b then a else b
  }

  /** The time left until a deadline, none when it has passed. */
  function Until(deadline: nat, now: nat): nat {
    if deadline > now then deadline - now else 0
  }

  function ScheduleStep(s: State): State
    requires KnownIds(s)
  {
    match s.scan
    case Receiving(_, _, _) => s
    case ReadClock => s.(scan := Scanning(s.clock, 0))
    case Measuring(from, index, wait) =>
      if index >= |s.pending| then
        s.(scan := Receiving(from, s.clock, if wait.Some? then Some(s.clock + wait.value) else None))
      else
        var left := Until(s.sleepers[s.pending[index]].deadline, s.clock);
        s.(scan := Measuring(from, index + 1, Some(if wait.Some? then Min(wait.value, left) else left)))
    case Scanning(now, index) =>
      if index >= |s.pending| then s.(scan := Measuring(s.clock, 0, None))
      else
        var id := s.pending[index];
        if s.sleepers[id].deadline <= now then
          s.(pending := SwapRemove(s.pending, index),
             sleepers := s.sleepers[id := s.sleepers[id].(ready := true)],
             scan := Firing(now, index, id))
        else s.(scan := Scanning(now, index + 1))
    case Firing(now, index, id) =>
      s.(sleepers := s.sleepers[id := TakeAndWake(s.sleepers[id])], scan := Scanning(now, index))
  }

  function Next(s: State, step: Step): State
    requires KnownIds(s)
  {
    match step
    case Tick(now) => if now >= s.clock then s.(clock := now) else s
    case Sleep(deadline) =>
      s.(channel := s.channel + [|s.sleepers|],
         sleepers := s.sleepers + [Sleeper(deadline, false, None, Idle, 0, None, [])])
    case ReceiveRequest =>
      if s.scan.Receiving? && s.channel != [] then
        s.(pending := s.pending + [s.channel[0]], channel := s.channel[1..], scan := ReadClock)
      else s
    case ReceiveTimeout =>
      if s.scan.Receiving? && s.scan.until.Some? && s.clock >= s.scan.until.value then s.(scan := ReadClock) else s
    case Schedule => ScheduleStep(s)
    case Poll(id) => if id < |s.sleepers| then s.(sleepers := s.sleepers[id := PollStep(s.sleepers[id])]) else s
  }

  // ---- What every step keeps ----

  /** The scheduler has made this sleeper ready but not yet emptied its slot. */
  predicate InHand(scan: Scan, id: nat) {
    scan.Firing? && scan.id == id
  }

  /** Slot and wake-ups of one sleeper; `done` when the scheduler has finished with it. */
  predicate Handshake(z: Sleeper, done: bool) {
    && (done ==> z.ready)
    && (!done ==> z.woken == [])
    && |z.woken| <= 1
    && (z.poller == Returned ==> z.ready)
    && (z.poller != Idle ==> z.polls > 0)
    && (z.poller == Idle ==> z.parked == if z.polls == 0 then None else Some(z.polls))
    && (!done && z.poller == SecondLoad ==> z.waker == Some(z.polls))
    && (!done && z.poller != SecondLoad && z.poller != Returned ==> z.waker == z.parked)
    && (done && z.poller == Idle && z.polls > 0 ==> z.polls in z.woken)
  }

  predicate Handshakes(sleepers: seq<Sleeper>, scan: Scan) {
    forall id | 0 <= id < |sleepers| :: Handshake(sleepers[id], sleepers[id].ready && !InHand(scan, id))
  }

  /** Every request not yet fired is waiting, in the channel or in the vector, exactly once; no other request is. */
  ghost predicate Accounted(waiting: multiset<nat>, sleepers: seq<Sleeper>) {
    forall id: nat :: waiting[id] == if id < |sleepers| && !sleepers[id].ready then 1 else 0
  }

  ghost function Waiting(s: State): multiset<nat> {
    multiset(s.channel) + multiset(s.pending)
  }

  predicate Timely(clock: nat, pending: seq<nat>, scan: Scan, sleepers: seq<Sleeper>) {
    && (forall id | 0 <= id < |sleepers| && sleepers[id].ready :: sleepers[id].deadline <= clock)
    && (scan.Scanning? || scan.Firing? ==>
          && scan.now <= clock && scan.index <= |pending|
          && forall k | 0 <= k < scan.index && pending[k] < |sleepers| :: sleepers[pending[k]].deadline > scan.now)
  }

  /** The shortest wait over the first `n` requests: no later for any of them, and not before the earliest. */
  predicate Tight(deadlines: seq<nat>, n: nat, from: nat, now: nat, wait: Option<nat>) {
    && n <= |deadlines| && from <= now
    && (wait.Some? <==> n > 0)
    && (wait.Some? ==>
          && (forall k | 0 <= k < n :: wait.value <= Until(deadlines[k], from))
          && exists k :: 0 <= k < n && deadlines[k] <= now + wait.value)
  }

  function Deadlines(pending: seq<nat>, sleepers: seq<Sleeper>): seq<nat>
    requires forall k | 0 <= k < |pending| :: pending[k] < |sleepers|
  {
    seq(|pending|, k requires 0 <= k < |pending| => sleepers[pending[k]].deadline)
  }

  predicate Measured(clock: nat, scan: Scan, deadlines: seq<nat>) {
    match scan
    case Measuring(from, index, wait) => Tight(deadlines, index, from, clock, wait)
    case Receiving(from, since, until) =>
      && since <= clock && (until.Some? ==> until.value >= since)
      && Tight(deadlines, |deadlines|, from, since, if until.Some? then Some(until.value - since) else None)
    case _ => true
  }

  ghost predicate Inv(s: State) {
    && KnownIds(s)
    && (s.scan.Firing? ==> s.sleepers[s.scan.id].ready)
    && Accounted(Waiting(s), s.sleepers)
    && Timely(s.clock, s.pending, s.scan, s.sleepers)
    && Handshakes(s.sleepers, s.scan)
    && Measured(s.clock, s.scan, Deadlines(s.pending, s.sleepers))
  }

  lemma {:induction false} PollKeepsHandshake(z: Sleeper, done: bool)
    requires Handshake(z, done) && (z.ready ==> done || z.woken == [])
    ensures Handshake(PollStep(z), done)
  {
  }

  /** The slot is emptied only after ready is set: a poll that missed the flag has left its waker there. */
  lemma {:induction false} WakeKeepsHandshake(z: Sleeper)
    requires Handshake(z, false) && z.ready
    ensures Handshake(TakeAndWake(z), true)
  {
  }

  lemma {:induction false} WaitingAreKnown(waiting: multiset<nat>, sleepers: seq<Sleeper>, id: nat)
    requires Accounted(waiting, sleepers) && id in waiting
    ensures id < |sleepers| && !sleepers[id].ready
  {
  }

  lemma {:induction false} ReplaceSleeper(s: State, id: nat, z: Sleeper)
    requires Inv(s) && id < |s.sleepers|
    requires z.ready == s.sleepers[id].ready && z.deadline == s.sleepers[id].deadline
    requires Handshake(z, z.ready && !InHand(s.scan, id))
    ensures Inv(s.(sleepers := s.sleepers[id := z]))
  {
    assert Deadlines(s.pending, s.sleepers[id := z]) == Deadlines(s.pending, s.sleepers);
    hide Handshake, Deadlines, Measured;
  }

  lemma {:induction false} PollKeepsInv(s: State, id: nat)
    requires Inv(s)
    ensures Inv(Next(s, Poll(id)))
  {
    if id < |s.sleepers| {
      PollKeepsHandshake(s.sleepers[id], s.sleepers[id].ready && !InHand(s.scan, id));
      ReplaceSleeper(s, id, PollStep(s.sleepers[id]));
    }
  }

  lemma {:induction false} FiredIsAccounted(waiting: multiset<nat>, sleepers: seq<Sleeper>, id: nat)
    requires Accounted(waiting, sleepers) && id in waiting && id < |sleepers|
    ensures Accounted(waiting - multiset{id}, sleepers[id := sleepers[id].(ready := true)])
  {
  }

  lemma {:induction false} FiredIsTimely(s: State)
    requires Timely(s.clock, s.pending, s.scan, s.sleepers) && KnownIds(s)
    requires s.scan.Scanning? && s.scan.index < |s.pending|
    requires s.sleepers[s.pending[s.scan.index]].deadline <= s.scan.now
    ensures var t := Next(s, Schedule); KnownIds(t) && Timely(t.clock, t.pending, t.scan, t.sleepers)
  {
    var (i, t) := (s.scan.index, Next(s, Schedule));
    SwapRemoveTakesOne(s.pending, i);
    forall k | 0 <= k < |t.pending|
      ensures t.pending[k] == s.pending[if k == i then |t.pending| else k]
    {
    }
  }

  lemma {:induction false} FiredShakesHands(sleepers: seq<Sleeper>, scan: Scan, id: nat)
    requires Handshakes(sleepers, scan) && scan.Scanning? && id < |sleepers| && !sleepers[id].ready
    ensures Handshakes(sleepers[id := sleepers[id].(ready := true)], Firing(scan.now, scan.index, id))
  {
  }

  lemma {:induction false} FiringKeepsInv(s: State)
    requires Inv(s) && s.scan.Scanning? && s.scan.index < |s.pending|
    requires s.sleepers[s.pending[s.scan.index]].deadline <= s.scan.now
    ensures Inv(Next(s, Schedule))
  {
    var (i, t) := (s.scan.index, Next(s, Schedule));
    var id := s.pending[i];
    assert id in multiset(s.pending);
    assert id in Waiting(s);
    WaitingAreKnown(Waiting(s), s.sleepers, id);
    FiredIsTimely(s);
    FiredShakesHands(s.sleepers, s.scan, id);
    FiredIsAccounted(Waiting(s), s.sleepers, id);
    SwapRemoveTakesOne(s.pending, i);
    hide Accounted, Timely, Handshakes, SwapRemove, KnownIds;
    assert Waiting(t) == Waiting(s) - multiset{id};
  }

  lemma {:induction false} PassingOverKeepsInv(s: State)
    requires Inv(s) && s.scan.Scanning? && s.scan.index < |s.pending|
    requires s.sleepers[s.pending[s.scan.index]].deadline > s.scan.now
    ensures Inv(Next(s, Schedule))
  {
    hide Accounted, Handshake;
  }

  /** One more request taken into the shortest wait, at its own clock reading. */
  lemma {:induction false} MeasuringIsTight(deadlines: seq<nat>, n: nat, from: nat, now: nat, wait: Option<nat>)
    requires Tight(deadlines, n, from, now, wait) && n < |deadlines|
    ensures var left := Until(deadlines[n], now);
            Tight(deadlines, n + 1, from, now, Some(if wait.Some? then Min(wait.value, left) else left))
  {
    var left := Until(deadlines[n], now);
    assert deadlines[n] <= now + left;
  }

  lemma {:induction false} MeasuringKeepsInv(s: State)
    requires Inv(s) && s.scan.Measuring?
    ensures Inv(Next(s, Schedule))
  {
    var deadlines := Deadlines(s.pending, s.sleepers);
    if s.scan.index < |s.pending| {
      MeasuringIsTight(deadlines, s.scan.index, s.scan.from, s.clock, s.scan.wait);
      assert deadlines[s.scan.index] == s.sleepers[s.pending[s.scan.index]].deadline;
    }
    hide Accounted, Handshake, Tight, Deadlines;
  }

  lemma {:induction false} ScheduleKeepsInv(s: State)
    requires Inv(s)
    ensures Inv(Next(s, Schedule))
  {
    match s.scan
    case Scanning(now, index) =>
      if index < |s.pending| {
        if s.sleepers[s.pending[index]].deadline <= now {
          FiringKeepsInv(s);
        } else {
          PassingOverKeepsInv(s);
        }
      }
    case Measuring(_, _, _) =>
      MeasuringKeepsInv(s);
    case Firing(now, index, id) =>
      WakeKeepsHandshake(s.sleepers[id]);
    case _ =>
  }

  lemma {:induction false} SleepKeepsInv(s: State, deadline: nat)
    requires Inv(s)
    ensures Inv(Next(s, Sleep(deadline)))
  {
    var t := Next(s, Sleep(deadline));
    assert Waiting(t) == Waiting(s) + multiset{|s.sleepers|};
    assert Accounted(Waiting(t), t.sleepers);
    assert Deadlines(t.pending, t.sleepers) == Deadlines(s.pending, s.sleepers);
    hide Accounted, Waiting, Deadlines, Measured;
  }

  lemma {:induction false} ReceiveKeepsInv(s: State)
    requires Inv(s)
    ensures Inv(Next(s, ReceiveRequest))
  {
    var t := Next(s, ReceiveRequest);
    if t != s {
      assert s.channel == [s.channel[0]] + t.channel;
      assert s.channel[0] in Waiting(s);
      WaitingAreKnown(Waiting(s), s.sleepers, s.channel[0]);
      assert Waiting(t) == Waiting(s);
    }
  }

  lemma {:induction false} StepKeepsInv(s: State, step: Step)
    requires Inv(s)
    ensures Inv(Next(s, step))
  {
    match step
    case Poll(id) => PollKeepsInv(s, id);
    case Schedule => ScheduleKeepsInv(s);
    case Sleep(deadline) => SleepKeepsInv(s, deadline);
    case ReceiveRequest => ReceiveKeepsInv(s);
    case _ =>
  }

  // ---- Whole runs ----

  ghost function Run(s: State, steps: seq<Step>): State
    requires Inv(s)
    decreases |steps|
  {
    if steps == [] then s
    else
      StepKeepsInv(s, steps[0]);
      Run(Next(s, steps[0]), steps[1..])
  }

  lemma {:induction false} RunKeepsInv(s: State, steps: seq<Step>)
    requires Inv(s)
    ensures Inv(Run(s, steps))
    decreases |steps|
  {
    if steps != [] {
      StepKeepsInv(s, steps[0]);
      RunKeepsInv(Next(s, steps[0]), steps[1..]);
    }
  }

  /** No sleeper, an empty channel, the thread at the top of its loop. */
  function Start(clock: nat): State {
    State(clock, [], [], ReadClock, [])
  }

  /**
   No lost wake-up. In every reachable state a sleeper the scheduler has finished with, if it stands between polls, has
   never been polled or the waker of its latest poll has been woken; and no sleeper is woken twice.
   */
  lemma {:induction false} NoLostWakeup(clock: nat, steps: seq<Step>, id: nat)
    ensures var s := Run(Start(clock), steps);
            id < |s.sleepers| ==>
              var z := s.sleepers[id];
              && (z.ready && !InHand(s.scan, id) && z.poller == Idle && z.polls > 0 ==> z.woken == [z.polls])
              && |z.woken| <= 1
  {
    RunKeepsInv(Start(clock), steps);
  }

  /** Each request is held exactly once until it is fired; nothing is fired, and no sleep returns, before its deadline. */
  lemma {:induction false} FiredOnceAndNeverEarly(clock: nat, steps: seq<Step>, id: nat)
    ensures var s := Run(Start(clock), steps);
            id < |s.sleepers| ==>
              var z := s.sleepers[id];
              && Waiting(s)[id] == (if z.ready then 0 else 1)
              && (z.ready || z.poller == Returned ==> z.ready && z.deadline <= s.clock)
  {
    RunKeepsInv(Start(clock), steps);
  }

  /** When a pass ends, what is left in the vector was not due at the clock reading of that pass. */
  lemma {:induction false} PassLeavesNothingDue(clock: nat, steps: seq<Step>, k: nat)
    ensures var s := Run(Start(clock), steps);
            s.scan.Scanning? && s.scan.index == |s.pending| && k < |s.pending| ==>
              s.pending[k] < |s.sleepers| && s.sleepers[s.pending[k]].deadline > s.scan.now
  {
    RunKeepsInv(Start(clock), steps);
  }

  /**
   While the thread is blocked in the receive, its timeout comes no earlier than some request is due, and for each
   request the receive can be left as soon as the deadline has passed by no more than the time the measuring took.
   Nothing pending means no timeout.
   */
  lemma {:induction false} BlockedNoLongerThanMeasured(clock: nat, steps: seq<Step>, k: nat)
    ensures var s := Run(Start(clock), steps);
            s.scan.Receiving? ==>
              && (s.scan.until.None? <==> s.pending == [])
              && (forall j | 0 <= j < |s.pending| :: s.pending[j] < |s.sleepers|)
              && (s.pending != [] ==>
                    exists j :: 0 <= j < |s.pending| && s.sleepers[s.pending[j]].deadline <= s.scan.until.value)
              && (k < |s.pending| && s.clock >= s.sleepers[s.pending[k]].deadline + (s.scan.since - s.scan.from) ==>
                    Next(s, ReceiveTimeout).scan.ReadClock?)
  {
    RunKeepsInv(Start(clock), steps);
    hide Run, Accounted, Timely, Handshakes;
    var s := Run(Start(clock), steps);
    if s.scan.Receiving? && s.pending != [] {
      var deadlines := Deadlines(s.pending, s.sleepers);
      var wait := s.scan.until.value - s.scan.since;
      assert Tight(deadlines, |deadlines|, s.scan.from, s.scan.since, Some(wait));
      var j :| 0 <= j < |deadlines| && deadlines[j] <= s.scan.since + wait;
      assert s.sleepers[s.pending[j]].deadline <= s.scan.until.value;
      if k < |s.pending| {
        assert wait <= Until(deadlines[k], s.scan.from);
      }
    }
  }

  function PollsOf(steps: seq<Step>, id: nat): nat {
    if steps == [] then 0 else (if steps[0] == Poll(id) then 1 else 0) + PollsOf(steps[1..], id)
  }

  /** Steps a ready sleeper still needs. */
  function Remaining(p: Poller): nat {
    match p
    case Returned => 0
    case FirstLoad => 1
    case SecondLoad => 1
    case Idle => 2
    case StoreWaker => 2
  }

  /** Once ready, a sleeper returns within two steps of its own, whatever the scheduler and the others do. */
  lemma {:induction false} ReadyReturns(s: State, steps: seq<Step>, id: nat)
    requires Inv(s) && id < |s.sleepers| && s.sleepers[id].ready
    ensures id < |Run(s, steps).sleepers|
    ensures PollsOf(steps, id) >= Remaining(s.sleepers[id].poller) ==> Run(s, steps).sleepers[id].poller == Returned
    decreases |steps|
  {
    if steps != [] {
      StepKeepsInv(s, steps[0]);
      var t := Next(s, steps[0]);
      OneStepForTheReady(s, steps[0], id);
      ReadyReturns(t, steps[1..], id);
    }
  }

  lemma {:induction false} OneStepForTheReady(s: State, step: Step, id: nat)
    requires Inv(s) && id < |s.sleepers| && s.sleepers[id].ready
    ensures id < |Next(s, step).sleepers|
    ensures var z := Next(s, step).sleepers[id];
            && z.ready
            && Remaining(z.poller) <= Remaining(s.sleepers[id].poller)
            && (step == Poll(id) && s.sleepers[id].poller != Returned ==> Remaining(z.poller) < Remaining(s.sleepers[id].poller))
  {
  }
}
