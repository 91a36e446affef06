/**
 The timing of a maintained run: a ticker at the renewal interval, promptly served, then one final renewal after the
 work. Every round trip takes less than half the interval; others may use the authority at any time.
 */
module RenewalCadence {
  import opened Outcomes
  import L = LeaseMachine

  const MAX_RENEWAL_TTL := 9_223_372_036_854

  datatype Config = Config(holder: string, token: nat, ttl: int, interval: int)

  /** The timing part of the options check; the division rounds down. */
  predicate TimingAdmitted(c: Config) {
    0 < c.ttl <= MAX_RENEWAL_TTL && c.interval > 0 && c.interval <= c.ttl / 2
  }

  /** A renewal request: sent, not yet at the authority, or already answered there. */
  datatype Call = NoCall | Outbound(sent: int) | Inbound(sent: int)

  datatype Stage = Running | WorkEnded | Final | Done

  datatype World = World(clock: int, lease: L.State, nextTick: int, call: Call, stage: Stage, refused: bool)

  datatype Action = Tick(d: nat) | SomeoneElse(r: L.Request) | TickerFires | Reaches | Returns | WorkEnds | MaintainerStops

  /** Time may not run past a due tick, a prompt join, or the round-trip bound. */
  predicate Prompt(c: Config, w: World, d: nat) {
    match w.call
    case NoCall => w.stage.Done? || (w.stage.Running? && w.clock + d <= w.nextTick) || d == 0
    case Outbound(sent) => 2 * (w.clock + d - sent) < c.interval
    case Inbound(sent) => 2 * (w.clock + d - sent) < c.interval
  }

  function Act(c: Config, w: World, a: Action): World {
    match a
    case Tick(d) => if Prompt(c, w, d) then w.(clock := w.clock + d) else w
    case SomeoneElse(r) =>
      if r.Acquire? || r.holder != c.holder then w.(lease := L.Step(w.lease, w.clock, r).0) else w
    case TickerFires =>
      if w.call.NoCall? && (w.stage.Running? || w.stage.WorkEnded?) && w.clock >= w.nextTick then
        w.(call := Outbound(w.clock), nextTick := w.nextTick + c.interval)
      else w
    case Reaches =>
      if w.call.Outbound? && c.ttl >= 0 then
        var (lease, reply) := L.Step(w.lease, w.clock, L.Renew(c.holder, c.token, c.ttl));
        w.(lease := lease, call := Inbound(w.call.sent), refused := w.refused || !reply.Renewed?)
      else w
    case Returns =>
      if w.call.Inbound? then w.(call := NoCall, stage := if w.stage.Final? then Done else w.stage) else w
    case WorkEnds => if w.stage.Running? then w.(stage := WorkEnded) else w
    case MaintainerStops =>
      if w.stage.WorkEnded? && w.call.NoCall? then w.(stage := Final, call := Outbound(w.clock)) else w
  }

  function Run(c: Config, w: World, actions: seq<Action>): World {
    if actions == [] then w else Act(c, Run(c, w, actions[..|actions| - 1]), actions[|actions| - 1])
  }

  /** The acquire answer has just arrived: the authority granted the TTL less than half an interval ago. */
  predicate JustAcquired(c: Config, w: World) {
    && w.nextTick == w.clock + c.interval && w.call.NoCall? && w.stage.Running? && !w.refused
    && L.Owns(w.lease.held, c.holder, c.token)
    && var granted := w.lease.held.value.expires - c.ttl;
       granted <= w.clock && 2 * (w.clock - granted) < c.interval
  }

  predicate Covered(c: Config, w: World, until: int) {
    L.Owns(w.lease.held, c.holder, c.token) && 2 * w.lease.held.value.expires > until
  }

  predicate Inv(c: Config, w: World) {
    && !w.refused
    && (if w.stage.Done? then w.call.NoCall? else
          match w.call
          case NoCall => w.clock <= w.nextTick && Covered(c, w, 2 * w.nextTick + c.interval) && !w.stage.Final?
          case Outbound(sent) =>
            && 2 * (w.clock - sent) < c.interval && sent <= w.clock && Covered(c, w, 2 * sent + c.interval)
            && (!w.stage.Final? ==> w.nextTick == sent + c.interval)
          case Inbound(sent) =>
            && 2 * (w.clock - sent) < c.interval && sent <= w.clock && Covered(c, w, 2 * sent + 3 * c.interval)
            && (!w.stage.Final? ==> w.nextTick == sent + c.interval))
  }

  lemma {:induction false} StepKeepsInv(c: Config, w: World, a: Action)
    requires TimingAdmitted(c) && Inv(c, w)
    ensures Inv(c, Act(c, w, a))
  {
  }

  lemma {:induction false} RunKeepsInv(c: Config, w: World, actions: seq<Action>)
    requires TimingAdmitted(c) && JustAcquired(c, w)
    ensures Inv(c, Run(c, w, actions))
  {
    if actions != [] {
      hide Inv, Act;
      RunKeepsInv(c, w, actions[..|actions| - 1]);
      StepKeepsInv(c, Run(c, w, actions[..|actions| - 1]), actions[|actions| - 1]);
    }
  }

  /**
   No run lets its own lease lapse: whatever the schedule and whatever others ask, until the run is done it holds a live
   lease at every instant, so no periodic or final renewal reaches the authority at or after the expiry, and none has
   been refused.
   */
  lemma {:induction false} NoSelfInflictedLapse(c: Config, w: World, actions: seq<Action>)
    requires TimingAdmitted(c) && JustAcquired(c, w)
    ensures var now := Run(c, w, actions);
            && !now.refused
            && (!now.stage.Done? ==>
                  L.Owns(now.lease.held, c.holder, c.token) && now.clock < now.lease.held.value.expires)
  {
    RunKeepsInv(c, w, actions);
    hide Run;
  }

  /** What the run does on its own account: its ticker, its request on the way there and back, its final renewal. */
  predicate OwnStep(a: Action) {
    a.TickerFires? || a.Reaches? || a.Returns? || a.MaintainerStops?
  }

  /**
   Renewals are really sent: in every reachable state that is not done, time may pass or some step of the run is open
   to it; a due tick sends a renewal, one that reaches the authority makes the lease last the full time to live from
   that instant, and the run is done only after the final one has returned.
   */
  lemma {:induction false} RenewalsAreSent(c: Config, w: World, actions: seq<Action>, a: Action)
    requires TimingAdmitted(c) && JustAcquired(c, w)
    ensures var now := Run(c, w, actions);
            var next := Act(c, now, a);
            && (!now.stage.Done? ==> Prompt(c, now, 1) || exists own :: OwnStep(own) && Act(c, now, own) != now)
            && (a.TickerFires? && now.stage.Running? && now.call.NoCall? && now.clock >= now.nextTick ==>
                  next.call == Outbound(now.clock) && next.nextTick == now.nextTick + c.interval)
            && (a.MaintainerStops? && now.stage.WorkEnded? && now.call.NoCall? ==>
                  next.call == Outbound(now.clock) && next.stage.Final?)
            && (a.Reaches? && now.call.Outbound? ==>
                  && next.call == Inbound(now.call.sent) && L.Owns(next.lease.held, c.holder, c.token)
                  && next.lease.held.value.expires == now.clock + c.ttl)
            && (next.stage.Done? && !now.stage.Done? ==> a.Returns? && now.stage.Final? && now.call.Inbound?)
  {
    RunKeepsInv(c, w, actions);
    hide Run;
    var now := Run(c, w, actions);
    if now.call.Outbound? {
      assert OwnStep(Reaches) && Act(c, now, Reaches) != now;
    } else if now.call.Inbound? {
      assert OwnStep(Returns) && Act(c, now, Returns) != now;
    } else if now.stage.WorkEnded? {
      assert OwnStep(MaintainerStops) && Act(c, now, MaintainerStops) != now;
    } else if now.stage.Running? && now.clock >= now.nextTick {
      assert OwnStep(TickerFires) && Act(c, now, TickerFires) != now;
    }
  }
}
