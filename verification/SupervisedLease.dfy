/**
 A supervised client and its authority on one drift-free clock. The client acquires (a replayed acquire is followed
 by a renewal), then renews when the supervisor says so; every round trip takes at most the safety margin.
 */
module SupervisedLease {
  import opened Outcomes
  import opened Renewal
  import L = LeaseMachine

  datatype Config = Config(key: string, holder: string, ttl: nat, policy: Policy)

  /** The request in flight: when it was sent and, once the authority has acted, what it answered. */
  datatype Phase =
    | Idle
    | Acquiring(sent: nat)
    | Acquired(sent: nat, token: nat, expires: nat, replayed: bool)
    | Renewing(sent: nat, token: nat)
    | RenewAnswered(sent: nat, token: nat, answer: Option<nat>)
    | Failed

  datatype World = World(clock: nat, lease: L.State, sup: Option<Supervisor>, phase: Phase)

  datatype Action =
    | Tick(d: nat)
    | SomeoneElse(request: L.Request)
    | StartAcquire
    | AuthorityActs
    | AnswerArrives
    | AnswerIsLost
    | Observe

  predicate InFlight(phase: Phase) {
    phase.Acquiring? || phase.Acquired? || phase.Renewing? || phase.RenewAnswered?
  }

  /** No one but this client renews or releases in its name; anyone may acquire, even under the same name. */
  predicate Foreign(c: Config, r: L.Request) {
    r.Acquire? || r.holder != c.holder
  }

  function Supervise(c: Config, w: World, token: nat, expires: nat): World {
    var grant := LeaseGrant(c.key, c.holder, token, Some(expires), c.ttl);
    if w.sup.Some? then w.(sup := Some(Accept(w.sup.value, w.clock, grant).0), phase := Idle)
    else
      match New(grant, c.policy, w.clock)
      case Ok(s) => w.(sup := Some(s), phase := Idle)
      case Err(_) => w.(phase := Failed)
  }

  function GiveUp(w: World): World {
    if w.sup.Some? && w.sup.value.loss.None? then
      w.(sup := Some(w.sup.value.(loss := Some(RenewalError(RenewalFailed, None)))), phase := Failed)
    else w.(phase := Failed)
  }

  function Act(c: Config, w: World, a: Action): World {
    match a
    case Tick(d) =>
      if InFlight(w.phase) && w.clock + d > w.phase.sent + c.policy.safetyMargin then w
      else w.(clock := w.clock + d)
    case SomeoneElse(request) =>
      if Foreign(c, request) then w.(lease := L.Step(w.lease, w.clock, request).0) else w
    case StartAcquire =>
      if w.phase.Idle? && w.sup.None? then w.(phase := Acquiring(w.clock)) else w
    case AuthorityActs =>
      if w.phase.Acquiring? then
        var (lease, reply) := L.Step(w.lease, w.clock, L.Acquire(c.holder, None, c.ttl));
        if reply.Granted? && reply.expires >= 0 then
          w.(lease := lease, phase := Acquired(w.phase.sent, reply.token, reply.expires, reply.replayed))
        else w.(lease := lease, phase := Failed)
      else if w.phase.Renewing? then
        var (lease, reply) := L.Step(w.lease, w.clock, L.Renew(c.holder, w.phase.token, c.ttl));
        var answer := if reply.Renewed? then Some(w.clock + c.ttl) else None;
        w.(lease := lease, phase := RenewAnswered(w.phase.sent, w.phase.token, answer))
      else w
    case AnswerArrives =>
      if w.phase.Acquired? then
        if w.phase.replayed then w.(phase := Renewing(w.clock, w.phase.token))
        else Supervise(c, w, w.phase.token, w.phase.expires)
      else if w.phase.RenewAnswered? then
        if w.phase.answer.Some? then Supervise(c, w, w.phase.token, w.phase.answer.value) else GiveUp(w)
      else w
    case AnswerIsLost => if InFlight(w.phase) then GiveUp(w) else w
    case Observe =>
      if w.sup.None? then w
      else
        var (sup, verdict) := Decide(w.sup.value, w.clock);
        w.(sup := Some(sup),
           phase := if verdict.RenewNow? && w.phase.Idle? then Renewing(w.clock, sup.grant.token) else w.phase)
  }

  function Run(c: Config, lease: L.State, actions: seq<Action>): World {
    if actions == [] then World(0, lease, None, Idle)
    else Act(c, Run(c, lease, actions[..|actions| - 1]), actions[|actions| - 1])
  }

  /** The authority holds the grant for this client at least until `until`, or that time has come. */
  predicate Held(c: Config, w: World, token: nat, until: nat) {
    w.clock < until ==> L.Owns(w.lease.held, c.holder, token) && w.lease.held.value.expires >= until
  }

  /** An answer in hand promises a full TTL counted from some moment after its request was sent. */
  predicate AnswerOk(c: Config, w: World, sent: nat, token: nat, expires: nat) {
    expires >= sent + c.ttl && Held(c, w, token, expires)
  }

  predicate PhaseOk(c: Config, w: World) {
    && (InFlight(w.phase) ==> w.phase.sent <= w.clock <= w.phase.sent + c.policy.safetyMargin)
    && match w.phase
       case Acquiring(_) => w.sup.None?
       case Acquired(sent, token, expires, replayed) =>
         w.sup.None? && (!replayed ==> AnswerOk(c, w, sent, token, expires))
       case Renewing(_, token) => Due(w, token)
       case RenewAnswered(sent, token, answer) =>
         Due(w, token) && (answer.Some? ==> AnswerOk(c, w, sent, token, answer.value))
       case _ => true
  }

  /** A supervisor asks for a renewal of its own token and only once it is due. */
  predicate Due(w: World, token: nat) {
    w.sup.Some? && w.sup.value.loss.None? ==>
      w.sup.value.grant.token == token && w.clock >= w.sup.value.nextRenewal
  }

  predicate SupOk(c: Config, w: World) {
    w.sup.Some? && w.sup.value.loss.None? ==>
      var s := w.sup.value;
      && Renewal.Inv(s) && s.policy == c.policy && s.grant.ttl == c.ttl
      && s.lastObserved <= w.clock && s.policy.safetyMargin <= s.deadline <= w.clock + c.ttl
      && Held(c, w, s.grant.token, s.deadline - s.policy.safetyMargin)
  }

  lemma {:induction false} ForeignKeepsHeld(c: Config, w: World, r: L.Request, token: nat, until: nat)
    requires Foreign(c, r) && Held(c, w, token, until)
    ensures Held(c, w.(lease := L.Step(w.lease, w.clock, r).0), token, until)
  {
  }

  lemma {:induction false} SuperviseKeepsInv(c: Config, w: World, sent: nat, token: nat, expires: nat)
    requires SupOk(c, w) && Due(w, token) && AnswerOk(c, w, sent, token, expires)
    requires sent <= w.clock <= sent + c.policy.safetyMargin
    ensures var t := Supervise(c, w, token, expires); SupOk(c, t) && PhaseOk(c, t)
  {
    var grant := LeaseGrant(c.key, c.holder, token, Some(expires), c.ttl);
    ScheduleIsExact(w.clock, c.ttl, c.policy);
    NewIsExact(grant, c.policy, w.clock);
    if w.sup.Some? {
      AcceptDescends(w.sup.value, w.clock, grant);
    }
    hide Schedule;
  }

  lemma {:induction false} ForeignStepKeepsInv(c: Config, w: World, r: L.Request)
    requires SupOk(c, w) && PhaseOk(c, w)
    ensures var t := Act(c, w, SomeoneElse(r)); SupOk(c, t) && PhaseOk(c, t)
  {
    if Foreign(c, r) {
      if w.sup.Some? && w.sup.value.loss.None? {
        var s := w.sup.value;
        ForeignKeepsHeld(c, w, r, s.grant.token, s.deadline - s.policy.safetyMargin);
      }
      if w.phase.Acquired? && !w.phase.replayed {
        ForeignKeepsHeld(c, w, r, w.phase.token, w.phase.expires);
      } else if w.phase.RenewAnswered? && w.phase.answer.Some? {
        ForeignKeepsHeld(c, w, r, w.phase.token, w.phase.answer.value);
      }
      hide L.Step;
    }
  }

  /** The authority extends the lease from now; the deadline in force was counted from an earlier moment. */
  lemma {:induction false} AuthorityKeepsInv(c: Config, w: World)
    requires SupOk(c, w) && PhaseOk(c, w)
    ensures var t := Act(c, w, AuthorityActs); SupOk(c, t) && PhaseOk(c, t)
  {
  }

  lemma {:induction false} StepKeepsInv(c: Config, w: World, a: Action)
    requires SupOk(c, w) && PhaseOk(c, w)
    ensures SupOk(c, Act(c, w, a)) && PhaseOk(c, Act(c, w, a))
  {
    match a
    case SomeoneElse(r) => ForeignStepKeepsInv(c, w, r);
    case AuthorityActs => AuthorityKeepsInv(c, w);
    case AnswerArrives =>
      if w.phase.Acquired? && !w.phase.replayed {
        SuperviseKeepsInv(c, w, w.phase.sent, w.phase.token, w.phase.expires);
      } else if w.phase.RenewAnswered? && w.phase.answer.Some? {
        SuperviseKeepsInv(c, w, w.phase.sent, w.phase.token, w.phase.answer.value);
      }
    case Observe =>
      if w.sup.Some? {
        DecideDescends(w.sup.value, w.clock);
      }
    case _ =>
  }

  lemma {:induction false} RunKeepsInv(c: Config, lease: L.State, actions: seq<Action>)
    ensures var w := Run(c, lease, actions); SupOk(c, w) && PhaseOk(c, w)
  {
    if actions != [] {
      hide SupOk, PhaseOk, Act;
      RunKeepsInv(c, lease, actions[..|actions| - 1]);
      StepKeepsInv(c, Run(c, lease, actions[..|actions| - 1]), actions[|actions| - 1]);
    } else {
      assert SupOk(c, Run(c, lease, [])) && PhaseOk(c, Run(c, lease, []));
    }
  }

  // ---- What a live supervisor guarantees, and until when ----

  /** The supervisor exists, has lost nothing and would not report a loss now. */
  predicate SupervisorLive(w: World) {
    w.sup.Some? && !Decide(w.sup.value, w.clock).1.Lost?
  }

  predicate LeaseLive(c: Config, w: World) {
    w.sup.Some? && L.Owns(L.Live(w.lease.held, w.clock), c.holder, w.sup.value.grant.token)
  }

  /** In every run, a supervisor that is live more than `slack` before its deadline has a live lease. */
  ghost predicate LiveSupervisorSuffices(c: Config, slack: nat) {
    forall lease, actions ::
      var w := Run(c, lease, actions);
      SupervisorLive(w) && w.clock + slack < w.sup.value.deadline ==> LeaseLive(c, w)
  }

  /** Configurations under which a supervisor can start at the margin's end. */
  predicate Admitted(c: Config) {
    0 < c.ttl <= MAX_TTL_MS && PolicyFits(c.ttl, c.policy)
  }

  /** More than the safety margin before the local deadline, a live supervisor means a live lease. */
  lemma {:induction false} LiveBeforeMargin(c: Config, lease: L.State, actions: seq<Action>)
    requires SupervisorLive(Run(c, lease, actions))
    requires var w := Run(c, lease, actions); w.clock < w.sup.value.deadline - c.policy.safetyMargin
    ensures LeaseLive(c, Run(c, lease, actions))
  {
    RunKeepsInv(c, lease, actions);
    hide Run;
  }

  /** At that very instant the guarantee ends: every admitted configuration has a run with a dead lease there. */
  lemma {:induction false} DeadAtMargin(c: Config)
    requires Admitted(c)
    ensures var w := Run(c, L.INITIAL, SlowestStart(c));
            && SupervisorLive(w) && w.clock == w.sup.value.deadline - c.policy.safetyMargin
            && L.Live(w.lease.held, w.clock).None?
  {
    var (margin, lease) := (c.policy.safetyMargin, L.State(Some(L.Grant(c.holder, 1, c.ttl, None)), Some(1)));
    var grant := LeaseGrant(c.key, c.holder, 1, Some(c.ttl), c.ttl);
    var one, two := [StartAcquire], [StartAcquire, AuthorityActs];
    var three, four := two + [Tick(margin)], two + [Tick(margin), AnswerArrives];
    NewIsExact(grant, c.policy, margin);
    ScheduleIsExact(margin, c.ttl, c.policy);
    assert New(grant, c.policy, margin).value.deadline == margin + c.ttl;
    RunStep(c, L.INITIAL, [], StartAcquire);
    assert [] + [StartAcquire] == one && one + [AuthorityActs] == two && three + [AnswerArrives] == four;
    RunStep(c, L.INITIAL, one, AuthorityActs);
    assert Run(c, L.INITIAL, two) == World(0, lease, None, Acquired(0, 1, c.ttl, false));
    RunStep(c, L.INITIAL, two, Tick(margin));
    RunStep(c, L.INITIAL, three, AnswerArrives);
    var w := Run(c, L.INITIAL, four);
    assert w == World(margin, lease, Some(New(grant, c.policy, margin).value), Idle);
    hide Run, Schedule, New, L.Step;
    RunStep(c, L.INITIAL, four, Tick(c.ttl - margin));
    assert four + [Tick(c.ttl - margin)] == SlowestStart(c);
  }

  /** The acquire answer takes the whole margin to arrive, and the client is next heard of when the lease ends. */
  function SlowestStart(c: Config): seq<Action>
    requires Admitted(c)
  {
    [StartAcquire, AuthorityActs, Tick(c.policy.safetyMargin), AnswerArrives, Tick(c.ttl - c.policy.safetyMargin)]
  }

  /** The exact distance from the local deadline that a caller must keep: the safety margin, no less. */
  lemma {:induction false} SlackIsTheMargin(c: Config, slack: nat)
    requires Admitted(c)
    ensures LiveSupervisorSuffices(c, slack) <==> slack >= c.policy.safetyMargin
  {
    if slack >= c.policy.safetyMargin {
      forall lease, actions |
        var w := Run(c, lease, actions); SupervisorLive(w) && w.clock + slack < w.sup.value.deadline
        ensures LeaseLive(c, Run(c, lease, actions))
      {
        LiveBeforeMargin(c, lease, actions);
      }
    } else {
      DeadAtMargin(c);
      var w := Run(c, L.INITIAL, SlowestStart(c));
      assert SupervisorLive(w) && w.clock + slack < w.sup.value.deadline && !LeaseLive(c, w);
    }
  }

  /**
   Whenever the supervisor says Wait, the authority's lease for that very token is live, and stays live until the
   moment the supervisor asked to be checked again.
   */
  lemma {:induction false} WaitMeansHeld(c: Config, lease: L.State, actions: seq<Action>)
    requires var w := Run(c, lease, actions); w.sup.Some? && Decide(w.sup.value, w.clock).1.Wait?
    ensures var w := Run(c, lease, actions);
            && L.Owns(L.Live(w.lease.held, w.clock), c.holder, w.sup.value.grant.token)
            && w.lease.held.value.expires >= w.clock + Decide(w.sup.value, w.clock).1.checkIn
  {
    RunKeepsInv(c, lease, actions);
    LiveBeforeMargin(c, lease, actions);
    hide Run;
  }

  // ---- The renewal cycle ----

  /** The supervised grant is this client's, and every answer on its way is newer than what it would replace. */
  predicate Newer(c: Config, w: World) {
    && (w.sup.Some? && w.sup.value.loss.None? ==>
          var s := w.sup.value;
          && s.grant.key == c.key && s.grant.holder == c.holder && s.grant.ttl == c.ttl && s.policy == c.policy
          && Admitted(c) && s.grant.expires.Some? && s.grant.expires.value <= s.deadline < s.nextRenewal + c.ttl)
    && match w.phase
       case Acquired(_, _, expires, replayed) => !replayed ==> expires <= w.clock + c.ttl
       case RenewAnswered(_, _, answer) =>
         answer.Some? ==>
           && answer.value <= w.clock + c.ttl
           && (w.sup.Some? && w.sup.value.loss.None? ==> answer.value > w.sup.value.deadline)
       case _ => true
  }

  lemma {:induction false} SuperviseKeepsNewer(c: Config, w: World, token: nat, expires: nat)
    requires SupOk(c, w) && Newer(c, w) && expires <= w.clock + c.ttl
    ensures Newer(c, Supervise(c, w, token, expires))
  {
    var grant := LeaseGrant(c.key, c.holder, token, Some(expires), c.ttl);
    NewIsExact(grant, c.policy, w.clock);
    if w.sup.Some? && w.sup.value.loss.None? {
      AcceptReasons(w.sup.value, w.clock, grant);
    }
    hide New, Accept;
  }

  lemma {:induction false} StepKeepsNewer(c: Config, w: World, a: Action)
    requires SupOk(c, w) && PhaseOk(c, w) && Newer(c, w)
    ensures Newer(c, Act(c, w, a))
  {
    match a
    case AnswerArrives =>
      if w.phase.Acquired? && !w.phase.replayed {
        SuperviseKeepsNewer(c, w, w.phase.token, w.phase.expires);
      } else if w.phase.RenewAnswered? && w.phase.answer.Some? {
        SuperviseKeepsNewer(c, w, w.phase.token, w.phase.answer.value);
      }
      hide Supervise;
    case Observe =>
      if w.sup.Some? {
        DecideIsExact(w.sup.value, w.clock);
        DecideDescends(w.sup.value, w.clock);
      }
    case _ =>
      hide Supervise, Decide;
  }

  lemma {:induction false} RunKeepsNewer(c: Config, lease: L.State, actions: seq<Action>)
    ensures Newer(c, Run(c, lease, actions))
  {
    if actions != [] {
      hide SupOk, PhaseOk, Act, Newer;
      var n := |actions| - 1;
      RunKeepsNewer(c, lease, actions[..n]);
      RunKeepsInv(c, lease, actions[..n]);
      StepKeepsNewer(c, Run(c, lease, actions[..n]), actions[n]);
    } else {
      assert Newer(c, Run(c, lease, []));
    }
  }

  /**
   In every reachable state with a live supervisor the renewal works: observing a due renewal sends it, the authority
   renews if it is reached more than the safety margin before the deadline, an answer that arrives before the deadline
   is admitted, with a full TTL from its arrival, and one that is lost ends supervision.
   */
  lemma {:induction false} RenewalWorks(c: Config, lease: L.State, actions: seq<Action>)
    requires SupervisorLive(Run(c, lease, actions)) && Run(c, lease, actions).clock + c.ttl <= MAX_CLOCK_MS
    ensures var w := Run(c, lease, actions);
            var s := w.sup.value;
            && (w.phase.Idle? && w.clock >= s.nextRenewal ==>
                  Act(c, w, Action.Observe).phase == Renewing(w.clock, s.grant.token))
            && (w.phase.Renewing? && w.clock < s.deadline - c.policy.safetyMargin ==>
                  Act(c, w, AuthorityActs).phase == RenewAnswered(w.phase.sent, s.grant.token, Some(w.clock + c.ttl)))
            && (w.phase.RenewAnswered? && w.phase.answer.Some? ==>
                  var t := Act(c, w, AnswerArrives);
                  && t.phase.Idle? && SupervisorLive(t)
                  && t.sup.value.deadline == w.clock + c.ttl && t.sup.value.grant.expires == w.phase.answer)
            && (InFlight(w.phase) ==>
                  var t := Act(c, w, AnswerIsLost); t.phase.Failed? && !SupervisorLive(t))
  {
    RunKeepsInv(c, lease, actions);
    RunKeepsNewer(c, lease, actions);
    var w := Run(c, lease, actions);
    var s := w.sup.value;
    DecideIsExact(s, w.clock);
    if w.clock < s.deadline - c.policy.safetyMargin {
      LiveBeforeMargin(c, lease, actions);
    }
    if w.phase.RenewAnswered? && w.phase.answer.Some? {
      var grant := LeaseGrant(c.key, c.holder, w.phase.token, w.phase.answer, c.ttl);
      AcceptReasons(s, w.clock, grant);
      DecideIsExact(Accept(s, w.clock, grant).0, w.clock);
    }
    hide Run, Accept, Decide;
  }

  lemma {:induction false} RunStep(c: Config, lease: L.State, actions: seq<Action>, a: Action)
    ensures Run(c, lease, actions + [a]) == Act(c, Run(c, lease, actions), a)
  {
    assert (actions + [a])[..|actions|] == actions;
  }
}
