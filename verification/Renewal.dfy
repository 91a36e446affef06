/** The sticky renewal supervisor of one grant, with its bounded clock arithmetic. */
module Renewal {
  import opened Outcomes

  const MAX_CLOCK_MS: nat := 9_007_199_254_740_991
  const MAX_TTL_MS: nat := 9_223_372_036_854
  const U64_LIMIT: nat := 0x1_0000_0000_0000_0000

  datatype LeaseGrant = LeaseGrant(key: string, holder: string, token: nat, expires: Option<nat>, ttl: nat)

  /** Durations in milliseconds, saturated to 64 bits. */
  datatype Policy = Policy(renewEvery: nat, safetyMargin: nat)

  datatype Reason =
    | InvalidPolicy
    | ClockRegression
    | Expired
    | RenewalFailed
    | IdentityChanged
    | TokenChanged
    | DeadlineMissing
    | DeadlineInvalid
    | DeadlineRegressed
    | CompletionAfterDeadline
    | DeadlineOverflow
    | InvalidTtl

  datatype RenewalError = RenewalError(reason: Reason, cause: Option<string>)

  datatype Verdict = Wait(checkIn: nat) | RenewNow | Lost(reason: Reason)

  datatype Checkpoint = Waiting(checkIn: nat) | Renewed(checkIn: nat)

  datatype Supervisor = Supervisor(
    grant: LeaseGrant,
    policy: Policy,
    deadline: nat,
    nextRenewal: nat,
    lastObserved: nat,
    loss: Option<RenewalError>)

  function CheckedAdd(a: nat, b: nat): Option<nat> {
    if a + b < U64_LIMIT then Some(a + b) else None
  }

  function ValidateClock(now: nat): Option<Reason> {
    if now <= MAX_CLOCK_MS then None else Some(DeadlineOverflow)
  }

  function ValidateAuthorityDeadline(deadline: Option<nat>): Option<Reason> {
    if deadline == Some(0) then Some(DeadlineInvalid)
    else if deadline.Some? && deadline.value > MAX_CLOCK_MS then Some(DeadlineOverflow)
    else None
  }

  function ValidateProgress(previous: Option<nat>, renewed: Option<nat>): Option<Reason> {
    if ValidateAuthorityDeadline(renewed).Some? then ValidateAuthorityDeadline(renewed)
    else if previous.Some? && renewed.None? then Some(DeadlineMissing)
    else if previous.Some? && renewed.value <= previous.value then Some(DeadlineRegressed)
    else None
  }

  function Min(a: int, b: int): int {
    if a < b then a else b
  }

  /** Local deadline and next renewal, in machine arithmetic. */
  function Schedule(now: nat, ttl: nat, policy: Policy): Result<(nat, nat), Reason> {
    if ttl == 0 || ttl > MAX_TTL_MS then Err(InvalidTtl)
    else if policy.renewEvery == 0 || policy.safetyMargin == 0 || policy.renewEvery >= ttl || policy.safetyMargin >= ttl then
      Err(InvalidPolicy)
    else
      var deadline := CheckedAdd(now, ttl);
      if deadline.None? || deadline.value > MAX_CLOCK_MS then Err(DeadlineOverflow)
      else
        var intervalDue := CheckedAdd(now, policy.renewEvery);
        if intervalDue.None? then Err(DeadlineOverflow)
        else
          var next := Min(intervalDue.value, deadline.value - policy.safetyMargin);
          if next <= now then Err(InvalidPolicy) else Ok((deadline.value, next))
  }

  predicate PolicyFits(ttl: nat, policy: Policy) {
    0 < policy.renewEvery < ttl && 0 < policy.safetyMargin < ttl
  }

  /**
   Scheduling succeeds exactly for a TTL in range, a policy inside it and a deadline inside the clock domain; the
   closing policy check never fires, and no addition wraps.
   */
  lemma {:induction false} ScheduleIsExact(now: nat, ttl: nat, policy: Policy)
    ensures Schedule(now, ttl, policy).Ok? <==> 0 < ttl <= MAX_TTL_MS && PolicyFits(ttl, policy) && now + ttl <= MAX_CLOCK_MS
    ensures match Schedule(now, ttl, policy)
            case Ok((deadline, next)) =>
              deadline == now + ttl && now < next < deadline
              && next == Min(now + policy.renewEvery, deadline - policy.safetyMargin)
            case Err(InvalidTtl) => !(0 < ttl <= MAX_TTL_MS)
            case Err(InvalidPolicy) => 0 < ttl <= MAX_TTL_MS && !PolicyFits(ttl, policy)
            case Err(reason) => reason == DeadlineOverflow && ttl <= MAX_TTL_MS && PolicyFits(ttl, policy) && now + ttl > MAX_CLOCK_MS
  {
  }

  function New(grant: LeaseGrant, policy: Policy, now: nat): Result<Supervisor, Reason> {
    if ValidateClock(now).Some? then Err(ValidateClock(now).value)
    else if ValidateAuthorityDeadline(grant.expires).Some? then Err(ValidateAuthorityDeadline(grant.expires).value)
    else
      match Schedule(now, grant.ttl, policy)
      case Err(reason) => Err(reason)
      case Ok((deadline, next)) => Ok(Supervisor(grant, policy, deadline, next, now, None))
  }

  function Lose(s: Supervisor, reason: Reason): Supervisor {
    s.(loss := Some(RenewalError(reason, None)))
  }

  function Decide(s: Supervisor, now: nat): (Supervisor, Verdict) {
    if s.loss.Some? then (s, Lost(s.loss.value.reason))
    else if ValidateClock(now).Some? then (Lose(s, DeadlineOverflow), Lost(DeadlineOverflow))
    else if now < s.lastObserved then (Lose(s, ClockRegression), Lost(ClockRegression))
    else
      var observed := s.(lastObserved := now);
      if now >= s.deadline then (Lose(observed, Expired), Lost(Expired))
      else if now >= s.nextRenewal then (observed, RenewNow)
      else (observed, Wait(s.nextRenewal - now))
  }

  /** Why a renewal that completed in time must be rejected, if it must. */
  function Objection(s: Supervisor, completed: nat, renewed: LeaseGrant): Option<Reason> {
    if renewed.key != s.grant.key || renewed.holder != s.grant.holder then Some(IdentityChanged)
    else if renewed.token != s.grant.token then Some(TokenChanged)
    else if ValidateProgress(s.grant.expires, renewed.expires).Some? then ValidateProgress(s.grant.expires, renewed.expires)
    else
      match Schedule(completed, renewed.ttl, s.policy)
      case Err(reason) => Some(reason)
      case Ok(_) => None
  }

  function Accept(s: Supervisor, completed: nat, renewed: LeaseGrant): (Supervisor, Result<Checkpoint, RenewalError>) {
    if s.loss.Some? then (s, Err(s.loss.value))
    else if ValidateClock(completed).Some? then Reject(s, DeadlineOverflow)
    else if completed < s.lastObserved then Reject(s, ClockRegression)
    else
      var observed := s.(lastObserved := completed);
      if completed >= s.deadline then Reject(observed, CompletionAfterDeadline)
      else if Objection(s, completed, renewed).Some? then Reject(observed, Objection(s, completed, renewed).value)
      else
        var (deadline, next) := Schedule(completed, renewed.ttl, s.policy).value;
        (observed.(grant := renewed, deadline := deadline, nextRenewal := next), Ok(Renewed(next - completed)))
  }

  function Reject(s: Supervisor, reason: Reason): (Supervisor, Result<Checkpoint, RenewalError>) {
    (Lose(s, reason), Err(RenewalError(reason, None)))
  }

  /** A checkpoint at `now`; `reply` and `completed` are what the authority and clock say if it is contacted. */
  function Check(s: Supervisor, now: nat, reply: Result<LeaseGrant, string>, completed: nat)
    : (r: (Supervisor, Result<Checkpoint, RenewalError>, bool))
  {
    var (decided, verdict) := Decide(s, now);
    match verdict
    case Wait(checkIn) => (decided, Ok(Waiting(checkIn)), false)
    case Lost(_) => (decided, Err(decided.loss.value), false)
    case RenewNow =>
      if reply.Err? then
        var error := RenewalError(RenewalFailed, Some(reply.error));
        (decided.(loss := Some(error)), Err(error), true)
      else
        var (accepted, r) := Accept(decided, completed, reply.value);
        (accepted, r, true)
  }

  /** While live: the last observation and the next renewal precede the deadline, which is in the clock domain. */
  predicate Inv(s: Supervisor) {
    s.loss.None? ==>
      && s.lastObserved < s.deadline <= MAX_CLOCK_MS
      && s.nextRenewal < s.deadline
      && s.deadline - s.nextRenewal >= s.policy.safetyMargin > 0
      && ValidateAuthorityDeadline(s.grant.expires).None?
  }

  // ---- Runs ----

  datatype Call =
    | Observe(now: nat)
    | CheckpointCall(now: nat, reply: Result<LeaseGrant, string>, completed: nat)
    | AcceptCall(completed: nat, renewed: LeaseGrant)

  /** What a call reports: its loss, if any, and whether it contacted the authority. */
  datatype Report = Report(loss: Option<Reason>, contacted: bool)

  function LossOf(r: Result<Checkpoint, RenewalError>): Option<Reason> {
    if r.Err? then Some(r.error.reason) else None
  }

  function Do(s: Supervisor, c: Call): (Supervisor, Report) {
    match c
    case Observe(now) =>
      var (t, v) := Decide(s, now);
      (t, Report(if v.Lost? then Some(v.reason) else None, false))
    case CheckpointCall(now, reply, completed) =>
      var (t, r, contacted) := Check(s, now, reply, completed);
      (t, Report(LossOf(r), contacted))
    case AcceptCall(completed, renewed) =>
      var (t, r) := Accept(s, completed, renewed);
      (t, Report(LossOf(r), false))
  }

  function RunAll(s: Supervisor, calls: seq<Call>): Supervisor {
    if calls == [] then s else Do(RunAll(s, calls[..|calls| - 1]), calls[|calls| - 1]).0
  }

  /** `later` descends from `earlier`: same identity and policy, clock and authority deadline moved forward only. */
  predicate Descends(earlier: Supervisor, later: Supervisor) {
    && later.grant.key == earlier.grant.key && later.grant.holder == earlier.grant.holder
    && later.grant.token == earlier.grant.token && later.policy == earlier.policy
    && later.lastObserved >= earlier.lastObserved
    && (earlier.grant.expires.Some? ==>
          later.grant == earlier.grant
          || (later.grant.expires.Some? && later.grant.expires.value > earlier.grant.expires.value))
    && (earlier.loss.Some? ==> later == earlier)
  }

  lemma {:induction false} DecideDescends(s: Supervisor, now: nat)
    requires Inv(s)
    ensures Inv(Decide(s, now).0) && Descends(s, Decide(s, now).0)
    ensures s.loss.None? ==> Decide(s, now).0.grant == s.grant
    ensures Decide(s, now).1.Lost? <==> Decide(s, now).0.loss.Some?
  {
  }

  lemma {:induction false} AcceptDescends(s: Supervisor, completed: nat, renewed: LeaseGrant)
    requires Inv(s)
    ensures Inv(Accept(s, completed, renewed).0) && Descends(s, Accept(s, completed, renewed).0)
    ensures Accept(s, completed, renewed).1.Err? <==> Accept(s, completed, renewed).0.loss.Some?
  {
    ScheduleIsExact(completed, renewed.ttl, s.policy);
    hide Schedule;
  }

  lemma {:induction false} StepDescends(s: Supervisor, c: Call)
    requires Inv(s)
    ensures var (t, report) := Do(s, c);
            && Inv(t) && Descends(s, t)
            && report.loss == (if t.loss.Some? then Some(t.loss.value.reason) else None)
            && (s.loss.Some? ==> t == s && !report.contacted)
  {
    match c
    case Observe(now) =>
      DecideDescends(s, now);
    case CheckpointCall(now, reply, completed) =>
      DecideDescends(s, now);
      if reply.Ok? {
        AcceptDescends(Decide(s, now).0, completed, reply.value);
      }
    case AcceptCall(completed, renewed) =>
      AcceptDescends(s, completed, renewed);
  }

  /**
   Over every run from a fresh supervisor: the invariant holds; identity never changes; reported deadlines only
   advance; and once any call reports a loss, every later call reports that loss, changes nothing and contacts no one.
   */
  lemma {:induction false} RunsAreSticky(s: Supervisor, calls: seq<Call>, i: nat)
    requires Inv(s) && i <= |calls|
    ensures Inv(RunAll(s, calls)) && Descends(RunAll(s, calls[..i]), RunAll(s, calls))
    ensures i < |calls| && RunAll(s, calls[..i]).loss.Some? ==>
              Do(RunAll(s, calls[..|calls| - 1]), calls[|calls| - 1]) ==
              (RunAll(s, calls[..i]), Report(Some(RunAll(s, calls[..i]).loss.value.reason), false))
  {
    if i == |calls| {
      assert calls[..i] == calls;
      if calls != [] {
        RunsAreSticky(s, calls[..|calls| - 1], |calls| - 1);
        StepDescends(RunAll(s, calls[..|calls| - 1]), calls[|calls| - 1]);
      }
    } else {
      var n := |calls| - 1;
      RunsAreSticky(s, calls[..n], i);
      assert calls[..n][..i] == calls[..i];
      StepDescends(RunAll(s, calls[..n]), calls[n]);
    }
  }

  /** A supervisor is created exactly when its inputs are in range, and then it satisfies the invariant. */
  lemma {:induction false} NewIsExact(grant: LeaseGrant, policy: Policy, now: nat)
    ensures New(grant, policy, now).Ok? <==>
              && 0 < grant.ttl <= MAX_TTL_MS && PolicyFits(grant.ttl, policy) && now + grant.ttl <= MAX_CLOCK_MS
              && (grant.expires.Some? ==> 0 < grant.expires.value <= MAX_CLOCK_MS)
    ensures New(grant, policy, now).Ok? ==>
              var s := New(grant, policy, now).value;
              && Inv(s) && s.loss.None? && s.grant == grant && s.policy == policy && s.lastObserved == now < s.nextRenewal
              && s.deadline == now + grant.ttl
              && s.nextRenewal == Min(now + policy.renewEvery, s.deadline - policy.safetyMargin)
    ensures New(grant, policy, now).Err? ==>
              New(grant, policy, now).error ==
              if now > MAX_CLOCK_MS then DeadlineOverflow
              else if grant.expires == Some(0) then DeadlineInvalid
              else if grant.expires.Some? && grant.expires.value > MAX_CLOCK_MS then DeadlineOverflow
              else if !(0 < grant.ttl <= MAX_TTL_MS) then InvalidTtl
              else if !PolicyFits(grant.ttl, policy) then InvalidPolicy
              else DeadlineOverflow
  {
    ScheduleIsExact(now, grant.ttl, policy);
  }

  /** A renewal is admitted exactly when it is timely, keeps identity, advances the deadline and can be scheduled. */
  lemma {:induction false} AcceptIsExact(s: Supervisor, completed: nat, renewed: LeaseGrant)
    requires Inv(s) && s.loss.None?
    ensures Accept(s, completed, renewed).1.Ok? <==>
              && s.lastObserved <= completed < s.deadline
              && renewed.key == s.grant.key && renewed.holder == s.grant.holder && renewed.token == s.grant.token
              && (s.grant.expires.Some? ==> renewed.expires.Some? && renewed.expires.value > s.grant.expires.value)
              && (renewed.expires.Some? ==> 0 < renewed.expires.value <= MAX_CLOCK_MS)
              && 0 < renewed.ttl <= MAX_TTL_MS && PolicyFits(renewed.ttl, s.policy)
              && completed + renewed.ttl <= MAX_CLOCK_MS
  {
    ScheduleIsExact(completed, renewed.ttl, s.policy);
  }

  // ---- What each call answers ----

  /** The conditions under which an answer that arrives at `completed` renews the supervised grant. */
  predicate Renews(grant: LeaseGrant, policy: Policy, observed: nat, deadline: nat, completed: nat, renewed: LeaseGrant) {
    && observed <= completed < deadline
    && renewed.key == grant.key && renewed.holder == grant.holder && renewed.token == grant.token
    && (grant.expires.Some? ==> renewed.expires.Some? && renewed.expires.value > grant.expires.value)
    && (renewed.expires.Some? ==> 0 < renewed.expires.value <= MAX_CLOCK_MS)
    && 0 < renewed.ttl <= MAX_TTL_MS && PolicyFits(renewed.ttl, policy)
    && completed + renewed.ttl <= MAX_CLOCK_MS
  }

  /** An observation at `now` finds the supervisor live. */
  predicate InTime(s: Supervisor, now: nat) {
    s.loss.None? && now <= MAX_CLOCK_MS && s.lastObserved <= now < s.deadline
  }

  /** The verdict at an instant: the reasons in order of precedence, the due instant and the check-in. */
  lemma {:induction false} DecideIsExact(s: Supervisor, now: nat)
    ensures var (t, verdict) := Decide(s, now);
            && (verdict == RenewNow <==> InTime(s, now) && now >= s.nextRenewal)
            && (verdict.Wait? <==> InTime(s, now) && now < s.nextRenewal)
            && (verdict.Wait? ==> now + verdict.checkIn == s.nextRenewal)
            && (s.loss.Some? ==> verdict == Lost(s.loss.value.reason))
            && (s.loss.None? && now > MAX_CLOCK_MS ==> verdict == Lost(DeadlineOverflow))
            && (s.loss.None? && now <= MAX_CLOCK_MS && now < s.lastObserved ==> verdict == Lost(ClockRegression))
            && (s.loss.None? && s.lastObserved <= now <= MAX_CLOCK_MS && now >= s.deadline ==> verdict == Lost(Expired))
            && (InTime(s, now) ==> t == s.(lastObserved := now))
  {
  }

  /** An answer is admitted exactly when it renews; each other answer has its reason, in order of precedence. */
  lemma {:induction false} AcceptReasons(s: Supervisor, completed: nat, renewed: LeaseGrant)
    requires s.loss.None?
    ensures var (t, r) := Accept(s, completed, renewed);
            && (r.Ok? <==>
                  Renews(s.grant, s.policy, s.lastObserved, s.deadline, completed, renewed) && completed <= MAX_CLOCK_MS)
            && (r.Ok? ==>
                  && t.grant == renewed && t.deadline == completed + renewed.ttl && t.loss.None? && t.lastObserved == completed
                  && t.nextRenewal == Min(completed + s.policy.renewEvery, t.deadline - s.policy.safetyMargin)
                  && r.value == Renewed(t.nextRenewal - completed) && completed < t.nextRenewal < t.deadline)
            && (r.Err? ==>
                  && t.loss == Some(r.error) && r.error.cause.None?
                  && t.grant == s.grant && t.deadline == s.deadline && t.nextRenewal == s.nextRenewal
                  && r.error.reason ==
                     if completed > MAX_CLOCK_MS then DeadlineOverflow
                     else if completed < s.lastObserved then ClockRegression
                     else if completed >= s.deadline then CompletionAfterDeadline
                     else if renewed.key != s.grant.key || renewed.holder != s.grant.holder then IdentityChanged
                     else if renewed.token != s.grant.token then TokenChanged
                     else if renewed.expires == Some(0) then DeadlineInvalid
                     else if renewed.expires.Some? && renewed.expires.value > MAX_CLOCK_MS then DeadlineOverflow
                     else if s.grant.expires.Some? && renewed.expires.None? then DeadlineMissing
                     else if s.grant.expires.Some? && renewed.expires.value <= s.grant.expires.value then DeadlineRegressed
                     else if !(0 < renewed.ttl <= MAX_TTL_MS) then InvalidTtl
                     else if !PolicyFits(renewed.ttl, s.policy) then InvalidPolicy
                     else DeadlineOverflow)
  {
    ScheduleIsExact(completed, renewed.ttl, s.policy);
    hide Schedule;
  }

  /** A call that a supervisor survives: made in time and, where a renewal is due, answered in time and validly. */
  predicate Served(s: Supervisor, c: Call) {
    match c
    case Observe(now) => InTime(s, now)
    case CheckpointCall(now, reply, completed) =>
      && InTime(s, now)
      && (now >= s.nextRenewal ==> reply.Ok? && Renews(s.grant, s.policy, now, s.deadline, completed, reply.value))
    case AcceptCall(completed, renewed) => Renews(s.grant, s.policy, s.lastObserved, s.deadline, completed, renewed)
  }

  predicate AllServed(s: Supervisor, calls: seq<Call>) {
    calls != [] ==>
      var n := |calls| - 1;
      AllServed(s, calls[..n]) && Served(RunAll(s, calls[..n]), calls[n])
  }

  lemma {:induction false} OneCallServed(s: Supervisor, c: Call)
    requires Inv(s) && s.loss.None?
    ensures Do(s, c).0.loss.None? <==> Served(s, c)
    ensures Served(s, c) && c.CheckpointCall? && c.now >= s.nextRenewal ==>
              Do(s, c).1.contacted && Do(s, c).0.grant == c.reply.value
  {
    match c
    case Observe(now) => DecideIsExact(s, now);
    case CheckpointCall(now, reply, completed) =>
      DecideIsExact(s, now);
      if InTime(s, now) && reply.Ok? {
        AcceptReasons(s.(lastObserved := now), completed, reply.value);
      }
      hide Decide, Accept, Renews;
    case AcceptCall(completed, renewed) => AcceptReasons(s, completed, renewed);
  }

  /**
   A supervisor is never lost exactly when every call is made in time and every due renewal is answered in time and
   validly. In time means before the deadline, and the check-in of the last call always is.
   */
  lemma {:induction false} NeverLostIffServed(s: Supervisor, calls: seq<Call>)
    requires Inv(s) && s.loss.None?
    ensures Inv(RunAll(s, calls)) && (RunAll(s, calls).loss.None? <==> AllServed(s, calls))
    ensures RunAll(s, calls).loss.None? ==> RunAll(s, calls).nextRenewal < RunAll(s, calls).deadline
  {
    if calls != [] {
      var n := |calls| - 1;
      NeverLostIffServed(s, calls[..n]);
      var before := RunAll(s, calls[..n]);
      assert RunAll(s, calls) == Do(before, calls[n]).0;
      hide RunAll, AllServed;
      StepDescends(before, calls[n]);
      if before.loss.None? {
        OneCallServed(before, calls[n]);
      }
      hide Do, Served;
    }
  }

  // ---- The object ----

  class RenewalSupervisor {
    var grant: LeaseGrant
    const policy: Policy
    var localDeadline: nat
    var nextRenewal: nat
    var lastObserved: nat
    var loss: Option<RenewalError>

    function View(): Supervisor
      reads this
    {
      Supervisor(grant, policy, localDeadline, nextRenewal, lastObserved, loss)
    }

    /** What an admitted answer leaves: its grant, and both instants counted from its completion. */
    predicate Rescheduled(completed: nat, renewed: LeaseGrant)
      reads this
    {
      && loss.None? && lastObserved == completed && grant == renewed
      && localDeadline == completed + renewed.ttl
      && nextRenewal == Min(completed + policy.renewEvery, localDeadline - policy.safetyMargin)
      && completed < nextRenewal < localDeadline
    }

    /** Nothing is lost and an observation at `now` loses nothing. */
    predicate LiveAt(now: nat)
      reads this
    {
      loss.None? && now <= MAX_CLOCK_MS && lastObserved <= now < localDeadline
    }

    constructor FromView(s: Supervisor)
      ensures View() == s
    {
      grant, policy := s.grant, s.policy;
      localDeadline, nextRenewal, lastObserved, loss := s.deadline, s.nextRenewal, s.lastObserved, s.loss;
    }

    /** Starts supervision of a grant, or says why it cannot. */
    static method Start(grant: LeaseGrant, policy: Policy, now: nat) returns (r: Result<RenewalSupervisor, Reason>)
      ensures match r
              case Ok(supervisor) => fresh(supervisor) && New(grant, policy, now) == Ok(supervisor.View())
              case Err(reason) => New(grant, policy, now) == Err(reason)
    {
      var bad := ValidateClock(now);
      if bad.Some? {
        return Err(bad.value);
      }
      bad := ValidateAuthorityDeadline(grant.expires);
      if bad.Some? {
        return Err(bad.value);
      }
      var schedule := Schedule(now, grant.ttl, policy);
      if schedule.Err? {
        return Err(schedule.error);
      }
      var supervisor := new RenewalSupervisor.FromView(
        Supervisor(grant, policy, schedule.value.0, schedule.value.1, now, None));
      r := Ok(supervisor);
    }

    /** Records the first loss only. */
    method Record(error: RenewalError) returns (terminal: RenewalError)
      modifies this`loss
      ensures loss == Some(terminal) && terminal == if old(loss).Some? then old(loss).value else error
    {
      if loss.None? {
        loss := Some(error);
      }
      terminal := loss.value;
    }

    method Decision(now: nat) returns (v: Verdict)
      modifies this
      ensures (View(), v) == Decide(old(View()), now)
      ensures v == RenewNow <==> old(LiveAt(now)) && now >= old(nextRenewal)
      ensures v.Wait? <==> old(LiveAt(now)) && now < old(nextRenewal)
      ensures v.Wait? ==> now + v.checkIn == nextRenewal
      ensures v.Lost? ==> loss.Some? && v.reason == loss.value.reason
      ensures grant == old(grant) && localDeadline == old(localDeadline) && nextRenewal == old(nextRenewal)
    {
      if loss.Some? {
        return Lost(loss.value.reason);
      }
      var bad := ValidateClock(now);
      if bad.Some? {
        var e := Record(RenewalError(bad.value, None));
        return Lost(e.reason);
      }
      if now < lastObserved {
        var e := Record(RenewalError(ClockRegression, None));
        return Lost(e.reason);
      }
      lastObserved := now;
      if now >= localDeadline {
        var e := Record(RenewalError(Expired, None));
        return Lost(e.reason);
      }
      v := if now >= nextRenewal then RenewNow else Wait(nextRenewal - now);
    }

    method AssertLive(now: nat) returns (r: Option<RenewalError>)
      modifies this
      ensures View() == Decide(old(View()), now).0 && r == loss
    {
      var v := Decision(now);
      r := if v.Lost? then loss else None;
    }

    method AcceptRenewal(completed: nat, renewed: LeaseGrant) returns (r: Result<Checkpoint, RenewalError>)
      modifies this
      ensures (View(), r) == Accept(old(View()), completed, renewed)
      ensures old(loss).None? ==>
                (r.Ok? <==> Renews(old(grant), policy, old(lastObserved), old(localDeadline), completed, renewed)
                            && completed <= MAX_CLOCK_MS)
      ensures r.Ok? ==> r == Ok(Renewed(nextRenewal - completed)) && Rescheduled(completed, renewed)
      ensures r.Err? ==>
                && loss == Some(r.error)
                && grant == old(grant) && localDeadline == old(localDeadline) && nextRenewal == old(nextRenewal)
    {
      if loss.None? {
        AcceptReasons(View(), completed, renewed);
      }
      hide Schedule, Renews;
      if loss.Some? {
        return Err(loss.value);
      }
      var bad := ValidateClock(completed);
      if bad.Some? {
        r := Fail(bad.value);
        return;
      }
      if completed < lastObserved {
        r := Fail(ClockRegression);
        return;
      }
      lastObserved := completed;
      if completed >= localDeadline {
        r := Fail(CompletionAfterDeadline);
        return;
      }
      if renewed.key != grant.key || renewed.holder != grant.holder {
        r := Fail(IdentityChanged);
        return;
      }
      if renewed.token != grant.token {
        r := Fail(TokenChanged);
        return;
      }
      var regressed := ValidateProgress(grant.expires, renewed.expires);
      if regressed.Some? {
        r := Fail(regressed.value);
        return;
      }
      var schedule := Schedule(completed, renewed.ttl, policy);
      if schedule.Err? {
        r := Fail(schedule.error);
        return;
      }
      grant := renewed;
      localDeadline, nextRenewal := schedule.value.0, schedule.value.1;
      r := Ok(Renewed(nextRenewal - completed));
    }

    method Fail(reason: Reason) returns (r: Result<Checkpoint, RenewalError>)
      requires loss.None?
      modifies this`loss
      ensures loss == Some(RenewalError(reason, None)) && r == Err(loss.value)
    {
      var e := Record(RenewalError(reason, None));
      r := Err(e);
    }

    /** `reply` is the authority's answer, looked at only when a renewal is due. */
    method CheckpointAt(now: nat, reply: Result<LeaseGrant, string>, completed: nat)
      returns (r: Result<Checkpoint, RenewalError>, contacted: bool)
      modifies this
      ensures (View(), r, contacted) == Check(old(View()), now, reply, completed)
      ensures contacted <==> old(LiveAt(now)) && now >= old(nextRenewal)
      ensures contacted && reply.Err? ==>
                r == Err(RenewalError(RenewalFailed, Some(reply.error))) && loss == Some(r.error)
      ensures contacted && reply.Ok? ==>
                (r.Ok? <==> Renews(old(grant), policy, now, old(localDeadline), completed, reply.value)
                            && completed <= MAX_CLOCK_MS)
      ensures contacted && r.Ok? ==> r == Ok(Renewed(nextRenewal - completed)) && Rescheduled(completed, reply.value)
      ensures !contacted ==>
                && grant == old(grant) && localDeadline == old(localDeadline) && nextRenewal == old(nextRenewal)
                && (r.Ok? <==> old(LiveAt(now)))
                && (r.Ok? ==> r == Ok(Waiting(nextRenewal - now)) && now < nextRenewal)
      ensures r.Err? ==> loss == Some(r.error)
    {
      var v := Decision(now);
      match v {
        case Wait(checkIn) => return Ok(Waiting(checkIn)), false;
        case Lost(_) => return Err(loss.value), false;
        case RenewNow =>
      }
      contacted := true;
      match reply {
        case Err(cause) =>
          var e := Record(RenewalError(RenewalFailed, Some(cause)));
          r := Err(e);
        case Ok(renewed) =>
          r := AcceptRenewal(completed, renewed);
      }
    }
  }
}
