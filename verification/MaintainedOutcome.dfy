/**
 What a maintained run comes to: when it asks for the final renewal, when it commits, when it succeeds, and what its
 error retains. All of it is read off the answers and the order of events.
 */
module MaintainedOutcome {
  import opened Outcomes
  import opened Maintained

  /** No periodic renewal has failed. */
  predicate PeriodicKept(c: Config, g: Grant, trace: seq<Event>) {
    forall i | 0 <= i < |trace| && trace[i].RenewReturned? && !trace[i].final :: RenewChecked(c, g, trace[i].r).None?
  }

  predicate NothingFinal(trace: seq<Event>) {
    forall i | 0 <= i < |trace| :: trace[i] != RenewCalled(true) && !(trace[i].RenewReturned? && trace[i].final)
  }

  // ---- The final renewal ----

  predicate BeforeWorkEnds(trace: seq<Event>) {
    WorkReturned(true) !in trace && WorkReturned(false) !in trace
  }

  /** Main goroutine and maintainer have recorded exactly what has happened so far. */
  predicate Recorded(c: Config, s: State) {
    match s.main
    case Acquiring => s.trace == [] && s.failure.None?
    case Beginning => Sound(c, s) && BeforeWorkEnds(s.trace)
    case Locking => Sound(c, s) && BeforeWorkEnds(s.trace)
    case Working => Sound(c, s) && BeforeWorkEnds(s.trace)
    case Stopping(begun, inner) => Sound(c, s) && (inner.None? <==> WorkReturned(true) in s.trace)
    case _ => true
  }

  predicate Sound(c: Config, s: State) {
    && s.grant.Some? && NothingFinal(s.trace)
    && (s.failure.None? <==> PeriodicKept(c, s.grant.value, s.trace))
  }

  lemma {:induction false} AppendSound(c: Config, s: State, e: Event, t: State)
    requires Sound(c, s) && t.grant == s.grant && t.trace == s.trace + [e]
    requires e != RenewCalled(true) && !(e.RenewReturned? && e.final)
    requires t.failure.None? <==> s.failure.None? && (e.RenewReturned? ==> RenewChecked(c, s.grant.value, e.r).None?)
    ensures Sound(c, t)
  {
    hide RenewChecked;
    if PeriodicKept(c, s.grant.value, s.trace) && (e.RenewReturned? ==> RenewChecked(c, s.grant.value, e.r).None?) {
      assert PeriodicKept(c, s.grant.value, t.trace);
    }
    if PeriodicKept(c, s.grant.value, t.trace) {
      forall i | 0 <= i < |s.trace| && s.trace[i].RenewReturned? && !s.trace[i].final
        ensures RenewChecked(c, s.grant.value, s.trace[i].r).None?
      {
        assert t.trace[i] == s.trace[i];
      }
      assert t.trace[|s.trace|] == e;
    }
  }

  lemma {:induction false} ReplyIsRecorded(c: Config, s: State, r: Result<Grant, Error>)
    requires Inv(c, s) && Recorded(c, s)
    ensures Recorded(c, Act(c, s, RenewReturns(r)))
  {
    var t := Act(c, s, RenewReturns(r));
    if t != s && (s.main.Beginning? || s.main.Locking? || s.main.Working? || s.main.Stopping?) {
      var failure := RenewChecked(c, s.grant.value, r);
      assert s.failure.None?;
      var one := Log(s, RenewReturned(false, r)).(failure := failure);
      AppendSound(c, s, RenewReturned(false, r), one);
      if failure.Some? {
        AppendSound(c, one, MaintainerExited, t);
      }
      hide RenewChecked, Sound, Engaged;
    }
  }

  lemma {:induction false} WorkIsRecorded(c: Config, s: State, a: Action)
    requires Inv(c, s) && Recorded(c, s) && (a.BeginReturns? || a.PollReturns? || a.WorkReturns?)
    ensures Recorded(c, Act(c, s, a))
  {
    var t := Act(c, s, a);
    if t != s {
      AppendSound(c, s, t.trace[|s.trace|], t);
    }
    hide Sound, Engaged, Refusal;
  }

  lemma {:induction false} TickIsRecorded(c: Config, s: State, a: Action)
    requires Inv(c, s) && Recorded(c, s) && (a.TickFires? || a.MaintainerStops? || a.CallerCancels?)
    ensures Recorded(c, Act(c, s, a))
  {
    var t := Act(c, s, a);
    if t.trace != s.trace && (s.main.Beginning? || s.main.Locking? || s.main.Working? || s.main.Stopping?) {
      AppendSound(c, s, t.trace[|s.trace|], t);
    }
    hide Engaged, RenewChecked, PeriodicKept, NothingFinal;
  }

  lemma {:induction false} StepIsRecorded(c: Config, s: State, a: Action)
    requires Inv(c, s) && Recorded(c, s)
    ensures Recorded(c, Act(c, s, a))
  {
    if a.RenewReturns? {
      ReplyIsRecorded(c, s, a.a);
    } else if a.BeginReturns? || a.PollReturns? || a.WorkReturns? {
      WorkIsRecorded(c, s, a);
    } else if a.TickFires? || a.MaintainerStops? || a.CallerCancels? {
      TickIsRecorded(c, s, a);
    } else {
      hide RenewChecked, CleanupFailure;
    }
  }

  lemma {:induction false} CancelIsRecorded(c: Config, s: State, a: Action)
    ensures Act(c, s, a).cancelled <==> s.cancelled || a.CallerCancels?
  {
    hide RenewChecked, Refusal, CleanupFailure, AcquiredValid;
  }

  lemma {:induction false} RunIsRecorded(c: Config, actions: seq<Action>)
    ensures Recorded(c, Run(c, actions)) && (Run(c, actions).cancelled <==> CallerCancels in actions)
  {
    hide Act, Recorded, Inv, HistoryOk;
    if actions != [] {
      var n := |actions| - 1;
      RunIsRecorded(c, actions[..n]);
      RunKeeps(c, actions[..n]);
      var s := Run(c, actions[..n]);
      StepIsRecorded(c, s, actions[n]);
      CancelIsRecorded(c, s, actions[n]);
      assert Run(c, actions) == Act(c, s, actions[n]);
      hide Run;
      assert actions == actions[..n] + [actions[n]];
    } else {
      assert Recorded(c, INITIAL) by { InitiallyRecorded(c); }
    }
  }

  lemma {:induction false} InitiallyRecorded(c: Config)
    ensures Recorded(c, INITIAL)
  {
  }

  /**
   When the maintainer has been joined, the final renewal is sent if and only if the transaction began, the lock was
   got, the work succeeded, no periodic renewal failed and the caller had not cancelled; otherwise the run is undone.
   */
  lemma {:induction false} JoinDecides(c: Config, actions: seq<Action>)
    requires Run(c, actions).main.Stopping? && Run(c, actions).maintainer.Exited?
    ensures var (s, t) := (Run(c, actions), Act(c, Run(c, actions), StopJoins));
            if && TxBegun in s.trace && LockPolled(Got) in s.trace && WorkReturned(true) in s.trace
               && s.grant.Some? && PeriodicKept(c, s.grant.value, s.trace) && CallerCancels !in actions
            then t.trace == s.trace + [RenewCalled(true)] && t.main.FinalRenewing?
            else
              && !t.main.FinalRenewing?
              && if TxBegun in s.trace then
                   && t.trace == s.trace && t.main.RollingBack?
                   && (WorkReturned(true) in s.trace && s.grant.Some? && PeriodicKept(c, s.grant.value, s.trace) ==>
                         t.main.cause == Error(Work, WorkStep, None))
                 else t.trace == s.trace + [ReleaseCalled]
  {
    RunIsRecorded(c, actions);
    RunKeeps(c, actions);
    hide Run, PeriodicKept, HistoryOk, CleanupFailure, AcquiredValid, AllKept, NothingFinal;
  }

  // ---- The lock ----

  /**
   The work begins exactly with the lock. The loop polls again on a busy lock while it may wait; otherwise it ends, with
   contention or a timeout of its own, or with what ended it: a failed renewal first, then the caller's cancellation,
   then the database.
   */
  lemma {:induction false} LockLoopDecides(c: Config, actions: seq<Action>, poll: LockPoll)
    requires Run(c, actions).main.Locking?
    ensures var (s, t) := (Run(c, actions), Act(c, Run(c, actions), PollReturns(poll)));
            var renewed := s.grant.Some? && PeriodicKept(c, s.grant.value, s.trace);
            && t.trace == s.trace + [LockPolled(poll)] && (t.main.Working? <==> poll.Got?)
            && (poll.Busy? ==> t.main == if c.wait then Locking else Stopping(true, Some(Error(Contention, PgLock, None))))
            && (poll.TimedOut? && c.wait ==> t.main == Stopping(true, Some(Error(Timeout, PgLock, None))))
            && ((poll.Cancelled? || poll.Broken?) && !renewed ==> s.failure.Some? && t.main == Stopping(true, s.failure))
            && (poll.Cancelled? && renewed ==>
                  t.main == if CallerCancels in actions then Stopping(true, Some(Error(Work, WorkStep, None))) else Locking)
            && (poll.Broken? && renewed ==> t.main == Stopping(true, Some(Error(Database, PgLock, None))))
  {
    RunIsRecorded(c, actions);
    hide Run, RenewChecked, PeriodicKept, NothingFinal;
  }

  // ---- Periodic renewal ----

  /**
   While it runs the maintainer answers every tick with a renewal call, and it exits only on a renewal that did not keep
   the grant, whose failure it leaves, or once the caller has cancelled or the main goroutine has come to join it.
   */
  lemma {:induction false} MaintainerRenews(c: Config, actions: seq<Action>, a: Action)
    ensures var (s, t) := (Run(c, actions), Act(c, Run(c, actions), a));
            && (s.maintainer.Selecting? && a.TickFires? ==>
                  t.trace == s.trace + [RenewCalled(false)] && t.maintainer.Renewing?)
            && (s.maintainer.Renewing? ==> (t.maintainer != s.maintainer <==> a.RenewReturns?))
            && (!s.maintainer.Exited? && t.maintainer.Exited? ==>
                  if a.RenewReturns? then
                    s.grant.Some? && t.failure.Some? && t.failure == RenewChecked(c, s.grant.value, a.a)
                  else a.MaintainerStops? && (CallerCancels in actions || s.main.Stopping?))
            && (s.maintainer.Selecting? && a.MaintainerStops? && (CallerCancels in actions || s.main.Stopping?) ==>
                  t.maintainer.Exited? && t.failure == s.failure)
  {
    RunIsRecorded(c, actions);
    RunKeeps(c, actions);
    hide Run, RenewChecked, HistoryOk, Recorded;
  }

  // ---- COMMIT ----

  /** Every final reply that kept the grant is followed by COMMIT at once, and no other is. */
  predicate FinalDecides(c: Config, g: Option<Grant>, trace: seq<Event>) {
    && (g.None? ==> forall i | 0 <= i < |trace| :: !trace[i].RenewReturned?)
    && forall i | 0 <= i < |trace| :: DecidesAt(c, g, trace, i)
  }

  predicate DecidesAt(c: Config, g: Option<Grant>, trace: seq<Event>, i: nat)
    requires i < |trace|
  {
    trace[i].RenewReturned? && trace[i].final ==>
      g.Some? && (i + 1 < |trace| && trace[i + 1].CommitCalled? <==> RenewChecked(c, g.value, trace[i].r).None?)
  }

  lemma {:induction false} AppendKeepsFinal(c: Config, g: Option<Grant>, trace: seq<Event>, e: Event)
    requires FinalDecides(c, g, trace) && !e.CommitCalled?
    requires e.RenewReturned? ==> g.Some? && (e.final ==> RenewChecked(c, g.value, e.r).Some?)
    ensures FinalDecides(c, g, trace + [e])
  {
    hide RenewChecked;
    var longer := trace + [e];
    forall i | 0 <= i < |longer|
      ensures DecidesAt(c, g, longer, i)
    {
      if i < |trace| {
        assert DecidesAt(c, g, trace, i);
      }
    }
  }

  lemma {:induction false} AdmittedKeepsFinal(c: Config, g: Grant, trace: seq<Event>, r: Result<Grant, Error>)
    requires FinalDecides(c, Some(g), trace) && RenewChecked(c, g, r).None?
    ensures FinalDecides(c, Some(g), trace + [RenewReturned(true, r)] + [CommitCalled])
  {
    hide RenewChecked;
    var longer := trace + [RenewReturned(true, r)] + [CommitCalled];
    forall i | 0 <= i < |longer|
      ensures DecidesAt(c, Some(g), longer, i)
    {
      if i < |trace| {
        assert DecidesAt(c, Some(g), trace, i);
      }
    }
  }

  lemma {:induction false} StepKeepsFinal(c: Config, s: State, a: Action)
    requires Inv(c, s) && FinalDecides(c, s.grant, s.trace)
    ensures FinalDecides(c, Act(c, s, a).grant, Act(c, s, a).trace)
  {
    var t := Act(c, s, a);
    hide FinalDecides;
    if a.FinalRenewReturns? && t.main.Committing? && s.main.FinalRenewing? {
      AdmittedKeepsFinal(c, s.grant.value, s.trace, a.a);
    } else if a.AcquireReturns? {
      FreshKeepsFinal(c, s, a);
    } else if t.trace != s.trace {
      StepAppends(c, s, a);
      var one := t.trace[|s.trace|];
      hide Act, RenewChecked;
      AppendKeepsFinal(c, s.grant, s.trace, one);
      if |t.trace| > |s.trace| + 1 {
        AppendKeepsFinal(c, s.grant, s.trace + [one], t.trace[|s.trace| + 1]);
        assert t.trace == s.trace + [one] + [t.trace[|s.trace| + 1]];
      } else {
        assert t.trace == s.trace + [one];
      }
    }
  }

  /** A step appends one or two events; only an admitted final reply brings COMMIT. */
  lemma {:induction false} StepAppends(c: Config, s: State, a: Action)
    requires Inv(c, s) && !a.AcquireReturns?
    ensures var t := Act(c, s, a);
            && s.trace <= t.trace && |t.trace| <= |s.trace| + 2 && t.grant == s.grant
            && (!(a.FinalRenewReturns? && t.main.Committing? && s.main.FinalRenewing?) ==>
                  forall i | |s.trace| <= i < |t.trace| ::
                    && !t.trace[i].CommitCalled?
                    && (t.trace[i].RenewReturned? ==>
                          s.grant.Some? && (t.trace[i].final ==> RenewChecked(c, s.grant.value, t.trace[i].r).Some?)))
  {
    hide Engaged, RenewChecked, Refusal, CleanupFailure, FinalSent;
  }

  lemma {:induction false} FreshKeepsFinal(c: Config, s: State, a: Action)
    requires Inv(c, s) && FinalDecides(c, s.grant, s.trace) && a.AcquireReturns?
    ensures FinalDecides(c, Act(c, s, a).grant, Act(c, s, a).trace)
  {
  }

  lemma {:induction false} RunKeepsFinal(c: Config, actions: seq<Action>)
    ensures FinalDecides(c, Run(c, actions).grant, Run(c, actions).trace)
  {
    if actions != [] {
      hide Act, Inv, HistoryOk;
      RunKeepsFinal(c, actions[..|actions| - 1]);
      RunKeeps(c, actions[..|actions| - 1]);
      StepKeepsFinal(c, Run(c, actions[..|actions| - 1]), actions[|actions| - 1]);
    }
  }

  predicate FinallyKept(c: Config, g: Grant, e: Event) {
    e.RenewReturned? && e.final && RenewChecked(c, g, e.r).None?
  }

  lemma {:induction false} KeptMeansCommit(c: Config, g: Grant, trace: seq<Event>, i: nat)
    requires FinalDecides(c, Some(g), trace) && i < |trace| && FinallyKept(c, g, trace[i])
    ensures CommitCalled in trace
  {
    assert DecidesAt(c, Some(g), trace, i);
    assert trace[i + 1] == CommitCalled;
  }

  /** COMMIT is called in exactly the runs whose final renewal has come back with the grant kept. */
  lemma {:induction false} CommitIffKept(c: Config, actions: seq<Action>)
    ensures var s := Run(c, actions);
            CommitCalled in s.trace <==>
              s.grant.Some? && exists i :: 0 <= i < |s.trace| && FinallyKept(c, s.grant.value, s.trace[i])
  {
    RunKeepsFinal(c, actions);
    RunKeeps(c, actions);
    hide Run, RenewChecked, Inv;
    var s := Run(c, actions);
    if CommitCalled in s.trace {
      var i :| 0 <= i < |s.trace| && s.trace[i].CommitCalled?;
      assert CommitAdmitted(c, s.grant, s.trace, i);
      assert FinallyKept(c, s.grant.value, s.trace[i - 1]);
    }
    if i :| s.grant.Some? && 0 <= i < |s.trace| && FinallyKept(c, s.grant.value, s.trace[i]) {
      KeptMeansCommit(c, s.grant.value, s.trace, i);
    }
  }

  // ---- Good runs ----

  /** An answer after which a run still succeeds; `g` is the grant it works under. */
  predicate Good(c: Config, g: Grant, a: Action) {
    match a
    case CallerCancels => false
    case AcquireReturns(r) => r == Ok(g)
    case BeginReturns(ok) => ok
    case PollReturns(poll) => poll.Got? || (poll.Busy? && c.wait) || (poll.TimedOut? && !c.wait) || poll.Cancelled?
    case WorkReturns(ok) => ok
    case RenewReturns(r) => RenewChecked(c, g, r).None?
    case FinalRenewReturns(r) => RenewChecked(c, g, r).None?
    case CommitReturns(ok) => ok
    case ReleaseReturns(r) => r == Ok(true)
    case _ => true
  }

  predicate OnCourse(g: Grant, s: State) {
    && s.failure.None? && !s.cancelled && (s.main.Acquiring? || s.grant == Some(g))
    && match s.main
       case Stopping(begun, inner) => begun && inner.None?
       case RollingBack(_) => false
       case Releasing(inner) => inner.None? && CommitReturned(true) in s.trace
       case Finished(result) => result.None? && CommitReturned(true) in s.trace
       case _ => true
  }

  lemma {:induction false} GoodAnswerStaysOnCourse(c: Config, g: Grant, s: State, a: Action)
    requires AcquiredValid(c, g) && OnCourse(g, s) && Good(c, g, a) && (s.main.Acquiring? ==> s.maintainer.NotStarted?)
    ensures OnCourse(g, Act(c, s, a))
  {
    hide AcquiredValid, RenewChecked;
    var t := Act(c, s, a);
    match a
    case PollReturns(poll) =>
      assert !poll.Got? ==> Refusal(c, s, poll).None?;
    case CommitReturns(ok) =>
      assert s.main.Committing? ==> t.trace[|s.trace|] == CommitReturned(true);
    case _ =>
  }

  /**
   A run all of whose answers are good, and that is not cancelled, never rolls back; when it has finished, it has
   committed and reports success.
   */
  lemma {:induction false} GoodRunCommits(c: Config, g: Grant, actions: seq<Action>)
    requires AcquiredValid(c, g) && forall a | a in actions :: Good(c, g, a)
    ensures OnCourse(g, Run(c, actions))
    ensures Run(c, actions).main.Finished? ==>
              Run(c, actions).main.result.None? && CommitReturned(true) in Run(c, actions).trace
  {
    if actions != [] {
      hide Act, Good, HistoryOk;
      RunKeeps(c, actions[..|actions| - 1]);
      assert actions[|actions| - 1] in actions;
      GoodRunCommits(c, g, actions[..|actions| - 1]);
      GoodAnswerStaysOnCourse(c, g, Run(c, actions[..|actions| - 1]), actions[|actions| - 1]);
    }
  }

  // ---- What an error retains ----

  /** The failure an event stands for, if it is one of its own. */
  function Fault(c: Config, g: Option<Grant>, e: Event): Option<(Kind, At)> {
    match e
    case AcquireReturned(r) =>
      if r.Err? then Some((r.error.kind, r.error.step))
      else if !AcquiredValid(c, r.value) then Some((LostLease, FiduciaAcquire))
      else None
    case TxRefused => Some((Database, PgBegin))
    case LockPolled(poll) =>
      if poll.Busy? && !c.wait then Some((Contention, PgLock))
      else if poll.TimedOut? && c.wait then Some((Timeout, PgLock))
      else None
    case WorkReturned(ok) => if ok then None else Some((Work, WorkStep))
    case RenewReturned(_, r) =>
      if g.None? || RenewChecked(c, g.value, r).None? then None
      else Some((RenewChecked(c, g.value, r).value.kind, RenewChecked(c, g.value, r).value.step))
    case CommitReturned(ok) => if ok then None else Some((Database, PgCommit))
    case RollbackReturned(o) => if o.RollbackFailed? then Some((Database, PgRollback)) else None
    case ReleaseReturned(r) =>
      if r.Err? then Some((r.error.kind, r.error.step))
      else if !r.value then Some((LostLease, FiduciaRelease))
      else None
    case _ => None
  }

  /** The failures an error names, itself and what it retained. */
  function Named(e: Option<Error>): set<(Kind, At)>
    decreases e
  {
    if e.None? then {} else {(e.value.kind, e.value.step)} + Named(e.value.inner)
  }

  /** What the main goroutine has in hand. */
  function InHand(s: State): Option<Error> {
    match s.main
    case Stopping(_, inner) => inner
    case RollingBack(cause) => Some(cause)
    case Releasing(inner) => inner
    case Finished(result) => result
    case _ => None
  }

  /** What the run would report now: the failure it has in hand and, until the join, the maintainer's. */
  function Reported(s: State): set<(Kind, At)> {
    Named(InHand(s)) +
    if s.failure.Some? && (s.main.Beginning? || s.main.Locking? || s.main.Working? || s.main.Stopping?) then
      {(s.failure.value.kind, s.failure.value.step)}
    else {}
  }

  predicate Retains(c: Config, g: Option<Grant>, trace: seq<Event>, named: set<(Kind, At)>) {
    forall i | 0 <= i < |trace| && Fault(c, g, trace[i]).Some? :: Fault(c, g, trace[i]).value in named
  }

  lemma {:induction false} CleanupNames(cleanup: Error, inner: Option<Error>)
    ensures Named(inner) + {(cleanup.kind, cleanup.step)} <= Named(Some(CleanupFailure(cleanup, inner)))
  {
  }

  lemma {:induction false} AppendRetains(
    c: Config, g: Option<Grant>, trace: seq<Event>, e: Event, before: set<(Kind, At)>, after: set<(Kind, At)>)
    requires Retains(c, g, trace, before) && before <= after
    requires Fault(c, g, e).Some? ==> Fault(c, g, e).value in after
    ensures Retains(c, g, trace + [e], after)
  {
    hide Fault;
    var longer := trace + [e];
    forall i | 0 <= i < |longer| && Fault(c, g, longer[i]).Some?
      ensures Fault(c, g, longer[i]).value in after
    {
      assert longer[i] == if i < |trace| then trace[i] else e;
    }
  }

  /** No step forgets what the run would report. */
  lemma {:induction false} NothingForgotten(c: Config, s: State, a: Action)
    requires Inv(c, s) && !a.AcquireReturns?
    ensures Reported(s) <= Reported(Act(c, s, a))
  {
    hide RenewChecked, FinalSent, Kept, AcquiredValid, Refusal, AllKept;
    match a
    case StopJoins =>
      if s.failure.Some? && s.main.Stopping? {
        CleanupNames(s.failure.value, s.main.inner);
      }
    case RollbackReturns(o) =>
      if s.main.RollingBack? {
        CleanupNames(Error(Database, PgRollback, None), Some(s.main.cause));
      }
    case ReleaseReturns(r) =>
      if s.main.Releasing? {
        CleanupNames(if r.Err? then r.error else Error(LostLease, FiduciaRelease, None), s.main.inner);
      }
    case _ =>
      hide CleanupFailure;
  }

  /** The failures that the events of one step stand for. */
  predicate FaultsReported(c: Config, t: State, from: nat) {
    forall i | from <= i < |t.trace| && Fault(c, t.grant, t.trace[i]).Some? :: Fault(c, t.grant, t.trace[i]).value in Reported(t)
  }

  lemma {:induction false} RenewalFaultsReported(c: Config, s: State, a: Action)
    requires Inv(c, s) && (a.RenewReturns? || a.FinalRenewReturns?)
    ensures FaultsReported(c, Act(c, s, a), |s.trace|)
  {
    hide RenewChecked, AcquiredValid, AllKept, FinalSent;
  }

  lemma {:induction false} WorkFaultsReported(c: Config, s: State, a: Action)
    requires Inv(c, s) && (a.AcquireReturns? || a.BeginReturns? || a.PollReturns? || a.WorkReturns?)
    ensures FaultsReported(c, Act(c, s, a), |s.trace|)
  {
    hide RenewChecked, AllKept, FinalSent, CleanupFailure, AcquiredValid, Engaged;
  }

  lemma {:induction false} EndFaultsReported(c: Config, s: State, a: Action)
    requires Inv(c, s) && (a.CommitReturns? || a.RollbackReturns? || a.ReleaseReturns? || a.StopJoins?)
    ensures FaultsReported(c, Act(c, s, a), |s.trace|)
  {
    hide RenewChecked, AcquiredValid, AllKept, FinalSent;
  }

  lemma {:induction false} NewFaultsAreReported(c: Config, s: State, a: Action)
    requires Inv(c, s)
    ensures FaultsReported(c, Act(c, s, a), |s.trace|)
  {
    if a.RenewReturns? || a.FinalRenewReturns? {
      RenewalFaultsReported(c, s, a);
    } else if a.CommitReturns? || a.RollbackReturns? || a.ReleaseReturns? || a.StopJoins? {
      EndFaultsReported(c, s, a);
    } else if a.AcquireReturns? || a.BeginReturns? || a.PollReturns? || a.WorkReturns? {
      WorkFaultsReported(c, s, a);
    } else {
      hide RenewChecked, AllKept, FinalSent, CleanupFailure, Refusal, AcquiredValid, Engaged;
    }
  }

  lemma {:induction false} StepRetains(c: Config, s: State, a: Action)
    requires Inv(c, s) && Retains(c, s.grant, s.trace, Reported(s))
    ensures var t := Act(c, s, a); Retains(c, t.grant, t.trace, Reported(t))
  {
    var t := Act(c, s, a);
    NewFaultsAreReported(c, s, a);
    if a.AcquireReturns? {
      assert s.main.Acquiring? ==> s.trace == [];
      hide RenewChecked, AcquiredValid, Fault;
    } else {
      NothingForgotten(c, s, a);
      StepAppends(c, s, a);
      hide Act, Fault, Reported;
    }
  }

  /**
   No failure is lost: whatever of transaction, lock, work, renewals, commit, rollback or release has failed is named by
   the error that a finished run returns, itself or among those it retained.
   */
  lemma {:induction false} FailuresAreRetained(c: Config, actions: seq<Action>)
    ensures var s := Run(c, actions); Retains(c, s.grant, s.trace, Reported(s))
    ensures var s := Run(c, actions);
            s.main.Finished? ==> Retains(c, s.grant, s.trace, Named(s.main.result))
  {
    if actions != [] {
      hide Act, Inv, HistoryOk, Retains;
      FailuresAreRetained(c, actions[..|actions| - 1]);
      RunKeeps(c, actions[..|actions| - 1]);
      StepRetains(c, Run(c, actions[..|actions| - 1]), actions[|actions| - 1]);
    }
    var s := Run(c, actions);
    assert s.main.Finished? ==> Reported(s) == Named(s.main.result);
  }
}
