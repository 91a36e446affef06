/**
 The maintained transaction: database work on one goroutine, periodic renewal on another, COMMIT only after a final
 renewal. Every outcome of the authority, the database and the work is an input, in every interleaving.
 */
module Maintained {
  import opened Outcomes

  datatype Kind = Contention | Timeout | LostLease | Transport | Database | Work | InvalidPlan

  datatype At = FiduciaAcquire | FiduciaRenew | FiduciaRelease | PgBegin | PgLock | PgCommit | PgRollback | WorkStep

  /** A structured failure; `inner` is an earlier failure that a cleanup failure retained. */
  datatype Error = Error(kind: Kind, step: At, inner: Option<Error>)

  datatype Grant = Grant(key: string, holder: string, token: nat, expires: int, ttl: int)

  datatype Config = Config(key: string, holder: string, ttl: int, wait: bool)

  function CleanupFailure(cleanup: Error, inner: Option<Error>): Error {
    if inner.None? then cleanup else cleanup.(inner := inner)
  }

  /** `holder` is empty when the caller lets the adapter choose one. */
  predicate AcquiredValid(c: Config, g: Grant) {
    && g.key == c.key && g.holder != "" && (c.holder != "" ==> g.holder == c.holder)
    && g.ttl == c.ttl && g.expires >= 0
  }

  predicate Kept(c: Config, original: Grant, renewed: Grant) {
    && renewed.key == original.key && renewed.holder == original.holder && renewed.token == original.token
    && renewed.ttl == c.ttl && renewed.expires >= 0
  }

  /** None when the renewal proves continued authority, else the failure. */
  function RenewChecked(c: Config, original: Grant, r: Result<Grant, Error>): Option<Error> {
    match r
    case Err(e) => Some(e)
    case Ok(renewed) => if Kept(c, original, renewed) then None else Some(Error(LostLease, FiduciaRenew, None))
  }

  datatype LockPoll = Got | Busy | TimedOut | Cancelled | Broken

  datatype RollbackOutcome = RolledBack | AlreadyDone | RollbackFailed

  /** What the authority, the database and the two goroutines do, in order. */
  datatype Event =
    | AcquireReturned(r: Result<Grant, Error>)
    | RenewCalled(final: bool)
    | RenewReturned(final: bool, r: Result<Grant, Error>)
    | MaintainerExited
    | TxBegun
    | TxRefused
    | LockPolled(poll: LockPoll)
    | WorkReturned(ok: bool)
    | CommitCalled
    | CommitReturned(ok: bool)
    | RollbackReturned(o: RollbackOutcome)
    | ReleaseCalled
    | ReleaseReturned(released: Result<bool, Error>)

  datatype Main =
    | Acquiring
    | Beginning
    | Locking
    | Working
    | Stopping(begun: bool, inner: Option<Error>)
    | FinalRenewing
    | Committing
    | RollingBack(cause: Error)
    | Releasing(inner: Option<Error>)
    | Finished(result: Option<Error>)

  datatype Maintainer = NotStarted | Selecting | Renewing | Exited

  datatype State = State(
    main: Main,
    maintainer: Maintainer,
    failure: Option<Error>,
    cancelled: bool,
    grant: Option<Grant>,
    trace: seq<Event>)

  const INITIAL := State(Acquiring, NotStarted, None, false, None, [])

  datatype Action =
    | CallerCancels
    | AcquireReturns(a: Result<Grant, Error>)
    | BeginReturns(ok: bool)
    | PollReturns(poll: LockPoll)
    | WorkReturns(ok: bool)
    | TickFires
    | RenewReturns(a: Result<Grant, Error>)
    | MaintainerStops
    | StopJoins
    | FinalRenewReturns(a: Result<Grant, Error>)
    | CommitReturns(ok: bool)
    | RollbackReturns(o: RollbackOutcome)
    | ReleaseReturns(b: Result<bool, Error>)

  function Log(s: State, e: Event): State {
    s.(trace := s.trace + [e])
  }

  function Settle(s: State, inner: Option<Error>): State {
    Log(s, ReleaseCalled).(main := Releasing(inner))
  }

  /** Why the advisory-lock loop ends without the lock at this poll; None when it polls again. */
  function Refusal(c: Config, s: State, poll: LockPoll): Option<Error> {
    match poll
    case Got => None
    case Busy => if c.wait then None else Some(Error(Contention, PgLock, None))
    case TimedOut => if c.wait then Some(Error(Timeout, PgLock, None)) else None
    case Cancelled =>
      if s.failure.Some? then s.failure
      else if s.cancelled then Some(Error(Work, WorkStep, None))
      else None
    case Broken => if s.failure.Some? then s.failure else Some(Error(Database, PgLock, None))
  }

  /** The stop channel is closed once the main goroutine is in `stop`. */
  function Act(c: Config, s: State, a: Action): State {
    match a
    case CallerCancels => s.(cancelled := true)

    case AcquireReturns(r) =>
      if !s.main.Acquiring? then s
      else
        var t := Log(s, AcquireReturned(r));
        if r.Err? then t.(main := Finished(Some(r.error)))
        else if !AcquiredValid(c, r.value) then
          Settle(t.(grant := Some(r.value)), Some(Error(LostLease, FiduciaAcquire, None)))
        else t.(grant := Some(r.value), main := Beginning, maintainer := Selecting)

    case BeginReturns(ok) =>
      if !s.main.Beginning? then s
      else if ok then Log(s, TxBegun).(main := Locking)
      else Log(s, TxRefused).(main := Stopping(false, Some(Error(Database, PgBegin, None))))

    case PollReturns(poll) =>
      if !s.main.Locking? then s
      else
        var t := Log(s, LockPolled(poll));
        var refusal := Refusal(c, s, poll);
        if poll.Got? then t.(main := Working)
        else if refusal.Some? then t.(main := Stopping(true, refusal))
        else t

    case WorkReturns(ok) =>
      if !s.main.Working? then s
      else Log(s, WorkReturned(ok)).(main := Stopping(true, if ok then None else Some(Error(Work, WorkStep, None))))

    case TickFires =>
      if s.maintainer.Selecting? then Log(s, RenewCalled(false)).(maintainer := Renewing) else s

    case RenewReturns(r) =>
      if !s.maintainer.Renewing? || s.grant.None? then s
      else
        var t := Log(s, RenewReturned(false, r));
        var failure := RenewChecked(c, s.grant.value, r);
        if failure.None? then t.(maintainer := Selecting)
        else Log(t, MaintainerExited).(maintainer := Exited, failure := failure)

    case MaintainerStops =>
      if s.maintainer.Selecting? && (s.cancelled || s.main.Stopping?) then Log(s, MaintainerExited).(maintainer := Exited)
      else s

    case StopJoins =>
      if !s.main.Stopping? || !s.maintainer.Exited? then s
      else
        var inner := if s.failure.Some? then Some(CleanupFailure(s.failure.value, s.main.inner)) else s.main.inner;
        if !s.main.begun then Settle(s, inner)
        else if inner.Some? then s.(main := RollingBack(inner.value))
        else if s.cancelled then s.(main := RollingBack(Error(Work, WorkStep, None)))
        else Log(s, RenewCalled(true)).(main := FinalRenewing)

    case FinalRenewReturns(r) =>
      if !s.main.FinalRenewing? || s.grant.None? then s
      else
        var t := Log(s, RenewReturned(true, r));
        var failure := RenewChecked(c, s.grant.value, r);
        if failure.Some? then t.(main := RollingBack(failure.value)) else Log(t, CommitCalled).(main := Committing)

    case CommitReturns(ok) =>
      if !s.main.Committing? then s
      else Settle(Log(s, CommitReturned(ok)), if ok then None else Some(Error(Database, PgCommit, None)))

    case RollbackReturns(o) =>
      if !s.main.RollingBack? then s
      else
        var inner := if o.RollbackFailed? then CleanupFailure(Error(Database, PgRollback, None), Some(s.main.cause))
                     else s.main.cause;
        Settle(Log(s, RollbackReturned(o)), Some(inner))

    case ReleaseReturns(r) =>
      if !s.main.Releasing? then s
      else
        var cleanup := match r
                       case Err(e) => Some(e)
                       case Ok(released) => if released then None else Some(Error(LostLease, FiduciaRelease, None));
        var result := if cleanup.Some? then Some(CleanupFailure(cleanup.value, s.main.inner)) else s.main.inner;
        Log(s, ReleaseReturned(r)).(main := Finished(result))
  }

  function Run(c: Config, actions: seq<Action>): State {
    if actions == [] then INITIAL else Act(c, Run(c, actions[..|actions| - 1]), actions[|actions| - 1])
  }

  // ---- What the history shows ----

  predicate AllKept(c: Config, g: Grant, trace: seq<Event>) {
    forall i | 0 <= i < |trace| && trace[i].RenewReturned? :: RenewChecked(c, g, trace[i].r).None?
  }

  predicate Over(trace: seq<Event>) {
    exists i | 0 <= i < |trace| :: trace[i].CommitReturned? || trace[i].RollbackReturned?
  }

  /** COMMIT at `i` directly follows a final renewal that was sent after the work and the maintainer had ended. */
  predicate CommitAdmitted(c: Config, g: Option<Grant>, trace: seq<Event>, i: nat)
    requires i < |trace|
  {
    && g.Some? && AcquiredValid(c, g.value)
    && i >= 2 && trace[i - 2] == RenewCalled(true) && trace[i - 1].RenewReturned? && trace[i - 1].final
    && AcquireReturned(Ok(g.value)) in trace[..i - 2]
    && TxBegun in trace[..i - 2] && LockPolled(Got) in trace[..i - 2]
    && WorkReturned(true) in trace[..i - 2] && MaintainerExited in trace[..i - 2]
    && AllKept(c, g.value, trace[..i])
  }

  /** RELEASE at `i` is the first, of a grant acquired before, with the transaction and the maintainer over. */
  predicate ReleaseDue(c: Config, g: Option<Grant>, trace: seq<Event>, i: nat)
    requires i < |trace|
  {
    && g.Some? && AcquireReturned(Ok(g.value)) in trace[..i]
    && ReleaseCalled !in trace[..i]
    && (TxBegun in trace[..i] ==> Over(trace[..i]))
    && (AcquiredValid(c, g.value) ==> MaintainerExited in trace[..i])
  }

  /** After RELEASE nothing happens but its own return. */
  predicate NothingAfterRelease(trace: seq<Event>) {
    forall i, j | 0 <= i < j < |trace| && trace[i].ReleaseCalled? :: j == i + 1 && trace[j].ReleaseReturned?
  }

  predicate HistoryOk(c: Config, g: Option<Grant>, trace: seq<Event>) {
    && (forall i | 0 <= i < |trace| && trace[i].CommitCalled? :: CommitAdmitted(c, g, trace, i))
    && (forall i | 0 <= i < |trace| && trace[i].ReleaseCalled? :: ReleaseDue(c, g, trace, i))
    && NothingAfterRelease(trace)
  }

  // ---- What every step keeps ----

  /** Between a valid grant and its release. */
  predicate Engaged(c: Config, s: State) {
    && s.grant.Some? && AcquiredValid(c, s.grant.value) && AcquireReturned(Ok(s.grant.value)) in s.trace
    && !s.maintainer.NotStarted? && (s.maintainer.Exited? <==> MaintainerExited in s.trace)
    && (if s.failure.None? then s.main.RollingBack? || AllKept(c, s.grant.value, s.trace) else s.maintainer.Exited?)
    && ReleaseCalled !in s.trace && ReleaseReturned(Ok(true)) !in s.trace && CommitReturned(true) !in s.trace
  }

  predicate FinalSent(g: Grant, trace: seq<Event>) {
    && trace != [] && trace[|trace| - 1] == RenewCalled(true)
    && var before := trace[..|trace| - 1];
       && AcquireReturned(Ok(g)) in before && TxBegun in before && LockPolled(Got) in before
       && WorkReturned(true) in before && MaintainerExited in before
  }

  predicate Inv(c: Config, s: State) {
    match s.main
    case Acquiring => s.trace == [] && s.maintainer.NotStarted? && s.grant.None? && s.failure.None?
    case Beginning => Engaged(c, s) && TxBegun !in s.trace && CommitCalled !in s.trace
    case Locking => Engaged(c, s) && TxBegun in s.trace && CommitCalled !in s.trace
    case Working => Engaged(c, s) && TxBegun in s.trace && LockPolled(Got) in s.trace && CommitCalled !in s.trace
    case Stopping(begun, inner) =>
      && Engaged(c, s) && (begun <==> TxBegun in s.trace) && CommitCalled !in s.trace
      && (inner.None? ==> begun && LockPolled(Got) in s.trace && WorkReturned(true) in s.trace)
    case FinalRenewing =>
      Engaged(c, s) && s.failure.None? && s.maintainer.Exited? && FinalSent(s.grant.value, s.trace) && CommitCalled !in s.trace
    case Committing => Engaged(c, s) && s.maintainer.Exited?
    case RollingBack(_) => Engaged(c, s) && s.maintainer.Exited? && CommitCalled !in s.trace
    case Releasing(inner) =>
      && s.grant.Some? && (s.maintainer.NotStarted? || s.maintainer.Exited?)
      && s.trace != [] && s.trace[|s.trace| - 1] == ReleaseCalled
      && (inner.None? <==> CommitReturned(true) in s.trace) && ReleaseReturned(Ok(true)) !in s.trace
    case Finished(result) =>
      && (s.maintainer.NotStarted? || s.maintainer.Exited?)
      && (s.grant.Some? <==> ReleaseCalled in s.trace)
      && (s.grant.None? ==> |s.trace| == 1 && s.trace[0].AcquireReturned? && s.trace[0].r.Err?)
      && (result.None? <==> CommitReturned(true) in s.trace && ReleaseReturned(Ok(true)) in s.trace)
  }

  lemma {:induction false} AdmittedStays(c: Config, g: Option<Grant>, trace: seq<Event>, e: Event, i: nat)
    requires i < |trace| && CommitAdmitted(c, g, trace, i)
    ensures CommitAdmitted(c, g, trace + [e], i)
  {
    hide AcquiredValid, AllKept;
    assert (trace + [e])[..i] == trace[..i] && (trace + [e])[..i - 2] == trace[..i - 2];
  }

  lemma {:induction false} DueStays(c: Config, g: Option<Grant>, trace: seq<Event>, e: Event, i: nat)
    requires i < |trace| && ReleaseDue(c, g, trace, i)
    ensures ReleaseDue(c, g, trace + [e], i)
  {
    hide AcquiredValid, Over;
    assert (trace + [e])[..i] == trace[..i];
  }

  lemma {:induction false} AppendKeepsHistory(c: Config, g: Option<Grant>, trace: seq<Event>, e: Event)
    requires HistoryOk(c, g, trace)
    requires ReleaseCalled in trace ==> e.ReleaseReturned? && trace[|trace| - 1].ReleaseCalled?
    requires e.CommitCalled? ==> CommitAdmitted(c, g, trace + [e], |trace|)
    requires e.ReleaseCalled? ==> ReleaseDue(c, g, trace + [e], |trace|)
    ensures HistoryOk(c, g, trace + [e])
  {
    hide CommitAdmitted, ReleaseDue;
    var longer := trace + [e];
    forall i | 0 <= i < |longer| && longer[i].CommitCalled?
      ensures CommitAdmitted(c, g, longer, i)
    {
      if i < |trace| {
        AdmittedStays(c, g, trace, e, i);
      }
    }
    forall i | 0 <= i < |longer| && longer[i].ReleaseCalled?
      ensures ReleaseDue(c, g, longer, i)
    {
      if i < |trace| {
        DueStays(c, g, trace, e, i);
      }
    }
    forall i, j | 0 <= i < j < |longer| && longer[i].ReleaseCalled?
      ensures j == i + 1 && longer[j].ReleaseReturned?
    {
      assert longer[i] == trace[i] == ReleaseCalled;
    }
  }

  lemma {:induction false} MaintainerKeepsInv(c: Config, s: State, a: Action)
    requires Inv(c, s) && (a.CallerCancels? || a.TickFires? || a.RenewReturns? || a.MaintainerStops?)
    ensures Inv(c, Act(c, s, a))
  {
    AppendKeepsKept(c, s, RenewCalled(false));
    AppendKeepsKept(c, s, MaintainerExited);
    if a.RenewReturns? && s.grant.Some? && RenewChecked(c, s.grant.value, a.a).None? && AllKept(c, s.grant.value, s.trace) {
      assert AllKept(c, s.grant.value, s.trace + [RenewReturned(false, a.a)]);
    }
    hide AcquiredValid, Refusal, CleanupFailure, AllKept, Kept, FinalSent;
  }

  lemma {:induction false} AcquireKeepsInv(c: Config, s: State, r: Result<Grant, Error>)
    requires Inv(c, s)
    ensures Inv(c, Act(c, s, AcquireReturns(r)))
  {
    hide AcquiredValid, RenewChecked, CleanupFailure, FinalSent;
  }

  lemma {:induction false} AppendKeepsKept(c: Config, s: State, e: Event)
    requires !e.RenewReturned?
    ensures s.grant.Some? && AllKept(c, s.grant.value, s.trace) ==> AllKept(c, s.grant.value, s.trace + [e])
  {
    hide RenewChecked;
  }

  lemma {:induction false} WorkPathKeepsInv(c: Config, s: State, a: Action)
    requires Inv(c, s) && (a.BeginReturns? || a.PollReturns? || a.WorkReturns?)
    ensures Inv(c, Act(c, s, a))
  {
    AppendKeepsKept(c, s, TxBegun);
    AppendKeepsKept(c, s, TxRefused);
    if a.PollReturns? {
      AppendKeepsKept(c, s, LockPolled(a.poll));
    } else if a.WorkReturns? {
      AppendKeepsKept(c, s, WorkReturned(a.ok));
    }
    hide AcquiredValid, RenewChecked, CleanupFailure, AllKept, FinalSent;
  }

  lemma {:induction false} FinalRenewalIsSent(c: Config, s: State)
    requires Engaged(c, s) && s.maintainer.Exited?
    requires TxBegun in s.trace && LockPolled(Got) in s.trace && WorkReturned(true) in s.trace
    ensures FinalSent(s.grant.value, s.trace + [RenewCalled(true)])
  {
    hide AcquiredValid, AllKept;
    assert (s.trace + [RenewCalled(true)])[..|s.trace|] == s.trace;
  }

  lemma {:induction false} StopKeepsInv(c: Config, s: State)
    requires Inv(c, s)
    ensures Inv(c, Act(c, s, StopJoins))
  {
    hide AcquiredValid, Refusal, RenewChecked, CleanupFailure, FinalSent;
    if s.main.Stopping? && Act(c, s, StopJoins).main.FinalRenewing? {
      FinalRenewalIsSent(c, s);
    } else {
      hide AllKept;
    }
  }

  lemma {:induction false} FinalRenewKeepsInv(c: Config, s: State, r: Result<Grant, Error>)
    requires Inv(c, s)
    ensures Inv(c, Act(c, s, FinalRenewReturns(r)))
  {
    hide AcquiredValid, Refusal, CleanupFailure, Kept;
    if s.main.FinalRenewing? {
      assert s.trace == s.trace[..|s.trace| - 1] + [RenewCalled(true)];
    }
  }

  lemma {:induction false} EndKeepsInv(c: Config, s: State, a: Action)
    requires Inv(c, s) && (a.CommitReturns? || a.RollbackReturns? || a.ReleaseReturns?)
    ensures Inv(c, Act(c, s, a))
  {
    hide AcquiredValid, Refusal, RenewChecked, AllKept;
  }

  /** The final renewal came back intact: COMMIT may be called. */
  lemma {:induction false} FinalRenewalAdmits(c: Config, s: State, r: Result<Grant, Error>)
    requires Inv(c, s) && s.main.FinalRenewing? && RenewChecked(c, s.grant.value, r).None?
    ensures CommitAdmitted(c, s.grant, s.trace + [RenewReturned(true, r)] + [CommitCalled], |s.trace| + 1)
  {
    var trace := s.trace + [RenewReturned(true, r)] + [CommitCalled];
    var i := |s.trace| + 1;
    assert trace[..i - 2] == s.trace[..|s.trace| - 1];
    assert trace[..i] == s.trace + [RenewReturned(true, r)];
  }

  lemma {:induction false} SettleIsDue(c: Config, s: State, trace: seq<Event>)
    requires s.grant.Some? && AcquireReturned(Ok(s.grant.value)) in trace && ReleaseCalled !in trace
    requires TxBegun in trace ==> Over(trace)
    requires AcquiredValid(c, s.grant.value) ==> MaintainerExited in trace
    ensures ReleaseDue(c, s.grant, trace + [ReleaseCalled], |trace|)
  {
    assert (trace + [ReleaseCalled])[..|trace|] == trace;
  }

  /** The steps that neither commit nor release append plain events, all before the release. */
  lemma {:induction false} PlainStepKeepsHistory(c: Config, s: State, a: Action)
    requires Inv(c, s) && HistoryOk(c, s.grant, s.trace)
    requires !a.AcquireReturns? && !a.StopJoins? && !a.FinalRenewReturns? && !a.CommitReturns? && !a.RollbackReturns?
    ensures var t := Act(c, s, a); HistoryOk(c, t.grant, t.trace)
  {
    hide AcquiredValid, RenewChecked, AllKept, CleanupFailure, Refusal, HistoryOk, FinalSent;
    match a
    case RenewReturns(r) =>
      if Act(c, s, a) != s {
        AppendKeepsHistory(c, s.grant, s.trace, RenewReturned(false, r));
        AppendKeepsHistory(c, s.grant, s.trace + [RenewReturned(false, r)], MaintainerExited);
      }
    case BeginReturns(ok) =>
      if s.main.Beginning? {
        AppendKeepsHistory(c, s.grant, s.trace, if ok then TxBegun else TxRefused);
      }
    case PollReturns(poll) =>
      if s.main.Locking? {
        AppendKeepsHistory(c, s.grant, s.trace, LockPolled(poll));
      }
    case WorkReturns(ok) =>
      if s.main.Working? {
        AppendKeepsHistory(c, s.grant, s.trace, WorkReturned(ok));
      }
    case TickFires =>
      if s.maintainer.Selecting? {
        AppendKeepsHistory(c, s.grant, s.trace, RenewCalled(false));
      }
    case MaintainerStops =>
      if Act(c, s, a) != s {
        AppendKeepsHistory(c, s.grant, s.trace, MaintainerExited);
      }
    case ReleaseReturns(r) =>
      if s.main.Releasing? {
        AppendKeepsHistory(c, s.grant, s.trace, ReleaseReturned(r));
      }
    case _ =>
  }

  lemma {:induction false} AcquireKeepsHistory(c: Config, s: State, r: Result<Grant, Error>)
    requires Inv(c, s) && s.main.Acquiring?
    ensures var t := Act(c, s, AcquireReturns(r)); HistoryOk(c, t.grant, t.trace)
  {
    var t := Act(c, s, AcquireReturns(r));
    AppendKeepsHistory(c, t.grant, [], AcquireReturned(r));
    assert [] + [AcquireReturned(r)] == [AcquireReturned(r)];
    if t.main.Releasing? {
      SettleIsDue(c, t, [AcquireReturned(r)]);
      AppendKeepsHistory(c, t.grant, [AcquireReturned(r)], ReleaseCalled);
    }
  }

  lemma {:induction false} DecidingStepKeepsHistory(c: Config, s: State, a: Action)
    requires Inv(c, s) && HistoryOk(c, s.grant, s.trace)
    requires a.AcquireReturns? || a.StopJoins? || a.FinalRenewReturns? || a.CommitReturns? || a.RollbackReturns?
    ensures var t := Act(c, s, a); HistoryOk(c, t.grant, t.trace)
  {
    hide AcquiredValid, Kept, AllKept, CleanupFailure, HistoryOk, FinalSent, CommitAdmitted, ReleaseDue;
    var t := Act(c, s, a);
    if t == s {
    } else if a.AcquireReturns? {
      AcquireKeepsHistory(c, s, a.a);
    } else if a.FinalRenewReturns? {
      AppendKeepsHistory(c, s.grant, s.trace, RenewReturned(true, a.a));
      if t.main.Committing? {
        FinalRenewalAdmits(c, s, a.a);
        AppendKeepsHistory(c, s.grant, s.trace + [RenewReturned(true, a.a)], CommitCalled);
      }
    } else if a.StopJoins? {
      if t.main.Releasing? {
        SettleIsDue(c, s, s.trace);
        AppendKeepsHistory(c, s.grant, s.trace, ReleaseCalled);
      } else {
        AppendKeepsHistory(c, s.grant, s.trace, RenewCalled(true));
      }
    } else if a.CommitReturns? {
      SettleAfter(c, s, CommitReturned(a.ok));
    } else {
      SettleAfter(c, s, RollbackReturned(a.o));
    }
  }

  lemma {:induction false} SettleAfter(c: Config, s: State, e: Event)
    requires Engaged(c, s) && s.maintainer.Exited? && HistoryOk(c, s.grant, s.trace)
    requires e.CommitReturned? || e.RollbackReturned?
    ensures HistoryOk(c, s.grant, s.trace + [e] + [ReleaseCalled])
  {
    hide AcquiredValid, AllKept;
    var ended := s.trace + [e];
    AppendKeepsHistory(c, s.grant, s.trace, e);
    assert ended[|s.trace|] == e && Over(ended);
    SettleIsDue(c, s, ended);
    AppendKeepsHistory(c, s.grant, ended, ReleaseCalled);
  }

  lemma {:induction false} StepKeeps(c: Config, s: State, a: Action)
    requires Inv(c, s) && HistoryOk(c, s.grant, s.trace)
    ensures var t := Act(c, s, a); Inv(c, t) && HistoryOk(c, t.grant, t.trace)
  {
    hide Act, HistoryOk;
    if a.AcquireReturns? || a.StopJoins? || a.FinalRenewReturns? || a.CommitReturns? || a.RollbackReturns? {
      DecidingStepKeepsHistory(c, s, a);
    } else {
      PlainStepKeepsHistory(c, s, a);
    }
    if a.CallerCancels? || a.TickFires? || a.RenewReturns? || a.MaintainerStops? {
      MaintainerKeepsInv(c, s, a);
    } else if a.StopJoins? {
      StopKeepsInv(c, s);
    } else if a.FinalRenewReturns? {
      FinalRenewKeepsInv(c, s, a.a);
    } else if a.CommitReturns? || a.RollbackReturns? || a.ReleaseReturns? {
      EndKeepsInv(c, s, a);
    } else if a.AcquireReturns? {
      AcquireKeepsInv(c, s, a.a);
    } else {
      WorkPathKeepsInv(c, s, a);
    }
  }

  lemma {:induction false} RunKeeps(c: Config, actions: seq<Action>)
    ensures var s := Run(c, actions); Inv(c, s) && HistoryOk(c, s.grant, s.trace)
  {
    if actions != [] {
      hide Inv, HistoryOk, Act;
      RunKeeps(c, actions[..|actions| - 1]);
      StepKeeps(c, Run(c, actions[..|actions| - 1]), actions[|actions| - 1]);
    }
  }

  // ---- The theorems ----

  /**
   In every interleaving COMMIT is called only directly after a successful final renewal that was sent once the work
   had succeeded and the maintainer had exited, and only if every renewal kept key, holder, token and TTL.
   */
  lemma {:induction false} CommitOnlyAfterFinalRenewal(c: Config, actions: seq<Action>, i: nat)
    requires i < |Run(c, actions).trace| && Run(c, actions).trace[i].CommitCalled?
    ensures CommitAdmitted(c, Run(c, actions).grant, Run(c, actions).trace, i)
  {
    RunKeeps(c, actions);
    hide Inv, Run, CommitAdmitted;
  }

  /**
   RELEASE is called at most once, only for a grant that was acquired, with transaction and maintainer over, and
   nothing but its return follows; and a run that has finished has released exactly the grants it acquired.
   */
  lemma {:induction false} ReleasedExactlyOnce(c: Config, actions: seq<Action>)
    ensures var s := Run(c, actions);
            && (forall i, j | 0 <= i < |s.trace| && 0 <= j < |s.trace| ::
                  s.trace[i].ReleaseCalled? && s.trace[j].ReleaseCalled? ==> i == j)
            && (forall i | 0 <= i < |s.trace| && s.trace[i].ReleaseCalled? :: ReleaseDue(c, s.grant, s.trace, i))
            && NothingAfterRelease(s.trace)
            && (s.main.Finished? ==> (s.grant.Some? <==> ReleaseCalled in s.trace))
            && (s.main.Finished? && s.grant.None? ==> |s.trace| == 1 && s.trace[0].AcquireReturned? && s.trace[0].r.Err?)
  {
    RunKeeps(c, actions);
    hide Run, ReleaseDue, CommitAdmitted;
    var s := Run(c, actions);
    forall i, j | 0 <= i < |s.trace| && 0 <= j < |s.trace| && s.trace[i].ReleaseCalled? && s.trace[j].ReleaseCalled?
      ensures i == j
    {
    }
  }

  /** Success is reported exactly when the commit succeeded and the authority confirmed the release. */
  lemma {:induction false} SuccessIsExact(c: Config, actions: seq<Action>)
    requires Run(c, actions).main.Finished?
    ensures var s := Run(c, actions);
            s.main.result.None? <==> CommitReturned(true) in s.trace && ReleaseReturned(Ok(true)) in s.trace
  {
    RunKeeps(c, actions);
    hide Run, HistoryOk;
  }

  // ---- Progress ----

  function Stage(m: Main): nat {
    match m
    case Acquiring => 8
    case Beginning => 7
    case Locking => 6
    case Working => 5
    case Stopping(_, _) => 4
    case FinalRenewing => 3
    case Committing => 2
    case RollingBack(_) => 2
    case Releasing(_) => 1
    case Finished(_) => 0
  }

  /** Replies that a run still waits for, at most, if the ticker does not fire again. */
  function Outstanding(s: State): nat {
    3 * Stage(s.main) + match s.maintainer
                        case Renewing => 2
                        case Selecting => 1
                        case _ => 0
  }

  /** The main goroutine waits for the maintainer to exit. */
  predicate Joining(s: State) {
    s.main.Stopping? && !s.maintainer.Exited?
  }

  /** An answer to what is awaited, whatever it says; a busy advisory lock that is polled again answers nothing. */
  predicate Awaited(c: Config, s: State, a: Action) {
    if s.maintainer.Renewing? && a.RenewReturns? then true
    else
      match s.main
      case Acquiring => a.AcquireReturns?
      case Beginning => a.BeginReturns?
      case Locking => a.PollReturns? && (a.poll.Got? || Refusal(c, s, a.poll).Some?)
      case Working => a.WorkReturns?
      case Stopping(_, _) => if s.maintainer.Exited? then a.StopJoins? else s.maintainer.Selecting? && a.MaintainerStops?
      case FinalRenewing => a.FinalRenewReturns?
      case Committing => a.CommitReturns?
      case RollingBack(_) => a.RollbackReturns?
      case Releasing(_) => a.ReleaseReturns?
      case Finished(_) => false
  }

  /** Every awaited answer, good or bad, brings the run closer to its end. */
  lemma {:induction false} AnswersProgress(c: Config, s: State, a: Action)
    requires Inv(c, s) && Awaited(c, s, a)
    ensures Outstanding(Act(c, s, a)) < Outstanding(s)
  {
    hide RenewChecked, AcquiredValid, AllKept, CleanupFailure, FinalSent, Refusal;
  }

  /** Nothing unfinished is stuck: some answer is awaited, and while joining it is the maintainer's. */
  lemma {:induction false} NeverStuck(c: Config, actions: seq<Action>)
    ensures var s := Run(c, actions);
            && (s.main.Finished? <==> forall a :: !Awaited(c, s, a))
            && (Joining(s) ==>
                  (s.maintainer.Renewing? && forall r :: Awaited(c, s, RenewReturns(r)))
                  || (s.maintainer.Selecting? && Awaited(c, s, MaintainerStops)))
  {
    RunKeeps(c, actions);
    hide Run, HistoryOk, RenewChecked, AcquiredValid, AllKept, CleanupFailure, FinalSent;
    var s := Run(c, actions);
    var failed := Error(Transport, FiduciaRenew, None);
    if !s.main.Finished? {
      var a := match s.main
               case Acquiring => AcquireReturns(Err(failed))
               case Beginning => BeginReturns(false)
               case Locking => PollReturns(Got)
               case Working => WorkReturns(false)
               case Stopping(_, _) =>
                 if s.maintainer.Exited? then StopJoins
                 else if s.maintainer.Selecting? then MaintainerStops
                 else RenewReturns(Err(failed))
               case FinalRenewing => FinalRenewReturns(Err(failed))
               case Committing => CommitReturns(true)
               case RollingBack(_) => RollbackReturns(RolledBack)
               case _ => ReleaseReturns(Ok(true));
      assert Awaited(c, s, a);
    }
  }

  predicate AllAwaited(c: Config, past: seq<Action>, future: seq<Action>) {
    future != [] ==>
      var n := |future| - 1;
      AllAwaited(c, past, future[..n]) && Awaited(c, Run(c, past + future[..n]), future[n])
  }

  /** From any reachable state at most 26 answers are awaited one after another; by then the run has finished. */
  lemma {:induction false} AnswersFinish(c: Config, past: seq<Action>, future: seq<Action>)
    requires AllAwaited(c, past, future)
    ensures |future| + Outstanding(Run(c, past + future)) <= Outstanding(Run(c, past)) <= 26
    ensures |future| == Outstanding(Run(c, past)) ==> Run(c, past + future).main.Finished?
  {
    hide Act, Inv, HistoryOk, Awaited;
    if future == [] {
      assert past + future == past;
    } else {
      var n := |future| - 1;
      AnswersFinish(c, past, future[..n]);
      assert (past + future)[..|past + future| - 1] == past + future[..n];
      var s := Run(c, past + future[..n]);
      assert Run(c, past + future) == Act(c, s, future[n]);
      hide Run, AllAwaited;
      RunKeeps(c, past + future[..n]);
      AnswersProgress(c, s, future[n]);
    }
  }
}
