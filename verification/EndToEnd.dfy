/**
 Lease authorities, clients and a fenced store together. Clients pause, crash, retry, duplicate and reorder as
 they like; only the clock moves forward, and each holder identity belongs to one client.
 */
module EndToEnd {
  import opened Outcomes
  import opened Fence
  import L = LeaseMachine

  /** One delivery of a write: classify, commit atomically, report; a crash anywhere before the end starts over. */
  datatype Phase = Start | Classified(cached: bool) | AfterAtomic(r: Result<Decision, Error>) | Done(r: Result<Decision, Error>)

  datatype Attempt = Attempt(client: string, write: Write, phase: Phase)

  datatype Entry = Entry(client: string, write: Write)

  /** A grant some client has been told about: who, for which key, with which token. */
  datatype Told = Told(client: string, key: string, token: nat)

  datatype System = System(
    clock: int,
    leases: Leases,
    told: set<Told>,
    attempts: seq<Attempt>,
    store: Store,
    applied: seq<Entry>)

  datatype Action =
    | Tick(d: nat)
    | Call(key: string, request: L.Request)
    | Send(client: string, write: Write)
    | ClassifyWrite(i: nat)
    | CommitWrite(i: nat)
    | Crash(i: nat)
    | Return(i: nat)

  const INITIAL := System(0, map[], {}, [], map[], [])

  type Leases = map<string, L.State>

  function Authority(leases: Leases, key: string): L.State {
    if key in leases then leases[key] else L.INITIAL
  }

  function Act(s: System, a: Action): System {
    match a
    case Tick(d) => s.(clock := s.clock + d)
    case Call(key, request) =>
      var (lease, reply) := L.Step(Authority(s.leases, key), s.clock, request);
      s.(leases := s.leases[key := lease],
         told := if reply.Granted? then s.told + {Told(request.holder, key, reply.token)} else s.told)
    case Send(client, write) =>
      if Told(client, write.key, write.token) in s.told then
        s.(attempts := s.attempts + [Attempt(client, write, Start)])
      else s
    case ClassifyWrite(i) =>
      if i < |s.attempts| && s.attempts[i].phase.Start? then
        s.(attempts := s.attempts[i := s.attempts[i].(phase := Classified(Applies(s.store, s.attempts[i].write)))])
      else s
    case CommitWrite(i) =>
      if i < |s.attempts| && s.attempts[i].phase.Classified? then Commit(s, i) else s
    case Crash(i) =>
      if i < |s.attempts| && (s.attempts[i].phase.Classified? || s.attempts[i].phase.AfterAtomic?) then
        s.(attempts := s.attempts[i := s.attempts[i].(phase := Start)])
      else s
    case Return(i) =>
      if i < |s.attempts| && s.attempts[i].phase.AfterAtomic? then
        s.(attempts := s.attempts[i := s.attempts[i].(phase := Done(s.attempts[i].phase.r))])
      else s
  }

  /** The atomic unit decides afresh; the earlier classification plays no part. */
  function Commit(s: System, i: nat): System
    requires i < |s.attempts|
  {
    var attempt := s.attempts[i];
    var (store, r) := Submit(s.store, attempt.write);
    s.(store := store,
       attempts := s.attempts[i := attempt.(phase := AfterAtomic(r))],
       applied := if Applies(s.store, attempt.write) then s.applied + [Entry(attempt.client, attempt.write)] else s.applied)
  }

  function Run(actions: seq<Action>): System {
    if actions == [] then INITIAL else Act(Run(actions[..|actions| - 1]), actions[|actions| - 1])
  }

  // ---- What every step keeps ----

  /** Tokens a client knows were minted by the authority of that key, each to one client only. */
  predicate TokensInv(leases: Leases, told: set<Told>) {
    && (forall k | k in leases :: leases[k].counter.Some? && L.Inv(leases[k]))
    && (forall t | t in told :: TokenOk(Authority(leases, t.key), t))
    && (forall t, u | t in told && u in told && t.key == u.key && t.token == u.token :: t.client == u.client)
  }

  predicate TokenOk(lease: L.State, t: Told) {
    && lease.counter.Some? && t.token <= lease.counter.value
    && (lease.held.Some? && lease.held.value.token == t.token ==> lease.held.value.holder == t.client)
  }

  function ToldOf(client: string, w: Write): Told {
    Told(client, w.key, w.token)
  }

  predicate EntriesInv(told: set<Told>, applied: seq<Entry>) {
    forall i | 0 <= i < |applied| :: ToldOf(applied[i].client, applied[i].write) in told
  }

  /** The log of a pair ends in its watermark and its tokens only grow. */
  predicate LogInv(store: Store, applied: seq<Entry>) {
    && Coherent(store)
    && (forall i | 0 <= i < |applied| :: Covered(store, applied[i].write))
    && (forall p | p in store :: exists i :: 0 <= i < |applied| && applied[i].write == store[p])
    && (forall i, j | 0 <= i < j < |applied| :: InOrder(applied[i].write, applied[j].write))
  }

  predicate Covered(store: Store, w: Write) {
    PairOf(w) in store && w.token <= store[PairOf(w)].token
  }

  predicate InOrder(earlier: Write, later: Write) {
    PairOf(earlier) == PairOf(later) ==> earlier.token < later.token
  }

  predicate InLog(applied: seq<Entry>, w: Write) {
    exists i :: 0 <= i < |applied| && SameEffect(applied[i].write, w)
  }

  /** The same mutation: pair, token, operation and payload. */
  predicate SameEffect(a: Write, b: Write) {
    PairOf(a) == PairOf(b) && a.token == b.token && a.operation == b.operation && a.payload == b.payload
  }

  predicate Confirmed(phase: Phase) {
    match phase
    case AfterAtomic(Ok(d)) => d.kind == Advanced || d.kind == Replay
    case Done(Ok(d)) => d.kind == Advanced || d.kind == Replay
    case _ => false
  }

  /** Sent by a client that knows the token, and in the log if it was reported advanced or replayed. */
  predicate AttemptOk(told: set<Told>, applied: seq<Entry>, a: Attempt) {
    ToldOf(a.client, a.write) in told && (Confirmed(a.phase) ==> InLog(applied, a.write))
  }

  predicate AttemptsInv(told: set<Told>, applied: seq<Entry>, attempts: seq<Attempt>) {
    forall i | 0 <= i < |attempts| :: AttemptOk(told, applied, attempts[i])
  }

  predicate Inv(s: System) {
    && TokensInv(s.leases, s.told)
    && EntriesInv(s.told, s.applied)
    && LogInv(s.store, s.applied)
    && AttemptsInv(s.told, s.applied, s.attempts)
  }

  lemma {:induction false} MachineStep(before: L.State, now: int, request: L.Request, t: Told)
    requires L.Inv(before) && before.counter.Some?
    ensures var (after, reply) := L.Step(before, now, request);
            && L.Inv(after) && after.counter.Some? && after.counter.value >= before.counter.value
            && (TokenOk(before, t) ==> TokenOk(after, t))
            && (reply.Granted? ==>
                  && after.held.Some? && after.held.value.token == reply.token == after.counter.value
                  && after.held.value.holder == request.holder
                  && (reply.token > before.counter.value
                      || (before.held.Some? && before.held.value.token == reply.token
                          && before.held.value.holder == request.holder)))
  {
  }

  lemma {:induction false} CallKeepsTokens(s: System, key: string, request: L.Request)
    requires TokensInv(s.leases, s.told)
    ensures var t := Act(s, Call(key, request));
            TokensInv(t.leases, t.told) && s.told <= t.told
  {
    var t := Act(s, Call(key, request));
    var before := Authority(s.leases, key);
    var (after, reply) := L.Step(before, s.clock, request);
    assert L.Inv(before) && before.counter.Some?;
    MachineStep(before, s.clock, request, Told("", key, 0));
    hide L.Step, L.Inv;
    forall u | u in t.told
      ensures TokenOk(Authority(t.leases, u.key), u)
    {
      if u in s.told && u.key == key {
        MachineStep(before, s.clock, request, u);
      }
    }
    forall u, v | u in t.told && v in t.told && u.key == v.key && u.token == v.token
      ensures u.client == v.client
    {
      if u !in s.told || v !in s.told {
        assert TokenOk(after, u) && TokenOk(after, v);
      }
    }
  }

  lemma {:induction false} CallKeepsInv(s: System, key: string, request: L.Request)
    requires Inv(s)
    ensures Inv(Act(s, Call(key, request)))
  {
    CallKeepsTokens(s, key, request);
    hide TokensInv, L.Step;
    var t := Act(s, Call(key, request));
    assert forall a | AttemptOk(s.told, s.applied, a) :: AttemptOk(t.told, t.applied, a);
  }

  /** Applying a write that beats its watermark keeps the log in order and the watermark at its end. */
  lemma {:induction false} AppendKeepsLog(store: Store, applied: seq<Entry>, e: Entry)
    requires LogInv(store, applied) && Valid(e.write)
    requires PairOf(e.write) in store ==> store[PairOf(e.write)].token < e.write.token
    ensures LogInv(store[PairOf(e.write) := e.write], applied + [e])
  {
    hide Validate;
    var store', applied' := store[PairOf(e.write) := e.write], applied + [e];
    forall p | p in store'
      ensures exists j :: 0 <= j < |applied'| && applied'[j].write == store'[p]
    {
      if p == PairOf(e.write) {
        assert applied'[|applied|].write == store'[p];
      } else {
        var j :| 0 <= j < |applied| && applied[j].write == store[p];
        assert applied'[j].write == store'[p];
      }
    }
    forall i | 0 <= i < |applied'|
      ensures Covered(store', applied'[i].write)
    {
      assert i < |applied| ==> Covered(store, applied[i].write);
    }
    forall i, j | 0 <= i < j < |applied'|
      ensures InOrder(applied'[i].write, applied'[j].write)
    {
      assert Covered(store, applied[i].write);
      assert j < |applied| ==> InOrder(applied[i].write, applied[j].write);
    }
  }

  lemma {:induction false} LogGrows(applied: seq<Entry>, e: Entry, w: Write)
    requires InLog(applied, w)
    ensures InLog(applied + [e], w)
  {
    var j :| 0 <= j < |applied| && SameEffect(applied[j].write, w);
    assert SameEffect((applied + [e])[j].write, w);
  }

  lemma {:induction false} ApplyKeepsInv(s: System, e: Entry)
    requires Inv(s) && Valid(e.write) && ToldOf(e.client, e.write) in s.told
    requires PairOf(e.write) in s.store ==> s.store[PairOf(e.write)].token < e.write.token
    ensures Inv(s.(store := s.store[PairOf(e.write) := e.write], applied := s.applied + [e]))
  {
    AppendKeepsLog(s.store, s.applied, e);
    hide TokensInv, LogInv, Validate, InLog;
    forall i | 0 <= i < |s.attempts|
      ensures AttemptOk(s.told, s.applied + [e], s.attempts[i])
    {
      assert AttemptOk(s.told, s.applied, s.attempts[i]);
      if InLog(s.applied, s.attempts[i].write) {
        LogGrows(s.applied, e, s.attempts[i].write);
      }
    }
  }

  lemma {:induction false} ConfirmedIsLogged(before: Store, w: Write, applied: seq<Entry>)
    requires Coherent(before) && LogInv(Submit(before, w).0, applied)
    requires Confirmed(AfterAtomic(Submit(before, w).1))
    ensures InLog(applied, w)
  {
    var store := Submit(before, w).0;
    DecisionAtStore(before, w);
    hide Submit, Coherent;
    var j :| 0 <= j < |applied| && applied[j].write == store[PairOf(w)];
    assert SameEffect(applied[j].write, w);
  }

  lemma {:induction false} ReplaceAttempt(s: System, i: nat, a: Attempt)
    requires Inv(s) && i < |s.attempts| && AttemptOk(s.told, s.applied, a)
    ensures Inv(s.(attempts := s.attempts[i := a]))
  {
    hide TokensInv, EntriesInv, LogInv, AttemptOk;
  }

  lemma {:induction false} CommitKeepsInv(s: System, i: nat)
    requires Inv(s) && i < |s.attempts|
    ensures Inv(Commit(s, i))
  {
    var attempt := s.attempts[i];
    var (store, r) := Submit(s.store, attempt.write);
    var applied := if Applies(s.store, attempt.write) then s.applied + [Entry(attempt.client, attempt.write)] else s.applied;
    DecisionAtStore(s.store, attempt.write);
    hide Validate, Evaluate, TokensInv, EntriesInv, InLog, Coherent;
    assert AttemptOk(s.told, s.applied, attempt);
    if Applies(s.store, attempt.write) {
      ApplyKeepsInv(s, Entry(attempt.client, attempt.write));
    }
    hide LogInv;
    assert Inv(s.(store := store, applied := applied));
    if Confirmed(AfterAtomic(r)) {
      ConfirmedIsLogged(s.store, attempt.write, applied);
    }
    ReplaceAttempt(s.(store := store, applied := applied), i, attempt.(phase := AfterAtomic(r)));
  }

  lemma {:induction false} StepKeepsInv(s: System, a: Action)
    requires Inv(s)
    ensures Inv(Act(s, a)) && s.applied <= Act(s, a).applied
  {
    hide Validate, Evaluate, L.Step, TokensInv, LogInv, EntriesInv, InLog;
    match a
    case Call(key, request) =>
      CallKeepsInv(s, key, request);
    case CommitWrite(i) =>
      if i < |s.attempts| {
        CommitKeepsInv(s, i);
      }
    case Return(i) =>
      if i < |s.attempts| && s.attempts[i].phase.AfterAtomic? {
        assert AttemptOk(s.told, s.applied, s.attempts[i]);
      }
    case Crash(i) =>
      if i < |s.attempts| {
        assert AttemptOk(s.told, s.applied, s.attempts[i]);
      }
    case ClassifyWrite(i) =>
      if i < |s.attempts| {
        assert AttemptOk(s.told, s.applied, s.attempts[i]);
      }
    case _ =>
  }

  lemma {:induction false} RunKeepsInv(actions: seq<Action>)
    ensures Inv(Run(actions))
  {
    if actions != [] {
      hide Inv, Act;
      RunKeepsInv(actions[..|actions| - 1]);
      StepKeepsInv(Run(actions[..|actions| - 1]), actions[|actions| - 1]);
    }
  }

  // ---- The theorems ----

  /**
   In every reachable state the applied writes of each pair carry strictly increasing tokens, each written by the
   one client to which the authority of that key granted the token.
   */
  lemma {:induction false} AppliedWritesAreFenced(actions: seq<Action>, i: nat)
    requires i < |Run(actions).applied|
    ensures var s, e := Run(actions), Run(actions).applied[i];
            && ToldOf(e.client, e.write) in s.told
            && (forall t | t in s.told && t.key == e.write.key && t.token == e.write.token :: t.client == e.client)
            && forall j | 0 <= j < i && PairOf(s.applied[j].write) == PairOf(e.write) ::
                 s.applied[j].write.token < e.write.token
  {
    RunKeepsInv(actions);
    hide Run, AttemptsInv, Coherent;
    var s := Run(actions);
    assert forall j | 0 <= j < i :: InOrder(s.applied[j].write, s.applied[i].write);
  }

  /** A grant is told to its client only by a step in which the authority answers that client's own acquire. */
  lemma {:induction false} GrantsComeFromTheAuthority(s: System, a: Action, t: Told)
    requires t !in s.told && t in Act(s, a).told
    ensures a.Call? && a.request.Acquire? && a.request.holder == t.client && a.key == t.key
    ensures var reply := L.Step(Authority(s.leases, t.key), s.clock, a.request).1;
            reply.Granted? && reply.token == t.token
  {
  }

  /** Whatever happens later, once a grant's write has applied no write of that or an earlier grant applies. */
  lemma {:induction false} NoStaleWriteEver(past: seq<Action>, future: seq<Action>, i: nat, j: nat)
    requires i < |Run(past).applied| <= j < |Run(past + future).applied|
    requires PairOf(Run(past).applied[i].write) == PairOf(Run(past + future).applied[j].write)
    ensures Run(past).applied[i].write.token < Run(past + future).applied[j].write.token
  {
    RunKeepsInv(past + future);
    AppliedNeverUndone(past, future);
    hide AttemptsInv, TokensInv, EntriesInv, Run, Coherent;
    assert InOrder(Run(past + future).applied[i].write, Run(past + future).applied[j].write);
  }

  lemma {:induction false} AppliedNeverUndone(past: seq<Action>, future: seq<Action>)
    ensures Run(past).applied <= Run(past + future).applied
  {
    if future == [] {
      assert past + future == past;
    } else {
      hide Inv, Act;
      var n := |future| - 1;
      AppliedNeverUndone(past, future[..n]);
      assert (past + future)[..|past + future| - 1] == past + future[..n];
      RunKeepsInv(past + future[..n]);
      StepKeepsInv(Run(past + future[..n]), future[n]);
    }
  }

  /** A write reported advanced or replayed has taken effect exactly once, however often it was sent or crashed. */
  lemma {:induction false} ConfirmedExactlyOnce(actions: seq<Action>, i: nat)
    requires i < |Run(actions).attempts| && Confirmed(Run(actions).attempts[i].phase)
    ensures ExactlyOnce(Run(actions).applied, Run(actions).attempts[i].write)
  {
    RunKeepsInv(actions);
    var s := Run(actions);
    hide TokensInv, EntriesInv, Run, Coherent;
    assert AttemptOk(s.told, s.applied, s.attempts[i]);
    TokensAreUnique(s.store, s.applied, s.attempts[i].write);
  }

  /** One entry has the effect of `w`, and no other entry of its pair carries its token. */
  predicate ExactlyOnce(applied: seq<Entry>, w: Write) {
    exists j :: 0 <= j < |applied| && SameEffect(applied[j].write, w)
      && forall k | 0 <= k < |applied| && k != j ::
           !(PairOf(applied[k].write) == PairOf(w) && applied[k].write.token == w.token)
  }

  lemma {:induction false} TokensAreUnique(store: Store, applied: seq<Entry>, w: Write)
    requires LogInv(store, applied) && InLog(applied, w)
    ensures ExactlyOnce(applied, w)
  {
    hide Coherent;
    var j :| 0 <= j < |applied| && SameEffect(applied[j].write, w);
    forall k | 0 <= k < |applied| && k != j
      ensures !(PairOf(applied[k].write) == PairOf(w) && applied[k].write.token == w.token)
    {
      assert if k < j then InOrder(applied[k].write, applied[j].write) else InOrder(applied[j].write, applied[k].write);
    }
  }

  // ---- What an attempt is told ----

  /** Some applied write of the same pair carries this token or a higher one. */
  predicate Reached(applied: seq<Entry>, w: Write) {
    exists j :: 0 <= j < |applied| && AtLeast(applied[j].write, w)
  }

  predicate AtLeast(a: Write, w: Write) {
    PairOf(a) == PairOf(w) && a.token >= w.token
  }

  predicate Above(a: Write, w: Write) {
    PairOf(a) == PairOf(w) && a.token > w.token
  }

  /** The same token for another operation or payload. */
  predicate Reuses(a: Write, w: Write) {
    PairOf(a) == PairOf(w) && a.token == w.token && !(a.operation == w.operation && a.payload == w.payload)
  }

  /** What an answer says about the log, whatever came after it. */
  predicate Truthful(applied: seq<Entry>, w: Write, r: Result<Decision, Error>) {
    match r
    case Err(e) => Validate(w) == Some(e)
    case Ok(d) =>
      && Valid(w) && Reached(applied, w) && d.incomingToken == w.token
      && (d.shouldApply <==> d.kind == Advanced)
      && match d.kind
         case Advanced => InLog(applied, w)
         case Replay => InLog(applied, w)
         case Stale => exists j :: 0 <= j < |applied| && Above(applied[j].write, w)
         case TokenReuse => exists j :: 0 <= j < |applied| && Reuses(applied[j].write, w)
  }

  function AnswerOf(phase: Phase): Option<Result<Decision, Error>> {
    match phase
    case AfterAtomic(r) => Some(r)
    case Done(r) => Some(r)
    case _ => None
  }

  predicate AllTruthful(applied: seq<Entry>, attempts: seq<Attempt>) {
    forall i | 0 <= i < |attempts| && AnswerOf(attempts[i].phase).Some? ::
      Truthful(applied, attempts[i].write, AnswerOf(attempts[i].phase).value)
  }

  lemma {:induction false} TruthLasts(applied: seq<Entry>, longer: seq<Entry>, w: Write, r: Result<Decision, Error>)
    requires applied <= longer && Truthful(applied, w, r)
    ensures Truthful(longer, w, r)
  {
    hide Validate;
    if r.Ok? {
      var j :| 0 <= j < |applied| && AtLeast(applied[j].write, w);
      assert AtLeast(longer[j].write, w);
      if r.value.kind.Advanced? || r.value.kind.Replay? {
        var k :| 0 <= k < |applied| && SameEffect(applied[k].write, w);
        assert SameEffect(longer[k].write, w);
      } else if r.value.kind.Stale? {
        var k :| 0 <= k < |applied| && Above(applied[k].write, w);
        assert Above(longer[k].write, w);
      } else {
        var k :| 0 <= k < |applied| && Reuses(applied[k].write, w);
        assert Reuses(longer[k].write, w);
      }
    }
  }

  lemma {:induction false} ExplainedIsTruthful(
    after: Store, applied: seq<Entry>, w: Write, r: Result<Decision, Error>, j: nat)
    requires Explains(after, w, r) && (r.Ok? ==> j < |applied| && applied[j].write == after[PairOf(w)])
    ensures Truthful(applied, w, r)
  {
    hide Validate;
    if r.Ok? {
      var mark := applied[j].write;
      assert AtLeast(mark, w);
      assert r.value.kind == Stale ==> Above(mark, w);
      assert r.value.kind == TokenReuse ==> Reuses(mark, w);
      assert r.value.kind == Advanced || r.value.kind == Replay ==> SameEffect(mark, w);
    }
  }

  /** The answer of the atomic unit is true of the log it leaves. */
  lemma {:induction false} CommitIsTruthful(store: Store, applied: seq<Entry>, w: Write)
    requires Coherent(store) && LogInv(Submit(store, w).0, applied)
    ensures Truthful(applied, w, Submit(store, w).1)
  {
    var (after, r) := Submit(store, w);
    EvaluateAtStore(store, w);
    hide Submit, Validate, Coherent, Truthful;
    var j: nat := 0;
    if r.Ok? {
      assert Explains(after, w, r);
      j :| 0 <= j < |applied| && applied[j].write == after[PairOf(w)];
      hide LogInv;
    }
    ExplainedIsTruthful(after, applied, w, r, j);
  }

  lemma {:induction false} StepIsTruthful(s: System, a: Action)
    requires Inv(s) && AllTruthful(s.applied, s.attempts)
    ensures AllTruthful(Act(s, a).applied, Act(s, a).attempts)
  {
    StepKeepsInv(s, a);
    var t := Act(s, a);
    if a.CommitWrite? && a.i < |s.attempts| && s.attempts[a.i].phase.Classified? {
      CommitIsTruthful(s.store, t.applied, s.attempts[a.i].write);
      hide Submit, Applies, Truthful, Inv;
      forall i | 0 <= i < |t.attempts| && AnswerOf(t.attempts[i].phase).Some?
        ensures Truthful(t.applied, t.attempts[i].write, AnswerOf(t.attempts[i].phase).value)
      {
        if i != a.i {
          TruthLasts(s.applied, t.applied, s.attempts[i].write, AnswerOf(s.attempts[i].phase).value);
        }
      }
    } else {
      hide Commit, Truthful, L.Step, Inv;
    }
  }

  /**
   Every answer is true of the log, then and ever after: a write that was decided has its token reached by an applied
   write of its pair, a stale one was overtaken by a strictly higher token, a reuse met its own token under another
   operation or payload, an error is the write's own first defect, and an advanced or replayed write is in the log.
   */
  lemma {:induction false} AnswersAreTrue(actions: seq<Action>)
    ensures AllTruthful(Run(actions).applied, Run(actions).attempts)
  {
    if actions != [] {
      hide Inv, Act, AllTruthful;
      AnswersAreTrue(actions[..|actions| - 1]);
      RunKeepsInv(actions[..|actions| - 1]);
      StepIsTruthful(Run(actions[..|actions| - 1]), actions[|actions| - 1]);
    } else {
      assert AllTruthful([], []);
    }
  }

  /** The log reaches a write exactly when the watermark of its pair does. */
  lemma {:induction false} LogIsWatermark(store: Store, applied: seq<Entry>, w: Write)
    requires LogInv(store, applied)
    ensures Reached(applied, w) <==> PairOf(w) in store && store[PairOf(w)].token >= w.token
  {
    hide Validate;
    if PairOf(w) in store && store[PairOf(w)].token >= w.token {
      var j :| 0 <= j < |applied| && applied[j].write == store[PairOf(w)];
      assert AtLeast(applied[j].write, w);
    }
    if Reached(applied, w) {
      var j :| 0 <= j < |applied| && AtLeast(applied[j].write, w);
      assert Covered(store, applied[j].write);
    }
  }

  /**
   The atomic step read off the log alone: a valid write above every applied token of its pair appends exactly its own
   entry and is told that it advanced; any other appends nothing. No one else's attempt moves.
   */
  lemma {:induction false} CommitAppliesTheHigher(actions: seq<Action>, i: nat)
    requires i < |Run(actions).attempts| && Run(actions).attempts[i].phase.Classified?
    ensures var (s, t) := (Run(actions), Act(Run(actions), CommitWrite(i)));
            var (client, w) := (s.attempts[i].client, s.attempts[i].write);
            && |t.attempts| == |s.attempts| && (forall k | 0 <= k < |s.attempts| && k != i :: t.attempts[k] == s.attempts[k])
            && t.attempts[i].client == client && t.attempts[i].write == w && t.attempts[i].phase.AfterAtomic?
            && var r := t.attempts[i].phase.r;
               && (r.Ok? <==> Valid(w))
               && (Valid(w) && !Reached(s.applied, w) <==> r.Ok? && r.value.kind == Advanced)
               && t.applied == (if Valid(w) && !Reached(s.applied, w) then s.applied + [Entry(client, w)] else s.applied)
  {
    RunKeepsInv(actions);
    var s := Run(actions);
    var w := s.attempts[i].write;
    LogIsWatermark(s.store, s.applied, w);
    DecisionAtStore(s.store, w);
    EvaluateAtStore(s.store, w);
    hide Run, Inv, Submit, Validate, Reached, Coherent;
  }

  /**
   The latest grant is always good for one write: in every reachable state, whatever is in flight, a valid write under
   the last token its authority has minted is applied by its commit unless a write under that token already was.
   */
  lemma {:induction false} LatestGrantPrevails(actions: seq<Action>, i: nat)
    requires i < |Run(actions).attempts| && Run(actions).attempts[i].phase.Classified? && Valid(Run(actions).attempts[i].write)
    requires var (s, w) := (Run(actions), Run(actions).attempts[i].write); Authority(s.leases, w.key).counter == Some(w.token)
    requires var (s, w) := (Run(actions), Run(actions).attempts[i].write);
             forall j | 0 <= j < |s.applied| && PairOf(s.applied[j].write) == PairOf(w) :: s.applied[j].write.token != w.token
    ensures var (s, t) := (Run(actions), Act(Run(actions), CommitWrite(i)));
            && t.applied == s.applied + [Entry(s.attempts[i].client, s.attempts[i].write)]
            && t.attempts[i].phase.AfterAtomic? && t.attempts[i].phase.r.Ok? && t.attempts[i].phase.r.value.kind == Advanced
  {
    RunKeepsInv(actions);
    CommitAppliesTheHigher(actions, i);
    var (s, w) := (Run(actions), Run(actions).attempts[i].write);
    hide Run, Act, LogInv, AttemptsInv, Validate;
    forall j | 0 <= j < |s.applied|
      ensures !AtLeast(s.applied[j].write, w)
    {
      assert ToldOf(s.applied[j].client, s.applied[j].write) in s.told;
      assert TokenOk(Authority(s.leases, s.applied[j].write.key), ToldOf(s.applied[j].client, s.applied[j].write));
    }
  }

  /** A granted acquire is what lets its client write under that token, and nothing but the token is asked. */
  lemma {:induction false} GrantAdmitsWrites(s: System, key: string, request: L.Request, write: Write)
    requires request.Acquire? && write.key == key
    requires var reply := L.Step(Authority(s.leases, key), s.clock, request).1; reply.Granted? && reply.token == write.token
    ensures var t := Act(Act(s, Call(key, request)), Send(request.holder, write));
            && t.attempts == s.attempts + [Attempt(request.holder, write, Start)]
            && t.store == s.store && t.applied == s.applied
  {
    hide L.Step;
  }

  /** A crash before the answer is returned forgets the attempt's progress and nothing else. */
  lemma {:induction false} CrashForgets(s: System, i: nat)
    requires i < |s.attempts|
    ensures var (a, t) := (s.attempts[i], Act(s, Crash(i)));
            t == if a.phase.Classified? || a.phase.AfterAtomic? then s.(attempts := s.attempts[i := a.(phase := Start)]) else s
  {
  }

  // ---- Completion ----

  /** Steps an attempt still needs when it crashes no more. */
  function Remaining(phase: Phase): nat {
    match phase
    case Start => 3
    case Classified(_) => 2
    case AfterAtomic(_) => 1
    case Done(_) => 0
  }

  /** Attempt `i` takes its next step, whichever that is. */
  predicate Advances(s: System, a: Action, i: nat) {
    && i < |s.attempts|
    && match s.attempts[i].phase
       case Start => a == ClassifyWrite(i)
       case Classified(_) => a == CommitWrite(i)
       case AfterAtomic(_) => a == Return(i)
       case Done(_) => false
  }

  /** How many steps of `future` are attempt `i`'s own next step, when `future` follows `past`. */
  function Turns(past: seq<Action>, future: seq<Action>, i: nat): nat {
    if future == [] then 0
    else
      var n := |future| - 1;
      Turns(past, future[..n], i) + if Advances(Run(past + future[..n]), future[n], i) then 1 else 0
  }

  lemma {:induction false} OneTurn(s: System, a: Action, i: nat)
    requires i < |s.attempts| && a != Crash(i)
    ensures i < |Act(s, a).attempts| && Act(s, a).attempts[i].write == s.attempts[i].write
    ensures Remaining(Act(s, a).attempts[i].phase) ==
            Remaining(s.attempts[i].phase) - if Advances(s, a, i) then 1 else 0
    ensures s.attempts[i].phase.Done? ==> Act(s, a).attempts[i] == s.attempts[i]
  {
    hide L.Step, Submit, Applies;
  }

  /**
   Whatever everybody else does in between, crashes of other attempts included, an attempt that crashes no more uses up
   exactly one remaining step a turn: it is done if and only if it has had all its turns, and then it keeps its answer.
   */
  lemma {:induction false} CrashFreeCompletion(past: seq<Action>, future: seq<Action>, i: nat)
    requires i < |Run(past).attempts| && Crash(i) !in future
    ensures i < |Run(past + future).attempts|
    ensures var (before, after) := (Run(past).attempts[i], Run(past + future).attempts[i]);
            && after.write == before.write
            && Remaining(after.phase) + Turns(past, future, i) == Remaining(before.phase)
            && (after.phase.Done? <==> Turns(past, future, i) == Remaining(before.phase))
            && (before.phase.Done? ==> after == before)
  {
    hide Act, Advances;
    if future == [] {
      assert past + future == past;
    } else {
      var n := |future| - 1;
      assert future[n] in future;
      CrashFreeCompletion(past, future[..n], i);
      assert (past + future)[..|past + future| - 1] == past + future[..n];
      var s := Run(past + future[..n]);
      assert Run(past + future) == Act(s, future[n]);
      assert Turns(past, future, i) == Turns(past, future[..n], i) + if Advances(s, future[n], i) then 1 else 0;
      hide Run, Turns;
      OneTurn(s, future[n], i);
    }
  }

  /** An attempt that is not done always has a next step, so only being scheduled keeps it from being done. */
  lemma {:induction false} NeverBlocked(s: System, i: nat)
    requires i < |s.attempts|
    ensures s.attempts[i].phase.Done? <==> forall a :: !Advances(s, a, i)
  {
    if !s.attempts[i].phase.Done? {
      var a := match s.attempts[i].phase
               case Start => ClassifyWrite(i)
               case Classified(_) => CommitWrite(i)
               case _ => Return(i);
      assert Advances(s, a, i);
    }
  }
}
