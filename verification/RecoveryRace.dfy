/**
 Acquirers, releasers and recoverers on one directory, interleaved at every system call and crashing at any of them.
 Recovery promises that the former owner is inactive and that the lock is quiescent; here both promises are conditions
 on runs, and the second one is shown to be exactly the absence of acquirers.
 */
module RecoveryRace {
  import opened UnicodeText
  import opened LockDirectory
  import P = LocalFile
  import R = LocalFileRecovery

  datatype World = World(dir: Dir, procs: seq<P.Proc>, recs: seq<R.Recoverer>, log: seq<R.Effect>)

  datatype Action = ByProcess(p: P.Action) | ByRecoverer(r: R.Action)

  function Act(w: World, a: Action): World {
    match a
    case ByProcess(p) =>
      var s := P.Act(P.System(w.dir, w.procs), p);
      w.(dir := s.dir, procs := s.procs)
    case ByRecoverer(r) =>
      var s := R.Act(R.System(w.dir, w.recs, w.log), r);
      w.(dir := s.dir, recs := s.recs, log := s.log)
  }

  function Start(owners: seq<seq<Byte>>, expected: seq<seq<Byte>>): World {
    World(Absent, P.Start(owners).procs, R.Start([], expected).recs, [])
  }

  function Run(w: World, actions: seq<Action>): World {
    if actions == [] then w else Act(Run(w, actions[..|actions| - 1]), actions[|actions| - 1])
  }

  // ---- The two promises ----

  predicate Inactive(procs: seq<P.Proc>, owner: seq<Byte>) {
    forall j | 0 <= j < |procs| && procs[j].owner == owner :: procs[j].crashed
  }

  /** A recovery is called only for an owner whose processes have all crashed. */
  predicate Confirmed(w: World, a: Action) {
    a.ByRecoverer? && a.r.Begin? && a.r.i < |w.recs| ==> Inactive(w.procs, w.recs[a.r.i].expected)
  }

  predicate Publishes(w: World, a: Action) {
    && a.ByProcess? && a.p.Step? && !a.p.fault
    && a.p.i < |w.procs| && w.procs[a.p.i].pc.CallPublish? && !w.procs[a.p.i].crashed
  }

  /** No marker is published while a recoverer stands between its second owner read and its rename. */
  predicate Quiet(w: World, a: Action) {
    Publishes(w, a) ==> forall i | 0 <= i < |w.recs| :: !w.recs[i].pc.Claim?
  }

  predicate ConfirmedRun(w: World, actions: seq<Action>) {
    actions != [] ==>
      var n := |actions| - 1;
      ConfirmedRun(w, actions[..n]) && Confirmed(Run(w, actions[..n]), actions[n])
  }

  predicate QuietRun(w: World, actions: seq<Action>) {
    actions != [] ==>
      var n := |actions| - 1;
      QuietRun(w, actions[..n]) && Quiet(Run(w, actions[..n]), actions[n])
  }

  // ---- Claims take the marker that was authenticated ----

  predicate MarkerIs(d: Dir, owner: seq<Byte>) {
    Has(d, Owner) ==> d.entries[Owner] == owner
  }

  predicate Authentic(expected: seq<seq<Byte>>, e: R.Effect) {
    e.Claimed? ==> e.i < |expected| && e.marker == expected[e.i]
  }

  predicate ClaimInv(expected: seq<seq<Byte>>, w: World) {
    && |w.recs| == |expected|
    && (forall i | 0 <= i < |w.recs| :: w.recs[i].expected == expected[i])
    && (forall i | 0 <= i < |w.recs| && w.recs[i].pc.Claim? :: MarkerIs(w.dir, expected[i]))
    && (forall k | 0 <= k < |w.log| :: Authentic(expected, w.log[k]))
  }

  /** Only publishing gives the name `owner` a new meaning. */
  lemma {:induction false} MarkersComeFromPublishing(w: World, a: Action)
    requires a.ByProcess? && !Publishes(w, a)
    ensures var t := Act(w, a);
            Has(t.dir, Owner) ==> Has(w.dir, Owner) && t.dir.entries[Owner] == w.dir.entries[Owner]
    ensures Act(w, a).recs == w.recs && Act(w, a).log == w.log
  {
  }

  /** The claim is reached only by reading the expected owner, and an inspection touches nothing. */
  lemma {:induction false} InspectingAuthenticates(d: Dir, r: R.Recoverer)
    requires r.pc.InspectPath? || r.pc.InspectNames? || r.pc.InspectOwner?
    ensures R.Inspect(d, r).Claim? ==> Has(d, Owner) && d.entries[Owner] == r.expected
    ensures !R.Inspect(d, r).RemoveClaim? && !R.Inspect(d, r).RemoveDirectory? && !R.Inspect(d, r).Idle?
  {
  }

  lemma {:induction false} ClaimStep(expected: seq<seq<Byte>>, w: World, a: Action)
    requires ClaimInv(expected, w) && Quiet(w, a)
    ensures ClaimInv(expected, Act(w, a))
  {
    if a.ByProcess? {
      if !Publishes(w, a) {
        MarkersComeFromPublishing(w, a);
      }
      hide P.Act;
    } else if a.r.i < |w.recs| {
      var r := w.recs[a.r.i];
      if r.pc.InspectPath? || r.pc.InspectNames? || r.pc.InspectOwner? {
        InspectingAuthenticates(w.dir, r);
      }
      hide R.Inspect;
    }
  }

  lemma {:induction false} ClaimRun(owners: seq<seq<Byte>>, expected: seq<seq<Byte>>, actions: seq<Action>)
    requires QuietRun(Start(owners, expected), actions)
    ensures ClaimInv(expected, Run(Start(owners, expected), actions))
  {
    if actions != [] {
      hide ClaimInv, Act, Quiet;
      ClaimRun(owners, expected, actions[..|actions| - 1]);
      ClaimStep(expected, Run(Start(owners, expected), actions[..|actions| - 1]), actions[|actions| - 1]);
    } else {
      assert ClaimInv(expected, Start(owners, expected));
    }
  }

  /** In every quiet run a recoverer claims only the marker it named, whoever acquires, releases or crashes. */
  lemma {:induction false} ClaimsAreAuthentic(owners: seq<seq<Byte>>, expected: seq<seq<Byte>>, actions: seq<Action>, k: nat)
    requires QuietRun(Start(owners, expected), actions)
    requires k < |Run(Start(owners, expected), actions).log| && Run(Start(owners, expected), actions).log[k].Claimed?
    ensures Authentic(expected, Run(Start(owners, expected), actions).log[k])
  {
    ClaimRun(owners, expected, actions);
    hide Run, Authentic;
  }

  // ---- Mutual exclusion survives recovery ----

  predicate Live(p: P.Proc) {
    P.Inside(p.pc) && !p.crashed
  }

  predicate Removing(pc: R.Pc) {
    pc.RemoveClaim? || pc.RemoveDirectory?
  }

  /** What a claimant has left in the directory. */
  predicate Emptied(d: Dir, pc: R.Pc) {
    d.Present? && d.entries.Keys == if pc.RemoveClaim? then {Recovering} else {}
  }

  predicate Exclusive(d: Dir, procs: seq<P.Proc>) {
    && (forall i | 0 <= i < |procs| && Live(procs[i]) :: P.Shape(d, procs[i]))
    && (forall i, j | 0 <= i < |procs| && 0 <= j < |procs| && Live(procs[i]) && Live(procs[j]) :: i == j)
    && (Has(d, Owner) ==> d.entries.Keys == {Owner})
  }

  predicate NoneLive(procs: seq<P.Proc>) {
    forall i | 0 <= i < |procs| :: !Live(procs[i])
  }

  predicate ClaimantsAlone(w: World) {
    && (forall r | 0 <= r < |w.recs| && Removing(w.recs[r].pc) :: Emptied(w.dir, w.recs[r].pc) && NoneLive(w.procs))
    && (forall r, q | 0 <= r < |w.recs| && 0 <= q < |w.recs| && Removing(w.recs[r].pc) && Removing(w.recs[q].pc) :: r == q)
  }

  predicate Promised(w: World) {
    && (forall r | 0 <= r < |w.recs| && !w.recs[r].pc.Idle? && !w.recs[r].pc.Crashed? ::
          Inactive(w.procs, w.recs[r].expected))
    && (forall k | 0 <= k < |w.log| && w.log[k].Claimed? :: Inactive(w.procs, w.log[k].marker))
  }

  predicate Inv(expected: seq<seq<Byte>>, w: World) {
    ClaimInv(expected, w) && Exclusive(w.dir, w.procs) && ClaimantsAlone(w) && Promised(w)
  }

  /** A crash is for good and an owner token never changes hands. */
  lemma {:induction false} InactiveForGood(w: World, a: Action, owner: seq<Byte>)
    requires a.ByProcess? && Inactive(w.procs, owner)
    ensures Inactive(Act(w, a).procs, owner)
  {
    var t := Act(w, a);
    assert |t.procs| == |w.procs|;
    forall j | 0 <= j < |w.procs|
      ensures t.procs[j].owner == w.procs[j].owner && (w.procs[j].crashed ==> t.procs[j].crashed)
    {
    }
  }

  lemma {:induction false} ProcessKeepsPromised(w: World, a: Action)
    requires Promised(w) && a.ByProcess?
    ensures Promised(Act(w, a))
  {
    var t := Act(w, a);
    assert t.recs == w.recs && t.log == w.log;
    hide Act, Inactive;
    forall owner | Inactive(w.procs, owner) ensures Inactive(t.procs, owner) {
      InactiveForGood(w, a, owner);
    }
  }

  lemma {:induction false} ProcessKeepsInv(expected: seq<seq<Byte>>, w: World, a: Action)
    requires Inv(expected, w) && a.ByProcess? && Quiet(w, a)
    ensures Inv(expected, Act(w, a))
  {
    ClaimStep(expected, w, a);
    ProcessKeepsPromised(w, a);
    hide ClaimInv, Quiet, Promised;
    var i := a.p.i;
    if i < |w.procs| && !w.procs[i].crashed && a.p.Step? {
      if P.Inside(w.procs[i].pc) {
        assert Live(w.procs[i]);
        P.CallFromInside(w.dir, w.procs[i], a.p.fault, a.p.chunk);
      } else {
        P.CallFromOutside(w.dir, w.procs[i], a.p.fault, a.p.chunk);
      }
      hide P.Call;
    }
  }

  /** The marker taken is that of a crashed process, so nobody alive is inside. */
  lemma {:induction false} ClaimingKeepsInv(expected: seq<seq<Byte>>, w: World, i: nat)
    requires Inv(expected, w) && i < |w.recs| && w.recs[i].pc.Claim?
    ensures Inv(expected, Act(w, ByRecoverer(R.Step(i))))
  {
    ClaimStep(expected, w, ByRecoverer(R.Step(i)));
    assert MarkerIs(w.dir, w.recs[i].expected);
    hide ClaimInv;
    hide P.Act;
  }

  lemma {:induction false} RemovingKeepsInv(expected: seq<seq<Byte>>, w: World, i: nat)
    requires Inv(expected, w) && i < |w.recs| && Removing(w.recs[i].pc)
    ensures Inv(expected, Act(w, ByRecoverer(R.Step(i))))
  {
    ClaimStep(expected, w, ByRecoverer(R.Step(i)));
    assert Emptied(w.dir, w.recs[i].pc);
    assert w.recs[i].pc.RemoveDirectory? ==> w.dir.entries == map[];
    hide ClaimInv, P.Shape;
  }

  lemma {:induction false} RecovererKeepsInv(expected: seq<seq<Byte>>, w: World, a: Action)
    requires Inv(expected, w) && a.ByRecoverer? && Confirmed(w, a)
    ensures Inv(expected, Act(w, a))
  {
    ClaimStep(expected, w, a);
    if a.r.i < |w.recs| {
      var r := w.recs[a.r.i];
      if r.pc.InspectPath? || r.pc.InspectNames? || r.pc.InspectOwner? {
        InspectingAuthenticates(w.dir, r);
      } else if r.pc.Claim? && a.r.Step? {
        ClaimingKeepsInv(expected, w, a.r.i);
        hide Inv;
      } else if Removing(r.pc) && a.r.Step? {
        RemovingKeepsInv(expected, w, a.r.i);
        hide Inv;
      }
      hide R.Inspect, P.Shape, ClaimInv;
    }
  }

  lemma {:induction false} StepKeepsInv(expected: seq<seq<Byte>>, w: World, a: Action)
    requires Inv(expected, w) && Confirmed(w, a) && Quiet(w, a)
    ensures Inv(expected, Act(w, a))
  {
    if a.ByProcess? {
      ProcessKeepsInv(expected, w, a);
    } else {
      RecovererKeepsInv(expected, w, a);
    }
  }

  lemma {:induction false} RunKeepsInv(owners: seq<seq<Byte>>, expected: seq<seq<Byte>>, actions: seq<Action>)
    requires var w := Start(owners, expected); ConfirmedRun(w, actions) && QuietRun(w, actions)
    ensures Inv(expected, Run(Start(owners, expected), actions))
  {
    if actions != [] {
      hide Inv, Act, Quiet, Confirmed;
      RunKeepsInv(owners, expected, actions[..|actions| - 1]);
      StepKeepsInv(expected, Run(Start(owners, expected), actions[..|actions| - 1]), actions[|actions| - 1]);
    } else {
      assert Inv(expected, Start(owners, expected));
    }
  }

  /**
   Where recovery is confirmed and quiet, at most one live process is inside, the directory is in its shape, and only
   the marker of a crashed owner that the recoverer had named is ever claimed.
   */
  lemma {:induction false} ExclusionSurvivesRecovery(
    owners: seq<seq<Byte>>, expected: seq<seq<Byte>>, actions: seq<Action>, i: nat, j: nat)
    requires var w := Start(owners, expected); ConfirmedRun(w, actions) && QuietRun(w, actions)
    ensures var w := Run(Start(owners, expected), actions);
            && (i < |w.procs| && j < |w.procs| && Live(w.procs[i]) && Live(w.procs[j]) ==> i == j)
            && (i < |w.procs| && Live(w.procs[i]) ==> P.Shape(w.dir, w.procs[i]))
            && (forall k | 0 <= k < |w.log| && w.log[k].Claimed? ::
                  Authentic(expected, w.log[k]) && Inactive(w.procs, w.log[k].marker))
  {
    RunKeepsInv(owners, expected, actions);
    hide Run, P.Shape, Authentic, Inactive;
  }

  // ---- Without quiescence ----

  lemma {:induction false} JoinRuns(w: World, past: seq<Action>, future: seq<Action>)
    ensures Run(w, past + future) == Run(Run(w, past), future)
    ensures ConfirmedRun(w, past) && ConfirmedRun(Run(w, past), future) ==> ConfirmedRun(w, past + future)
    ensures QuietRun(w, past) && QuietRun(Run(w, past), future) ==> QuietRun(w, past + future)
  {
    if future == [] {
      assert past + future == past;
    } else {
      var n := |future| - 1;
      JoinRuns(w, past, future[..n]);
      assert (past + future)[..|past + future| - 1] == past + future[..n];
      hide Act, Confirmed, Quiet;
    }
  }

  predicate NoneClaiming(w: World) {
    forall i | 0 <= i < |w.recs| :: !w.recs[i].pc.Claim?
  }

  /** Confirmed, and quiet if no recoverer was claiming at the start. */
  predicate Fine(w: World, actions: seq<Action>) {
    ConfirmedRun(w, actions) && (NoneClaiming(w) ==> QuietRun(w, actions))
  }

  lemma {:induction false} OneMore(w: World, past: seq<Action>, a: Action)
    ensures Run(w, past + [a]) == Act(Run(w, past), a)
    ensures ConfirmedRun(w, past) && Confirmed(Run(w, past), a) ==> ConfirmedRun(w, past + [a])
    ensures QuietRun(w, past) && Quiet(Run(w, past), a) ==> QuietRun(w, past + [a])
  {
    assert (past + [a])[..|past|] == past;
    hide Act, Confirmed, Quiet;
  }

  /** The world with process `q` at another program point and the directory changed. */
  function At(w: World, q: nat, d: Dir, pc: P.Pc): World
    requires q < |w.procs|
  {
    w.(dir := d, procs := w.procs[q := w.procs[q].(pc := pc)])
  }

  lemma {:induction false} CallAt(
    w: World, past: seq<Action>, q: nat, before: World, d: Dir, pc: P.Pc, d': Dir, pc': P.Pc, chunk: nat)
    requires q < |before.procs| && !before.procs[q].crashed
    requires Run(w, past) == At(before, q, d, pc) && Fine(w, past) && before.recs == w.recs
    requires P.Call(d, before.procs[q].(pc := pc), false, chunk) == (d', before.procs[q].(pc := pc'))
    ensures Run(w, past + [ByProcess(P.Step(q, false, chunk))]) == At(before, q, d', pc')
    ensures Fine(w, past + [ByProcess(P.Step(q, false, chunk))])
  {
    hide P.Call, Run, ConfirmedRun;
    OneMore(w, past, ByProcess(P.Step(q, false, chunk)));
  }

  /** From an absent path any live process outside can acquire the lock, with nobody else taking a step. */
  lemma {:induction false} Acquires(w: World, q: nat) returns (steps: seq<Action>)
    requires w.dir.Absent? && q < |w.procs| && !w.procs[q].crashed && !P.Inside(w.procs[q].pc)
    ensures Run(w, steps) == At(w, q, Present(map[Owner := w.procs[q].owner]), P.Holding)
    ensures Fine(w, steps)
  {
    var owner := w.procs[q].owner;
    steps := Closes(w, q);
    hide Run, Fine;
    var pending, held := Present(map[Pending := owner]), Present(map[Owner := owner]);
    var call := ByProcess(P.Step(q, false, 0));
    CallAt(w, steps, q, w, pending, P.CallCheckTarget, pending, P.CallPublish, 0);
    steps := steps + [call];
    assert Rename(pending, Pending, Owner).0 == held;
    CallAt(w, steps, q, w, pending, P.CallPublish, held, P.Holding, 0);
    steps := steps + [call];
  }

  lemma {:induction false} Closes(w: World, q: nat) returns (steps: seq<Action>)
    requires w.dir.Absent? && q < |w.procs| && !w.procs[q].crashed && !P.Inside(w.procs[q].pc)
    ensures Run(w, steps) == At(w, q, Present(map[Pending := w.procs[q].owner]), P.CallCheckTarget)
    ensures Fine(w, steps)
  {
    var owner := w.procs[q].owner;
    steps := Writes(w, q);
    hide Run, Fine;
    var pending := Present(map[Pending := owner]);
    var call := ByProcess(P.Step(q, false, 0));
    CallAt(w, steps, q, w, pending, P.CallWrite(|owner|), pending, P.CallSync, 0);
    steps := steps + [call];
    CallAt(w, steps, q, w, pending, P.CallSync, pending, P.CallClose, 0);
    steps := steps + [call];
    CallAt(w, steps, q, w, pending, P.CallClose, pending, P.CallCheckTarget, 0);
    steps := steps + [call];
  }

  lemma {:induction false} WritesAll(p: P.Proc)
    requires p.owner != []
    ensures P.Call(Present(map[Pending := []]), p.(pc := P.CallWrite(0)), false, |p.owner| - 1)
            == (Present(map[Pending := p.owner]), p.(pc := P.CallWrite(|p.owner|)))
  {
    var n := |p.owner|;
    assert (n - 1) % n == n - 1;
    assert p.owner[0..0 + n] == p.owner && [] + p.owner == p.owner;
    assert map[Pending := []][Pending := p.owner] == map[Pending := p.owner];
  }

  /** The first half: the directory, then the whole token in one write under the pending name. */
  lemma {:induction false} Writes(w: World, q: nat) returns (steps: seq<Action>)
    requires w.dir.Absent? && q < |w.procs| && !w.procs[q].crashed && !P.Inside(w.procs[q].pc)
    ensures var owner := w.procs[q].owner;
            Run(w, steps) == At(w, q, Present(map[Pending := owner]), P.CallWrite(|owner|))
    ensures Fine(w, steps)
  {
    var owner := w.procs[q].owner;
    var chunk := if owner == [] then 0 else |owner| - 1;
    var call := ByProcess(P.Step(q, false, chunk));
    var attempt: nat;
    steps, attempt := ReachesMkdir(w, q);
    var empty, started := Present(map[]), Present(map[Pending := []]);
    hide Run, Fine;
    CallAt(w, steps, q, w, Absent, P.CallMkdir(attempt), empty, P.CallCreate, chunk);
    steps := steps + [call];
    CallAt(w, steps, q, w, empty, P.CallCreate, started, P.CallWrite(0), chunk);
    steps := steps + [call];
    if owner != [] {
      WritesAll(w.procs[q]);
      CallAt(w, steps, q, w, started, P.CallWrite(0), Present(map[Pending := owner]), P.CallWrite(|owner|), chunk);
      steps := steps + [call];
    }
  }

  lemma {:induction false} ReachesMkdir(w: World, q: nat) returns (steps: seq<Action>, attempt: nat)
    requires w.dir.Absent? && q < |w.procs| && !w.procs[q].crashed && !P.Inside(w.procs[q].pc)
    ensures Run(w, steps) == At(w, q, Absent, P.CallMkdir(attempt)) && Fine(w, steps)
  {
    var p := w.procs[q];
    steps, attempt := [], 0;
    assert w == At(w, q, Absent, p.pc);
    if p.pc.CallMkdir? {
      attempt := p.pc.attempt;
    } else {
      if p.pc.CallLstat? {
        var next := if p.pc.attempt == 0 then P.CallMkdir(1) else P.Out(P.Contended);
        CallAt(w, [], q, w, Absent, p.pc, Absent, next, 0);
        assert [] + [ByProcess(P.Step(q, false, 0))] == [ByProcess(P.Step(q, false, 0))];
        steps := [ByProcess(P.Step(q, false, 0))];
        if p.pc.attempt == 0 {
          attempt := 1;
          return;
        }
      }
      OneMore(w, steps, ByProcess(P.Begin(q)));
      steps := steps + [ByProcess(P.Begin(q))];
    }
  }

  /** A recoverer at its claim takes the marker that is there and then the directory, whoever they belong to. */
  lemma {:induction false} TakesDown(w: World, r: nat) returns (steps: seq<Action>)
    requires r < |w.recs| && w.recs[r].pc.Claim? && Has(w.dir, Owner) && w.dir.entries.Keys == {Owner}
    ensures ConfirmedRun(w, steps) && QuietRun(w, steps)
    ensures Run(w, steps) == World(Absent, w.procs, w.recs[r := w.recs[r].(pc := R.Done(true))],
              w.log + [R.Claimed(r, w.dir.entries[Owner]), R.MarkerRemoved(r), R.DirectoryRemoved(r)])
  {
    var (marker, rec, step) := (w.dir.entries[Owner], w.recs[r], ByRecoverer(R.Step(r)));
    assert w.dir.entries == map[Owner := marker];
    assert Rename(w.dir, Owner, Recovering).0 == Present(map[Recovering := marker]);
    var one := World(Present(map[Recovering := marker]), w.procs, w.recs[r := rec.(pc := R.RemoveClaim)],
      w.log + [R.Claimed(r, marker)]);
    assert map[Recovering := marker] - {Recovering} == map[];
    var two := World(Present(map[]), w.procs, w.recs[r := rec.(pc := R.RemoveDirectory)],
      w.log + [R.Claimed(r, marker), R.MarkerRemoved(r)]);
    var three := World(Absent, w.procs, w.recs[r := rec.(pc := R.Done(true))],
      w.log + [R.Claimed(r, marker), R.MarkerRemoved(r), R.DirectoryRemoved(r)]);
    assert one.log + [R.MarkerRemoved(r)] == two.log && two.log + [R.DirectoryRemoved(r)] == three.log;
    assert Act(w, step) == one;
    assert Act(one, step) == two;
    assert Act(two, step) == three;
    hide Act;
    OneMore(w, [], step);
    OneMore(w, [] + [step], step);
    OneMore(w, [] + [step] + [step], step);
    steps := [] + [step] + [step] + [step];
  }

  // ---- The exact condition ----

  /** Recoverer `r` has claimed a marker that it did not name. */
  predicate TookAnother(w: World, r: nat) {
    && r < |w.recs|
    && exists k :: 0 <= k < |w.log| && w.log[k].Claimed? && w.log[k].i == r && w.log[k].marker != w.recs[r].expected
  }

  /** A live process believes that it holds the lock while the path is free for the next one. */
  predicate Evicted(w: World, q: nat) {
    q < |w.procs| && w.procs[q].pc.Holding? && !w.procs[q].crashed && w.dir.Absent?
  }

  /** With a recoverer at its claim and the path absent, any live process outside can be made to lose its lock. */
  lemma {:induction false} TakesAnotherLock(w: World, r: nat, q: nat) returns (steps: seq<Action>)
    requires r < |w.recs| && w.recs[r].pc.Claim? && w.dir.Absent?
    requires q < |w.procs| && !w.procs[q].crashed && !P.Inside(w.procs[q].pc) && w.procs[q].owner != w.recs[r].expected
    ensures ConfirmedRun(w, steps)
    ensures TookAnother(Run(w, steps), r) && Evicted(Run(w, steps), q)
  {
    var acquired := Acquires(w, q);
    var held := Run(w, acquired);
    var owner := w.procs[q].owner;
    var taken := TakesDown(held, r);
    steps := acquired + taken;
    JoinRuns(w, acquired, taken);
    hide Run, ConfirmedRun;
    assert Run(held, taken).log[|w.log|] == R.Claimed(r, owner);
  }

  predicate AllCrashed(procs: seq<P.Proc>) {
    forall j | 0 <= j < |procs| :: procs[j].crashed
  }

  /** Without a live process an absent path stays absent, and no one claims anything. */
  lemma {:induction false} NothingToTake(w: World, steps: seq<Action>)
    requires AllCrashed(w.procs) && w.dir.Absent?
    ensures var t := Run(w, steps);
            && AllCrashed(t.procs) && t.dir.Absent? && t.log == w.log && |t.recs| == |w.recs|
            && forall i | 0 <= i < |w.recs| :: t.recs[i].expected == w.recs[i].expected
  {
    if steps != [] {
      NothingToTake(w, steps[..|steps| - 1]);
    }
  }

  /**
   Quiescence exactly: once a confirmed and quiet run has brought a recoverer to its claim with the path absent, some
   continuation makes it take another owner's lock if and only if some process is alive. That the former owner is
   inactive does not help.
   */
  lemma {:induction false} QuiescenceIsExact(owners: seq<seq<Byte>>, expected: seq<seq<Byte>>, past: seq<Action>, r: nat)
    requires var w := Start(owners, expected); ConfirmedRun(w, past) && QuietRun(w, past)
    requires var w := Run(Start(owners, expected), past); r < |w.recs| && w.recs[r].pc.Claim? && w.dir.Absent?
    ensures var w := Run(Start(owners, expected), past);
            !AllCrashed(w.procs) <==> exists steps :: ConfirmedRun(w, steps) && TookAnother(Run(w, steps), r)
  {
    RunKeepsInv(owners, expected, past);
    var w := Run(Start(owners, expected), past);
    hide Run, ConfirmedRun;
    if AllCrashed(w.procs) {
      forall steps ensures !TookAnother(Run(w, steps), r) {
        NothingToTake(w, steps);
        assert forall k | 0 <= k < |w.log| :: Authentic(expected, w.log[k]);
      }
    } else {
      var q :| 0 <= q < |w.procs| && !w.procs[q].crashed;
      assert !Live(w.procs[q]);
      assert Inactive(w.procs, w.recs[r].expected);
      var steps := TakesAnotherLock(w, r, q);
    }
  }

  // ---- Inactivity alone is not enough ----

  /** The world with recoverer `r` at another program point. */
  function RecAt(w: World, r: nat, pc: R.Pc): World
    requires r < |w.recs|
  {
    w.(recs := w.recs[r := w.recs[r].(pc := pc)])
  }

  lemma {:induction false} InspectAt(w: World, past: seq<Action>, r: nat, pc: R.Pc)
    requires r < |w.recs| && Run(w, past) == RecAt(w, r, pc) && ConfirmedRun(w, past) && QuietRun(w, past)
    requires pc.InspectPath? || pc.InspectNames? || pc.InspectOwner?
    ensures Run(w, past + [ByRecoverer(R.Step(r))]) == RecAt(w, r, R.Inspect(w.dir, w.recs[r].(pc := pc)))
    ensures ConfirmedRun(w, past + [ByRecoverer(R.Step(r))]) && QuietRun(w, past + [ByRecoverer(R.Step(r))])
  {
    hide Run, ConfirmedRun, QuietRun, R.Inspect;
    var before := RecAt(w, r, pc);
    assert Act(before, ByRecoverer(R.Step(r))) == RecAt(w, r, R.Inspect(w.dir, w.recs[r].(pc := pc)));
    OneMore(w, past, ByRecoverer(R.Step(r)));
    hide Act;
  }

  /** On an untouched lock, a recoverer that names the stored owner comes to its claim. */
  lemma {:induction false} Inspects(w: World, r: nat) returns (steps: seq<Action>)
    requires r < |w.recs| && w.recs[r].pc.Idle? && Inactive(w.procs, w.recs[r].expected)
    requires w.dir == Present(map[Owner := w.recs[r].expected])
    requires ReadMarker(w.recs[r].expected) == IsHeld(w.recs[r].expected)
    ensures ConfirmedRun(w, steps) && QuietRun(w, steps)
    ensures Run(w, steps) == RecAt(w, r, R.Claim)
  {
    var step := ByRecoverer(R.Step(r));
    OneMore(w, [], ByRecoverer(R.Begin(r)));
    steps := [] + [ByRecoverer(R.Begin(r))];
    assert w.dir.entries.Keys == {Owner};
    assert Run(w, steps) == RecAt(w, r, R.InspectPath(1));
    hide Run, ConfirmedRun, QuietRun, ReadMarker;
    InspectAt(w, steps, r, R.InspectPath(1));
    InspectAt(w, steps + [step], r, R.InspectNames(1));
    steps := steps + [step] + [step];
    InspectAt(w, steps, r, R.InspectOwner(1));
    InspectAt(w, steps + [step], r, R.InspectPath(2));
    steps := steps + [step] + [step];
    InspectAt(w, steps, r, R.InspectNames(2));
    InspectAt(w, steps + [step], r, R.InspectOwner(2));
    steps := steps + [step] + [step];
  }

  /** The owner `a` has crashed, one of two recoverers has finished, and the other still stands at its claim. */
  lemma {:induction false} WindowIsReached(a: seq<Byte>, b: seq<Byte>) returns (past: seq<Action>)
    requires ReadMarker(a) == IsHeld(a) && a != b
    ensures var w := Start([a, b], [a, a]); ConfirmedRun(w, past) && QuietRun(w, past)
    ensures var w := Run(Start([a, b], [a, a]), past);
            && w.dir.Absent? && |w.procs| == 2 && |w.recs| == 2
            && w.procs[0].crashed && w.procs[1] == P.Proc(b, P.Idle, false)
            && w.recs[0].pc == R.Done(true) && w.recs[1] == R.Recoverer(a, R.Claim)
  {
    var w0 := Start([a, b], [a, a]);
    assert w0.procs == [P.Proc(a, P.Idle, false), P.Proc(b, P.Idle, false)];
    assert w0.recs == [R.Recoverer(a, R.Idle), R.Recoverer(a, R.Idle)];
    var s1 := Acquires(w0, 0);
    var w1 := Run(w0, s1);
    var s2 := s1 + [ByProcess(P.Crash(0))];
    OneMore(w0, s1, ByProcess(P.Crash(0)));
    var w2 := Run(w0, s2);
    assert Inactive(w2.procs, a);
    hide Run, ConfirmedRun, QuietRun, ReadMarker;
    var s3 := Inspects(w2, 0);
    var w3 := Run(w2, s3);
    var s4 := Inspects(w3, 1);
    var w4 := Run(w3, s4);
    assert w4.dir.entries.Keys == {Owner};
    var s5 := TakesDown(w4, 0);
    JoinRuns(w3, s4, s5);
    JoinRuns(w2, s3, s4 + s5);
    JoinRuns(w0, s2, s3 + (s4 + s5));
    past := s2 + (s3 + (s4 + s5));
  }

  /**
   An owner that crashed and stays crashed does not make concurrent recovery safe: the second of two recoverers takes
   down the lock that a new owner acquired after the first one had finished.
   */
  lemma {:induction false} InactivityIsNotEnough(a: seq<Byte>, b: seq<Byte>) returns (steps: seq<Action>)
    requires ReadMarker(a) == IsHeld(a) && a != b
    ensures ConfirmedRun(Start([a, b], [a, a]), steps)
    ensures TookAnother(Run(Start([a, b], [a, a]), steps), 1) && Evicted(Run(Start([a, b], [a, a]), steps), 1)
  {
    var w := Start([a, b], [a, a]);
    var past := WindowIsReached(a, b);
    var future := TakesAnotherLock(Run(w, past), 1, 1);
    JoinRuns(w, past, future);
    steps := past + future;
  }

  /** Even then the evicted owner does no harm: its release finds a marker that is not its own, or none, and stops. */
  lemma {:induction false} EvictedReleaseIsRefused(w: World, q: nat, chunk: nat)
    requires q < |w.procs| && !w.procs[q].crashed && w.procs[q].pc.Holding?
    requires !(Has(w.dir, Owner) && w.dir.entries[Owner] == w.procs[q].owner)
    ensures var call := ByProcess(P.Step(q, false, chunk));
            var begun := Act(w, ByProcess(P.BeginRelease(q)));
            begun == At(w, q, w.dir, P.ReleaseLstat)
            && if w.dir.Absent? then Act(begun, call) == w else Act(Act(begun, call), call) == w
  {
    var call := ByProcess(P.Step(q, false, chunk));
    var begun := At(w, q, w.dir, P.ReleaseLstat);
    assert w == At(w, q, w.dir, P.Holding);
    assert w.dir.Present? ==> Act(begun, call) == At(w, q, w.dir, P.ReleaseRead);
  }
}
