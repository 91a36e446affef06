/**
 The portable filesystem lock: any number of acquirers and releasers, interleaved at every system call, failing or
 crashing at any of them. No recovery runs and no one tampers with the directory.
 */
module LocalFile {
  import opened Outcomes
  import opened UnicodeText
  import opened LockDirectory

  datatype Outcome = Contended | AcquireFailed | Released | PartlyReleased

  /** The next system call of a process. */
  datatype Pc =
    | Idle
    | CallMkdir(attempt: nat)
    | CallLstat(attempt: nat)
    | CallCreate
    | CallWrite(done: nat)
    | CallSync
    | CallClose
    | CallCheckTarget
    | CallPublish
    | CleanPending
    | CleanDirectory
    | Holding
    | ReleaseLstat
    | ReleaseRead
    | ReleaseUnlink
    | ReleaseRmdir
    | Out(outcome: Outcome)

  datatype Proc = Proc(owner: seq<Byte>, pc: Pc, crashed: bool)

  /** One system call of one process; `fault` makes it fail, `chunk` sizes a partial write. */
  function Call(d: Dir, p: Proc, fault: bool, chunk: nat): (Dir, Proc) {
    match p.pc
    case CallMkdir(attempt) =>
      var (d', e) := Mkdir(d);
      if fault then (d, p.(pc := Out(AcquireFailed)))
      else if e.None? then (d', p.(pc := CallCreate))
      else (d, p.(pc := CallLstat(attempt)))
    case CallLstat(attempt) =>
      if fault then (d, p.(pc := Out(AcquireFailed)))
      else if d.Present? then (d, p.(pc := Out(Contended)))
      else if attempt == 0 then (d, p.(pc := CallMkdir(1)))
      else (d, p.(pc := Out(Contended)))
    case CallCreate =>
      var (d', e) := Create(d, Pending);
      if fault || e.Some? then (d, p.(pc := CleanDirectory)) else (d', p.(pc := CallWrite(0)))
    case CallWrite(done) =>
      if done >= |p.owner| then (d, p.(pc := CallSync))
      else
        var n := 1 + chunk % (|p.owner| - done);
        var (d', e) := Append(d, Pending, p.owner[done..done + n]);
        if fault || e.Some? then (d, p.(pc := CleanPending)) else (d', p.(pc := CallWrite(done + n)))
    case CallSync => (d, p.(pc := if fault then CleanPending else CallClose))
    case CallClose => (d, p.(pc := if fault then CleanPending else CallCheckTarget))
    case CallCheckTarget => (d, p.(pc := if fault || Has(d, Owner) then CleanPending else CallPublish))
    case CallPublish =>
      var (d', e) := Rename(d, Pending, Owner);
      if fault || e.Some? then (d, p.(pc := CleanPending)) else (d', p.(pc := Holding))
    case CleanPending => (if fault then d else Unlink(d, Pending).0, p.(pc := CleanDirectory))
    case CleanDirectory => (if fault then d else Rmdir(d).0, p.(pc := Out(AcquireFailed)))
    case ReleaseLstat => (d, p.(pc := if fault || d.Absent? then Holding else ReleaseRead))
    case ReleaseRead =>
      var intact := Has(d, Owner) && d.entries[Owner] == p.owner;
      (d, p.(pc := if fault || !intact then Holding else ReleaseUnlink))
    case ReleaseUnlink =>
      var (d', e) := Unlink(d, Owner);
      if fault || e.Some? then (d, p.(pc := Holding)) else (d', p.(pc := ReleaseRmdir))
    case ReleaseRmdir =>
      var (d', e) := Rmdir(d);
      if fault || e.Some? then (d, p.(pc := Out(PartlyReleased))) else (d', p.(pc := Out(Released)))
    case _ => (d, p)
  }

  datatype System = System(dir: Dir, procs: seq<Proc>)

  datatype Action = Begin(i: nat) | BeginRelease(i: nat) | Step(i: nat, fault: bool, chunk: nat) | Crash(i: nat)

  predicate MayBegin(pc: Pc) {
    pc.Idle? || pc.Out?
  }

  function Act(s: System, a: Action): System {
    if a.i >= |s.procs| || s.procs[a.i].crashed then s
    else
      var p := s.procs[a.i];
      match a
      case Begin(i) => if MayBegin(p.pc) then s.(procs := s.procs[i := p.(pc := CallMkdir(0))]) else s
      case BeginRelease(i) => if p.pc.Holding? then s.(procs := s.procs[i := p.(pc := ReleaseLstat)]) else s
      case Crash(i) => s.(procs := s.procs[i := p.(crashed := true)])
      case Step(i, fault, chunk) =>
        var (dir, p') := Call(s.dir, p, fault, chunk);
        System(dir, s.procs[i := p'])
  }

  function Start(owners: seq<seq<Byte>>): System {
    System(Absent, seq(|owners|, i requires 0 <= i < |owners| => Proc(owners[i], Idle, false)))
  }

  function Run(s: System, actions: seq<Action>): System {
    if actions == [] then s else Act(Run(s, actions[..|actions| - 1]), actions[|actions| - 1])
  }

  /** Between a winning mkdir and the rmdir that ends it, crashed or not. */
  predicate Inside(pc: Pc) {
    !pc.Idle? && !pc.CallMkdir? && !pc.CallLstat? && !pc.Out?
  }

  /** What the directory contains while process `p` is inside. */
  predicate Shape(d: Dir, p: Proc) {
    && d.Present?
    && match p.pc
       case CallCreate => d.entries == map[]
       case CallWrite(done) => done <= |p.owner| && d.entries == map[Pending := p.owner[..done]]
       case CallSync => d.entries == map[Pending := p.owner]
       case CallClose => d.entries == map[Pending := p.owner]
       case CallCheckTarget => d.entries == map[Pending := p.owner]
       case CallPublish => d.entries == map[Pending := p.owner]
       case CleanPending => d.entries.Keys == {Pending}
       case CleanDirectory => d.entries.Keys <= {Pending}
       case ReleaseRmdir => d.entries == map[]
       case _ => d.entries == map[Owner := p.owner]
  }

  predicate Inv(s: System) {
    && (forall i | 0 <= i < |s.procs| && Inside(s.procs[i].pc) :: Shape(s.dir, s.procs[i]))
    && (forall i, j | 0 <= i < |s.procs| && 0 <= j < |s.procs| && Inside(s.procs[i].pc) && Inside(s.procs[j].pc) :: i == j)
    && (Has(s.dir, Owner) ==> exists i :: 0 <= i < |s.procs| && Inside(s.procs[i].pc))
  }

  /** A process outside leaves the directory alone, unless it enters one that was absent. */
  lemma {:induction false} CallFromOutside(d: Dir, p: Proc, fault: bool, chunk: nat)
    requires !Inside(p.pc)
    ensures var (d', p') := Call(d, p, fault, chunk);
            && p'.owner == p.owner && p'.crashed == p.crashed
            && if Inside(p'.pc) then d.Absent? && Shape(d', p') else d' == d
  {
  }

  /** A process inside keeps its shape or leaves, and never leaves a marker behind. */
  lemma {:induction false} CallFromInside(d: Dir, p: Proc, fault: bool, chunk: nat)
    requires Inside(p.pc) && Shape(d, p)
    ensures var (d', p') := Call(d, p, fault, chunk);
            && p'.owner == p.owner && p'.crashed == p.crashed
            && if Inside(p'.pc) then Shape(d', p') else !Has(d', Owner)
  {
    match p.pc
    case CallWrite(done) =>
      if done < |p.owner| {
        var n := 1 + chunk % (|p.owner| - done);
        assert p.owner[..done] + p.owner[done..done + n] == p.owner[..done + n];
      } else {
        assert p.owner[..done] == p.owner;
      }
    case _ =>
  }

  lemma {:induction false} StepKeepsInv(s: System, a: Action)
    requires Inv(s)
    ensures Inv(Act(s, a)) && |Act(s, a).procs| == |s.procs|
  {
    if a.i < |s.procs| && !s.procs[a.i].crashed && a.Step? {
      var t := Act(s, a);
      if Inside(s.procs[a.i].pc) {
        CallFromInside(s.dir, s.procs[a.i], a.fault, a.chunk);
      } else {
        CallFromOutside(s.dir, s.procs[a.i], a.fault, a.chunk);
      }
      hide Call, Shape;
      if Has(t.dir, Owner) && !Inside(t.procs[a.i].pc) {
        var i :| 0 <= i < |s.procs| && Inside(s.procs[i].pc);
        assert Inside(t.procs[i].pc);
      }
    } else if Has(s.dir, Owner) {
      var i :| 0 <= i < |s.procs| && Inside(s.procs[i].pc);
      assert Inside(Act(s, a).procs[i].pc);
    }
  }

  lemma {:induction false} RunKeepsInv(owners: seq<seq<Byte>>, actions: seq<Action>)
    ensures Inv(Run(Start(owners), actions)) && |Run(Start(owners), actions).procs| == |owners|
  {
    if actions != [] {
      RunKeepsInv(owners, actions[..|actions| - 1]);
      StepKeepsInv(Run(Start(owners), actions[..|actions| - 1]), actions[|actions| - 1]);
    }
  }

  // ---- The theorems ----

  /** At most one process is inside, and then the path is taken and shows nothing but what that process put there. */
  lemma {:induction false} MutualExclusion(owners: seq<seq<Byte>>, actions: seq<Action>, i: nat, j: nat)
    requires i < |owners| && j < |owners|
    ensures var s := Run(Start(owners), actions);
            && |s.procs| == |owners|
            && (Inside(s.procs[i].pc) && Inside(s.procs[j].pc) ==> i == j)
            && (Inside(s.procs[i].pc) ==> Shape(s.dir, s.procs[i]))
  {
    RunKeepsInv(owners, actions);
  }

  /** The name `owner` never denotes anything but the complete token of the process that is inside. */
  lemma {:induction false} OwnerIsNeverPartial(owners: seq<seq<Byte>>, actions: seq<Action>)
    ensures var s := Run(Start(owners), actions);
            Has(s.dir, Owner) ==>
              exists i :: 0 <= i < |s.procs| && Inside(s.procs[i].pc) && s.dir.entries == map[Owner := s.procs[i].owner]
  {
    RunKeepsInv(owners, actions);
    var s := Run(Start(owners), actions);
    hide Run;
    if Has(s.dir, Owner) {
      var i :| 0 <= i < |s.procs| && Inside(s.procs[i].pc);
      assert Shape(s.dir, s.procs[i]);
      assert s.dir.entries == map[Owner := s.procs[i].owner];
    }
  }

  /** A process that crashed inside keeps the lock for good: the directory never changes and no one else enters. */
  lemma {:induction false} CrashedHolderIsNeverStolen(owners: seq<seq<Byte>>, past: seq<Action>, future: seq<Action>, i: nat)
    requires i < |Run(Start(owners), past).procs|
    requires Run(Start(owners), past).procs[i].crashed && Inside(Run(Start(owners), past).procs[i].pc)
    ensures var s, t := Run(Start(owners), past), Run(Start(owners), past + future);
            && t.dir == s.dir && |t.procs| == |s.procs| && t.procs[i] == s.procs[i]
            && forall j | 0 <= j < |t.procs| && j != i :: !Inside(t.procs[j].pc)
  {
    RunKeepsInv(owners, past + future);
    RunKeepsInv(owners, past);
    if future == [] {
      assert past + future == past;
    } else {
      var n := |future| - 1;
      var u := Run(Start(owners), past + future[..n]);
      CrashedHolderIsNeverStolen(owners, past, future[..n], i);
      assert (past + future)[..|past + future| - 1] == past + future[..n];
      RunKeepsInv(owners, past + future[..n]);
      hide Run;
      var a := future[n];
      if a.Step? && a.i < |u.procs| && !u.procs[a.i].crashed {
        CallFromOutside(u.dir, u.procs[a.i], a.fault, a.chunk);
      }
    }
  }

  // ---- What an inspection sees ----

  /** A marker alone, or a crash window of acquisition or release. */
  predicate Tidy(d: Dir) {
    d.Present? ==> d.entries.Keys == {Owner} || d.entries.Keys <= {Pending}
  }

  lemma {:induction false} CallKeepsTidy(d: Dir, p: Proc, fault: bool, chunk: nat)
    requires Tidy(d) && (Inside(p.pc) ==> Shape(d, p))
    ensures Tidy(Call(d, p, fault, chunk).0)
  {
    if Inside(p.pc) {
      CallFromInside(d, p, fault, chunk);
    } else {
      CallFromOutside(d, p, fault, chunk);
    }
  }

  lemma {:induction false} RunKeepsTidy(owners: seq<seq<Byte>>, actions: seq<Action>)
    ensures Tidy(Run(Start(owners), actions).dir)
  {
    if actions != [] {
      var (s, a) := (Run(Start(owners), actions[..|actions| - 1]), actions[|actions| - 1]);
      RunKeepsTidy(owners, actions[..|actions| - 1]);
      RunKeepsInv(owners, actions[..|actions| - 1]);
      hide Call, Shape, Tidy;
      if a.Step? && a.i < |s.procs| {
        CallKeepsTidy(s.dir, s.procs[a.i], a.fault, a.chunk);
      }
    }
  }

  /**
   An inspection of the path, in every reachable state, reports nothing where it is absent, the owner inside once its
   marker is published, a crash window otherwise, and never a compromised lock.
   */
  lemma {:induction false} InspectionMatches(owners: seq<seq<Byte>>, actions: seq<Action>)
    requires forall i | 0 <= i < |owners| :: ReadMarker(owners[i]) == IsHeld(owners[i])
    ensures var s := Run(Start(owners), actions);
            Read(s.dir) ==
            if s.dir.Absent? then IsAbsent else if Has(s.dir, Owner) then IsHeld(s.dir.entries[Owner]) else IsIncomplete
  {
    RunKeepsTidy(owners, actions);
    OwnersStay(owners, actions);
    OwnerIsNeverPartial(owners, actions);
    var s := Run(Start(owners), actions);
    hide Run, ReadMarker, Inside;
    if Has(s.dir, Owner) {
      assert map[Owner := s.dir.entries[Owner]].Keys == {Owner};
    } else if s.dir.Present? {
      assert s.dir.entries.Keys == {} || s.dir.entries.Keys == {Pending};
    }
  }

  lemma {:induction false} OwnersStay(owners: seq<seq<Byte>>, actions: seq<Action>)
    ensures var s := Run(Start(owners), actions);
            |s.procs| == |owners| && forall i | 0 <= i < |owners| :: s.procs[i].owner == owners[i]
  {
    if actions != [] {
      OwnersStay(owners, actions[..|actions| - 1]);
      StepKeepsOwners(Run(Start(owners), actions[..|actions| - 1]), actions[|actions| - 1]);
    }
  }

  lemma {:induction false} StepKeepsOwners(s: System, a: Action)
    ensures |Act(s, a).procs| == |s.procs| && forall i | 0 <= i < |s.procs| :: Act(s, a).procs[i].owner == s.procs[i].owner
  {
  }

  // ---- Acquisition ----

  /** The winner of the mkdir, on its way to holding. */
  predicate Entering(pc: Pc) {
    pc.CallCreate? || pc.CallWrite? || pc.CallSync? || pc.CallClose? || pc.CallCheckTarget? || pc.CallPublish?
  }

  /** An upper bound on the calls that are left before it holds: a write delivers at least one byte. */
  function LeftToHold(p: Proc): nat {
    match p.pc
    case CallCreate => |p.owner| + 6
    case CallWrite(done) => (if done < |p.owner| then |p.owner| - done else 0) + 5
    case CallSync => 4
    case CallClose => 3
    case CallCheckTarget => 2
    case CallPublish => 1
    case _ => 0
  }

  /** A fault-free mkdir wins exactly on an absent path; contention is told to who sees the path or has lost twice. */
  lemma {:induction false} MkdirDecides(d: Dir, p: Proc, chunk: nat)
    requires p.pc.CallMkdir? || p.pc.CallLstat?
    ensures var (d', p') := Call(d, p, false, chunk);
            && (Inside(p'.pc) <==> p.pc.CallMkdir? && d.Absent?)
            && (p'.pc == Out(Contended) <==> p.pc.CallLstat? && (d.Present? || p.pc.attempt > 0))
            && p'.pc != Out(AcquireFailed)
            && d' == (if Inside(p'.pc) then Present(map[]) else d)
  {
  }

  /** No fault-free call of the winner is refused, in any reachable state, and the last one publishes its token. */
  lemma {:induction false} AcquireAdvances(owners: seq<seq<Byte>>, past: seq<Action>, i: nat, chunk: nat)
    requires i < |Run(Start(owners), past).procs|
    requires var p := Run(Start(owners), past).procs[i]; Entering(p.pc) && !p.crashed
    ensures var s := Run(Start(owners), past);
            var t := Act(s, Step(i, false, chunk));
            var (p, q) := (s.procs[i], t.procs[i]);
            && LeftToHold(q) < LeftToHold(p) && !q.crashed && q.owner == p.owner
            && (Entering(q.pc) || q.pc.Holding?)
            && (q.pc.Holding? <==> p.pc.CallPublish?)
            && (q.pc.Holding? ==> t.dir == Present(map[Owner := p.owner]))
  {
    RunKeepsInv(owners, past);
    hide Run;
    var s := Run(Start(owners), past);
    assert Shape(s.dir, s.procs[i]);
    CallFromInside(s.dir, s.procs[i], false, chunk);
  }

  /** Nobody else moves a process, and its own beginning means nothing while it is inside. */
  lemma {:induction false} Undisturbed(s: System, a: Action, i: nat)
    requires i < |s.procs|
    requires a.i != i || (a.Begin? && Inside(s.procs[i].pc)) || (a.Step? && s.procs[i].pc.Holding?)
    ensures i < |Act(s, a).procs| && Act(s, a).procs[i] == s.procs[i]
  {
  }

  /** The process neither crashes nor meets a fault, and does not release. */
  predicate OnlyAcquires(actions: seq<Action>, i: nat) {
    forall a | a in actions && a.i == i :: a.Begin? || (a.Step? && !a.fault)
  }

  /**
   Whatever the others do between its calls, crashing included, a process that has won the mkdir and meets no fault
   never backs out, and holds the lock after at most six calls and one for each byte of its token.
   */
  lemma {:induction false} AcquireSucceeds(owners: seq<seq<Byte>>, past: seq<Action>, future: seq<Action>, i: nat)
    requires i < |Run(Start(owners), past).procs|
    requires var p := Run(Start(owners), past).procs[i]; p.pc.CallCreate? && !p.crashed
    requires OnlyAcquires(future, i)
    ensures |Run(Start(owners), past + future).procs| == |owners| && i < |owners|
    ensures var (p, calls) := (Run(Start(owners), past + future).procs[i], CallsOf(future, i));
            && !p.crashed && p.owner == owners[i] && (Entering(p.pc) || p.pc.Holding?)
            && LeftToHold(p) + calls <= (if p.pc.Holding? then calls else |p.owner| + 6)
            && (calls >= |p.owner| + 6 ==> p.pc.Holding?)
  {
    hide Run, Act, Inv, Inside;
    OwnersStay(owners, past + future);
    if future == [] {
      assert past + future == past;
    } else {
      var (n, a) := (|future| - 1, future[|future| - 1]);
      assert a in future;
      AcquireSucceeds(owners, past, future[..n], i);
      LastStep(Start(owners), past, future);
      var s := Run(Start(owners), past + future[..n]);
      if a.i == i && a.Step? && Entering(s.procs[i].pc) {
        AcquireAdvances(owners, past + future[..n], i, a.chunk);
      } else {
        EnteringIsInside(s.procs[i].pc);
        Undisturbed(s, a, i);
      }
    }
  }

  lemma {:induction false} EnteringIsInside(pc: Pc)
    requires Entering(pc) || pc.Holding?
    ensures Inside(pc)
  {
  }

  lemma {:induction false} LastStep(s: System, past: seq<Action>, future: seq<Action>)
    requires future != []
    ensures var n := |future| - 1; Run(s, past + future) == Act(Run(s, past + future[..n]), future[n])
  {
    assert (past + future)[..|past + future| - 1] == past + future[..|future| - 1];
    hide Act;
  }

  /** A winner that met a fault and meets no other backs out completely, in any reachable state: marker, then directory. */
  lemma {:induction false} BackingOutFrees(owners: seq<seq<Byte>>, past: seq<Action>, i: nat, chunk: nat)
    requires i < |Run(Start(owners), past).procs|
    requires var p := Run(Start(owners), past).procs[i]; p.pc.CleanPending? && !p.crashed
    ensures var s := Run(Start(owners), past);
            var t := Act(Act(s, Step(i, false, chunk)), Step(i, false, chunk));
            t.dir.Absent? && t.procs[i].pc == Out(AcquireFailed)
  {
    RunKeepsInv(owners, past);
    hide Run;
    var s := Run(Start(owners), past);
    assert Shape(s.dir, s.procs[i]);
    assert s.dir.entries - {Pending} == map[];
  }

  // ---- Release ----

  /** Calls a release still needs; the last one is the rmdir. */
  function Remaining(pc: Pc): nat {
    match pc
    case ReleaseLstat => 4
    case ReleaseRead => 3
    case ReleaseUnlink => 2
    case ReleaseRmdir => 1
    case _ => 0
  }

  /** No fault-free call of a release is refused, in any reachable state, and the last one frees the path. */
  lemma {:induction false} ReleaseAdvances(owners: seq<seq<Byte>>, past: seq<Action>, i: nat, chunk: nat)
    requires i < |Run(Start(owners), past).procs|
    requires var p := Run(Start(owners), past).procs[i]; Remaining(p.pc) > 0 && !p.crashed
    ensures var s := Run(Start(owners), past);
            var t := Act(s, Step(i, false, chunk));
            && Remaining(t.procs[i].pc) == Remaining(s.procs[i].pc) - 1 && !t.procs[i].crashed
            && (t.procs[i].pc.Out? <==> s.procs[i].pc.ReleaseRmdir?)
            && (t.procs[i].pc.Out? ==> t.procs[i].pc == Out(Released) && t.dir.Absent?)
  {
    RunKeepsInv(owners, past);
    hide Run;
    var s := Run(Start(owners), past);
    assert Shape(s.dir, s.procs[i]);
  }

  /** The calls of process `i` in a run. */
  function CallsOf(actions: seq<Action>, i: nat): nat {
    if actions == [] then 0
    else CallsOf(actions[..|actions| - 1], i) + if actions[|actions| - 1].Step? && actions[|actions| - 1].i == i then 1 else 0
  }

  /** The process neither crashes nor meets a fault, and starts nothing new. */
  predicate OnlyReleases(actions: seq<Action>, i: nat) {
    forall a | a in actions && a.i == i :: a.BeginRelease? || (a.Step? && !a.fault)
  }

  /**
   Whatever the others do between its calls, crashing included, a release that meets no fault is never refused: it is
   over, successfully, if and only if it has made its four calls.
   */
  lemma {:induction false} ReleaseSucceeds(owners: seq<seq<Byte>>, past: seq<Action>, future: seq<Action>, i: nat)
    requires i < |Run(Start(owners), past).procs|
    requires var p := Run(Start(owners), past).procs[i]; p.pc.ReleaseLstat? && !p.crashed
    requires OnlyReleases(future, i)
    ensures |Run(Start(owners), past + future).procs| == |owners| && i < |owners|
    ensures var (p, calls) := (Run(Start(owners), past + future).procs[i], CallsOf(future, i));
            && !p.crashed
            && (if calls < 4 then Remaining(p.pc) == 4 - calls else p.pc == Out(Released))
  {
    hide Run, Act, Inv, Inside;
    OwnersStay(owners, past + future);
    if future == [] {
      assert past + future == past;
    } else {
      var (n, a) := (|future| - 1, future[|future| - 1]);
      assert a in future;
      ReleaseSucceeds(owners, past, future[..n], i);
      LastStep(Start(owners), past, future);
      var s := Run(Start(owners), past + future[..n]);
      if a.i == i && a.Step? && CallsOf(future[..n], i) < 4 {
        ReleaseAdvances(owners, past + future[..n], i, a.chunk);
      } else {
        StaysReleased(s, a, i);
      }
    }
  }

  lemma {:induction false} StaysReleased(s: System, a: Action, i: nat)
    requires i < |s.procs| && (Remaining(s.procs[i].pc) > 0 || s.procs[i].pc.Out?)
    requires a.i != i || a.BeginRelease? || (a.Step? && s.procs[i].pc.Out?)
    ensures i < |Act(s, a).procs| && Act(s, a).procs[i] == s.procs[i]
  {
  }
}
