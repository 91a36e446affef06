/**
 Explicit recovery of one crashed generation: any number of concurrent recoverers, interleaved at every system call,
 crashing at any of them, with no acquirer and no I/O failure.
 */
module LocalFileRecovery {
  import opened Outcomes
  import opened UnicodeText
  import opened LockDirectory

  /** `round` is 1 and 2 for the inspections before the claim, 3 for the one after a lost claim. */
  datatype Pc =
    | Idle
    | InspectPath(round: nat)
    | InspectNames(round: nat)
    | InspectOwner(round: nat)
    | Claim
    | RemoveClaim
    | RemoveDirectory
    | Done(recovered: bool)
    | Refused
    | Crashed

  datatype Recoverer = Recoverer(expected: seq<Byte>, pc: Pc)

  /** The destructive effects, in order: who claimed the marker, who removed it, who removed the directory. */
  datatype Effect = Claimed(i: nat, marker: seq<Byte>) | MarkerRemoved(i: nat) | DirectoryRemoved(i: nat)

  datatype System = System(dir: Dir, recs: seq<Recoverer>, log: seq<Effect>)

  datatype Action = Begin(i: nat) | Step(i: nat) | Crash(i: nat)

  /** What a recoverer does with the result of an inspection. */
  function Conclude(round: nat, found: Inspection, expected: seq<Byte>): Pc {
    if round == 1 then
      if found.IsAbsent? then Done(false)
      else if found == IsHeld(expected) then InspectPath(2)
      else Refused
    else if round == 2 then
      if found == IsHeld(expected) then Claim else Refused
    else if found.IsAbsent? || found.IsIncomplete? then Done(false)
    else Refused
  }

  function Inspect(d: Dir, r: Recoverer): Pc
    requires r.pc.InspectPath? || r.pc.InspectNames? || r.pc.InspectOwner?
  {
    match r.pc
    case InspectPath(round) => if d.Absent? then Conclude(round, IsAbsent, r.expected) else InspectNames(round)
    case InspectNames(round) =>
      if d.Absent? then Refused
      else
        var found := ReadNames(d.entries.Keys);
        if found.Some? then Conclude(round, found.value, r.expected) else InspectOwner(round)
    case InspectOwner(round) =>
      Conclude(round, if Has(d, Owner) then ReadMarker(d.entries[Owner]) else IsIncomplete, r.expected)
  }

  function Act(s: System, a: Action): System {
    if a.i >= |s.recs| then s
    else
      var r := s.recs[a.i];
      match a
      case Begin(i) => if r.pc.Idle? then s.(recs := s.recs[i := r.(pc := InspectPath(1))]) else s
      case Crash(i) => if r.pc.Done? || r.pc.Refused? then s else s.(recs := s.recs[i := r.(pc := Crashed)])
      case Step(i) =>
        match r.pc
        case Claim =>
          var (d, e) := Rename(s.dir, Owner, Recovering);
          if e.Some? then s.(recs := s.recs[i := r.(pc := InspectPath(3))])
          else System(d, s.recs[i := r.(pc := RemoveClaim)], s.log + [Claimed(i, s.dir.entries[Owner])])
        case RemoveClaim =>
          var (d, e) := Unlink(s.dir, Recovering);
          if e.Some? then s.(recs := s.recs[i := r.(pc := Refused)])
          else System(d, s.recs[i := r.(pc := RemoveDirectory)], s.log + [MarkerRemoved(i)])
        case RemoveDirectory =>
          var (d, e) := Rmdir(s.dir);
          if e.None? then System(d, s.recs[i := r.(pc := Done(true))], s.log + [DirectoryRemoved(i)])
          else s.(recs := s.recs[i := r.(pc := if e.value.NotFound? then Done(true) else Refused)])
        case InspectPath(_) => s.(recs := s.recs[i := r.(pc := Inspect(s.dir, r))])
        case InspectNames(_) => s.(recs := s.recs[i := r.(pc := Inspect(s.dir, r))])
        case InspectOwner(_) => s.(recs := s.recs[i := r.(pc := Inspect(s.dir, r))])
        case _ => s
  }

  function Start(token: seq<Byte>, expected: seq<seq<Byte>>): System {
    System(Present(map[Owner := token]), seq(|expected|, i requires 0 <= i < |expected| => Recoverer(expected[i], Idle)), [])
  }

  function Run(s: System, actions: seq<Action>): System {
    if actions == [] then s else Act(Run(s, actions[..|actions| - 1]), actions[|actions| - 1])
  }

  /** A call that has claimed the marker, or reports having recovered. */
  predicate PastClaim(pc: Pc) {
    pc.RemoveClaim? || pc.RemoveDirectory? || (pc.Done? && pc.recovered)
  }

  predicate Round(pc: Pc, k: nat) {
    (pc.InspectPath? || pc.InspectNames? || pc.InspectOwner?) && pc.round == k
  }

  /** Before any claim: who may be where, by whether the expected token is the one stored. */
  predicate BeforeClaim(token: seq<Byte>, r: Recoverer) {
    || r.pc.Idle? || r.pc.Crashed? || Round(r.pc, 1)
    || (if r.expected == token then Round(r.pc, 2) || r.pc.Claim? else r.pc.Refused?)
  }

  /** The destructive effects are an initial part of one recoverer's claim, removal and rmdir. */
  predicate Inv(token: seq<Byte>, s: System) {
    match |s.log|
    case 0 =>
      && s.dir == Present(map[Owner := token])
      && forall i | 0 <= i < |s.recs| :: BeforeClaim(token, s.recs[i])
    case 1 =>
      && s.log[0].Claimed? && s.log[0].marker == token && s.dir == Present(map[Recovering := token])
      && AloneAt(token, s, s.log[0].i, RemoveClaim)
    case 2 =>
      && s.log[0].Claimed? && s.log[0].marker == token && s.dir == Present(map[])
      && s.log[1] == MarkerRemoved(s.log[0].i) && AloneAt(token, s, s.log[0].i, RemoveDirectory)
    case 3 =>
      && s.log[0].Claimed? && s.log[0].marker == token && s.dir == Absent
      && s.log[1] == MarkerRemoved(s.log[0].i) && s.log[2] == DirectoryRemoved(s.log[0].i)
      && AloneAt(token, s, s.log[0].i, Done(true))
    case _ => false
  }

  /** Only `winner`, who named the stored owner, has claimed the marker; it is at `pc`, unless it crashed there. */
  predicate AloneAt(token: seq<Byte>, s: System, winner: nat, pc: Pc) {
    && winner < |s.recs| && s.recs[winner].expected == token
    && (s.recs[winner].pc == pc || (s.recs[winner].pc.Crashed? && !pc.Done?))
    && forall i | 0 <= i < |s.recs| && i != winner :: !PastClaim(s.recs[i].pc)
  }

  /** An inspection never claims, and on the untouched lock it moves only those who named the stored owner on. */
  lemma {:induction false} InspectionIsSafe(token: seq<Byte>, d: Dir, r: Recoverer)
    requires ReadMarker(token) == IsHeld(token)
    requires r.pc.InspectPath? || r.pc.InspectNames? || r.pc.InspectOwner?
    ensures !PastClaim(Inspect(d, r)) && !Inspect(d, r).Idle? && !Inspect(d, r).Crashed?
    ensures d == Present(map[Owner := token]) && BeforeClaim(token, r) ==> BeforeClaim(token, r.(pc := Inspect(d, r)))
  {
    hide ReadMarker;
    assert map[Owner := token].Keys == {Owner};
  }

  lemma {:induction false} ClaimantKeepsInv(token: seq<Byte>, s: System, i: nat)
    requires Inv(token, s) && i < |s.recs|
    requires s.recs[i].pc.Claim? || s.recs[i].pc.RemoveClaim? || s.recs[i].pc.RemoveDirectory?
    ensures Inv(token, Act(s, Step(i)))
  {
    assert map[Owner := token] - {Owner} == map[] && map[Recovering := token] - {Recovering} == map[];
  }

  lemma {:induction false} StepKeepsInv(token: seq<Byte>, s: System, a: Action)
    requires ReadMarker(token) == IsHeld(token) && Inv(token, s)
    ensures Inv(token, Act(s, a)) && |Act(s, a).recs| == |s.recs|
    ensures forall i | 0 <= i < |s.recs| :: Act(s, a).recs[i].expected == s.recs[i].expected
  {
    if a.i < |s.recs| && a.Step? {
      var r := s.recs[a.i];
      if r.pc.InspectPath? || r.pc.InspectNames? || r.pc.InspectOwner? {
        InspectionIsSafe(token, s.dir, r);
      } else if r.pc.Claim? || r.pc.RemoveClaim? || r.pc.RemoveDirectory? {
        ClaimantKeepsInv(token, s, a.i);
        hide Inv;
      }
    }
    hide ReadMarker, Inspect;
  }

  lemma {:induction false} RunKeepsInv(token: seq<Byte>, expected: seq<seq<Byte>>, actions: seq<Action>)
    requires ReadMarker(token) == IsHeld(token)
    ensures var s := Run(Start(token, expected), actions);
            Inv(token, s) && |s.recs| == |expected| && forall i | 0 <= i < |expected| :: s.recs[i].expected == expected[i]
  {
    if actions != [] {
      hide Inv, Act;
      RunKeepsInv(token, expected, actions[..|actions| - 1]);
      StepKeepsInv(token, Run(Start(token, expected), actions[..|actions| - 1]), actions[|actions| - 1]);
    }
  }

  // ---- The theorems ----

  /** In every state at most one call has recovered, and only the authenticated marker and its directory are gone. */
  lemma {:induction false} AtMostOneRecovers(
    token: seq<Byte>, expected: seq<seq<Byte>>, actions: seq<Action>, i: nat, j: nat)
    requires ReadMarker(token) == IsHeld(token) && i < |expected| && j < |expected|
    ensures var s := Run(Start(token, expected), actions);
            && |s.recs| == |expected|
            && (s.recs[i].pc == Done(true) && s.recs[j].pc == Done(true) ==> i == j)
            && (s.recs[i].pc == Done(true) ==> s.dir.Absent?)
            && exists w :: s.log <= [Claimed(w, token), MarkerRemoved(w), DirectoryRemoved(w)]
  {
    RunKeepsInv(token, expected, actions);
    hide Run;
    var s := Run(Start(token, expected), actions);
    if s.log == [] {
      assert s.log <= [Claimed(0, token), MarkerRemoved(0), DirectoryRemoved(0)];
    } else {
      var w := s.log[0].i;
      assert s.log <= [Claimed(w, token), MarkerRemoved(w), DirectoryRemoved(w)];
    }
  }

  /**
   When every call has completed and at least one named the right owner, exactly one call returned true, the
   directory is gone, and exactly the marker and the directory were removed; with no right name, nothing changed.
   */
  lemma {:induction false} ExactlyOneRecovers(token: seq<Byte>, expected: seq<seq<Byte>>, actions: seq<Action>)
    requires ReadMarker(token) == IsHeld(token)
    requires forall i | 0 <= i < |Run(Start(token, expected), actions).recs| ::
               var pc := Run(Start(token, expected), actions).recs[i].pc; pc.Done? || pc.Refused?
    ensures var s := Run(Start(token, expected), actions);
            if token in expected then
              && s.dir.Absent?
              && exists w :: 0 <= w < |s.recs| && s.log == [Claimed(w, token), MarkerRemoved(w), DirectoryRemoved(w)]
                   && s.recs[w].pc == Done(true) && forall i | 0 <= i < |s.recs| && i != w :: s.recs[i].pc != Done(true)
            else s.log == [] && s.dir == Present(map[Owner := token])
  {
    RunKeepsInv(token, expected, actions);
    hide Run;
    var s := Run(Start(token, expected), actions);
    if token in expected {
      var k :| 0 <= k < |expected| && expected[k] == token;
      assert s.recs[k].expected == token;
      var w := s.log[0].i;
      assert s.log == [Claimed(w, token), MarkerRemoved(w), DirectoryRemoved(w)];
    }
  }

  // ---- What each call is told ----

  /** This step ends in `false`: the path was gone, or the claim was lost and the lock is going. */
  predicate TurnsFalse(d: Dir, r: Recoverer) {
    match r.pc
    case InspectPath(round) => d.Absent? && round != 2
    case InspectNames(round) => d.Present? && round == 3
    case _ => false
  }

  /** This step ends in an error: the path vanished under it, another owner is stored, or the marker is gone. */
  predicate TurnsRefused(token: seq<Byte>, d: Dir, r: Recoverer) {
    match r.pc
    case InspectPath(round) => d.Absent? && round == 2
    case InspectNames(round) => d.Absent? || (round != 3 && !Has(d, Owner))
    case InspectOwner(round) => !Has(d, Owner) || r.expected != token
    case _ => false
  }

  /** A third inspection begins only once somebody has claimed the marker. */
  lemma {:induction false} ThirdRoundMeansLost(token: seq<Byte>, s: System, i: nat)
    requires Inv(token, s) && i < |s.recs| && Round(s.recs[i].pc, 3)
    ensures !Has(s.dir, Owner)
  {
  }

  predicate RoundsAre123(recs: seq<Recoverer>) {
    forall i | 0 <= i < |recs| ::
      var pc := recs[i].pc;
      && (pc.InspectPath? || pc.InspectNames? ==> 1 <= pc.round <= 3)
      && (pc.InspectOwner? ==> 1 <= pc.round <= 2)
  }

  lemma {:induction false} StepKeepsRounds(token: seq<Byte>, s: System, a: Action)
    requires Inv(token, s) && RoundsAre123(s.recs)
    ensures RoundsAre123(Act(s, a).recs)
  {
    if a.i < |s.recs| && Round(s.recs[a.i].pc, 3) {
      ThirdRoundMeansLost(token, s, a.i);
      NamesWithoutOwner(token, s);
    }
    hide Inv, ReadMarker, ReadNames;
  }

  /** After the claim the directory shows a crash window and nothing else. */
  lemma {:induction false} NamesWithoutOwner(token: seq<Byte>, s: System)
    requires Inv(token, s)
    ensures s.dir.Present? && !Has(s.dir, Owner) ==> ReadNames(s.dir.entries.Keys) == Some(IsIncomplete)
    ensures s.dir.Present? && Has(s.dir, Owner) ==> ReadNames(s.dir.entries.Keys) == None && s.dir.entries[Owner] == token
  {
    assert map[Owner := token].Keys == {Owner} && map[Recovering := token].Keys == {Recovering};
  }

  lemma {:induction false} RunKeepsRounds(token: seq<Byte>, expected: seq<seq<Byte>>, actions: seq<Action>)
    requires ReadMarker(token) == IsHeld(token)
    ensures RoundsAre123(Run(Start(token, expected), actions).recs)
  {
    if actions != [] {
      hide Inv, Act, RoundsAre123;
      RunKeepsRounds(token, expected, actions[..|actions| - 1]);
      RunKeepsInv(token, expected, actions[..|actions| - 1]);
      StepKeepsRounds(token, Run(Start(token, expected), actions[..|actions| - 1]), actions[|actions| - 1]);
    } else {
      assert RoundsAre123(Run(Start(token, expected), []).recs);
    }
  }

  /**
   In every reachable state a call is told `false` exactly when it finds the path gone at first, or has lost the claim
   and finds the path gone or emptying; every other end without a claim is an error. A claim is won exactly when the
   marker is still there.
   */
  lemma {:induction false} LosersAreTold(token: seq<Byte>, expected: seq<seq<Byte>>, actions: seq<Action>, i: nat)
    requires ReadMarker(token) == IsHeld(token) && i < |Run(Start(token, expected), actions).recs|
    ensures var s := Run(Start(token, expected), actions);
            var (r, pc) := (s.recs[i], Act(s, Step(i)).recs[i].pc);
            (Round(r.pc, 1) || Round(r.pc, 2) || Round(r.pc, 3) || r.pc.Claim? ==>
               && (pc == Done(false) <==> TurnsFalse(s.dir, r))
               && (pc.Refused? <==> TurnsRefused(token, s.dir, r))
               && (pc.RemoveClaim? <==> r.pc.Claim? && Has(s.dir, Owner))
               && (pc.Claim? <==> r.pc == InspectOwner(2) && Has(s.dir, Owner) && r.expected == token))
  {
    RunKeepsInv(token, expected, actions);
    RunKeepsRounds(token, expected, actions);
    hide Run;
    var s := Run(Start(token, expected), actions);
    NamesWithoutOwner(token, s);
    if Round(s.recs[i].pc, 3) {
      ThirdRoundMeansLost(token, s, i);
    }
    hide Inv, ReadNames, ReadMarker;
    assert RoundsAre123(s.recs);
  }

  /**
   What a claimant does on any directory at all, tampered with or not: it removes its own claim and an empty directory,
   takes a directory that is gone for removed, and refuses a claim that is gone or a directory with anything in it.
   */
  lemma {:induction false} RemovalIsExact(s: System, i: nat)
    requires i < |s.recs| && (s.recs[i].pc.RemoveClaim? || s.recs[i].pc.RemoveDirectory?)
    ensures var t := Act(s, Step(i));
            if s.recs[i].pc.RemoveClaim? then
              if Has(s.dir, Recovering) then
                t.recs[i].pc.RemoveDirectory? && t.dir == Present(s.dir.entries - {Recovering})
              else t.recs[i].pc.Refused? && t.dir == s.dir && t.log == s.log
            else if s.dir.Absent? then t.recs[i].pc == Done(true) && t.dir == s.dir && t.log == s.log
            else if s.dir.entries == map[] then t.recs[i].pc == Done(true) && t.dir.Absent?
            else t.recs[i].pc.Refused? && t.dir == s.dir && t.log == s.log
  {
  }

  // ---- Every call ends ----

  /** An upper bound on the system calls a recoverer still makes. */
  function Remaining(pc: Pc): nat {
    match pc
    case InspectPath(round) => if round == 1 then 10 else if round == 2 then 7 else 3
    case InspectNames(round) => if round == 1 then 9 else if round == 2 then 6 else 2
    case InspectOwner(round) => if round == 1 then 8 else if round == 2 then 5 else 1
    case Claim => 4
    case RemoveClaim => 2
    case RemoveDirectory => 1
    case _ => 0
  }

  function CallsOf(actions: seq<Action>, i: nat): nat {
    if actions == [] then 0
    else CallsOf(actions[..|actions| - 1], i) + if actions[|actions| - 1] == Step(i) then 1 else 0
  }

  lemma {:induction false} CallsDescend(s: System, a: Action, i: nat)
    requires i < |s.recs| && !s.recs[i].pc.Idle?
    ensures |Act(s, a).recs| == |s.recs| && !Act(s, a).recs[i].pc.Idle?
    ensures var (before, after) := (Remaining(s.recs[i].pc), Remaining(Act(s, a).recs[i].pc));
            after <= before && (a == Step(i) && before > 0 ==> after < before)
  {
    if a.i < |s.recs| && a.Step? {
      var r := s.recs[a.i];
      if r.pc.InspectPath? || r.pc.InspectNames? || r.pc.InspectOwner? {
        hide ReadMarker, ReadNames;
      }
    }
  }

  /** Whatever the others do, and in whatever state it began, a call that does not crash ends within ten system calls. */
  lemma {:induction false} EveryCallEnds(s: System, actions: seq<Action>, i: nat)
    requires i < |s.recs| && !s.recs[i].pc.Idle?
    ensures i < |Run(s, actions).recs| && !Run(s, actions).recs[i].pc.Idle?
    ensures Remaining(Run(s, actions).recs[i].pc) + CallsOf(actions, i) <= Remaining(s.recs[i].pc)
            || Remaining(Run(s, actions).recs[i].pc) == 0
    ensures CallsOf(actions, i) >= 10 ==>
              var pc := Run(s, actions).recs[i].pc; pc.Done? || pc.Refused? || pc.Crashed?
  {
    if actions != [] {
      var n := |actions| - 1;
      EveryCallEnds(s, actions[..n], i);
      CallsDescend(Run(s, actions[..n]), actions[n], i);
      hide Act;
    }
  }
}
