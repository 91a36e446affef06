/**
 Queued acquisition with cancellation. The client runs against a queueing server that others use, and that may promote
 or expire grants, between any two of its steps; any request or reply may be lost.
 */
module Fiducia {
  import opened Outcomes

  /** The stable identity of one logical acquisition. */
  datatype Claim = Claim(holder: string, request: string)

  datatype Held = Held(claim: Claim, token: nat)

  datatype Server = Server(queue: seq<Claim>, held: Option<Held>, counter: nat)

  function Without(queue: seq<Claim>, c: Claim): (r: seq<Claim>)
    ensures c !in r && forall d | d != c :: d in r <==> d in queue
  {
    if queue == [] then []
    else if queue[0] == c then Without(queue[1..], c)
    else [queue[0]] + Without(queue[1..], c)
  }

  predicate Holds(s: Server, c: Claim) {
    s.held.Some? && s.held.value.claim == c
  }

  /** The server still has something for this acquisition: a queue entry or a grant. */
  predicate Involved(s: Server, c: Claim) {
    c in s.queue || Holds(s, c)
  }

  predicate Distinct(queue: seq<Claim>) {
    forall i, j | 0 <= i < j < |queue| :: queue[i] != queue[j]
  }

  /** A queue without duplicates, none of whose entries holds the lock. */
  predicate WellFormed(s: Server) {
    && Distinct(s.queue)
    && (s.held.Some? ==> s.held.value.claim !in s.queue && 0 < s.held.value.token <= s.counter)
  }

  datatype AcquireReply = AcquireReply(acquired: bool, token: nat)

  function GrantTo(s: Server, c: Claim): Server {
    Server(Without(s.queue, c), Some(Held(c, s.counter + 1)), s.counter + 1)
  }

  /** Same claim, same grant; a free lock goes to the head of the queue; waiting requests queue, others do not. */
  function ServeAcquire(s: Server, c: Claim, wait: bool): (Server, AcquireReply) {
    if Holds(s, c) then (s, AcquireReply(true, s.held.value.token))
    else if s.held.None? && (s.queue == [] || s.queue[0] == c) then (GrantTo(s, c), AcquireReply(true, s.counter + 1))
    else (if wait && c !in s.queue then s.(queue := s.queue + [c]) else s, AcquireReply(false, 0))
  }

  datatype CancelReply = CancelReply(cancelled: bool, grant: Option<Held>)

  /** A grant that won the race is reported, not withdrawn; with neither entry nor grant, `idle` is the answer. */
  function ServeCancel(s: Server, c: Claim, idle: bool): (Server, CancelReply) {
    if Holds(s, c) then (s, CancelReply(false, s.held))
    else if c in s.queue then (s.(queue := Without(s.queue, c)), CancelReply(true, None))
    else (s, CancelReply(idle, None))
  }

  function ServeRelease(s: Server, holder: string, token: nat): (Server, bool) {
    if s.held.Some? && s.held.value.claim.holder == holder && s.held.value.token == token then (s.(held := None), true)
    else (s, false)
  }

  /** What happens at the server without this client. */
  datatype Foreign =
    | Promote
    | Expire
    | OtherAcquires(c: Claim, wait: bool)
    | OtherCancels(c: Claim, idle: bool)
    | OtherReleases(holder: string, token: nat)

  function Occur(s: Server, me: Claim, f: Foreign): Server {
    match f
    case Promote => if s.held.None? && s.queue != [] then GrantTo(s, s.queue[0]) else s
    case Expire => s.(held := None)
    case OtherAcquires(c, wait) => if c == me then s else ServeAcquire(s, c, wait).0
    case OtherCancels(c, idle) => if c == me then s else ServeCancel(s, c, idle).0
    case OtherReleases(holder, token) => if Holds(s, me) then s else ServeRelease(s, holder, token).0
  }

  lemma {:induction false} WithoutKeepsDistinct(queue: seq<Claim>, c: Claim)
    requires Distinct(queue)
    ensures Distinct(Without(queue, c))
  {
    if queue != [] {
      WithoutKeepsDistinct(queue[1..], c);
      if queue[0] != c {
        assert queue[0] !in queue[1..];
        assert queue[0] !in Without(queue[1..], c);
      }
    }
  }

  lemma {:induction false} GrantKeepsWellFormed(s: Server, c: Claim)
    requires WellFormed(s) && s.held.None?
    ensures WellFormed(GrantTo(s, c))
  {
    WithoutKeepsDistinct(s.queue, c);
  }

  lemma {:induction false} ServeKeepsWellFormed(s: Server, c: Claim, b: bool)
    requires WellFormed(s)
    ensures WellFormed(ServeAcquire(s, c, b).0) && WellFormed(ServeCancel(s, c, b).0)
  {
    WithoutKeepsDistinct(s.queue, c);
    if s.held.None? {
      GrantKeepsWellFormed(s, c);
    }
  }

  /** The others can move our claim from the queue to the lock or drop its grant; they cannot bring it back. */
  lemma {:induction false} ForeignIsHarmless(s: Server, me: Claim, f: Foreign)
    requires WellFormed(s)
    ensures WellFormed(Occur(s, me, f))
    ensures !Involved(s, me) ==> !Involved(Occur(s, me, f), me)
    ensures me !in s.queue ==> me !in Occur(s, me, f).queue
    ensures me !in s.queue && Holds(Occur(s, me, f), me) ==> Occur(s, me, f).held == s.held
  {
    match f
    case Promote =>
      if s.held.None? && s.queue != [] {
        GrantKeepsWellFormed(s, s.queue[0]);
      }
    case OtherAcquires(c, wait) => ServeKeepsWellFormed(s, c, wait);
    case OtherCancels(c, idle) => ServeKeepsWellFormed(s, c, idle);
    case _ =>
  }

  /** The fate of one HTTP exchange. */
  datatype Net = RequestLost | ReplyLost | Delivered

  /** What the server has been asked by this client, with its answers. */
  datatype Asked =
    | AskedAcquire(acquired: bool)
    | AskedCancel(raced: Option<nat>)
    | AskedRelease(token: nat, released: bool)

  predicate Extends(before: seq<Asked>, after: seq<Asked>) {
    before <= after
  }

  predicate NoAcquires(log: seq<Asked>) {
    forall i | 0 <= i < |log| :: !log[i].AskedAcquire?
  }

  /** Some acquire in this part of a log was answered with the grant. */
  predicate GrantSeen(log: seq<Asked>) {
    AskedAcquire(true) in log
  }

  class QueueServer {
    var state: Server
    var log: seq<Asked>

    constructor (s: Server)
      ensures state == s && log == []
    {
      state, log := s, [];
    }

    method Interfere(me: Claim, events: seq<Foreign>)
      requires WellFormed(state)
      modifies this`state
      ensures WellFormed(state)
      ensures events == [] ==> state == old(state)
      ensures !Involved(old(state), me) ==> !Involved(state, me)
      ensures me !in old(state).queue ==>
                me !in state.queue && (Holds(state, me) ==> state.held == old(state).held)
    {
      for i := 0 to |events|
        invariant WellFormed(state) && (i == 0 ==> state == old(state))
        invariant !Involved(old(state), me) ==> !Involved(state, me)
        invariant me !in old(state).queue ==>
                    me !in state.queue && (Holds(state, me) ==> state.held == old(state).held)
      {
        ForeignIsHarmless(state, me, events[i]);
        state := Occur(state, me, events[i]);
      }
    }

    method PostAcquire(c: Claim, wait: bool, net: Net) returns (r: Option<AcquireReply>)
      requires WellFormed(state)
      modifies this
      ensures WellFormed(state)
      ensures r == if net == Delivered then Some(ServeAcquire(old(state), c, wait).1) else None
      ensures state == if net == RequestLost then old(state) else ServeAcquire(old(state), c, wait).0
      ensures log == if net == RequestLost then old(log) else old(log) + [AskedAcquire(ServeAcquire(old(state), c, wait).1.acquired)]
    {
      if net == RequestLost {
        return None;
      }
      ServeKeepsWellFormed(state, c, wait);
      var (after, reply) := ServeAcquire(state, c, wait);
      state, log := after, log + [AskedAcquire(reply.acquired)];
      r := if net == Delivered then Some(reply) else None;
    }

    method PostCancel(c: Claim, idle: bool, net: Net) returns (r: Option<CancelReply>)
      requires WellFormed(state)
      modifies this
      ensures WellFormed(state)
      ensures r == if net == Delivered then Some(ServeCancel(old(state), c, idle).1) else None
      ensures net == Delivered ==> state == ServeCancel(old(state), c, idle).0
      ensures Extends(old(log), log) && NoAcquires(log[|old(log)|..])
      ensures net == Delivered ==>
                log == old(log) + [AskedCancel(if r.value.grant.Some? then Some(r.value.grant.value.token) else None)]
    {
      if net == RequestLost {
        return None;
      }
      ServeKeepsWellFormed(state, c, idle);
      var (after, reply) := ServeCancel(state, c, idle);
      state := after;
      log := log + [AskedCancel(if reply.grant.Some? then Some(reply.grant.value.token) else None)];
      r := if net == Delivered then Some(reply) else None;
    }

    method PostRelease(holder: string, token: nat, net: Net) returns (r: Option<bool>)
      requires WellFormed(state)
      modifies this
      ensures WellFormed(state)
      ensures r == if net == Delivered then Some(ServeRelease(old(state), holder, token).1) else None
      ensures net == Delivered ==> state == ServeRelease(old(state), holder, token).0
      ensures Extends(old(log), log) && NoAcquires(log[|old(log)|..])
      ensures net == Delivered ==> log == old(log) + [AskedRelease(token, r.value)]
    {
      if net == RequestLost {
        return None;
      }
      var (after, released) := ServeRelease(state, holder, token);
      state, log := after, log + [AskedRelease(token, released)];
      r := if net == Delivered then Some(released) else None;
    }
  }

  // ---- The client ----

  datatype Kind = Contention | Timeout | Transport

  predicate Retryable(k: Kind) {
    k == Contention || k == Timeout
  }

  datatype Outcome = Acquired(token: nat) | Failed(kind: Kind) | StillWaiting

  /** Everything outside the client during one cancellation. */
  datatype CancelWeather = CancelWeather(
    before: seq<Foreign>, idle: bool, cancelNet: Net, between: seq<Foreign>, releaseNet: Net, after: seq<Foreign>)

  /** Everything outside the client during one poll; the booleans are context checks and the wait budget. */
  datatype Poll = Poll(
    cancelledAtTop: bool,
    before: seq<Foreign>,
    net: Net,
    after: seq<Foreign>,
    cancelledAfterReply: bool,
    budgetSpent: bool,
    cancelledInSleep: bool,
    weather: CancelWeather)

  /** Every exchange arrives, and nothing happens between reading a raced grant and releasing it. */
  predicate CalmCancel(w: CancelWeather) {
    w.idle && w.cancelNet == Delivered && w.between == [] && w.releaseNet == Delivered
  }

  predicate Calm(p: Poll) {
    !p.cancelledAtTop && p.net == Delivered && !p.cancelledAfterReply && !p.cancelledInSleep && CalmCancel(p.weather)
  }

  /** Whatever goes wrong in this poll is a cancellation whose clean-up is calm. */
  predicate Reconciled(p: Poll) {
    CalmCancel(p.weather) && (p.net == Delivered || p.cancelledAfterReply)
  }

  /** The log shows a clean end: our queue entry is gone, or the raced grant was released under its own token. */
  predicate EndsCleanly(log: seq<Asked>) {
    var n := |log|;
    || (n >= 1 && log[n - 1] == AskedCancel(None))
    || (n >= 2 && log[n - 1].AskedRelease? && log[n - 1].released && log[n - 2] == AskedCancel(Some(log[n - 1].token)))
  }

  /** True when a safe terminal state has been established. */
  method CancelQueuedAcquire(server: QueueServer, me: Claim, w: CancelWeather) returns (safe: bool)
    requires WellFormed(server.state)
    modifies server
    ensures WellFormed(server.state)
    ensures safe ==> !Involved(server.state, me) && EndsCleanly(server.log)
    ensures CalmCancel(w) ==> safe
    ensures Extends(old(server.log), server.log) && NoAcquires(server.log[|old(server.log)|..])
  {
    server.Interfere(me, w.before);
    var out := server.PostCancel(me, w.idle, w.cancelNet);
    if out.None? {
      return false;
    }
    if out.value.cancelled && out.value.grant.None? {
      server.Interfere(me, w.after);
      return true;
    }
    if out.value.grant.None? {
      return false;
    }
    var grant := out.value.grant.value;
    if grant.claim.holder != me.holder || grant.token == 0 {
      return false;
    }
    server.Interfere(me, w.between);
    var released := server.PostRelease(me.holder, grant.token, w.releaseNet);
    if released.None? || !released.value {
      return false;
    }
    server.Interfere(me, w.after);
    safe := true;
  }

  /** Cancellation first; what it cannot make safe is reported as a transport failure. */
  method CancelThen(server: QueueServer, me: Claim, w: CancelWeather, kind: Kind) returns (o: Outcome)
    requires WellFormed(server.state)
    modifies server
    ensures WellFormed(server.state) && o.Failed?
    ensures o.kind == kind || o.kind == Transport
    ensures Retryable(o.kind) ==> !Involved(server.state, me) && EndsCleanly(server.log)
    ensures CalmCancel(w) ==> o.kind == kind && !Involved(server.state, me) && EndsCleanly(server.log)
    ensures Extends(old(server.log), server.log) && NoAcquires(server.log[|old(server.log)|..])
  {
    var safe := CancelQueuedAcquire(server, me, w);
    o := Failed(if safe then kind else Transport);
  }

  /** What a log has gained since it was `before`. */
  function Added(before: seq<Asked>, log: seq<Asked>): seq<Asked>
    requires Extends(before, log)
  {
    log[|before|..]
  }

  /** Nothing outside the client goes wrong before the acquire of this poll has been answered. */
  predicate Answered(p: Poll) {
    !p.cancelledAtTop && p.net == Delivered && !p.cancelledAfterReply
  }

  /** One round of the acquisition loop; `StillWaiting` when another round is due. */
  method PollOnce(server: QueueServer, me: Claim, wait: bool, p: Poll, attempted: bool) returns (o: Outcome)
    requires WellFormed(server.state)
    modifies server
    ensures WellFormed(server.state) && Extends(old(server.log), server.log)
    ensures o.StillWaiting? ==>
              && wait && Answered(p) && !p.budgetSpent && !p.cancelledInSleep
              && !GrantSeen(Added(old(server.log), server.log))
    ensures o == Failed(Timeout) ==>
              && wait && p.budgetSpent && !GrantSeen(Added(old(server.log), server.log))
              && !Involved(server.state, me) && EndsCleanly(server.log)
    ensures o == Failed(Contention) ==>
              && !wait && !GrantSeen(Added(old(server.log), server.log))
              && (me !in old(server.state).queue ==> !Involved(server.state, me))
    ensures o == Failed(Contention) && p.before == [] && p.after == [] ==>
              server.state == old(server.state) && !Holds(server.state, me)
    ensures o.Acquired? ==>
              && o.token > 0 && server.state.held == Some(Held(me, o.token))
              && GrantSeen(Added(old(server.log), server.log))
    ensures !Answered(p) ==> o == Failed(Transport)
    ensures o == Failed(Transport) ==> !Calm(p)
    ensures o == Failed(Transport) && Reconciled(p) ==>
              || (p.cancelledAtTop && !attempted && server.log == old(server.log))
              || (!Involved(server.state, me) && EndsCleanly(server.log))
    ensures Answered(p) && p.before == [] ==>
              var reply := ServeAcquire(old(server.state), me, wait).1;
              (o.Acquired? <==> reply.acquired) && (o.Acquired? ==> o.token == reply.token)
  {
    if p.cancelledAtTop {
      if !attempted {
        return Failed(Transport);
      }
      o := CancelThen(server, me, p.weather, Transport);
      return;
    }
    server.Interfere(me, p.before);
    var out := server.PostAcquire(me, wait, p.net);
    if out.None? {
      if p.cancelledAfterReply {
        o := CancelThen(server, me, p.weather, Transport);
        return;
      }
      return Failed(Transport);
    }
    if p.cancelledAfterReply {
      o := CancelThen(server, me, p.weather, Transport);
      return;
    }
    if out.value.acquired {
      if out.value.token == 0 {
        return Failed(Transport);
      }
      return Acquired(out.value.token);
    }
    server.Interfere(me, p.after);
    if !wait {
      return Failed(Contention);
    }
    if p.budgetSpent {
      o := CancelThen(server, me, p.weather, Timeout);
      return;
    }
    if p.cancelledInSleep {
      o := CancelThen(server, me, p.weather, Transport);
      return;
    }
    o := StillWaiting;
  }

  /**
   The acquisition loop, for any finite series of polls. A retryable failure leaves nothing behind: after a timeout
   the server has neither entry nor grant, and a raced grant was released with its own token; after contention the
   same holds unless this very request was already queued before the call. Success is the grant the server holds for
   this request. In a calm series the outcome is determined: a granted answer is returned, and without one a waiting
   call times out exactly when its budget is spent.
   */
  method Acquire(server: QueueServer, me: Claim, wait: bool, polls: seq<Poll>) returns (o: Outcome)
    requires WellFormed(server.state)
    modifies server
    ensures WellFormed(server.state) && Extends(old(server.log), server.log)
    ensures o == Failed(Timeout) ==> wait && !Involved(server.state, me) && EndsCleanly(server.log)
    ensures o == Failed(Contention) ==> !wait && (me !in old(server.state).queue ==> !Involved(server.state, me))
    ensures o == Failed(Contention) && |polls| > 0 && polls[0].before == [] && polls[0].after == [] ==>
              && server.state == old(server.state)
              && (Involved(server.state, me) <==> me in old(server.state).queue)
    ensures |polls| > 0 && Calm(polls[0]) && polls[0].before == [] ==>
              var reply := ServeAcquire(old(server.state), me, wait).1;
              if reply.acquired then o == Acquired(reply.token) else !wait ==> o == Failed(Contention)
    ensures (forall i | 0 <= i < |polls| :: Calm(polls[i])) ==>
              var granted := GrantSeen(Added(old(server.log), server.log));
              var spent := exists i :: 0 <= i < |polls| && polls[i].budgetSpent;
              && o != Failed(Transport) && (o.Acquired? <==> granted)
              && (wait ==> (o == Failed(Timeout) <==> !granted && spent) && (o == StillWaiting <==> !granted && !spent))
    ensures |polls| > 0 && !Answered(polls[0]) ==> o == Failed(Transport)
    ensures o == Failed(Transport) && (forall i | 0 <= i < |polls| :: Reconciled(polls[i])) ==>
              server.log == old(server.log) || (!Involved(server.state, me) && EndsCleanly(server.log))
    ensures o.Acquired? ==> o.token > 0 && server.state.held == Some(Held(me, o.token))
    ensures o.StillWaiting? && |polls| > 0 ==>
              wait && forall i | 0 <= i < |polls| :: Answered(polls[i]) && !polls[i].budgetSpent && !polls[i].cancelledInSleep
  {
    hide EndsCleanly;
    for i := 0 to |polls|
      invariant WellFormed(server.state) && Extends(old(server.log), server.log)
      invariant i > 0 ==> wait
      invariant forall j | 0 <= j < i :: Answered(polls[j]) && !polls[j].budgetSpent && !polls[j].cancelledInSleep
      invariant !GrantSeen(Added(old(server.log), server.log))
      invariant i == 0 ==> server.state == old(server.state) && server.log == old(server.log)
      invariant i > 0 ==> Answered(polls[0])
      invariant i > 0 && polls[0].before == [] ==> !ServeAcquire(old(server.state), me, wait).1.acquired
    {
      ghost var earlier := server.log;
      o := PollOnce(server, me, wait, polls[i], i > 0);
      AddedJoins(old(server.log), earlier, server.log);
      if !o.StillWaiting? {
        assert o.Failed? ==> o.kind.Contention? || o.kind.Timeout? || o.kind.Transport?;
        return;
      }
    }
    o := StillWaiting;
  }

  lemma {:induction false} AddedJoins(a: seq<Asked>, b: seq<Asked>, c: seq<Asked>)
    requires Extends(a, b) && Extends(b, c)
    ensures Extends(a, c) && Added(a, c) == Added(a, b) + Added(b, c)
    ensures GrantSeen(Added(a, c)) <==> GrantSeen(Added(a, b)) || GrantSeen(Added(b, c))
  {
  }

  /**
   The exception, run through the client: a non-waiting call under a request id that is already queued behind another
   holder reports contention, a retryable failure, and its entry is still there.
   */
  method AcquireUnderQueuedRequest(server: QueueServer, me: Claim, poll: Poll) returns (o: Outcome)
    requires WellFormed(server.state) && me in server.state.queue
    requires server.state.held.Some? || server.state.queue[0] != me
    requires Calm(poll) && poll.before == [] && poll.after == []
    modifies server
    ensures o == Failed(Contention) && Retryable(o.kind)
    ensures server.state == old(server.state) && Involved(server.state, me)
  {
    o := Acquire(server, me, false, [poll]);
  }
}
