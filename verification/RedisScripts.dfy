/** The second lease authority: three atomic Redis scripts over a lease hash and a decimal counter. */
module RedisScripts {
  import opened Outcomes
  import opened Decimals
  import L = LeaseMachine
  import DurableObject

  datatype LeaseHash = LeaseHash(holder: Option<string>, token: Option<string>, expiresAt: Option<int>)

  datatype AcquireReply =
    | MissingTtlError
    | CorruptLeaseError
    | CorruptCounterError
    | ExhaustedError
    | AcquireReply(acquired: bool, token: string, pttl: int, replay: bool)

  function AcquireMeaning(r: AcquireReply, now: int): L.Reply {
    match r
    case AcquireReply(acquired, token, pttl, replay) =>
      if acquired then L.Granted(if AllDigits(token) then Value(token) else 0, now + pttl, replay)
      else L.Contended(now + pttl)
    case ExhaustedError => L.Exhausted
    case CorruptCounterError => L.Corrupt
    case _ => L.Refused
  }

  class RedisAuthority {
    var lease: Option<LeaseHash>
    var fence: Option<string>

    /** Whether the server still shows a key during the very millisecond at which it expires. */
    const shownAtExpiry: bool

    predicate Shown(now: int)
      reads this
    {
      && lease.Some?
      && (lease.value.expiresAt.Some? ==>
            now < lease.value.expiresAt.value || (shownAtExpiry && now == lease.value.expiresAt.value))
    }

    function Hget(now: int): LeaseHash
      reads this
    {
      if Shown(now) then lease.value else LeaseHash(None, None, None)
    }

    function Pttl(now: int): int
      reads this
    {
      if !Shown(now) then -2
      else if lease.value.expiresAt.None? then -1
      else lease.value.expiresAt.value - now
    }

    /** What the scripts themselves write: a complete hash with a TTL and canonical token text. */
    predicate WellFormed()
      reads this
    {
      lease.Some? ==>
        && lease.value.holder.Some? && lease.value.expiresAt.Some?
        && lease.value.token.Some? && Canonical(lease.value.token.value)
    }

    function Counter(): Option<nat>
      reads this
    {
      if fence.None? then Some(0)
      else if fence.value != "" && AllDigits(fence.value) then Some(Value(fence.value))
      else None
    }

    function Abs(): L.State
      reads this
      requires WellFormed()
    {
      L.State(
        if lease.None? then None
        else Some(L.Grant(lease.value.holder.value, Value(lease.value.token.value), lease.value.expiresAt.value, None)),
        Counter())
    }

    /** The one situation in which a script and the lease machine part: the expiry instant, on a server that shows it. */
    predicate OnExpiryTick(now: int)
      reads this
    {
      shownAtExpiry && lease.Some? && lease.value.expiresAt == Some(now)
    }

    constructor (shownAtExpiry: bool)
      ensures WellFormed() && Abs() == L.INITIAL && this.shownAtExpiry == shownAtExpiry
    {
      lease, fence := None, None;
      this.shownAtExpiry := shownAtExpiry;
    }

    method Acquire(holder: string, ttl: int, now: int) returns (r: AcquireReply)
      requires ttl > 0
      modifies this
      ensures old(WellFormed()) ==> WellFormed()
      ensures old(WellFormed()) ==>
                ((L.At(Abs(), now), AcquireMeaning(r, now)) == L.Step(old(Abs()), now, L.Acquire(holder, None, ttl))
                 <==> !old(OnExpiryTick(now)))
      ensures old(WellFormed() && OnExpiryTick(now)) ==> r == MissingTtlError
      ensures !(r.AcquireReply? && r.acquired && !r.replay) ==> lease == old(lease) && fence == old(fence)
      ensures r.AcquireReply? && r.acquired && !r.replay ==> Canonical(r.token) && fence == Some(r.token)
      ensures r == MissingTtlError <==> old(Shown(now)) && old(Pttl(now)) <= 0
      ensures r == CorruptLeaseError <==>
                old(Shown(now)) && old(Pttl(now)) > 0 && (old(lease.value.holder).None? || old(lease.value.token).None?)
    {
      hide Value, Print, AllDigits;
      if Shown(now) {
        var pttl := Pttl(now);
        if pttl <= 0 {
          return MissingTtlError;
        }
        var current := Hget(now);
        if current.holder.None? || current.token.None? {
          return CorruptLeaseError;
        }
        if current.holder.value == holder {
          return AcquireReply(true, current.token.value, pttl, true);
        }
        return AcquireReply(false, "", pttl, false);
      }
      var next := NextToken();
      if next.Err? {
        return next.error;
      }
      PrintValue(Counter().value + 1);
      fence := Some(next.value);
      lease := Some(LeaseHash(Some(holder), fence, Some(now + ttl)));
      r := AcquireReply(true, next.value, Pttl(now), false);
    }

    method NextToken() returns (next: Result<string, AcquireReply>)
      ensures next ==
              if Counter().None? then Err(CorruptCounterError)
              else if Counter().value + 1 > MAX_MINTED then Err(ExhaustedError)
              else Ok(Print(Counter().value + 1))
    {
      var current := if fence.Some? then fence.value else "0";
      if current == "" || !AllDigits(current) {
        return Err(CorruptCounterError);
      }
      PrintValue(0);
      var text := Increment(current);
      PrintValue(Value(current) + 1);
      ExhaustionTestIsExact(text);
      next := if TextExceedsMinted(text) then Err(ExhaustedError) else Ok(text);
    }

    method Renew(holder: string, token: string, ttl: int, now: int) returns (renewed: bool, pttl: int)
      requires ttl > 0
      modifies this`lease
      ensures renewed <==> old(Hget(now)).holder == Some(holder) && old(Hget(now)).token == Some(token)
      ensures !renewed ==> lease == old(lease) && pttl == -2
      ensures old(WellFormed()) ==> WellFormed()
      ensures old(WellFormed()) && Canonical(token) ==>
                ((L.At(Abs(), now), if renewed then L.Renewed(now + pttl) else L.Refused) ==
                 L.Step(old(Abs()), now, L.Renew(holder, Value(token), ttl))
                 <==> !(old(OnExpiryTick(now))
                        && old(Hget(now)).holder == Some(holder) && old(Hget(now)).token == Some(token)))
    {
      SameText(lease, token);
      if Hget(now).holder != Some(holder) { return false, -2; }
      if Hget(now).token != Some(token) { return false, -2; }
      lease := Some(lease.value.(expiresAt := Some(now + ttl)));
      return true, Pttl(now);
    }

    method Release(holder: string, token: string, now: int) returns (released: bool)
      modifies this`lease
      ensures released <==> old(Hget(now)).holder == Some(holder) && old(Hget(now)).token == Some(token)
      ensures lease == if released then None else old(lease)
      ensures old(WellFormed()) && Canonical(token) ==>
                ((L.At(Abs(), now), if released then L.Released else L.Refused) ==
                 L.Step(old(Abs()), now, L.Release(holder, Value(token)))
                 <==> !(old(OnExpiryTick(now))
                        && old(Hget(now)).holder == Some(holder) && old(Hget(now)).token == Some(token)))
    {
      SameText(lease, token);
      if Hget(now).holder != Some(holder) { return false; }
      if Hget(now).token != Some(token) { return false; }
      lease := None;
      released := true;
    }

    /** One valid request without a request id, as a client sends it. */
    method Answer(now: int, request: L.Request) returns (reply: L.Reply)
      requires WellFormed() && DurableObject.ValidRequest(request) && WithoutId(request)
      modifies this
      ensures WellFormed()
      ensures var (after, answer) := L.Step(old(Abs()), now, request);
              var parts := shownAtExpiry && Diverges(old(Abs()).held, now, request);
              && (reply == answer <==> !parts)
              && (!parts ==> L.At(Abs(), now) == after && Abs().held == Kept(old(Abs()).held, after, answer))
    {
      match request
      case Acquire(holder, _, ttl) =>
        var r := Acquire(holder, ttl, now);
        reply := AcquireMeaning(r, now);
      case Renew(holder, token, ttl) =>
        PrintValue(token);
        SameText(lease, Print(token));
        var renewed, pttl := Renew(holder, Print(token), ttl, now);
        reply := if renewed then L.Renewed(now + pttl) else L.Refused;
      case Release(holder, token) =>
        PrintValue(token);
        SameText(lease, Print(token));
        var released := Release(holder, Print(token), now);
        reply := if released then L.Released else L.Refused;
    }

    /**
     Any run of valid requests. The replies are those of the lease machine if and only if the server hides a key at its
     expiry instant or no request of the run meets a shown lease at that instant.
     */
    method Serve(events: seq<L.Event>) returns (replies: seq<L.Reply>)
      requires WellFormed() && L.Monotone(events)
      requires forall e | e in events :: DurableObject.ValidRequest(e.request) && WithoutId(e.request)
      modifies this
      ensures WellFormed() && |replies| == |events|
      ensures replies == L.Run(old(Abs()), events).1 <==> (shownAtExpiry ==> OffTicks(old(Abs()), events))
      ensures (shownAtExpiry ==> OffTicks(old(Abs()), events)) ==> Follows(old(Abs()), events, Abs())
    {
      if events == [] {
        return [];
      }
      var n := |events| - 1;
      var e := events[n];
      ghost var start := Abs();
      var earlier := Serve(events[..n]);
      assert e in events;
      ghost var before := Abs();
      var reply := Answer(e.at, e.request);
      replies := earlier + [reply];
      OffTicksExtend(start, events);
      if shownAtExpiry ==> OffTicks(start, events[..n]) {
        NextStepAgrees(start, events, before);
      }
      assert L.Run(start, events).1[..n] == L.Run(start, events[..n]).1;
      assert replies[..n] == earlier;
    }
  }

  // ---- Where a run parts from the lease machine ----

  /** At its expiry instant a lease that is still shown meets an acquire, or its own renewal or release. */
  predicate Diverges(shown: Option<L.Grant>, now: int, r: L.Request) {
    shown.Some? && shown.value.expires == now && (r.Acquire? || L.Owns(shown, r.holder, r.token))
  }

  /** What stays stored: a request that is not granted writes nothing, so an expired lease lingers. */
  function Kept(before: Option<L.Grant>, after: L.State, answer: L.Reply): Option<L.Grant> {
    if answer.Granted? || answer.Renewed? || answer.Released? then after.held else before
  }

  /** The lease that is stored after a run, expired or not. */
  function Lingering(s: L.State, events: seq<L.Event>): Option<L.Grant> {
    if events == [] then s.held
    else
      var n := |events| - 1;
      var (after, answer) := L.Step(L.Run(s, events[..n]).0, events[n].at, events[n].request);
      Kept(Lingering(s, events[..n]), after, answer)
  }

  predicate OffTicks(s: L.State, events: seq<L.Event>) {
    forall i | 0 <= i < |events| :: !Diverges(Lingering(s, events[..i]), events[i].at, events[i].request)
  }

  /** The scripts' state after a run on which they have followed the lease machine. */
  predicate Follows(s: L.State, events: seq<L.Event>, abs: L.State) {
    && abs.held == Lingering(s, events)
    && if events == [] then abs == s else L.At(abs, events[|events| - 1].at) == L.Run(s, events).0
  }

  predicate WithoutId(r: L.Request) {
    r.Acquire? ==> r.request.None?
  }

  /** Where the scripts have followed the machine, the next request is the same step for both. */
  lemma {:induction false} NextStepAgrees(s: L.State, events: seq<L.Event>, abs: L.State)
    requires events != [] && L.Monotone(events) && Follows(s, events[..|events| - 1], abs)
    ensures var n := |events| - 1;
            L.Step(abs, events[n].at, events[n].request) == L.Step(L.Run(s, events[..n]).0, events[n].at, events[n].request)
  {
    var n := |events| - 1;
    if n > 0 {
      L.ExpiryIsInvisible(abs, L.Run(s, events[..n]).0, events[n - 1].at, events[n].request, events[n].at);
    }
  }

  lemma {:induction false} OffTicksExtend(s: L.State, events: seq<L.Event>)
    requires events != []
    ensures var n := |events| - 1;
            OffTicks(s, events) <==>
              OffTicks(s, events[..n]) && !Diverges(Lingering(s, events[..n]), events[n].at, events[n].request)
  {
    var n := |events| - 1;
    hide Diverges, Lingering;
    forall i | 0 <= i < n
      ensures events[..n][..i] == events[..i]
    {
    }
    if OffTicks(s, events) {
      forall i | 0 <= i < n
        ensures !Diverges(Lingering(s, events[..n][..i]), events[..n][i].at, events[..n][i].request)
      {
        assert events[..n][..i] == events[..i];
        assert !Diverges(Lingering(s, events[..i]), events[i].at, events[i].request);
      }
    }
    if OffTicks(s, events[..n]) {
      forall i | 0 <= i < n
        ensures !Diverges(Lingering(s, events[..i]), events[i].at, events[i].request)
      {
        assert events[..n][..i] == events[..i];
        assert !Diverges(Lingering(s, events[..n][..i]), events[..n][i].at, events[..n][i].request);
      }
    }
  }

  lemma {:induction false} SameText(lease: Option<LeaseHash>, token: string)
    ensures lease.Some? && lease.value.token.Some? && Canonical(lease.value.token.value) && Canonical(token) ==>
              (lease.value.token.value == token <==> Value(lease.value.token.value) == Value(token))
  {
    if Canonical(token) {
      ValuePrint(token);
    }
    if lease.Some? && lease.value.token.Some? && Canonical(lease.value.token.value) {
      ValuePrint(lease.value.token.value);
    }
  }

  /**
   Both authorities, opened empty, answer a run of valid requests alike (same grants, tokens, replay flags, expiry
   instants, refusals and exhaustion, whatever alarms the Durable Object receives in between) if and only if the Redis
   server hides a key at its expiry instant or no request meets a shown lease at that instant.
   */
  method SideBySide(durable: DurableObject.LockLeaseAuthority, redis: RedisAuthority, events: seq<DurableObject.Event>)
    returns (fromDurable: seq<L.Reply>, fromRedis: seq<L.Reply>)
    requires durable.Valid() && durable.Abs() == L.INITIAL
    requires redis.WellFormed() && redis.Abs() == L.INITIAL
    requires DurableObject.Ordered(events)
    requires forall e | e in events && e.Call? :: DurableObject.ValidRequest(e.request) && WithoutId(e.request)
    modifies durable, redis
    ensures fromDurable == fromRedis <==> (redis.shownAtExpiry ==> OffTicks(L.INITIAL, DurableObject.Calls(events)))
  {
    CallsKeepOrder(events);
    fromDurable := durable.Serve(events);
    fromRedis := redis.Serve(DurableObject.Calls(events));
  }

  lemma {:induction false} CallsKeepOrder(events: seq<DurableObject.Event>)
    requires DurableObject.Ordered(events)
    ensures L.Monotone(DurableObject.Calls(events))
    ensures forall c | c in DurableObject.Calls(events) ::
              exists e :: e in events && e.Call? && e.at == c.at && e.request == c.request
  {
    if events != [] {
      var n := |events| - 1;
      CallsKeepOrder(events[..n]);
      forall c | c in DurableObject.Calls(events)
        ensures exists e :: e in events && e.Call? && e.at == c.at && e.request == c.request
      {
        if c in DurableObject.Calls(events[..n]) {
          var e :| e in events[..n] && e.Call? && e.at == c.at && e.request == c.request;
          assert e in events;
        } else {
          assert events[n] in events;
        }
      }
      forall c | c in DurableObject.Calls(events[..n])
        ensures c.at <= events[n].at
      {
        var e :| e in events[..n] && e.Call? && e.at == c.at && e.request == c.request;
      }
    }
  }
}
