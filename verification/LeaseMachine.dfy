/**
 One fenced lease, without nulls, text, lazy cleanup or alarms: what every lease authority of the
 repository is meant to implement.
 */
module LeaseMachine {
  import opened Outcomes
  import opened Decimals

  datatype Grant = Grant(holder: string, token: nat, expires: int, request: Option<string>)

  /** `counter` is the last minted token; None stands for stored text that is no decimal number. */
  datatype State = State(held: Option<Grant>, counter: Option<nat>)

  datatype Request =
    | Acquire(holder: string, request: Option<string>, ttl: nat)
    | Renew(holder: string, token: nat, ttl: nat)
    | Release(holder: string, token: nat)

  datatype Reply =
    | Granted(token: nat, expires: int, replayed: bool)
    | Contended(expires: int)
    | OtherRequest(expires: int)
    | Exhausted
    | Corrupt
    | Renewed(expires: int)
    | Released
    | Refused

  const INITIAL := State(None, Some(0))

  /** What is left of a lease at `now`: expiry is a fact about the clock, not an event. */
  function Live(held: Option<Grant>, now: int): Option<Grant> {
    if held.Some? && held.value.expires > now then held else None
  }

  function At(s: State, now: int): State {
    s.(held := Live(s.held, now))
  }

  predicate Owns(held: Option<Grant>, holder: string, token: nat) {
    held.Some? && held.value.holder == holder && held.value.token == token
  }

  function Mint(counter: Option<nat>, now: int, holder: string, request: Option<string>, ttl: nat): (State, Reply) {
    if counter.None? then (State(None, counter), Corrupt)
    else if counter.value + 1 > MAX_MINTED then (State(None, counter), Exhausted)
    else
      var token := counter.value + 1;
      (State(Some(Grant(holder, token, now + ttl, request)), Some(token)), Granted(token, now + ttl, false))
  }

  function Step(s: State, now: int, r: Request): (State, Reply) {
    var held := Live(s.held, now);
    match r
    case Acquire(holder, request, ttl) =>
      if held.None? then Mint(s.counter, now, holder, request, ttl)
      else
        var g := held.value;
        if g.holder != holder then (State(held, s.counter), Contended(g.expires))
        else if request.Some? && g.request.Some? && request != g.request then
          (State(held, s.counter), OtherRequest(g.expires))
        else
          var kept := if g.request.Some? then g.request else request;
          (State(Some(g.(request := kept)), s.counter), Granted(g.token, g.expires, true))
    case Renew(holder, token, ttl) =>
      if Owns(held, holder, token) then
        (State(Some(held.value.(expires := now + ttl)), s.counter), Renewed(now + ttl))
      else (State(held, s.counter), Refused)
    case Release(holder, token) =>
      if Owns(held, holder, token) then (State(None, s.counter), Released)
      else (State(held, s.counter), Refused)
  }

  datatype Event = Event(at: int, request: Request)

  function Run(s: State, events: seq<Event>): (result: (State, seq<Reply>))
    ensures |result.1| == |events|
  {
    if events == [] then (s, [])
    else
      var n := |events| - 1;
      var (before, replies) := Run(s, events[..n]);
      var (after, reply) := Step(before, events[n].at, events[n].request);
      (after, replies + [reply])
  }

  predicate Monotone(events: seq<Event>) {
    forall i, j | 0 <= i <= j < |events| :: events[i].at <= events[j].at
  }

  lemma {:induction false} RunPrefix(s: State, events: seq<Event>, i: nat)
    requires i <= |events|
    ensures Run(s, events[..i]).1 == Run(s, events).1[..i]
  {
    if i == |events| {
      assert events[..i] == events;
    } else {
      var n := |events| - 1;
      RunPrefix(s, events[..n], i);
      assert events[..n][..i] == events[..i];
    }
  }

  /** The state before event `i` of a run, and the reply that event gets. */
  lemma {:induction false} RunAt(s: State, events: seq<Event>, i: nat)
    requires i < |events|
    ensures Run(s, events).1[i] == Step(Run(s, events[..i]).0, events[i].at, events[i].request).1
    ensures Run(s, events[..i + 1]).0 == Step(Run(s, events[..i]).0, events[i].at, events[i].request).0
  {
    RunPrefix(s, events, i + 1);
    assert events[..i + 1][..i] == events[..i];
  }

  // ---- The invariant: one numbering, and only its last number has authority ----

  predicate Inv(s: State) {
    s.held.Some? ==> s.counter == Some(s.held.value.token)
  }

  predicate Fresh(r: Reply) {
    r.Granted? && !r.replayed
  }

  function FreshCount(replies: seq<Reply>): nat {
    if replies == [] then 0
    else FreshCount(replies[..|replies| - 1]) + if Fresh(replies[|replies| - 1]) then 1 else 0
  }

  lemma {:induction false} RunInvariant(s: State, events: seq<Event>)
    requires Inv(s)
    ensures Inv(Run(s, events).0)
    ensures s.counter.Some? ==>
              Run(s, events).0.counter == Some(s.counter.value + FreshCount(Run(s, events).1))
  {
    if events != [] {
      var n := |events| - 1;
      RunInvariant(s, events[..n]);
      assert Run(s, events).1[..n] == Run(s, events[..n]).1;
    }
  }

  /**
   Over every run, fresh grants are numbered consecutively within the minted range, a replay or a successful
   renewal or release always concerns the last number minted, and nothing else is ever handed out.
   */
  lemma {:induction false} GrantsAreConsecutive(s: State, events: seq<Event>, i: nat)
    requires Inv(s) && s.counter.Some? && i < |events|
    ensures var reply, minted := Run(s, events).1[i], s.counter.value + FreshCount(Run(s, events).1[..i]);
            match reply
            case Granted(token, _, replayed) => token == (if replayed then minted else minted + 1)
            case Renewed(_) => events[i].request.Renew? && events[i].request.token == minted
            case Released => events[i].request.Release? && events[i].request.token == minted
            case Exhausted => minted >= MAX_MINTED
            case Corrupt => false
            case _ => true
    ensures Fresh(Run(s, events).1[i]) ==> Run(s, events).1[i].token <= MAX_MINTED
  {
    RunInvariant(s, events[..i]);
    RunPrefix(s, events, i);
    RunAt(s, events, i);
  }

  // ---- Exclusion: a promise is kept until it expires, or until its own holder replaces it ----

  /** The token and expiry an authority vouches for in a reply. */
  function Promised(e: Event, r: Reply): Option<(nat, int)> {
    match r
    case Granted(token, expires, _) => Some((token, expires))
    case Renewed(expires) => if e.request.Renew? then Some((e.request.token, expires)) else None
    case _ => None
  }

  predicate Supersedes(e: Event, r: Reply, token: nat) {
    || (r.Renewed? && e.request.Renew? && e.request.token == token)
    || (r.Released? && e.request.Release? && e.request.token == token)
  }

  /** The promise of event `i` still stands when event `j` arrives. */
  predicate Stands(s: State, events: seq<Event>, i: nat, j: nat, token: nat, expires: int)
    requires i < j < |events|
  {
    && Promised(events[i], Run(s, events).1[i]) == Some((token, expires))
    && (forall k | i < k < j :: !Supersedes(events[k], Run(s, events).1[k], token))
    && events[j].at < expires
  }

  predicate Holds(held: Option<Grant>, holder: string, token: nat, expires: int) {
    Owns(held, holder, token) && held.value.expires == expires
  }

  lemma {:induction false} PromiseSurvives(before: State, e: Event, holder: string, token: nat, expires: int)
    requires Holds(before.held, holder, token, expires)
    requires !Supersedes(e, Step(before, e.at, e.request).1, token)
    ensures Holds(Step(before, e.at, e.request).0.held, holder, token, expires) || expires <= e.at
  {
  }

  lemma {:induction false} PromiseStands(s: State, events: seq<Event>, i: nat, token: nat, expires: int)
    requires Monotone(events) && i < |events|
    requires Promised(events[i], Run(s, events).1[i]) == Some((token, expires))
    requires forall k | i < k < |events| :: !Supersedes(events[k], Run(s, events).1[k], token)
    ensures Holds(Run(s, events).0.held, events[i].request.holder, token, expires) || expires <= events[|events| - 1].at
  {
    var n := |events| - 1;
    RunAt(s, events, n);
    assert events[..n + 1] == events;
    if i < n {
      RunPrefix(s, events, n);
      PromiseStands(s, events[..n], i, token, expires);
      var before := Run(s, events[..n]).0;
      hide Run, Step;
      if Holds(before.held, events[i].request.holder, token, expires) {
        PromiseSurvives(before, events[n], events[i].request.holder, token, expires);
      }
    }
  }

  /**
   Live intervals of distinct grants never overlap under a non-decreasing clock: when a fresh grant is minted,
   every earlier promise has run out, unless its holder renewed or released that very token in between.
   */
  lemma {:induction false} GrantsAreDisjoint(s: State, events: seq<Event>, i: nat, j: nat, token: nat, expires: int)
    requires Monotone(events) && i < j < |events|
    requires Promised(events[i], Run(s, events).1[i]) == Some((token, expires))
    requires Fresh(Run(s, events).1[j])
    requires forall k | i < k < j :: !Supersedes(events[k], Run(s, events).1[k], token)
    ensures expires <= events[j].at
  {
    RunPrefix(s, events, j);
    PromiseStands(s, events[..j], i, token, expires);
    RunAt(s, events, j);
  }

  /** The request id a token is bound to: the first one that its acquires carried, read off calls and replies. */
  function BoundId(s: State, events: seq<Event>, replies: seq<Reply>, token: nat): Option<string>
    requires |events| == |replies|
  {
    if events == [] then if s.held.Some? && s.held.value.token == token then s.held.value.request else None
    else
      var n := |events| - 1;
      var earlier := BoundId(s, events[..n], replies[..n], token);
      if earlier.None? && replies[n].Granted? && replies[n].token == token && events[n].request.Acquire? then
        events[n].request.request
      else earlier
  }

  lemma {:induction false} HeldIsBound(s: State, events: seq<Event>)
    requires Inv(s)
    ensures var (t, replies) := Run(s, events);
            && (t.held.Some? ==> t.held.value.request == BoundId(s, events, replies, t.held.value.token))
            && (t.counter.Some? ==> forall token | token > t.counter.value :: BoundId(s, events, replies, token).None?)
  {
    if events != [] {
      var n := |events| - 1;
      HeldIsBound(s, events[..n]);
      RunInvariant(s, events[..n]);
      var (before, replies) := Run(s, events[..n]);
      var (after, reply) := Step(before, events[n].at, events[n].request);
      assert Run(s, events) == (after, replies + [reply]);
      assert (replies + [reply])[..n] == replies;
      hide Run, FreshCount;
    }
  }

  /** Whether a call with this id is another request than the one the token is bound to. */
  predicate OtherId(id: Option<string>, bound: Option<string>) {
    id.Some? && bound.Some? && id != bound
  }

  /**
   While a promise stands every answer is determined by it and by the earlier calls: another holder is turned away, the
   same holder gets the grant replayed unless its request id is another one than the bound id, and renewal and release
   work for holder and token and for no one else.
   */
  lemma {:induction false} PromiseDecides(s: State, events: seq<Event>, i: nat, j: nat, token: nat, expires: int)
    requires Inv(s) && Monotone(events) && i < j < |events| && Stands(s, events, i, j, token, expires)
    ensures var (e, holder) := (events[j], events[i].request.holder);
            var bound := BoundId(s, events[..j], Run(s, events).1[..j], token);
            Run(s, events).1[j] ==
            match e.request
            case Acquire(h, id, _) =>
              if h != holder then Contended(expires)
              else if OtherId(id, bound) then OtherRequest(expires)
              else Granted(token, expires, true)
            case Renew(h, t, ttl) => if h == holder && t == token then Renewed(e.at + ttl) else Refused
            case Release(h, t) => if h == holder && t == token then Released else Refused
  {
    RunPrefix(s, events, j);
    PromiseStands(s, events[..j], i, token, expires);
    HeldIsBound(s, events[..j]);
    RunAt(s, events, j);
  }

  /** Whatever is held was promised, and the promise has not been replaced since. */
  lemma {:induction false} HeldWasPromised(s: State, events: seq<Event>) returns (i: nat)
    requires Inv(s) && s.held.None? && Run(s, events).0.held.Some?
    ensures i < |events|
    ensures var g := Run(s, events).0.held.value;
            && Promised(events[i], Run(s, events).1[i]) == Some((g.token, g.expires))
            && forall k | i < k < |events| :: !Supersedes(events[k], Run(s, events).1[k], g.token)
  {
    var n := |events| - 1;
    var (reply, g) := (Run(s, events).1[n], Run(s, events).0.held.value);
    assert events[..n + 1] == events;
    RunAt(s, events, n);
    if Promised(events[n], reply) == Some((g.token, g.expires)) {
      i := n;
    } else {
      RunPrefix(s, events, n);
      assert Run(s, events[..n]).0.held.Some?;
      i := HeldWasPromised(s, events[..n]);
    }
  }

  lemma {:induction false} LiveLeaseWasPromised(
    s: State, events: seq<Event>, j: nat) returns (i: nat, token: nat, expires: int)
    requires Inv(s) && s.held.None? && j < |events|
    requires Live(Run(s, events[..j]).0.held, events[j].at).Some?
    ensures i < j && Stands(s, events, i, j, token, expires)
  {
    RunPrefix(s, events, j);
    var g := Run(s, events[..j]).0.held.value;
    i := HeldWasPromised(s, events[..j]);
    token, expires := g.token, g.expires;
    hide Run;
  }

  /**
   Where no promise stands, an acquire gets the next number for its full time to live, or exhaustion, and no renewal
   or release succeeds.
   */
  lemma {:induction false} NoPromiseDecides(s: State, events: seq<Event>, j: nat)
    requires Inv(s) && s.held.None? && s.counter.Some? && j < |events|
    requires forall i, token, expires | 0 <= i < j :: !Stands(s, events, i, j, token, expires)
    ensures var (e, next) := (events[j], s.counter.value + FreshCount(Run(s, events).1[..j]) + 1);
            Run(s, events).1[j] ==
            if !e.request.Acquire? then Refused
            else if next > MAX_MINTED then Exhausted
            else Granted(next, e.at + e.request.ttl, false)
  {
    RunPrefix(s, events, j);
    RunInvariant(s, events[..j]);
    RunAt(s, events, j);
    hide Run, FreshCount;
    if Live(Run(s, events[..j]).0.held, events[j].at).Some? {
      var i, token, expires := LiveLeaseWasPromised(s, events, j);
      assert false;
    }
  }

  // ---- Expiry needs no event ----

  /** Two states that agree once expiry is applied answer every later request alike, and keep agreeing. */
  lemma {:induction false} ExpiryIsInvisible(a: State, b: State, now: int, r: Request, later: int)
    requires At(a, now) == At(b, now) && now <= later
    ensures Step(a, later, r) == Step(b, later, r)
    ensures At(a, later) == At(b, later)
  {
  }
}
