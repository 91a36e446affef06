/** The Durable Object lease authority: one SQL row, lazy expiry, alarms, rollback on a thrown error. */
module DurableObject {
  import opened Outcomes
  import opened Decimals
  import opened UnicodeText
  import L = LeaseMachine

  const MAX_HOLDER_BYTES := 512
  const MAX_REQUEST_ID_BYTES := 256
  const MAX_TTL_MS := 86_400_000
  const MAX_SAFE_INTEGER := 9_007_199_254_740_991

  /** The characters `String.prototype.trim` removes. */
  predicate IsTrimmed(c: char) {
    var n := c as int;
    || 0x09 <= n <= 0x0D || n == 0x20 || n == 0xA0 || n == 0x1680 || 0x2000 <= n <= 0x200A
    || n == 0x2028 || n == 0x2029 || n == 0x202F || n == 0x205F || n == 0x3000 || n == 0xFEFF
  }

  predicate IsControl(c: char) {
    c as int <= 0x1F || c as int == 0x7F
  }

  predicate ValidIdentity(value: string, maxBytes: nat) {
    && value != ""
    && (exists i | 0 <= i < |value| :: !IsTrimmed(value[i]))
    && (forall i | 0 <= i < |value| :: !IsControl(value[i]))
    && |Utf8(value)| <= maxBytes
  }

  predicate ValidHolder(holder: string) {
    ValidIdentity(holder, MAX_HOLDER_BYTES)
  }

  predicate ValidRequestId(id: Option<string>) {
    id.Some? ==> ValidIdentity(id.value, MAX_REQUEST_ID_BYTES)
  }

  predicate ValidTtl(ttl: int) {
    0 < ttl <= MAX_TTL_MS
  }

  /** The `fencing_token` field of a request: an integral number, text, or anything else. */
  datatype TokenArg = Number(n: int) | Text(s: string) | Other

  function CanonicalToken(arg: TokenArg): Option<string> {
    match arg
    case Number(n) => if n > MAX_SAFE_INTEGER || n <= 0 then None else Some(Print(n))
    case Text(s) =>
      if s == "" || !AllDigits(s) || s[0] == '0' then None
      else if Value(s) > MAX_TEXT then None
      else Some(Print(Value(s)))
    case Other => None
  }

  datatype MintError = CorruptCounter | TokensExhausted

  function NextToken(current: string): Result<string, MintError> {
    if !Canonical(current) then Err(CorruptCounter)
    else
      var next := Value(current) + 1;
      if next > MAX_MINTED then Err(TokensExhausted) else Ok(Print(next))
  }

  datatype Row = Row(
    holder: Option<string>,
    token: Option<string>,
    expires: Option<int>,
    nextToken: string,
    requestId: Option<string>)

  datatype Refusal = Expired | NotOwner

  datatype AcquireResult =
    | InvalidHolder
    | InvalidRequestId
    | InvalidTtl
    | HeldByOther(expires: int)
    | HeldByOtherRequest(expires: int)
    | Acquired(token: string, expires: int, replayed: bool)
    | FencingTokenExhausted
    | Thrown

  datatype Field = HolderField | TtlField | TokenField

  datatype RenewResult = InvalidRenewal(field: Field) | RenewalRefused(reason: Refusal) | RenewedUntil(expires: int)

  datatype ReleaseResult = InvalidRelease(field: Field) | ReleaseRefused(reason: Refusal) | LeaseReleased

  function NumberOf(token: string): nat {
    if AllDigits(token) then Value(token) else 0
  }

  /** What a reply to a valid request says, with the text of a refusal left out. */
  function AcquireMeaning(r: AcquireResult): L.Reply {
    match r
    case HeldByOther(expires) => L.Contended(expires)
    case HeldByOtherRequest(expires) => L.OtherRequest(expires)
    case Acquired(token, expires, replayed) => L.Granted(NumberOf(token), expires, replayed)
    case FencingTokenExhausted => L.Exhausted
    case Thrown => L.Corrupt
    case _ => L.Refused
  }

  function RenewMeaning(r: RenewResult): L.Reply {
    if r.RenewedUntil? then L.Renewed(r.expires) else L.Refused
  }

  function ReleaseMeaning(r: ReleaseResult): L.Reply {
    if r.LeaseReleased? then L.Released else L.Refused
  }

  /** A caller's request id that differs from the one the lease is bound to. */
  predicate OtherRequest(id: Option<string>, bound: Option<string>) {
    id.Some? && bound.Some? && id != bound
  }

  /** A counter that admits one more token. */
  predicate Mintable(counter: string) {
    Canonical(counter) && Value(counter) < MAX_MINTED
  }

  /** Columns are set and cleared together, and a stored token is canonical text. */
  predicate Coherent(row: Row) {
    && row.holder.None? == row.token.None? == row.expires.None?
    && (row.token.Some? ==> Canonical(row.token.value))
  }

  class LockLeaseAuthority {
    var row: Row
    var alarmAt: Option<int>

    predicate Valid()
      reads this
    {
      Coherent(row)
    }

    /** The lease the row denotes; an expired row still denotes the grant it records. */
    function Abs(): L.State
      reads this
      requires Valid()
    {
      L.State(
        if row.holder.None? then None
        else Some(L.Grant(row.holder.value, Value(row.token.value), row.expires.value, row.requestId)),
        if Canonical(row.nextToken) then Some(Value(row.nextToken)) else None)
    }

    /** Opens durable storage: a missing row is inserted, an existing one is kept, whatever it holds. */
    constructor (stored: Option<Row>)
      ensures alarmAt == None
      ensures stored.None? ==> Valid() && Abs() == L.INITIAL
      ensures stored.Some? ==> row == stored.value && (Valid() <==> Coherent(stored.value))
    {
      row := if stored.Some? then stored.value else Row(None, None, None, "0", None);
      alarmAt := None;
      new;
      PrintValue(0);
    }

    method ClearLease()
      requires Valid()
      modifies this`row
      ensures Valid() && row == Row(None, None, None, old(row.nextToken), None)
    {
      row := row.(holder := None, token := None, expires := None, requestId := None);
    }

    method Acquire(holder: string, requestId: Option<string>, ttl: int, now: int) returns (r: AcquireResult)
      requires Valid()
      modifies this
      ensures Valid()
      ensures r.InvalidHolder? <==> !ValidHolder(holder)
      ensures r.InvalidRequestId? <==> ValidHolder(holder) && !ValidRequestId(requestId)
      ensures r.InvalidTtl? <==> ValidHolder(holder) && ValidRequestId(requestId) && !ValidTtl(ttl)
      ensures ValidHolder(holder) && ValidRequestId(requestId) && ValidTtl(ttl) ==>
                (L.At(Abs(), now), AcquireMeaning(r)) ==
                L.Step(old(Abs()), now, L.Acquire(holder, requestId, ttl))
      ensures var admitted := ValidHolder(holder) && ValidRequestId(requestId) && ValidTtl(ttl);
              var was := old(row);
              var live := was.expires.Some? && was.expires.value > now;
              var other := OtherRequest(requestId, was.requestId);
              && (r.HeldByOther? <==> admitted && live && was.holder != Some(holder))
              && (r.HeldByOtherRequest? <==> admitted && live && was.holder == Some(holder) && other)
              && (r.Acquired? && r.replayed <==> admitted && live && was.holder == Some(holder) && !other)
              && (r.Acquired? && !r.replayed <==> admitted && !live && Mintable(was.nextToken))
              && (r == FencingTokenExhausted <==> admitted && !live && Canonical(was.nextToken) && !Mintable(was.nextToken))
              && (r == Thrown <==> admitted && !live && !Canonical(was.nextToken))
      ensures r.HeldByOther? || r.HeldByOtherRequest? ==> Some(r.expires) == old(row.expires)
      ensures r.Acquired? && r.replayed ==>
                && Some(r.token) == old(row.token) && Some(r.expires) == old(row.expires)
                && row == old(row).(requestId := if old(row.requestId).Some? then old(row.requestId) else requestId)
      ensures r.Acquired? && !r.replayed ==>
                && r.token == Print(Value(old(row.nextToken)) + 1) && r.expires == now + ttl
                && row == Row(Some(holder), Some(r.token), Some(r.expires), r.token, requestId)
      ensures r.Acquired? ==> Canonical(r.token) && alarmAt == Some(r.expires)
      ensures !r.Acquired? ==> row == old(row) && alarmAt == old(alarmAt)
    {
      hide ValidIdentity, CanonicalToken;
      if !ValidHolder(holder) { return InvalidHolder; }
      if !ValidRequestId(requestId) { return InvalidRequestId; }
      if !ValidTtl(ttl) { return InvalidTtl; }

      var begun := row;
      if row.holder.Some? && row.expires.Some? && row.expires.value > now {
        if row.holder.value != holder {
          return HeldByOther(row.expires.value);
        }
        if requestId.Some? && row.requestId.Some? && requestId != row.requestId {
          return HeldByOtherRequest(row.expires.value);
        }
        if requestId.Some? && row.requestId.None? {
          row := row.(requestId := requestId);
        }
        r := Acquired(row.token.value, row.expires.value, true);
      } else {
        if row.expires.Some? && row.expires.value <= now {
          ClearLease();
        }
        var minted := NextToken(row.nextToken);
        if minted.Err? {
          row := begun;
          return if minted.error == TokensExhausted then FencingTokenExhausted else Thrown;
        }
        PrintValue(Value(row.nextToken) + 1);
        var expires := now + ttl;
        row := Row(Some(holder), Some(minted.value), Some(expires), minted.value, requestId);
        r := Acquired(minted.value, expires, false);
      }
      alarmAt := Some(r.expires);
    }

    method Renew(holder: string, fencingToken: TokenArg, ttl: int, now: int) returns (r: RenewResult)
      requires Valid()
      modifies this
      ensures Valid()
      ensures r.InvalidRenewal? <==> !ValidHolder(holder) || !ValidTtl(ttl) || CanonicalToken(fencingToken).None?
      ensures r == InvalidRenewal(HolderField) <==> !ValidHolder(holder)
      ensures r == InvalidRenewal(TtlField) <==> ValidHolder(holder) && !ValidTtl(ttl)
      ensures r == InvalidRenewal(TokenField) <==>
                ValidHolder(holder) && ValidTtl(ttl) && CanonicalToken(fencingToken).None?
      ensures r == RenewalRefused(Expired) <==>
                !r.InvalidRenewal? && old(row.expires).Some? && old(row.expires).value <= now
      ensures r == RenewalRefused(NotOwner) <==>
                && !r.InvalidRenewal? && (old(row.expires).Some? ==> old(row.expires).value > now)
                && (old(row.holder) != Some(holder) || old(row.token) != CanonicalToken(fencingToken))
      ensures !r.InvalidRenewal? ==>
                (L.At(Abs(), now), RenewMeaning(r)) ==
                L.Step(old(Abs()), now, L.Renew(holder, NumberOf(CanonicalToken(fencingToken).value), ttl))
      ensures r.InvalidRenewal? ==> row == old(row)
      ensures alarmAt == if r.RenewedUntil? then Some(r.expires) else old(alarmAt)
    {
      hide ValidIdentity, CanonicalToken;
      if !ValidHolder(holder) { return InvalidRenewal(HolderField); }
      if !ValidTtl(ttl) { return InvalidRenewal(TtlField); }
      var token := CanonicalToken(fencingToken);
      if token.None? { return InvalidRenewal(TokenField); }
      TokenTextIsIdentity(fencingToken, row.token);

      if row.holder != Some(holder) || row.token != token || row.expires.None? || row.expires.value <= now {
        var expired := row.expires.Some? && row.expires.value <= now;
        if expired {
          ClearLease();
        }
        return RenewalRefused(if expired then Expired else NotOwner);
      }
      var expires := now + ttl;
      row := row.(expires := Some(expires));
      alarmAt := Some(expires);
      r := RenewedUntil(expires);
    }

    method Release(holder: string, fencingToken: TokenArg, now: int) returns (r: ReleaseResult)
      requires Valid()
      modifies this
      ensures Valid()
      ensures r.InvalidRelease? <==> !ValidHolder(holder) || CanonicalToken(fencingToken).None?
      ensures r == InvalidRelease(HolderField) <==> !ValidHolder(holder)
      ensures r == InvalidRelease(TokenField) <==> ValidHolder(holder) && CanonicalToken(fencingToken).None?
      ensures r != InvalidRelease(TtlField)
      ensures r == ReleaseRefused(Expired) <==>
                !r.InvalidRelease? && old(row.expires).Some? && old(row.expires).value <= now
      ensures r == ReleaseRefused(NotOwner) <==>
                && !r.InvalidRelease? && (old(row.expires).Some? ==> old(row.expires).value > now)
                && (old(row.holder) != Some(holder) || old(row.token) != CanonicalToken(fencingToken))
      ensures !r.InvalidRelease? ==>
                (L.At(Abs(), now), ReleaseMeaning(r)) ==
                L.Step(old(Abs()), now, L.Release(holder, NumberOf(CanonicalToken(fencingToken).value)))
      ensures r.InvalidRelease? ==> row == old(row)
      ensures r.LeaseReleased? || r == ReleaseRefused(Expired) ==> row.holder.None? && alarmAt == None
      ensures r.InvalidRelease? || r == ReleaseRefused(NotOwner) ==> alarmAt == old(alarmAt)
    {
      hide ValidIdentity, CanonicalToken;
      if !ValidHolder(holder) { return InvalidRelease(HolderField); }
      var token := CanonicalToken(fencingToken);
      if token.None? { return InvalidRelease(TokenField); }
      TokenTextIsIdentity(fencingToken, row.token);

      if row.expires.Some? && row.expires.value <= now {
        ClearLease();
        alarmAt := None;
        return ReleaseRefused(Expired);
      }
      if row.holder != Some(holder) || row.token != token {
        return ReleaseRefused(NotOwner);
      }
      ClearLease();
      alarmAt := None;
      r := LeaseReleased;
    }

    /** The alarm handler, whenever the platform runs it. */
    method Alarm(now: int)
      requires Valid()
      modifies this
      ensures Valid() && L.At(Abs(), now) == L.At(old(Abs()), now)
      ensures row == if old(row.expires).Some? && old(row.expires).value <= now
                     then Row(None, None, None, old(row.nextToken), None) else old(row)
      ensures alarmAt == if row.expires.Some? then row.expires else old(alarmAt)
    {
      if row.expires.None? {
        return;
      }
      if row.expires.value <= now {
        ClearLease();
        return;
      }
      alarmAt := row.expires;
    }

    /**
     Any run of valid calls with alarms anywhere between them: early, late, repeated or missing. The replies are
     those of the lease machine on the calls alone, so the alarms change none of them.
     */
    method Serve(events: seq<Event>) returns (replies: seq<L.Reply>)
      requires Valid() && Ordered(events)
      requires forall e | e in events && e.Call? :: ValidRequest(e.request)
      modifies this
      ensures Valid()
      ensures replies == L.Run(old(Abs()), Calls(events)).1
    {
      hide L.Step, L.At, ValidRequest, Coherent, Calls;
      replies := [];
      ghost var start := Abs();
      ghost var machine := start;
      NoCalls();
      for i := 0 to |events|
        invariant Valid()
        invariant (machine, replies) == L.Run(start, Calls(events[..i]))
        invariant if i == 0 then Abs() == machine else L.At(Abs(), events[i - 1].at) == L.At(machine, events[i - 1].at)
      {
        var e := events[i];
        OneMoreEvent(start, events, i);
        hide L.Run;
        AgreementLasts(Abs(), machine, if i == 0 then e.at else events[i - 1].at, e.at);
        if e.Call? {
          SameStep(Abs(), machine, e.at, e.request);
          var reply := Answer(e.at, e.request);
          machine := L.Step(machine, e.at, e.request).0;
          AgreementLasts(Abs(), machine, e.at, e.at);
          replies := replies + [reply];
        } else {
          Alarm(e.at);
        }
      }
      assert events[..|events|] == events;
    }

    /** One valid request, as a client sends it. */
    method Answer(now: int, request: L.Request) returns (reply: L.Reply)
      requires Valid() && ValidRequest(request)
      modifies this
      ensures Valid() && (L.At(Abs(), now), reply) == L.Step(old(Abs()), now, request)
    {
      match request
      case Acquire(holder, id, ttl) =>
        var r := Acquire(holder, id, ttl, now);
        reply := AcquireMeaning(r);
      case Renew(holder, token, ttl) =>
        SentToken(token);
        var r := Renew(holder, Text(Print(token)), ttl, now);
        reply := RenewMeaning(r);
      case Release(holder, token) =>
        SentToken(token);
        var r := Release(holder, Text(Print(token)), now);
        reply := ReleaseMeaning(r);
    }
  }

  datatype Event = Call(at: int, request: L.Request) | AlarmFires(at: int)

  predicate Ordered(events: seq<Event>) {
    forall i, j | 0 <= i <= j < |events| :: events[i].at <= events[j].at
  }

  predicate ValidRequest(r: L.Request) {
    match r
    case Acquire(holder, id, ttl) => ValidHolder(holder) && ValidRequestId(id) && ValidTtl(ttl)
    case Renew(holder, token, ttl) => ValidHolder(holder) && ValidTtl(ttl) && 0 < token <= MAX_TEXT
    case Release(holder, token) => ValidHolder(holder) && 0 < token <= MAX_TEXT
  }

  /** The requests of a run, with the alarms dropped. */
  function Calls(events: seq<Event>): seq<L.Event> {
    if events == [] then []
    else
      var e := events[|events| - 1];
      Calls(events[..|events| - 1]) + if e.Call? then [L.Event(e.at, e.request)] else []
  }

  lemma {:induction false} NoCalls()
    ensures Calls([]) == []
  {
  }

  /** One more event of a run: an alarm is no call, and a call is one more step of the lease machine. */
  lemma {:induction false} OneMoreEvent(start: L.State, events: seq<Event>, i: nat)
    requires i < |events|
    ensures var (machine, replies) := L.Run(start, Calls(events[..i]));
            L.Run(start, Calls(events[..i + 1])) ==
            if events[i].AlarmFires? then (machine, replies)
            else
              var (after, reply) := L.Step(machine, events[i].at, events[i].request);
              (after, replies + [reply])
  {
    var (e, calls) := (events[i], Calls(events[..i]));
    assert events[..i + 1][..i] == events[..i];
    hide L.Step;
    if e.Call? {
      assert Calls(events[..i + 1]) == calls + [L.Event(e.at, e.request)];
      assert (calls + [L.Event(e.at, e.request)])[..|calls|] == calls;
    } else {
      assert Calls(events[..i + 1]) == calls;
    }
  }

  lemma {:induction false} AgreementLasts(a: L.State, b: L.State, now: int, later: int)
    requires now <= later
    ensures L.At(a, now) == L.At(b, now) ==> L.At(a, later) == L.At(b, later)
    ensures L.At(L.At(a, now), later) == L.At(a, later)
  {
  }

  lemma {:induction false} SameStep(a: L.State, b: L.State, now: int, r: L.Request)
    ensures L.At(a, now) == L.At(b, now) ==> L.Step(a, now, r) == L.Step(b, now, r)
  {
    if L.At(a, now) == L.At(b, now) {
      L.ExpiryIsInvisible(a, b, now, r, now);
    }
  }

  /** Comparing admitted token text with stored token text is comparing the numbers. */
  lemma {:induction false} TokenTextIsIdentity(arg: TokenArg, stored: Option<string>)
    requires CanonicalToken(arg).Some? && (stored.Some? ==> Canonical(stored.value))
    ensures Canonical(CanonicalToken(arg).value) && 0 < NumberOf(CanonicalToken(arg).value) <= MAX_TEXT
    ensures stored.Some? ==>
              (stored == CanonicalToken(arg) <==> Value(stored.value) == NumberOf(CanonicalToken(arg).value))
  {
    var n := if arg.Number? then arg.n else Value(arg.s);
    PrintValue(n);
    if arg.Text? {
      ValueBounds(arg.s);
    }
    if stored.Some? {
      ValuePrint(stored.value);
    }
  }

  lemma {:induction false} SentToken(token: nat)
    requires 0 < token <= MAX_TEXT
    ensures CanonicalToken(Text(Print(token))) == Some(Print(token)) && NumberOf(Print(token)) == token
  {
    PrintValue(token);
  }

  /** Admission keeps the canonical text of exactly the positive tokens a request may carry. */
  lemma {:induction false} AdmittedTokens(arg: TokenArg, n: nat)
    ensures CanonicalToken(arg) == Some(Print(n)) <==>
              || (arg.Number? && arg.n == n && 0 < n <= MAX_SAFE_INTEGER)
              || (arg.Text? && arg.s == Print(n) && 0 < n <= MAX_TEXT)
  {
    PrintValue(n);
    if arg.Text? && arg.s != "" && AllDigits(arg.s) && arg.s[0] != '0' {
      ValuePrint(arg.s);
      ValueBounds(arg.s);
    }
    if arg.Number? && arg.n > 0 {
      PrintValue(arg.n);
    }
  }
}
