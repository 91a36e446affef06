/** The fencing decision of a protected datastore, and the store it drives. */
module Fence {
  import opened Outcomes
  import opened UnicodeText

  const MAX_TENANT_BYTES := 256
  const MAX_KEY_BYTES := 512
  const MAX_OPERATION_BYTES := 128
  const MAX_METADATA_BYTES := 256

  datatype Kind = Advanced | Replay | Stale | TokenReuse

  function Classify(hasCurrent: bool, current: nat, incoming: nat, sameOperation: bool, samePayload: bool): Kind {
    if !hasCurrent || incoming > current then Advanced
    else if incoming < current then Stale
    else if sameOperation && samePayload then Replay
    else TokenReuse
  }

  /** A fenced write request; a watermark is the last applied one, field for field. */
  datatype Write = Write(
    tenant: string,
    key: string,
    token: nat,
    operation: string,
    payload: string,
    holder: Option<string>,
    lease: Option<string>)

  datatype Error = EmptyField(field: string) | TooLong(field: string, bytes: nat, max: nat) | BadPayload | IdentityMismatch

  function CheckText(field: string, value: string, max: nat): Option<Error> {
    if value == "" then Some(EmptyField(field))
    else if |Utf8(value)| > max then Some(TooLong(field, |Utf8(value)|, max))
    else None
  }

  function CheckOptional(field: string, value: Option<string>): Option<Error> {
    if value.Some? then CheckText(field, value.value, MAX_METADATA_BYTES) else None
  }

  predicate LowerHex(value: string) {
    |value| == 64 && forall i | 0 <= i < |value| :: '0' <= value[i] <= '9' || 'a' <= value[i] <= 'f'
  }

  function Validate(w: Write): Option<Error> {
    var tenant := CheckText("tenantScope", w.tenant, MAX_TENANT_BYTES);
    var key := CheckText("resourceKey", w.key, MAX_KEY_BYTES);
    var operation := CheckText("operationId", w.operation, MAX_OPERATION_BYTES);
    var holder := CheckOptional("holder", w.holder);
    if tenant.Some? then tenant
    else if key.Some? then key
    else if operation.Some? then operation
    else if !LowerHex(w.payload) then Some(BadPayload)
    else if holder.Some? then holder
    else CheckOptional("leaseId", w.lease)
  }

  predicate Valid(w: Write) {
    Validate(w).None?
  }

  datatype Decision = Decision(
    kind: Kind,
    shouldApply: bool,
    incomingToken: nat,
    currentToken: nat,
    previousToken: Option<nat>)

  function Evaluate(current: Option<Write>, incoming: Write): Result<Decision, Error> {
    if !Valid(incoming) then Err(Validate(incoming).value)
    else if current.None? then
      var kind := Classify(false, 0, incoming.token, true, true);
      Ok(Decision(kind, kind == Advanced, incoming.token, incoming.token, None))
    else
      var mark := current.value;
      if !Valid(mark) then Err(Validate(mark).value)
      else if mark.tenant != incoming.tenant || mark.key != incoming.key then Err(IdentityMismatch)
      else
        var kind := Classify(true, mark.token, incoming.token,
          mark.operation == incoming.operation, mark.payload == incoming.payload);
        var token := if kind == Advanced then incoming.token else mark.token;
        Ok(Decision(kind, kind == Advanced, incoming.token, token, Some(mark.token)))
  }

  predicate Fits(value: string, max: nat) {
    value != "" && |Utf8(value)| <= max
  }

  /** A request is admitted exactly when every field fits; bounds count bytes, and optional fields may be absent. */
  lemma {:induction false} ValidIsExact(w: Write)
    ensures Valid(w) <==>
              && Fits(w.tenant, 256) && Fits(w.key, 512) && Fits(w.operation, 128) && LowerHex(w.payload)
              && (w.holder.Some? ==> Fits(w.holder.value, 256)) && (w.lease.Some? ==> Fits(w.lease.value, 256))
  {
  }

  /**
   The decision on any watermark, its own or a foreign one: the first defect of the request, then of the watermark, then
   a foreign identity; after that token order decides, and on a tie the operation identity. Both reported tokens and the
   applied flag go with the kind.
   */
  lemma {:induction false} EvaluateIsExact(current: Option<Write>, w: Write)
    ensures match Evaluate(current, w)
            case Err(e) =>
              if !Valid(w) then Some(e) == Validate(w)
              else if current.Some? && !Valid(current.value) then Some(e) == Validate(current.value)
              else e == IdentityMismatch && current.Some?
                   && (current.value.tenant != w.tenant || current.value.key != w.key)
            case Ok(d) =>
              && Valid(w) && d.incomingToken == w.token && (d.shouldApply <==> d.kind == Advanced)
              && match current
                 case None => d.kind == Advanced && d.currentToken == w.token && d.previousToken == None
                 case Some(mark) =>
                   && Valid(mark) && mark.tenant == w.tenant && mark.key == w.key
                   && d.previousToken == Some(mark.token)
                   && d.currentToken == (if w.token > mark.token then w.token else mark.token)
                   && (d.kind == Advanced <==> w.token > mark.token)
                   && (d.kind == Stale <==> w.token < mark.token)
                   && (d.kind == Replay <==>
                         w.token == mark.token && w.operation == mark.operation && w.payload == mark.payload)
                   && (d.kind == TokenReuse <==>
                         w.token == mark.token && !(w.operation == mark.operation && w.payload == mark.payload))
  {
    hide Validate;
  }

  // ---- The store: one watermark per (tenant, resource) pair ----

  type Pair = (string, string)
  type Store = map<Pair, Write>

  function PairOf(w: Write): Pair {
    (w.tenant, w.key)
  }

  function Lookup(store: Store, p: Pair): Option<Write> {
    if p in store then Some(store[p]) else None
  }

  /** Decide, advance the watermark and mutate, in one transaction. */
  function Submit(store: Store, w: Write): (Store, Result<Decision, Error>) {
    var r := Evaluate(Lookup(store, PairOf(w)), w);
    (if r.Ok? && r.value.shouldApply then store[PairOf(w) := w] else store, r)
  }

  predicate Applies(store: Store, w: Write) {
    var r := Submit(store, w).1;
    r.Ok? && r.value.shouldApply
  }

  predicate Coherent(store: Store) {
    forall p | p in store :: PairOf(store[p]) == p && Valid(store[p])
  }

  /** The whole decision at a store: validation, then only the token order and, on a tie, the operation identity. */
  lemma {:induction false} DecisionAtStore(store: Store, w: Write)
    requires Coherent(store)
    ensures Coherent(Submit(store, w).0)
    ensures Applies(store, w) <==> Valid(w) && (PairOf(w) in store ==> store[PairOf(w)].token < w.token)
    ensures var (after, r) := Submit(store, w);
            match r
            case Err(e) => Some(e) == Validate(w) && after == store
            case Ok(d) =>
              && after == (if d.kind == Advanced then store[PairOf(w) := w] else store)
              && PairOf(w) in after && after[PairOf(w)].token == d.currentToken >= w.token
              && (d.kind == Stale <==> w.token < d.currentToken)
              && (d.kind == Advanced || d.kind == Replay <==>
                    after[PairOf(w)].token == w.token && after[PairOf(w)].operation == w.operation
                    && after[PairOf(w)].payload == w.payload)
              && d.previousToken == (if PairOf(w) in store then Some(store[PairOf(w)].token) else None)
  {
  }

  /** What a decision says about the watermark that the store has afterwards. */
  predicate Explains(after: Store, w: Write, r: Result<Decision, Error>) {
    match r
    case Err(e) => Validate(w) == Some(e)
    case Ok(d) =>
      && Valid(w) && PairOf(w) in after && d.incomingToken == w.token && (d.shouldApply <==> d.kind == Advanced)
      && var mark := after[PairOf(w)];
         && PairOf(mark) == PairOf(w) && mark.token >= w.token
         && (d.kind == Stale <==> mark.token > w.token)
         && (d.kind == TokenReuse <==>
               mark.token == w.token && !(mark.operation == w.operation && mark.payload == w.payload))
         && (d.kind == Advanced ==> mark == w)
  }

  lemma {:induction false} EvaluateAtStore(store: Store, w: Write)
    requires Coherent(store)
    ensures Explains(Submit(store, w).0, w, Submit(store, w).1)
  {
    EvaluateIsExact(Lookup(store, PairOf(w)), w);
    hide Evaluate, Validate;
  }

  function Deliver(store: Store, ws: seq<Write>): Store {
    if ws == [] then store else Submit(Deliver(store, ws[..|ws| - 1]), ws[|ws| - 1]).0
  }

  /** Whether request `i` of a sequence mutates anything. */
  predicate AppliedAt(store: Store, ws: seq<Write>, i: nat)
    requires i < |ws|
  {
    Applies(Deliver(store, ws[..i]), ws[i])
  }

  /** Independent of any store: the token beats the initial watermark and every earlier valid token of its pair. */
  predicate IsRunningMaximum(store: Store, ws: seq<Write>, i: nat)
    requires i < |ws|
  {
    && Valid(ws[i])
    && (PairOf(ws[i]) in store ==> store[PairOf(ws[i])].token < ws[i].token)
    && forall j | 0 <= j < i && Valid(ws[j]) && PairOf(ws[j]) == PairOf(ws[i]) :: ws[j].token < ws[i].token
  }

  /** The last running maximum of a pair among the first `n` requests, or the watermark it started with. */
  function LastMaximum(store: Store, ws: seq<Write>, p: Pair, n: nat): Option<Write>
    requires n <= |ws|
  {
    if n == 0 then Lookup(store, p)
    else if PairOf(ws[n - 1]) == p && IsRunningMaximum(store, ws, n - 1) then Some(ws[n - 1])
    else LastMaximum(store, ws, p, n - 1)
  }

  predicate Dominates(store: Store, ws: seq<Write>, after: Store) {
    && (forall p | p in store :: p in after && store[p].token <= after[p].token)
    && (forall j | 0 <= j < |ws| && Valid(ws[j]) ::
          PairOf(ws[j]) in after && ws[j].token <= after[PairOf(ws[j])].token)
  }

  predicate Attained(store: Store, ws: seq<Write>, after: Store) {
    forall p | p in after ::
      (p in store && after[p] == store[p]) || exists j :: 0 <= j < |ws| && after[p] == ws[j] && Valid(ws[j])
  }

  lemma {:induction false} DeliverIsMaximum(store: Store, ws: seq<Write>)
    requires Coherent(store)
    ensures Coherent(Deliver(store, ws))
    ensures Dominates(store, ws, Deliver(store, ws)) && Attained(store, ws, Deliver(store, ws))
  {
    hide Evaluate, Validate;
    if ws != [] {
      var n := |ws| - 1;
      DeliverIsMaximum(store, ws[..n]);
      DecisionAtStore(Deliver(store, ws[..n]), ws[n]);
      ExtendMaximum(store, ws, Deliver(store, ws[..n]), Deliver(store, ws));
    }
  }

  lemma {:induction false} ExtendMaximum(store: Store, ws: seq<Write>, before: Store, after: Store)
    requires ws != []
    requires var n, w := |ws| - 1, ws[|ws| - 1];
             && Dominates(store, ws[..n], before) && Attained(store, ws[..n], before)
             && (after == before || (Valid(w) && after == before[PairOf(w) := w]
                  && (PairOf(w) in before ==> before[PairOf(w)].token < w.token)))
             && (Valid(w) ==> PairOf(w) in after && w.token <= after[PairOf(w)].token)
    ensures Dominates(store, ws, after) && Attained(store, ws, after)
  {
    hide Validate;
    var n := |ws| - 1;
    forall j | 0 <= j < |ws| && Valid(ws[j])
      ensures PairOf(ws[j]) in after && ws[j].token <= after[PairOf(ws[j])].token
    {
      assert j < n ==> ws[j] == ws[..n][j];
    }
    forall p | p in after && !(p in store && after[p] == store[p])
      ensures exists j :: 0 <= j < |ws| && after[p] == ws[j] && Valid(ws[j])
    {
      if p in before && after[p] == before[p] {
        var j :| 0 <= j < n && before[p] == ws[..n][j] && Valid(ws[..n][j]);
        assert after[p] == ws[j];
      } else {
        assert after[p] == ws[n];
      }
    }
  }

  /** The store is a fold: exactly the strict running maxima of each pair are applied. */
  lemma {:induction false} AppliedAreRunningMaxima(store: Store, ws: seq<Write>, i: nat)
    requires Coherent(store) && i < |ws|
    ensures AppliedAt(store, ws, i) <==> IsRunningMaximum(store, ws, i)
  {
    hide Evaluate, Validate;
    var before := Deliver(store, ws[..i]);
    var p := PairOf(ws[i]);
    DeliverIsMaximum(store, ws[..i]);
    DecisionAtStore(before, ws[i]);
    forall j | 0 <= j < i && Valid(ws[j]) && PairOf(ws[j]) == p
      ensures p in before && ws[j].token <= before[p].token
    {
      assert ws[j] == ws[..i][j];
    }
    if p in before && !(p in store && before[p] == store[p]) {
      var j :| 0 <= j < i && before[p] == ws[..i][j] && Valid(ws[..i][j]);
      assert before[p] == ws[j] && PairOf(ws[j]) == p;
    }
  }

  /** After any sequence, each pair's watermark is its last applied request; pairs not addressed keep theirs. */
  lemma {:induction false} WatermarkIsLastApplied(store: Store, ws: seq<Write>, p: Pair, n: nat)
    requires Coherent(store) && n <= |ws|
    ensures Lookup(Deliver(store, ws[..n]), p) == LastMaximum(store, ws, p, n)
  {
    hide Evaluate, Validate;
    if n > 0 {
      assert ws[..n][..n - 1] == ws[..n - 1];
      WatermarkIsLastApplied(store, ws, p, n - 1);
      AppliedAreRunningMaxima(store, ws, n - 1);
    }
  }

  /** Redelivering any of the requests, in any order and any number of times, applies nothing. */
  lemma {:induction false} RedeliveryIsHarmless(store: Store, ws: seq<Write>, again: seq<Write>)
    requires Coherent(store) && forall w | w in again :: w in ws
    ensures Deliver(Deliver(store, ws), again) == Deliver(store, ws)
    ensures forall i | 0 <= i < |again| :: !AppliedAt(Deliver(store, ws), again, i)
  {
    hide Evaluate, Validate;
    if again != [] {
      var n, after := |again| - 1, Deliver(store, ws);
      RedeliveryIsHarmless(store, ws, again[..n]);
      DeliverIsMaximum(store, ws);
      DecisionAtStore(after, again[n]);
      assert again[n] in again;
      var j :| 0 <= j < |ws| && ws[j] == again[n];
      forall i | 0 <= i < |again|
        ensures !AppliedAt(after, again, i)
      {
        if i < n {
          assert again[..n][..i] == again[..i] && !AppliedAt(after, again[..n], i);
        }
      }
    }
  }

  /** Why the decision must be taken inside the transaction: a cached one would move the watermark back. */
  lemma {:induction false} CachedDecisionIsUnsafe(low: Write, high: Write)
    requires Valid(low) && Valid(high) && PairOf(low) == PairOf(high) && low.token < high.token
    ensures Applies(map[], low) && Applies(map[], high)
    ensures var after := Submit(map[], high).0;
            !Applies(after, low) && after[PairOf(low) := low][PairOf(low)].token < after[PairOf(low)].token
  {
    DecisionAtStore(map[], low);
    DecisionAtStore(map[], high);
    DecisionAtStore(map[PairOf(high) := high], low);
  }
}
