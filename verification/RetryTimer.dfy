/** The shared retry timer's pass over its vector of deadlines, as the loop that wakes the sleepers that are due. */
module RetryTimer {
  import opened Outcomes

  /** Moves the last element into the gap; the order of the others is not kept. */
  function SwapRemove<T>(s: seq<T>, i: nat): seq<T>
    requires i < |s|
  {
    if i == |s| - 1 then s[..i] else s[i := s[|s| - 1]][..|s| - 1]
  }

  lemma {:induction false} SwapRemoveTakesOne<T>(s: seq<T>, i: nat)
    requires i < |s|
    ensures multiset(SwapRemove(s, i)) + multiset{s[i]} == multiset(s)
    ensures SwapRemove(s, i)[..i] == s[..i]
  {
    var last := |s| - 1;
    assert s == s[..last] + [s[last]];
    if i < last {
      var init := s[..last];
      assert SwapRemove(s, i) == init[i := s[last]];
      assert multiset(init[i := s[last]]) == multiset(init) - multiset{init[i]} + multiset{s[last]};
    }
  }

  class SleepState {
    var ready: bool
    /** The waker left by the latest poll, named by the number of that poll. */
    var waker: Option<nat>
    /** The wakers that have been woken. */
    var woken: seq<nat>

    constructor ()
      ensures !ready && waker.None? && woken == []
    {
      ready, waker, woken := false, None, [];
    }

    twostate predicate Woken()
      reads this
    {
      && ready && waker.None?
      && woken == old(woken) + if old(waker).Some? then [old(waker.value)] else []
    }

    /** Ready first, then the waker out of its slot. */
    method Fire()
      modifies this
      ensures Woken()
    {
      ready := true;
      if waker.Some? {
        woken := woken + [waker.value];
        waker := None;
      }
    }
  }

  datatype SleepRequest = SleepRequest(deadline: nat, state: SleepState)

  /** Every call of `sleep` allocates its own state. */
  ghost predicate OwnStates(requests: seq<SleepRequest>) {
    forall i, j | 0 <= i < j < |requests| :: requests[i].state != requests[j].state
  }

  ghost function StatesOf(requests: seq<SleepRequest>): set<SleepState> {
    set r | r in requests :: r.state
  }

  /** How far a pass has come: what it has taken out was due, what it has looked at and kept was not. */
  ghost predicate Partition(
    requests: seq<SleepRequest>, pending: seq<SleepRequest>, fired: seq<SleepRequest>, index: nat, now: nat)
  {
    && index <= |pending|
    && OwnStates(pending)
    && StatesOf(pending) !! StatesOf(fired)
    && multiset(pending) + multiset(fired) == multiset(requests)
    && (forall k | 0 <= k < index :: pending[k].deadline > now)
    && (forall r | r in fired :: r.deadline <= now)
  }

  lemma {:induction false} StatesAfterRemoval(requests: seq<SleepRequest>, i: nat)
    requires OwnStates(requests) && i < |requests|
    ensures var rest := SwapRemove(requests, i);
            && OwnStates(rest)
            && |rest| == |requests| - 1 && (forall k | 0 <= k < i :: rest[k] == requests[k])
            && requests[i].state in StatesOf(requests)
            && StatesOf(rest) == StatesOf(requests) - {requests[i].state}
  {
    var rest := SwapRemove(requests, i);
    forall k | 0 <= k < |rest|
      ensures rest[k] == requests[if k == i then |rest| else k]
    {
    }
    forall r | r in requests && r.state != requests[i].state
      ensures r in rest
    {
      var k :| 0 <= k < |requests| && requests[k] == r;
      assert r == rest[if k == |rest| then i else k];
    }
  }

  /** The element moved into the gap has not been looked at, so the index stays where it is. */
  lemma {:induction false} TakeOne(
    requests: seq<SleepRequest>, pending: seq<SleepRequest>, fired: seq<SleepRequest>, index: nat, now: nat)
    requires Partition(requests, pending, fired, index, now) && index < |pending| && pending[index].deadline <= now
    ensures var (rest, more) := (SwapRemove(pending, index), fired + [pending[index]]);
            && StatesOf(more) == StatesOf(fired) + {pending[index].state}
            && StatesOf(rest) == StatesOf(pending) - {pending[index].state}
            && pending[index].state in StatesOf(pending)
            && Partition(requests, rest, more, index, now) && |rest| == |pending| - 1
  {
    var (rest, more) := (SwapRemove(pending, index), fired + [pending[index]]);
    SwapRemoveTakesOne(pending, index);
    StatesAfterRemoval(pending, index);
    hide SwapRemove, OwnStates;
    assert StatesOf(more) == StatesOf(fired) + {pending[index].state};
    assert multiset(rest) + multiset(more) == multiset(requests);
  }

  lemma {:induction false} LeaveOne(
    requests: seq<SleepRequest>, pending: seq<SleepRequest>, fired: seq<SleepRequest>, index: nat, now: nat)
    requires Partition(requests, pending, fired, index, now) && index < |pending| && pending[index].deadline > now
    ensures Partition(requests, pending, fired, index + 1, now)
  {
  }

  lemma {:induction false} PassIsOver(
    requests: seq<SleepRequest>, pending: seq<SleepRequest>, fired: seq<SleepRequest>, now: nat)
    requires Partition(requests, pending, fired, |pending|, now)
    ensures OwnStates(pending) && multiset(pending) + multiset(fired) == multiset(requests)
    ensures (forall r | r in pending :: r.deadline > now) && (forall r | r in fired :: r.deadline <= now)
  {
  }

  /** One pass: exactly the due requests leave and their sleepers are woken; nobody else's state moves. */
  method FireDue(requests: seq<SleepRequest>, now: nat) returns (pending: seq<SleepRequest>, ghost fired: seq<SleepRequest>)
    requires OwnStates(requests)
    modifies StatesOf(requests)
    ensures OwnStates(pending)
    ensures multiset(pending) + multiset(fired) == multiset(requests)
    ensures StatesOf(pending) + StatesOf(fired) == StatesOf(requests)
    ensures forall r | r in pending :: r.deadline > now
    ensures forall r | r in fired :: r.deadline <= now
    ensures forall z | z in StatesOf(requests) && z in StatesOf(fired) :: z.Woken()
    ensures forall z | z in StatesOf(requests) && z in StatesOf(pending) :: unchanged(z)
  {
    pending, fired := requests, [];
    var index := 0;
    assert StatesOf(fired) == {};
    assert Partition(requests, pending, fired, index, now);
    hide Partition, StatesOf, SwapRemove;
    while index < |pending|
      invariant Partition(requests, pending, fired, index, now) && index <= |pending|
      invariant StatesOf(pending) !! StatesOf(fired)
      invariant StatesOf(pending) + StatesOf(fired) == StatesOf(requests)
      invariant forall z | z in StatesOf(requests) && z in StatesOf(fired) :: z.Woken()
      invariant forall z | z in StatesOf(requests) && z in StatesOf(pending) :: unchanged(z)
      decreases |pending| - index
    {
      var request := pending[index];
      if request.deadline <= now {
        TakeOne(requests, pending, fired, index, now);
        pending, fired := SwapRemove(pending, index), fired + [request];
        request.state.Fire();
      } else {
        LeaveOne(requests, pending, fired, index, now);
        index := index + 1;
      }
    }
    PassIsOver(requests, pending, fired, now);
  }
}
