/** The client that runs the calls: its callbacks change the calls and the hedge counter in place. */
module SendClient {
  import opened Outcomes
  import opened SendRuns

  class Client {
    var calls: seq<Call>
    var hedgesInFlight: int

    ghost function Now(): State
      reads this
    {
      State(calls, hedgesInFlight)
    }

    constructor ()
      ensures Now() == State([], 0) && Good(Now())
    {
      calls, hedgesInFlight := [], 0;
    }

    /** finish: settles the promise and disarms the hedge timer, once. */
    method Settle(c: nat, how: Settling)
      requires c < |calls|
      modifies this
      ensures hedgesInFlight == old(hedgesInFlight)
      ensures calls == old(calls)[c := Finish(old(calls)[c], how)]
    {
      var call := calls[c];
      if call.settled { return; }
      calls := calls[c := call.(settled := true, timer := false, settlings := call.settlings + [how])];
    }

    method RejectIfIdle(c: nat, failure: Failure)
      requires c < |calls|
      modifies this
      ensures hedgesInFlight == old(hedgesInFlight)
      ensures calls == old(calls)[c := FailIfIdle(old(calls)[c], failure)]
    {
      if !AnyLive(calls[c].attempts) { Settle(c, Rejected(failure)); }
    }

    /** end: marks the copy as over and takes a hedge off the counter. */
    method End(c: nat, a: nat, how: Ending)
      requires c < |calls| && a < |calls[c].attempts| && calls[c].attempts[a].Live()
      modifies this
      ensures calls == old(calls)[c := EndAttempt(old(calls)[c], a, how)]
      ensures hedgesInFlight
           == if old(calls)[c].attempts[a].hedge then Max(0, old(hedgesInFlight) - 1) else old(hedgesInFlight)
    {
      var call := calls[c];
      if call.attempts[a].hedge { hedgesInFlight := Max(0, hedgesInFlight - 1); }
      calls := calls[c := call.(attempts := call.attempts[a := call.attempts[a].(ending := Some(how))])];
    }

    /** launch. */
    method LaunchCopy(c: nat, planned: Planned, hedge: bool)
      requires c < |calls|
      modifies this
      ensures calls == old(calls)[c := Launch(old(calls)[c], planned, hedge)]
      ensures hedgesInFlight == old(hedgesInFlight) + if hedge then 1 else 0
    {
      var call := calls[c];
      calls := calls[c := call.(attempts := call.attempts + [Attempt(planned, hedge, None)])];
      if hedge { hedgesInFlight := hedgesInFlight + 1; }
    }

    method UseTransportResend(c: nat) returns (taken: bool)
      requires c < |calls|
      modifies this
      ensures hedgesInFlight == old(hedgesInFlight)
      ensures taken == CanTakeTransportResend(old(calls)[c])
      ensures calls == if taken then old(calls)[c := TakeTransportResend(old(calls)[c])] else old(calls)
    {
      var call := calls[c];
      if call.transportLeft > 0 {
        calls := calls[c := call.(transportLeft := call.transportLeft - 1)];
        return true;
      }
      if !call.routeResendUsed {
        calls := calls[c := call.(routeResendUsed := true)];
        return true;
      }
      return false;
    }

    /** _sendWithRetry up to the first launch. */
    method Send(policy: Policy, retry: Retry, retryOnTimeout: bool, kps: bool, first: Planned) returns (c: nat)
      requires Good(Now())
      modifies this
      ensures c == |old(calls)|
      ensures Now() == Step(old(Now()), Start(policy, retry, retryOnTimeout, kps, first)) && Good(Now())
    {
      hide Good;
      StepKeepsGood(Now(), Start(policy, retry, retryOnTimeout, kps, first));
      c := |calls|;
      calls := calls + [Call(policy, retry, retryOnTimeout, kps, [], false, false, policy.transportResends, false, [])];
      LaunchCopy(c, first, false);
      if policy.hedgeAfterMs > 0 && retry == OtherRoute && retryOnTimeout {
        calls := calls[c := calls[c].(timer := true)];
      }
      assert [] + [Attempt(first, false, None)] == [Attempt(first, false, None)];
      assert calls[c] == StartCall(policy, retry, retryOnTimeout, kps, first);
    }

    method OnSuccess(c: nat, a: nat)
      requires Good(Now()) && Enabled(Now(), Success(c, a))
      modifies this
      ensures Now() == Step(old(Now()), Success(c, a)) && Good(Now())
    {
      hide Good;
      StepKeepsGood(Now(), Success(c, a));
      End(c, a, Answered);
      if calls[c].settled { return; }
      Settle(c, Resolved(a));
    }

    method OnFailure(c: nat, a: nat, failure: Failure, aborted: bool, plans: Plans)
      requires Good(Now()) && Enabled(Now(), Event.Failure(c, a, failure, aborted, plans))
      modifies this
      ensures Now() == Step(old(Now()), Event.Failure(c, a, failure, aborted, plans)) && Good(Now())
    {
      hide Good, PlanResend, PlanTransportResend;
      StepKeepsGood(Now(), Event.Failure(c, a, failure, aborted, plans));
      End(c, a, Failed(failure));
      var call := calls[c];
      if call.settled { return; }
      if call.kps && failure.Transport? {
        if aborted { RejectIfIdle(c, failure); return; }
        var notSent := failure.phase == Dial || failure.phase == Open;
        if notSent || call.retry != NoRetry {
          var next := PlanTransportResend(call.attempts[a].planned, call.policy, plans);
          if next.Some? {
            var taken := UseTransportResend(c);
            if taken { LaunchCopy(c, next.value, false); return; }
          }
        }
        RejectIfIdle(c, failure);
      } else if failure.Timeout? {
        if !call.retryOnTimeout { RejectIfIdle(c, failure); return; }
        if call.retry != NoRetry && !call.routeResendUsed {
          var next := PlanResend(call.attempts[a].planned, call.policy, plans);
          if next.Some? {
            calls := calls[c := call.(routeResendUsed := true)];
            LaunchCopy(c, next.value, false);
            return;
          }
        }
        RejectIfIdle(c, failure);
      } else {
        Settle(c, Rejected(failure));
      }
    }

    method OnLost(c: nat, a: nat, plans: Plans)
      requires Good(Now()) && Enabled(Now(), Lost(c, a, plans))
      modifies this
      ensures Now() == Step(old(Now()), Lost(c, a, plans)) && Good(Now())
    {
      hide Good, PlanResend;
      StepKeepsGood(Now(), Lost(c, a, plans));
      var call := calls[c];
      if call.settled || !call.attempts[a].Live() || !call.policy.resendOnLost { return; }
      if call.retry == NoRetry || call.routeResendUsed || !call.retryOnTimeout { return; }
      var next := PlanResend(call.attempts[a].planned, call.policy, plans);
      if next.None? { return; }
      calls := calls[c := call.(routeResendUsed := true)];
      LaunchCopy(c, next.value, false);
    }

    method OnHedgeTimer(c: nat, plans: Plans)
      requires Good(Now()) && Enabled(Now(), HedgeTimer(c, plans))
      modifies this
      ensures Now() == Step(old(Now()), HedgeTimer(c, plans)) && Good(Now())
    {
      hide Good, PlanResend;
      StepKeepsGood(Now(), HedgeTimer(c, plans));
      var call := calls[c];
      calls := calls[c := call.(timer := false)];
      if call.settled || call.routeResendUsed || !AnyLive(call.attempts) { return; }
      if hedgesInFlight >= call.policy.maxHedges { return; }
      var live := FindLive(call.attempts);
      var next := PlanResend(call.attempts[live].planned, call.policy, plans);
      if next.None? { return; }
      calls := calls[c := calls[c].(routeResendUsed := true)];
      LaunchCopy(c, next.value, true);
    }
  }

  /** The first live copy. */
  method FindLive(attempts: seq<Attempt>) returns (i: nat)
    requires AnyLive(attempts)
    ensures i == FirstLive(attempts)
  {
    i := 0;
    while !attempts[i].Live()
      invariant i < |attempts| && forall j :: 0 <= j < i ==> !attempts[j].Live()
      decreases |attempts| - i
    {
      i := i + 1;
    }
  }
}
