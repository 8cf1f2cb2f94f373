/** When a call sends another copy, on which route, and when it settles: for every event, exactly. */
module SendResends {
  import opened Outcomes
  import opened SendRuns

  /* ----- what can be observed of a step ----- */

  /** The call of an event before and after its step. */
  function Before(st: State, e: Event): Call
    requires Enabled(st, e) && !e.Start?
  {
    st.calls[e.c]
  }

  function After(st: State, e: Event): Call
    requires Enabled(st, e) && !e.Start?
  {
    Step(st, e).calls[e.c]
  }

  /** One copy more, on that route. */
  predicate Sends(before: Call, after: Call, planned: Planned, hedge: bool) {
    |after.attempts| == |before.attempts| + 1 && after.attempts[|before.attempts|] == Attempt(planned, hedge, None)
  }

  predicate SendsNothing(before: Call, after: Call) { |after.attempts| == |before.attempts| }

  /** Copy a ended so, the other ones are as they were. */
  predicate OnlyEnds(before: Call, after: Call, a: nat, how: Ending) {
    && a < |before.attempts| <= |after.attempts|
    && after.attempts[a] == before.attempts[a].(ending := Some(how))
    && forall i :: 0 <= i < |before.attempts| && i != a ==> after.attempts[i] == before.attempts[i]
  }

  /** Every copy but a has ended. */
  predicate LastLive(call: Call, a: nat) { forall i :: 0 <= i < |call.attempts| && i != a ==> !call.attempts[i].Live() }

  /** The promise settled in this step, and so. */
  predicate SettlesNow(before: Call, after: Call, how: Settling) {
    !before.settled && after.settled && !after.timer && after.settlings == before.settlings + [how]
  }

  predicate StaysOpen(before: Call, after: Call) { !after.settled && after.settlings == before.settlings }

  /** The resends a call has left, before and after. */
  predicate SameResends(before: Call, after: Call) {
    after.routeResendUsed == before.routeResendUsed && after.transportLeft == before.transportLeft
  }

  predicate RouteResendTaken(before: Call, after: Call) {
    !before.routeResendUsed && after.routeResendUsed && after.transportLeft == before.transportLeft
  }

  /** A transport resend while there are any, else the route resend. */
  predicate TransportResendTaken(before: Call, after: Call) {
    if before.transportLeft > 0 then
      after.transportLeft == before.transportLeft - 1 && after.routeResendUsed == before.routeResendUsed
    else RouteResendTaken(before, after)
  }

  /* ----- the routes that are offered ----- */

  /** p is the route for a resend: another one than the failed, of version 2 when that was; through another entry, or
      with the fallback through any entry when there is none. */
  predicate OffersResend(failed: Planned, policy: Policy, plans: Plans, p: Planned) {
    && p.route != failed.route
    && if !failed.v2 then plans.elsewhere == Some(p)
       else p.v2 && (plans.elsewhereV2 == Some(p.route)
                     || (plans.elsewhereV2 == None && policy.sameEntryFallback && plans.anywhereV2 == Some(p.route)))
  }

  /** p is the route after a failed transport: the same, but it may be the failed route again. */
  predicate OffersTransport(failed: Planned, policy: Policy, plans: Plans, p: Planned) {
    if failed.v2 then
      p.v2 && (plans.elsewhereV2 == Some(p.route)
               || (plans.elsewhereV2 == None && policy.sameEntryFallback && plans.anywhereV2 == Some(p.route)))
    else
      plans.elsewhere == Some(p) || (plans.elsewhere == None && policy.sameEntryFallback && plans.anywhere == Some(p))
  }

  lemma PlanResendExactly(failed: Planned, policy: Policy, plans: Plans, p: Planned)
    ensures PlanResend(failed, policy, plans) == Some(p) <==> OffersResend(failed, policy, plans, p)
  {}

  lemma PlanTransportExactly(failed: Planned, policy: Policy, plans: Plans, p: Planned)
    ensures PlanTransportResend(failed, policy, plans) == Some(p) <==> OffersTransport(failed, policy, plans, p)
  {}

  /* ----- failures ----- */

  /** The events of an open call whose copy ends. */
  ghost predicate Fails(st: State, e: Event) { e.Failure? && Enabled(st, e) && !Before(st, e).settled }

  /** A timeout sends a copy exactly when timeouts are resent, the call may be, its route resend is left and another
      route is offered; on that route. */
  lemma TimeoutSendsExactly(st: State, e: Event, p: Planned)
    requires Fails(st, e) && e.failure.Timeout?
    ensures var (before, after) := (Before(st, e), After(st, e));
      Sends(before, after, p, false) <==>
        before.retryOnTimeout && before.retry != NoRetry && !before.routeResendUsed
        && OffersResend(before.attempts[e.a].planned, before.policy, e.plans, p)
  {
    hide PlanResend, OffersResend, AnyLive;
    PlanResendExactly(Before(st, e).attempts[e.a].planned, Before(st, e).policy, e.plans, p);
  }

  /** A failed KPS transport sends a copy exactly when the caller has not given up, nothing was written or the call may
      be resent, a resend is left and a route is offered; on that route. */
  lemma TransportSendsExactly(st: State, e: Event, p: Planned)
    requires Fails(st, e) && e.failure.Transport? && Before(st, e).kps
    ensures var (before, after) := (Before(st, e), After(st, e));
      Sends(before, after, p, false) <==>
        !e.aborted && (e.failure.phase == Dial || e.failure.phase == Open || before.retry != NoRetry)
        && (before.transportLeft > 0 || !before.routeResendUsed)
        && OffersTransport(before.attempts[e.a].planned, before.policy, e.plans, p)
  {
    hide PlanTransportResend, OffersTransport, AnyLive;
    PlanTransportExactly(Before(st, e).attempts[e.a].planned, Before(st, e).policy, e.plans, p);
  }

  /** Either a failure of these two kinds sends a copy, which uses up one resend and leaves the call open; or it sends
      none, and then the call settles, with this failure, exactly when no copy of it is live any more. */
  lemma FailureSettlesExactly(st: State, e: Event)
    requires Fails(st, e) && (e.failure.Timeout? || (e.failure.Transport? && Before(st, e).kps))
    ensures var (before, after) := (Before(st, e), After(st, e));
      && OnlyEnds(before, after, e.a, Failed(e.failure))
      && if SendsNothing(before, after) then
           && SameResends(before, after)
           && if LastLive(before, e.a) then SettlesNow(before, after, Rejected(e.failure)) else StaysOpen(before, after)
         else
           && (exists p :: Sends(before, after, p, false))
           && StaysOpen(before, after)
           && (e.failure.Timeout? ==> RouteResendTaken(before, after))
           && (e.failure.Transport? ==> TransportResendTaken(before, after))
  {
    hide PlanResend, PlanTransportResend;
    var (before, after) := (Before(st, e), After(st, e));
    StillLive(before, e.a, Failed(e.failure));
    if !SendsNothing(before, after) {
      var q := after.attempts[|before.attempts|].planned;
      assert Sends(before, after, q, false);
    }
  }

  lemma StillLive(call: Call, a: nat, how: Ending)
    requires a < |call.attempts|
    ensures AnyLive(EndAttempt(call, a, how).attempts) <==> !LastLive(call, a)
  {
    var ended := EndAttempt(call, a, how).attempts;
    if !LastLive(call, a) {
      var i :| 0 <= i < |call.attempts| && i != a && call.attempts[i].Live();
      assert ended[i].Live();
    }
  }

  /** Every other failure rejects the call at once. */
  lemma OtherFailuresReject(st: State, e: Event)
    requires Fails(st, e) && (e.failure.Other? || (e.failure.Transport? && !Before(st, e).kps))
    ensures var (before, after) := (Before(st, e), After(st, e));
      && OnlyEnds(before, after, e.a, Failed(e.failure)) && SendsNothing(before, after) && SameResends(before, after)
      && SettlesNow(before, after, Rejected(e.failure))
  {}

  /* ----- answers ----- */

  /** The first answer resolves the call with its copy. */
  lemma FirstAnswerResolves(st: State, e: Event)
    requires e.Success? && Enabled(st, e)
    ensures var (before, after) := (Before(st, e), After(st, e));
      && OnlyEnds(before, after, e.a, Answered) && SendsNothing(before, after) && SameResends(before, after)
      && if before.settled then after.settlings == before.settlings && after.settled
         else SettlesNow(before, after, Resolved(e.a))
  {}

  /* ----- lost replies and hedges ----- */

  /** A reply presumed lost sends a copy exactly when the policy says so, the call is open and its copy live, timeouts
      are resent, the call may be, its route resend is left and another route is offered. */
  lemma LostSendsExactly(st: State, e: Event, p: Planned)
    requires e.Lost? && Enabled(st, e)
    ensures var (before, after) := (Before(st, e), After(st, e));
      Sends(before, after, p, false) <==>
        !before.settled && before.attempts[e.a].ending.None? && before.policy.resendOnLost
        && before.retryOnTimeout && before.retry != NoRetry && !before.routeResendUsed
        && OffersResend(before.attempts[e.a].planned, before.policy, e.plans, p)
  {
    hide PlanResend, OffersResend;
    PlanResendExactly(Before(st, e).attempts[e.a].planned, Before(st, e).policy, e.plans, p);
  }

  /** The hedge timer sends a copy exactly when the call is open and has its route resend left, some copy is live, the
      client has room for a hedge and another route than that of the first live copy is offered. */
  lemma HedgeSendsExactly(st: State, e: Event, live: nat, p: Planned)
    requires e.HedgeTimer? && Enabled(st, e)
    requires live < |Before(st, e).attempts| && Before(st, e).attempts[live].ending.None?
    requires forall i :: 0 <= i < live ==> Before(st, e).attempts[i].ending.Some?
    ensures var (before, after) := (Before(st, e), After(st, e));
      Sends(before, after, p, true) <==>
        !before.settled && !before.routeResendUsed && st.hedges < before.policy.maxHedges
        && OffersResend(before.attempts[live].planned, before.policy, e.plans, p)
  {
    hide PlanResend, OffersResend, FirstLive;
    var before := Before(st, e);
    assert before.attempts[live].Live();
    assert FirstLive(before.attempts) == live;
    PlanResendExactly(before.attempts[live].planned, before.policy, e.plans, p);
  }

  /** These two never settle a call or end a copy; the copy they send uses up the route resend. */
  lemma ExtraCopiesLeaveTheRest(st: State, e: Event)
    requires (e.Lost? || e.HedgeTimer?) && Enabled(st, e)
    ensures var (before, after) := (Before(st, e), After(st, e));
      && after.settled == before.settled && after.settlings == before.settlings
      && before.attempts <= after.attempts
      && (if SendsNothing(before, after) then SameResends(before, after)
          else RouteResendTaken(before, after) && exists p :: Sends(before, after, p, e.HedgeTimer?))
      && (e.HedgeTimer? ==> !after.timer)
      && Step(st, e).hedges == st.hedges + if e.HedgeTimer? && !SendsNothing(before, after) then 1 else 0
  {
    hide PlanResend, FirstLive;
    var (before, after) := (Before(st, e), After(st, e));
    if !SendsNothing(before, after) {
      assert Sends(before, after, after.attempts[|before.attempts|].planned, e.HedgeTimer?);
    }
  }

  /* ----- the beginning, and everybody else ----- */

  /** A call begins with one copy on its first route, with all its resends, and with a hedge timer when the policy
      hedges and the call may be resent on another route. */
  lemma BeginsWithOneCopy(st: State, e: Event)
    requires e.Start?
    ensures var after := Step(st, e);
      && |after.calls| == |st.calls| + 1 && after.hedges == st.hedges
      && var call := after.calls[|st.calls|];
         && call.attempts == [Attempt(e.first, false, None)] && !call.settled && call.settlings == []
         && !call.routeResendUsed && call.transportLeft == e.policy.transportResends
         && (call.timer <==> e.policy.hedgeAfterMs > 0 && e.retry == OtherRoute && e.retryOnTimeout)
         && call.policy == e.policy && call.retry == e.retry && call.retryOnTimeout == e.retryOnTimeout && call.kps == e.kps
  {}

  lemma OthersUnchanged(st: State, e: Event, c: nat)
    requires Enabled(st, e) && c < |st.calls| && (e.Start? || c != e.c)
    ensures c < |Step(st, e).calls| && Step(st, e).calls[c] == st.calls[c]
  {}

  predicate SameSettings(a: Call, b: Call) {
    a.policy == b.policy && a.retry == b.retry && a.retryOnTimeout == b.retryOnTimeout && a.kps == b.kps
  }

  lemma FailureKeepsSettings(call: Call, a: nat, failure: Failure, aborted: bool, plans: Plans)
    requires a < |call.attempts|
    ensures SameSettings(AfterFailure(call, a, failure, aborted, plans), call)
  {
    hide PlanResend, PlanTransportResend, AnyLive;
  }

  /** The settings of a call never change. */
  lemma SettingsStay(st: State, e: Event)
    requires Enabled(st, e) && !e.Start?
    ensures SameSettings(After(st, e), Before(st, e))
  {
    hide PlanResend, PlanTransportResend, FirstLive, AnyLive, AfterFailure, StepHedges;
    if e.Failure? {
      FailureKeepsSettings(EndAttempt(st.calls[e.c], e.a, Failed(e.failure)), e.a, e.failure, e.aborted, e.plans);
    }
  }

  /** A call on one route whose copy times out is sent again on the other route it is offered, and resolved by the
      answer to that copy. */
  lemma SecondCopyAnswers(policy: Policy, p: Planned, q: Planned)
    requires !p.v2 && q.route != p.route
    ensures var plans := Plans(None, Some(q), None, None);
      var st1 := Step(State([], 0), Start(policy, OtherRoute, true, false, p));
      && Enabled(st1, Event.Failure(0, 0, Timeout, false, plans))
      && var st2 := Step(st1, Event.Failure(0, 0, Timeout, false, plans));
         && !st2.calls[0].settled
         && st2.calls[0].attempts == [Attempt(p, false, Some(Failed(Timeout))), Attempt(q, false, None)]
         && Enabled(st2, Success(0, 1)) && Step(st2, Success(0, 1)).calls[0].settlings == [Resolved(1)]
  {}
}
