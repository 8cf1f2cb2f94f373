/** One call may send several copies of its request: a resend after a timeout, a failed transport or a lost
    reply, or a hedge. Every callback of a copy is one step; copies end in any order. */
module SendRuns {
  import opened Outcomes
  import RouteSelection

  datatype Retry = NoRetry | OtherRoute | OtherExit

  /** The nodes of a route by id. */
  datatype Path = Path(entry: RouteSelection.NodeId, mix: RouteSelection.NodeId, exit: RouteSelection.NodeId)

  /** A route and whether its reply blocks are of version 2. */
  datatype Planned = Planned(route: Path, v2: bool)

  datatype Phase = Dial | Open | Later | Unlabelled

  datatype Failure = Transport(phase: Phase) | Timeout | Other

  datatype Ending = Answered | Failed(failure: Failure)

  datatype Attempt = Attempt(planned: Planned, hedge: bool, ending: Option<Ending>) {
    predicate Live() { ending.None? }
    predicate LiveHedge() { hedge && Live() }
    predicate NeverWritten() { ending.Some? && ending.value in {Failed(Transport(Dial)), Failed(Transport(Open))} }
  }

  datatype Policy = Policy(
    hedgeAfterMs: nat, maxHedges: nat, transportResends: nat, resendOnLost: bool, sameEntryFallback: bool)

  datatype Settling = Resolved(copy: nat) | Rejected(failure: Failure)

  /** The state a call closes over; settlings lists every resolve or reject of its promise. */
  datatype Call = Call(
    policy: Policy, retry: Retry, retryOnTimeout: bool, kps: bool, attempts: seq<Attempt>, settled: bool,
    routeResendUsed: bool, transportLeft: nat, timer: bool, settlings: seq<Settling>)

  /** All calls of a client and its hedge counter. */
  datatype State = State(calls: seq<Call>, hedges: int)

  /* ----- planning ----- */

  /** What route selection answers, None where it throws: a version 2 route or any route through another
      entry, and the same through any entry. */
  datatype Plans = Plans(
    elsewhereV2: Option<Path>, elsewhere: Option<Planned>, anywhereV2: Option<Path>, anywhere: Option<Planned>)

  function AsV2(route: Option<Path>): Option<Planned> {
    if route.Some? then Some(Planned(route.value, true)) else None
  }

  /** _planResend. */
  function PlanResend(failed: Planned, policy: Policy, plans: Plans): (r: Option<Planned>)
    ensures r.Some? ==> r.value.route != failed.route
    ensures r.Some? && failed.v2 ==> r.value.v2
  {
    var first := if failed.v2 then AsV2(plans.elsewhereV2) else plans.elsewhere;
    var next := if first.Some? then first
                else if policy.sameEntryFallback && failed.v2 then AsV2(plans.anywhereV2) else None;
    if next.Some? && next.value.route == failed.route then None else next
  }

  /** _planTransportResend. */
  function PlanTransportResend(failed: Planned, policy: Policy, plans: Plans): (r: Option<Planned>)
    ensures r.Some? && failed.v2 ==> r.value.v2
  {
    var first := if failed.v2 then AsV2(plans.elsewhereV2) else plans.elsewhere;
    if first.Some? then first
    else if !policy.sameEntryFallback then None
    else if failed.v2 then AsV2(plans.anywhereV2) else plans.anywhere
  }

  /* ----- the parts of a step ----- */

  predicate AnyLive(attempts: seq<Attempt>) { exists i | 0 <= i < |attempts| :: attempts[i].Live() }

  function Finish(call: Call, how: Settling): Call {
    if call.settled then call
    else call.(settled := true, timer := false, settlings := call.settlings + [how])
  }

  function FailIfIdle(call: Call, failure: Failure): Call {
    if AnyLive(call.attempts) then call else Finish(call, Rejected(failure))
  }

  function EndAttempt(call: Call, a: nat, how: Ending): Call
    requires a < |call.attempts|
  {
    call.(attempts := call.attempts[a := call.attempts[a].(ending := Some(how))])
  }

  function Launch(call: Call, planned: Planned, hedge: bool): Call {
    call.(attempts := call.attempts + [Attempt(planned, hedge, None)])
  }

  predicate CanTakeTransportResend(call: Call) { call.transportLeft > 0 || !call.routeResendUsed }

  function TakeTransportResend(call: Call): Call
    requires CanTakeTransportResend(call)
  {
    if call.transportLeft > 0 then call.(transportLeft := call.transportLeft - 1) else call.(routeResendUsed := true)
  }

  /** onFailure for an unsettled call whose copy a has been ended. */
  function AfterFailure(call: Call, a: nat, failure: Failure, aborted: bool, plans: Plans): Call
    requires a < |call.attempts|
  {
    var planned := call.attempts[a].planned;
    if call.kps && failure.Transport? then
      var mayResend := !aborted && (failure.phase in {Dial, Open} || call.retry != NoRetry);
      var next := PlanTransportResend(planned, call.policy, plans);
      if mayResend && next.Some? && CanTakeTransportResend(call) then
        Launch(TakeTransportResend(call), next.value, false)
      else FailIfIdle(call, failure)
    else if failure.Timeout? then
      var next := PlanResend(planned, call.policy, plans);
      if call.retryOnTimeout && call.retry != NoRetry && !call.routeResendUsed && next.Some? then
        Launch(call.(routeResendUsed := true), next.value, false)
      else FailIfIdle(call, failure)
    else Finish(call, Rejected(failure))
  }

  predicate ResendsLost(call: Call, a: nat)
    requires a < |call.attempts|
  {
    && !call.settled && call.attempts[a].Live() && call.policy.resendOnLost
    && call.retry != NoRetry && !call.routeResendUsed && call.retryOnTimeout
  }

  function FirstLive(attempts: seq<Attempt>): (i: nat)
    requires AnyLive(attempts)
    ensures i < |attempts| && attempts[i].Live()
    ensures forall j :: 0 <= j < i ==> !attempts[j].Live()
  {
    if attempts[0].Live() then 0 else 1 + FirstLive(attempts[1..])
  }

  predicate Hedges(call: Call, inFlight: int) {
    !call.settled && !call.routeResendUsed && AnyLive(call.attempts) && inFlight < call.policy.maxHedges
  }

  /* ----- steps ----- */

  datatype Event =
    | Start(policy: Policy, retry: Retry, retryOnTimeout: bool, kps: bool, first: Planned)
    | Success(c: nat, a: nat)
    | Failure(c: nat, a: nat, failure: Failure, aborted: bool, plans: Plans)
    | Lost(c: nat, a: nat, plans: Plans)
    | HedgeTimer(c: nat, plans: Plans)

  /** A copy's promise settles once; a timer fires only while armed. */
  predicate Enabled(st: State, e: Event) {
    match e
    case Start(_, _, _, _, _) => true
    case Success(c, a) => c < |st.calls| && a < |st.calls[c].attempts| && st.calls[c].attempts[a].Live()
    case Failure(c, a, _, _, _) => c < |st.calls| && a < |st.calls[c].attempts| && st.calls[c].attempts[a].Live()
    case Lost(c, a, _) => c < |st.calls| && a < |st.calls[c].attempts|
    case HedgeTimer(c, _) => c < |st.calls| && st.calls[c].timer
  }

  function StartCall(policy: Policy, retry: Retry, retryOnTimeout: bool, kps: bool, first: Planned): Call {
    Call(policy, retry, retryOnTimeout, kps, [Attempt(first, false, None)], false, false, policy.transportResends,
         policy.hedgeAfterMs > 0 && retry == OtherRoute && retryOnTimeout, [])
  }

  /** What an event does to its call; hedges is the client's counter. */
  function StepCall(call: Call, e: Event, hedges: int): Call
    requires e.Success? || e.Failure? || e.Lost? ==> e.a < |call.attempts|
  {
    match e
    case Start(_, _, _, _, _) => call
    case Success(_, a) =>
      var ended := EndAttempt(call, a, Answered);
      if call.settled then ended else Finish(ended, Resolved(a))
    case Failure(_, a, failure, aborted, plans) =>
      var ended := EndAttempt(call, a, Failed(failure));
      if call.settled then ended else AfterFailure(ended, a, failure, aborted, plans)
    case Lost(_, a, plans) =>
      var next := PlanResend(call.attempts[a].planned, call.policy, plans);
      if ResendsLost(call, a) && next.Some? then Launch(call.(routeResendUsed := true), next.value, false) else call
    case HedgeTimer(_, plans) =>
      var fired := call.(timer := false);
      if !Hedges(call, hedges) then fired
      else
        var next := PlanResend(call.attempts[FirstLive(call.attempts)].planned, call.policy, plans);
        if next.Some? then Launch(fired.(routeResendUsed := true), next.value, true) else fired
  }

  /** The counter after an event: an ending copy lowers it, clamped at zero, a new hedge raises it. */
  function StepHedges(call: Call, e: Event, hedges: int): int
    requires e.Success? || e.Failure? || e.Lost? ==> e.a < |call.attempts|
  {
    if e.Success? || e.Failure? then if call.attempts[e.a].hedge then Max(0, hedges - 1) else hedges
    else if e.HedgeTimer? && |StepCall(call, e, hedges).attempts| > |call.attempts| then hedges + 1
    else hedges
  }

  function Step(st: State, e: Event): State
    requires Enabled(st, e)
  {
    if e.Start? then st.(calls := st.calls + [StartCall(e.policy, e.retry, e.retryOnTimeout, e.kps, e.first)])
    else
      var call := st.calls[e.c];
      State(st.calls[e.c := StepCall(call, e, st.hedges)], StepHedges(call, e, st.hedges))
  }

  /* ----- what holds of every call ----- */

  /** Copies sent are exactly the resends used up. */
  predicate CopiesAccounted(call: Call) {
    && call.transportLeft <= call.policy.transportResends
    && |call.attempts| == 1 + (if call.routeResendUsed then 1 else 0)
                          + (call.policy.transportResends - call.transportLeft)
  }

  predicate SettlesOnce(call: Call) {
    && |call.settlings| == (if call.settled then 1 else 0)
    && (!call.settled ==> AnyLive(call.attempts))
    && (call.settled ==> !call.timer)
  }

  /** The promise carries the first answer, or the failure of a copy when there was none. */
  predicate SettlesTruly(call: Call) {
    && (!call.settled ==> forall i :: 0 <= i < |call.attempts| ==> call.attempts[i].ending != Some(Answered))
    && forall k :: 0 <= k < |call.settlings| ==> SettlingHolds(call.attempts, call.settlings[k])
  }

  predicate SettlingHolds(attempts: seq<Attempt>, s: Settling) {
    match s
    case Resolved(a) => a < |attempts| && attempts[a].ending == Some(Answered)
    case Rejected(f) => EndedWith(attempts, f)
  }

  predicate EndedWith(attempts: seq<Attempt>, f: Failure) {
    exists i | 0 <= i < |attempts| :: attempts[i].ending == Some(Failed(f))
  }

  predicate VersionKept(attempts: seq<Attempt>) {
    |attempts| > 0 && attempts[0].planned.v2 ==> forall i :: 0 <= i < |attempts| ==> attempts[i].planned.v2
  }

  /** Every copy but the last failed before anything was written. */
  predicate OnlyLastWritten(attempts: seq<Attempt>) {
    forall i :: 0 <= i < |attempts| - 1 ==> attempts[i].NeverWritten()
  }

  /** What holds of a call even in the middle of a step. */
  predicate Sound(call: Call) {
    && CopiesAccounted(call) && VersionKept(call.attempts)
    && (call.retry == NoRetry ==> OnlyLastWritten(call.attempts))
    && (call.timer ==> call.retry == OtherRoute && call.retryOnTimeout)
    && (!call.kps && (call.retry == NoRetry || !call.retryOnTimeout) ==> |call.attempts| == 1)
  }

  predicate GoodCall(call: Call) { Sound(call) && SettlesOnce(call) && SettlesTruly(call) }

  /** A step that is not over: nothing settled, and no answer seen. */
  predicate Undecided(call: Call) {
    && Sound(call) && !call.settled && call.settlings == []
    && forall i :: 0 <= i < |call.attempts| ==> call.attempts[i].ending != Some(Answered)
  }

  lemma EndKeepsSound(call: Call, a: nat, how: Ending)
    requires Sound(call) && a < |call.attempts| && call.attempts[a].Live()
    ensures Sound(EndAttempt(call, a, how))
    ensures call.retry == NoRetry ==> a == |call.attempts| - 1
  {
    assert call.retry == NoRetry && a < |call.attempts| - 1 ==> call.attempts[a].NeverWritten();
  }

  lemma EndKeepsSettlings(call: Call, a: nat, how: Ending)
    requires SettlesTruly(call) && a < |call.attempts| && call.attempts[a].Live()
    ensures forall k :: 0 <= k < |call.settlings| ==>
      SettlingHolds(EndAttempt(call, a, how).attempts, call.settlings[k])
  {
    var after := EndAttempt(call, a, how).attempts;
    forall k | 0 <= k < |call.settlings| ensures SettlingHolds(after, call.settlings[k]) {
      var s := call.settlings[k];
      assert SettlingHolds(call.attempts, s);
      if s.Rejected? {
        var i :| 0 <= i < |call.attempts| && call.attempts[i].ending == Some(Failed(s.failure));
        assert after[i].ending == Some(Failed(s.failure));
      }
    }
  }

  lemma FinishIsGood(call: Call, how: Settling)
    requires Sound(call) && !call.settled && call.settlings == [] && SettlingHolds(call.attempts, how)
    ensures GoodCall(Finish(call, how))
  {
    hide OnlyLastWritten, VersionKept, SettlingHolds;
    SameCopies(call, Finish(call, how));
  }

  lemma IdleIsGood(call: Call, failure: Failure)
    requires Undecided(call) && EndedWith(call.attempts, failure)
    ensures GoodCall(FailIfIdle(call, failure))
  {
    hide CopiesAccounted, OnlyLastWritten, VersionKept, AnyLive, EndedWith;
    if !AnyLive(call.attempts) { FinishIsGood(call, Rejected(failure)); }
  }

  /** One resend is taken off: the route resend, by a call that may be resent or by KPS, or a transport resend. */
  predicate Charged(call: Call, charged: Call) {
    || (charged in {call.(routeResendUsed := true), call.(timer := false, routeResendUsed := true)}
        && !call.routeResendUsed && ((call.retry != NoRetry && call.retryOnTimeout) || call.kps))
    || (charged == call.(transportLeft := charged.transportLeft)
        && charged.transportLeft == call.transportLeft - 1 && call.kps)
  }

  /** A further copy, paid for by one of the resends. */
  lemma LaunchIsGood(call: Call, charged: Call, planned: Planned, hedge: bool)
    requires Undecided(call) && |call.attempts| > 0
    requires Charged(call, charged)
    requires call.attempts[0].planned.v2 ==> planned.v2
    requires call.retry == NoRetry ==> forall i :: 0 <= i < |call.attempts| ==> call.attempts[i].NeverWritten()
    ensures GoodCall(Launch(charged, planned, hedge))
  {
    var after := Launch(charged, planned, hedge);
    assert after.attempts[|call.attempts|].Live();
    assert CopiesAccounted(after);
  }

  lemma SameCopies(before: Call, after: Call)
    requires CopiesAccounted(before) && |after.attempts| == |before.attempts| && after.policy == before.policy
    requires after.transportLeft == before.transportLeft && after.routeResendUsed == before.routeResendUsed
    ensures CopiesAccounted(after)
  {}

  lemma EndedStaysGood(call: Call, a: nat, how: Ending)
    requires GoodCall(call) && call.settled && a < |call.attempts| && call.attempts[a].Live()
    ensures GoodCall(EndAttempt(call, a, how))
  {
    hide Sound, SettlingHolds;
    EndKeepsSound(call, a, how);
    EndKeepsSettlings(call, a, how);
  }

  lemma SuccessKeepsGood(call: Call, e: Event, hedges: int)
    requires e.Success? && e.a < |call.attempts| && call.attempts[e.a].Live() && GoodCall(call)
    ensures GoodCall(StepCall(call, e, hedges))
  {
    hide Sound, SettlesTruly, GoodCall;
    EndKeepsSound(call, e.a, Answered) by { assert Sound(call) by { SoundOf(call); } }
    SoundOf(call);
    if call.settled { EndedStaysGood(call, e.a, Answered); }
    else { FinishIsGood(EndAttempt(call, e.a, Answered), Resolved(e.a)); }
  }

  lemma SoundOf(call: Call)
    requires GoodCall(call)
    ensures Sound(call) && (!call.settled ==> Undecided(call) && AnyLive(call.attempts))
  {}

  lemma FailureKeepsGood(call: Call, e: Event, hedges: int)
    requires e.Failure? && e.a < |call.attempts| && call.attempts[e.a].Live() && GoodCall(call)
    ensures GoodCall(StepCall(call, e, hedges))
  {
    hide Sound, SettlesTruly, GoodCall, AfterFailure;
    SoundOf(call);
    if call.settled { EndedStaysGood(call, e.a, Failed(e.failure)); }
    else {
      EndKeepsSound(call, e.a, Failed(e.failure));
      AfterFailureIsGood(EndAttempt(call, e.a, Failed(e.failure)), e.a, e.failure, e.aborted, e.plans);
    }
  }

  /** The copies of a call that may not be resent all failed unwritten once its last one did. */
  lemma AllUnwritten(call: Call, a: nat)
    requires Sound(call) && call.retry == NoRetry && a == |call.attempts| - 1 && call.attempts[a].NeverWritten()
    ensures forall i :: 0 <= i < |call.attempts| ==> call.attempts[i].NeverWritten()
  {}

  lemma AfterFailureIsGood(call: Call, a: nat, failure: Failure, aborted: bool, plans: Plans)
    requires Undecided(call) && a < |call.attempts| && call.attempts[a].ending == Some(Failed(failure))
    requires call.retry == NoRetry ==> a == |call.attempts| - 1
    ensures GoodCall(AfterFailure(call, a, failure, aborted, plans))
  {
    hide Sound, PlanResend, PlanTransportResend, GoodCall, FailIfIdle, Finish, Launch;
    var planned := call.attempts[a].planned;
    FirstVersion(call, a);
    IdleIsGood(call, failure);
    FinishIsGood(call, Rejected(failure));
    if call.kps && failure.Transport? {
      var next := PlanTransportResend(planned, call.policy, plans);
      if !aborted && (failure.phase in {Dial, Open} || call.retry != NoRetry)
         && next.Some? && CanTakeTransportResend(call) {
        if call.retry == NoRetry { AllUnwritten(call, a); }
        LaunchIsGood(call, TakeTransportResend(call), next.value, false);
      }
    } else if failure.Timeout? {
      var next := PlanResend(planned, call.policy, plans);
      if call.retryOnTimeout && call.retry != NoRetry && !call.routeResendUsed && next.Some? {
        LaunchIsGood(call, call.(routeResendUsed := true), next.value, false);
      }
    }
  }

  lemma FirstVersion(call: Call, a: nat)
    requires Sound(call) && a < |call.attempts|
    ensures call.attempts[0].planned.v2 ==> call.attempts[a].planned.v2
  {}

  lemma LostKeepsGood(call: Call, e: Event, hedges: int)
    requires e.Lost? && e.a < |call.attempts| && GoodCall(call)
    ensures GoodCall(StepCall(call, e, hedges))
  {
    hide Sound, PlanResend, GoodCall, Launch;
    SoundOf(call);
    FirstVersion(call, e.a);
    var next := PlanResend(call.attempts[e.a].planned, call.policy, e.plans);
    if ResendsLost(call, e.a) && next.Some? { LaunchIsGood(call, call.(routeResendUsed := true), next.value, false); }
  }

  lemma TimerKeepsGood(call: Call, e: Event, hedges: int)
    requires e.HedgeTimer? && call.timer && GoodCall(call)
    ensures GoodCall(StepCall(call, e, hedges))
  {
    hide Sound, PlanResend, GoodCall, Launch, FirstLive, AnyLive;
    SoundOf(call);
    FiredIsGood(call);
    if Hedges(call, hedges) {
      var a := FirstLive(call.attempts);
      FirstVersion(call, a);
      var next := PlanResend(call.attempts[a].planned, call.policy, e.plans);
      if next.Some? { LaunchIsGood(call, call.(timer := false, routeResendUsed := true), next.value, true); }
    }
  }

  lemma FiredIsGood(call: Call)
    requires call.timer && GoodCall(call)
    ensures GoodCall(call.(timer := false)) && call.retry == OtherRoute && call.retryOnTimeout
  {
    hide OnlyLastWritten, VersionKept, SettlingHolds, AnyLive;
    SameCopies(call, call.(timer := false));
  }

  /** Every event keeps its call good. */
  lemma StepCallKeepsGood(st: State, e: Event)
    requires Enabled(st, e) && !e.Start? && GoodCall(st.calls[e.c])
    ensures GoodCall(StepCall(st.calls[e.c], e, st.hedges))
  {
    hide GoodCall, StepCall;
    match e
    case Success(_, _) => SuccessKeepsGood(st.calls[e.c], e, st.hedges);
    case Failure(_, _, _, _, _) => FailureKeepsGood(st.calls[e.c], e, st.hedges);
    case Lost(_, _, _) => LostKeepsGood(st.calls[e.c], e, st.hedges);
    case HedgeTimer(_, _) => TimerKeepsGood(st.calls[e.c], e, st.hedges);
  }

  lemma StartIsGood(policy: Policy, retry: Retry, retryOnTimeout: bool, kps: bool, first: Planned)
    ensures GoodCall(StartCall(policy, retry, retryOnTimeout, kps, first))
  {
    assert StartCall(policy, retry, retryOnTimeout, kps, first).attempts[0].Live();
  }

  /* ----- the hedge counter ----- */

  function LiveHedges(attempts: seq<Attempt>): nat {
    if attempts == [] then 0
    else LiveHedges(attempts[..|attempts| - 1]) + if attempts[|attempts| - 1].LiveHedge() then 1 else 0
  }

  function AllHedges(calls: seq<Call>): nat {
    if calls == [] then 0 else AllHedges(calls[..|calls| - 1]) + LiveHedges(calls[|calls| - 1].attempts)
  }

  lemma {:induction false} LiveHedgesUpdate(attempts: seq<Attempt>, a: nat, now: Attempt)
    requires a < |attempts|
    ensures LiveHedges(attempts[a := now]) - LiveHedges(attempts)
         == (if now.LiveHedge() then 1 else 0) - (if attempts[a].LiveHedge() then 1 else 0)
  {
    var k := |attempts| - 1;
    if a < k {
      LiveHedgesUpdate(attempts[..k], a, now);
      assert attempts[a := now][..k] == attempts[..k][a := now];
    } else {
      assert attempts[a := now][..k] == attempts[..k];
    }
  }

  lemma LiveHedgesMore(attempts: seq<Attempt>, next: Attempt)
    ensures LiveHedges(attempts + [next]) == LiveHedges(attempts) + if next.LiveHedge() then 1 else 0
  {
    assert (attempts + [next])[..|attempts|] == attempts;
  }

  lemma {:induction false} AllHedgesUpdate(calls: seq<Call>, c: nat, now: Call)
    requires c < |calls|
    ensures AllHedges(calls[c := now]) - AllHedges(calls) == LiveHedges(now.attempts) - LiveHedges(calls[c].attempts)
    ensures LiveHedges(calls[c].attempts) <= AllHedges(calls)
  {
    hide LiveHedges;
    var k := |calls| - 1;
    if c < k {
      AllHedgesUpdate(calls[..k], c, now);
      assert calls[c := now][..k] == calls[..k][c := now];
    } else {
      assert calls[c := now][..k] == calls[..k];
    }
  }

  /** How an event changes the live hedges of its call. */
  lemma StepCallHedges(call: Call, e: Event, hedges: int)
    requires !e.Start? && (e.Success? || e.Failure? ==> e.a < |call.attempts| && call.attempts[e.a].Live())
    requires e.Lost? ==> e.a < |call.attempts|
    requires hedges >= LiveHedges(call.attempts)
    ensures LiveHedges(StepCall(call, e, hedges).attempts) - LiveHedges(call.attempts)
         == StepHedges(call, e, hedges) - hedges
  {
    hide LiveHedges, PlanResend, PlanTransportResend, FirstLive, AnyLive, AsV2;
    var after := StepCall(call, e, hedges);
    if e.Success? || e.Failure? {
      var how := if e.Success? then Answered else Failed(e.failure);
      LiveHedgesUpdate(call.attempts, e.a, call.attempts[e.a].(ending := Some(how)));
      var ended := EndAttempt(call, e.a, how);
      if |after.attempts| > |ended.attempts| {
        LiveHedgesMore(ended.attempts, after.attempts[|ended.attempts|]);
      }
      if call.attempts[e.a].hedge { LiveHedgeCounts(call.attempts, e.a); }
    } else if |after.attempts| > |call.attempts| {
      LiveHedgesMore(call.attempts, after.attempts[|call.attempts|]);
    }
  }

  lemma {:induction false} LiveHedgeCounts(attempts: seq<Attempt>, a: nat)
    requires a < |attempts| && attempts[a].LiveHedge()
    ensures LiveHedges(attempts) >= 1
  {
    var k := |attempts| - 1;
    if a < k { LiveHedgeCounts(attempts[..k], a); }
  }

  /* ----- whole runs ----- */

  /** Every call is good and the counter counts the live hedges of all calls. */
  predicate Good(st: State) {
    (forall c :: 0 <= c < |st.calls| ==> GoodCall(st.calls[c])) && st.hedges == AllHedges(st.calls)
  }

  /** No more live hedges than any limit that covers every call's policy. */
  predicate Limited(st: State, limit: nat) {
    (forall c :: 0 <= c < |st.calls| ==> st.calls[c].policy.maxHedges <= limit) ==> st.hedges <= limit
  }

  lemma StepKeepsGood(st: State, e: Event)
    requires Good(st) && Enabled(st, e)
    ensures Good(Step(st, e))
  {
    hide GoodCall, AllHedges, StepCall, StepHedges, StartCall;
    if e.Start? {
      var call := StartCall(e.policy, e.retry, e.retryOnTimeout, e.kps, e.first);
      StartIsGood(e.policy, e.retry, e.retryOnTimeout, e.kps, e.first);
      StartHasNoHedge(st.calls, e);
    } else {
      StepCallKeepsGood(st, e);
      AllHedgesUpdate(st.calls, e.c, StepCall(st.calls[e.c], e, st.hedges));
      StepCallHedges(st.calls[e.c], e, st.hedges);
    }
  }

  lemma StartHasNoHedge(calls: seq<Call>, e: Event)
    requires e.Start?
    ensures AllHedges(calls + [StartCall(e.policy, e.retry, e.retryOnTimeout, e.kps, e.first)]) == AllHedges(calls)
  {
    var call := StartCall(e.policy, e.retry, e.retryOnTimeout, e.kps, e.first);
    assert (calls + [call])[..|calls|] == calls;
    LiveHedgesMore([], call.attempts[0]);
    assert call.attempts == [] + [call.attempts[0]];
  }

  lemma StepKeepsLimit(st: State, e: Event, limit: nat)
    requires Limited(st, limit) && Enabled(st, e)
    ensures Limited(Step(st, e), limit)
  {
    hide PlanResend, PlanTransportResend, FirstLive, AnyLive, AsV2;
    if e.Start? {
      assert forall c :: 0 <= c < |st.calls| ==> Step(st, e).calls[c] == st.calls[c];
    } else {
      assert StepCall(st.calls[e.c], e, st.hedges).policy == st.calls[e.c].policy;
      assert forall c :: 0 <= c < |st.calls| ==> Step(st, e).calls[c].policy == st.calls[c].policy;
    }
  }

  /** Once settled, a call launches nothing and settles no more, whatever happens to any call. */
  lemma SettledStays(st: State, e: Event, c: nat)
    requires Enabled(st, e) && c < |st.calls| && st.calls[c].settled
    ensures var after := Step(st, e).calls[c];
      && after.settled && after.settlings == st.calls[c].settlings && |after.attempts| == |st.calls[c].attempts|
  {
    hide PlanResend, PlanTransportResend, FirstLive, AnyLive, AsV2;
  }

  /** The counter is positive when a hedge ends, so its clamp at zero never bites. */
  lemma ClampNeverBites(st: State, e: Event)
    requires Good(st) && Enabled(st, e) && (e.Success? || e.Failure?) && st.calls[e.c].attempts[e.a].hedge
    ensures st.hedges >= 1
  {
    hide GoodCall, LiveHedges, AllHedges;
    AllHedgesUpdate(st.calls, e.c, st.calls[e.c]);
    LiveHedgeCounts(st.calls[e.c].attempts, e.a);
  }

  ghost predicate Run(states: seq<State>, events: seq<Event>) {
    && |states| == |events| + 1 && states[0] == State([], 0)
    && forall k :: 0 <= k < |events| ==> Enabled(states[k], events[k]) && states[k + 1] == Step(states[k], events[k])
  }

  lemma {:induction false} EveryStateIsGood(states: seq<State>, events: seq<Event>, k: nat, limit: nat)
    requires Run(states, events) && k < |states|
    ensures Good(states[k]) && Limited(states[k], limit)
  {
    hide Enabled, Step, GoodCall;
    if k > 0 {
      EveryStateIsGood(states, events, k - 1, limit);
      StepKeepsGood(states[k - 1], events[k - 1]);
      StepKeepsLimit(states[k - 1], events[k - 1], limit);
    }
  }

  /** In every state of every run, each call settles once and only once all is decided, has sent at most
      2 + transportResends copies, and never mixes version 1 copies after a version 2 first one; a call that
      may not be resent has written at most its last copy; and the counter is the number of live hedges. */
  lemma EveryRunIsSafe(states: seq<State>, events: seq<Event>, k: nat, c: nat)
    requires Run(states, events) && k < |states| && c < |states[k].calls|
    ensures var call := states[k].calls[c];
      && (!call.settled ==> call.settlings == [] && AnyLive(call.attempts))
      && (call.settled ==> |call.settlings| == 1)
      && 1 <= |call.attempts| <= 2 + call.policy.transportResends
      && (call.attempts[0].planned.v2 ==> forall i :: 0 <= i < |call.attempts| ==> call.attempts[i].planned.v2)
      && (call.retry == NoRetry ==> forall i :: 0 <= i < |call.attempts| - 1 ==> call.attempts[i].NeverWritten())
      && states[k].hedges == AllHedges(states[k].calls)
  {
    hide Run, AllHedges;
    EveryStateIsGood(states, events, k, 0);
  }
}
