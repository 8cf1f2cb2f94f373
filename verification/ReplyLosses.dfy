/** What becomes of a tracked request: when it is suspected, when it is reported lost, what is claimed for it then,
    which claims carry it, and which ids are acknowledged. */
module ReplyLosses {
  import opened Outcomes
  import opened ReplyClaims
  import opened ReplySchedule

  /* ----- one target under one event ----- */

  lemma UpdatedHas(ts: seq<Target>, f: Target -> Target, t: Target)
    requires t in ts
    ensures f(t) in Updated(ts, f)
  {
    var i :| 0 <= i < |ts| && ts[i] == t;
    assert Updated(ts, f)[i] == f(t);
  }

  lemma {:induction false} PutHas(ts: seq<Target>, t: Target)
    ensures t in Put(ts, t)
    ensures forall x :: x in ts && x.requestId != t.requestId ==> x in Put(ts, t)
  {
    if ts != [] {
      PutHas(ts[..|ts| - 1], t);
      assert ts == ts[..|ts| - 1] + [ts[|ts| - 1]];
    }
  }

  /** Tracking a request starts it afresh, and leaves the others alone. */
  lemma TrackBegins(sch: Scheduler, s: Settings, r: RequestId, url: Url, ids: seq<Id>, dataWanted: nat, now: nat)
    requires s.Valid() && !sch.closed
    ensures var after := Step(sch, s, Track(r, url, ids, dataWanted, now));
      && Target(r, url, ids, now, dataWanted, None, false) in after.targets
      && (forall t :: t in sch.targets && t.requestId != r ==> t in after.targets)
      && after.entries == sch.entries && after.lost == sch.lost
  {
    PutHas(sch.targets, Target(r, url, ids, now, dataWanted, None, false));
  }

  /** A fragment clears the suspicion of its request and may widen its front; the others are left alone. */
  lemma FragmentClears(sch: Scheduler, s: Settings, r: RequestId, dataShards: nat, t: Target)
    requires s.Valid() && t in sch.targets
    ensures var after := Step(sch, s, Fragment(r, dataShards));
      && (t.requestId != r ==> t in after.targets)
      && (t.requestId == r ==>
          t.(suspectSince := None, dataWanted := if dataShards > t.dataWanted then dataShards else t.dataWanted) in after.targets)
      && after.entries == sch.entries && after.lost == sch.lost
  {
    UpdatedHas(sch.targets, x => SawFragment(x, r, dataShards), t);
  }

  /** A failed claim makes the requests it carried suspect from then on, unless they were already. */
  lemma FailureSuspects(sch: Scheduler, s: Settings, e: Event, t: Target)
    requires s.Valid() && e.Fails? && IsOpen(sch, e.url, e.i) && t in sch.targets
    ensures var (after, claim) := (Step(sch, s, e), sch.entries[e.url].open[e.i]);
      && (t.requestId in claim.requests && t.suspectSince.None? ==> t.(suspectSince := Some(e.now)) in after.targets)
      && (t.requestId !in claim.requests || t.suspectSince.Some? ==> t in after.targets)
      && after.lost == sch.lost
  {
    hide FailedClaim;
    var requests := sch.entries[e.url].open[e.i].requests;
    UpdatedHas(sch.targets, x => Suspected(x, requests, e.now), t);
  }

  /** Its ids can be claimed again at once. */
  lemma FailureFreesIds(sch: Scheduler, s: Settings, w: World, e: Event, id: Id)
    requires s.Valid() && Good(sch, s, w) && e.Fails? && IsOpen(sch, e.url, e.i) && id in sch.entries[e.url].open[e.i].ids
    ensures var after := Step(sch, s, e);
      e.url in after.entries && id !in after.entries[e.url].inFlight
      && after.entries[e.url].claims == sch.entries[e.url].claims - 1
  {
    hide GoodTargets, Updated, AddAll;
    assert GoodAt(sch.entries[e.url], e.url, s, w);
  }

  /* ----- ticks ----- */

  /** Suspect for a whole grace period, and not reported yet. */
  predicate Overdue(t: Target, s: Settings, now: nat) {
    t.suspectSince.Some? && now >= t.suspectSince.value + s.lostGraceMs && !t.lostReported
  }

  lemma {:induction false} SweepOfOne(ts: seq<Target>, entries: map<Url, Entry>, s: Settings, host: Host, now: nat, t: Target)
    requires Unique(ts) && t in ts && host.pending(t.requestId)
    ensures var sweep := Swept(ts, entries, s, host, now);
      && (if Overdue(t, s, now) then t.(lostReported := true) else t) in sweep.kept
      && multiset(sweep.lost)[t.requestId] == if Overdue(t, s, now) then 1 else 0
  {
    hide QueuedAt;
    var k := |ts| - 1;
    var front := ts[..k];
    assert ts == front + [ts[k]];
    var before := Swept(front, entries, s, host, now);
    if t == ts[k] {
      assert forall x :: x in front ==> x.requestId != t.requestId;
      SweptReports(front, entries, s, host, now);
      assert t.requestId !in before.lost;
    } else {
      assert t in front;
      SweepOfOne(front, entries, s, host, now, t);
      assert ts[k].requestId != t.requestId by { InFront(ts, t); }
    }
  }

  lemma InFront(ts: seq<Target>, t: Target)
    requires Unique(ts) && ts != [] && t in ts[..|ts| - 1]
    ensures ts[|ts| - 1].requestId != t.requestId
  {}

  /** A tick reports a pending request exactly when it is overdue, once, and then marks it. */
  lemma TickReports(sch: Scheduler, s: Settings, w: World, host: Host, now: nat, t: Target)
    requires s.Valid() && Good(sch, s, w) && !sch.closed && t in sch.targets && host.pending(t.requestId)
    ensures var after := Step(sch, s, Tick(host, now));
      && (if Overdue(t, s, now) then t.(lostReported := true) else t) in after.targets
      && multiset(after.lost)[t.requestId] == multiset(sch.lost)[t.requestId] + if Overdue(t, s, now) then 1 else 0
  {
    hide Swept, Served, Busy, GoodEntries, AtEntry;
    SweepOfOne(sch.targets, sch.entries, s, host, now, t);
  }

  /** A tick drops every request that is settled. */
  lemma TickDropsSettled(sch: Scheduler, s: Settings, w: World, host: Host, now: nat)
    requires s.Valid() && Good(sch, s, w) && !sch.closed
    ensures forall t :: t in Step(sch, s, Tick(host, now)).targets ==> host.pending(t.requestId)
  {
    hide Swept, Served, Busy, GoodEntries, AtEntry, FoundLost;
    SweptReports(sch.targets, sch.entries, s, host, now);
  }

  /* ----- losses over runs ----- */

  /** The request is tracked, suspect since then, and its loss reported or not. */
  ghost predicate Watched(sch: Scheduler, r: RequestId, since: nat, reported: bool) {
    exists t :: t in sch.targets && t.requestId == r && t.suspectSince == Some(since) && t.lostReported == reported
  }

  /** An event that leaves a request as it is: no fragment of it, and it stays pending. */
  predicate Leaves(e: Event, r: RequestId) {
    match e
    case Track(q, _, _, _, _) => q != r
    case Fragment(q, _) => q != r
    case Tick(host, _) => host.pending(r)
    case Close => false
    case _ => true
  }

  /** A tick a grace period after the failure, or later. */
  predicate Late(e: Event, s: Settings, since: nat) { e.Tick? && e.now >= since + s.lostGraceMs }

  lemma WatchedStep(sch: Scheduler, s: Settings, w: World, e: Event, r: RequestId, since: nat, reported: bool)
    requires s.Valid() && Good(sch, s, w) && Enabled(sch, w, e) && !sch.closed
    requires Leaves(e, r) && Watched(sch, r, since, reported)
    ensures var after := Step(sch, s, e);
      && Watched(after, r, since, reported || Late(e, s, since)) && !after.closed
      && multiset(after.lost)[r] == multiset(sch.lost)[r] + if Late(e, s, since) && !reported then 1 else 0
  {
    hide Good, GoodEntries, GoodTargets, Ticked, Succeeded, FailedClaim, Owned, Updated, Put;
    var t :| t in sch.targets && t.requestId == r && t.suspectSince == Some(since) && t.lostReported == reported;
    match e
    case Track(q, url, ids, dataWanted, now) => TrackBegins(sch, s, q, url, ids, dataWanted, now);
    case Fragment(q, dataShards) => FragmentClears(sch, s, q, dataShards, t);
    case Tick(host, now) =>
      TickReports(sch, s, w, host, now, t);
      TickKeepsOpen(sch, s, host, now);
    case Fails(_, _, _) => FailureSuspects(sch, s, e, t);
    case Done(_, _, _) =>
    case Probed(_, _) =>
    case Close =>
  }

  lemma TickKeepsOpen(sch: Scheduler, s: Settings, host: Host, now: nat)
    requires s.Valid() && !sch.closed
    ensures !Ticked(sch, s, host, now).closed
  {
    hide Swept, Served, Busy;
  }

  lemma {:induction false} ClosedIsEmpty(states: seq<Scheduler>, events: seq<Event>, s: Settings, w: World, k: nat)
    requires s.Valid() && Run(states, events, s, w) && k < |states| && states[k].closed
    ensures states[k].targets == []
  {
    hide Swept, Served, Busy, Succeeded, FailedClaim, Owned;
    if k > 0 {
      assert Follows(states, events, s, w, k - 1);
      if states[k - 1].closed { ClosedIsEmpty(states, events, s, w, k - 1); }
    }
  }

  ghost predicate LateBetween(events: seq<Event>, s: Settings, since: nat, f: nat, k: nat) {
    exists j :: f < j < k <= |events| && Late(events[j], s, since)
  }

  /** The claim that fails in step f carries request r, which nobody suspects yet. */
  ghost predicate Loses(states: seq<Scheduler>, events: seq<Event>, f: nat, r: RequestId) {
    && f < |events| < |states| && events[f].Fails? && IsOpen(states[f], events[f].url, events[f].i)
    && r in states[f].entries[events[f].url].open[events[f].i].requests
    && exists t :: t in states[f].targets && t.requestId == r && t.suspectSince.None? && !t.lostReported
  }

  /** A request whose claim failed, with no fragment since and still pending, is reported lost exactly once: in the
      first tick at least the grace period later, and in no other. */
  lemma {:induction false} LossIsReportedOnce(states: seq<Scheduler>, events: seq<Event>, s: Settings, w: World,
                                              f: nat, k: nat, r: RequestId)
    requires s.Valid() && Run(states, events, s, w) && Loses(states, events, f, r) && f < k <= |events|
    requires forall j :: f < j < k ==> Leaves(events[j], r)
    ensures var late := LateBetween(events, s, events[f].now, f, k);
      && Watched(states[k], r, events[f].now, late) && !states[k].closed
      && multiset(states[k].lost)[r] == multiset(states[f].lost)[r] + if late then 1 else 0
    decreases k
  {
    hide Run, Step, Enabled, Good, Leaves, Late;
    var since := events[f].now;
    if k == f + 1 {
      FirstFailure(states, events, s, w, f, r);
    } else {
      LossIsReportedOnce(states, events, s, w, f, k - 1, r);
      EveryStateIsGood(states, events, s, w, k - 1);
      assert Follows(states, events, s, w, k - 1) by { RunFollows(states, events, s, w, k - 1); }
      var late := LateBetween(events, s, since, f, k - 1);
      WatchedStep(states[k - 1], s, w, events[k - 1], r, since, late);
      assert LateBetween(events, s, since, f, k) <==> late || Late(events[k - 1], s, since);
    }
  }

  lemma RunFollows(states: seq<Scheduler>, events: seq<Event>, s: Settings, w: World, k: nat)
    requires s.Valid() && Run(states, events, s, w) && k < |events|
    ensures Follows(states, events, s, w, k)
  {}

  lemma FirstFailure(states: seq<Scheduler>, events: seq<Event>, s: Settings, w: World, f: nat, r: RequestId)
    requires s.Valid() && Run(states, events, s, w) && Loses(states, events, f, r)
    ensures Watched(states[f + 1], r, events[f].now, false) && !states[f + 1].closed
    ensures states[f + 1].lost == states[f].lost
  {
    hide Enabled, FailedClaim, Updated;
    var t :| t in states[f].targets && t.requestId == r && t.suspectSince.None? && !t.lostReported;
    assert Follows(states, events, s, w, f);
    FailureSuspects(states[f], s, events[f], t);
    if states[f].closed { ClosedIsEmpty(states, events, s, w, f); }
  }

  /** From the failure on, every active id of a suspect request that is not in flight is wanted, parity too. */
  lemma SuspectWantsAll(t: Target, active: seq<Id>, e: Entry, s: Settings, now: nat, id: Id)
    requires t.suspectSince.Some?
    ensures id in WantedIds(t, active, e, s, now) <==> id in active && id !in e.inFlight
  {
    hide FirstArrivalFront;
  }

  /** The wait that the path is known to relay: what the host's probe said, or without probes what the entry said. */
  function Relayed(e: Entry, s: Settings): Option<nat> { if s.hostProbes then e.relayWaitMaxMs else e.waitMaxMs }

  /** Claims can be held at all: wanted, retained, relayed, and not ruled out by the entry. */
  predicate CanHold(e: Entry, s: Settings) {
    && s.waitMs > 0 && s.retain && Relayed(e, s).Some? && Relayed(e, s).value > 0
    && (e.waitMaxMs.Some? ==> e.waitMaxMs.value > 0)
  }

  /** A claim is held exactly when claims can be and a slot stays free of held ones; for no longer than the settings,
      the path and the entry allow, and for as long as one of them allows. */
  lemma HoldsExactly(e: Entry, s: Settings)
    requires e.waiting >= 0
    ensures var wait := WaitFor(e, s, false);
      && (wait > 0 <==> CanHold(e, s) && (e.waiting == 0 || e.waiting < MaxClaims(e, s) - 1))
      && wait <= s.waitMs && (Relayed(e, s).Some? ==> wait <= Relayed(e, s).value)
      && (e.waitMaxMs.Some? && Relayed(e, s).Some? ==> wait <= e.waitMaxMs.value)
      && (wait > 0 ==> wait == s.waitMs || Some(wait) == Relayed(e, s) || Some(wait) == e.waitMaxMs)
  {}

  /** Of a fresh request the first block is wanted at once, the second too where an entry of version 2 holds claims,
      and no further one. */
  lemma FirstBlocks(t: Target, active: seq<Id>, e: Entry, s: Settings, now: nat, k: nat)
    requires k < |t.initialIds| && NoDup(t.initialIds) && t.dataWanted <= 1
    requires t.suspectSince.None? && now < t.sentAt + s.parityFallbackMs
    requires t.initialIds[k] in active && t.initialIds[k] !in e.inFlight
    ensures t.initialIds[k] in WantedIds(t, active, e, s, now) <==>
      k == 0 || (k == 1 && s.firstArrival && e.v2 == Some(true) && e.longPoll != Some(false) && CanHold(e, s))
  {
    hide WantedIds;
    DataFirst(t, active, e, s, now, k);
  }

  /* ----- what a claim carries ----- */

  /** Claims that a pass opened. */
  predicate NewClaim(e: Entry, after: Entry, k: nat) { |e.open| <= k < |after.open| }

  /** Ids and requests of a claim agree with who owns the ids. */
  ghost predicate BookedFor(claim: Claim, w: World) {
    && (forall id :: id in claim.ids ==> w.owner(id) in claim.requests)
    && (forall r :: r in claim.requests ==> exists id :: id in claim.ids && w.owner(id) == r)
  }

  lemma {:induction false} AllOpenedClaims(e: Entry, s: Settings, batches: seq<seq<Wish>>)
    ensures var after := AllOpened(e, s, batches);
      && |after.open| == |e.open| + |batches| && e.open <= after.open
      && forall k :: 0 <= k < |batches| ==>
           && after.open[|e.open| + k].ids == IdsOf(batches[k])
           && after.open[|e.open| + k].requests == RequestsOf(batches[k])
           && after.open[|e.open| + k].waitMs <= s.waitMs
  {
    hide IdsOf, RequestsOf, Opened;
    if batches != [] {
      var n := |batches| - 1;
      AllOpenedClaims(e, s, batches[..n]);
      OpensLast(AllOpened(e, s, batches[..n]), s, batches[n]);
    }
  }

  lemma OpensLast(e: Entry, s: Settings, batch: seq<Wish>)
    ensures var after := Opened(e, s, batch);
      && after.open == e.open + [after.open[|e.open|]] && after.open[|e.open|].waitMs <= s.waitMs
      && after.open[|e.open|].ids == IdsOf(batch) && after.open[|e.open|].requests == RequestsOf(batch)
  {}

  lemma {:induction false} InTogether(batches: seq<seq<Wish>>, k: nat, x: Wish)
    requires k < |batches| && x in batches[k]
    ensures x in Together(batches)
  {
    if k < |batches| - 1 { InTogether(batches[..|batches| - 1], k, x); }
  }

  lemma BatchIsBooked(batch: seq<Wish>, claim: Claim, w: World)
    requires claim.ids == IdsOf(batch) && claim.requests == RequestsOf(batch)
    requires forall x :: x in batch ==> w.owner(x.id) == x.request
    ensures BookedFor(claim, w)
  {
    forall id | id in claim.ids ensures w.owner(id) in claim.requests {
      var j :| 0 <= j < |batch| && claim.ids[j] == id;
      assert batch[j] in batch;
    }
    forall r | r in claim.requests ensures exists id :: id in claim.ids && w.owner(id) == r {
      var x :| x in batch && x.request == r;
      var j :| 0 <= j < |batch| && batch[j] == x;
      assert claim.ids[j] == x.id;
    }
  }

  /** A pass opens claims for as many ids each, and up to as many claims, as the version that the entry has shown
      allows: the limits for binary claims once it spoke version 2, those for JSON before. Each claim is booked for
      exactly the requests of its ids. */
  lemma PassKeepsLimits(e: Entry, s: Settings, ts: seq<Target>, w: World, active: RequestId -> seq<Id>, now: nat, k: nat)
    requires s.Valid() && ts != [] && Unique(ts) && Owned(w, active) && e.claims == |e.open|
    ensures var after := ClaimFrom(e, s, ts, active, now);
      && e.open <= after.open
      && (|after.open| <= |e.open| || |after.open| <= if e.v2 == Some(true) then s.maxClaims else s.jsonMaxClaims)
      && (NewClaim(e, after, k) ==>
          && 0 < |after.open[k].ids| <= (if e.v2 == Some(true) then s.maxIds else s.jsonMaxIds)
          && BookedFor(after.open[k], w) && after.open[k].waitMs <= s.waitMs)
  {
    hide Wanted, Batches, SortBySent, Rotated, AllOpened, Together, Room, Owned, Unique, IdsOf, RequestsOf, BookedFor;
    var after := ClaimFrom(e, s, ts, active, now);
    var free := MaxClaims(e, s) - e.claims;
    if free > 0 {
      var start := e.cursor % |ts|;
      var ordered := Rotated(SortBySent(ts), start);
      OrderKeepsTargets(ts, start);
      WantedIsClean(ordered, w, active, e, s, now);
      var ws := Wanted(ordered, active, e, s, now);
      var batches := Batches(ws, MaxIds(e, s), free);
      BatchesHold(ws, MaxIds(e, s), free);
      AllOpenedClaims(e.(cursor := (start + 1) % |ts|), s, batches);
      if NewClaim(e, after, k) {
        var batch := batches[k - |e.open|];
        IdsCount(batch);
        forall x | x in batch ensures w.owner(x.id) == x.request {
          InTogether(batches, k - |e.open|, x);
          var j :| 0 <= j < |ws| && ws[j] == x;
        }
        BatchIsBooked(batch, after.open[k], w);
      }
    }
  }

  lemma IdsCount(ws: seq<Wish>)
    ensures |IdsOf(ws)| == |ws|
  {}

  /* ----- what is acknowledged ----- */

  lemma {:induction false} RoomForAcks(acks: seq<Id>, ids: seq<Id>)
    requires NoDup(acks) && |acks| + |ids| <= MAX_PENDING_ACKS
    ensures |QueueAll(acks, ids)| <= |acks| + |ids|
    ensures forall id :: id in QueueAll(acks, ids) <==> id in acks || id in ids
  {
    if ids != [] {
      RoomForAcks(acks, ids[..|ids| - 1]);
      assert ids == ids[..|ids| - 1] + [ids[|ids| - 1]];
    }
  }

  /** What a claim brought is acknowledged to an entry that speaks version 2 and retains: queued, while there is
      room; other entries get no acknowledgements. */
  lemma ReceivedIsAcked(sch: Scheduler, s: Settings, w: World, e: Event, id: Id)
    requires s.Valid() && Good(sch, s, w) && Enabled(sch, w, e) && e.Done? && !sch.closed
    requires |sch.entries[e.url].acks| + |e.answer.received| <= MAX_PENDING_ACKS
    ensures var (before, after) := (sch.entries[e.url], Step(sch, s, e).entries[e.url]);
      && (after.v2 == Some(true) && s.retain ==> (id in after.acks <==> id in before.acks || id in e.answer.received))
      && (after.v2 != Some(true) || !s.retain ==> after.acks == before.acks)
  {
    hide Removed, GoodTargets, QueueAll, Exclusive, Waiting, Riding, Tracks;
    assert GoodAt(sch.entries[e.url], e.url, s, w);
    RoomForAcks(sch.entries[e.url].acks, e.answer.received);
  }

  /** What an answer teaches about the entry: its version and its longest wait, when it names them; and whether it
      holds claims, once, from the first held claim that came back empty. */
  lemma AnswerTeaches(sch: Scheduler, s: Settings, e: Event)
    requires s.Valid() && e.Done? && IsOpen(sch, e.url, e.i)
    ensures var (before, after) := (sch.entries[e.url], Step(sch, s, e).entries[e.url]);
      && after.v2 == (if e.answer.v2 != None then e.answer.v2 else before.v2)
      && after.waitMaxMs == (if e.answer.waitMaxMs != None then e.answer.waitMaxMs else before.waitMaxMs)
      && (before.longPoll != None || before.open[e.i].waitMs == 0 || before.open[e.i].ids == [] ==>
          after.longPoll == before.longPoll)
      && (before.longPoll == None && before.open[e.i].waitMs > 0 && before.open[e.i].ids != [] ==>
          after.longPoll == e.answer.held)
  {
    hide Removed, QueueAll;
  }

  /** Every target at the entry is still pending. */
  ghost predicate AllPending(ts: seq<Target>, url: Url, host: Host) {
    forall t :: t in ts && t.entry == url ==> host.pending(t.requestId)
  }

  lemma {:induction false} SweepLeavesEntry(ts: seq<Target>, entries: map<Url, Entry>, s: Settings, host: Host, now: nat, url: Url)
    requires AllPending(ts, url, host) && url in entries
    ensures var after := Swept(ts, entries, s, host, now).entries;
      url in after && after[url] == entries[url]
  {
    hide FoundLost, QueueAll;
    if ts != [] {
      var (front, t) := (ts[..|ts| - 1], ts[|ts| - 1]);
      assert t in ts && forall x :: x in front ==> x in ts;
      SweepLeavesEntry(front, entries, s, host, now, url);
    }
  }

  /** The entry has nobody to claim for. */
  ghost predicate Idle(ts: seq<Target>, url: Url, host: Host) {
    host.skips(url) || forall t :: t in ts ==> t.entry != url
  }

  /** In a tick an entry with acks and nobody to claim for gets a claim of its own for them exactly when it speaks
      version 2 and has a slot free; it carries the oldest 128. */
  lemma IdleEntryIsAcked(sch: Scheduler, s: Settings, w: World, host: Host, now: nat, url: Url)
    requires s.Valid() && Good(sch, s, w) && !sch.closed && url in sch.entries
    requires AllPending(sch.targets, url, host) && Idle(sch.targets, url, host)
    ensures var (before, after) := (sch.entries[url], Step(sch, s, Tick(host, now)).entries);
      && url in after
      && if before.acks != [] && before.v2 == Some(true) && before.claims < s.maxClaims then
           var n := if |before.acks| < 128 then |before.acks| else 128;
           after[url].open == before.open + [Claim([], {}, before.acks[..n], 0)] && after[url].acks == before.acks[n..]
         else after[url] == before
  {
    hide Swept, AtEntry, ClaimFrom, GoodTargets, GoodEntries, FoundLost, WaitFor, Updated;
    SweepLeavesEntry(sch.targets, sch.entries, s, host, now, url);
    var sweep := Swept(sch.targets, sch.entries, s, host, now);
    NobodyBusy(sch.targets, sch.entries, s, host, now, url);
    NoIds();
  }

  lemma NoIds()
    ensures IdsOf([]) == [] && RequestsOf([]) == {}
  {}

  lemma {:induction false} KeptIsThere(ts: seq<Target>, entries: map<Url, Entry>, s: Settings, host: Host, now: nat)
    ensures forall t :: t in Swept(ts, entries, s, host, now).kept ==> exists x :: x in ts && x.entry == t.entry
  {
    hide QueuedAt, FoundLost;
    if ts != [] {
      KeptIsThere(ts[..|ts| - 1], entries, s, host, now);
      assert ts == ts[..|ts| - 1] + [ts[|ts| - 1]];
      assert ts[|ts| - 1] in ts;
    }
  }

  lemma NobodyBusy(ts: seq<Target>, entries: map<Url, Entry>, s: Settings, host: Host, now: nat, url: Url)
    requires Idle(ts, url, host)
    ensures url !in Busy(Swept(ts, entries, s, host, now).kept, host)
  {
    hide Swept;
    KeptIsThere(ts, entries, s, host, now);
  }

  lemma {:induction false} SweepQueuesOne(ts: seq<Target>, entries: map<Url, Entry>, s: Settings, host: Host, now: nat, t: Target)
    requires Unique(ts) && t in ts && !host.pending(t.requestId) && t.entry in entries
    requires forall x :: x in ts && x.entry == t.entry && x != t ==> host.pending(x.requestId)
    ensures var after := Swept(ts, entries, s, host, now).entries;
      t.entry in after && after[t.entry] == Queued(entries[t.entry], s, t.initialIds)
  {
    hide FoundLost, Queued;
    var (front, last) := (ts[..|ts| - 1], ts[|ts| - 1]);
    assert ts == front + [last] && forall x :: x in front ==> x in ts;
    if t == last {
      forall x | x in front && x.entry == t.entry ensures host.pending(x.requestId) { InFront(ts, x); }
      SweepLeavesEntry(front, entries, s, host, now, t.entry);
    } else {
      SweepQueuesOne(front, entries, s, host, now, t);
    }
  }

  /** The ids of a request that settled are acknowledged in the next tick, used or not: queued or already on their way,
      while the queue has room. */
  lemma SettledIsAcked(sch: Scheduler, s: Settings, w: World, host: Host, now: nat, t: Target, id: Id)
    requires s.Valid() && Good(sch, s, w) && !sch.closed && t in sch.targets && !host.pending(t.requestId)
    requires t.entry in sch.entries && id in t.initialIds
    requires sch.entries[t.entry].v2 == Some(true) && s.retain
    requires |sch.entries[t.entry].acks| + |t.initialIds| <= MAX_PENDING_ACKS
    requires forall x :: x in sch.targets && x.entry == t.entry && x != t ==> host.pending(x.requestId)
    ensures var after := Step(sch, s, Tick(host, now)).entries;
      t.entry in after && HasAck(after[t.entry], id)
  {
    hide Swept, AtEntry, Served, Busy, Rides, QueueAll, Exclusive, Tracks, Waiting, Riding;
    assert GoodAt(sch.entries[t.entry], t.entry, s, w);
    SweepQueuesOne(sch.targets, sch.entries, s, host, now, t);
    RoomForAcks(sch.entries[t.entry].acks, t.initialIds);
    var sweep := Swept(sch.targets, sch.entries, s, host, now);
    var e := sweep.entries[t.entry];
    assert id in e.acks;
    ServedKeepsAcks(e, s, AtEntry(sweep.kept, t.entry), t.entry in Busy(sweep.kept, host), host, now, id);
  }
}
