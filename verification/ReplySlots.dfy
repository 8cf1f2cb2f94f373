/** Whether one claim slot of every entry stays free of long polls, so that a new request is claimed at once. */
module ReplySlots {
  import opened Outcomes
  import opened ReplyClaims
  import opened ReplySchedule

  ghost predicate Reachable(sch: Scheduler, s: Settings, w: World)
    requires s.Valid()
  {
    exists states, events :: Run(states, events, s, w) && states[|events|] == sch
  }

  lemma StartIsReachable(s: Settings, w: World)
    requires s.Valid()
    ensures Reachable(START, s, w)
  {
    var none: seq<Event> := [];
    assert Run([START], none, s, w) && [START][|none|] == START;
  }

  lemma StepIsReachable(sch: Scheduler, s: Settings, w: World, e: Event)
    requires s.Valid() && Reachable(sch, s, w) && Enabled(sch, w, e)
    ensures Reachable(Step(sch, s, e), s, w)
  {
    hide Step, Owned;
    var states, events :| Run(states, events, s, w) && states[|events|] == sch;
    var (more, longer) := (states + [Step(sch, s, e)], events + [e]);
    forall k | 0 <= k < |longer| ensures Follows(more, longer, s, w, k) {
      if k < |events| { assert Follows(states, events, s, w, k) && more[k + 1] == states[k + 1]; }
    }
    assert Run(more, longer, s, w) && more[|longer|] == Step(sch, s, e);
  }

  /** Every state of a run is reachable. */
  lemma RunsReach(states: seq<Scheduler>, events: seq<Event>, s: Settings, w: World, k: nat)
    requires s.Valid() && Run(states, events, s, w) && k < |states|
    ensures Reachable(states[k], s, w)
  {
    hide Step, Enabled;
    var (before, done) := (states[..k + 1], events[..k]);
    forall j | 0 <= j < k ensures Follows(before, done, s, w, j) {
      assert Follows(states, events, s, w, j);
    }
    assert Run(before, done, s, w) && before[|done|] == states[k];
  }

  lemma ReachableIsGood(sch: Scheduler, s: Settings, w: World)
    requires s.Valid() && Reachable(sch, s, w)
    ensures Good(sch, s, w)
  {
    hide Good, Follows;
    var states, events :| Run(states, events, s, w) && states[|events|] == sch;
    EveryStateIsGood(states, events, s, w, |events|);
  }

  /** Fewer long polls than the limit in force allows claims, at every entry. */
  predicate SlotFree(sch: Scheduler, s: Settings) {
    forall url :: url in sch.entries ==> sch.entries[url].waiting < MaxClaims(sch.entries[url], s)
  }

  /** No long polls at all, or one limit of at least two for both protocols. */
  predicate KeepsSlotFree(s: Settings) {
    !s.LongPolls() || (s.maxClaims == s.jsonMaxClaims && s.maxClaims >= 2)
  }

  lemma SlotStaysFree(sch: Scheduler, s: Settings, w: World)
    requires s.Valid() && KeepsSlotFree(s) && Reachable(sch, s, w)
    ensures SlotFree(sch, s)
  {
    hide Reachable, Exclusive, Tracks, Waiting, Riding, AcksFit, NoDup, GoodTargets;
    ReachableIsGood(sch, s, w);
    forall url | url in sch.entries ensures sch.entries[url].waiting < MaxClaims(sch.entries[url], s) {
      assert GoodAt(sch.entries[url], url, s, w);
    }
  }

  /** In every state of every run. */
  lemma EveryRunKeepsSlot(states: seq<Scheduler>, events: seq<Event>, s: Settings, w: World, k: nat)
    requires s.Valid() && KeepsSlotFree(s) && Run(states, events, s, w) && k < |states|
    ensures SlotFree(states[k], s)
  {
    hide Run, Reachable, SlotFree;
    RunsReach(states, events, s, w, k);
    SlotStaysFree(states[k], s, w);
  }

  /* ----- a run that fills every slot ----- */

  /** One request, sent through one entry, that owns every id. */
  const ALONE: World := World((id: Id) => 0, (r: RequestId) => 0)

  /** That request with n reply blocks, of which it claims one at first. */
  function TargetOf(n: nat): Target { Target(0, 0, Ids(n), 0, 1, None, false) }

  /** The client while the request waits for all its blocks. */
  function Asks(n: nat): Host {
    Host((r: RequestId) => true, (r: RequestId) => if r == 0 then Ids(n) else [], (url: Url) => false)
  }

  function Ids(n: nat): (ids: seq<Id>)
    ensures |ids| == n && NoDup(ids) && forall i :: 0 <= i < n ==> ids[i] == i
  {
    seq(n, i requires 0 <= i < n => i)
  }

  lemma AsksOwned(n: nat)
    ensures Owned(ALONE, Asks(n).active)
  {
    hide Ids;
  }

  /** The scheduler with that request and the entry in state e. */
  function With(n: nat, e: Entry): Scheduler { Scheduler([TargetOf(n)], map[0 := e], false, []) }

  lemma {:induction false} ExcludingNothing(ids: seq<Id>)
    ensures Excluding(ids, {}) == ids
  {
    if ids != [] {
      ExcludingNothing(ids[..|ids| - 1]);
      assert ids == ids[..|ids| - 1] + [ids[|ids| - 1]];
    }
  }

  /** All but the first id excluded. */
  lemma {:induction false} ExcludingRest(n: nat, m: nat, rest: set<Id>)
    requires 1 <= m <= n && forall id :: 0 <= id < n ==> (id in rest <==> id >= 1)
    ensures Excluding(Ids(n)[..m], rest) == [0]
  {
    hide Ids;
    if m == 1 {
      assert Ids(n)[..1] == [0] && [0][..0] == [];
      assert Excluding([], rest) == [];
    } else {
      ExcludingRest(n, m - 1, rest);
      assert Ids(n)[..m][..m - 1] == Ids(n)[..m - 1];
    }
  }

  /** At first only the first block is wanted, and all of them once the fallback time has passed. */
  function Wants(n: nat, now: nat): seq<Id> { if now == 0 then [0] else Ids(n) }

  lemma WantedThen(n: nat, e: Entry, s: Settings, now: nat)
    requires s.Valid() && n >= 1 && e.inFlight == {}
    requires (now == 0 && FirstArrivalFront(e, s) == 1) || now == s.parityFallbackMs
    ensures WantedIds(TargetOf(n), Ids(n), e, s, now) == Wants(n, now)
  {
    hide FirstArrivalFront, Ids;
    var dropped := Deferred(TargetOf(n), e, s, now) + e.inFlight;
    if now == 0 && n > 1 {
      RestIsDeferred(n, e, s);
      ExcludingRest(n, n, dropped);
      assert Ids(n)[..n] == Ids(n);
    } else {
      assert dropped == {};
      ExcludingNothing(Ids(n));
      assert n == 1 ==> Ids(n) == [0];
    }
  }

  lemma RestIsDeferred(n: nat, e: Entry, s: Settings)
    requires s.Valid() && n > 1 && e.inFlight == {} && FirstArrivalFront(e, s) == 1
    ensures forall id :: 0 <= id < n ==> (id in Deferred(TargetOf(n), e, s, 0) + e.inFlight <==> id >= 1)
  {
    hide FirstArrivalFront, Ids;
    var rest := Ids(n)[1..];
    assert Deferred(TargetOf(n), e, s, 0) == set id | id in rest;
    assert forall i :: 0 <= i < |rest| ==> rest[i] == i + 1;
    forall id | 1 <= id < n ensures id in rest { assert rest[id - 1] == id; }
  }

  lemma OneWanted(n: nat, e: Entry, s: Settings, now: nat)
    requires s.Valid() && n >= 1 && e.inFlight == {}
    requires (now == 0 && FirstArrivalFront(e, s) == 1) || now == s.parityFallbackMs
    ensures Wanted([TargetOf(n)], Asks(n).active, e, s, now) == Wishes(Wants(n, now), 0)
  {
    hide FirstArrivalFront, Ids, WantedIds, Wants;
    var t := TargetOf(n);
    WantedThen(n, e, s, now);
    assert [t][..0] == [];
    assert Wanted([], Asks(n).active, e, s, now) == [];
  }

  lemma OneTarget(t: Target)
    ensures SortBySent([t]) == [t] && Rotated([t], 0) == [t] && AtEntry([t], t.entry) == [t]
  {
    assert [t][..0] == [];
    assert SortBySent([]) == [];
  }

  /** What one tick does to the entry while nothing is in flight. */
  function Filled(e: Entry, s: Settings, ids: seq<Id>): Entry
    requires s.Valid()
  {
    AllOpened(e, s, Batches(Wishes(ids, 0), MaxIds(e, s), MaxClaims(e, s)))
  }

  predicate Idle(e: Entry) { e.inFlight == {} && e.claims == 0 && e.cursor == 0 }

  lemma OneClaimed(e: Entry, s: Settings, n: nat, now: nat)
    requires s.Valid() && n >= 1 && Idle(e)
    requires (now == 0 && FirstArrivalFront(e, s) == 1) || now == s.parityFallbackMs
    ensures ClaimFrom(e, s, [TargetOf(n)], Asks(n).active, now) == Filled(e, s, Wants(n, now))
  {
    hide Ids, AllOpened, Batches, Wanted, SortBySent, Rotated, Wishes, FirstArrivalFront, Wants;
    OneTarget(TargetOf(n));
    OneWanted(n, e, s, now);
    assert e.(cursor := 0) == e;
  }

  lemma OneSwept(entries: map<Url, Entry>, s: Settings, n: nat, now: nat)
    ensures Swept([TargetOf(n)], entries, s, Asks(n), now) == Sweep([TargetOf(n)], entries, [])
    ensures Busy([TargetOf(n)], Asks(n)) == {0} && AtEntry([TargetOf(n)], 0) == [TargetOf(n)]
  {
    hide Ids, FoundLost;
    var t := TargetOf(n);
    OneTarget(t);
    NotSuspect(n, s, now);
    assert [t][..0] == [];
    assert Swept([], entries, s, Asks(n), now) == Sweep([], entries, []);
  }

  lemma TickFills(entries: map<Url, Entry>, e: Entry, s: Settings, n: nat, now: nat)
    requires s.Valid() && n >= 1 && Idle(e) && (entries == map[0 := e] || (entries == map[] && e == FRESH))
    requires (now == 0 && FirstArrivalFront(e, s) == 1) || now == s.parityFallbackMs
    ensures Ticked(Scheduler([TargetOf(n)], entries, false, []), s, Asks(n), now) == With(n, Filled(e, s, Wants(n, now)))
  {
    hide Swept, Busy, AtEntry, ClaimFrom, Filled, FirstArrivalFront, Wants, TargetOf, Asks, FRESH, Ids;
    OneSwept(entries, s, n, now);
    OneClaimed(e, s, n, now);
    assert StateOf(entries, 0) == e;
  }

  lemma NotSuspect(n: nat, s: Settings, now: nat)
    ensures !FoundLost(TargetOf(n), s, now)
  {}

  /* ----- preparing the entry ----- */

  /** An entry that answered in the given version and relays long polls, as its answer says or, where the host
      probes the path, the probe. */
  function Ready(s: Settings, v2: bool): Entry {
    Entry({}, 0, 0, 0, None, Some(v2), Some(s.waitMs), if s.hostProbes then Some(s.waitMs) else None, [], [])
  }

  const CLAIMED: Entry := FRESH.(inFlight := {0}, claims := 1, open := [Claim([0], {0}, [], 0)])

  lemma FirstClaim(s: Settings)
    requires s.Valid()
    ensures Filled(FRESH, s, [0]) == CLAIMED && FirstArrivalFront(FRESH, s) == 1
  {
    var ws := Wishes([0], 0);
    assert ws == [Wish(0, 0)];
    var k := Min(MaxIds(FRESH, s), 1);
    assert ws[..k] == ws && ws[k..] == [];
    assert Batches(ws, MaxIds(FRESH, s), MaxClaims(FRESH, s)) == [ws];
    var batches := [ws];
    assert batches[..0] == [];
    assert AllOpened(FRESH, s, []) == FRESH;
    assert AllOpened(FRESH, s, [ws]) == Opened(FRESH, s, ws);
    assert IdsOf(ws) == [0];
    assert RequestsOf(ws) == {0};
  }

  /** Tracked, claimed once, answered without a reply, and probed where the host does. */
  lemma ReadyIsReachable(s: Settings, v2: bool, n: nat)
    requires s.Valid() && n >= 1
    ensures Reachable(With(n, Ready(s, v2)), s, ALONE)
  {
    hide Reachable, Filled, Ids, Ticked, Owned, CLAIMED, Succeeded;
    StartIsReachable(s, ALONE);
    var tracked := Scheduler([TargetOf(n)], map[], false, []);
    StepIsReachable(START, s, ALONE, Track(0, 0, Ids(n), 1, 0));
    assert Step(START, s, Track(0, 0, Ids(n), 1, 0)) == tracked;
    AsksOwned(n);
    FirstClaim(s);
    TickFills(map[], FRESH, s, n, 0);
    StepIsReachable(tracked, s, ALONE, Tick(Asks(n), 0));
    var answer := Answer(Some(v2), Some(s.waitMs), None, []);
    assert |CLAIMED.open| == 1 by { OneOpen(); }
    StepIsReachable(With(n, CLAIMED), s, ALONE, Done(0, 0, answer));
    var answered := Ready(s, v2).(relayWaitMaxMs := None);
    AnswerClears(s, v2);
    assert Step(With(n, CLAIMED), s, Done(0, 0, answer)) == With(n, answered);
    if s.hostProbes {
      StepIsReachable(With(n, answered), s, ALONE, Probed(0, s.waitMs));
      assert Step(With(n, answered), s, Probed(0, s.waitMs)) == With(n, Ready(s, v2));
    }
  }

  lemma OneOpen()
    ensures |CLAIMED.open| == 1
  {}

  lemma AnswerClears(s: Settings, v2: bool)
    ensures |CLAIMED.open| == 1
    ensures Succeeded(CLAIMED, s, 0, Answer(Some(v2), Some(s.waitMs), None, []), false)
         == Ready(s, v2).(relayWaitMaxMs := None)
  {
    assert QueueAll([], []) == [];
  }

  /* ----- filling it ----- */

  /** As many batches as slots when there are ids for all of them. */
  lemma {:induction false} EverySlotUsed(ws: seq<Wish>, maxIds: nat, free: nat)
    requires maxIds > 0 && |ws| == Room(maxIds, free)
    ensures |Batches(ws, maxIds, free)| == free
    decreases free
  {
    hide Room;
    if free > 0 {
      RoomStep(maxIds, free);
      assert |ws| >= maxIds;
      EverySlotUsed(ws[maxIds..], maxIds, free - 1);
    } else {
      RoomNone(maxIds);
    }
  }

  /** Of the claims opened at once on a ready entry, the first ones are held, all but one of the slots. */
  lemma {:induction false} HeldFirst(s: Settings, v2: bool, batches: seq<seq<Wish>>)
    requires s.Valid() && s.LongPolls() && forall k :: 0 <= k < |batches| ==> batches[k] != []
    ensures var (limit, after) := (Max(1, MaxClaims(Ready(s, v2), s) - 1), AllOpened(Ready(s, v2), s, batches));
      && after.v2 == Some(v2) && after.waitMaxMs == Some(s.waitMs) && after.relayWaitMaxMs == Ready(s, v2).relayWaitMaxMs
      && after.claims == |after.open| == |batches| && after.waiting == Min(|batches|, limit) && after.acks == []
      && forall k :: 0 <= k < |batches| ==> (after.open[k].waitMs > 0 <==> k < limit)
  {
    hide RequestsOf;
    if batches != [] { HeldFirst(s, v2, batches[..|batches| - 1]); }
  }

  /** The limit in force and the other one. */
  function LimitOf(s: Settings, v2: bool): nat { if v2 then s.maxClaims else s.jsonMaxClaims }

  lemma FullEntry(s: Settings, v2: bool)
    requires s.Valid() && s.LongPolls()
    ensures var (m, after) := (LimitOf(s, v2), Filled(Ready(s, v2), s, Ids(Room(MaxIds(Ready(s, v2), s), LimitOf(s, v2)))));
      && after.claims == |after.open| == m && after.waiting == Max(1, m - 1) && after.v2 == Some(v2)
      && after.acks == [] && (m > 1 ==> after.open[m - 1].waitMs == 0)
  {
    hide Room, Batches, AllOpened, Ids, Together;
    var e := Ready(s, v2);
    var ws := Wishes(Ids(Room(MaxIds(e, s), LimitOf(s, v2))), 0);
    EverySlotUsed(ws, MaxIds(e, s), LimitOf(s, v2));
    BatchesHold(ws, MaxIds(e, s), LimitOf(s, v2));
    HeldFirst(s, v2, Batches(ws, MaxIds(e, s), LimitOf(s, v2)));
  }

  lemma AnswerLowers(e: Entry, s: Settings, i: nat, answer: Answer)
    requires i < |e.open| && e.open[i].waitMs == 0 && answer.v2.Some?
    ensures var after := Succeeded(e, s, i, answer, false);
      after.waiting == e.waiting && after.v2 == answer.v2
  {
    hide QueueAll;
  }

  /** Long polls on all slots at once: with one slot right away, and with more when an answer lowers the limit. */
  lemma SlotsFillUp(s: Settings, v2: bool) returns (sch: Scheduler)
    requires s.Valid() && s.LongPolls()
    requires LimitOf(s, v2) == 1 || LimitOf(s, v2) > LimitOf(s, !v2)
    ensures Reachable(sch, s, ALONE) && !SlotFree(sch, s)
  {
    hide Reachable, Filled, Ids, Ticked, Owned, Room, FRESH, Succeeded;
    var (e, m) := (Ready(s, v2), LimitOf(s, v2));
    var n := Room(MaxIds(e, s), m);
    assert n >= 1 by { RoomForOne(MaxIds(e, s), m); }
    ReadyIsReachable(s, v2, n);
    AsksOwned(n);
    TickFills(map[0 := e], e, s, n, s.parityFallbackMs);
    StepIsReachable(With(n, e), s, ALONE, Tick(Asks(n), s.parityFallbackMs));
    FullEntry(s, v2);
    var full := Filled(e, s, Ids(n));
    sch := With(n, full);
    if m > 1 {
      var answer := Answer(Some(!v2), None, None, []);
      StepIsReachable(sch, s, ALONE, Done(0, m - 1, answer));
      var after := Succeeded(full, s, m - 1, answer, false);
      assert after.waiting == m - 1 && after.v2 == Some(!v2) by { AnswerLowers(full, s, m - 1, answer); }
      sch := Step(sch, s, Done(0, m - 1, answer));
      assert sch.entries[0] == after;
    } else {
      assert sch.entries[0].waiting == 1;
    }
  }

  /** One slot stays free of long polls in every state of every run exactly when there are no long polls, or
      the two limits are the same and at least two. */
  lemma SlotStaysFreeExactly(s: Settings)
    requires s.Valid()
    ensures (forall w, sch :: Reachable(sch, s, w) ==> SlotFree(sch, s)) <==> KeepsSlotFree(s)
  {
    hide Reachable, SlotFree;
    if KeepsSlotFree(s) {
      forall w, sch | Reachable(sch, s, w) ensures SlotFree(sch, s) { SlotStaysFree(sch, s, w); }
    } else {
      var v2 := s.maxClaims == 1 || s.maxClaims > s.jsonMaxClaims;
      var sch := SlotsFillUp(s, v2);
    }
  }

  /** The limits of the KPS defaults. */
  const DEFAULTS: Settings := Settings(4, 4, 1, 2, 4_000, true, true, 2_000, 1_500, true)

  /** The defaults do not keep it: an entry that answers the fourth claim in version 1 has three held claims and
      a limit of two. */
  lemma DefaultsFillEverySlot() returns (sch: Scheduler)
    ensures Reachable(sch, DEFAULTS, ALONE) && !SlotFree(sch, DEFAULTS)
  {
    hide Reachable, SlotFree;
    sch := SlotsFillUp(DEFAULTS, true);
  }
}
