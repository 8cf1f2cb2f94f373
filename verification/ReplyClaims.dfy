/** Which reply ids are claimed from which entry, and when. An open claim is a suspended call of claim: it
    opened in one step and will end, in success or failure, in another. */
module ReplyClaims {
  import opened Outcomes
  import opened Arithmetic

  type Id = nat
  type Url = nat
  type RequestId = nat

  const MAX_PENDING_ACKS: nat := 512
  const MAX_ACKS_PER_CLAIM: nat := 128
  const FIRST_ARRIVAL_BLOCKS: nat := 2

  datatype Settings = Settings(
    maxIds: nat, maxClaims: nat, jsonMaxIds: nat, jsonMaxClaims: nat, waitMs: nat, retain: bool,
    firstArrival: bool, parityFallbackMs: nat, lostGraceMs: nat, hostProbes: bool)
  {
    /** What resolveReplyClaimSettings lets through. */
    predicate Valid() {
      && maxIds > 0 && maxClaims > 0 && jsonMaxIds > 0 && jsonMaxClaims > 0
      && parityFallbackMs > 0 && lostGraceMs > 0
    }
    /** Whether a claim may ask to be held at all. */
    predicate LongPolls() { waitMs > 0 && retain }
    /** The larger of the two limits on open claims. */
    function Slots(): nat { Max(maxClaims, jsonMaxClaims) }
  }

  datatype Claim = Claim(ids: seq<Id>, requests: set<RequestId>, acks: seq<Id>, waitMs: nat)

  /** The state of one entry together with its open claims. */
  datatype Entry = Entry(
    inFlight: set<Id>, claims: int, waiting: int, cursor: nat, longPoll: Option<bool>, v2: Option<bool>,
    waitMaxMs: Option<nat>, relayWaitMaxMs: Option<nat>, acks: seq<Id>, open: seq<Claim>)

  const FRESH: Entry := Entry({}, 0, 0, 0, None, None, None, None, [], [])

  datatype Target = Target(
    requestId: RequestId, entry: Url, initialIds: seq<Id>, sentAt: nat, dataWanted: nat,
    suspectSince: Option<nat>, lostReported: bool)

  /* ----- limits and long polls ----- */

  function MaxIds(e: Entry, s: Settings): nat { if e.v2 == Some(true) then s.maxIds else s.jsonMaxIds }

  function MaxClaims(e: Entry, s: Settings): nat { if e.v2 == Some(true) then s.maxClaims else s.jsonMaxClaims }

  /** waitFor: how long the next claim may be held. */
  function WaitFor(e: Entry, s: Settings, ignoreSlots: bool): nat {
    var relay := if s.hostProbes then e.relayWaitMaxMs else e.waitMaxMs;
    if s.waitMs == 0 || !s.retain then 0
    else if !ignoreSlots && e.waiting >= Max(1, MaxClaims(e, s) - 1) then 0
    else if relay.None? || relay.value == 0 then 0
    else Min(Min(s.waitMs, relay.value), if e.waitMaxMs.Some? then e.waitMaxMs.value else relay.value)
  }

  function FirstArrivalFront(e: Entry, s: Settings): nat {
    if !s.firstArrival || e.v2 != Some(true) || e.longPoll == Some(false) then 1
    else if WaitFor(e, s, true) > 0 then FIRST_ARRIVAL_BLOCKS else 1
  }

  /* ----- wanted ids ----- */

  function Excluding(ids: seq<Id>, dropped: set<Id>): (r: seq<Id>)
    ensures forall id :: id in r <==> id in ids && id !in dropped
  {
    if ids == [] then []
    else
      var k := |ids| - 1;
      Excluding(ids[..k], dropped) + if ids[k] in dropped then [] else [ids[k]]
  }

  function Deferred(t: Target, e: Entry, s: Settings, now: nat): set<Id> {
    var front := Max(t.dataWanted, FirstArrivalFront(e, s));
    if t.suspectSince.Some? || now - t.sentAt >= s.parityFallbackMs || front >= |t.initialIds| then {}
    else set id | id in t.initialIds[front..]
  }

  /** wantedIds: active ids that are neither deferred nor in flight. */
  function WantedIds(t: Target, active: seq<Id>, e: Entry, s: Settings, now: nat): seq<Id> {
    Excluding(active, Deferred(t, e, s, now) + e.inFlight)
  }

  /** An id to claim, and the request it is claimed for. */
  datatype Wish = Wish(id: Id, request: RequestId)

  function Wishes(ids: seq<Id>, request: RequestId): seq<Wish> {
    seq(|ids|, i requires 0 <= i < |ids| => Wish(ids[i], request))
  }

  function Wanted(ts: seq<Target>, active: RequestId -> seq<Id>, e: Entry, s: Settings, now: nat): seq<Wish> {
    if ts == [] then []
    else
      var t := ts[|ts| - 1];
      Wanted(ts[..|ts| - 1], active, e, s, now)
      + Wishes(WantedIds(t, active(t.requestId), e, s, now), t.requestId)
  }

  /** The wishes in batches of maxIds, as many batches as there are free slots. */
  function Batches(ws: seq<Wish>, maxIds: nat, free: nat): (r: seq<seq<Wish>>)
    requires maxIds > 0
    ensures |r| <= free
    decreases free
  {
    if ws == [] || free == 0 then []
    else
      var k := Min(maxIds, |ws|);
      [ws[..k]] + Batches(ws[k..], maxIds, free - 1)
  }

  /* ----- order of targets ----- */

  function InsertBySent(t: Target, ts: seq<Target>): (r: seq<Target>)
    ensures |r| == |ts| + 1
    ensures forall x :: x in r <==> x == t || x in ts
  {
    if ts == [] || ts[|ts| - 1].sentAt <= t.sentAt then ts + [t]
    else InsertBySent(t, ts[..|ts| - 1]) + [ts[|ts| - 1]]
  }

  /** Stable sort by the time of sending. */
  function SortBySent(ts: seq<Target>): (r: seq<Target>)
    ensures |r| == |ts|
    ensures forall x :: x in r <==> x in ts
  {
    if ts == [] then [] else InsertBySent(ts[|ts| - 1], SortBySent(ts[..|ts| - 1]))
  }

  function Rotated(ts: seq<Target>, start: nat): seq<Target>
    requires start <= |ts|
  {
    ts[start..] + ts[..start]
  }

  /* ----- opening claims ----- */

  function IdsOf(ws: seq<Wish>): seq<Id> { seq(|ws|, i requires 0 <= i < |ws| => ws[i].id) }

  function RequestsOf(ws: seq<Wish>): set<RequestId> { set w | w in ws :: w.request }

  /** claim up to its await. */
  function Opened(e: Entry, s: Settings, ws: seq<Wish>): Entry {
    var ids := IdsOf(ws);
    var taken := Min(|e.acks|, MAX_ACKS_PER_CLAIM);
    var waitMs := if ids == [] then 0 else WaitFor(e, s, false);
    e.(inFlight := e.inFlight + (set id | id in ids), claims := e.claims + 1,
       waiting := if waitMs > 0 then e.waiting + 1 else e.waiting,
       acks := e.acks[taken..],
       open := e.open + [Claim(ids, RequestsOf(ws), e.acks[..taken], waitMs)])
  }

  function AllOpened(e: Entry, s: Settings, batches: seq<seq<Wish>>): Entry {
    if batches == [] then e
    else Opened(AllOpened(e, s, batches[..|batches| - 1]), s, batches[|batches| - 1])
  }

  /** claimFrom for the targets of one entry. */
  function ClaimFrom(e: Entry, s: Settings, ts: seq<Target>, active: RequestId -> seq<Id>, now: nat): Entry
    requires s.Valid() && ts != []
  {
    var free := MaxClaims(e, s) - e.claims;
    if free <= 0 then e
    else
      var start := e.cursor % |ts|;
      var ordered := Rotated(SortBySent(ts), start);
      var moved := e.(cursor := (start + 1) % |ts|);
      AllOpened(moved, s, Batches(Wanted(ordered, active, e, s, now), MaxIds(e, s), free))
  }

  /** flushAcks for one entry that got no claim in this tick. */
  function FlushAcks(e: Entry, s: Settings): Entry {
    if e.acks == [] || e.v2 != Some(true) || e.claims >= MaxClaims(e, s) then e else Opened(e, s, [])
  }

  /* ----- acks ----- */

  function AddAck(acks: seq<Id>, id: Id): seq<Id> { if id in acks then acks else acks + [id] }

  function QueueAck(acks: seq<Id>, id: Id): seq<Id> {
    var more := AddAck(acks, id);
    if |more| > MAX_PENDING_ACKS then more[1..] else more
  }

  function QueueAll(acks: seq<Id>, ids: seq<Id>): seq<Id> {
    if ids == [] then acks else QueueAck(QueueAll(acks, ids[..|ids| - 1]), ids[|ids| - 1])
  }

  function AddAll(acks: seq<Id>, ids: seq<Id>): seq<Id> {
    if ids == [] then acks else AddAck(AddAll(acks, ids[..|ids| - 1]), ids[|ids| - 1])
  }

  /** queueAcks. */
  function Queued(e: Entry, s: Settings, ids: seq<Id>): Entry {
    if e.v2 != Some(true) || !s.retain then e else e.(acks := QueueAll(e.acks, ids))
  }

  /* ----- ending claims ----- */

  /** What a successful exchange says; held: an empty answer came back after the wait, or before it. */
  datatype Answer = Answer(v2: Option<bool>, waitMaxMs: Option<nat>, held: Option<bool>, received: seq<Id>)

  function Removed(open: seq<Claim>, i: nat): seq<Claim>
    requires i < |open|
  {
    open[..i] + open[i + 1..]
  }

  /** The finally block of claim. */
  function Closed(e: Entry, i: nat): Entry
    requires i < |e.open|
  {
    var claim := e.open[i];
    e.(inFlight := e.inFlight - (set id | id in claim.ids), claims := e.claims - 1,
       waiting := if claim.waitMs > 0 then e.waiting - 1 else e.waiting,
       open := Removed(e.open, i))
  }

  /** claim after its exchange succeeded. */
  function Succeeded(e: Entry, s: Settings, i: nat, answer: Answer, closed: bool): Entry
    requires i < |e.open|
  {
    var claim := e.open[i];
    var longPoll := if claim.ids != [] && claim.waitMs > 0 && e.longPoll.None? then answer.held else e.longPoll;
    var noted := e.(v2 := if answer.v2.Some? then answer.v2 else e.v2,
                    waitMaxMs := if answer.waitMaxMs.Some? then answer.waitMaxMs else e.waitMaxMs,
                    longPoll := longPoll);
    var done := Closed(noted, i);
    if closed then done else Queued(done, s, answer.received)
  }

  /** claim after its exchange failed: its acks go back to the queue. */
  function FailedClaim(e: Entry, i: nat): Entry
    requires i < |e.open|
  {
    Closed(e.(acks := AddAll(e.acks, e.open[i].acks)), i)
  }

  /* ----- the invariant of an entry ----- */

  predicate NoDup(ids: seq<Id>) { forall i, j :: 0 <= i < j < |ids| ==> ids[i] != ids[j] }

  predicate Apart(a: seq<Id>, b: seq<Id>) { forall id :: id in a ==> id !in b }

  /** No id is claimed twice, in one claim or in two. */
  predicate Exclusive(open: seq<Claim>) {
    && (forall i :: 0 <= i < |open| ==> NoDup(open[i].ids))
    && forall i, j :: 0 <= i < j < |open| ==> Apart(open[i].ids, open[j].ids)
  }

  predicate InSome(open: seq<Claim>, id: Id) { exists i | 0 <= i < |open| :: id in open[i].ids }

  /** inFlight is exactly what the open claims hold. */
  ghost predicate Tracks(inFlight: set<Id>, open: seq<Claim>) { forall id :: id in inFlight <==> InSome(open, id) }

  function Waiting(open: seq<Claim>): nat {
    if open == [] then 0 else Waiting(open[..|open| - 1]) + if open[|open| - 1].waitMs > 0 then 1 else 0
  }

  /** Acks that ride open claims. */
  function Riding(open: seq<Claim>): nat {
    if open == [] then 0 else Riding(open[..|open| - 1]) + |open[|open| - 1].acks|
  }

  predicate AcksFit(open: seq<Claim>) { forall i :: 0 <= i < |open| ==> |open[i].acks| <= MAX_ACKS_PER_CLAIM }

  function AckBound(s: Settings): nat { MAX_PENDING_ACKS + MAX_ACKS_PER_CLAIM * s.Slots() }

  ghost predicate GoodEntry(e: Entry, s: Settings) {
    && Exclusive(e.open) && Tracks(e.inFlight, e.open)
    && e.claims == |e.open| <= s.Slots()
    && e.waiting == Waiting(e.open) <= Max(1, s.Slots() - 1)
    && (!s.LongPolls() ==> e.waiting == 0)
    && AcksFit(e.open) && NoDup(e.acks)
    && |e.acks| + Riding(e.open) <= AckBound(s)
  }

  /* ----- opening keeps it ----- */

  lemma OneMore(open: seq<Claim>, claim: Claim)
    ensures Waiting(open + [claim]) == Waiting(open) + if claim.waitMs > 0 then 1 else 0
    ensures Riding(open + [claim]) == Riding(open) + |claim.acks|
    ensures forall id :: InSome(open + [claim], id) <==> InSome(open, id) || id in claim.ids
  {
    var more := open + [claim];
    assert more[..|open|] == open;
    forall id ensures InSome(more, id) <==> InSome(open, id) || id in claim.ids {
      if InSome(open, id) {
        var i :| 0 <= i < |open| && id in open[i].ids;
        assert id in more[i].ids;
      }
      if id in claim.ids { assert id in more[|open|].ids; }
    }
  }

  lemma OneMoreExclusive(inFlight: set<Id>, open: seq<Claim>, claim: Claim)
    requires Exclusive(open) && Tracks(inFlight, open) && NoDup(claim.ids)
    requires forall id :: id in claim.ids ==> id !in inFlight
    ensures Exclusive(open + [claim])
  {
    forall i | 0 <= i < |open| ensures Apart(open[i].ids, claim.ids) {
      forall id | id in open[i].ids ensures id !in claim.ids {
        assert InSome(open, id);
      }
    }
  }

  lemma SlotProduct(n: nat, s: Settings)
    requires n <= s.Slots()
    ensures MAX_ACKS_PER_CLAIM * n <= MAX_ACKS_PER_CLAIM * s.Slots()
  {}

  /** Claiming ids that are not in flight, in a free slot. */
  lemma OpenedIsGood(e: Entry, s: Settings, ws: seq<Wish>)
    requires GoodEntry(e, s) && e.claims < MaxClaims(e, s)
    requires NoDup(IdsOf(ws)) && forall id :: id in IdsOf(ws) ==> id !in e.inFlight
    ensures GoodEntry(Opened(e, s, ws), s)
    ensures Opened(e, s, ws).inFlight == e.inFlight + set id | id in IdsOf(ws)
  {
    hide Exclusive, Waiting, Riding, InSome, Tracks, IdsOf, RequestsOf;
    var after := Opened(e, s, ws);
    var claim := after.open[|e.open|];
    OneMore(e.open, claim);
    OneMoreExclusive(e.inFlight, e.open, claim);
    TracksMore(e.inFlight, e.open, claim);
    assert after.open == e.open + [claim];
    assert |claim.acks| + |after.acks| == |e.acks|;
  }

  lemma TracksMore(inFlight: set<Id>, open: seq<Claim>, claim: Claim)
    requires Tracks(inFlight, open)
    ensures Tracks(inFlight + (set id | id in claim.ids), open + [claim])
  {
    OneMore(open, claim);
  }

  /* ----- closing keeps it ----- */

  lemma {:induction false} OneLess(open: seq<Claim>, i: nat)
    requires i < |open|
    ensures Waiting(open) == Waiting(Removed(open, i)) + if open[i].waitMs > 0 then 1 else 0
    ensures Riding(open) == Riding(Removed(open, i)) + |open[i].acks|
    decreases |open|
  {
    var k := |open| - 1;
    if i == k {
      assert Removed(open, i) == open[..k];
    } else {
      OneLess(open[..k], i);
      assert Removed(open, i) == Removed(open[..k], i) + [open[k]];
      OneMore(Removed(open[..k], i), open[k]);
    }
  }

  /** Where a claim is after the removal of another one. */
  function IndexAfter(i: nat, k: nat): int { if k < i then k else k - 1 }

  lemma ApartMember(a: seq<Id>, b: seq<Id>, id: Id)
    requires Apart(a, b)
    ensures !(id in a && id in b)
  {}

  lemma LessMembers(open: seq<Claim>, i: nat, id: Id)
    requires i < |open| && Exclusive(open)
    ensures InSome(Removed(open, i), id) <==> InSome(open, id) && id !in open[i].ids
  {
    hide NoDup, Apart;
    var less := Removed(open, i);
    if InSome(less, id) {
      var k :| 0 <= k < |less| && id in less[k].ids;
      var was := if k < i then k else k + 1;
      assert less[k] == open[was];
      assert Apart(open[Min(i, was)].ids, open[Max(i, was)].ids);
      ApartMember(open[Min(i, was)].ids, open[Max(i, was)].ids, id);
    }
    if InSome(open, id) && id !in open[i].ids {
      var k :| 0 <= k < |open| && id in open[k].ids;
      assert less[IndexAfter(i, k)] == open[k];
    }
  }

  lemma LessExclusive(inFlight: set<Id>, open: seq<Claim>, i: nat)
    requires i < |open| && Exclusive(open) && Tracks(inFlight, open)
    ensures Exclusive(Removed(open, i))
    ensures Tracks(inFlight - (set id | id in open[i].ids), Removed(open, i))
  {
    hide InSome;
    forall id ensures id in inFlight - (set id | id in open[i].ids) <==> InSome(Removed(open, i), id) {
      LessMembers(open, i, id);
    }
  }

  lemma {:induction false} RidingBound(open: seq<Claim>)
    requires AcksFit(open)
    ensures Riding(open) <= MAX_ACKS_PER_CLAIM * |open|
  {
    if open != [] { RidingBound(open[..|open| - 1]); }
  }

  /** Closing a claim frees its slot and its ids, and takes its acks out of the books. */
  lemma ClosedIsGood(e: Entry, s: Settings, i: nat)
    requires i < |e.open| && GoodEntry(e, s)
    ensures GoodEntry(Closed(e, i), s)
    ensures Riding(e.open) == Riding(Closed(e, i).open) + |e.open[i].acks|
  {
    hide Exclusive, Waiting, Riding, InSome, Tracks;
    OneLess(e.open, i);
    LessExclusive(e.inFlight, e.open, i);
  }

  /* ----- acks keep it ----- */

  lemma AddAckNoDup(acks: seq<Id>, id: Id)
    requires NoDup(acks)
    ensures NoDup(AddAck(acks, id)) && |AddAck(acks, id)| <= |acks| + 1
  {}

  lemma QueueAckBound(acks: seq<Id>, id: Id)
    requires NoDup(acks)
    ensures NoDup(QueueAck(acks, id))
    ensures |QueueAck(acks, id)| <= Max(|acks|, MAX_PENDING_ACKS)
  {
    AddAckNoDup(acks, id);
  }

  lemma {:induction false} QueueAllBound(acks: seq<Id>, ids: seq<Id>)
    requires NoDup(acks)
    ensures NoDup(QueueAll(acks, ids)) && |QueueAll(acks, ids)| <= Max(|acks|, MAX_PENDING_ACKS)
  {
    hide QueueAck, NoDup;
    if ids != [] {
      QueueAllBound(acks, ids[..|ids| - 1]);
      QueueAckBound(QueueAll(acks, ids[..|ids| - 1]), ids[|ids| - 1]);
    }
  }

  lemma {:induction false} AddAllBound(acks: seq<Id>, ids: seq<Id>)
    requires NoDup(acks)
    ensures NoDup(AddAll(acks, ids)) && |AddAll(acks, ids)| <= |acks| + |ids|
    ensures forall id :: id in AddAll(acks, ids) <==> id in acks || id in ids
  {
    if ids != [] {
      AddAllBound(acks, ids[..|ids| - 1]);
      AddAckNoDup(AddAll(acks, ids[..|ids| - 1]), ids[|ids| - 1]);
      assert ids == ids[..|ids| - 1] + [ids[|ids| - 1]];
    }
  }

  lemma QueuedIsGood(e: Entry, s: Settings, ids: seq<Id>)
    requires GoodEntry(e, s)
    ensures GoodEntry(Queued(e, s, ids), s)
  {
    hide Exclusive, Waiting, Riding, InSome, Tracks, QueueAll, NoDup;
    QueueAllBound(e.acks, ids);
    RidingBound(e.open);
    SlotProduct(|e.open|, s);
  }

  lemma SucceededIsGood(e: Entry, s: Settings, i: nat, answer: Answer, closed: bool)
    requires i < |e.open| && GoodEntry(e, s)
    ensures GoodEntry(Succeeded(e, s, i, answer, closed), s)
  {
    hide Exclusive, Waiting, Riding, InSome, Tracks, Queued, NoDup, Closed;
    var claim := e.open[i];
    var longPoll := if claim.ids != [] && claim.waitMs > 0 && e.longPoll.None? then answer.held else e.longPoll;
    var noted := e.(v2 := if answer.v2.Some? then answer.v2 else e.v2,
                    waitMaxMs := if answer.waitMaxMs.Some? then answer.waitMaxMs else e.waitMaxMs,
                    longPoll := longPoll);
    assert GoodEntry(noted, s);
    ClosedIsGood(noted, s, i);
    QueuedIsGood(Closed(noted, i), s, answer.received);
  }

  lemma FailedIsGood(e: Entry, s: Settings, i: nat)
    requires i < |e.open| && GoodEntry(e, s)
    ensures GoodEntry(FailedClaim(e, i), s)
  {
    hide Exclusive, Waiting, Riding, InSome, Tracks, NoDup, AddAll;
    ClosedIsGood(e, s, i);
    AddAllBound(e.acks, e.open[i].acks);
  }

  /* ----- what a tick opens ----- */

  predicate Unique(ts: seq<Target>) { forall i, j :: 0 <= i < j < |ts| ==> ts[i].requestId != ts[j].requestId }

  predicate Absent(ts: seq<Target>, r: RequestId) { forall i :: 0 <= i < |ts| ==> ts[i].requestId != r }

  lemma {:induction false} InsertUnique(t: Target, ts: seq<Target>)
    requires Unique(ts) && Absent(ts, t.requestId)
    ensures Unique(InsertBySent(t, ts))
  {
    if !(ts == [] || ts[|ts| - 1].sentAt <= t.sentAt) {
      var front := ts[..|ts| - 1];
      InsertUnique(t, front);
      assert forall x :: x in InsertBySent(t, front) ==> x.requestId != ts[|ts| - 1].requestId;
    }
  }

  lemma {:induction false} SortUnique(ts: seq<Target>)
    requires Unique(ts)
    ensures Unique(SortBySent(ts))
  {
    if ts != [] {
      var front := ts[..|ts| - 1];
      SortUnique(front);
      assert forall x :: x in SortBySent(front) ==> x in front;
      assert forall x :: x in front ==> x.requestId != ts[|ts| - 1].requestId;
      assert forall i :: 0 <= i < |SortBySent(front)| ==> SortBySent(front)[i] in front;
      InsertUnique(ts[|ts| - 1], SortBySent(front));
    }
  }

  /** The same targets, oldest first from the cursor on. */
  lemma OrderKeepsTargets(ts: seq<Target>, start: nat)
    requires Unique(ts) && start <= |ts|
    ensures Unique(Rotated(SortBySent(ts), start))
    ensures forall x :: x in Rotated(SortBySent(ts), start) <==> x in ts
  {
    hide SortBySent, Rotated, Unique;
    SortUnique(ts);
    RotatedUnique(SortBySent(ts), start);
    RotatedMembers(SortBySent(ts), start);
  }

  lemma RotatedUnique(ts: seq<Target>, start: nat)
    requires Unique(ts) && start <= |ts|
    ensures Unique(Rotated(ts, start))
  {
    var (n, turned) := (|ts|, Rotated(ts, start));
    forall i, j | 0 <= i < j < n ensures turned[i].requestId != turned[j].requestId {
      var x := if i < n - start then start + i else i - (n - start);
      var y := if j < n - start then start + j else j - (n - start);
      assert turned[i] == ts[x] && turned[j] == ts[y];
      assert ts[Min(x, y)].requestId != ts[Max(x, y)].requestId;
    }
  }

  lemma RotatedMembers(ts: seq<Target>, start: nat)
    requires start <= |ts|
    ensures forall x :: x in Rotated(ts, start) <==> x in ts
  {
    assert ts == ts[..start] + ts[start..];
    forall x ensures x in ts <==> x in ts[..start] || x in ts[start..] {}
  }

  predicate SortedBySent(ts: seq<Target>) { forall i, j :: 0 <= i < j < |ts| ==> ts[i].sentAt <= ts[j].sentAt }

  lemma {:induction false} InsertSorted(t: Target, ts: seq<Target>)
    requires SortedBySent(ts)
    ensures SortedBySent(InsertBySent(t, ts))
  {
    if !(ts == [] || ts[|ts| - 1].sentAt <= t.sentAt) {
      var front := ts[..|ts| - 1];
      InsertSorted(t, front);
      var r := InsertBySent(t, front);
      assert forall i :: 0 <= i < |r| ==> r[i] in r;
      assert forall x :: x in front ==> x.sentAt <= ts[|ts| - 1].sentAt;
    }
  }

  lemma {:induction false} SortIsSorted(ts: seq<Target>)
    ensures SortedBySent(SortBySent(ts))
  {
    if ts != [] {
      SortIsSorted(ts[..|ts| - 1]);
      InsertSorted(ts[|ts| - 1], SortBySent(ts[..|ts| - 1]));
    }
  }

  /** The cursor after further passes that found a free slot, with the same number of targets. */
  function CursorAfter(cursor: nat, n: nat, passes: nat): nat
    requires n > 0
  {
    if passes == 0 then cursor else (CursorAfter(cursor, n, passes - 1) % n + 1) % n
  }

  lemma {:induction false} CursorTurns(cursor: nat, n: nat, passes: nat)
    requires 0 <= passes < n
    ensures var place := cursor % n + passes;
      CursorAfter(cursor, n, passes) % n == if place < n then place else place - n
  {
    if passes > 0 {
      CursorTurns(cursor, n, passes - 1);
      NextPlace(CursorAfter(cursor, n, passes - 1) % n, n);
    }
  }

  lemma NextPlace(place: nat, n: nat)
    requires place < n
    ensures (place + 1) % n == (if place + 1 < n then place + 1 else 0) && (place + 1) % n % n == (place + 1) % n
  {
    SmallRemainder(place + 1, n);
    SmallRemainder((place + 1) % n, n);
  }

  /** A pass that finds a free slot moves the cursor on by one. */
  lemma ClaimFromTurns(e: Entry, s: Settings, ts: seq<Target>, active: RequestId -> seq<Id>, now: nat)
    requires s.Valid() && ts != [] && e.claims < MaxClaims(e, s)
    ensures ClaimFrom(e, s, ts, active, now).cursor == CursorAfter(e.cursor, |ts|, 1)
  {
    hide Wanted, Batches, SortBySent, Rotated, AllOpened;
    var start := e.cursor % |ts|;
    var moved := e.(cursor := (start + 1) % |ts|);
    var wanted := Wanted(Rotated(SortBySent(ts), start), active, e, s, now);
    AllOpenedCursor(moved, s, Batches(wanted, MaxIds(e, s), MaxClaims(e, s) - e.claims));
    assert CursorAfter(e.cursor, |ts|, 0) == e.cursor;
  }

  lemma {:induction false} AllOpenedCursor(e: Entry, s: Settings, batches: seq<seq<Wish>>)
    ensures AllOpened(e, s, batches).cursor == e.cursor
  {
    hide WaitFor, IdsOf, RequestsOf;
    if batches != [] { AllOpenedCursor(e, s, batches[..|batches| - 1]); }
  }

  /** Data first: a block is wanted exactly when it is active, not in flight, and either near enough to the
      front or past its deferral: the request is suspect or old enough. */
  lemma DataFirst(t: Target, active: seq<Id>, e: Entry, s: Settings, now: nat, k: nat)
    requires k < |t.initialIds| && NoDup(t.initialIds)
    ensures t.initialIds[k] in WantedIds(t, active, e, s, now) <==>
      && t.initialIds[k] in active && t.initialIds[k] !in e.inFlight
      && (k < t.dataWanted || k < FirstArrivalFront(e, s)
          || t.suspectSince.Some? || now >= t.sentAt + s.parityFallbackMs)
  {
    hide FirstArrivalFront;
    var front := Max(t.dataWanted, FirstArrivalFront(e, s));
    if front < |t.initialIds| {
      var late := t.initialIds[front..];
      assert t.initialIds[k] in late <==> k >= front by {
        if k >= front { assert late[k - front] == t.initialIds[k]; }
        assert forall j :: 0 <= j < |late| && k < front ==> late[j] != t.initialIds[k];
      }
    }
  }

  /** Which request an id was generated for, and the entry that request was sent through. */
  datatype World = World(owner: Id -> RequestId, home: RequestId -> Url)

  /** Active ids are listed once, under the request they were generated for. */
  ghost predicate Owned(w: World, active: RequestId -> seq<Id>) {
    forall r :: NoDup(active(r)) && forall id :: id in active(r) ==> w.owner(id) == r
  }

  lemma {:induction false} ExcludingNoDup(ids: seq<Id>, dropped: set<Id>)
    requires NoDup(ids)
    ensures NoDup(Excluding(ids, dropped))
  {
    if ids != [] {
      var k := |ids| - 1;
      ExcludingNoDup(ids[..k], dropped);
      assert ids[k] !in ids[..k];
    }
  }

  /** Wishes of distinct targets are for distinct ids, none of them in flight. */
  lemma {:induction false} WantedIsClean(ts: seq<Target>, w: World, active: RequestId -> seq<Id>, e: Entry,
                                         s: Settings, now: nat)
    requires Unique(ts) && Owned(w, active)
    ensures var ws := Wanted(ts, active, e, s, now);
      && NoDup(IdsOf(ws))
      && (forall k :: 0 <= k < |ws| ==> ws[k].id !in e.inFlight && w.owner(ws[k].id) == ws[k].request)
      && (forall k :: 0 <= k < |ws| ==> exists j :: 0 <= j < |ts| && ts[j].requestId == ws[k].request)
  {
    hide Deferred;
    if ts != [] {
      var (front, t) := (ts[..|ts| - 1], ts[|ts| - 1]);
      var before := Wanted(front, active, e, s, now);
      var ids := WantedIds(t, active(t.requestId), e, s, now);
      WantedIsClean(front, w, active, e, s, now);
      ExcludingNoDup(active(t.requestId), Deferred(t, e, s, now) + e.inFlight);
      JoinClean(before, ids, t.requestId, w);
      var ws := Wanted(ts, active, e, s, now);
      assert ws == before + Wishes(ids, t.requestId);
      forall k | 0 <= k < |ws|
        ensures ws[k].id !in e.inFlight && w.owner(ws[k].id) == ws[k].request
        ensures exists j :: 0 <= j < |ts| && ts[j].requestId == ws[k].request
      {
        if k < |before| {
          var j :| 0 <= j < |front| && front[j].requestId == before[k].request;
          assert ts[j].requestId == ws[k].request;
        } else {
          assert ws[k].id == ids[k - |before|];
          assert ts[|ts| - 1].requestId == ws[k].request;
        }
      }
    }
  }

  lemma JoinClean(before: seq<Wish>, ids: seq<Id>, r: RequestId, w: World)
    requires NoDup(IdsOf(before)) && NoDup(ids)
    requires forall k :: 0 <= k < |before| ==> w.owner(before[k].id) == before[k].request != r
    requires forall id :: id in ids ==> w.owner(id) == r
    ensures NoDup(IdsOf(before + Wishes(ids, r)))
  {
    var ws := before + Wishes(ids, r);
    forall i, j | 0 <= i < j < |ws| ensures IdsOf(ws)[i] != IdsOf(ws)[j] {
      if j < |before| {
        assert IdsOf(before)[i] != IdsOf(before)[j];
      } else if i < |before| {
        assert ids[j - |before|] in ids;
      }
    }
  }

  function Together(batches: seq<seq<Wish>>): seq<Wish> {
    if batches == [] then [] else Together(batches[..|batches| - 1]) + batches[|batches| - 1]
  }

  lemma {:induction false} TogetherFirst(first: seq<Wish>, rest: seq<seq<Wish>>)
    ensures Together([first] + rest) == first + Together(rest)
  {
    if rest == [] {
      assert [first] + rest == [first] && Together([first][..0]) == [];
    } else {
      var k := |rest| - 1;
      TogetherFirst(first, rest[..k]);
      assert ([first] + rest)[..k + 1] == [first] + rest[..k];
    }
  }

  /** How many ids fit the free slots. */
  function Room(maxIds: nat, free: nat): nat { maxIds * free }

  lemma RoomStep(maxIds: nat, free: nat)
    requires free > 0
    ensures Room(maxIds, free) == maxIds + Room(maxIds, free - 1)
  {}

  /** The batches hold the first wishes, in order, as many as fit, and no batch is empty or too large. */
  lemma {:induction false} BatchesHold(ws: seq<Wish>, maxIds: nat, free: nat)
    requires maxIds > 0
    ensures Together(Batches(ws, maxIds, free)) == ws[..Min(|ws|, Room(maxIds, free))]
    ensures forall k :: 0 <= k < |Batches(ws, maxIds, free)| ==> 0 < |Batches(ws, maxIds, free)[k]| <= maxIds
    decreases free
  {
    hide Room, Together;
    if ws == [] || free == 0 {
      TogetherNone();
      assert free == 0 ==> Room(maxIds, free) == 0 by { RoomNone(maxIds); }
    } else {
      var k := Min(maxIds, |ws|);
      BatchesHold(ws[k..], maxIds, free - 1);
      var rest := Batches(ws[k..], maxIds, free - 1);
      TogetherFirst(ws[..k], rest);
      RoomStep(maxIds, free);
      Prefixes(ws, k, Min(|ws[k..]|, Room(maxIds, free - 1)));
    }
  }

  lemma Prefixes(ws: seq<Wish>, k: nat, m: nat)
    requires k + m <= |ws|
    ensures ws[..k] + ws[k..][..m] == ws[..k + m]
  {}

  lemma TogetherNone()
    ensures Together([]) == []
  {}

  lemma RoomNone(maxIds: nat)
    ensures Room(maxIds, 0) == 0
  {}

  lemma SplitClean(a: seq<Wish>, b: seq<Wish>)
    requires NoDup(IdsOf(a + b))
    ensures NoDup(IdsOf(a)) && NoDup(IdsOf(b)) && Apart(IdsOf(a), IdsOf(b))
    ensures forall id :: id in IdsOf(a + b) <==> id in IdsOf(a) || id in IdsOf(b)
  {
    var ids := IdsOf(a + b);
    assert ids == IdsOf(a) + IdsOf(b);
    forall i, j | 0 <= i < j < |a| ensures IdsOf(a)[i] != IdsOf(a)[j] {
      assert ids[i] != ids[j];
    }
    forall i, j | 0 <= i < j < |b| ensures IdsOf(b)[i] != IdsOf(b)[j] {
      assert ids[|a| + i] != ids[|a| + j];
    }
    forall i, j | 0 <= i < |a| && 0 <= j < |b| ensures IdsOf(a)[i] != IdsOf(b)[j] {
      assert ids[i] != ids[|a| + j];
    }
  }

  lemma {:induction false} AllOpenedIsGood(e: Entry, s: Settings, batches: seq<seq<Wish>>)
    requires GoodEntry(e, s) && e.claims + |batches| <= MaxClaims(e, s)
    requires NoDup(IdsOf(Together(batches))) && forall id :: id in IdsOf(Together(batches)) ==> id !in e.inFlight
    ensures var after := AllOpened(e, s, batches);
      && GoodEntry(after, s) && after.claims == e.claims + |batches| && after.v2 == e.v2
      && after.inFlight == e.inFlight + set id | id in IdsOf(Together(batches))
  {
    hide GoodEntry, NoDup, WaitFor;
    if batches != [] {
      var (front, last) := (batches[..|batches| - 1], batches[|batches| - 1]);
      SplitClean(Together(front), last);
      AllOpenedIsGood(e, s, front);
      OpenedIsGood(AllOpened(e, s, front), s, last);
    }
  }

  /** The ids a pass of claimFrom puts in flight: the first wanted ones, as many as fit the free slots. */
  function Claimed(e: Entry, s: Settings, ts: seq<Target>, active: RequestId -> seq<Id>, now: nat): seq<Wish>
    requires s.Valid() && ts != []
  {
    var free := MaxClaims(e, s) - e.claims;
    if free <= 0 then []
    else
      var ws := Wanted(Rotated(SortBySent(ts), e.cursor % |ts|), active, e, s, now);
      ws[..Min(|ws|, Room(MaxIds(e, s), free))]
  }

  lemma PrefixClean(ws: seq<Wish>, k: nat)
    requires k <= |ws| && NoDup(IdsOf(ws))
    ensures NoDup(IdsOf(ws[..k]))
  {
    assert ws == ws[..k] + ws[k..];
    SplitClean(ws[..k], ws[k..]);
  }

  /** claimFrom keeps the entry good and puts exactly those ids in flight. */
  lemma ClaimFromIsGood(e: Entry, s: Settings, ts: seq<Target>, w: World, active: RequestId -> seq<Id>, now: nat)
    requires s.Valid() && ts != [] && GoodEntry(e, s) && Unique(ts) && Owned(w, active)
    ensures GoodEntry(ClaimFrom(e, s, ts, active, now), s)
    ensures ClaimFrom(e, s, ts, active, now).inFlight
         == e.inFlight + set id | id in IdsOf(Claimed(e, s, ts, active, now))
    ensures forall id :: id in IdsOf(Claimed(e, s, ts, active, now)) ==>
      exists j :: 0 <= j < |ts| && ts[j].requestId == w.owner(id)
  {
    hide Exclusive, Waiting, Riding, Tracks, AcksFit, NoDup, Wanted, Batches, SortBySent, Rotated, AllOpened;
    hide Together, Room, Owned, Unique;
    var free := MaxClaims(e, s) - e.claims;
    if free > 0 {
      var start := e.cursor % |ts|;
      var ordered := Rotated(SortBySent(ts), start);
      OrderKeepsTargets(ts, start);
      WantedIsClean(ordered, w, active, e, s, now);
      var ws := Wanted(ordered, active, e, s, now);
      var maxIds := MaxIds(e, s);
      var moved := e.(cursor := (start + 1) % |ts|);
      BatchesHold(ws, maxIds, free);
      PrefixClean(ws, Min(|ws|, Room(maxIds, free)));
      AllOpenedIsGood(moved, s, Batches(ws, maxIds, free));
      forall id | id in IdsOf(Claimed(e, s, ts, active, now))
        ensures exists j :: 0 <= j < |ts| && ts[j].requestId == w.owner(id)
      {
        var k :| 0 <= k < |ws| && ws[k].id == id;
        var j :| 0 <= j < |ordered| && ordered[j].requestId == ws[k].request;
        assert ordered[j] in ts;
      }
    }
  }

  lemma {:induction false} WantedPrefix(ts: seq<Target>, j: nat, active: RequestId -> seq<Id>, e: Entry, s: Settings,
                                        now: nat)
    requires j <= |ts|
    ensures Wanted(ts[..j], active, e, s, now) <= Wanted(ts, active, e, s, now)
  {
    hide WantedIds;
    if j < |ts| {
      WantedPrefix(ts[..|ts| - 1], j, active, e, s, now);
      assert ts[..|ts| - 1][..j] == ts[..j];
    } else {
      assert ts[..j] == ts;
    }
  }

  /** A pass of claimFrom that finds a free slot: the entry, its targets, the active ids and the time. */
  datatype Pass = Pass(entry: Entry, targets: seq<Target>, active: RequestId -> seq<Id>, now: nat)

  function After(p: Pass, s: Settings): Entry
    requires s.Valid()
  {
    if p.targets == [] then p.entry else ClaimFrom(p.entry, s, p.targets, p.active, p.now)
  }

  /** A pass over n targets of which request r is the i-th oldest. */
  ghost predicate Serves(p: Pass, s: Settings, w: World, n: nat, i: nat, r: RequestId) {
    && |p.targets| == n && Unique(p.targets) && Owned(w, p.active)
    && GoodEntry(p.entry, s) && p.entry.claims < MaxClaims(p.entry, s)
    && i < n && SortBySent(p.targets)[i].requestId == r
  }

  /** Ids that request r could still claim in a pass. */
  function WantedBy(p: Pass, s: Settings, i: nat): seq<Id>
    requires i < |p.targets|
  {
    var t := SortBySent(p.targets)[i];
    WantedIds(t, p.active(t.requestId), p.entry, s, p.now)
  }

  lemma {:induction false} CursorOfPass(passes: seq<Pass>, s: Settings, w: World, i: nat, r: RequestId, k: nat)
    requires s.Valid() && k < |passes|
    requires forall k :: 0 <= k < |passes| ==> Serves(passes[k], s, w, |passes|, i, r)
    requires forall k :: 0 < k < |passes| ==> passes[k].entry.cursor == After(passes[k - 1], s).cursor
    ensures passes[k].entry.cursor == CursorAfter(passes[0].entry.cursor, |passes|, k)
  {
    hide GoodEntry, ClaimFrom, Unique, Owned, SortBySent;
    if k > 0 {
      CursorOfPass(passes, s, w, i, r, k - 1);
      var p := passes[k - 1];
      assert Serves(p, s, w, |passes|, i, r);
      ClaimFromTurns(p.entry, s, p.targets, p.active, p.now);
      assert CursorAfter(p.entry.cursor, |passes|, 1) == (CursorAfter(p.entry.cursor, |passes|, 0) % |passes| + 1) % |passes|;
    }
  }

  /** The target at the cursor gets its first wanted id into flight. */
  lemma FirstIsClaimed(p: Pass, s: Settings, w: World, n: nat, i: nat, r: RequestId)
    requires s.Valid() && Serves(p, s, w, n, i, r) && p.entry.cursor % n == i && WantedBy(p, s, i) != []
    ensures WantedBy(p, s, i)[0] in After(p, s).inFlight
  {
    hide GoodEntry, ClaimFrom, Unique, Owned, SortBySent, Wanted, WantedIds, Room;
    ClaimFromIsGood(p.entry, s, p.targets, w, p.active, p.now);
    var ordered := Rotated(SortBySent(p.targets), i);
    var ws := Wanted(ordered, p.active, p.entry, s, p.now);
    FirstWish(ordered, p.active, p.entry, s, p.now);
    var free := MaxClaims(p.entry, s) - p.entry.claims;
    assert Room(MaxIds(p.entry, s), free) >= 1 by { RoomForOne(MaxIds(p.entry, s), free); }
    var claimed := Claimed(p.entry, s, p.targets, p.active, p.now);
    assert claimed[0] == ws[0];
    assert IdsOf(claimed)[0] == WantedBy(p, s, i)[0];
  }

  lemma RoomForOne(maxIds: nat, free: nat)
    requires maxIds > 0 && free > 0
    ensures Room(maxIds, free) >= 1
  {}

  lemma FirstWish(ts: seq<Target>, active: RequestId -> seq<Id>, e: Entry, s: Settings, now: nat)
    requires ts != [] && WantedIds(ts[0], active(ts[0].requestId), e, s, now) != []
    ensures var ws := Wanted(ts, active, e, s, now);
      ws != [] && ws[0].id == WantedIds(ts[0], active(ts[0].requestId), e, s, now)[0]
  {
    hide WantedIds;
    WantedPrefix(ts, 1, active, e, s, now);
    assert ts[..1] == [ts[0]];
    assert [ts[0]][..0] == [];
    assert Wanted([], active, e, s, now) == [];
  }

  /** Nobody starves: of any n passes with a free slot over n targets, whatever happens in between, one puts an
      id of the i-th oldest request in flight, if it then wants any. Times of sending do not change, so the
      i-th oldest stays the same while no target comes or goes. */
  lemma NobodyStarves(passes: seq<Pass>, s: Settings, w: World, i: nat, r: RequestId) returns (k: nat)
    requires s.Valid() && i < |passes|
    requires forall k :: 0 <= k < |passes| ==> Serves(passes[k], s, w, |passes|, i, r)
    requires forall k :: 0 < k < |passes| ==> passes[k].entry.cursor == After(passes[k - 1], s).cursor
    ensures k < |passes|
    ensures |passes[k].targets| == |passes|
    ensures WantedBy(passes[k], s, i) != [] ==> WantedBy(passes[k], s, i)[0] in After(passes[k], s).inFlight
  {
    hide GoodEntry, ClaimFrom, Unique, Owned, SortBySent, WantedBy;
    var n := |passes|;
    var start := passes[0].entry.cursor % n;
    k := if i >= start then i - start else n + i - start;
    CursorTurns(passes[0].entry.cursor, n, k);
    CursorOfPass(passes, s, w, i, r, k);
    assert Serves(passes[k], s, w, n, i, r);
    if WantedBy(passes[k], s, i) != [] { FirstIsClaimed(passes[k], s, w, n, i, r); }
  }

  lemma FlushIsGood(e: Entry, s: Settings)
    requires GoodEntry(e, s)
    ensures GoodEntry(FlushAcks(e, s), s) && FlushAcks(e, s).inFlight == e.inFlight
  {
    hide GoodEntry, WaitFor;
    if !(e.acks == [] || e.v2 != Some(true) || e.claims >= MaxClaims(e, s)) { OpenedIsGood(e, s, []); }
  }

  /* ----- where acks go ----- */

  /** The ack is queued or rides an open claim. */
  predicate HasAck(e: Entry, id: Id) { id in e.acks || Rides(e.open, id) }

  predicate Rides(open: seq<Claim>, id: Id) { exists i | 0 <= i < |open| :: id in open[i].acks }

  lemma OpenedKeepsAcks(e: Entry, s: Settings, ws: seq<Wish>, id: Id)
    ensures HasAck(Opened(e, s, ws), id) <==> HasAck(e, id)
  {
    hide WaitFor;
    var after := Opened(e, s, ws);
    var claim := after.open[|e.open|];
    assert e.acks == claim.acks + after.acks;
    if Rides(e.open, id) {
      var i :| 0 <= i < |e.open| && id in e.open[i].acks;
      assert after.open[i] == e.open[i];
    }
  }

  lemma {:induction false} AllOpenedKeepsAcks(e: Entry, s: Settings, batches: seq<seq<Wish>>, id: Id)
    ensures HasAck(AllOpened(e, s, batches), id) <==> HasAck(e, id)
  {
    hide HasAck, Opened;
    if batches != [] {
      AllOpenedKeepsAcks(e, s, batches[..|batches| - 1], id);
      OpenedKeepsAcks(AllOpened(e, s, batches[..|batches| - 1]), s, batches[|batches| - 1], id);
    }
  }

  lemma RidesLess(open: seq<Claim>, i: nat, id: Id)
    requires i < |open|
    ensures Rides(open, id) <==> Rides(Removed(open, i), id) || id in open[i].acks
  {
    var less := Removed(open, i);
    if Rides(less, id) {
      var k :| 0 <= k < |less| && id in less[k].acks;
      assert less[k] == open[if k < i then k else k + 1];
    }
    if Rides(open, id) && id !in open[i].acks {
      var k :| 0 <= k < |open| && id in open[k].acks;
      assert less[IndexAfter(i, k)] == open[k];
    }
  }

  /** A failed claim loses no ack. */
  lemma FailureKeepsAcks(e: Entry, i: nat, id: Id)
    requires i < |e.open| && NoDup(e.acks)
    ensures HasAck(FailedClaim(e, i), id) <==> HasAck(e, id)
  {
    hide AddAll, Rides, Removed;
    AddAllBound(e.acks, e.open[i].acks);
    RidesLess(e.open, i, id);
  }

  /** While these ids were queued, the id was the oldest of a queue over its limit. */
  predicate Overflowed(acks: seq<Id>, ids: seq<Id>, id: Id) {
    exists k | 0 <= k < |ids| :: IsDropped(QueueAll(acks, ids[..k]), ids[k], id)
  }

  predicate IsDropped(acks: seq<Id>, more: Id, id: Id) {
    var queue := AddAck(acks, more);
    |queue| > MAX_PENDING_ACKS && queue[0] == id
  }

  lemma DroppedIsOldest(acks: seq<Id>, more: Id, id: Id)
    requires id in acks && id !in QueueAck(acks, more)
    ensures IsDropped(acks, more, id)
  {
    var queue := AddAck(acks, more);
    assert id in queue;
    assert queue == [queue[0]] + queue[1..];
  }

  lemma {:induction false} QueueDropsOldest(acks: seq<Id>, ids: seq<Id>, id: Id)
    requires id in acks && id !in QueueAll(acks, ids)
    ensures Overflowed(acks, ids, id)
  {
    var k := |ids| - 1;
    var before := QueueAll(acks, ids[..k]);
    if id in before {
      DroppedIsOldest(before, ids[k], id);
      assert IsDropped(before, ids[k], id);
    } else {
      QueueDropsOldest(acks, ids[..k], id);
      var j :| 0 <= j < k && IsDropped(QueueAll(acks, ids[..k][..j]), ids[..k][j], id);
      assert ids[..k][..j] == ids[..j];
    }
  }

  /** A successful claim takes away only its own acks, or the oldest of an overfull queue. */
  lemma SuccessLosesAcks(e: Entry, s: Settings, i: nat, answer: Answer, closed: bool, id: Id)
    requires i < |e.open| && HasAck(e, id) && !HasAck(Succeeded(e, s, i, answer, closed), id)
    ensures id in e.open[i].acks || Overflowed(e.acks, answer.received, id)
  {
    hide QueueAll, Rides, Removed, Overflowed;
    RidesLess(e.open, i, id);
    if id in e.acks {
      assert id !in QueueAll(e.acks, answer.received);
      QueueDropsOldest(e.acks, answer.received, id);
    }
  }
}
