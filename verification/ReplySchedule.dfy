/** The scheduler over all entries: what a tick does, and what holds after every interleaving of ticks,
    tracking, answers and failures. */
module ReplySchedule {
  import opened Outcomes
  import opened ReplyClaims

  /** lost lists the requests reported lost. close() drops the map of entries, but open claims keep their
      entry's state; nothing else looks at it any more, so the entries stay here. */
  datatype Scheduler = Scheduler(
    targets: seq<Target>, entries: map<Url, Entry>, closed: bool, lost: seq<RequestId>)

  /** What the client answers during one tick. */
  datatype Host = Host(pending: RequestId -> bool, active: RequestId -> seq<Id>, skips: Url -> bool)

  /* ----- targets ----- */

  function Put(ts: seq<Target>, t: Target): seq<Target> {
    if ts == [] then [t]
    else
      var k := |ts| - 1;
      if ts[k].requestId == t.requestId then ts[..k] + [t] else Put(ts[..k], t) + [ts[k]]
  }

  function Updated(ts: seq<Target>, f: Target -> Target): seq<Target> {
    seq(|ts|, i requires 0 <= i < |ts| => f(ts[i]))
  }

  /** noteFragment for one target. */
  function SawFragment(t: Target, r: RequestId, dataShards: nat): Target {
    if t.requestId != r then t else t.(suspectSince := None, dataWanted := Max(t.dataWanted, dataShards))
  }

  /** noteFailure for one target. */
  function Suspected(t: Target, requests: set<RequestId>, now: nat): Target {
    if t.requestId in requests && t.suspectSince.None? then t.(suspectSince := Some(now)) else t
  }

  predicate FoundLost(t: Target, s: Settings, now: nat) {
    !t.lostReported && t.suspectSince.Some? && now - t.suspectSince.value >= s.lostGraceMs
  }

  /* ----- a tick ----- */

  datatype Sweep = Sweep(kept: seq<Target>, entries: map<Url, Entry>, lost: seq<RequestId>)

  function QueuedAt(entries: map<Url, Entry>, url: Url, s: Settings, ids: seq<Id>): map<Url, Entry> {
    if url in entries then entries[url := Queued(entries[url], s, ids)] else entries
  }

  function Visited(w: Sweep, t: Target, s: Settings, host: Host, now: nat): Sweep {
    if !host.pending(t.requestId) then w.(entries := QueuedAt(w.entries, t.entry, s, t.initialIds))
    else if FoundLost(t, s, now) then
      w.(kept := w.kept + [t.(lostReported := true)], lost := w.lost + [t.requestId])
    else w.(kept := w.kept + [t])
  }

  /** The first loop of tick. */
  function Swept(ts: seq<Target>, entries: map<Url, Entry>, s: Settings, host: Host, now: nat): Sweep {
    if ts == [] then Sweep([], entries, [])
    else Visited(Swept(ts[..|ts| - 1], entries, s, host, now), ts[|ts| - 1], s, host, now)
  }

  function AtEntry(ts: seq<Target>, url: Url): seq<Target> {
    if ts == [] then []
    else AtEntry(ts[..|ts| - 1], url) + if ts[|ts| - 1].entry == url then [ts[|ts| - 1]] else []
  }

  /** Entries with targets to claim for. */
  function Busy(ts: seq<Target>, host: Host): set<Url> { set t | t in ts && !host.skips(t.entry) :: t.entry }

  lemma {:induction false} AtEntryExact(ts: seq<Target>, url: Url)
    ensures forall t :: t in AtEntry(ts, url) <==> t in ts && t.entry == url
  {
    if ts != [] {
      AtEntryExact(ts[..|ts| - 1], url);
      assert ts == ts[..|ts| - 1] + [ts[|ts| - 1]];
    }
  }

  function StateOf(entries: map<Url, Entry>, url: Url): Entry { if url in entries then entries[url] else FRESH }

  /** What the rest of the tick does to one entry. */
  function Served(e: Entry, s: Settings, ts: seq<Target>, busy: bool, host: Host, now: nat): Entry
    requires s.Valid()
  {
    if busy && ts != [] then ClaimFrom(e, s, ts, host.active, now) else FlushAcks(e, s)
  }

  function Ticked(sch: Scheduler, s: Settings, host: Host, now: nat): Scheduler
    requires s.Valid()
  {
    if sch.closed then sch
    else
      var w := Swept(sch.targets, sch.entries, s, host, now);
      var busy := Busy(w.kept, host);
      Scheduler(w.kept,
                map url | url in w.entries.Keys + busy ::
                  Served(StateOf(w.entries, url), s, AtEntry(w.kept, url), url in busy, host, now),
                false, sch.lost + w.lost)
  }

  /* ----- steps ----- */

  datatype Event =
    | Track(r: RequestId, url: Url, ids: seq<Id>, dataWanted: nat, now: nat)
    | Fragment(r: RequestId, dataShards: nat)
    | Tick(host: Host, now: nat)
    | Done(url: Url, i: nat, answer: Answer)
    | Fails(url: Url, i: nat, now: nat)
    | Probed(url: Url, ms: nat)
    | Close

  /** Requests are tracked where they were sent; only open claims end. */
  ghost predicate Enabled(sch: Scheduler, w: World, e: Event) {
    match e
    case Track(r, url, _, _, _) => url == w.home(r)
    case Tick(host, _) => Owned(w, host.active)
    case Done(url, i, _) => url in sch.entries && i < |sch.entries[url].open|
    case Fails(url, i, _) => url in sch.entries && i < |sch.entries[url].open|
    case Probed(url, _) => url in sch.entries
    case _ => true
  }

  function Step(sch: Scheduler, s: Settings, e: Event): Scheduler
    requires s.Valid()
    requires e.Done? || e.Fails? ==> e.url in sch.entries && e.i < |sch.entries[e.url].open|
    requires e.Probed? ==> e.url in sch.entries
  {
    match e
    case Track(r, url, ids, dataWanted, now) =>
      if sch.closed then sch
      else sch.(targets := Put(sch.targets, Target(r, url, ids, now, dataWanted, None, false)))
    case Fragment(r, dataShards) => sch.(targets := Updated(sch.targets, t => SawFragment(t, r, dataShards)))
    case Tick(host, now) => Ticked(sch, s, host, now)
    case Done(url, i, answer) =>
      sch.(entries := sch.entries[url := Succeeded(sch.entries[url], s, i, answer, sch.closed)])
    case Fails(url, i, now) =>
      var requests := sch.entries[url].open[i].requests;
      sch.(targets := Updated(sch.targets, t => Suspected(t, requests, now)),
           entries := sch.entries[url := FailedClaim(sch.entries[url], i)])
    case Probed(url, ms) =>
      sch.(entries := sch.entries[url := sch.entries[url].(relayWaitMaxMs := Some(ms))])
    case Close => sch.(closed := true, targets := [])
  }

  /* ----- the invariant ----- */

  ghost predicate AtHome(ts: seq<Target>, w: World) { forall t :: t in ts ==> t.entry == w.home(t.requestId) }

  ghost predicate GoodTargets(ts: seq<Target>, w: World) { Unique(ts) && AtHome(ts, w) }

  /** In flight at an entry are only ids of requests sent through it. */
  ghost predicate GoodAt(e: Entry, url: Url, s: Settings, w: World) {
    GoodEntry(e, s) && forall id :: id in e.inFlight ==> w.home(w.owner(id)) == url
  }

  ghost predicate GoodEntries(entries: map<Url, Entry>, s: Settings, w: World) {
    forall url :: url in entries ==> GoodAt(entries[url], url, s, w)
  }

  ghost predicate Good(sch: Scheduler, s: Settings, w: World) {
    GoodTargets(sch.targets, w) && GoodEntries(sch.entries, s, w)
  }

  lemma {:induction false} PutMembers(ts: seq<Target>, t: Target)
    ensures forall x :: x in Put(ts, t) ==> x == t || x in ts
  {
    if ts != [] {
      PutMembers(ts[..|ts| - 1], t);
      assert ts == ts[..|ts| - 1] + [ts[|ts| - 1]];
    }
  }

  lemma {:induction false} PutUnique(ts: seq<Target>, t: Target)
    requires Unique(ts)
    ensures Unique(Put(ts, t))
  {
    if ts != [] {
      var k := |ts| - 1;
      if ts[k].requestId != t.requestId {
        PutUnique(ts[..k], t);
        PutMembers(ts[..k], t);
        var front := Put(ts[..k], t);
        assert forall i :: 0 <= i < |front| ==> front[i] in front;
        assert forall x :: x in ts[..k] ==> x.requestId != ts[k].requestId;
      }
    }
  }

  lemma UpdatedGood(ts: seq<Target>, f: Target -> Target, w: World)
    requires GoodTargets(ts, w)
    requires forall t :: f(t).requestId == t.requestId && f(t).entry == t.entry
    ensures GoodTargets(Updated(ts, f), w)
  {
    var after := Updated(ts, f);
    forall t | t in after ensures t.entry == w.home(t.requestId) {
      var i :| 0 <= i < |after| && after[i] == t;
      assert ts[i] in ts;
    }
  }

  lemma QueuedKeepsFlights(e: Entry, s: Settings, ids: seq<Id>)
    ensures Queued(e, s, ids).inFlight == e.inFlight
  {}

  /** The first loop keeps good targets and good entries, and only what is still pending. */
  lemma {:induction false} SweptGood(ts: seq<Target>, entries: map<Url, Entry>, s: Settings, w: World, host: Host,
                                     now: nat)
    requires GoodTargets(ts, w) && GoodEntries(entries, s, w)
    ensures var sweep := Swept(ts, entries, s, host, now);
      && GoodTargets(sweep.kept, w) && GoodEntries(sweep.entries, s, w)
      && (forall t :: t in sweep.kept ==> exists x :: x in ts && x.requestId == t.requestId)
  {
    hide GoodAt, FoundLost;
    if ts != [] {
      var (front, t) := (ts[..|ts| - 1], ts[|ts| - 1]);
      assert forall x :: x in front ==> x in ts;
      SweptGood(front, entries, s, w, host, now);
      var sweep := Swept(front, entries, s, host, now);
      assert t in ts;
      VisitKeepsEntries(sweep, t, s, w, host, now);
      VisitKeepsTargets(sweep.kept, t, w, front);
    }
  }

  /** Only a pending request whose claim failed a grace period ago is reported lost, and it is kept with its
      mark set, so that it is not reported again. */
  lemma {:induction false} SweptReports(ts: seq<Target>, entries: map<Url, Entry>, s: Settings, host: Host, now: nat)
    requires Unique(ts)
    ensures var sweep := Swept(ts, entries, s, host, now);
      && (forall r :: r in sweep.lost <==> exists t :: t in ts && t.requestId == r && host.pending(r) && FoundLost(t, s, now))
      && (forall t :: t in sweep.kept ==> host.pending(t.requestId) && !FoundLost(t, s, now))
  {
    hide QueuedAt;
    if ts != [] {
      var (front, t) := (ts[..|ts| - 1], ts[|ts| - 1]);
      SweptReports(front, entries, s, host, now);
      assert ts == front + [t];
    }
  }

  lemma VisitKeepsEntries(sweep: Sweep, t: Target, s: Settings, w: World, host: Host, now: nat)
    requires GoodEntries(sweep.entries, s, w)
    ensures GoodEntries(Visited(sweep, t, s, host, now).entries, s, w)
  {
    hide GoodEntry, Queued, FoundLost;
    if t.entry in sweep.entries {
      var e := sweep.entries[t.entry];
      assert GoodAt(e, t.entry, s, w);
      QueuedIsGood(e, s, t.initialIds);
      QueuedKeepsFlights(e, s, t.initialIds);
    }
  }

  lemma VisitKeepsTargets(kept: seq<Target>, t: Target, w: World, front: seq<Target>)
    requires GoodTargets(kept, w) && t.entry == w.home(t.requestId)
    requires forall x :: x in kept ==> exists y :: y in front && y.requestId == x.requestId
    requires forall y :: y in front ==> y.requestId != t.requestId
    ensures GoodTargets(kept + [t], w) && GoodTargets(kept + [t.(lostReported := true)], w)
  {
    assert forall i :: 0 <= i < |kept| ==> kept[i] in kept;
    assert forall i :: 0 <= i < |kept| ==> kept[i].requestId != t.requestId;
  }

  lemma {:induction false} AtEntryUnique(ts: seq<Target>, url: Url)
    requires Unique(ts)
    ensures Unique(AtEntry(ts, url))
  {
    if ts != [] {
      var (front, t) := (ts[..|ts| - 1], ts[|ts| - 1]);
      AtEntryUnique(front, url);
      AtEntryExact(front, url);
      var some := AtEntry(front, url);
      assert forall i :: 0 <= i < |some| ==> some[i] in front;
      assert forall x :: x in front ==> x.requestId != t.requestId;
    }
  }

  /** Serving an entry keeps it good and puts only ids of its own requests in flight. */
  lemma ServedGood(e: Entry, url: Url, s: Settings, ts: seq<Target>, busy: bool, w: World, host: Host, now: nat)
    requires s.Valid() && GoodAt(e, url, s, w) && GoodTargets(ts, w) && Owned(w, host.active)
    ensures GoodAt(Served(e, s, AtEntry(ts, url), busy, host, now), url, s, w)
  {
    hide GoodEntry, ClaimFrom, FlushAcks, Claimed, IdsOf, Owned, AtEntry;
    AtEntryUnique(ts, url);
    AtEntryExact(ts, url);
    var mine := AtEntry(ts, url);
    FlushIsGood(e, s);
    if mine != [] {
      ClaimFromIsGood(e, s, mine, w, host.active, now);
      forall id | id in IdsOf(Claimed(e, s, mine, host.active, now)) ensures w.home(w.owner(id)) == url {
        var j :| 0 <= j < |mine| && mine[j].requestId == w.owner(id);
        assert mine[j] in mine;
      }
    }
  }

  lemma FreshIsGood(url: Url, s: Settings, w: World)
    ensures GoodAt(FRESH, url, s, w)
  {}

  lemma TickedGood(sch: Scheduler, s: Settings, w: World, host: Host, now: nat)
    requires s.Valid() && Good(sch, s, w) && Owned(w, host.active)
    ensures Good(Ticked(sch, s, host, now), s, w)
  {
    hide GoodAt, Swept, AtEntry, Served, Owned, GoodTargets;
    if !sch.closed {
      SweptGood(sch.targets, sch.entries, s, w, host, now);
      var sweep := Swept(sch.targets, sch.entries, s, host, now);
      var busy := Busy(sweep.kept, host);
      forall url | url in sweep.entries.Keys + busy
        ensures GoodAt(Served(StateOf(sweep.entries, url), s, AtEntry(sweep.kept, url), url in busy, host, now), url, s, w)
      {
        FreshIsGood(url, s, w);
        ServedGood(StateOf(sweep.entries, url), url, s, sweep.kept, url in busy, w, host, now);
      }
    }
  }

  lemma DoneGood(sch: Scheduler, s: Settings, w: World, e: Event)
    requires s.Valid() && Good(sch, s, w) && Enabled(sch, w, e) && (e.Done? || e.Fails? || e.Probed?)
    ensures GoodEntries(Step(sch, s, e).entries, s, w)
  {
    hide Exclusive, Waiting, Riding, Tracks, AcksFit, NoDup, GoodTargets;
    var entry := sch.entries[e.url];
    assert GoodAt(entry, e.url, s, w);
    if e.Done? {
      SucceededIsGood(entry, s, e.i, e.answer, sch.closed);
    } else if e.Fails? {
      FailedIsGood(entry, s, e.i);
    }
  }

  lemma StepKeepsGood(sch: Scheduler, s: Settings, w: World, e: Event)
    requires s.Valid() && Good(sch, s, w) && Enabled(sch, w, e)
    ensures Good(Step(sch, s, e), s, w)
  {
    hide GoodEntries, Ticked, Updated, Succeeded, FailedClaim, Put;
    match e
    case Track(r, url, ids, dataWanted, now) =>
      var t := Target(r, url, ids, now, dataWanted, None, false);
      PutUnique(sch.targets, t);
      PutMembers(sch.targets, t);
    case Fragment(r, dataShards) => UpdatedGood(sch.targets, t => SawFragment(t, r, dataShards), w);
    case Tick(host, now) => TickedGood(sch, s, w, host, now);
    case Done(_, _, _) => DoneGood(sch, s, w, e);
    case Fails(url, i, now) =>
      DoneGood(sch, s, w, e);
      var requests := sch.entries[url].open[i].requests;
      UpdatedGood(sch.targets, t => Suspected(t, requests, now), w);
    case Probed(_, _) => DoneGood(sch, s, w, e);
    case Close =>
  }

  /* ----- whole runs ----- */

  const START: Scheduler := Scheduler([], map[], false, [])

  ghost predicate Run(states: seq<Scheduler>, events: seq<Event>, s: Settings, w: World)
    requires s.Valid()
  {
    && |states| == |events| + 1 && states[0] == START
    && forall k :: 0 <= k < |events| ==> Follows(states, events, s, w, k)
  }

  ghost predicate Follows(states: seq<Scheduler>, events: seq<Event>, s: Settings, w: World, k: nat)
    requires s.Valid() && k < |events| < |states|
  {
    Enabled(states[k], w, events[k]) && states[k + 1] == Step(states[k], s, events[k])
  }

  lemma {:induction false} EveryStateIsGood(states: seq<Scheduler>, events: seq<Event>, s: Settings, w: World, k: nat)
    requires s.Valid() && Run(states, events, s, w) && k < |states|
    ensures Good(states[k], s, w)
  {
    hide Step, Enabled, GoodAt;
    if k > 0 {
      EveryStateIsGood(states, events, s, w, k - 1);
      assert Follows(states, events, s, w, k - 1);
      StepKeepsGood(states[k - 1], s, w, events[k - 1]);
    }
  }

  /** An open claim of a scheduler. */
  predicate IsOpen(sch: Scheduler, url: Url, i: nat) { url in sch.entries && i < |sch.entries[url].open| }

  /** Any two open claims, at one entry or at two, are for different ids. */
  ghost predicate NoIdTwice(sch: Scheduler) {
    forall url: Url, i: nat, other: Url, j: nat ::
      IsOpen(sch, url, i) && IsOpen(sch, other, j) && (url != other || i != j) ==>
        Apart(sch.entries[url].open[i].ids, sch.entries[other].open[j].ids)
  }

  /** In every state of every run no id is in two open claims, at one entry or at two; each entry's books
      agree with its open claims; and claims, long polls and acks stay within their limits. */
  lemma EveryRunIsExclusive(states: seq<Scheduler>, events: seq<Event>, s: Settings, w: World, k: nat)
    requires s.Valid() && Run(states, events, s, w) && k < |states|
    ensures var sch := states[k];
      && NoIdTwice(sch)
      && (forall url :: url in sch.entries ==>
          var e := sch.entries[url];
          && (forall id :: id in e.inFlight <==> InSome(e.open, id))
          && e.claims == |e.open| <= Max(s.maxClaims, s.jsonMaxClaims)
          && e.waiting == Waiting(e.open) <= Max(1, s.Slots() - 1)
          && |e.acks| + Riding(e.open) <= 512 + 128 * s.Slots())
  {
    hide Run, Waiting, Riding, GoodTargets;
    EveryStateIsGood(states, events, s, w, k);
    var sch := states[k];
    forall url: Url, i: nat, other: Url, j: nat | IsOpen(sch, url, i) && IsOpen(sch, other, j) && (url != other || i != j)
      ensures Apart(sch.entries[url].open[i].ids, sch.entries[other].open[j].ids)
    {
      ClaimsApart(sch, s, w, url, i, other, j);
    }
    forall url | url in sch.entries ensures GoodEntry(sch.entries[url], s) {
      assert GoodAt(sch.entries[url], url, s, w);
    }
  }

  lemma ClaimsApart(sch: Scheduler, s: Settings, w: World, url: Url, i: nat, other: Url, j: nat)
    requires Good(sch, s, w) && IsOpen(sch, url, i) && IsOpen(sch, other, j) && (url != other || i != j)
    ensures Apart(sch.entries[url].open[i].ids, sch.entries[other].open[j].ids)
  {
    hide Waiting, Riding, GoodTargets, NoDup;
    var (a, b) := (sch.entries[url], sch.entries[other]);
    assert GoodAt(a, url, s, w) && GoodAt(b, other, s, w);
    if url == other {
      assert Apart(a.open[Min(i, j)].ids, a.open[Max(i, j)].ids);
    } else {
      forall id | id in a.open[i].ids ensures id !in b.open[j].ids {
        assert InSome(a.open, id);
        assert id in b.open[j].ids ==> InSome(b.open, id);
      }
    }
  }

  /* ----- where acks go ----- */

  /** The ack fell off an overfull queue while a settled request's ids were queued. */
  ghost predicate SweptAway(sch: Scheduler, s: Settings, host: Host, now: nat, url: Url, id: Id) {
    exists k: nat :: k < |sch.targets| && SweptAwayBy(sch, s, host, now, url, id, k)
  }

  ghost predicate SweptAwayBy(sch: Scheduler, s: Settings, host: Host, now: nat, url: Url, id: Id, k: nat)
    requires k < |sch.targets|
  {
    var before := Swept(sch.targets[..k], sch.entries, s, host, now).entries;
    && !host.pending(sch.targets[k].requestId) && sch.targets[k].entry == url && url in before
    && Overflowed(before[url].acks, sch.targets[k].initialIds, id)
  }

  lemma {:induction false} SweepLosesAcks(sch: Scheduler, s: Settings, host: Host, now: nat, url: Url, id: Id, n: nat)
    requires n <= |sch.targets| && url in sch.entries && HasAck(sch.entries[url], id)
    ensures var after := Swept(sch.targets[..n], sch.entries, s, host, now).entries;
      url in after && (HasAck(after[url], id) || exists k: nat :: k < n && SweptAwayBy(sch, s, host, now, url, id, k))
  {
    hide Overflowed, Rides, FoundLost, QueueAll;
    if n > 0 {
      SweepLosesAcks(sch, s, host, now, url, id, n - 1);
      assert sch.targets[..n][..n - 1] == sch.targets[..n - 1];
      var before := Swept(sch.targets[..n - 1], sch.entries, s, host, now).entries;
      var t := sch.targets[n - 1];
      if HasAck(before[url], id) && id in before[url].acks && id !in QueueAll(before[url].acks, t.initialIds) {
        QueueDropsOldest(before[url].acks, t.initialIds, id);
        assert !host.pending(t.requestId) && t.entry == url ==> SweptAwayBy(sch, s, host, now, url, id, n - 1);
      }
    }
  }

  lemma ServedKeepsAcks(e: Entry, s: Settings, ts: seq<Target>, busy: bool, host: Host, now: nat, id: Id)
    requires s.Valid()
    ensures HasAck(Served(e, s, ts, busy, host, now), id) <==> HasAck(e, id)
  {
    hide Opened, Wanted, Batches, SortBySent, Rotated, AllOpened;
    if !(busy && ts != []) {
      OpenedKeepsAcks(e, s, [], id);
    } else if MaxClaims(e, s) - e.claims > 0 {
      var start := e.cursor % |ts|;
      var moved := e.(cursor := (start + 1) % |ts|);
      var wanted := Wanted(Rotated(SortBySent(ts), start), host.active, e, s, now);
      var batches := Batches(wanted, MaxIds(e, s), MaxClaims(e, s) - e.claims);
      AllOpenedKeepsAcks(moved, s, batches, id);
    }
  }

  /** An ack leaves the books of its entry only in a claim that succeeded, or as the oldest of a queue over
      its limit. */
  lemma AckLeaves(sch: Scheduler, s: Settings, w: World, e: Event, url: Url, id: Id)
    requires s.Valid() && Good(sch, s, w) && Enabled(sch, w, e) && url in sch.entries && HasAck(sch.entries[url], id)
    ensures var after := Step(sch, s, e);
      && url in after.entries
      && (HasAck(after.entries[url], id)
          || (e.Done? && e.url == url && id in sch.entries[url].open[e.i].acks)
          || (e.Done? && e.url == url && Overflowed(sch.entries[url].acks, e.answer.received, id))
          || (e.Tick? && SweptAway(sch, s, e.host, e.now, url, id)))
  {
    hide Overflowed, Rides, Swept, AtEntry, Served, Succeeded, FailedClaim, Updated, Put, SweptAwayBy, Owned;
    hide GoodTargets;
    assert GoodAt(sch.entries[url], url, s, w);
    if e.Done? && e.url == url {
      if !HasAck(Step(sch, s, e).entries[url], id) {
        SuccessLosesAcks(sch.entries[url], s, e.i, e.answer, sch.closed, id);
      }
    } else if e.Fails? && e.url == url {
      FailureKeepsAcks(sch.entries[url], e.i, id);
    } else if e.Tick? && !sch.closed {
      SweepLosesAcks(sch, s, e.host, e.now, url, id, |sch.targets|);
      assert sch.targets[..|sch.targets|] == sch.targets;
      var sweep := Swept(sch.targets, sch.entries, s, e.host, e.now);
      ServedKeepsAcks(sweep.entries[url], s, AtEntry(sweep.kept, url), url in Busy(sweep.kept, e.host), e.host, e.now, id);
    }
  }
}
