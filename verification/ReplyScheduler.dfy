/** The scheduler object: its methods change targets and entries in place, each one step of the schedule. */
module ReplySchedulerObject {
  import opened Outcomes
  import opened ReplyClaims
  import opened ReplySchedule

  /* ----- cutting wishes into batches ----- */

  lemma FullBatch(current: seq<Wish>, rest: seq<Wish>, maxIds: nat, free: nat)
    requires maxIds > 0 && |current| == maxIds && free > 0
    ensures Batches(current + rest, maxIds, free) == [current] + Batches(rest, maxIds, free - 1)
  {
    assert (current + rest)[..maxIds] == current && (current + rest)[maxIds..] == rest;
  }

  lemma LastBatch(current: seq<Wish>, maxIds: nat, free: nat)
    requires maxIds > 0 && |current| <= maxIds && free > 0
    ensures Batches(current, maxIds, free) == if current == [] then [] else [current]
  {
    if current != [] {
      assert current[..|current|] == current && current[|current|..] == [];
      assert Batches(current[|current|..], maxIds, free - 1) == [];
    }
  }

  /** The batch loop of claimFrom. */
  method CutBatches(ts: seq<Target>, active: RequestId -> seq<Id>, e: Entry, s: Settings, now: nat, maxIds: nat,
                    free: nat)
    returns (batches: seq<seq<Wish>>)
    requires maxIds > 0 && free > 0
    ensures batches == Batches(Wanted(ts, active, e, s, now), maxIds, free)
  {
    hide Wanted, Batches, WantedIds;
    ghost var ws := Wanted(ts, active, e, s, now);
    batches := [];
    var current: seq<Wish> := [];
    ghost var n := 0;
    assert ts[..0] == [];
    NothingWanted(active, e, s, now);
    NothingBefore(ws);
    assert ws[0..] == ws;
    for j := 0 to |ts|
      invariant |batches| < free && |current| <= maxIds
      invariant n <= |ws| && n == |Wanted(ts[..j], active, e, s, now)|
      invariant Batches(ws, maxIds, free) == batches + Batches(current + ws[n..], maxIds, free - |batches|)
    {
      var t := ts[j];
      var ids := WantedIds(t, active(t.requestId), e, s, now);
      NextWanted(ts, j, active, e, s, now);
      ghost var m := n;
      for i := 0 to |ids|
        invariant |batches| < free && |current| <= maxIds
        invariant n == m + i <= |ws|
        invariant Batches(ws, maxIds, free) == batches + Batches(current + ws[n..], maxIds, free - |batches|)
      {
        if |current| >= maxIds {
          FullBatch(current, ws[n..], maxIds, free - |batches|);
          Shift(batches, current, Batches(ws[n..], maxIds, free - |batches| - 1));
          batches := batches + [current];
          if |batches| >= free {
            NoSlot(ws[n..], maxIds);
            return;
          }
          current := [];
          NothingBefore(ws[n..]);
        }
        assert ws[m..m + |ids|][i] == ws[n];
        TakeNext(current, ws, n);
        current := current + [Wish(ids[i], t.requestId)];
        n := n + 1;
      }
    }
    assert ts[..|ts|] == ts;
    assert current + ws[n..] == current;
    LastBatch(current, maxIds, free - |batches|);
    if |current| > 0 { batches := batches + [current]; }
  }

  lemma Shift(done: seq<seq<Wish>>, next: seq<Wish>, rest: seq<seq<Wish>>)
    ensures done + ([next] + rest) == done + [next] + rest
  {}

  lemma TakeNext(current: seq<Wish>, ws: seq<Wish>, n: nat)
    requires n < |ws|
    ensures current + ws[n..] == current + [ws[n]] + ws[n + 1..]
  {}

  lemma NothingBefore(ws: seq<Wish>)
    ensures [] + ws == ws
  {}

  lemma NoSlot(ws: seq<Wish>, maxIds: nat)
    requires maxIds > 0
    ensures Batches(ws, maxIds, 0) == []
  {}

  lemma NothingWanted(active: RequestId -> seq<Id>, e: Entry, s: Settings, now: nat)
    ensures Wanted([], active, e, s, now) == []
  {}

  lemma NextWanted(ts: seq<Target>, j: nat, active: RequestId -> seq<Id>, e: Entry, s: Settings, now: nat)
    requires j < |ts|
    ensures var (ws, before) := (Wanted(ts, active, e, s, now), Wanted(ts[..j], active, e, s, now));
      var ids := WantedIds(ts[j], active(ts[j].requestId), e, s, now);
      && |before| + |ids| <= |ws| && |Wanted(ts[..j + 1], active, e, s, now)| == |before| + |ids|
      && ws[|before|..|before| + |ids|] == Wishes(ids, ts[j].requestId)
  {
    hide WantedIds;
    WantedPrefix(ts, j + 1, active, e, s, now);
    assert ts[..j + 1][..j] == ts[..j];
  }

  /** takeAcks. */
  method TakeAcks(acks: seq<Id>) returns (taken: seq<Id>, rest: seq<Id>)
    ensures taken == acks[..Min(|acks|, MAX_ACKS_PER_CLAIM)] && rest == acks[Min(|acks|, MAX_ACKS_PER_CLAIM)..]
  {
    taken := [];
    for i := 0 to |acks|
      invariant i <= MAX_ACKS_PER_CLAIM && taken == acks[..i]
    {
      if |taken| >= MAX_ACKS_PER_CLAIM { return taken, acks[i..]; }
      taken := taken + [acks[i]];
    }
    rest := [];
  }

  /** queueAcks for an entry that speaks version 2. */
  method QueueEach(acks: seq<Id>, ids: seq<Id>) returns (queue: seq<Id>)
    ensures queue == QueueAll(acks, ids)
  {
    hide QueueAck;
    queue := acks;
    assert ids[..0] == [];
    for i := 0 to |ids|
      invariant queue == QueueAll(acks, ids[..i])
    {
      assert ids[..i + 1][..i] == ids[..i];
      queue := QueueAck(queue, ids[i]);
    }
    assert ids[..|ids|] == ids;
  }

  method ReturnAcks(acks: seq<Id>, ids: seq<Id>) returns (queue: seq<Id>)
    ensures queue == AddAll(acks, ids)
  {
    queue := acks;
    assert ids[..0] == [];
    for i := 0 to |ids|
      invariant queue == AddAll(acks, ids[..i])
    {
      assert ids[..i + 1][..i] == ids[..i];
      if ids[i] !in queue { queue := queue + [ids[i]]; }
    }
    assert ids[..|ids|] == ids;
  }

  class ReplyClaimScheduler {
    const settings: Settings
    ghost const world: World
    var targets: seq<Target>
    var entries: map<Url, Entry>
    var closed: bool
    var lost: seq<RequestId>

    ghost function Now(): Scheduler
      reads this
    {
      Scheduler(targets, entries, closed, lost)
    }

    ghost predicate Valid()
      reads this
    {
      settings.Valid() && Good(Now(), settings, world)
    }

    constructor (settings: Settings, ghost world: World)
      requires settings.Valid()
      ensures Valid() && Now() == START && this.settings == settings && this.world == world
    {
      this.settings, this.world := settings, world;
      targets, entries, closed, lost := [], map[], false, [];
    }

    method Track(r: RequestId, url: Url, ids: seq<Id>, dataWanted: nat, now: nat)
      requires Valid() && url == world.home(r)
      modifies this
      ensures Valid() && Now() == Step(old(Now()), settings, Event.Track(r, url, ids, dataWanted, now))
    {
      hide Good;
      StepKeepsGood(Now(), settings, world, Event.Track(r, url, ids, dataWanted, now));
      if closed { return; }
      targets := Put(targets, Target(r, url, ids, now, dataWanted, None, false));
    }

    method NoteFragment(r: RequestId, dataShards: nat)
      requires Valid()
      modifies this
      ensures Valid() && Now() == Step(old(Now()), settings, Fragment(r, dataShards))
    {
      hide Good;
      StepKeepsGood(Now(), settings, world, Fragment(r, dataShards));
      targets := Updated(targets, t => SawFragment(t, r, dataShards));
    }

    method Close()
      requires Valid()
      modifies this
      ensures Valid() && Now() == Step(old(Now()), settings, Event.Close)
    {
      hide Good;
      StepKeepsGood(Now(), settings, world, Event.Close);
      closed, targets := true, [];
    }

    method ProbeAnswered(url: Url, ms: nat)
      requires Valid() && url in entries
      modifies this
      ensures Valid() && Now() == Step(old(Now()), settings, Probed(url, ms))
    {
      hide Good;
      StepKeepsGood(Now(), settings, world, Probed(url, ms));
      entries := entries[url := entries[url].(relayWaitMaxMs := Some(ms))];
    }

    method QueueAcks(url: Url, ids: seq<Id>)
      modifies this`entries
      ensures entries == QueuedAt(old(entries), url, settings, ids)
    {
      if url !in entries || entries[url].v2 != Some(true) || !settings.retain { return; }
      var queue := QueueEach(entries[url].acks, ids);
      entries := entries[url := entries[url].(acks := queue)];
    }

    /** claim up to its await. */
    method OpenClaim(url: Url, ws: seq<Wish>)
      requires url in entries
      modifies this`entries
      ensures entries == old(entries)[url := Opened(old(entries[url]), settings, ws)]
    {
      hide WaitFor;
      var e := entries[url];
      var ids := IdsOf(ws);
      var acks, rest := TakeAcks(e.acks);
      var waitMs := if |ids| == 0 then 0 else WaitFor(e, settings, false);
      var waiting := e.waiting;
      if waitMs > 0 { waiting := waiting + 1; }
      entries := entries[url := e.(inFlight := e.inFlight + (set id | id in ids), claims := e.claims + 1,
                                   waiting := waiting, acks := rest,
                                   open := e.open + [Claim(ids, RequestsOf(ws), acks, waitMs)])];
    }

    /** claimFrom. */
    method ClaimAt(url: Url, ts: seq<Target>, active: RequestId -> seq<Id>, now: nat)
      requires settings.Valid() && ts != []
      modifies this`entries
      ensures entries == old(entries)[url := ClaimFrom(StateOf(old(entries), url), settings, ts, active, now)]
    {
      hide Opened, Batches, Wanted, SortBySent, Rotated, FRESH;
      var e := if url in entries then entries[url] else FRESH;
      entries := entries[url := e];
      var free := MaxClaims(e, settings) - e.claims;
      if free <= 0 { return; }
      var start := e.cursor % |ts|;
      var ordered := Rotated(SortBySent(ts), start);
      ghost var moved := e.(cursor := (start + 1) % |ts|);
      entries := entries[url := e.(cursor := (start + 1) % |ts|)];
      var batches := CutBatches(ordered, active, e, settings, now, MaxIds(e, settings), free);
      assert batches[..0] == [];
      for k := 0 to |batches|
        invariant url in entries
        invariant entries == old(entries)[url := AllOpened(moved, settings, batches[..k])]
      {
        assert batches[..k + 1][..k] == batches[..k];
        OpenClaim(url, batches[k]);
      }
      assert batches[..|batches|] == batches;
    }

    /** The first loop of tick: drops settled requests, reports lost replies, groups the rest by entry. */
    method SweepTargets(host: Host, now: nat) returns (byEntry: map<Url, seq<Target>>)
      modifies this
      ensures closed == old(closed)
      ensures var w := Swept(old(targets), old(entries), settings, host, now);
        targets == w.kept && entries == w.entries && lost == old(lost) + w.lost && byEntry == Groups(w.kept, host)
    {
      hide QueuedAt, FoundLost, Groups;
      NoGroups(host);
      byEntry := map[];
      var all, kept := targets, [];
      ghost var reported := [];
      assert all[..0] == [];
      for k := 0 to |all|
        invariant closed == old(closed) && lost == old(lost) + reported
        invariant Sweep(kept, entries, reported) == Swept(all[..k], old(entries), settings, host, now)
        invariant byEntry == Groups(kept, host)
      {
        assert all[..k + 1][..k] == all[..k];
        var t := all[k];
        if !host.pending(t.requestId) {
          QueueAcks(t.entry, t.initialIds);
        } else {
          if FoundLost(t, settings, now) {
            t := t.(lostReported := true);
            lost := lost + [t.requestId];
            reported := reported + [t.requestId];
          }
          byEntry := AddToGroup(kept, byEntry, t, host);
          kept := kept + [t];
        }
      }
      assert all[..|all|] == all;
      targets := kept;
    }

    /** Claims for every entry with targets. */
    method ClaimAll(byEntry: map<Url, seq<Target>>, active: RequestId -> seq<Id>, now: nat)
      requires settings.Valid() && forall url :: url in byEntry ==> byEntry[url] != []
      modifies this`entries
      ensures entries == Claims(old(entries), byEntry, byEntry.Keys, settings, active, now)
    {
      hide ClaimFrom, StateOf, Claims;
      var todo := byEntry.Keys;
      ghost var done := {};
      NoClaims(entries, byEntry, settings, active, now);
      while todo != {}
        invariant todo + done == byEntry.Keys && todo !! done
        invariant entries == Claims(old(entries), byEntry, done, settings, active, now)
        decreases |todo|
      {
        var url :| url in todo;
        OneMoreClaim(old(entries), byEntry, done, url, settings, active, now);
        ClaimAt(url, byEntry[url], active, now);
        todo := todo - {url};
        done := done + {url};
      }
      assert done == byEntry.Keys;
    }

    /** flushAcks: ack-only claims for entries that got no other claim. */
    method FlushOthers(claimed: set<Url>)
      modifies this`entries
      ensures entries.Keys == old(entries).Keys
      ensures forall url :: url in entries ==>
        entries[url] == if url in claimed then old(entries)[url] else FlushAcks(old(entries)[url], settings)
    {
      hide FlushAcks;
      var rest := entries.Keys - claimed;
      while rest != {}
        invariant rest <= entries.Keys - claimed && entries.Keys == old(entries).Keys
        invariant forall url :: url in entries ==>
          entries[url] == if url in claimed || url in rest then old(entries)[url] else FlushAcks(old(entries)[url], settings)
        decreases |rest|
      {
        var url :| url in rest;
        FlushAt(url);
        rest := rest - {url};
      }
    }

    method Tick(host: Host, now: nat)
      requires Valid() && Owned(world, host.active)
      modifies this
      ensures Valid() && Now() == Step(old(Now()), settings, Event.Tick(host, now))
    {
      hide Good, Swept, AtEntry, ClaimFrom, FlushAcks, Busy, FRESH;
      StepKeepsGood(Now(), settings, world, Event.Tick(host, now));
      if closed { return; }
      ghost var w := Swept(targets, entries, settings, host, now);
      var byEntry := SweepTargets(host, now);
      BusyHasTargets(w.kept, host);
      ClaimAll(byEntry, host.active, now);
      FlushOthers(byEntry.Keys);
      assert entries == Ticked(old(Now()), settings, host, now).entries;
    }

    /** flushAcks for one entry. */
    method FlushAt(url: Url)
      requires url in entries
      modifies this`entries
      ensures entries == old(entries)[url := FlushAcks(old(entries[url]), settings)]
    {
      hide Opened;
      var e := entries[url];
      if |e.acks| == 0 || e.v2 != Some(true) { return; }
      if e.claims >= MaxClaims(e, settings) { return; }
      OpenClaim(url, []);
    }

    /** claim after its exchange succeeded. */
    method ClaimDone(url: Url, i: nat, answer: Answer)
      requires Valid() && url in entries && i < |entries[url].open|
      modifies this
      ensures Valid() && Now() == Step(old(Now()), settings, Done(url, i, answer))
    {
      hide Good, QueueAll, Closed;
      StepKeepsGood(Now(), settings, world, Done(url, i, answer));
      var e := entries[url];
      var claim := e.open[i];
      if answer.v2.Some? { e := e.(v2 := answer.v2); }
      if answer.waitMaxMs.Some? { e := e.(waitMaxMs := answer.waitMaxMs); }
      if |claim.ids| > 0 && claim.waitMs > 0 && e.longPoll.None? { e := e.(longPoll := answer.held); }
      entries := entries[url := Closed(e, i)];
      if !closed { QueueAcks(url, answer.received); }
      assert entries[url] == Succeeded(old(entries)[url], settings, i, answer, closed);
      assert entries == old(entries)[url := entries[url]];
    }

    /** claim after its exchange failed. */
    method ClaimFailed(url: Url, i: nat, now: nat)
      requires Valid() && url in entries && i < |entries[url].open|
      modifies this
      ensures Valid() && Now() == Step(old(Now()), settings, Fails(url, i, now))
    {
      hide Good;
      StepKeepsGood(Now(), settings, world, Fails(url, i, now));
      var e := entries[url];
      var requests := e.open[i].requests;
      var queue := ReturnAcks(e.acks, e.open[i].acks);
      targets := Updated(targets, t => Suspected(t, requests, now));
      entries := entries[url := Closed(e.(acks := queue), i)];
    }
  }

  /** The targets of every busy entry. */
  function Groups(kept: seq<Target>, host: Host): map<Url, seq<Target>> {
    map url | url in Busy(kept, host) :: AtEntry(kept, url)
  }

  /** The entries once those in done have got their claims. */
  ghost function Claims(before: map<Url, Entry>, byEntry: map<Url, seq<Target>>, done: set<Url>, s: Settings,
                        active: RequestId -> seq<Id>, now: nat): map<Url, Entry>
    requires s.Valid() && done <= byEntry.Keys && forall url :: url in byEntry ==> byEntry[url] != []
  {
    map url | url in before.Keys + done ::
      if url in done then ClaimFrom(StateOf(before, url), s, byEntry[url], active, now) else StateOf(before, url)
  }

  lemma NoClaims(before: map<Url, Entry>, byEntry: map<Url, seq<Target>>, s: Settings,
                 active: RequestId -> seq<Id>, now: nat)
    requires s.Valid() && forall url :: url in byEntry ==> byEntry[url] != []
    ensures Claims(before, byEntry, {}, s, active, now) == before
  {
    hide ClaimFrom;
  }

  lemma OneMoreClaim(before: map<Url, Entry>, byEntry: map<Url, seq<Target>>, done: set<Url>, url: Url, s: Settings,
                     active: RequestId -> seq<Id>, now: nat)
    requires s.Valid() && done + {url} <= byEntry.Keys && url !in done
    requires forall url :: url in byEntry ==> byEntry[url] != []
    ensures var so := Claims(before, byEntry, done, s, active, now);
      Claims(before, byEntry, done + {url}, s, active, now)
      == so[url := ClaimFrom(StateOf(so, url), s, byEntry[url], active, now)]
  {
    hide ClaimFrom, FRESH;
    assert StateOf(Claims(before, byEntry, done, s, active, now), url) == StateOf(before, url);
  }

  lemma NoGroups(host: Host)
    ensures Groups([], host) == map[]
  {}

  lemma NotBusy(kept: seq<Target>, url: Url, host: Host)
    requires url !in Busy(kept, host) && !host.skips(url)
    ensures AtEntry(kept, url) == []
  {
    AtEntryExact(kept, url);
    var mine := AtEntry(kept, url);
    assert forall t :: t in kept ==> t.entry != url;
    assert forall t :: t !in mine;
  }

  lemma BusyMore(kept: seq<Target>, t: Target, host: Host)
    ensures Busy(kept + [t], host) == Busy(kept, host) + if host.skips(t.entry) then {} else {t.entry}
  {}

  method AddToGroup(kept: seq<Target>, byEntry: map<Url, seq<Target>>, t: Target, host: Host)
    returns (more: map<Url, seq<Target>>)
    requires byEntry == Groups(kept, host)
    ensures more == Groups(kept + [t], host)
  {
    hide Busy;
    BusyMore(kept, t, host);
    assert (kept + [t])[..|kept|] == kept;
    more := byEntry;
    if !host.skips(t.entry) {
      if t.entry !in byEntry { NotBusy(kept, t.entry, host); }
      more := byEntry[t.entry := (if t.entry in byEntry then byEntry[t.entry] else []) + [t]];
    } else {
      SkippedIsNotBusy(kept, t.entry, host);
    }
    assert forall url :: url in more ==> more[url] == AtEntry(kept + [t], url);
  }

  lemma SkippedIsNotBusy(kept: seq<Target>, url: Url, host: Host)
    requires host.skips(url)
    ensures url !in Busy(kept, host)
  {}

  lemma BusyHasTargets(kept: seq<Target>, host: Host)
    ensures forall url :: url in Busy(kept, host) ==> AtEntry(kept, url) != []
  {
    forall url | url in Busy(kept, host) ensures AtEntry(kept, url) != [] {
      AtEntryExact(kept, url);
      var t :| t in kept && t.entry == url;
      assert t in AtEntry(kept, url);
    }
  }
}
