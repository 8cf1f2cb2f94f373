/** No request starves behind the others of its entry: what the rotation of targets gives over whole runs. */
module ReplyFairness {
  import opened ReplyClaims
  import opened ReplySchedule

  /** What a tick finds at an entry once it has swept the targets. */
  function PassOf(sch: Scheduler, s: Settings, e: Event, url: Url): Pass
    requires e.Tick?
  {
    var w := Swept(sch.targets, sch.entries, s, e.host, e.now);
    Pass(StateOf(w.entries, url), AtEntry(w.kept, url), e.host.active, e.now)
  }

  /** The event is a tick that has targets for the entry and a free slot there. */
  predicate Passes(sch: Scheduler, s: Settings, e: Event, url: Url) {
    && e.Tick? && !sch.closed
    && url in Busy(Swept(sch.targets, sch.entries, s, e.host, e.now).kept, e.host)
    && PassOf(sch, s, e, url).entry.claims < MaxClaims(PassOf(sch, s, e, url).entry, s)
  }

  function CursorAt(sch: Scheduler, url: Url): nat { StateOf(sch.entries, url).cursor }

  lemma {:induction false} SweepKeepsCursor(ts: seq<Target>, entries: map<Url, Entry>, s: Settings, host: Host,
                                            now: nat, url: Url)
    ensures StateOf(Swept(ts, entries, s, host, now).entries, url).cursor == StateOf(entries, url).cursor
    ensures url in entries ==> url in Swept(ts, entries, s, host, now).entries
  {
    hide FoundLost, QueueAll, FRESH;
    if ts != [] { SweepKeepsCursor(ts[..|ts| - 1], entries, s, host, now, url); }
  }

  lemma FlushKeepsCursor(e: Entry, s: Settings)
    ensures FlushAcks(e, s).cursor == e.cursor
  {
    hide WaitFor;
  }

  /** Only a pass moves the cursor of an entry. */
  lemma CursorStays(sch: Scheduler, s: Settings, w: World, e: Event, url: Url)
    requires s.Valid() && Enabled(sch, w, e) && !Passes(sch, s, e, url)
    ensures CursorAt(Step(sch, s, e), url) == CursorAt(sch, url)
  {
    hide Swept, AtEntry, Busy, Put, Updated, QueueAll, AddAll, Removed, ClaimFrom, FlushAcks, Owned, FRESH;
    if e.Tick? && !sch.closed {
      var sweep := Swept(sch.targets, sch.entries, s, e.host, e.now);
      var entry := StateOf(sweep.entries, url);
      SweepKeepsCursor(sch.targets, sch.entries, s, e.host, e.now, url);
      FlushKeepsCursor(entry, s);
      if AtEntry(sweep.kept, url) != [] { FullKeepsCursor(entry, s, AtEntry(sweep.kept, url), e.host.active, e.now); }
    }
  }

  lemma FullKeepsCursor(e: Entry, s: Settings, ts: seq<Target>, active: RequestId -> seq<Id>, now: nat)
    requires s.Valid() && ts != []
    ensures e.claims >= MaxClaims(e, s) ==> ClaimFrom(e, s, ts, active, now) == e
  {}

  /** A pass leaves the entry as claimFrom does. */
  lemma PassClaims(sch: Scheduler, s: Settings, e: Event, url: Url)
    requires s.Valid() && Passes(sch, s, e, url)
    ensures PassOf(sch, s, e, url).targets != []
    ensures url in Step(sch, s, e).entries && Step(sch, s, e).entries[url] == After(PassOf(sch, s, e, url), s)
    ensures PassOf(sch, s, e, url).entry.cursor == CursorAt(sch, url)
  {
    hide Swept, AtEntry, ClaimFrom, FlushAcks, FRESH;
    var sweep := Swept(sch.targets, sch.entries, s, e.host, e.now);
    SweepKeepsCursor(sch.targets, sch.entries, s, e.host, e.now, url);
    AtEntryExact(sweep.kept, url);
    var t :| t in sweep.kept && t.entry == url;
    assert t in AtEntry(sweep.kept, url);
  }

  /** A pass over n targets of which request r is the i-th oldest. */
  predicate PassesFor(sch: Scheduler, s: Settings, e: Event, url: Url, n: nat, i: nat, r: RequestId) {
    && Passes(sch, s, e, url) && |PassOf(sch, s, e, url).targets| == n
    && i < n && SortBySent(PassOf(sch, s, e, url).targets)[i].requestId == r
  }

  lemma PassServes(sch: Scheduler, s: Settings, w: World, e: Event, url: Url, n: nat, i: nat, r: RequestId)
    requires s.Valid() && Good(sch, s, w) && Enabled(sch, w, e) && PassesFor(sch, s, e, url, n, i, r)
    ensures Serves(PassOf(sch, s, e, url), s, w, n, i, r)
  {
    hide Swept, AtEntry, Busy, Unique, Owned, SortBySent, GoodEntry, FRESH;
    var sweep := Swept(sch.targets, sch.entries, s, e.host, e.now);
    SweptGood(sch.targets, sch.entries, s, w, e.host, e.now);
    AtEntryUnique(sweep.kept, url);
    FreshIsGood(url, s, w);
    assert url in sweep.entries ==> GoodAt(sweep.entries[url], url, s, w);
  }

  lemma {:induction false} CursorBetween(states: seq<Scheduler>, events: seq<Event>, s: Settings, w: World, url: Url,
                                         a: nat, b: nat)
    requires s.Valid() && Run(states, events, s, w) && a <= b < |states|
    requires forall k :: a <= k < b ==> !Passes(states[k], s, events[k], url)
    ensures CursorAt(states[b], url) == CursorAt(states[a], url)
  {
    hide Step, Enabled, Passes, CursorAt;
    if a < b {
      CursorBetween(states, events, s, w, url, a, b - 1);
      assert Follows(states, events, s, w, b - 1);
      CursorStays(states[b - 1], s, w, events[b - 1], url);
    }
  }

  /** The passes of a run at an entry, at these steps and no others in between. */
  ghost predicate Consecutive(states: seq<Scheduler>, events: seq<Event>, s: Settings, url: Url, steps: seq<nat>,
                              i: nat, r: RequestId)
    requires |states| == |events| + 1
  {
    && (forall j :: 0 <= j < |steps| ==> steps[j] < |events|)
    && (forall j :: 0 <= j < |steps| ==> PassesFor(states[steps[j]], s, events[steps[j]], url, |steps|, i, r))
    && (forall j :: 0 < j < |steps| ==> steps[j - 1] < steps[j])
    && (forall j, k :: 0 < j < |steps| && steps[j - 1] < k < steps[j] ==> !Passes(states[k], s, events[k], url))
  }

  ghost function PassesAt(states: seq<Scheduler>, events: seq<Event>, s: Settings, url: Url, steps: seq<nat>, i: nat,
                         r: RequestId): (passes: seq<Pass>)
    requires |states| == |events| + 1 && Consecutive(states, events, s, url, steps, i, r)
    ensures |passes| == |steps|
    ensures forall j :: 0 <= j < |steps| ==> passes[j] == PassOf(states[steps[j]], s, events[steps[j]], url)
  {
    assert forall j :: 0 <= j < |steps| ==> PassesFor(states[steps[j]], s, events[steps[j]], url, |steps|, i, r);
    seq(|steps|, j requires 0 <= j < |steps| => PassOf(states[steps[j]], s, events[steps[j]], url))
  }

  lemma EachServes(states: seq<Scheduler>, events: seq<Event>, s: Settings, w: World, url: Url, steps: seq<nat>, i: nat,
                   r: RequestId, j: nat)
    requires s.Valid() && Run(states, events, s, w) && Consecutive(states, events, s, url, steps, i, r) && j < |steps|
    ensures Serves(PassesAt(states, events, s, url, steps, i, r)[j], s, w, |steps|, i, r)
  {
    hide Step, Enabled, PassOf, SortBySent, Good, Serves, Passes;
    var k := steps[j];
    assert PassesFor(states[k], s, events[k], url, |steps|, i, r);
    EveryStateIsGood(states, events, s, w, k);
    assert Follows(states, events, s, w, k);
    PassServes(states[k], s, w, events[k], url, |steps|, i, r);
  }

  lemma EachLinks(states: seq<Scheduler>, events: seq<Event>, s: Settings, w: World, url: Url, steps: seq<nat>, i: nat,
                  r: RequestId, j: nat)
    requires s.Valid() && Run(states, events, s, w) && Consecutive(states, events, s, url, steps, i, r) && 0 < j < |steps|
    ensures var passes := PassesAt(states, events, s, url, steps, i, r);
      passes[j].entry.cursor == After(passes[j - 1], s).cursor
  {
    hide Step, Enabled, Passes, PassOf, After, SortBySent;
    var (a, b) := (steps[j - 1], steps[j]);
    assert PassesFor(states[a], s, events[a], url, |steps|, i, r) && PassesFor(states[b], s, events[b], url, |steps|, i, r);
    PassClaims(states[a], s, events[a], url);
    PassClaims(states[b], s, events[b], url);
    assert Follows(states, events, s, w, a);
    CursorBetween(states, events, s, w, url, a + 1, b);
  }

  lemma EachClaims(states: seq<Scheduler>, events: seq<Event>, s: Settings, w: World, url: Url, steps: seq<nat>, i: nat,
                   r: RequestId, j: nat)
    requires s.Valid() && Run(states, events, s, w) && Consecutive(states, events, s, url, steps, i, r) && j < |steps|
    ensures steps[j] < |events| && events[steps[j]].Tick? && url in states[steps[j] + 1].entries
    ensures states[steps[j] + 1].entries[url] == After(PassesAt(states, events, s, url, steps, i, r)[j], s)
  {
    hide Step, Enabled, PassOf, After, SortBySent;
    var k := steps[j];
    assert PassesFor(states[k], s, events[k], url, |steps|, i, r);
    PassClaims(states[k], s, events[k], url);
    assert Follows(states, events, s, w, k);
  }

  /** In every run: of any n passes in a row over n targets of an entry, whatever else happens in between, one puts an
      id of each request in flight, if it then wants any. */
  lemma NobodyStarvesInRuns(states: seq<Scheduler>, events: seq<Event>, s: Settings, w: World, url: Url,
                            steps: seq<nat>, i: nat, r: RequestId)
    returns (j: nat)
    requires s.Valid() && Run(states, events, s, w) && Consecutive(states, events, s, url, steps, i, r)
    requires i < |steps|
    ensures j < |steps| && steps[j] < |events| && events[steps[j]].Tick?
    ensures var p := PassOf(states[steps[j]], s, events[steps[j]], url);
      && i < |p.targets| && url in states[steps[j] + 1].entries
      && (WantedBy(p, s, i) != [] ==> WantedBy(p, s, i)[0] in states[steps[j] + 1].entries[url].inFlight)
  {
    hide Run, Consecutive, PassesAt, PassOf, After, WantedBy, Serves;
    assert |states| == |events| + 1 by { RunLength(states, events, s, w); }
    var passes := PassesAt(states, events, s, url, steps, i, r);
    forall j | 0 <= j < |steps| ensures Serves(passes[j], s, w, |steps|, i, r) {
      EachServes(states, events, s, w, url, steps, i, r, j);
    }
    forall j | 0 < j < |steps| ensures passes[j].entry.cursor == After(passes[j - 1], s).cursor {
      EachLinks(states, events, s, w, url, steps, i, r, j);
    }
    j := NobodyStarves(passes, s, w, i, r);
    EachClaims(states, events, s, w, url, steps, i, r, j);
  }

  lemma RunLength(states: seq<Scheduler>, events: seq<Event>, s: Settings, w: World)
    requires s.Valid() && Run(states, events, s, w)
    ensures |states| == |events| + 1
  {}
}
