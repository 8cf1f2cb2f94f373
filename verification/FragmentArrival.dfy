/** The fragments of one message arriving at a fresh default reassembler, in any order and with repeats:
    nothing is returned before the last fragment that is needed, and that one delivers. */
module FragmentArrival {
  import opened Outcomes
  import opened LinearAlgebra
  import opened ByteBuffers
  import opened ShardDecoder
  import opened ErasureCode
  import opened Reassembly
  import opened ReassemblerObject

  /** A message as its sender cut it: one shard per fragment, with the erasure parameters if any. */
  datatype Message = Message(id: nat, fec: Option<Fec>, shards: seq<Vec>)

  function FragmentOf(m: Message, s: nat): Fragment
    requires s < |m.shards|
  {
    Fragment(m.id, |m.shards|, s, m.shards[s], m.fec)
  }

  /** Fragments after which the message can be put together. */
  function Needed(m: Message): nat {
    if m.fec.None? then |m.shards| else m.fec.value.dataShardCount
  }

  /** Fragment counts are in range, and the needed fragments fit the default byte limit when each
      counts for at most bound bytes. */
  ghost predicate Sendable(m: Message, bound: nat) {
    && 1 <= Needed(m) <= |m.shards| <= MAX_FRAGMENTS_PER_MESSAGE
    && (forall s :: 0 <= s < |m.shards| ==> |m.shards[s]| + 34 <= bound)
    && Needed(m) * bound <= DEFAULT_MAX_BUFFER_BYTES
  }

  ghost function Stored(m: Message, seen: set<nat>): (f: map<nat, Fragment>)
    requires forall s :: s in seen ==> s < |m.shards|
    ensures f.Keys == seen && forall s :: s in seen ==> f[s] == FragmentOf(m, s)
  {
    map s | s in seen :: FragmentOf(m, s)
  }

  /** A buffer of this message that holds exactly the fragments in seen. */
  ghost predicate Holds(b: Buffer, m: Message, seen: set<nat>) {
    && (forall s :: s in seen ==> s < |m.shards|)
    && b.expectedTotal == |m.shards| && b.fecInfo == m.fec
    && b.fragments == Stored(m, seen) && b.receivedCount == |seen|
  }

  /** A fresh reassembler that was given exactly the fragments in seen, too few to complete. */
  ghost predicate Holding(p: Pool, m: Message, seen: set<nat>) {
    && Good(p) && |seen| < Needed(m)
    && (forall s :: s in seen ==> s < |m.shards|)
    && (seen == {} ==> p == EMPTY_POOL)
    && (seen != {} ==> p.order == [m.id] && m.id in p.buffers && Holds(p.buffers[m.id], m, seen))
  }

  /** What completing with these fragments returns. */
  ghost function DeliveredBy(m: Message, seen: set<nat>): Outcome
    requires forall s :: s in seen ==> s < |m.shards|
  {
    Assembled(Buffer(Stored(m, seen), |m.shards|, |seen|, 0, 0, 0, m.fec))
  }

  /* ----- room ----- */

  ghost function Part(seen: set<nat>, n: nat): set<nat> { set s | s in seen && s < n }

  lemma {:induction false} StoredBytes(m: Message, seen: set<nat>, bound: nat, n: nat)
    requires Sendable(m, bound) && forall s :: s in seen ==> s < |m.shards|
    ensures SumSizes(Stored(m, seen), n) <= |Part(seen, n)| * bound
  {
    if n == 0 {
      assert Part(seen, 0) == {};
    } else {
      StoredBytes(m, seen, bound, n - 1);
      if n - 1 in seen {
        assert Part(seen, n) == Part(seen, n - 1) + {n - 1};
        assert |Part(seen, n)| * bound == |Part(seen, n - 1)| * bound + bound;
      } else {
        assert Part(seen, n) == Part(seen, n - 1);
      }
    }
  }

  lemma OneMessage(p: Pool, id: nat)
    requires Good(p) && p.order == [id]
    ensures id in p.buffers && p.total == p.buffers[id].bufferedBytes
    ensures p.buffers.Keys == {id} && Kept(id, p.buffers[id])
  {
    hide Kept;
    assert p.order[0] == id;
    assert p.order[1..] == [];
    assert SumBytes(p.order[1..], p.buffers) == 0;
  }

  lemma StayPut(p: Pool, needed: nat, limits: Limits)
    requires Coherent(p) && !Crowded(p, needed, limits)
    ensures MakeRoom(p, needed, limits) == p
  {}

  lemma AcceptedFragment(m: Message, bound: nat, s: nat)
    requires Sendable(m, bound) && s < |m.shards|
    ensures Invalid(FragmentOf(m, s)).None? && FragmentSize(FragmentOf(m, s)) <= bound
  {}

  lemma MulMonotone(a: nat, b: nat, c: nat)
    requires a <= b
    ensures a * c <= b * c
  {}

  lemma KeptBytes(id: nat, b: Buffer)
    requires Kept(id, b)
    ensures b.bufferedBytes == SumSizes(b.fragments, b.expectedTotal)
  {}

  lemma GrownBytes(m: Message, bound: nat, seen: set<nat>, s: nat)
    requires Sendable(m, bound) && s < |m.shards| && s !in seen && |seen| < Needed(m)
    requires forall x :: x in seen ==> x < |m.shards|
    ensures SumSizes(Stored(m, seen), |m.shards|) + FragmentSize(FragmentOf(m, s)) <= DEFAULT_MAX_BUFFER_BYTES
  {
    hide SumSizes, FragmentSize;
    var all, n := seen + {s}, |m.shards|;
    StoredBytes(m, all, bound, n);
    assert Part(all, n) == all;
    SizesInsert(Stored(m, seen), FragmentOf(m, s), n);
    assert Stored(m, all) == Stored(m, seen)[s := FragmentOf(m, s)];
    assert |all| == |seen| + 1;
    MulMonotone(|all|, Needed(m), bound);
  }

  lemma TotalBound(p: Pool, m: Message, bound: nat, seen: set<nat>, s: nat)
    requires Sendable(m, bound) && Holding(p, m, seen) && s < |m.shards| && s !in seen
    ensures p.total + FragmentSize(FragmentOf(m, s)) <= DEFAULT_MAX_BUFFER_BYTES
  {
    hide Good, FragmentSize, SumSizes, Stored, Sendable, Needed, Kept;
    GrownBytes(m, bound, seen, s);
    if seen != {} {
      OneMessage(p, m.id);
      KeptBytes(m.id, p.buffers[m.id]);
    }
  }

  /** The default limits leave room for the message, so nothing is evicted. */
  lemma RoomForAll(p: Pool, m: Message, bound: nat, seen: set<nat>, s: nat)
    requires Sendable(m, bound) && Holding(p, m, seen) && s < |m.shards| && s !in seen
    ensures Good(p) && Coherent(p) && Accepted(p, FragmentOf(m, s))
    ensures MakeRoom(p, FragmentSize(FragmentOf(m, s)), DEFAULT_LIMITS) == p
  {
    hide MakeRoom, Good, FragmentSize;
    GoodIsCoherent(p);
    AcceptedFragment(m, bound, s);
    TotalBound(p, m, bound, seen, s);
    if seen != {} { OneMessage(p, m.id); }
    StayPut(p, FragmentSize(FragmentOf(m, s)), DEFAULT_LIMITS);
  }

  /* ----- one arrival ----- */

  lemma AddIsInsert(p: Pool, f: Fragment, limits: Limits, now: nat)
    requires Coherent(p) && Accepted(p, f) && MakeRoom(p, FragmentSize(f), limits) == p
    ensures AddFragment(p, f, limits, now) == Insert(p, f, now)
  {
    hide MakeRoom, Insert, Coherent;
  }

  lemma InsertCompletes(p: Pool, f: Fragment, now: nat)
    requires Coherent(p) && Target(p, f, now).Ok?
    requires IsComplete(Store(Target(p, f, now).value, f, now))
    ensures var b := Store(Target(p, f, now).value, f, now);
      Insert(p, f, now) == (Pool(p.buffers - {f.messageId}, Without(p.order, f.messageId),
                                 Max(0, p.total + FragmentSize(f) - b.bufferedBytes)), Assembled(b))
  {
    hide Target, Assembled, Coherent, Without, FragmentSize;
  }

  lemma InsertStores(p: Pool, f: Fragment, now: nat)
    requires Coherent(p) && Target(p, f, now).Ok?
    requires !IsComplete(Store(Target(p, f, now).value, f, now))
    ensures var b := Store(Target(p, f, now).value, f, now);
      Insert(p, f, now) == (Pool(p.buffers[f.messageId := b],
                                 if f.messageId !in p.buffers then p.order + [f.messageId] else p.order,
                                 p.total + FragmentSize(f)), Pending)
  {
    hide Target, Assembled, Coherent, Without, FragmentSize;
  }

  lemma TargetHolds(p: Pool, m: Message, seen: set<nat>, s: nat, now: nat)
    requires Holding(p, m, seen) && s < |m.shards| && s !in seen
    ensures Target(p, FragmentOf(m, s), now).Ok?
    ensures var b := Target(p, FragmentOf(m, s), now).value;
      && Holds(b, m, seen)
      && b.bufferedBytes == if m.id in p.buffers then p.buffers[m.id].bufferedBytes else 0
  {
    hide Good;
    if seen == {} { assert Stored(m, {}) == map[]; }
  }

  lemma StoreHolds(b: Buffer, m: Message, seen: set<nat>, s: nat, now: nat)
    requires Holds(b, m, seen) && s < |m.shards| && s !in seen
    ensures Holds(Store(b, FragmentOf(m, s), now), m, seen + {s})
    ensures IsComplete(Store(b, FragmentOf(m, s), now))
       <==> if m.fec.None? then |seen + {s}| == |m.shards| else |seen + {s}| >= Needed(m)
  {
    assert b.fragments[s := FragmentOf(m, s)] == Stored(m, seen + {s});
    assert |seen + {s}| == |seen| + 1;
  }

  /** A repeated fragment changes nothing and returns nothing. */
  lemma RepeatIsIgnored(p: Pool, m: Message, bound: nat, seen: set<nat>, s: nat, now: nat)
    requires Sendable(m, bound) && Holding(p, m, seen) && s in seen
    ensures Coherent(p)
    ensures AddFragment(p, FragmentOf(m, s), DEFAULT_LIMITS, now) == (p, Pending)
  {
    hide MakeRoom, Insert, Good;
    GoodIsCoherent(p);
    AcceptedFragment(m, bound, s);
  }

  /** A new fragment that leaves others needed is stored. */
  lemma NewFragmentIsStored(p: Pool, m: Message, bound: nat, seen: set<nat>, s: nat, now: nat)
    requires Sendable(m, bound) && Holding(p, m, seen)
    requires s < |m.shards| && s !in seen && |seen + {s}| < Needed(m)
    ensures Coherent(p)
    ensures var (q, outcome) := AddFragment(p, FragmentOf(m, s), DEFAULT_LIMITS, now);
            outcome == Pending && Holding(q, m, seen + {s})
  {
    hide MakeRoom, Good, Target, Assembled, Insert, AddFragment, Store, Stored, FragmentSize, Coherent, IsComplete,
         Holding, Holds, Sendable, Accepted;
    var f := FragmentOf(m, s);
    RoomForAll(p, m, bound, seen, s);
    AddIsInsert(p, f, DEFAULT_LIMITS, now);
    TargetHolds(p, m, seen, s, now);
    StoreHolds(Target(p, f, now).value, m, seen, s, now);
    InsertStores(p, f, now);
    AddKeepsGood(p, f, DEFAULT_LIMITS, now);
    HoldingGrows(p, m, seen, s, Store(Target(p, f, now).value, f, now), FragmentSize(f));
  }

  lemma HoldingGrows(p: Pool, m: Message, seen: set<nat>, s: nat, b: Buffer, size: nat)
    requires Holding(p, m, seen) && s < |m.shards| && |seen + {s}| < Needed(m) && Holds(b, m, seen + {s})
    requires Good(Pool(p.buffers[m.id := b], if m.id !in p.buffers then p.order + [m.id] else p.order,
                       p.total + size))
    ensures Holding(Pool(p.buffers[m.id := b], if m.id !in p.buffers then p.order + [m.id] else p.order,
                         p.total + size), m, seen + {s})
  {
    hide Good, Stored;
  }

  lemma {:induction false} PartsDependOnFragments(a: Buffer, b: Buffer, n: nat)
    requires a.fragments == b.fragments
    ensures Parts(a, n) == Parts(b, n)
  {
    if n > 0 { PartsDependOnFragments(a, b, n - 1); }
  }

  lemma AssembledDependsOnFragments(b: Buffer, m: Message, seen: set<nat>)
    requires Holds(b, m, seen)
    ensures Assembled(b) == DeliveredBy(m, seen)
  {
    hide Parts, Flat, Decoded;
    var c := Buffer(Stored(m, seen), |m.shards|, |seen|, 0, 0, 0, m.fec);
    PartsDependOnFragments(b, c, |m.shards|);
    assert ShardsOf(b) == ShardsOf(c);
  }

  lemma EmptiedPool(p: Pool, m: Message, seen: set<nat>, b: Buffer, size: nat)
    requires Holding(p, m, seen)
    requires b.bufferedBytes == size + if m.id in p.buffers then p.buffers[m.id].bufferedBytes else 0
    ensures Pool(p.buffers - {m.id}, Without(p.order, m.id), Max(0, p.total + size - b.bufferedBytes))
         == EMPTY_POOL
  {
    hide Good;
    if seen != {} {
      OneMessage(p, m.id);
      assert Without(p.order, m.id) == [];
    }
  }

  /** The last fragment needed delivers and leaves the reassembler empty. */
  lemma LastFragmentDelivers(p: Pool, m: Message, bound: nat, seen: set<nat>, s: nat, now: nat)
    requires Sendable(m, bound) && Holding(p, m, seen)
    requires s < |m.shards| && s !in seen && |seen + {s}| == Needed(m)
    ensures Coherent(p)
    ensures AddFragment(p, FragmentOf(m, s), DEFAULT_LIMITS, now) == (EMPTY_POOL, DeliveredBy(m, seen + {s}))
  {
    hide MakeRoom, Good, Target, Assembled, Insert, AddFragment, Stored, FragmentSize, Coherent, IsComplete,
         Without, DeliveredBy, Holding, Holds, Accepted;
    var f := FragmentOf(m, s);
    RoomForAll(p, m, bound, seen, s);
    AddIsInsert(p, f, DEFAULT_LIMITS, now);
    TargetHolds(p, m, seen, s, now);
    var b := Target(p, f, now).value;
    StoreHolds(b, m, seen, s, now);
    InsertCompletes(p, f, now);
    AssembledDependsOnFragments(Store(b, f, now), m, seen + {s});
    EmptiedPool(p, m, seen, Store(b, f, now), FragmentSize(f));
  }

  /* ----- any order, any repeats ----- */

  ghost function SeenBy(order: seq<nat>): set<nat> { set i | 0 <= i < |order| :: order[i] }

  lemma SeenStep(order: seq<nat>)
    requires order != []
    ensures SeenBy(order) == SeenBy(order[..|order| - 1]) + {order[|order| - 1]}
  {}

  ghost predicate Feedable(m: Message, bound: nat, order: seq<nat>, times: seq<nat>) {
    && Sendable(m, bound) && |times| == |order|
    && forall i :: 0 <= i < |order| ==> order[i] < |m.shards|
  }

  /** The contents after feeding the fragments in this order to a fresh default reassembler. */
  ghost function Fed(m: Message, order: seq<nat>, times: seq<nat>): (p: Pool)
    requires |times| == |order| && forall i :: 0 <= i < |order| ==> order[i] < |m.shards|
    ensures Good(p)
    decreases |order|
  {
    if order == [] then EMPTY_POOL
    else
      var k := |order| - 1;
      var before := Fed(m, order[..k], times[..k]);
      GoodIsCoherent(before);
      AddKeepsGood(before, FragmentOf(m, order[k]), DEFAULT_LIMITS, times[k]);
      AddFragment(before, FragmentOf(m, order[k]), DEFAULT_LIMITS, times[k]).0
  }

  /** What the reassembler returned for the i-th fragment fed. */
  ghost function Answer(m: Message, order: seq<nat>, times: seq<nat>, i: nat): Outcome
    requires |times| == |order| && forall j :: 0 <= j < |order| ==> order[j] < |m.shards|
    requires i < |order|
  {
    var before := Fed(m, order[..i], times[..i]);
    GoodIsCoherent(before);
    AddFragment(before, FragmentOf(m, order[i]), DEFAULT_LIMITS, times[i]).1
  }

  lemma FedStep(m: Message, order: seq<nat>, times: seq<nat>)
    requires |times| == |order| && forall j :: 0 <= j < |order| ==> order[j] < |m.shards|
    requires order != []
    ensures var k := |order| - 1;
      var before := Fed(m, order[..k], times[..k]);
      && Coherent(before)
      && (Fed(m, order, times), Answer(m, order, times, k))
           == AddFragment(before, FragmentOf(m, order[k]), DEFAULT_LIMITS, times[k])
  {
    hide AddFragment, FragmentOf, Good;
    var k := |order| - 1;
    GoodIsCoherent(Fed(m, order[..k], times[..k]));
  }

  lemma SizeGrows(a: set<nat>, s: nat)
    ensures |a| <= |a + {s}|
  {
    SubsetSize(a, a + {s});
  }

  lemma {:induction false} FeedingHolds(m: Message, bound: nat, order: seq<nat>, times: seq<nat>)
    requires Feedable(m, bound, order, times) && |SeenBy(order)| < Needed(m)
    ensures Holding(Fed(m, order, times), m, SeenBy(order))
    ensures order != [] ==> Answer(m, order, times, |order| - 1) == Pending
    decreases |order|
  {
    hide FragmentOf, AddFragment, Good, Fed, Answer, Needed, Stored, Holds, SeenBy;
    if order == [] {
      EmptyHolds(m);
      assert SeenBy(order) == {} && Fed(m, order, times) == EMPTY_POOL by { NothingFed(m, order, times); }
    } else {
      var k := |order| - 1;
      var front, s := order[..k], order[k];
      SeenStep(order);
      SizeGrows(SeenBy(front), s);
      FeedingHolds(m, bound, front, times[..k]);
      FedStep(m, order, times);
      var p := Fed(m, front, times[..k]);
      if s in SeenBy(front) {
        assert SeenBy(order) == SeenBy(front);
        RepeatIsIgnored(p, m, bound, SeenBy(front), s, times[k]);
      } else {
        NewFragmentIsStored(p, m, bound, SeenBy(front), s, times[k]);
      }
    }
  }

  lemma NothingFed(m: Message, order: seq<nat>, times: seq<nat>)
    requires order == [] && times == []
    ensures SeenBy(order) == {} && Fed(m, order, times) == EMPTY_POOL
  {}

  lemma EmptyHolds(m: Message)
    requires Needed(m) > 0
    ensures Holding(EMPTY_POOL, m, {})
  {}

  lemma EarlyAnswer(m: Message, bound: nat, order: seq<nat>, times: seq<nat>, i: nat)
    requires Feedable(m, bound, order, times) && i < |order| - 1
    requires |SeenBy(order[..|order| - 1])| < Needed(m)
    ensures Answer(m, order, times, i) == Pending
  {
    hide FragmentOf, AddFragment, Good, Fed;
    var prefix, front := order[..i + 1], order[..|order| - 1];
    SubsetSize(SeenBy(prefix), SeenBy(front));
    assert prefix[..i] == order[..i] && times[..i + 1][..i] == times[..i];
    FeedingHolds(m, bound, prefix, times[..i + 1]);
  }

  /** In any order and with any repeats before completion, the reassembler returns null until the last
      needed fragment; that one delivers what the received fragments give, and nothing is left behind. */
  lemma ArrivalDelivers(m: Message, bound: nat, order: seq<nat>, times: seq<nat>)
    requires Feedable(m, bound, order, times) && order != []
    requires |SeenBy(order)| == Needed(m) && |SeenBy(order[..|order| - 1])| < Needed(m)
    ensures forall i :: 0 <= i < |order| - 1 ==> Answer(m, order, times, i) == Pending
    ensures forall s :: s in SeenBy(order) ==> s < |m.shards|
    ensures Answer(m, order, times, |order| - 1) == DeliveredBy(m, SeenBy(order))
    ensures Fed(m, order, times) == EMPTY_POOL
  {
    hide Answer, Fed, Needed, Sendable, DeliveredBy, AddFragment, FragmentOf, Good, Stored, Holds;
    var k := |order| - 1;
    var front, s := order[..k], order[k];
    forall i | 0 <= i < k ensures Answer(m, order, times, i) == Pending {
      EarlyAnswer(m, bound, order, times, i);
    }
    FeedingHolds(m, bound, front, times[..k]);
    SeenStep(order);
    assert s in SeenBy(front) ==> SeenBy(order) == SeenBy(front);
    LastFragmentDelivers(Fed(m, front, times[..k]), m, bound, SeenBy(front), s, times[k]);
    FedStep(m, order, times);
  }

  /* ----- plain messages and erasure-coded messages ----- */

  lemma AllOf(n: nat, seen: set<nat>)
    requires |seen| == n && forall s :: s in seen ==> s < n
    ensures seen == Below(n)
  {
    assert seen <= Below(n);
    assert |Below(n) - seen| == 0;
  }

  lemma {:induction false} PartsAreShards(m: Message, seen: set<nat>, b: Buffer, n: nat)
    requires Holds(b, m, seen) && n <= |m.shards| && forall s: nat :: s < n ==> s in seen
    ensures Parts(b, n) == m.shards[..n]
  {
    if n > 0 { PartsAreShards(m, seen, b, n - 1); }
  }

  /** A message without erasure coding is the concatenation of all its shards. */
  lemma PlainDelivery(m: Message, seen: set<nat>)
    requires m.fec.None? && |seen| == |m.shards| && forall s :: s in seen ==> s < |m.shards|
    ensures DeliveredBy(m, seen) == Delivered(Flat(m.shards))
  {
    hide Parts, Flat;
    var n := |m.shards|;
    AllOf(n, seen);
    var b := Buffer(Stored(m, seen), n, |seen|, 0, 0, 0, m.fec);
    PartsAreShards(m, seen, b, n);
    assert m.shards[..n] == m.shards;
  }

  lemma {:induction false} IndicesCount(shards: Shards, seen: set<nat>, n: nat)
    requires n <= |shards| && forall i: nat :: i < |shards| ==> (shards[i].Some? <==> i in seen)
    ensures |Indices(shards, n)| == |Part(seen, n)|
  {
    if n == 0 {
      assert Part(seen, 0) == {};
    } else {
      IndicesCount(shards, seen, n - 1);
      assert Part(seen, n) == Part(seen, n - 1) + if n - 1 in seen then {n - 1} else {};
    }
  }

  /** The shards of an erasure-coded message. */
  ghost predicate IsEncodingOf(m: Message, data: seq<Vec>, size: nat) {
    && m.fec.Some? && 1 <= m.fec.value.dataShardCount <= |m.shards| <= MAX_SHARDS
    && IsMatrix(data, m.fec.value.dataShardCount, size)
    && forall r :: 0 <= r < |m.shards| ==>
         m.shards[r] == Combine(EncodeMatrix(|m.shards|, m.fec.value.dataShardCount)[r], data, size)
  }

  /** Any dataShardCount fragments of an erasure-coded message deliver the original bytes. */
  lemma CodedDelivery(m: Message, data: seq<Vec>, size: nat, seen: set<nat>)
    requires IsEncodingOf(m, data, size) && size > 0
    requires |seen| == m.fec.value.dataShardCount && forall s :: s in seen ==> s < |m.shards|
    requires m.fec.value.originalDataLen <= m.fec.value.dataShardCount * size
    ensures |Flat(data)| == m.fec.value.dataShardCount * size
    ensures DeliveredBy(m, seen) == Delivered(Flat(data)[..m.fec.value.originalDataLen])
  {
    hide Flat, Decoded, EncodeMatrix, Combine, Indices, Recoverable;
    var k, n := m.fec.value.dataShardCount, |m.shards|;
    var shards := ShardsOf(Buffer(Stored(m, seen), n, |seen|, 0, 0, 0, m.fec));
    IndicesCount(shards, seen, n);
    assert Part(seen, n) == seen;
    assert Encodes(shards, data, k, size);
    AnyKOfN(shards, data, k, size, m.fec.value.originalDataLen);
  }

  /** Erasure-coded transfer end to end: whichever k of the n fragments arrive first, in whatever order
      and with whatever repeats, the k-th distinct one delivers the original bytes. */
  lemma CodedFragmentsReassemble(m: Message, data: seq<Vec>, size: nat, order: seq<nat>, times: seq<nat>)
    requires IsEncodingOf(m, data, size) && size > 0
    requires m.fec.value.originalDataLen <= m.fec.value.dataShardCount * size
    requires Feedable(m, size + 34, order, times) && order != []
    requires |SeenBy(order)| == m.fec.value.dataShardCount
    requires |SeenBy(order[..|order| - 1])| < m.fec.value.dataShardCount
    ensures forall i :: 0 <= i < |order| - 1 ==> Answer(m, order, times, i) == Pending
    ensures |Flat(data)| == m.fec.value.dataShardCount * size
    ensures Answer(m, order, times, |order| - 1) == Delivered(Flat(data)[..m.fec.value.originalDataLen])
    ensures Fed(m, order, times) == EMPTY_POOL
  {
    hide Answer, Fed, DeliveredBy, Flat, SeenBy, IsEncodingOf;
    assert m.fec.Some? by { CodedShape(m, data, size); }
    ArrivalDelivers(m, size + 34, order, times);
    CodedDelivery(m, data, size, SeenBy(order));
  }

  lemma CodedShape(m: Message, data: seq<Vec>, size: nat)
    requires IsEncodingOf(m, data, size)
    ensures m.fec.Some?
  {}
}
