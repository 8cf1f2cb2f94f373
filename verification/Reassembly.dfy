/** What the fragment reassembler keeps and returns, as functions on its contents, and the invariant
    that every operation, including the rejecting ones, preserves. */
module Reassembly {
  import opened LinearAlgebra
  import opened ByteBuffers
  import opened ShardDecoder
  import opened Outcomes

  const MAX_FRAGMENTS_PER_MESSAGE: nat := 9500

  datatype Fec = Fec(dataShardCount: nat, originalDataLen: nat)

  datatype Fragment = Fragment(
    messageId: nat, totalFragments: nat, sequence: nat, data: Vec, fec: Option<Fec>)

  datatype Buffer = Buffer(
    fragments: map<nat, Fragment>, expectedTotal: nat, receivedCount: nat, bufferedBytes: nat,
    createdAt: nat, lastActivity: nat, fecInfo: Option<Fec>)

  datatype Limits = Limits(maxBufferBytes: nat, maxConcurrentMessages: nat)

  /** The buffers by message, the messages in the order they were first stored, the byte counter. */
  datatype Pool = Pool(buffers: map<nat, Buffer>, order: seq<nat>, total: nat)

  datatype Rejection = TooManyFragments | SequenceOutOfRange | BadShardCount
                     | DuplicateDiffers | TotalMismatch | FecMismatch

  datatype Outcome = Rejected(reason: Rejection) | Pending | Delivered(message: Vec)
                   | DecodeFailed(error: DecodeError)

  const EMPTY_POOL := Pool(map[], [], 0)

  /* ----- pieces ----- */

  function FragmentSize(f: Fragment): nat {
    21 + |f.data| + if f.fec.Some? then 13 else 1
  }

  function Invalid(f: Fragment): Option<Rejection> {
    if f.totalFragments > MAX_FRAGMENTS_PER_MESSAGE then Some(TooManyFragments)
    else if f.sequence >= f.totalFragments then Some(SequenceOutOfRange)
    else if f.fec.Some? && (f.fec.value.dataShardCount == 0 || f.fec.value.dataShardCount > f.totalFragments)
      then Some(BadShardCount)
    else None
  }

  predicate IsComplete(b: Buffer) {
    if b.fecInfo.Some? then b.receivedCount >= b.fecInfo.value.dataShardCount
    else b.receivedCount == b.expectedTotal
  }

  function NewBuffer(f: Fragment, now: nat): Buffer {
    Buffer(map[], f.totalFragments, 0, 0, now, now, f.fec)
  }

  /** The shard list handed to the decoder: the data of each stored sequence, in order. */
  function ShardsOf(b: Buffer): (s: Shards)
    ensures |s| == b.expectedTotal
    ensures forall i :: 0 <= i < |s| ==>
      s[i] == if i in b.fragments then Some(b.fragments[i].data) else None
  {
    seq(b.expectedTotal, i requires 0 <= i < b.expectedTotal =>
      if i in b.fragments then Some(b.fragments[i].data) else None)
  }

  /** Data of the stored sequences below n, in order. */
  function Parts(b: Buffer, n: nat): seq<Vec> {
    if n == 0 then []
    else Parts(b, n - 1) + if n - 1 in b.fragments then [b.fragments[n - 1].data] else []
  }

  ghost function Assembled(b: Buffer): Outcome {
    if b.fecInfo.None? then Delivered(Flat(Parts(b, b.expectedTotal)))
    else
      var k, len := b.fecInfo.value.dataShardCount, b.fecInfo.value.originalDataLen;
      match Decoded(ShardsOf(b), k, len)
      case Ok(message) => Delivered(message)
      case Err(error) => DecodeFailed(error)
  }

  /* ----- eviction ----- */

  /** Position of the first message, in storage order, among those idle longest. */
  function OldestBefore(p: Pool, n: nat): (i: nat)
    requires 0 < n <= |p.order| && forall j :: 0 <= j < |p.order| ==> p.order[j] in p.buffers
    ensures i < n
    ensures forall j :: 0 <= j < i ==> p.buffers[p.order[i]].lastActivity < p.buffers[p.order[j]].lastActivity
    ensures forall j :: i < j < n ==> p.buffers[p.order[i]].lastActivity <= p.buffers[p.order[j]].lastActivity
  {
    if n == 1 then 0
    else
      var i := OldestBefore(p, n - 1);
      if p.buffers[p.order[n - 1]].lastActivity < p.buffers[p.order[i]].lastActivity then n - 1 else i
  }

  function Without(ids: seq<nat>, id: nat): (r: seq<nat>)
    ensures forall x :: x in r <==> x in ids && x != id
    ensures |r| <= |ids| && (id in ids ==> |r| < |ids|)
  {
    if ids == [] then []
    else (if ids[0] == id then [] else [ids[0]]) + Without(ids[1..], id)
  }

  /** Forgets a message and takes its bytes off the counter, not below 0. */
  function Drop(p: Pool, id: nat): Pool
    requires id in p.buffers
  {
    Pool(p.buffers - {id}, Without(p.order, id), Max(0, p.total - p.buffers[id].bufferedBytes))
  }

  function OldestId(p: Pool): (id: nat)
    requires Coherent(p) && p.order != []
    ensures id in p.buffers && id in p.order
  {
    p.order[OldestBefore(p, |p.order|)]
  }

  predicate Crowded(p: Pool, needed: nat, limits: Limits) {
    p.total + needed > limits.maxBufferBytes || |p.order| >= limits.maxConcurrentMessages
  }

  ghost function MakeRoom(p: Pool, needed: nat, limits: Limits): Pool
    requires Coherent(p)
    decreases |p.order|
  {
    if Crowded(p, needed, limits) && |p.order| > 0 then
      DropKeepsCoherent(p, OldestId(p));
      MakeRoom(Drop(p, OldestId(p)), needed, limits)
    else p
  }

  /* ----- the invariant ----- */

  ghost predicate NoRepeats(ids: seq<nat>) {
    forall i, j :: 0 <= i < j < |ids| ==> ids[i] != ids[j]
  }

  /** The order lists exactly the stored messages, each once. */
  ghost predicate Coherent(p: Pool) {
    && (forall i :: 0 <= i < |p.order| ==> p.order[i] in p.buffers)
    && (forall id :: id in p.buffers ==> id in p.order)
    && NoRepeats(p.order)
  }

  ghost function SumBytes(ids: seq<nat>, m: map<nat, Buffer>): nat
    requires forall i :: 0 <= i < |ids| ==> ids[i] in m
  {
    if ids == [] then 0 else m[ids[0]].bufferedBytes + SumBytes(ids[1..], m)
  }

  ghost function SumSizes(fragments: map<nat, Fragment>, n: nat): nat {
    if n == 0 then 0
    else SumSizes(fragments, n - 1) + if n - 1 in fragments then FragmentSize(fragments[n - 1]) else 0
  }

  /** The counters of one buffer are exact and its fragments belong together. */
  ghost predicate BufferOk(id: nat, b: Buffer) {
    && b.receivedCount == |b.fragments|
    && b.bufferedBytes == SumSizes(b.fragments, b.expectedTotal)
    && b.expectedTotal <= MAX_FRAGMENTS_PER_MESSAGE
    && (b.fecInfo.Some? ==> 1 <= b.fecInfo.value.dataShardCount <= b.expectedTotal)
    && (forall s :: s in b.fragments ==> s < b.expectedTotal)
    && (forall s :: s in b.fragments ==>
          var f := b.fragments[s];
          f.messageId == id && f.sequence == s && f.totalFragments == b.expectedTotal && Invalid(f).None?)
  }

  ghost predicate Kept(id: nat, b: Buffer) {
    BufferOk(id, b) && b.receivedCount > 0 && !IsComplete(b)
  }

  ghost predicate Good(p: Pool) {
    && Coherent(p)
    && p.total == SumBytes(p.order, p.buffers)
    && forall id :: id in p.buffers ==> Kept(id, p.buffers[id])
  }

  ghost predicate WithinLimits(p: Pool, limits: Limits) {
    p.total <= limits.maxBufferBytes && |p.order| <= limits.maxConcurrentMessages
  }

  /* ----- the operations ----- */

  function Store(b: Buffer, f: Fragment, now: nat): Buffer {
    b.(fragments := b.fragments[f.sequence := f],
       receivedCount := b.receivedCount + 1,
       bufferedBytes := b.bufferedBytes + FragmentSize(f),
       lastActivity := now)
  }

  /** The buffer a fragment goes to, with the erasure parameters it brings. */
  function Target(p: Pool, f: Fragment, now: nat): Result<Buffer, Rejection> {
    var b := if f.messageId in p.buffers then p.buffers[f.messageId] else NewBuffer(f, now);
    if f.totalFragments != b.expectedTotal then Err(TotalMismatch)
    else if f.fec.None? then Ok(b)
    else if b.fecInfo.None? then Ok(b.(fecInfo := f.fec))
    else if b.fecInfo != f.fec then Err(FecMismatch)
    else Ok(b)
  }

  ghost function Insert(p: Pool, f: Fragment, now: nat): (Pool, Outcome)
    requires Coherent(p)
  {
    match Target(p, f, now)
    case Err(reason) => (p, Rejected(reason))
    case Ok(b) =>
      var b' := Store(b, f, now);
      var isNew := f.messageId !in p.buffers;
      if !IsComplete(b') then
        (Pool(p.buffers[f.messageId := b'], if isNew then p.order + [f.messageId] else p.order,
              p.total + FragmentSize(f)), Pending)
      else
        (Pool(p.buffers - {f.messageId}, Without(p.order, f.messageId),
              Max(0, p.total + FragmentSize(f) - b'.bufferedBytes)), Assembled(b'))
  }

  ghost function AddFragment(p: Pool, f: Fragment, limits: Limits, now: nat): (Pool, Outcome)
    requires Coherent(p)
  {
    if Invalid(f).Some? then (p, Rejected(Invalid(f).value))
    else if f.messageId in p.buffers && f.sequence in p.buffers[f.messageId].fragments then
      (p, if p.buffers[f.messageId].fragments[f.sequence].data == f.data then Pending
          else Rejected(DuplicateDiffers))
    else
      MakeRoomKeepsCoherent(p, FragmentSize(f), limits);
      Insert(MakeRoom(p, FragmentSize(f), limits), f, now)
  }

  predicate IsStale(b: Buffer, cutoff: int) { b.createdAt < cutoff }

  function StaleIds(p: Pool, cutoff: int, n: nat): (ids: seq<nat>)
    requires n <= |p.order| && forall i :: 0 <= i < |p.order| ==> p.order[i] in p.buffers
    ensures forall id :: id in ids <==> id in p.order[..n] && IsStale(p.buffers[id], cutoff)
    ensures |ids| <= n
  {
    if n == 0 then []
    else
      assert p.order[..n] == p.order[..n - 1] + [p.order[n - 1]];
      StaleIds(p, cutoff, n - 1) + if IsStale(p.buffers[p.order[n - 1]], cutoff) then [p.order[n - 1]] else []
  }

  ghost function DropAll(p: Pool, ids: seq<nat>): Pool
    requires Coherent(p)
    decreases |ids|
  {
    if ids == [] then p
    else if ids[0] in p.buffers then
      DropKeepsCoherent(p, ids[0]);
      DropAll(Drop(p, ids[0]), ids[1..])
    else DropAll(p, ids[1..])
  }

  ghost function Prune(p: Pool, cutoff: int): Pool
    requires Coherent(p)
  {
    DropAll(p, StaleIds(p, cutoff, |p.order|))
  }

  /* ----- sums ----- */

  lemma {:induction false} SumOfConcat(a: seq<nat>, b: seq<nat>, m: map<nat, Buffer>)
    requires forall i :: 0 <= i < |a| ==> a[i] in m
    requires forall i :: 0 <= i < |b| ==> b[i] in m
    ensures forall i :: 0 <= i < |a + b| ==> (a + b)[i] in m
    ensures SumBytes(a + b, m) == SumBytes(a, m) + SumBytes(b, m)
  {
    if a == [] {
      assert a + b == b;
    } else {
      SumOfConcat(a[1..], b, m);
      assert (a + b)[1..] == a[1..] + b;
    }
  }

  lemma {:induction false} SumFrame(ids: seq<nat>, m: map<nat, Buffer>, m': map<nat, Buffer>)
    requires forall i :: 0 <= i < |ids| ==> ids[i] in m && ids[i] in m' && m[ids[i]] == m'[ids[i]]
    ensures SumBytes(ids, m) == SumBytes(ids, m')
  {
    if ids != [] { SumFrame(ids[1..], m, m'); }
  }

  lemma {:induction false} WithoutAbsent(ids: seq<nat>, id: nat)
    requires id !in ids
    ensures Without(ids, id) == ids
  {
    if ids != [] { WithoutAbsent(ids[1..], id); }
  }

  lemma {:induction false} WithoutNoRepeats(ids: seq<nat>, id: nat)
    requires NoRepeats(ids)
    ensures NoRepeats(Without(ids, id))
  {
    if ids != [] {
      WithoutNoRepeats(ids[1..], id);
      var rest := Without(ids[1..], id);
      forall j | 0 <= j < |rest| ensures rest[j] != ids[0] {
        assert rest[j] in ids[1..];
      }
      assert ids[0] != id ==> Without(ids, id) == [ids[0]] + rest;
      assert ids[0] == id ==> Without(ids, id) == rest;
    }
  }

  /** Taking one message out of the sum. */
  lemma {:induction false} SumWithout(ids: seq<nat>, id: nat, m: map<nat, Buffer>)
    requires NoRepeats(ids) && id in ids && forall i :: 0 <= i < |ids| ==> ids[i] in m
    ensures forall i :: 0 <= i < |Without(ids, id)| ==> Without(ids, id)[i] in m
    ensures SumBytes(ids, m) == SumBytes(Without(ids, id), m) + m[id].bufferedBytes
  {
    var rest := ids[1..];
    forall i | 0 <= i < |Without(ids, id)| ensures Without(ids, id)[i] in m {
      assert Without(ids, id)[i] in ids;
    }
    if ids[0] == id {
      WithoutAbsent(rest, id);
      assert Without(ids, id) == rest;
    } else {
      SumWithout(rest, id, m);
      assert Without(ids, id) == [ids[0]] + Without(rest, id);
      assert Without(ids, id)[1..] == Without(rest, id);
    }
  }

  lemma {:induction false} SizesFrame(a: map<nat, Fragment>, b: map<nat, Fragment>, n: nat)
    requires forall s :: 0 <= s < n ==> (s in a <==> s in b) && (s in a ==> a[s] == b[s])
    ensures SumSizes(a, n) == SumSizes(b, n)
  {
    if n > 0 { SizesFrame(a, b, n - 1); }
  }

  lemma {:induction false} SizesInsert(a: map<nat, Fragment>, f: Fragment, n: nat)
    requires f.sequence < n && f.sequence !in a
    ensures SumSizes(a[f.sequence := f], n) == SumSizes(a, n) + FragmentSize(f)
  {
    if f.sequence == n - 1 {
      SizesFrame(a, a[f.sequence := f], n - 1);
    } else {
      SizesInsert(a, f, n - 1);
    }
  }

  lemma SizesEmpty(n: nat)
    ensures SumSizes(map[], n) == 0
  {}

  /* ----- every operation keeps the invariant ----- */

  lemma DropKeepsCoherent(p: Pool, id: nat)
    requires Coherent(p) && id in p.buffers
    ensures Coherent(Drop(p, id)) && |Drop(p, id).order| < |p.order|
  {
    hide NoRepeats;
    WithoutNoRepeats(p.order, id);
    var q := Drop(p, id);
    forall i | 0 <= i < |q.order| ensures q.order[i] in q.buffers {
      assert q.order[i] in q.order;
    }
  }

  lemma {:induction false} MakeRoomKeepsCoherent(p: Pool, needed: nat, limits: Limits)
    requires Coherent(p)
    ensures Coherent(MakeRoom(p, needed, limits))
    decreases |p.order|
  {
    hide OldestId, Drop, Coherent;
    if Crowded(p, needed, limits) && |p.order| > 0 {
      DropKeepsCoherent(p, OldestId(p));
      MakeRoomKeepsCoherent(Drop(p, OldestId(p)), needed, limits);
    }
  }

  /** Dropping a message: the counter stays exact, so its clamp at zero never bites. */
  lemma DropKeepsGood(p: Pool, id: nat)
    requires Good(p) && id in p.buffers
    ensures Good(Drop(p, id))
    ensures p.total >= p.buffers[id].bufferedBytes
    ensures Drop(p, id).total == p.total - p.buffers[id].bufferedBytes
  {
    hide Kept, NoRepeats, Without;
    DropKeepsCoherent(p, id);
    SumWithout(p.order, id, p.buffers);
    SumFrame(Without(p.order, id), p.buffers, Drop(p, id).buffers);
  }

  /** Eviction stops with room for the fragment, or with nothing left to evict. */
  lemma {:induction false} MakeRoomKeepsGood(p: Pool, needed: nat, limits: Limits)
    requires Good(p)
    ensures Good(MakeRoom(p, needed, limits))
    ensures var q := MakeRoom(p, needed, limits);
            (q.order == [] && q.total == 0 && q.buffers == map[]) || !Crowded(q, needed, limits)
    ensures WithinLimits(p, limits) ==> WithinLimits(MakeRoom(p, needed, limits), limits)
    decreases |p.order|
  {
    hide Kept, OldestId, Without;
    if Crowded(p, needed, limits) && |p.order| > 0 {
      DropKeepsCoherent(p, OldestId(p));
      DropKeepsGood(p, OldestId(p));
      MakeRoomKeepsGood(Drop(p, OldestId(p)), needed, limits);
    }
  }

  lemma NewBufferOk(f: Fragment, now: nat)
    requires Invalid(f).None?
    ensures BufferOk(f.messageId, NewBuffer(f, now))
  {
    SizesEmpty(f.totalFragments);
  }

  lemma StoreKeepsBufferOk(b: Buffer, f: Fragment, now: nat)
    requires BufferOk(f.messageId, b) && Invalid(f).None? && f.sequence !in b.fragments
    requires f.totalFragments == b.expectedTotal
    ensures BufferOk(f.messageId, Store(b, f, now))
    ensures Store(b, f, now).bufferedBytes == b.bufferedBytes + FragmentSize(f)
  {
    SizesInsert(b.fragments, f, b.expectedTotal);
    assert b.fragments[f.sequence := f].Keys == b.fragments.Keys + {f.sequence};
    assert |b.fragments[f.sequence := f].Keys| == |b.fragments.Keys| + 1;
  }

  lemma TargetOk(p: Pool, f: Fragment, now: nat)
    requires Good(p) && Invalid(f).None? && Target(p, f, now).Ok?
    ensures var b := Target(p, f, now).value;
            && BufferOk(f.messageId, b) && b.expectedTotal == f.totalFragments
            && b.bufferedBytes == (if f.messageId in p.buffers then p.buffers[f.messageId].bufferedBytes else 0)
            && b.fragments == (if f.messageId in p.buffers then p.buffers[f.messageId].fragments else map[])
  {
    if f.messageId !in p.buffers { NewBufferOk(f, now); }
  }

  lemma ReplaceKeepsGood(p: Pool, id: nat, b: Buffer, grown: nat)
    requires Good(p) && id in p.buffers && Kept(id, b)
    requires b.bufferedBytes == p.buffers[id].bufferedBytes + grown
    ensures Good(Pool(p.buffers[id := b], p.order, p.total + grown))
  {
    hide Kept, NoRepeats, Without;
    var m := p.buffers[id := b];
    SumWithout(p.order, id, p.buffers);
    SumWithout(p.order, id, m);
    forall i | 0 <= i < |Without(p.order, id)| ensures Without(p.order, id)[i] != id {
      assert Without(p.order, id)[i] in Without(p.order, id);
    }
    SumFrame(Without(p.order, id), p.buffers, m);
  }

  lemma AppendKeepsCoherent(p: Pool, id: nat, b: Buffer, total: nat)
    requires Coherent(p) && id !in p.buffers
    ensures Coherent(Pool(p.buffers[id := b], p.order + [id], total))
  {
    assert (p.order + [id])[|p.order|] == id;
  }

  lemma AppendKeepsGood(p: Pool, id: nat, b: Buffer)
    requires Good(p) && id !in p.buffers && Kept(id, b)
    ensures Good(Pool(p.buffers[id := b], p.order + [id], p.total + b.bufferedBytes))
  {
    hide Kept;
    var m := p.buffers[id := b];
    AppendKeepsCoherent(p, id, b, p.total + b.bufferedBytes);
    SumOfConcat(p.order, [id], m);
    SumFrame(p.order, p.buffers, m);
    assert [id][1..] == [];
  }

  lemma InsertCompleteKeepsGood(p: Pool, f: Fragment, b: Buffer, now: nat)
    requires Good(p)
    requires b.bufferedBytes == if f.messageId in p.buffers then p.buffers[f.messageId].bufferedBytes else 0
    ensures p.total + FragmentSize(f) >= Store(b, f, now).bufferedBytes
    ensures Good(Pool(p.buffers - {f.messageId}, Without(p.order, f.messageId),
                      Max(0, p.total + FragmentSize(f) - Store(b, f, now).bufferedBytes)))
  {
    hide Good, Without, FragmentSize;
    GoodIsCoherent(p);
    var id := f.messageId;
    var left := Pool(p.buffers - {id}, Without(p.order, id),
                     Max(0, p.total + FragmentSize(f) - Store(b, f, now).bufferedBytes));
    if id in p.buffers {
      DropKeepsGood(p, id);
      assert left == Drop(p, id);
    } else {
      WithoutAbsent(p.order, id);
      assert p.buffers - {id} == p.buffers;
      assert left == p;
    }
  }

  lemma InsertKeepsGood(p: Pool, f: Fragment, now: nat)
    requires Good(p) && Invalid(f).None?
    requires f.messageId in p.buffers ==> f.sequence !in p.buffers[f.messageId].fragments
    ensures Good(Insert(p, f, now).0)
    ensures |Insert(p, f, now).0.order| <= |p.order| + 1
    ensures Insert(p, f, now).0.total <= p.total + FragmentSize(f)
  {
    hide Assembled, Kept, BufferOk, Target, Good, FragmentSize, Coherent, Without, IsComplete;
    assert Coherent(p) by { GoodIsCoherent(p); }
    if Target(p, f, now).Ok? {
      var b := Target(p, f, now).value;
      TargetOk(p, f, now);
      StoreKeepsBufferOk(b, f, now);
      var b' := Store(b, f, now);
      if IsComplete(b') {
        InsertCompleteKeepsGood(p, f, b, now);
      } else {
        KeptIs(f.messageId, b');
        if f.messageId in p.buffers {
          ReplaceKeepsGood(p, f.messageId, b', FragmentSize(f));
        } else {
          AppendKeepsGood(p, f.messageId, b');
        }
      }
    }
  }

  predicate Accepted(p: Pool, f: Fragment) {
    Invalid(f).None? && !(f.messageId in p.buffers && f.sequence in p.buffers[f.messageId].fragments)
  }

  lemma AddKeepsGood(p: Pool, f: Fragment, limits: Limits, now: nat)
    requires Good(p)
    ensures Good(AddFragment(p, f, limits, now).0)
  {
    hide MakeRoom, Insert, Good;
    assert Coherent(p) by { GoodIsCoherent(p); }
    if Accepted(p, f) {
      MakeRoomKeepsGood(p, FragmentSize(f), limits);
      MakeRoomShrinks(p, FragmentSize(f), limits);
      InsertKeepsGood(MakeRoom(p, FragmentSize(f), limits), f, now);
    }
  }

  lemma KeptIs(id: nat, b: Buffer)
    requires BufferOk(id, b) && b.receivedCount > 0 && !IsComplete(b)
    ensures Kept(id, b)
  {}

  /** Eviction removes whole messages and leaves the others as they are. */
  lemma {:induction false} MakeRoomShrinks(p: Pool, needed: nat, limits: Limits)
    requires Coherent(p)
    ensures Coherent(MakeRoom(p, needed, limits))
    ensures forall id :: id in MakeRoom(p, needed, limits).buffers ==>
      id in p.buffers && MakeRoom(p, needed, limits).buffers[id] == p.buffers[id]
    decreases |p.order|
  {
    hide OldestId, Without;
    if Crowded(p, needed, limits) && |p.order| > 0 {
      DropKeepsCoherent(p, OldestId(p));
      MakeRoomShrinks(Drop(p, OldestId(p)), needed, limits);
    }
  }

  /** A fragment that fits keeps the pool within its limits. */
  lemma AddKeepsLimits(p: Pool, f: Fragment, limits: Limits, now: nat)
    requires Good(p) && WithinLimits(p, limits)
    requires FragmentSize(f) <= limits.maxBufferBytes && limits.maxConcurrentMessages >= 1
    ensures WithinLimits(AddFragment(p, f, limits, now).0, limits)
  {
    hide MakeRoom, Insert, Good;
    assert Coherent(p) by { GoodIsCoherent(p); }
    if Accepted(p, f) {
      MakeRoomKeepsGood(p, FragmentSize(f), limits);
      MakeRoomShrinks(p, FragmentSize(f), limits);
      InsertKeepsGood(MakeRoom(p, FragmentSize(f), limits), f, now);
    }
  }

  lemma {:induction false} DropAllKeepsGood(p: Pool, ids: seq<nat>)
    requires Good(p)
    ensures Good(DropAll(p, ids))
    ensures |DropAll(p, ids).order| <= |p.order| && DropAll(p, ids).total <= p.total
    ensures forall id :: id in DropAll(p, ids).buffers <==> id in p.buffers && id !in ids
    ensures forall id :: id in DropAll(p, ids).buffers ==> DropAll(p, ids).buffers[id] == p.buffers[id]
    decreases |ids|
  {
    hide Kept, Without, NoRepeats, SumBytes;
    if ids != [] {
      if ids[0] in p.buffers {
        DropKeepsGood(p, ids[0]);
        DropKeepsCoherent(p, ids[0]);
        DropAllKeepsGood(Drop(p, ids[0]), ids[1..]);
      } else {
        DropAllKeepsGood(p, ids[1..]);
      }
    }
  }

  /** Pruning keeps exactly the messages created at or after the cutoff, untouched. */
  lemma PruneKeepsFresh(p: Pool, cutoff: int)
    requires Good(p)
    ensures var q := Prune(p, cutoff);
      && Good(q) && |q.order| <= |p.order| && q.total <= p.total
      && (forall id :: id in q.buffers <==> id in p.buffers && !IsStale(p.buffers[id], cutoff))
      && (forall id :: id in q.buffers ==> q.buffers[id] == p.buffers[id])
  {
    hide Kept, NoRepeats, SumBytes, StaleIds, DropAll;
    var ids := StaleIds(p, cutoff, |p.order|);
    assert p.order[..|p.order|] == p.order;
    DropAllKeepsGood(p, ids);
  }

  /* ----- whole runs ----- */

  datatype Op = Add(f: Fragment, now: nat) | PruneOlder(cutoff: int)

  ghost function Step(p: Pool, op: Op, limits: Limits): Pool
    requires Coherent(p)
  {
    match op
    case Add(f, now) => AddFragment(p, f, limits, now).0
    case PruneOlder(cutoff) => Prune(p, cutoff)
  }

  ghost function Run(ops: seq<Op>, limits: Limits): (p: Pool)
    ensures Good(p)
  {
    if ops == [] then EMPTY_POOL
    else
      var before := Run(ops[..|ops| - 1], limits);
      StepKeepsGood(before, ops[|ops| - 1], limits);
      Step(before, ops[|ops| - 1], limits)
  }

  lemma StepKeepsGood(p: Pool, op: Op, limits: Limits)
    requires Good(p)
    ensures Good(Step(p, op, limits))
  {
    hide Good, AddFragment, Prune;
    assert Coherent(p) by { GoodIsCoherent(p); }
    match op
    case Add(f, now) => AddKeepsGood(p, f, limits, now);
    case PruneOlder(cutoff) => PruneKeepsFresh(p, cutoff);
  }

  lemma GoodIsCoherent(p: Pool)
    requires Good(p)
    ensures Coherent(p)
  {}

  /** Over every run of adds (rejected ones included) and prunes: the counters are exact, every kept
      message is non-empty and incomplete, and if every fragment fits, the limits hold throughout. */
  lemma {:induction false} EveryRunIsGood(ops: seq<Op>, limits: Limits)
    requires limits.maxConcurrentMessages >= 1
    requires forall i :: 0 <= i < |ops| && ops[i].Add? ==> FragmentSize(ops[i].f) <= limits.maxBufferBytes
    ensures Good(Run(ops, limits)) && WithinLimits(Run(ops, limits), limits)
  {
    hide Good, AddFragment, Prune, SumBytes;
    if ops != [] {
      var before := Run(ops[..|ops| - 1], limits);
      EveryRunIsGood(ops[..|ops| - 1], limits);
      GoodIsCoherent(before);
      match ops[|ops| - 1]
      case Add(f, now) => AddKeepsLimits(before, f, limits, now);
      case PruneOlder(cutoff) => PruneKeepsFresh(before, cutoff);
    }
  }
}
