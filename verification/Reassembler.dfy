/** The reassembler object: it updates its buffer map and byte counter in place, and does exactly what
    the functions of module Reassembly say. */
module ReassemblerObject {
  import opened LinearAlgebra
  import opened ByteBuffers
  import opened ShardDecoder
  import opened Outcomes
  import opened Reassembly

  const DEFAULT_MAX_BUFFER_BYTES: nat := 300 * 1024 * 1024
  const DEFAULT_MAX_CONCURRENT: nat := 50
  const DEFAULT_STALE_MS: nat := 120_000

  const DEFAULT_LIMITS := Limits(DEFAULT_MAX_BUFFER_BYTES, DEFAULT_MAX_CONCURRENT)

  method BytesEqual(a: Vec, b: Vec) returns (equal: bool)
    ensures equal <==> a == b
  {
    if |a| != |b| { return false; }
    for i := 0 to |a|
      invariant forall j :: 0 <= j < i ==> a[j] == b[j]
    {
      if a[i] != b[i] { return false; }
    }
    return true;
  }

  /** assemble. */
  method Assemble(b: Buffer) returns (r: Outcome)
    ensures r == Assembled(b)
  {
    hide Decoded, Flat, ShardsOf;
    if b.fecInfo.None? {
      var parts: seq<Vec> := [];
      for s := 0 to b.expectedTotal
        invariant parts == Parts(b, s)
      {
        if s in b.fragments { parts := parts + [b.fragments[s].data]; }
      }
      var total := TotalLength(parts);
      var out := CopyParts(parts, total, total);
      assert Blank(0) == [];
      assert out == Flat(parts);
      return Delivered(out);
    }
    var k, len := b.fecInfo.value.dataShardCount, b.fecInfo.value.originalDataLen;
    var shards := ShardsOf(b);
    var decoded := DecodeShards(shards, k, len);
    match decoded
    case Ok(message) => r := Delivered(message);
    case Err(error) => r := DecodeFailed(error);
  }

  class Reassembler {
    var buffers: map<nat, Buffer>
    var order: seq<nat>
    var totalBufferedBytes: nat
    const limits: Limits
    const staleTimeoutMs: nat

    ghost function View(): Pool
      reads this
    {
      Pool(buffers, order, totalBufferedBytes)
    }

    ghost predicate Valid()
      reads this
    {
      Good(View())
    }

    constructor (limits: Limits := DEFAULT_LIMITS, staleTimeoutMs: nat := DEFAULT_STALE_MS)
      ensures Valid() && View() == EMPTY_POOL
      ensures this.limits == limits && this.staleTimeoutMs == staleTimeoutMs
    {
      buffers := map[];
      order := [];
      totalBufferedBytes := 0;
      this.limits := limits;
      this.staleTimeoutMs := staleTimeoutMs;
    }

    /** Removes a message and its bytes from the counter, clamped at zero as in the client. */
    method Delete(id: nat)
      requires id in buffers
      modifies this
      ensures View() == Drop(old(View()), id)
    {
      totalBufferedBytes := Max(0, totalBufferedBytes - buffers[id].bufferedBytes);
      buffers := buffers - {id};
      order := Without(order, id);
    }

    method EvictOldest()
      requires Coherent(View()) && order != []
      modifies this
      ensures View() == Drop(old(View()), OldestId(old(View())))
    {
      ghost var p := View();
      var oldest := 0;
      for i := 1 to |order|
        invariant oldest == OldestBefore(p, i)
      {
        if buffers[order[i]].lastActivity < buffers[order[oldest]].lastActivity { oldest := i; }
      }
      Delete(order[oldest]);
    }

    /** Each turn removes a message, so the loop ends after at most as many turns as messages. */
    method EnsureCapacity(needed: nat)
      requires Coherent(View())
      modifies this
      ensures View() == MakeRoom(old(View()), needed, limits)
    {
      hide OldestId, Drop, Coherent;
      while (totalBufferedBytes + needed > limits.maxBufferBytes
             || |order| >= limits.maxConcurrentMessages) && |order| > 0
        invariant Coherent(View())
        invariant MakeRoom(View(), needed, limits) == MakeRoom(old(View()), needed, limits)
        decreases |order|
      {
        OldestIsStored(View());
        DropKeepsCoherent(View(), OldestId(View()));
        EvictOldest();
      }
    }

    /** addFragment: the outcome and the new contents are those of the specification, on every path. */
    method Add(f: Fragment, now: nat) returns (r: Outcome)
      requires Valid()
      modifies this
      ensures Valid()
      ensures (View(), r) == AddFragment(old(View()), f, limits, now)
    {
      hide MakeRoom, Assembled, Good, IsComplete, FragmentSize, Without;
      ghost var before := View();
      GoodIsCoherent(before);
      AddKeepsGood(before, f, limits, now);
      if Invalid(f).Some? { return Rejected(Invalid(f).value); }
      if f.messageId in buffers && f.sequence in buffers[f.messageId].fragments {
        var equal := BytesEqual(buffers[f.messageId].fragments[f.sequence].data, f.data);
        return if equal then Pending else Rejected(DuplicateDiffers);
      }
      var size := FragmentSize(f);
      EnsureCapacity(size);
      MakeRoomKeepsGood(before, size, limits);
      GoodIsCoherent(View());
      r := InsertInto(f, now, size);
    }

    method InsertInto(f: Fragment, now: nat, size: nat) returns (r: Outcome)
      requires Valid() && Coherent(View()) && Invalid(f).None? && size == FragmentSize(f)
      modifies this
      ensures (View(), r) == Insert(old(View()), f, now)
    {
      hide Assembled, Good, IsComplete, FragmentSize, Without, Coherent;
      ghost var p := View();
      var isNew := f.messageId !in buffers;
      var b := if isNew then NewBuffer(f, now) else buffers[f.messageId];
      if f.totalFragments != b.expectedTotal { return Rejected(TotalMismatch); }
      if f.fec.Some? {
        if b.fecInfo.None? {
          b := b.(fecInfo := f.fec);
        } else if b.fecInfo.value != f.fec.value {
          return Rejected(FecMismatch);
        }
      }
      b := Store(b, f, now);
      if isNew { order := order + [f.messageId]; }
      buffers := buffers[f.messageId := b];
      totalBufferedBytes := totalBufferedBytes + size;
      if !IsComplete(b) { return Pending; }
      totalBufferedBytes := Max(0, totalBufferedBytes - b.bufferedBytes);
      buffers := buffers - {f.messageId};
      order := Without(order, f.messageId);
      if isNew { DroppedAgain(p, f.messageId, b); }
      assert buffers == p.buffers - {f.messageId};
      r := Assemble(b);
    }

    /** pruneStale: returns how many messages were dropped. */
    method PruneStale(timeoutMs: Option<nat>, now: nat) returns (pruned: nat)
      requires Valid()
      modifies this
      ensures Valid()
      ensures var cutoff := now - (if timeoutMs.Some? then timeoutMs.value else staleTimeoutMs);
        && View() == Prune(old(View()), cutoff)
        && pruned == |StaleIds(old(View()), cutoff, |old(order)|)|
    {
      hide Drop, SumBytes, Kept;
      var timeout := if timeoutMs.Some? then timeoutMs.value else staleTimeoutMs;
      var cutoff := now - timeout;
      ghost var p := View();
      PruneKeepsFresh(p, cutoff);
      var stale: seq<nat> := [];
      for i := 0 to |order|
        invariant stale == StaleIds(p, cutoff, i)
      {
        if buffers[order[i]].createdAt < cutoff { stale := stale + [order[i]]; }
      }
      for i := 0 to |stale|
        invariant Coherent(View())
        invariant DropAll(View(), stale[i..]) == Prune(p, cutoff)
      {
        assert stale[i..][1..] == stale[i + 1..];
        if stale[i] in buffers {
          DropKeepsCoherent(View(), stale[i]);
          Delete(stale[i]);
        }
      }
      pruned := |stale|;
    }

    /** messageProgress: received and expected counts of a stored message. */
    method MessageProgress(id: nat) returns (r: Option<(nat, nat)>)
      requires Valid()
      ensures r.None? <==> id !in buffers
      ensures r.Some? ==> 0 < r.value.0 < r.value.1 && r.value.0 == |buffers[id].fragments|
    {
      if id !in buffers { return None; }
      ProgressBounds(id, buffers[id]);
      return Some((buffers[id].receivedCount, buffers[id].expectedTotal));
    }
  }

  lemma OldestIsStored(p: Pool)
    requires Coherent(p) && p.order != []
    ensures OldestId(p) in p.buffers
  {}

  /** A message added and removed in one call leaves no trace in the order. */
  lemma DroppedAgain(p: Pool, id: nat, b: Buffer)
    requires Coherent(p) && id !in p.buffers
    ensures Without(p.order + [id], id) == Without(p.order, id)
    ensures p.buffers[id := b] - {id} == p.buffers - {id}
  {
    WithoutLast(p.order, id);
  }

  lemma {:induction false} WithoutLast(ids: seq<nat>, id: nat)
    ensures Without(ids + [id], id) == Without(ids, id)
  {
    if ids == [] {
      assert ids + [id] == [id] && [id][1..] == [];
    } else {
      WithoutLast(ids[1..], id);
      assert (ids + [id])[1..] == ids[1..] + [id];
    }
  }

  /** A kept message has some of its fragments and lacks some. */
  lemma ProgressBounds(id: nat, b: Buffer)
    requires Kept(id, b)
    ensures 0 < b.receivedCount < b.expectedTotal && b.receivedCount == |b.fragments|
  {
    assert b.fragments.Keys <= Below(b.expectedTotal);
    SubsetSize(b.fragments.Keys, Below(b.expectedTotal));
  }

  ghost function Below(n: nat): (s: set<nat>)
    ensures |s| == n && forall k: nat :: k in s <==> k < n
  {
    if n == 0 then {} else Below(n - 1) + {n - 1}
  }

  lemma SubsetSize(a: set<nat>, b: set<nat>)
    requires a <= b
    ensures |a| <= |b|
  {
    assert b == a + (b - a);
  }
}
