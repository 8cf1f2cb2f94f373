/** Whom the reassembler evicts for a fragment, and what it stores: in terms of the contents before and after. */
module Evictions {
  import opened Outcomes
  import opened Reassembly

  /** Bytes a fragment takes up: its header, its data and its erasure parameters. */
  function Bytes(f: Fragment): nat { |f.data| + if f.fec.Some? then 34 else 22 }

  /** Fragments that can be stored: a sequence below the total, a total of at most 9,500, and a possible number of data
      shards. */
  lemma AcceptsExactly(p: Pool, f: Fragment)
    ensures Accepted(p, f) <==>
      && f.totalFragments <= 9_500 && f.sequence < f.totalFragments
      && (f.fec.Some? ==> 1 <= f.fec.value.dataShardCount <= f.totalFragments)
      && !(f.messageId in p.buffers && f.sequence in p.buffers[f.messageId].fragments)
  {}

  /** With room for it, a fragment evicts nobody. */
  lemma RoomEvictsNobody(p: Pool, f: Fragment, limits: Limits, now: nat, id: nat)
    requires Good(p) && id != f.messageId
    requires p.total + Bytes(f) <= limits.maxBufferBytes && |p.order| < limits.maxConcurrentMessages
    ensures var q := AddFragment(p, f, limits, now).0;
      (id in q.buffers <==> id in p.buffers) && (id in p.buffers ==> q.buffers[id] == p.buffers[id])
  {
    hide Good, Assembled, IsComplete, Target, Store, Without;
    assert Coherent(p) by { GoodIsCoherent(p); }
    if Accepted(p, f) { assert MakeRoom(p, Bytes(f), limits) == p; }
  }

  /** Idle at least as long. */
  predicate IdleAsLong(p: Pool, a: nat, b: nat)
    requires a in p.buffers && b in p.buffers
  {
    p.buffers[a].lastActivity <= p.buffers[b].lastActivity
  }

  lemma OldestIsIdleLongest(p: Pool, id: nat)
    requires Coherent(p) && p.order != [] && id in p.buffers
    ensures IdleAsLong(p, OldestId(p), id)
  {
    var j :| 0 <= j < |p.order| && p.order[j] == id;
    var i := OldestBefore(p, |p.order|);
    assert i == j || j < i || i < j;
  }

  /** Making room evicts only messages that were idle at least as long as every one it keeps. */
  lemma {:induction false} EvictsLongestIdle(p: Pool, needed: nat, limits: Limits, a: nat, b: nat)
    requires Coherent(p) && a in p.buffers && a !in MakeRoom(p, needed, limits).buffers
    requires b in MakeRoom(p, needed, limits).buffers
    ensures b in p.buffers && IdleAsLong(p, a, b)
    decreases |p.order|
  {
    hide OldestId, Without, Coherent;
    var x := OldestId(p);
    DropKeepsCoherent(p, x);
    MakeRoomShrinks(Drop(p, x), needed, limits);
    OldestIsIdleLongest(p, b);
    if a != x { EvictsLongestIdle(Drop(p, x), needed, limits, a, b); }
  }

  /** It evicts no more than it must: without the last eviction the fragment would not have fitted. */
  lemma {:induction false} EvictsNoMore(p: Pool, needed: nat, limits: Limits) returns (x: nat)
    requires Good(p) && MakeRoom(p, needed, limits) != p
    ensures Coherent(p) && x in p.buffers && x !in MakeRoom(p, needed, limits).buffers
    ensures var q := MakeRoom(p, needed, limits);
      q.total + p.buffers[x].bufferedBytes + needed > limits.maxBufferBytes || |q.order| + 1 >= limits.maxConcurrentMessages
    ensures forall a :: a in p.buffers && a !in MakeRoom(p, needed, limits).buffers ==> IdleAsLong(p, a, x)
    decreases |p.order|
  {
    hide OldestId, Without, Good, Coherent;
    GoodIsCoherent(p);
    var o := OldestId(p);
    var rest := Drop(p, o);
    DropKeepsCoherent(p, o);
    DropKeepsGood(p, o);
    MakeRoomShrinks(rest, needed, limits);
    if MakeRoom(rest, needed, limits) == rest {
      x := o;
      OneFewer(p, o);
    } else {
      x := EvictsNoMore(rest, needed, limits);
      OldestIsIdleLongest(p, x);
    }
  }

  lemma OneFewer(p: Pool, id: nat)
    requires Good(p) && id in p.buffers
    ensures Coherent(p) && |Drop(p, id).order| + 1 == |p.order|
    ensures Drop(p, id).total + p.buffers[id].bufferedBytes == p.total
  {
    hide Kept, SumBytes;
    DropKeepsGood(p, id);
    WithoutOne(p.order, id);
  }

  lemma {:induction false} WithoutOne(ids: seq<nat>, id: nat)
    requires NoRepeats(ids) && id in ids
    ensures |Without(ids, id)| + 1 == |ids|
  {
    if ids[0] == id { WithoutAbsent(ids[1..], id); } else { WithoutOne(ids[1..], id); }
  }

  /** The same for a whole call: it touches no other message, and those it evicts were idle at least as long as those
      it keeps. */
  lemma AddEvictsLongestIdle(p: Pool, f: Fragment, limits: Limits, now: nat, a: nat, b: nat)
    requires Good(p) && a != f.messageId && b != f.messageId
    ensures var q := AddFragment(p, f, limits, now).0;
      && (b in q.buffers ==> b in p.buffers && q.buffers[b] == p.buffers[b])
      && (a in p.buffers && a !in q.buffers && b in q.buffers ==> IdleAsLong(p, a, b))
  {
    hide Good, Assembled, IsComplete, Target, Store, Without, MakeRoom, Coherent;
    GoodIsCoherent(p);
    if Accepted(p, f) {
      MakeRoomKeepsCoherent(p, FragmentSize(f), limits);
      MakeRoomShrinks(p, FragmentSize(f), limits);
      var room := MakeRoom(p, FragmentSize(f), limits);
      if a in p.buffers && a !in room.buffers && b in room.buffers {
        EvictsLongestIdle(p, FragmentSize(f), limits, a, b);
      }
    }
  }

  /** A fragment that is stored joins those of its message that were kept, and makes it the most recently active; a new
      message begins now. */
  lemma StoredFragment(p: Pool, f: Fragment, limits: Limits, now: nat)
    requires Good(p) && Accepted(p, f) && AddFragment(p, f, limits, now).1 == Pending
    ensures var (q, room) := (AddFragment(p, f, limits, now).0, MakeRoom(p, Bytes(f), limits));
      && f.messageId in q.buffers && q.buffers[f.messageId].lastActivity == now
      && q.buffers[f.messageId].fragments
         == (if f.messageId in p.buffers && f.messageId in room.buffers then p.buffers[f.messageId].fragments else map[])[f.sequence := f]
      && q.buffers[f.messageId].createdAt
         == (if f.messageId in p.buffers && f.messageId in room.buffers then p.buffers[f.messageId].createdAt else now)
      && q.total == room.total + Bytes(f)
  {
    hide Good, Without, MakeRoom, Coherent, Assembled, IsComplete;
    GoodIsCoherent(p);
    MakeRoomKeepsCoherent(p, Bytes(f), limits);
    MakeRoomShrinks(p, Bytes(f), limits);
    AssembledIsNoRefusal(f, Target(MakeRoom(p, Bytes(f), limits), f, now), now);
  }

  lemma AssembledIsNoRefusal(f: Fragment, t: Result<Buffer, Rejection>, now: nat)
    ensures t.Ok? ==> Assembled(Store(t.value, f, now)) != Pending
  {}

  /** A call is refused exactly for an impossible fragment, for other data under a sequence that is there, or for a
      fragment that disagrees with its message, as far as that was not evicted for it, about the total or the erasure
      parameters. */
  lemma RefusedExactly(p: Pool, f: Fragment, limits: Limits, now: nat)
    requires Good(p)
    ensures var (b, room) := (f.messageId, MakeRoom(p, Bytes(f), limits).buffers);
      AddFragment(p, f, limits, now).1.Rejected? <==>
        if b in p.buffers && f.sequence in p.buffers[b].fragments then
          Invalid(f).Some? || p.buffers[b].fragments[f.sequence].data != f.data
        else
          !Accepted(p, f)
          || (b in room && (room[b].expectedTotal != f.totalFragments
                            || (f.fec.Some? && room[b].fecInfo.Some? && room[b].fecInfo != f.fec)))
  {
    hide Good, Without, MakeRoom, Coherent, Assembled, IsComplete;
    GoodIsCoherent(p);
    if Accepted(p, f) {
      MakeRoomKeepsCoherent(p, Bytes(f), limits);
      var t := Target(MakeRoom(p, Bytes(f), limits), f, now);
      if t.Ok? { AssembledIsNotRejected(Store(t.value, f, now)); }
    }
  }

  lemma AssembledIsNotRejected(b: Buffer)
    ensures !Assembled(b).Rejected?
  {}
}
