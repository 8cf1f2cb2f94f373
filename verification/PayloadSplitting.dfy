/** Splitting a payload that does not fit one packet, and getting it back from the reassembler in any
    order and with repeats. The packet encryption around each encoded fragment is not modelled. */
module PayloadSplitting {
  import opened Outcomes
  import opened ByteValues
  import opened ByteBuffers
  import opened WireFormat
  import opened Messages
  import opened Reassembly
  import opened FragmentArrival
  import Codec

  const MAX_PAYLOAD_SIZE: nat := 31_716
  const FRAG_OVERHEAD: nat := 32
  const CHUNK_SIZE: nat := MAX_PAYLOAD_SIZE - FRAG_OVERHEAD

  function FragmentCount(len: nat): nat { (len + CHUNK_SIZE - 1) / CHUNK_SIZE }

  function Chunk(payload: Bytes, s: nat): (c: Bytes)
    requires s < FragmentCount(|payload|)
    ensures 0 < |c| <= CHUNK_SIZE
  {
    ChunkBounds(|payload|, s);
    payload[s * CHUNK_SIZE..Min((s + 1) * CHUNK_SIZE, |payload|)]
  }

  lemma ChunkBounds(len: nat, s: nat)
    requires s < FragmentCount(len)
    ensures s * CHUNK_SIZE < len
    ensures s + 1 < FragmentCount(len) ==> (s + 1) * CHUNK_SIZE < len
    ensures s + 1 == FragmentCount(len) ==> (s + 1) * CHUNK_SIZE >= len
  {}

  function Chunks(payload: Bytes, n: nat): (parts: seq<Bytes>)
    requires n <= FragmentCount(|payload|)
    ensures |parts| == n && forall i :: 0 <= i < n ==> parts[i] == Chunk(payload, i)
  {
    seq(n, i requires 0 <= i < n => Chunk(payload, i))
  }

  /** A payload cut into fragments. */
  function SplitMessage(payload: Bytes, id: nat): Message {
    Message(id, None, Chunks(payload, FragmentCount(|payload|)))
  }

  predicate Splittable(payload: Bytes) {
    |payload| > MAX_PAYLOAD_SIZE && FragmentCount(|payload|) <= MAX_FRAGMENTS_PER_MESSAGE
  }

  function Packet(payload: Bytes, id: nat, s: nat): Bytes
    requires s < FragmentCount(|payload|)
  {
    EncodedPayload(FragmentPayload(FragmentOf(SplitMessage(payload, id), s)))
  }

  /** Every chunk but the last is full, so that no split has fewer. */
  lemma ChunksAreFull(payload: Bytes, s: nat)
    requires s < FragmentCount(|payload|)
    ensures s + 1 < FragmentCount(|payload|) ==> |Chunk(payload, s)| == 31_684
    ensures s + 1 == FragmentCount(|payload|) ==> |Chunk(payload, s)| == |payload| - 31_684 * s <= 31_684
  {
    hide FragmentCount;
    ChunkBounds(|payload|, s);
  }

  /* ----- every encoded fragment fits a packet and decodes to itself ----- */

  lemma EncodedFragmentSize(f: Fragment)
    requires f.fec.None?
    ensures |EncodedPayload(FragmentPayload(f))| == 30 + |f.data|
  {}

  lemma PacketFits(payload: Bytes, id: nat, s: nat)
    requires s < FragmentCount(|payload|)
    ensures |Packet(payload, id, s)| <= MAX_PAYLOAD_SIZE
  {
    hide EncodedPayload, Chunk, FragmentCount;
    EncodedFragmentSize(FragmentOf(SplitMessage(payload, id), s));
  }

  lemma PacketDecodes(payload: Bytes, id: nat, s: nat)
    requires Splittable(payload) && s < FragmentCount(|payload|) && U64(id)
    ensures DecodedPayload(Packet(payload, id, s))
         == Got(FragmentPayload(FragmentOf(SplitMessage(payload, id), s)), |Packet(payload, id, s)|)
  {
    hide EncodedPayload, DecodedPayload, Chunk;
    var p := FragmentPayload(FragmentOf(SplitMessage(payload, id), s));
    PayloadRoundTrip(p, []);
    assert EncodedPayload(p) + [] == EncodedPayload(p);
  }

  /** _packetsFor: what is sealed into packets for one payload. */
  method PacketsFor(payload: Bytes, messageId: nat) returns (packets: seq<Bytes>)
    ensures forall i :: 0 <= i < |packets| ==> |packets[i]| <= MAX_PAYLOAD_SIZE
    ensures |payload| <= MAX_PAYLOAD_SIZE ==> packets == [payload]
    ensures |payload| > MAX_PAYLOAD_SIZE ==>
      && |packets| == FragmentCount(|payload|)
      && forall s :: 0 <= s < |packets| ==> packets[s] == Packet(payload, messageId, s)
  {
    hide EncodedPayload, FragmentCount, Chunk;
    if |payload| <= MAX_PAYLOAD_SIZE { return [payload]; }
    var totalFragments := FragmentCount(|payload|);
    packets := [];
    for s := 0 to totalFragments
      invariant |packets| == s
      invariant forall i :: 0 <= i < s ==>
        packets[i] == Packet(payload, messageId, i) && |packets[i]| <= MAX_PAYLOAD_SIZE
    {
      var frag := Fragment(messageId, totalFragments, s, Chunk(payload, s), None);
      var bytes := Codec.EncodeRelayerPayload(FragmentPayload(frag));
      PacketFits(payload, messageId, s);
      packets := packets + [bytes.value];
    }
  }

  /* ----- the chunks make up the payload ----- */

  lemma {:induction false} ChunksConcatenate(payload: Bytes, n: nat)
    requires n <= FragmentCount(|payload|)
    ensures Flat(Chunks(payload, n)) == payload[..Min(n * CHUNK_SIZE, |payload|)]
  {
    if n == 0 {
      assert Chunks(payload, 0) == [];
    } else {
      ChunksConcatenate(payload, n - 1);
      ChunkBounds(|payload|, n - 1);
      var parts := Chunks(payload, n);
      assert parts[..n - 1] == Chunks(payload, n - 1);
      assert payload[..(n - 1) * CHUNK_SIZE] + Chunk(payload, n - 1)
          == payload[..Min(n * CHUNK_SIZE, |payload|)];
    }
  }

  lemma WholePayload(payload: Bytes)
    requires |payload| > 0
    ensures Flat(Chunks(payload, FragmentCount(|payload|))) == payload
  {
    hide Flat, Chunks;
    var n := FragmentCount(|payload|);
    ChunksConcatenate(payload, n);
    ChunkBounds(|payload|, n - 1);
    assert payload[..|payload|] == payload;
  }

  lemma SplitIsSendable(payload: Bytes, id: nat)
    requires Splittable(payload)
    ensures Sendable(SplitMessage(payload, id), CHUNK_SIZE + 34)
  {
    hide Chunk;
  }

  /** Split and reassemble: the fragments of a payload, fed in any order and with any repeats before
      completion, return null until the last missing one and then exactly the payload. */
  lemma FragmentsReassemble(payload: Bytes, id: nat, order: seq<nat>, times: seq<nat>)
    requires Splittable(payload)
    requires |times| == |order| && forall i :: 0 <= i < |order| ==> order[i] < FragmentCount(|payload|)
    requires order != [] && |SeenBy(order)| == FragmentCount(|payload|)
    requires |SeenBy(order[..|order| - 1])| < FragmentCount(|payload|)
    ensures var m := SplitMessage(payload, id);
      && (forall i :: 0 <= i < |order| - 1 ==> Answer(m, order, times, i) == Pending)
      && Answer(m, order, times, |order| - 1) == Delivered(payload)
      && Fed(m, order, times) == EMPTY_POOL
  {
    hide Answer, Fed, DeliveredBy, Flat, SeenBy, Sendable, FragmentCount, Chunks;
    var m := SplitMessage(payload, id);
    SplitIsSendable(payload, id);
    ArrivalDelivers(m, CHUNK_SIZE + 34, order, times);
    PlainDelivery(m, SeenBy(order));
    WholePayload(payload);
  }
}
