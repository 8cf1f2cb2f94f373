/** Copying byte sequences into buffers of a fixed size. */
module ByteBuffers {
  import opened Outcomes
  import opened ByteValues

  function Blank(n: nat): (b: Bytes)
    ensures |b| == n && forall i :: 0 <= i < n ==> b[i] == 0
  {
    seq(n, _ => 0)
  }

  function Flat(parts: seq<Bytes>): Bytes {
    if parts == [] then [] else Flat(parts[..|parts| - 1]) + parts[|parts| - 1]
  }

  /** v cut to len bytes. */
  function Cut(v: Bytes, len: nat): Bytes { v[..Min(len, |v|)] }

  /** v cut or zero-filled to len bytes. */
  function Sized(v: Bytes, len: nat): (w: Bytes)
    ensures |w| == len
  {
    Cut(v, len) + Blank(len - Min(len, |v|))
  }

  lemma {:induction false} FlatLength(parts: seq<Bytes>, size: nat)
    requires forall i :: 0 <= i < |parts| ==> |parts[i]| == size
    ensures |Flat(parts)| == |parts| * size
  {
    if parts != [] {
      var front := parts[..|parts| - 1];
      FlatLength(front, size);
      assert |front| * size + size == |parts| * size;
    }
  }

  method CopyInto(buffer: array<bv8>, offset: nat, src: Bytes, take: nat)
    requires take <= |src| && offset + take <= buffer.Length
    modifies buffer
    ensures buffer[..] == old(buffer[..offset]) + src[..take] + old(buffer[offset + take..])
  {
    ghost var was := buffer[..];
    for j := 0 to take
      invariant forall t :: 0 <= t < buffer.Length ==>
        buffer[t] == if offset <= t < offset + j then src[t - offset] else was[t]
    {
      buffer[offset + j] := src[j];
    }
  }

  /** Copies the parts one after the other into a zeroed buffer, stopping at len bytes. */
  method CopyParts(parts: seq<Bytes>, len: nat, room: nat) returns (out: Bytes)
    requires room == len || room == Min(|Flat(parts)|, len)
    ensures |Cut(Flat(parts), len)| <= room
    ensures out == Cut(Flat(parts), len) + Blank(room - |Cut(Flat(parts), len)|)
  {
    hide Blank, Flat;
    var buffer := new bv8[room](_ => 0);
    var offset := 0;
    FlatEmpty(parts[..0]);
    assert buffer[..] == Blank(room);
    for i := 0 to |parts|
      invariant offset == |Cut(Flat(parts[..i]), len)| <= room
      invariant buffer[..] == Cut(Flat(parts[..i]), len) + Blank(room - offset)
    {
      FlatPrefix(parts, i);
      var rem := len - offset;
      if rem > 0 {
        var take := Min(|parts[i]|, rem);
        ghost var was := buffer[..];
        CopyInto(buffer, offset, parts[i], take);
        assert was[..offset] == Flat(parts[..i]);
        assert was[offset + take..] == Blank(room - offset - take);
        assert Cut(Flat(parts[..i + 1]), len) == Flat(parts[..i]) + parts[i][..take];
        offset := offset + take;
      } else {
        assert Cut(Flat(parts[..i + 1]), len) == Cut(Flat(parts[..i]), len);
      }
    }
    assert parts[..|parts|] == parts;
    out := buffer[..];
  }

  lemma FlatEmpty(parts: seq<Bytes>)
    requires parts == []
    ensures Flat(parts) == []
  {}

  lemma {:induction false} FlatPrefix(parts: seq<Bytes>, i: nat)
    requires i < |parts|
    ensures |Flat(parts[..i])| + |parts[i]| <= |Flat(parts)|
    ensures Flat(parts[..i + 1]) == Flat(parts[..i]) + parts[i]
    decreases |parts|
  {
    assert parts[..i + 1][..i] == parts[..i];
    if i + 1 < |parts| {
      var front := parts[..|parts| - 1];
      FlatPrefix(front, i);
      assert front[..i] == parts[..i];
    } else {
      assert parts[..i + 1] == parts;
    }
  }

  method TotalLength(parts: seq<Bytes>) returns (n: nat)
    ensures n == |Flat(parts)|
  {
    n := 0;
    assert parts[..|parts|] == parts;
    for i := 0 to |parts|
      invariant n == |Flat(parts[..i])|
    {
      FlatPrefix(parts, i);
      n := n + |parts[i]|;
    }
  }
}
