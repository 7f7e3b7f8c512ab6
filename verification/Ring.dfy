/** The circular byte buffer behind the receive and transmit rings, refining a bounded queue. */
module Ring {
  import opened Powers

  /** The count bytes of a circular buffer that starts at head. */
  function Unwrap(d: seq<byte>, head: nat, count: nat): (s: seq<byte>)
    requires head < |d| && count <= |d|
    ensures |s| == count
  {
    if head + count <= |d| then d[head..head + count] else d[head..] + d[..head + count - |d|]
  }

  /** Where the next byte goes. */
  function Slot(size: nat, head: nat, count: nat): (i: nat)
    requires head < size && count <= size
    ensures i < size
  {
    if head + count < size then head + count else head + count - size
  }

  lemma PutUnwrap(d: seq<byte>, head: nat, count: nat, b: byte)
    requires head < |d| && count < |d|
    ensures Unwrap(d[Slot(|d|, head, count) := b], head, count + 1) == Unwrap(d, head, count) + [b]
  {
    var after := Unwrap(d[Slot(|d|, head, count) := b], head, count + 1);
    assert forall i :: 0 <= i < count ==> after[i] == Unwrap(d, head, count)[i];
  }

  lemma GetUnwrap(d: seq<byte>, head: nat, count: nat)
    requires head < |d| && 0 < count <= |d|
    ensures Unwrap(d, head, count)[0] == d[head]
    ensures Unwrap(d, Slot(|d|, head, 1), count - 1) == Unwrap(d, head, count)[1..]
  {
  }

  /** Masking by size - 1 for a power of two is the remainder: the index after i. */
  lemma NextIndex(i: nat, size: nat)
    requires i < size
    ensures (i + 1) % size == if i + 1 < size then i + 1 else 0
  {
    if i + 1 == size {
      assert (0 + 1 * size) % size == 0 by {
        ModAddMultiple(0, 1, size);
      }
    }
  }

  /** A queue of at most size bytes after s is offered byte by byte: what does not fit is lost. */
  function Joined(q: seq<byte>, s: seq<byte>, size: nat): (r: seq<byte>)
    requires |q| <= size
    ensures |r| <= size
  {
    q + s[..if |s| <= size - |q| then |s| else size - |q|]
  }

  /** Offering two strings in turn is offering both at once. */
  lemma JoinedConcat(q: seq<byte>, s: seq<byte>, t: seq<byte>, size: nat)
    requires |q| <= size
    ensures Joined(Joined(q, s, size), t, size) == Joined(q, s + t, size)
  {
  }

  class RingBuf {
    const data: array<byte>
    var head: int
    var tail: int
    var count: int

    ghost predicate Valid()
      reads this
    {
      0 <= head < data.Length && 0 <= count <= data.Length && tail == Slot(data.Length, head, count)
    }

    /** The queue. */
    ghost function Contents(): (s: seq<byte>)
      reads this, data
      requires Valid()
      ensures |s| == count
    {
      Unwrap(data[..], head, count)
    }

    constructor (size: nat)
      requires size > 0
      ensures Valid() && fresh(data) && data.Length == size && Contents() == []
    {
      data := new byte[size](_ => 0);
      head, tail, count := 0, 0, 0;
    }

    method Init()
      requires data.Length > 0
      modifies this
      ensures Valid() && Contents() == []
    {
      head, tail, count := 0, 0, 0;
    }

    /** Accepts the byte exactly when there is room. */
    method Put(b: byte) returns (rc: int)
      requires Valid()
      modifies this, data
      ensures Valid()
      ensures rc == if |old(Contents())| < data.Length then 0 else -1
      ensures Contents() == if rc == 0 then old(Contents()) + [b] else old(Contents())
    {
      if count >= data.Length {
        return -1;
      }
      PutUnwrap(data[..], head, count, b);
      NextIndex(tail, data.Length);
      ghost var d := data[..];
      data[tail] := b;
      assert data[..] == d[tail := b];
      tail := (tail + 1) % data.Length;
      count := count + 1;
      return 0;
    }

    /** ring_put for each byte of a string. */
    method PutAll(s: seq<byte>)
      requires Valid()
      modifies this, data
      ensures Valid() && Contents() == Joined(old(Contents()), s, data.Length)
    {
      hide Unwrap, Slot;
      ghost var q := Contents();
      for i := 0 to |s|
        invariant Valid() && Contents() == Joined(q, s[..i], data.Length)
      {
        assert s[..i + 1] == s[..i] + [s[i]];
        JoinedConcat(q, s[..i], [s[i]], data.Length);
        var _ := Put(s[i]);
      }
      assert s[..|s|] == s;
    }

    /** The oldest byte, or -1. */
    method Get() returns (b: int)
      requires Valid()
      modifies this
      ensures Valid()
      ensures old(Contents()) == [] ==> b == -1 && Contents() == []
      ensures old(Contents()) != [] ==> b == old(Contents())[0] && Contents() == old(Contents())[1..]
    {
      if count == 0 {
        return -1;
      }
      GetUnwrap(data[..], head, count);
      NextIndex(head, data.Length);
      b := data[head];
      head := (head + 1) % data.Length;
      count := count - 1;
    }

    method Count() returns (n: int)
      requires Valid()
      ensures n == |Contents()|
    {
      return count;
    }

    /** AH=0Ch: the next byte without taking it, or FFFFh. */
    method Peek() returns (b: int)
      requires Valid()
      ensures b == if Contents() == [] then 0xFFFF else Contents()[0]
    {
      if count > 0 {
        GetUnwrap(data[..], head, count);
        return data[head];
      }
      return 0xFFFF;
    }

    /** The transfer loop of AH=18h: up to max bytes from the front. */
    method Read(max: nat) returns (out: seq<byte>)
      requires Valid()
      modifies this
      ensures Valid()
      ensures |out| == if max < |old(Contents())| then max else |old(Contents())|
      ensures out == old(Contents())[..|out|] && Contents() == old(Contents())[|out|..]
    {
      out := [];
      ghost var q := Contents();
      while |out| < max
        invariant Valid() && |out| <= max && |out| <= |q|
        invariant out == q[..|out|] && Contents() == q[|out|..]
      {
        var b := Get();
        if b < 0 {
          break;
        }
        out := out + [b];
      }
    }
  }
}
