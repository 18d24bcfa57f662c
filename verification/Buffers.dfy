/** The byte buffers of a connection: a block of memory that is replaced by a larger one when it is full. */
module Buffers {
  import opened Keys
  import opened Frames

  const INITIAL_SIZE: nat := (4096 + 128) * 1024

  /** What the memory looks like: the size of a block that was given back, if any, and how far blocks can grow where they are. */
  datatype Heap = Heap(pooled: nat, behind: nat)

  /** The size of a buffer's first block. */
  function First(heap: Heap): nat { if heap.pooled == 0 then INITIAL_SIZE else heap.pooled }

  /** The size of a block once more than `min` bytes are free after `stop`. */
  function Grown(size: nat, stop: nat, min: nat): (r: nat)
    requires stop <= size
    ensures r - stop > min && size <= r && (r > size <==> size - stop <= min)
    ensures (r - size) % INITIAL_SIZE == 0 && (r > size ==> r - INITIAL_SIZE - stop <= min)
    decreases min + stop + INITIAL_SIZE - size
  {
    if size - stop <= min then Grown(size + INITIAL_SIZE, stop, min) else size
  }

  class Buffer {
    /** The block; `size` bytes of it are allocated, and those behind can be had without moving it. */
    var buf: array?<Byte>
    var size: nat
    var startOff: nat
    var stopOff: nat

    constructor ()
      ensures Valid() && Contents() == [] && buf == null && startOff == stopOff == 0
    {
      buf, size, startOff, stopOff := null, 0, 0, 0;
    }

    ghost predicate Valid()
      reads this
    {
      && startOff <= stopOff <= size
      && if buf == null then size == 0 else size <= buf.Length
    }

    ghost function Contents(): Bytes
      requires Valid()
      reads this, buf
    {
      if buf == null then [] else buf[startOff..stopOff]
    }

    /** A buffer with this much room in use keeps its block when `min` free bytes are asked for. */
    ghost predicate Stays(min: nat)
      requires Valid() && buf != null
      reads this
    {
      size - stopOff > min || Grown(size, stopOff, min) <= buf.Length
    }

    /** Makes sure that more than `min` bytes are free; the block moves when it cannot grow where it is. */
    method GetWriter(min: nat, heap: Heap)
      requires Valid()
      modifies this`buf, this`size
      ensures Valid() && buf != null && size - stopOff > min && Contents() == old(Contents())
      ensures old(buf) != null ==> (buf == old(buf) <==> old(Stays(min)))
      ensures buf != old(buf) ==> fresh(buf)
      ensures old(buf) != null ==> size == Grown(old(size), old(stopOff), min)
      ensures old(buf) == null && First(heap) > min ==> size == First(heap) && buf.Length == size + heap.behind
    {
      if buf == null {
        buf, size := new Byte[First(heap) + heap.behind](i => 0), First(heap);
      }
      var now := size;
      ghost var want := Grown(size, stopOff, min);
      while now - stopOff <= min
        invariant size <= now && Grown(now, stopOff, min) == want
        decreases min + stopOff + INITIAL_SIZE - now
      {
        now := now + INITIAL_SIZE;
      }
      if now > size {
        Realloc(now, heap);
      }
    }

    /** Grows the block in its place, or copies it to a larger one. */
    method Realloc(now: nat, heap: Heap)
      requires Valid() && buf != null && now >= size
      modifies this`buf, this`size
      ensures Valid() && buf != null && size == now && Contents() == old(Contents())
      ensures if now <= old(buf.Length) then buf == old(buf) else fresh(buf)
    {
      if now <= buf.Length {
        size := now;
        return;
      }
      var was, n := buf, size;
      buf := new Byte[now + heap.behind](i requires 0 <= i reads was => if i < n && i < was.Length then was[i] else 0);
      size := now;
      assert buf[startOff..stopOff] == was[startOff..stopOff];
    }

    /** Bytes that arrive behind what is there. */
    method Produce(data: Bytes)
      requires Valid() && buf != null && |data| <= size - stopOff
      modifies this`stopOff, buf
      ensures Valid() && Contents() == old(Contents()) + data && stopOff == old(stopOff) + |data|
    {
      forall i | 0 <= i < |data| {
        buf[stopOff + i] := data[i];
      }
      stopOff := stopOff + |data|;
      assert buf[startOff..stopOff] == old(buf[startOff..stopOff]) + data;
    }

    /** Drops bytes from the front; an empty buffer gives its block back, and only then starts at the beginning again. */
    method Consume(n: nat)
      requires Valid() && n <= |Contents()|
      modifies this
      ensures Valid() && Contents() == old(Contents())[n..]
      ensures if Contents() == [] then buf == null else buf == old(buf) && stopOff == old(stopOff) && size == old(size)
    {
      startOff := startOff + n;
      if startOff == stopOff {
        startOff, stopOff, size, buf := 0, 0, 0, null;
      }
    }

    /** Receives as much as fits and makes room for more. */
    method Fill(left: Bytes, heap: Heap) returns (rest: Bytes)
      requires Valid() && buf != null && 0 < size - stopOff <= |left|
      modifies this`buf, this`size, this`stopOff, buf
      ensures Valid() && buf != null && size - stopOff > 0 && Contents() + rest == old(Contents()) + left
      ensures |rest| < |left| && stopOff + |rest| == old(stopOff) + |left| && (buf == old(buf) || fresh(buf))
    {
      var n := size - stopOff;
      rest := left[n..];
      assert left == left[..n] + rest;
      Produce(left[..n]);
      GetWriter(0, heap);
    }

    /** Receives all there is, in pieces as large as the free space, until one does not fill it. */
    method ReadAll(available: Bytes, heap: Heap)
      requires Valid()
      modifies this, buf
      ensures Valid() && buf != null && Contents() == old(Contents()) + available && size - stopOff > 0
      ensures startOff == old(startOff) && stopOff == old(stopOff) + |available| && (buf == old(buf) || fresh(buf))
      ensures old(buf) == null && |available| < First(heap) ==> size == First(heap) && buf.Length == size + heap.behind
    {
      hide Grown, Buffer.Contents, Buffer.Stays;
      var left := available;
      GetWriter(0, heap);
      left := FillUp(left, heap);
      Produce(left);
    }

    /** Goes on as long as there is as much as fits. */
    method FillUp(available: Bytes, heap: Heap) returns (left: Bytes)
      requires Valid() && buf != null && size - stopOff > 0
      modifies this`buf, this`size, this`stopOff, buf
      ensures Valid() && buf != null && |left| < size - stopOff && Contents() + left == old(Contents()) + available
      ensures stopOff + |left| == old(stopOff) + |available| && (buf == old(buf) || fresh(buf))
      ensures |available| < old(size - stopOff) ==> buf == old(buf) && size == old(size)
    {
      left := available;
      while |left| >= size - stopOff
        invariant Valid() && buf != null && size - stopOff > 0 && Contents() + left == old(Contents()) + available
        invariant stopOff + |left| == old(stopOff) + |available| && (buf == old(buf) || fresh(buf))
        invariant |available| < old(size - stopOff) ==> left == available && buf == old(buf) && size == old(size) && stopOff == old(stopOff)
        decreases |left|
      {
        left := Fill(left, heap);
      }
    }
  }
}
