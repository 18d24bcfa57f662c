/** The server's batch processing: grouping by handler, with every store done in place on the receive buffer. */
module Dispatch {
  import opened Keys
  import opened Frames
  import opened Parsing
  import opened Wrappers
  import opened Storage
  import opened Commands
  import opened Buffers

  /** The bytes of frames `i` to `j` of the batch. */
  ghost function Stretch(fs: seq<Bytes>, i: nat, j: nat): Bytes
    requires i <= j <= |fs|
    decreases j - i
  {
    if i == j then [] else fs[i] + Stretch(fs, i + 1, j)
  }

  /** Frames `i` to `j` lie in the buffer from `off` to `end`, with room for metadata after them. */
  ghost predicate Lies(buf: Bytes, off: nat, end: nat, fs: seq<Bytes>, i: nat, j: nat)
  {
    && i <= j <= |fs| && off <= end && end + META_SIZE <= |buf|
    && buf[off..end] == Stretch(fs, i, j)
  }

  /** The frame at `off`. */
  lemma LiesHead(buf: Bytes, off: nat, end: nat, fs: seq<Bytes>, i: nat, j: nat)
    requires Lies(buf, off, end, fs, i, j) && AllSane(fs) && off < end
    ensures i < j && HEADER_SIZE <= |fs[i]| && off + |fs[i]| <= end && buf[off..off + |fs[i]|] == fs[i]
    ensures FrameSize(buf[off..off + HEADER_SIZE]) == |fs[i]| && buf[off + 1] == fs[i][1]
    ensures Lies(buf, off + |fs[i]|, end, fs, i + 1, j)
  {
    SaneFits(fs[i]);
    var f := fs[i];
    assert buf[off..end] == f + Stretch(fs, i + 1, j);
    assert buf[off..off + |f|] == buf[off..end][..|f|];
    assert buf[off + |f|..end] == buf[off..end][|f|..];
    assert buf[off..off + HEADER_SIZE] == f[..HEADER_SIZE];
  }

  /** All of frames `i` to `j` have the same handler. */
  ghost predicate SameRow(table: Byte -> Slot, fs: seq<Bytes>, i: nat, j: nat, row: Slot)
    requires j <= |fs|
  {
    forall k :: i <= k < j ==> Row(table, fs[k]) == row
  }

  /** A truth value stored as a number. */
  function Truth(b: bool): nat { if b then 1 else 0 }

  class Engine {
    const table: Byte -> Slot
    const disk: Disk
    /** A 64-bit counter. */
    var unique: nat
    var sendBuf: Bytes

    constructor (table: Byte -> Slot)
      ensures Valid() && fresh(disk) && disk.raw == map[] && this.table == table && sendBuf == []
    {
      this.table := table;
      disk := new Disk();
      unique, sendBuf := 0, [];
    }

    ghost predicate Valid()
      reads this, disk
    {
      Whole(disk.raw)
    }

    ghost function Items(): Items
      reads this, disk
    {
      Abs(disk.raw)
    }

    /** The version of a new item: a disjunction of two increments. */
    method NextVersion() returns (cas: nat)
      modifies this`unique
      ensures cas == 1
    {
      unique := (unique + 1) % 0x1_0000_0000_0000_0000;
      var either := unique != 0;
      if !either {
        unique := (unique + 1) % 0x1_0000_0000_0000_0000;
        either := unique != 0;
      }
      cas := Truth(either);
    }

    method DoGet(r: Request) returns (a: Answer)
      requires Valid()
      ensures a == Expected(Items(), CmdGet, r).1
    {
      if r.extras != [] || r.key == [] || r.value != [] {
        return Error(INVALID_ARGUMENTS);
      }
      AbsAt(disk.raw, r.key);
      var e := disk.Get(r.key);
      if e.None? {
        return Error(KEY_NOT_FOUND);
      }
      EntryRoundTrip(e.value);
      a := Answer(OK, e.value.meta.cas, Be(e.value.meta.flags, 4), e.value.value);
    }

    method DoDelete(r: Request) returns (a: Answer)
      requires Valid()
      modifies disk
      ensures Valid() && (Items(), a) == Expected(old(Items()), CmdDelete, r)
    {
      if r.extras != [] || r.key == [] || r.value != [] {
        return Error(INVALID_ARGUMENTS);
      }
      AbsAt(disk.raw, r.key);
      AbsDrop(disk.raw, r.key);
      var ok := disk.Delete(r.key);
      if !ok {
        assert old(Items()) - {r.key} == old(Items());
        return Error(KEY_NOT_FOUND);
      }
      a := Answer(OK, 0, [], []);
    }

    /** The checks of a store. */
    method Check(r: Request) returns (why: Option<nat>)
      requires Valid()
      ensures why == Refusal(Items(), r)
    {
      AbsAt(disk.raw, r.key);
      hide Decode, Abs, Whole;
      var found := true;
      if r.cas != 0 || r.opcode != SET {
        var e := disk.Get(r.key);
        found := e.Some?;
        if found { EntryRoundTrip(e.value); }
        if r.cas != 0 {
          if !found {
            return Some(KEY_NOT_FOUND);
          }
          if e.value.meta.cas != r.cas {
            return Some(ITEM_NOT_STORED);
          }
        }
      }
      if r.opcode == ADD && found {
        return Some(KEY_EXISTS);
      }
      if r.opcode == REPLACE && !found {
        return Some(KEY_NOT_FOUND);
      }
      why := None;
    }

    /** Writes the value from its place in the buffer. */
    method Put(r: Request, md: Meta, buf: array<Byte>, off: nat)
      requires Valid() && off + |r.value| + META_SIZE <= buf.Length && buf[off..off + |r.value|] == r.value
      requires r.key != [] && Fits(md)
      modifies disk, buf
      ensures Valid() && buf[..] == old(buf[..])
      ensures Items() == old(Items())[r.key := Entry(r.value, md)]
    {
      AbsPut(disk.raw, r.key, Entry(r.value, md));
      hide Encode, Abs, Whole, Fits, Decode, PackMeta;
      ghost var raw := disk.raw[r.key := Encode(Entry(r.value, md))];
      var _ := disk.Set(buf, off, |r.value|, md, r.key);
      assert disk.raw == raw;
    }

    method DoSet(r: Request, buf: array<Byte>, off: nat) returns (a: Answer)
      requires Valid() && off + |r.value| + META_SIZE <= buf.Length && buf[off..off + |r.value|] == r.value
      modifies this`unique, disk, buf
      ensures Valid() && buf[..] == old(buf[..])
      ensures (Items(), a) == Expected(old(Items()), CmdSet, r)
    {
      hide Be32, Abs, Whole, Refusal;
      if |r.extras| != 8 || r.key == [] {
        return Error(INVALID_ARGUMENTS);
      }
      var cas := NextVersion();
      var md := Meta(Be32(r.extras, 0), Be32(r.extras, 4), cas);
      var why := Check(r);
      if why.Some? {
        return Error(why.value);
      }
      Put(r, md, buf, off);
      a := Answer(OK, cas, [], []);
    }

    /** Runs one request where it lies in the buffer. */
    method ProcessSingle(buf: array<Byte>, off: nat, size: nat, fn: Fn, ghost f: Bytes) returns (res: Bytes)
      requires Valid() && SaneFrame(f) && size == |f| && off + size + META_SIZE <= buf.Length && buf[off..off + size] == f
      modifies this`unique, disk, buf
      ensures Valid() && buf[..] == old(buf[..])
      ensures HEADER_SIZE <= |f| && ValueOffset(f) <= |f|
      ensures var (now, a) := Expected(old(Items()), fn, Unpack(f)); Items() == now && res == Pack(Unpack(f), a)
    {
      SaneFits(f);
      var req := buf[off..off + size];
      var r := Unpack(req);
      var at := off + ValueOffset(req);
      assert buf[at..off + size] == req[ValueOffset(req)..];
      hide Unpack, Pack, SaneFrame;
      var a;
      match fn {
        case CmdGet => a := DoGet(r);
        case CmdSet => a := DoSet(r, buf, at);
        case CmdDelete => a := DoDelete(r);
        case CmdNoop => a := if r.extras != [] || r.key != [] || r.value != [] then Error(INVALID_ARGUMENTS) else Answer(OK, 0, [], []);
        case NoCommand => a := Error(UNKNOWN_COMMAND);
      }
      res := Pack(r, a);
    }

    /** One request of a group: answered, or turned away when the send buffer is full. */
    method AnswerOne(buf: array<Byte>, off: nat, size: nat, fn: Fn, ghost f: Bytes)
      requires Valid() && SaneFrame(f) && size == |f| && off + size + META_SIZE <= buf.Length && buf[off..off + size] == f
      modifies this, disk, buf
      ensures Valid() && buf[..] == old(buf[..])
      ensures (Items(), sendBuf) == One(old(Items()), old(sendBuf), fn, f)
    {
      hide Commands.Expected, Pack, SaneFrame, Abs, Whole, Unpack;
      var res;
      if |sendBuf| < 3 * MAX_REQUEST_SIZE {
        res := ProcessSingle(buf, off, size, fn, f);
      } else {
        SaneFits(f);
        res := Pack(Unpack(buf[off..off + size]), Error(INTERNAL_ERROR));
      }
      sendBuf := sendBuf + res;
    }

    /** Runs a group of requests that share a handler. */
    method Callback(buf: array<Byte>, off: nat, end: nat, row: Slot, ghost fs: seq<Bytes>, ghost i: nat, ghost j: nat,
                    ghost items: Items, ghost out: Bytes)
      requires i <= j <= |fs| && Valid() && AllSane(fs) && Lies(buf[..], off, end, fs, i, j) && SameRow(table, fs, i, j, row)
      requires (Items(), sendBuf) == Each(items, out, table, fs, i)
      modifies this, disk, buf
      ensures Valid() && buf[..] == old(buf[..])
      ensures (Items(), sendBuf) == Each(items, out, table, fs, j)
    {
      hide Engine.Valid, One, Abs, Lies;
      var at: nat := off;
      ghost var k: nat := i;
      while at < end
        invariant i <= k <= j && Valid() && buf[..] == old(buf[..]) && Lies(buf[..], at, end, fs, k, j)
        invariant (Items(), sendBuf) == Each(items, out, table, fs, k)
        decreases j - k
      {
        LiesHead(buf[..], at, end, fs, k, j);
        LiesIn(buf[..], at, end, fs, k, j);
        assert buf[at..at + HEADER_SIZE] == buf[..][at..at + HEADER_SIZE];
        var size := FrameSize(buf[at..at + HEADER_SIZE]);
        assert buf[at..at + size] == buf[..][at..at + size];
        AnswerOne(buf, at, size, row.fn, fs[k]);
        at, k := at + size, k + 1;
      }
      LiesEnd(buf[..], at, end, fs, k, j);
    }

    /** Groups a batch by handler and runs the groups: the outcome is that of each request on its own, in order. */
    method RunGroups(buf: array<Byte>, start: nat, end: nat, ghost fs: seq<Bytes>) returns (consumed: nat)
      requires Valid() && AllSane(fs) && Lies(buf[..], start, end, fs, 0, |fs|)
      modifies this, disk, buf
      ensures Valid() && buf[..] == old(buf[..]) && start + consumed == end
      ensures (Items(), sendBuf) == Each(old(Items()), old(sendBuf), table, fs, |fs|)
    {
      hide Engine.Valid, One, Abs, Lies, AllSane, SameRow, Row, FrameSize, Each;
      var at: nat, from: nat, group: Option<Slot> := start, start, None;
      ghost var k: nat, g: nat := 0, 0;
      LiesNone(buf[..], start, end, fs, 0, |fs|);
      EachNone(old(Items()), old(sendBuf), table, fs);
      while at < end
        invariant g <= k <= |fs| && start <= from <= at && Valid() && buf[..] == old(buf[..])
        invariant Lies(buf[..], from, at, fs, g, k) && Lies(buf[..], at, end, fs, k, |fs|)
        invariant if group.Some? then SameRow(table, fs, g, k, group.value) else k == 0 && from == at
        invariant (Items(), sendBuf) == Each(old(Items()), old(sendBuf), table, fs, g)
        decreases |fs| - k
      {
        LiesIn(buf[..], at, end, fs, k, |fs|);
        LiesHead(buf[..], at, end, fs, k, |fs|);
        assert buf[at..at + HEADER_SIZE] == buf[..][at..at + HEADER_SIZE];
        var requestSize := FrameSize(buf[at..at + HEADER_SIZE]);
        var row := table(buf[at + 1]);
        RowAt(table, fs, k, row);
        if group != Some(row) {
          if from < at {
            Callback(buf, from, at, group.value, fs, g, k, old(Items()), old(sendBuf));
          }
          LiesEnd(buf[..], from, at, fs, g, k);
          LiesNone(buf[..], at, end, fs, k, |fs|);
          from, g, group := at, k, Some(row);
        }
        GroupGrows(buf[..], from, at, end, fs, g, k, table, row);
        at, k := at + requestSize, k + 1;
      }
      LiesEnd(buf[..], at, end, fs, k, |fs|);
      LiesIn(buf[..], at, end, fs, k, |fs|);
      if from < at {
        Callback(buf, from, at, group.value, fs, g, k, old(Items()), old(sendBuf));
      }
      LiesEnd(buf[..], from, at, fs, g, k);
      consumed := at - start;
    }

    /**
     * Makes room for metadata behind the batch, then runs it where its pointer says. When making room moves the block,
     * the pointer is left to the old one: `ok` is false, and what the code does from there on is not defined.
     */
    method ProcessMulti(recv: Buffer, size: nat, heap: Heap, ghost fs: seq<Bytes>) returns (ok: bool, consumed: nat)
      requires Valid() && recv.Valid() && recv.buf != null && AllSane(fs)
      requires size <= |recv.Contents()| && recv.Contents()[..size] == Stretch(fs, 0, |fs|)
      modifies this, disk, recv, recv.buf
      ensures Valid() && recv.Valid() && recv.Contents() == old(recv.Contents())
      ensures ok <==> old(recv.Stays(META_SIZE))
      ensures recv.buf != null && recv.Stays(META_SIZE)
      ensures ok ==> consumed == size && (Items(), sendBuf) == Each(old(Items()), old(sendBuf), table, fs, |fs|)
      ensures !ok ==> Items() == old(Items()) && sendBuf == old(sendBuf)
    {
      hide Each, Abs, Whole, AllSane, Stretch, Lies, Grown;
      var data, from := recv.buf, recv.startOff;
      recv.GetWriter(META_SIZE, heap);
      ok, consumed := data == recv.buf, 0;
      if ok {
        assert recv.Contents() == data[..][from..recv.stopOff];
        LiesInside(data[..], from, recv.stopOff, size, fs);
        consumed := RunGroups(data, from, from + size, fs);
        assert recv.Contents() == data[..][from..recv.stopOff];
      }
    }
  }

  lemma LiesInside(buf: Bytes, from: nat, stop: nat, size: nat, fs: seq<Bytes>)
    requires from + size <= stop && stop + META_SIZE <= |buf| && buf[from..stop][..size] == Stretch(fs, 0, |fs|)
    ensures Lies(buf, from, from + size, fs, 0, |fs|)
  {
    assert buf[from..from + size] == buf[from..stop][..size];
  }

  lemma LiesIn(buf: Bytes, off: nat, end: nat, fs: seq<Bytes>, i: nat, j: nat)
    requires Lies(buf, off, end, fs, i, j)
    ensures off <= end && end + META_SIZE <= |buf| && j <= |fs|
  {
  }

  lemma LiesEnd(buf: Bytes, off: nat, end: nat, fs: seq<Bytes>, i: nat, j: nat)
    requires Lies(buf, off, end, fs, i, j) && AllSane(fs)
    ensures off >= end ==> i == j
  {
    if i < j { assert SaneFrame(fs[i]); }
  }

  lemma LiesNone(buf: Bytes, off: nat, end: nat, fs: seq<Bytes>, i: nat, j: nat)
    requires Lies(buf, off, end, fs, i, j)
    ensures Lies(buf, off, off, fs, i, i)
  {
  }

  lemma EachNone(items: Items, out: Bytes, table: Byte -> Slot, fs: seq<Bytes>)
    requires AllSane(fs)
    ensures Each(items, out, table, fs, 0) == (items, out)
  {
  }

  lemma RowAt(table: Byte -> Slot, fs: seq<Bytes>, k: nat, row: Slot)
    requires k < |fs| && HEADER_SIZE <= |fs[k]| && row == table(fs[k][1])
    ensures Row(table, fs[k]) == row && SameRow(table, fs, k, k, row)
  {
  }

  lemma {:induction false} StretchSnoc(fs: seq<Bytes>, i: nat, j: nat)
    requires i <= j < |fs|
    ensures Stretch(fs, i, j + 1) == Stretch(fs, i, j) + fs[j]
    decreases j - i
  {
    if i == j {
      assert Stretch(fs, j, j + 1) == fs[j] + Stretch(fs, j + 1, j + 1);
    } else {
      StretchSnoc(fs, i + 1, j);
      assert fs[i] + (Stretch(fs, i + 1, j) + fs[j]) == (fs[i] + Stretch(fs, i + 1, j)) + fs[j];
    }
  }

  /** The next request joins the group. */
  lemma GroupGrows(buf: Bytes, from: nat, at: nat, end: nat, fs: seq<Bytes>, g: nat, k: nat, table: Byte -> Slot, row: Slot)
    requires g <= k < |fs| && Lies(buf, from, at, fs, g, k)
    requires at + |fs[k]| <= end && end + META_SIZE <= |buf| && buf[at..at + |fs[k]|] == fs[k] && SameRow(table, fs, g, k, row) && Row(table, fs[k]) == row
    ensures Lies(buf, from, at + |fs[k]|, fs, g, k + 1) && SameRow(table, fs, g, k + 1, row)
  {
    StretchSnoc(fs, g, k);
    assert buf[from..at + |fs[k]|] == buf[from..at] + buf[at..at + |fs[k]|];
  }

  /** One read into an empty buffer and the batch at its front: how much must have stayed free. */
  method ReadAndProcess(table: Byte -> Slot, data: Bytes, size: nat, heap: Heap, ghost fs: seq<Bytes>) returns (ok: bool)
    requires AllSane(fs) && size <= |data| < First(heap) && data[..size] == Stretch(fs, 0, |fs|)
    ensures ok <==> First(heap) - |data| > META_SIZE || heap.behind >= INITIAL_SIZE
  {
    var engine := new Engine(table);
    var recv := new Buffer();
    recv.ReadAll(data, heap);
    assert Grown(First(heap), |data|, META_SIZE) ==
      if First(heap) - |data| > META_SIZE then First(heap) else First(heap) + INITIAL_SIZE by {
      GrownOnce(First(heap), |data|);
    }
    var consumed;
    ok, consumed := engine.ProcessMulti(recv, size, heap, fs);
  }

  lemma GrownOnce(size: nat, stop: nat)
    requires stop <= size
    ensures Grown(size, stop, META_SIZE) == if size - stop > META_SIZE then size else size + INITIAL_SIZE
  {
  }

  lemma NoopFirst()
    ensures NOOP_REQUEST == Stretch([NOOP_REQUEST], 0, 1) && AllSane([NOOP_REQUEST]) && |NOOP_REQUEST| == HEADER_SIZE
  {
    assert Stretch([NOOP_REQUEST], 0, 1) == NOOP_REQUEST + Stretch([NOOP_REQUEST], 1, 1);
  }

  /** A no-op at the front of a read that fills a new buffer up to eight bytes: its batch is read from memory that was given back. */
  method LongRead(table: Byte -> Slot, rest: Bytes) returns (ok: bool)
    requires |rest| == INITIAL_SIZE - HEADER_SIZE - 8
    ensures !ok
  {
    NoopFirst();
    hide AllSane, Stretch;
    ok := ReadAndProcess(table, NOOP_REQUEST + rest, HEADER_SIZE, Heap(0, 0), [NOOP_REQUEST]);
  }
}
