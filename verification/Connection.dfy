/** One client connection: framing, quiet batches and flow control. */
module Connection {
  import opened Keys
  import opened Frames
  import opened Parsing

  /** What one non-blocking receive yields; `full` when it filled the space offered. */
  datatype Arrival = Data(bytes: Bytes, full: bool) | NothingYet | Gone

  /** What one non-blocking send does. */
  datatype Grant = Taken(n: nat) | Refused | Failed

  /** The sender asks for no answer of its own. */
  predicate Quiet(f: Bytes)
    requires HEADER_SIZE <= |f|
  {
    Reserved(f) % 2 == 1
  }

  ghost predicate AllQuiet(fs: seq<Bytes>)
  {
    forall i :: 0 <= i < |fs| ==> HEADER_SIZE <= |fs[i]| && Quiet(fs[i])
  }

  /** `consumed` bytes are the first `k` frames, and at least one. */
  ghost predicate Cuts(fs: seq<Bytes>, consumed: nat, k: nat)
  {
    1 <= k <= |fs| && consumed == |Concat(fs[..k])|
  }

  /** Processing a batch takes one or more whole requests of it. */
  ghost predicate Serves(serve: (nat, Bytes) -> (nat, Bytes))
  {
    forall call: nat, fs: seq<Bytes> :: ServesBatch(serve, call, fs)
  }

  ghost predicate ServesBatch(serve: (nat, Bytes) -> (nat, Bytes), call: nat, fs: seq<Bytes>)
  {
    AllSane(fs) && fs != [] ==> exists k :: Cuts(fs, serve(call, Concat(fs)).0, k)
  }

  /** Nothing goes wrong with the socket. */
  ghost predicate Calm(input: seq<Arrival>, grants: seq<Grant>)
  {
    && (forall i :: 0 <= i < |input| ==> !input[i].Gone? && (input[i].Data? ==> input[i].bytes != []))
    && (forall i :: 0 <= i < |grants| ==> !grants[i].Failed? && (grants[i].Taken? ==> grants[i].n > 0))
  }

  // ---- what the socket delivers and takes ----

  /** All bytes of a list of arrivals. */
  ghost function Flat(input: seq<Arrival>): Bytes
  {
    if input == [] then [] else (if input[0].Data? then input[0].bytes else []) + Flat(input[1..])
  }

  lemma {:induction false} FlatSplit(xs: seq<Arrival>, ys: seq<Arrival>)
    ensures Flat(xs + ys) == Flat(xs) + Flat(ys)
  {
    if xs == [] {
      assert xs + ys == ys;
    } else {
      assert (xs + ys)[1..] == xs[1..] + ys;
      FlatSplit(xs[1..], ys);
    }
  }

  predicate EndsStream(a: Arrival) { a.Gone? || (a.Data? && a.bytes == []) }

  /** How many arrivals one burst of receiving takes: data that fills the space each time, and one more. */
  ghost function Burst(input: seq<Arrival>): (n: nat)
    ensures n <= |input| && (input != [] ==> n > 0)
  {
    if input == [] then 0
    else if input[0].Data? && input[0].bytes != [] && input[0].full then 1 + Burst(input[1..])
    else 1
  }

  /** How many bytes a list of grants can take. */
  ghost function Room(grants: seq<Grant>): nat
  {
    if grants == [] then 0 else (if grants[0].Taken? then grants[0].n else 0) + Room(grants[1..])
  }

  lemma {:induction false} RoomSplit(xs: seq<Grant>, ys: seq<Grant>)
    ensures Room(xs + ys) == Room(xs) + Room(ys)
  {
    if xs == [] {
      assert xs + ys == ys;
    } else {
      assert (xs + ys)[1..] == xs[1..] + ys;
      RoomSplit(xs[1..], ys);
    }
  }

  /** How many of `size` bytes the next grant takes. */
  function FirstGrant(grants: seq<Grant>, size: nat): (n: nat)
    ensures n <= size
  {
    if grants == [] || !grants[0].Taken? then 0 else if grants[0].n < size then grants[0].n else size
  }

  /** A grant takes as many bytes as it has room for, or all there are. */
  lemma GrantTakes(n: nat, rest: seq<Grant>, size: nat)
    ensures FirstGrant([Taken(n)] + rest, size) == Min(n, size) && Room([Taken(n)] + rest) == n + Room(rest)
    ensures forall g: Grant :: !g.Taken? ==> FirstGrant([g] + rest, size) == 0 && Room([g] + rest) == Room(rest)
    ensures FirstGrant([], size) == 0 && Room([]) == 0
  {
    assert forall g: Grant :: ([g] + rest)[1..] == rest;
  }

  /** The bytes of a stream are those of its arrivals, in order. */
  lemma FlatIs(b: Bytes, full: bool, rest: seq<Arrival>)
    ensures Flat([Data(b, full)] + rest) == b + Flat(rest) && Flat([NothingYet] + rest) == Flat([Gone] + rest) == Flat(rest)
    ensures Flat([]) == []
  {
    assert forall a: Arrival :: ([a] + rest)[1..] == rest;
  }

  /** The arrival filled the space offered, so the socket may have more. */
  predicate FillsSpace(a: Arrival) { a.Data? && a.bytes != [] && a.full }

  /** A burst ends with the first arrival that leaves space, or with the last one. */
  lemma {:induction false} BurstIs(input: seq<Arrival>, n: nat)
    requires 0 < n <= |input| && forall i :: 0 <= i < n - 1 ==> FillsSpace(input[i])
    requires n == |input| || !FillsSpace(input[n - 1])
    ensures Burst(input) == n
  {
    if n > 1 {
      assert FillsSpace(input[0]);
      assert forall i :: 0 <= i < n - 2 ==> input[1..][i] == input[i + 1];
      BurstIs(input[1..], n - 1);
    } else if |input| == 1 {
      assert input[1..] == [];
    }
  }

  /** The socket takes something next. */
  predicate Takes(grants: seq<Grant>) { grants != [] && grants[0].Taken? && grants[0].n > 0 }

  // ---- how batches are formed ----

  /** Quiet requests and one more, which is not quiet, or fills the buffer or the batch. */
  ghost predicate FormedFrom(fs: seq<Bytes>, batch: Bytes, fill: nat)
  {
    && fs != [] && AllSane(fs) && batch == Concat(fs) && AllQuiet(fs[..|fs| - 1])
    && var last := fs[|fs| - 1];
       HEADER_SIZE <= |last| && (!Quiet(last) || fill >= MAX_REQUEST_SIZE || |fs| > MAX_QUIET_REQUESTS)
  }

  ghost predicate Formed(batch: Bytes, fill: nat) { exists fs :: FormedFrom(fs, batch, fill) }

  ghost predicate AllFormed(batches: seq<Bytes>, fills: seq<nat>)
  {
    |batches| == |fills| && forall i :: 0 <= i < |batches| ==> Formed(batches[i], fills[i])
  }

  lemma FormedMore(batches: seq<Bytes>, fills: seq<nat>, fs: seq<Bytes>, batch: Bytes, fill: nat)
    requires AllFormed(batches, fills) && FormedFrom(fs, batch, fill)
    ensures AllFormed(batches + [batch], fills + [fill])
  {
    assert Formed(batch, fill);
    hide Formed, FormedFrom;
  }

  // ---- what the batches did ----

  /** How many bytes the first `n` batches consumed. */
  ghost function Pos(serve: (nat, Bytes) -> (nat, Bytes), batches: seq<Bytes>, n: nat): nat
    requires n <= |batches|
  {
    if n == 0 then 0 else Pos(serve, batches, n - 1) + serve(n - 1, batches[n - 1]).0
  }

  /** Everything the first `n` batches produced. */
  ghost function Outputs(serve: (nat, Bytes) -> (nat, Bytes), batches: seq<Bytes>, n: nat): Bytes
    requires n <= |batches|
  {
    if n == 0 then [] else Outputs(serve, batches, n - 1) + serve(n - 1, batches[n - 1]).1
  }

  /** How much the last batch produced. */
  ghost function LastOutput(serve: (nat, Bytes) -> (nat, Bytes), batches: seq<Bytes>): nat
  {
    var n := |batches|;
    if n == 0 then 0 else |serve(n - 1, batches[n - 1]).1|
  }

  /** Batch `i` was the bytes of the stream that follow what the earlier ones consumed. */
  ghost predicate BatchAt(serve: (nat, Bytes) -> (nat, Bytes), batches: seq<Bytes>, received: Bytes, i: nat)
    requires i < |batches|
  {
    var from := Pos(serve, batches, i);
    from + |batches[i]| <= |received| && received[from..from + |batches[i]|] == batches[i]
  }

  ghost predicate History(serve: (nat, Bytes) -> (nat, Bytes), batches: seq<Bytes>, received: Bytes, consumed: nat, produced: Bytes)
  {
    && consumed == Pos(serve, batches, |batches|) && produced == Outputs(serve, batches, |batches|)
    && forall i :: 0 <= i < |batches| ==> BatchAt(serve, batches, received, i)
  }

  lemma {:induction false} PosPrefix(serve: (nat, Bytes) -> (nat, Bytes), batches: seq<Bytes>, b: Bytes, n: nat)
    requires n <= |batches|
    ensures Pos(serve, batches + [b], n) == Pos(serve, batches, n)
    ensures Outputs(serve, batches + [b], n) == Outputs(serve, batches, n)
  {
    if n > 0 { PosPrefix(serve, batches, b, n - 1); }
  }

  lemma HistoryGrows(serve: (nat, Bytes) -> (nat, Bytes), batches: seq<Bytes>, received: Bytes, more: Bytes,
                     consumed: nat, produced: Bytes)
    requires History(serve, batches, received, consumed, produced)
    ensures History(serve, batches, received + more, consumed, produced)
  {
    forall i | 0 <= i < |batches|
      ensures BatchAt(serve, batches, received + more, i)
    {
      assert BatchAt(serve, batches, received, i);
      var from := Pos(serve, batches, i);
      assert (received + more)[from..from + |batches[i]|] == received[from..from + |batches[i]|];
    }
  }

  lemma HistoryNext(serve: (nat, Bytes) -> (nat, Bytes), batches: seq<Bytes>, received: Bytes, b: Bytes,
                    consumed: nat, produced: Bytes)
    requires History(serve, batches, received, consumed, produced)
    requires consumed + |b| <= |received| && received[consumed..consumed + |b|] == b
    ensures var (n, out) := serve(|batches|, b);
      History(serve, batches + [b], received, consumed + n, produced + out)
  {
    PosPrefix(serve, batches, b, |batches|);
    forall i | 0 <= i < |batches + [b]|
      ensures BatchAt(serve, batches + [b], received, i)
    {
      PosPrefix(serve, batches, b, i);
      if i < |batches| { assert BatchAt(serve, batches, received, i); }
    }
  }

  class Conn {
    const serve: (nat, Bytes) -> (nat, Bytes)
    var recvBuf: Bytes
    var sendBuf: Bytes
    var quietOff: nat
    var requests: nat
    var writeOnly: bool
    var closed: bool
    /** What the socket will do next, and how many batches were processed. */
    var input: seq<Arrival>
    var grants: seq<Grant>
    var calls: nat

    /** All bytes received, the batches processed, the requests handed over, the quiet ones collected, all bytes produced and sent. */
    ghost var received: Bytes
    ghost var batches: seq<Bytes>
    /** How many bytes were in the buffer when each batch was handed over. */
    ghost var fills: seq<nat>
    ghost var handled: seq<Bytes>
    ghost var pending: seq<Bytes>
    ghost var produced: Bytes
    ghost var sent: Bytes

    constructor (serve: (nat, Bytes) -> (nat, Bytes))
      requires Serves(serve)
      ensures Valid() && Waiting() && !closed && received == [] && sent == [] && input == [] && grants == []
    {
      EmptyAccount(serve);
      hide Account, Collected, AllQuiet, AllFormed, SaneSize, Serves;
      this.serve := serve;
      recvBuf, sendBuf, quietOff, requests, writeOnly, closed := [], [], 0, 0, false, false;
      input, grants, calls := [], [], 0;
      received, batches, fills, handled, pending, produced, sent := [], [], [], [], [], [], [];
    }

    /**
     * Every byte received is in a request handed over or in the buffer; every byte that the batches produced is sent
     * or in the buffer.
     */
    ghost predicate Accounted()
      reads this`recvBuf, this`sendBuf, this`received, this`batches, this`handled, this`produced, this`sent, this`calls
    {
      Serves(serve) && calls == |batches| && Account(serve, batches, received, handled, recvBuf, produced) && produced == sent + sendBuf
    }

    /** The quiet requests collected are at the front of the buffer. */
    ghost predicate Orderly()
      reads this
    {
      && Accounted() && AllQuiet(pending) && requests == |pending|
      && Collected(recvBuf, quietOff, pending)
    }

    /** However much is asked for, what waits to be sent is less than one full buffer and the answers to one batch. */
    ghost predicate Bounded()
      reads this`sendBuf, this`batches
    {
      |sendBuf| < MAX_REQUEST_SIZE + LastOutput(serve, batches)
    }

    /** And every batch was formed as it should. */
    ghost predicate Valid()
      reads this
    {
      Orderly() && AllFormed(batches, fills) && Bounded()
    }

    /** The connection waits to write exactly when it has something to send; else only part of a request is left. */
    ghost predicate Waiting()
      reads this
    {
      closed || ((writeOnly <==> sendBuf != [])
                 && (!writeOnly ==> quietOff <= |recvBuf| && SaneSize(recvBuf[quietOff..], REQUEST_MAGIC) == 0))
    }

    /** A closed connection had a broken request, unless the socket failed. */
    ghost predicate ClosedForCause(calm: bool)
      reads this
    {
      calm ==> Calm(input, grants) &&
               (closed ==> quietOff <= |recvBuf| && SaneSize(recvBuf[quietOff..], REQUEST_MAGIC) == -1)
    }

    ghost function Size(): nat
      reads this
    {
      |Flat(input)| + |recvBuf|
    }

    /** Nothing that arrives is lost or made up, and nothing leaves that the socket does not take. */
    ghost predicate Flows(stream: Bytes, room: nat)
      reads this`received, this`input, this`sent, this`grants
    {
      received + Flat(input) == stream && |sent| + Room(grants) <= room
    }

    /** While it waits to read, the requests handed over and collected are the frame parse of the bytes received. */
    lemma ParsedExactly()
      requires Valid() && Waiting() && !closed && !writeOnly
      ensures handled + pending == Parse(received)
    {
      ParseConcat(handled, recvBuf);
      var rest := recvBuf[quietOff..];
      assert recvBuf == Concat(pending) + rest;
      ParseConcat(pending, rest);
      assert pending + [] == pending;
    }

    /** At any time the requests handed over are the first frames of that parse. */
    lemma ParsedPrefix()
      requires Valid()
      ensures handled <= Parse(received)
    {
      ParseConcat(handled, recvBuf);
    }

    /** While it waits to read every answer is sent, else some are not. */
    lemma Answered()
      requires Valid() && Waiting() && !closed
      ensures if writeOnly then sent < produced else sent == produced
    {
      assert sent + [] == sent;
    }

    method Close()
      modifies this`closed
      ensures closed
    {
      closed := true;
    }

    /** Takes one arrival from the socket. */
    method Receive(b: Bytes)
      requires Valid()
      modifies this`recvBuf, this`received
      ensures Valid() && received == old(received) + b && recvBuf == old(recvBuf) + b
    {
      HistoryGrows(serve, batches, received, b, |Concat(handled)|, produced);
      Regroup(Concat(handled), recvBuf, b);
      hide AllSane, AllQuiet, Serves, History, LastOutput;
      recvBuf := recvBuf + b;
      received := received + b;
    }

    /** Receives until the socket has no more for now; closes on the end of the stream or an error. */
    method ReadAll()
      requires Valid() && !closed
      modifies this`recvBuf, this`received, this`input, this`closed
      ensures Valid()
      ensures var n := Burst(old(input));
        && input == old(input)[n..]
        && received == old(received) + Flat(old(input)[..n]) && recvBuf == old(recvBuf) + Flat(old(input)[..n])
        && (closed <==> n > 0 && EndsStream(old(input)[n - 1]))
    {
      hide Conn.Accounted, LastOutput, Collected, AllQuiet, Flat, EndsStream;
      var more := true;
      ghost var n, got := 0, Flat(input[..0]);
      NothingFlat();
      assert received + [] == received && recvBuf + [] == recvBuf && got == [];
      while more && input != []
        invariant Valid() && !closed && n <= |old(input)| && input == old(input)[n..] && got == Flat(old(input)[..n])
        invariant received == old(received) + got && recvBuf == old(recvBuf) + got
        invariant BurstGoesOn(old(input), n, more)
        decreases |input|, more
      {
        var next := input[0];
        TakenOne(old(input), n);
        BurstNext(old(input), n);
        input := input[1..];
        n := n + 1;
        if EndsStream(next) {
          Close();
          return;
        }
        more := next.Data? && next.full;
        if next.Data? {
          Receive(next.bytes);
          Regroup(old(received), got, next.bytes);
          Regroup(old(recvBuf), got, next.bytes);
          got := got + next.bytes;
        }
      }
    }

    /** Hands the batch over and drops the requests that were taken. */
    method HandOver(ghost batch: seq<Bytes>)
      requires Accounted() && Collected(recvBuf, quietOff, batch) && batch != [] && |sendBuf| < MAX_REQUEST_SIZE
      modifies this`recvBuf, this`sendBuf, this`quietOff, this`requests, this`calls
      modifies this`batches, this`handled, this`pending, this`produced
      ensures Orderly() && Bounded() && |recvBuf| < old(|recvBuf|) && quietOff == 0 && requests == 0
      ensures old(handled) < handled && batches == old(batches) + [old(recvBuf[..quietOff])]
      ensures var (consumed, answers) := serve(old(calls), old(recvBuf[..quietOff]));
        && consumed <= old(|recvBuf|) && recvBuf == old(recvBuf)[consumed..]
        && sendBuf == old(sendBuf) + answers && produced == old(produced) + answers
    {
      hide AllQuiet, Serves, Collected, Account;
      CollectedFits(recvBuf, quietOff, batch);
      var (consumed, out) := serve(calls, recvBuf[..quietOff]);
      var k := BatchTaken(serve, batches, received, handled, recvBuf, quietOff, produced, batch);
      Regroup(sent, sendBuf, out);
      batches := batches + [recvBuf[..quietOff]];
      recvBuf := recvBuf[consumed..];
      handled := handled + batch[..k];
      sendBuf, produced := sendBuf + out, produced + out;
      calls := calls + 1;
      quietOff, requests, pending := 0, 0, [];
    }

    /** Hands over a batch that is quiet but for its last request, or as large as can be. */
    method ProcessBatch(ghost batch: seq<Bytes>)
      requires Accounted() && Collected(recvBuf, quietOff, batch) && batch != [] && |sendBuf| < MAX_REQUEST_SIZE
      requires AllFormed(batches, fills) && quietOff <= |recvBuf| && FormedFrom(batch, recvBuf[..quietOff], |recvBuf|)
      modifies this`recvBuf, this`sendBuf, this`quietOff, this`requests, this`calls
      modifies this`batches, this`fills, this`handled, this`pending, this`produced
      ensures Valid() && |recvBuf| < old(|recvBuf|) && quietOff == 0 && requests == 0
      ensures old(handled) < handled && batches == old(batches) + [old(recvBuf[..quietOff])] && fills == old(fills + [|recvBuf|])
      ensures var (consumed, answers) := serve(old(calls), old(recvBuf[..quietOff]));
        && consumed <= old(|recvBuf|) && recvBuf == old(recvBuf)[consumed..]
        && sendBuf == old(sendBuf) + answers && produced == old(produced) + answers
    {
      FormedMore(batches, fills, batch, recvBuf[..quietOff], |recvBuf|);
      hide Conn.Accounted, LastOutput, Conn.Orderly, Conn.Bounded, Collected, AllFormed, FormedFrom;
      fills := fills + [|recvBuf|];
      HandOver(batch);
    }

    /** Handles every request in the buffer; what they produce is sent at the end, or as soon as it is much. */
    method Swallow()
      requires Valid() && !closed && !writeOnly && sendBuf == []
      modifies this
      ensures Valid() && Waiting() && old(received) <= received && old(handled) <= handled && old(sent) <= sent
      ensures Flows(old(received + Flat(input)), old(|sent| + Room(grants))) && |input| <= |old(input)|
      ensures |grants| <= old(|grants|)
      ensures ClosedForCause(old(Calm(input, grants)))
      decreases Size(), 0
    {
      hide Conn.Accounted, LastOutput, AllQuiet, Collected, SaneSize, Calm, Flat, Room;
      var written, more := false, true;
      while more
        invariant Valid() && !closed && old(handled) <= handled && |recvBuf| <= old(|recvBuf|)
        invariant if written then |recvBuf| < old(|recvBuf|) else sendBuf == []
        invariant if more then |sendBuf| < MAX_REQUEST_SIZE else written
        modifies this`recvBuf, this`sendBuf, this`quietOff, this`requests, this`calls, this`closed
        modifies this`batches, this`fills, this`handled, this`pending, this`produced
        decreases more, |recvBuf|, |recvBuf| - quietOff
      {
        CollectedFits(recvBuf, quietOff, pending);
        var size, processed := NextRequest();
        if size == -1 {
          Close();
          return;
        }
        if size == 0 {
          break;
        }
        CollectedFits(recvBuf, quietOff, pending);
        if processed {
          written := true;
          more := |sendBuf| < MAX_REQUEST_SIZE;
        }
      }
      if written {
        Send();
      }
    }

    /** Looks at the next request: a quiet one is collected, another one is processed with those before it. */
    method NextRequest() returns (size: int, processed: bool)
      requires Valid() && quietOff <= |recvBuf| && |sendBuf| < MAX_REQUEST_SIZE
      modifies this`recvBuf, this`sendBuf, this`quietOff, this`requests, this`calls
      modifies this`batches, this`fills, this`handled, this`pending, this`produced
      ensures Valid() && old(handled) <= handled && size == SaneSize(old(recvBuf[quietOff..]), REQUEST_MAGIC) >= -1
      ensures if processed then size > 0 && |recvBuf| < old(|recvBuf|) else recvBuf == old(recvBuf) && sendBuf == old(sendBuf)
      ensures !processed ==> quietOff == old(quietOff) + if size > 0 then size else 0
      ensures size > 0 ==> HEADER_SIZE <= |old(recvBuf[quietOff..])|
      ensures size > 0 ==>
        (processed <==> !Quiet(old(recvBuf[quietOff..])) || old(|recvBuf|) >= MAX_REQUEST_SIZE || old(requests) >= MAX_QUIET_REQUESTS)
      ensures if processed then quietOff == 0 && requests == 0 && batches == old(batches + [recvBuf[..quietOff + size]])
              else batches == old(batches) && requests == old(requests) + if size > 0 then 1 else 0
    {
      hide Conn.Accounted, LastOutput, AllQuiet, Collected, SaneSize, AllFormed;
      processed := false;
      var newData := recvBuf[quietOff..];
      size := SaneSize(newData, REQUEST_MAGIC);
      SaneSizeFits(newData, REQUEST_MAGIC);
      if size <= 0 {
        return;
      }
      OneMore(recvBuf, quietOff, pending, size);
      ghost var batch := pending + [newData[..size]];
      quietOff, requests := quietOff + size, requests + 1;
      if Quiet(newData) && |recvBuf| < MAX_REQUEST_SIZE && requests <= MAX_QUIET_REQUESTS {
        QuietMore(pending, newData[..size]);
        pending := batch;
      } else {
        BatchFormed(recvBuf, quietOff, pending, newData[..size]);
        ProcessBatch(batch);
        processed := true;
      }
    }

    /** A readable socket: takes what has arrived and handles it. */
    method Recv()
      requires Valid() && !closed && !writeOnly && sendBuf == []
      modifies this
      ensures Valid() && Waiting() && old(received) <= received && old(handled) <= handled && old(sent) <= sent
      ensures Flows(old(received + Flat(input)), old(|sent| + Room(grants)))
      ensures var n := Burst(old(input)); old(received) + Flat(old(input)[..n]) <= received && |input| <= |old(input)| - n
      ensures |grants| <= old(|grants|)
      ensures ClosedForCause(old(Calm(input, grants)))
      decreases Size(), 1
    {
      BurstBytes(input, grants);
      hide Conn.Accounted, LastOutput, AllQuiet, Collected, SaneSize, Calm, Flat, Room, Burst, EndsStream;
      ReadAll();
      if !closed {
        Swallow();
      } else {
        CollectedFits(recvBuf, quietOff, pending);
      }
    }

    /** Sends what it can, then waits to send the rest, or goes on reading. */
    method Send()
      requires Valid() && !closed
      modifies this
      ensures Valid() && Waiting() && old(received) <= received && old(handled) <= handled && old(sent) <= sent
      ensures Flows(old(received + Flat(input)), old(|sent| + Room(grants))) && |input| <= |old(input)|
      ensures old(sent + sendBuf[..FirstGrant(grants, |sendBuf|)]) <= sent
      ensures old(Takes(grants)) ==> old(|sent| + Min(grants[0].n, |sendBuf|)) <= |sent|
      ensures old(Takes(grants) && grants[0].n < |sendBuf|) ==>
        !closed && writeOnly && sent == old(sent + sendBuf[..grants[0].n]) && sendBuf == old(sendBuf[grants[0].n..])
      ensures |grants| <= old(|grants|) && (old(sendBuf != [] && grants != []) ==> |grants| < old(|grants|))
      ensures ClosedForCause(old(Calm(input, grants)))
      decreases Size(), 2
    {
      hide AllQuiet, Collected, SaneSize, Calm, Flat, Room, Conn.Accounted, LastOutput, FirstGrant;
      CollectedFits(recvBuf, quietOff, pending);
      if sendBuf != [] {
        Push();
        if closed {
          return;
        }
      }
      writeOnly := sendBuf != [];
      if !writeOnly && recvBuf != [] {
        Recv();
      }
    }

    /** One send: what the socket takes leaves the buffer. */
    method Push()
      requires Valid() && !closed && sendBuf != []
      modifies this`sendBuf, this`sent, this`grants, this`closed
      ensures Valid() && |sent| + Room(grants) <= old(|sent| + Room(grants))
      ensures Calm(input, old(grants)) ==> Calm(input, grants) && !closed
      ensures var n := old(FirstGrant(grants, |sendBuf|));
        sendBuf == if closed then old(sendBuf) else old(sendBuf)[n..]
      ensures sent == old(sent + sendBuf[..FirstGrant(grants, |sendBuf|)])
      ensures grants == if old(grants) == [] then [] else old(grants[1..])
      ensures old(Takes(grants)) ==> !closed && |sent| == old(|sent| + Min(grants[0].n, |sendBuf|))
      ensures closed <==> old(grants != [] && (grants[0].Failed? || grants[0] == Taken(0)))
    {
      hide AllQuiet, Collected, History, Serves, AllSane, Concat, LastOutput;
      var next := if grants == [] then Refused else grants[0];
      var n := FirstGrant(grants, |sendBuf|);
      grants := if grants == [] then [] else grants[1..];
      if next.Failed? || (next.Taken? && next.n == 0) {
        Close();
        assert sent + sendBuf[..0] == sent;
        return;
      }
      assert sendBuf == sendBuf[..n] + sendBuf[n..];
      Regroup(sent, sendBuf[..n], sendBuf[n..]);
      sent := sent + sendBuf[..n];
      sendBuf := sendBuf[n..];
    }

    /** Nothing is left of what the connection waits for. */
    ghost predicate Idle()
      reads this`closed, this`writeOnly, this`grants, this`input
    {
      closed || (if writeOnly then grants == [] else input == [])
    }

    /**
     * A socket with something to read is reported again until it is read, and one that can take more until it is full,
     * whichever the connection waits for.
     */
    method Drain()
      requires Valid() && Waiting()
      modifies this
      ensures Valid() && Waiting() && old(received) <= received && old(handled) <= handled && old(sent) <= sent
      ensures Flows(old(received + Flat(input)), old(|sent| + Room(grants)))
      ensures Idle()
      ensures old(closed) || ClosedForCause(old(Calm(input, grants)))
    {
      hide Conn.Accounted, LastOutput, AllQuiet, Collected, SaneSize, Calm, Flat, Room, Burst;
      while !closed && (if writeOnly then grants != [] else input != [])
        invariant Valid() && Waiting() && old(received) <= received && old(handled) <= handled && old(sent) <= sent
        invariant Flows(old(received + Flat(input)), old(|sent| + Room(grants)))
        invariant old(closed) || ClosedForCause(old(Calm(input, grants)))
        decreases |input| + |grants|
      {
        if writeOnly {
          Send();
        } else {
          Recv();
        }
      }
    }

    /** One event: more arrives, the socket can take more, and the connection gets what it waits for. */
    method Event(arrived: seq<Arrival>, room: seq<Grant>)
      requires Valid() && Waiting() && !closed
      modifies this
      ensures Valid() && Waiting() && old(received) <= received && old(handled) <= handled && old(sent) <= sent
      ensures Flows(old(received + Flat(input)) + Flat(arrived), old(|sent| + Room(grants)) + Room(room))
      ensures Idle()
      ensures ClosedForCause(old(Calm(input, grants)) && Calm(arrived, room))
    {
      CalmJoin(input, grants, arrived, room);
      hide Conn.Accounted, LastOutput, AllQuiet, Collected, SaneSize, Calm, Flat, Room;
      FlatSplit(input, arrived);
      RoomSplit(grants, room);
      Regroup(received, Flat(input), Flat(arrived));
      input, grants := input + arrived, grants + room;
      Drain();
    }

    /**
     * Any run of events: however the stream is cut, the requests handed over are the first frames of its parse, and
     * while the connection waits to read they are, with the quiet ones collected, the parse of all that arrived, and every
     * answer is sent. A connection that waits to write has used every grant.
     */
    method Run(events: seq<(seq<Arrival>, seq<Grant>)>) returns (taken: nat)
      requires Valid() && Waiting() && Idle()
      modifies this
      ensures Valid() && Waiting() && taken <= |events| && (taken == |events| || closed)
      ensures old(received) <= received && old(sent) <= sent
      ensures Flows(old(received + Flat(input)) + Arrived(events, taken), old(|sent| + Room(grants)) + Granted(events, taken))
      ensures old(handled) <= handled <= Parse(received)
      ensures old(closed) || ClosedForCause(old(Calm(input, grants)) && AllCalm(events))
      ensures !closed && !writeOnly ==>
        handled + pending == Parse(received) && received == old(received + Flat(input)) + Arrived(events, |events|) && sent == produced
      ensures !closed && writeOnly ==> grants == [] && sent < produced
    {
      hide Conn.Accounted, LastOutput, AllQuiet, Collected, SaneSize, Calm, Flat, Room;
      taken := 0;
      assert old(received + Flat(input)) + [] == old(received + Flat(input));
      while taken < |events| && !closed
        invariant taken <= |events| && Valid() && Waiting() && Idle()
        invariant old(received) <= received && old(handled) <= handled && old(sent) <= sent
        invariant Flows(old(received + Flat(input)) + Arrived(events, taken), old(|sent| + Room(grants)) + Granted(events, taken))
        invariant old(closed) || ClosedForCause(old(Calm(input, grants)) && AllCalm(events))
      {
        Regroup(old(received + Flat(input)), Arrived(events, taken), Flat(events[taken].0));
        Event(events[taken].0, events[taken].1);
        taken := taken + 1;
      }
      ParsedPrefix();
      if !closed { Answered(); }
      if !closed && !writeOnly {
        ParsedExactly();
        NothingFlat();
        assert received + [] == received;
      }
    }
  }

  /** The bytes that arrive in the first `n` events. */
  ghost function Arrived(events: seq<(seq<Arrival>, seq<Grant>)>, n: nat): Bytes
    requires n <= |events|
  {
    if n == 0 then [] else Arrived(events, n - 1) + Flat(events[n - 1].0)
  }

  ghost function Granted(events: seq<(seq<Arrival>, seq<Grant>)>, n: nat): nat
    requires n <= |events|
  {
    if n == 0 then 0 else Granted(events, n - 1) + Room(events[n - 1].1)
  }

  ghost predicate AllCalm(events: seq<(seq<Arrival>, seq<Grant>)>)
  {
    forall i :: 0 <= i < |events| ==> Calm(events[i].0, events[i].1)
  }

  lemma CalmJoin(input: seq<Arrival>, grants: seq<Grant>, arrived: seq<Arrival>, room: seq<Grant>)
    ensures Calm(input, grants) && Calm(arrived, room) ==> Calm(input + arrived, grants + room)
  {
  }

  lemma NothingFlat()
    ensures Flat([]) == []
  {
  }

  lemma Regroup(a: Bytes, b: Bytes, c: Bytes)
    ensures a + (b + c) == a + b + c
  {
  }

  /** Of a burst, `n` arrivals are taken, none of which ends the stream; `more` says whether it goes on. */
  ghost predicate BurstGoesOn(input: seq<Arrival>, n: nat, more: bool)
  {
    && n <= |input| && Burst(input) == n + (if more then Burst(input[n..]) else 0)
    && (n > 0 ==> !EndsStream(input[n - 1]))
  }

  lemma BurstNext(input: seq<Arrival>, n: nat)
    requires n < |input| && BurstGoesOn(input, n, true)
    ensures var a := input[n];
      if EndsStream(a) then Burst(input) == n + 1 && (if a.Data? then a.bytes else []) == []
      else BurstGoesOn(input, n + 1, a.Data? && a.full)
  {
    assert input[n..][0] == input[n] && input[n..][1..] == input[n + 1..];
  }

  lemma TakenOne(input: seq<Arrival>, n: nat)
    requires n < |input|
    ensures input[n..][0] == input[n] && input[n..][1..] == input[n + 1..]
    ensures Flat(input[..n + 1]) == Flat(input[..n]) + if input[n].Data? then input[n].bytes else []
  {
    assert input[..n + 1] == input[..n] + [input[n]];
    FlatSplit(input[..n], [input[n]]);
    assert [input[n]][1..] == [];
  }

  /** What a burst leaves is the rest of the stream. */
  lemma BurstBytes(input: seq<Arrival>, grants: seq<Grant>)
    ensures var n := Burst(input);
      && Flat(input) == Flat(input[..n]) + Flat(input[n..])
      && (Calm(input, grants) ==> Calm(input[n..], grants) && (n > 0 ==> !EndsStream(input[n - 1])))
  {
    var n := Burst(input);
    assert input == input[..n] + input[n..];
    FlatSplit(input[..n], input[n..]);
  }

  /** The batch is the next piece of the stream. */
  lemma NextInStream(serve: (nat, Bytes) -> (nat, Bytes), batches: seq<Bytes>, received: Bytes, handled: seq<Bytes>,
                     buf: Bytes, off: nat, produced: Bytes)
    requires History(serve, batches, received, |Concat(handled)|, produced)
    requires received == Concat(handled) + buf && off <= |buf|
    ensures var (n, out) := serve(|batches|, buf[..off]);
      History(serve, batches + [buf[..off]], received, |Concat(handled)| + n, produced + out)
  {
    var at := |Concat(handled)|;
    hide History, Concat;
    assert received[at..at + |buf[..off]|] == buf[..off];
    HistoryNext(serve, batches, received, buf[..off], at, produced);
  }

  /** Everything that changes when a batch is handed over. */
  lemma BatchTaken(serve: (nat, Bytes) -> (nat, Bytes), batches: seq<Bytes>, received: Bytes, handled: seq<Bytes>,
                   buf: Bytes, off: nat, produced: Bytes, batch: seq<Bytes>) returns (k: nat)
    requires Serves(serve) && Account(serve, batches, received, handled, buf, produced)
    requires Collected(buf, off, batch) && batch != []
    ensures off <= |buf| && k <= |batch|
    ensures var (consumed, out) := serve(|batches|, buf[..off]);
      && 0 < consumed <= |buf| && handled < handled + batch[..k]
      && Collected(buf[consumed..], 0, []) && AllQuiet([])
      && Account(serve, batches + [buf[..off]], received, handled + batch[..k], buf[consumed..], produced + out)
  {
    k := ServedCut(serve, |batches|, batch);
    var (consumed, out) := serve(|batches|, buf[..off]);
    NextInStream(serve, batches, received, handled, buf, off, produced);
    hide History, Serves;
    TakeBatch(received, handled, buf, off, batch, consumed, k);
    BytesOf(handled, batch, k, consumed);
  }

  lemma BytesOf(handled: seq<Bytes>, batch: seq<Bytes>, k: nat, consumed: nat)
    requires Cuts(batch, consumed, k)
    ensures |Concat(handled + batch[..k])| == |Concat(handled)| + consumed
  {
    ConcatSplit(handled, batch[..k]);
  }

  /** The first `off` bytes of the buffer are the frames of the batch. */
  ghost predicate Collected(buf: Bytes, off: nat, batch: seq<Bytes>)
  {
    AllSane(batch) && off == |Concat(batch)| <= |buf| && buf[..off] == Concat(batch)
  }

  /** Every byte received is in a request handed over or in the buffer, and the batches so far explain the rest. */
  ghost predicate Account(serve: (nat, Bytes) -> (nat, Bytes), batches: seq<Bytes>, received: Bytes, handled: seq<Bytes>,
                          buf: Bytes, produced: Bytes)
  {
    && received == Concat(handled) + buf && AllSane(handled)
    && History(serve, batches, received, |Concat(handled)|, produced)
  }

  lemma ServedCut(serve: (nat, Bytes) -> (nat, Bytes), call: nat, batch: seq<Bytes>) returns (k: nat)
    requires Serves(serve) && AllSane(batch) && batch != []
    ensures Cuts(batch, serve(call, Concat(batch)).0, k)
  {
    assert ServesBatch(serve, call, batch);
    k :| Cuts(batch, serve(call, Concat(batch)).0, k);
  }

  /** The first `k` requests of the batch are the first bytes of the buffer. */
  lemma CutBatch(buf: Bytes, off: nat, batch: seq<Bytes>, consumed: nat, k: nat)
    requires Collected(buf, off, batch) && Cuts(batch, consumed, k)
    ensures 0 < consumed <= |buf| && buf[..consumed] == Concat(batch[..k]) && AllSane(batch[..k])
  {
    assert batch == batch[..k] + batch[k..];
    ConcatSplit(batch[..k], batch[k..]);
    assert SaneFrame(batch[0]);
    assert batch[..k][0] == batch[0];
    assert buf[..consumed] == buf[..off][..consumed];
  }

  lemma TakeBatch(received: Bytes, handled: seq<Bytes>, buf: Bytes, off: nat, batch: seq<Bytes>, consumed: nat, k: nat)
    requires received == Concat(handled) + buf && AllSane(handled) && Collected(buf, off, batch) && Cuts(batch, consumed, k)
    ensures 0 < consumed <= |buf| && handled < handled + batch[..k] && received == Concat(handled + batch[..k]) + buf[consumed..]
    ensures AllSane(handled + batch[..k]) && Collected(buf[consumed..], 0, []) && AllQuiet([])
  {
    CutBatch(buf, off, batch, consumed, k);
    ConcatSplit(handled, batch[..k]);
    hide Concat, SaneFrame;
    assert buf == buf[..consumed] + buf[consumed..];
    NothingCollected(buf[consumed..]);
  }

  lemma NothingCollected(buf: Bytes)
    ensures Collected(buf, 0, [])
  {
  }

  lemma CollectedFits(buf: Bytes, off: nat, batch: seq<Bytes>)
    requires Collected(buf, off, batch)
    ensures off <= |buf| && (buf == [] ==> SaneSize(buf[off..], REQUEST_MAGIC) == 0)
  {
  }

  lemma EmptyAccount(serve: (nat, Bytes) -> (nat, Bytes))
    ensures Account(serve, [], [], [], [], []) && Collected([], 0, []) && AllQuiet([]) && AllFormed([], [])
    ensures SaneSize([][0..], REQUEST_MAGIC) == 0
  {
  }

  /** The batch that ends with request `f`. */
  lemma BatchFormed(buf: Bytes, off: nat, quiet: seq<Bytes>, f: Bytes)
    requires AllQuiet(quiet) && Collected(buf, off, quiet + [f]) && HEADER_SIZE <= |f| && off <= |buf|
    requires !Quiet(f) || |buf| >= MAX_REQUEST_SIZE || |quiet| >= MAX_QUIET_REQUESTS
    ensures FormedFrom(quiet + [f], buf[..off], |buf|)
  {
    assert (quiet + [f])[..|quiet|] == quiet;
    hide AllQuiet, Quiet;
  }

  lemma QuietMore(fs: seq<Bytes>, f: Bytes)
    requires AllQuiet(fs) && HEADER_SIZE <= |f| && Quiet(f)
    ensures AllQuiet(fs + [f])
  {
  }

  /** The next request joins the batch. */
  lemma OneMore(buf: Bytes, off: nat, batch: seq<Bytes>, size: nat)
    requires Collected(buf, off, batch) && size == SaneSize(buf[off..], REQUEST_MAGIC) > 0
    ensures off + size <= |buf| && HEADER_SIZE <= size
    ensures Collected(buf, off + size, batch + [buf[off..][..size]])
    ensures Quiet(buf[off..]) == Quiet(buf[off..][..size])
  {
    var f := buf[off..][..size];
    SaneSizeFits(buf[off..], REQUEST_MAGIC);
    SaneCut(buf[off..]);
    hide SaneSize;
    ConcatSnoc(batch, f);
    assert buf[..off + size] == buf[..off] + f;
  }
}
