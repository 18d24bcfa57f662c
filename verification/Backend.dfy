/** The proxy's exchange with one storage server: a batch of requests out, one answer each back. */
module Backend {
  import opened Keys
  import opened Frames
  import opened Courses

  ghost function ErrorFor(req: Bytes): Bytes { if HEADER_SIZE <= |req| then ErrorFrame(req) else [] }

  /** The error answers for a list of requests. */
  ghost function Errors(reqs: seq<Bytes>): seq<Bytes>
  {
    if reqs == [] then [] else [ErrorFor(reqs[0])] + Errors(reqs[1..])
  }

  lemma {:induction false} ErrorsSnoc(reqs: seq<Bytes>, f: Bytes)
    ensures Errors(reqs + [f]) == Errors(reqs) + [ErrorFor(f)]
  {
    if reqs == [] {
      assert Errors([f]) == [ErrorFor(f)] + Errors([]);
    } else {
      assert (reqs + [f])[1..] == reqs[1..] + [f];
      ErrorsSnoc(reqs[1..], f);
    }
  }

  lemma {:induction false} ErrorsAre(reqs: seq<Bytes>)
    ensures |Errors(reqs)| == |reqs| && forall i :: 0 <= i < |reqs| ==> Errors(reqs)[i] == ErrorFor(reqs[i])
  {
    if reqs != [] { ErrorsAre(reqs[1..]); }
  }

  lemma ErrorFrameHead(f: Bytes, rest: Bytes)
    requires IsFrame(f)
    ensures ErrorFrame(f + rest) == ErrorFrame(f) == ErrorFor(f)
  {
    assert (f + rest)[12..16] == f[12..16];
  }

  /** The error answers made once the walk stands at request `n`. */
  ghost function MadeUp(batch: seq<Bytes>, answered: nat, n: nat): Bytes
    requires n <= |batch|
  {
    if n <= answered then [] else Concat(Errors(batch[answered..n]))
  }

  lemma MadeUpNext(batch: seq<Bytes>, answered: nat, n: nat)
    requires answered <= n < |batch|
    ensures MadeUp(batch, answered, n + 1) == MadeUp(batch, answered, n) + ErrorFor(batch[n])
  {
    hide ErrorFor;
    var before, f := batch[answered..n], batch[n];
    NoErrors(before);
    assert batch[answered..n + 1] == before + [f];
    ErrorsSnoc(before, f);
    ConcatSnoc(Errors(before), ErrorFor(f));
  }

  lemma WalkOne(batch: seq<Bytes>, n: nat, req: Bytes)
    requires AllFrames(batch) && n <= |batch| && req == Concat(batch[n..]) != []
    ensures n < |batch| && HEADER_SIZE <= |req| && FrameSize(req) == |batch[n]| <= |req|
    ensures ErrorFrame(req) == ErrorFor(batch[n]) && req[|batch[n]|..] == Concat(batch[n + 1..])
  {
    var f, rest := batch[n], Concat(batch[n + 1..]);
    assert batch[n..][1..] == batch[n + 1..];
    HeadFrame(f, rest);
    ErrorFrameHead(f, rest);
  }

  /** Walks the queued requests again and makes an error answer for each from number `answered` on. */
  method ErrorAnswers(sent: Bytes, answered: nat, ghost batch: seq<Bytes>) returns (out: Bytes)
    requires AllFrames(batch) && sent == Concat(batch) && answered <= |batch|
    ensures out == Concat(Errors(batch[answered..]))
  {
    var requestNo := 0;
    var req := sent;
    out := [];
    assert batch[0..] == batch;
    while req != []
      invariant requestNo <= |batch| && req == Concat(batch[requestNo..]) && out == MadeUp(batch, answered, requestNo)
      decreases |batch| - requestNo
    {
      hide ErrorFrame, FrameSize, ErrorFor, Errors, Concat;
      WalkOne(batch, requestNo, req);
      var size := FrameSize(req);
      if requestNo >= answered {
        MadeUpNext(batch, answered, requestNo);
        out := out + ErrorFrame(req);
      }
      requestNo := requestNo + 1;
      req := req[size..];
    }
    AllWalked(batch, requestNo);
    NoErrors(batch[answered..]);
    assert batch[answered..|batch|] == batch[answered..];
  }

  lemma NoErrors(reqs: seq<Bytes>)
    ensures reqs == [] ==> Concat(Errors(reqs)) == []
  {
  }

  lemma AllWalked(batch: seq<Bytes>, n: nat)
    requires AllFrames(batch) && n <= |batch|
    ensures Concat(batch[n..]) == [] ==> n == |batch|
  {
    if n < |batch| { assert batch[n..][0] == batch[n]; }
  }

  class Server {
    var sd: int
    var sendBuf: Bytes
    var sendOffset: nat
    var requests: nat
    var recvBuf: Bytes
    var recvOffset: nat
    var responses: nat
    /** The callback armed for this server in the event loop. */
    var armed: Callback
    /** What the storage server will have sent and nobody has received yet. */
    var socket: Bytes

    /** The batch, the answers counted so far, what came beyond the last one due, all bytes received and all bytes sent. */
    ghost var batch: seq<Bytes>
    ghost var got: seq<Bytes>
    ghost var extra: Bytes
    ghost var wire: Bytes
    ghost var out: Bytes
    /** How many bytes had been received when answers were last counted. */
    ghost var ok: nat

    /** A server with a batch queued, and perhaps bytes in its receive buffer from earlier. */
    constructor (sd: int, sendBuf: Bytes, requests: nat, recvBuf: Bytes, socket: Bytes, ghost batch: seq<Bytes>)
      requires AllFrames(batch) && batch != [] && sendBuf == Concat(batch) && requests == |batch|
      ensures Untried() && this.sd == sd && Track() == Course(Nothing, 0, |recvBuf|, 0)
      ensures Task() == Job(batch, recvBuf + socket)
    {
      this.sd, this.sendBuf, this.requests, this.recvBuf, this.socket := sd, sendBuf, requests, recvBuf, socket;
      sendOffset, recvOffset, responses, armed := 0, 0, 0, Nothing;
      this.batch, got, extra, wire, out, ok := batch, [], [], recvBuf, [], 0;
      assert IsFrame(batch[0]);
    }

    /** The batch, and everything in the receive buffer and still to come: all this exchange can see of the storage server. */
    ghost function Task(): Job
      reads this`batch, this`wire, this`socket
    {
      Job(batch, wire + socket)
    }

    ghost function Track(): Course
      reads this`armed, this`sendOffset, this`wire, this`ok
    {
      Course(armed, sendOffset, |wire|, ok)
    }

    /** The answers counted are all the whole ones received by reads that did not fail. */
    ghost predicate Tallied()
      reads this`batch, this`got, this`wire, this`ok
    {
      ok <= |wire| && got == Whole(wire[..ok], |batch|)
    }

    /** Counting is under way. */
    ghost predicate Counting()
      reads this`batch, this`got, this`wire, this`ok, this`recvBuf, this`recvOffset
    {
      ok == |wire| && recvOffset <= |recvBuf| && Ahead(wire, |batch|, got, recvBuf[recvOffset..])
    }

    /** The counters and buffers agree with the batch and the answers; there are some only once the batch is sent. */
    ghost predicate Ledger()
      reads this`batch, this`sendBuf, this`requests, this`got, this`responses, this`recvBuf, this`wire, this`recvOffset
      reads this`sendOffset, this`out
    {
      Balanced(batch, sendBuf, requests, got, responses, recvBuf, wire, recvOffset, sendOffset, out)
    }

    /** An exchange is under way. */
    ghost predicate Busy()
      reads this`batch, this`sendBuf, this`requests, this`got, this`responses, this`recvBuf, this`wire, this`recvOffset
      reads this`sendOffset, this`out
    {
      Ledger() && responses < requests
    }

    /** A batch is queued and nothing has happened yet. */
    ghost predicate Untried()
      reads this
    {
      Busy() && Tallied() && armed.Nothing? && sendOffset == 0 < |sendBuf| && ok == 0
    }

    /** It waits for the event that its progress calls for. */
    ghost predicate Poised()
      reads this
    {
      Busy() && Tallied() && !armed.Nothing? && (armed.OnReadable? <==> sendOffset == |sendBuf|)
    }

    /** The answers counted are the first frames received; only after the whole batch was sent are there any. */
    ghost predicate Genuine()
      reads this`batch, this`got, this`wire, this`out, this`extra
    {
      && AllFrames(batch) && Answers(got) && |got| <= |batch| && Concat(got) <= wire
      && out <= Concat(batch) && (got != [] ==> out == Concat(batch))
      && (|got| < |batch| ==> extra == []) && (|got| == |batch| ==> Concat(got) + extra == wire)
    }

    /** The exchange is over: real answers to the first requests, error answers to the others. */
    ghost predicate Finished()
      reads this
    {
      && Genuine() && Tallied() && (|got| == |batch| ==> ok == |wire|)
      && recvBuf == Concat(got + Errors(batch[|got|..])) + extra
      && sendBuf == [] && sendOffset == 0 && requests == 0 && recvOffset == 0 && responses == 0
      && armed.Nothing?
    }

    /** Forgets the batch that was answered. */
    method DoDone() returns (slots: nat)
      requires Genuine() && Tallied() && (|got| == |batch| ==> ok == |wire|) && armed.Nothing?
      requires recvBuf == Concat(got + Errors(batch[|got|..])) + extra
      modifies this`sendBuf, this`requests, this`responses, this`sendOffset, this`recvOffset
      ensures Finished() && slots == 0
    {
      hide Genuine, Errors, Concat, Tallied;
      sendBuf, requests, responses, sendOffset, recvOffset := [], 0, 0, 0, 0;
      slots := 0;
    }

    lemma BusyIsGenuine()
      requires Busy() && extra == []
      ensures Genuine() && |got| < |batch| && |got| == responses && recvOffset <= |recvBuf|
      ensures recvBuf[..recvOffset] == Concat(got) && AllFrames(batch) && sendBuf == Concat(batch)
    {
      assert sendBuf[..|sendBuf|] == sendBuf;
    }

    /** Answers every unanswered request with an error. */
    method AnswerRest() returns (slots: nat)
      requires Genuine() && Tallied() && armed.Nothing? && |got| == responses < |batch|
      requires recvBuf == Concat(got) && sendBuf == Concat(batch) && extra == []
      modifies this`recvBuf, this`sendBuf, this`requests, this`responses, this`sendOffset, this`recvOffset
      ensures Finished() && slots == 0 && sendOffset == 0
    {
      assert AllFrames(batch);
      hide Server.Genuine, Server.Tallied, Errors, Concat, AllFrames;
      var errs := ErrorAnswers(sendBuf, responses, batch);
      ConcatSplit(got, Errors(batch[|got|..]));
      recvBuf := recvBuf + errs;
      assert recvBuf + [] == recvBuf;
      slots := DoDone();
    }

    /** Drops a partial answer and answers every unanswered request with an error. */
    method DoError() returns (slots: nat)
      requires Busy() && Tallied() && armed.Nothing?
      modifies this`recvBuf, this`extra, this`sendBuf, this`requests, this`responses, this`sendOffset, this`recvOffset
      ensures Finished() && slots == 0 && sendOffset == 0
    {
      extra := [];
      BusyIsGenuine();
      hide Server.Busy, Server.Ledger, Server.Genuine, Server.Tallied, Server.Finished, Concat, AllFrames;
      if |recvBuf| > recvOffset {
        recvBuf := recvBuf[..recvOffset];
      }
      WholePrefix(recvBuf, recvOffset);
      slots := AnswerRest();
    }

    method DoConnectionError() returns (slots: nat)
      requires Busy() && Tallied() && armed.Nothing?
      modifies this`recvBuf, this`extra, this`sendBuf, this`requests, this`responses, this`sendOffset, this`recvOffset, this`sd
      ensures Finished() && slots == 0 && sd < 0 && sendOffset == 0
    {
      hide Server.Busy, Server.Tallied, Server.Finished;
      if sd >= 0 {
        sd := -1;
      }
      slots := DoError();
    }

    /** Waiting for an event, and one slot used for it; or over. */
    ghost predicate Settled(slots: nat)
      reads this
    {
      if slots == 0 then Finished() else slots == 1 && Poised()
    }

    /** Sends some of the queued bytes, then waits to send more or to read. */
    method DoWrite(w: SendResult) returns (slots: nat)
      requires Busy() && Tallied() && armed.Nothing? && sendOffset < |sendBuf|
      modifies this
      ensures Settled(slots) && Task() == old(Task()) && (slots == 0 ==> sd < 0) && (slots == 1 ==> sd == old(sd))
      ensures Track() == WriteStep(Task(), old(sendOffset), old(|wire|), old(ok), w)
      ensures slots == 1 <==> w.WouldBlock? || (w.Sent? && w.n > 0)
      ensures w.Sent? && w.n > 0 ==> |out| == old(|out|) + Min(w.n, old(|sendBuf| - sendOffset)) && old(out) <= out <= old(sendBuf)
      ensures w.Sent? && w.n > 0 ==> armed == if w.n < old(|sendBuf| - sendOffset) then OnWritable else OnReadable
      ensures w.WouldBlock? ==> out == old(out) && armed == OnWritable
    {
      hide Whole;
      if !SendFine(w) {
        slots := DoConnectionError();
        return;
      }
      var r := if w.Sent? then Min(w.n, |sendBuf| - sendOffset) else 0;
      assert sendBuf[..sendOffset + r] == sendBuf[..sendOffset] + sendBuf[sendOffset..sendOffset + r];
      out := out + sendBuf[sendOffset..sendOffset + r];
      sendOffset := sendOffset + r;
      if sendOffset != |sendBuf| {
        armed := OnWritable;
      } else {
        armed := OnReadable;
      }
      slots := 1;
    }

    method DoStart(start: Start) returns (slots: nat)
      requires Untried()
      modifies this
      ensures Settled(slots) && Task() == old(Task()) && Track() == Begin(Task(), old(|wire|), old(sd), start)
    {
      hide Whole;
      if sd < 0 {
        if !start.mayRetry {
          slots := DoError();
          return;
        }
        if start.fd < 0 {
          slots := DoConnectionError();
          return;
        }
        sd := start.fd;
        armed := OnConnected;
        return 1;
      }
      slots := DoWrite(start.w);
    }

    method DoConnected(connected: bool, w: SendResult) returns (slots: nat)
      requires Busy() && Tallied() && armed.Nothing? && sendOffset < |sendBuf|
      modifies this
      ensures Settled(slots) && Task() == old(Task())
      ensures Track() == if connected then WriteStep(Task(), old(sendOffset), old(|wire|), old(ok), w)
                         else Course(Nothing, 0, old(|wire|), old(ok))
    {
      hide Server.Busy, Server.Tallied;
      if connected {
        slots := DoWrite(w);
      } else {
        slots := DoConnectionError();
      }
    }

    /** Takes what arrived, counts whole answers, and stops at the last one due. */
    method DoRead(arrived: nat, failed: bool) returns (slots: nat)
      requires Busy() && Tallied() && armed.Nothing? && sendOffset == |sendBuf|
      modifies this
      ensures Settled(slots) && Task() == old(Task())
      ensures Track() == ReadStep(Task(), old(sendOffset), old(|wire|), old(ok), arrived, failed)
    {
      ghost var j := Task();
      Arrive(Min(arrived, |socket|));
      ReadStepIs(j, sendOffset, old(|wire|), ok, arrived, wire, socket);
      hide Server.Busy, Server.Ledger, Server.Tallied, Server.Finished, Server.Poised, Ends, ReadStep;
      if failed {
        slots := DoConnectionError();
      } else {
        slots := CountAnswers();
      }
    }

    /** Answers are being counted, with the whole batch of `off` bytes sent. */
    ghost predicate AtWork(off: nat)
      reads this
    {
      Busy() && Counting() && armed.Nothing? && sendOffset == |sendBuf| == off
    }

    /** All whole answers are counted. */
    ghost predicate Counted(slots: nat, off: nat)
      reads this
    {
      && Settled(slots) && ok == |wire| && (slots == 0 <==> Ends(Task(), wire))
      && if slots == 0 then armed == Nothing && sendOffset == 0 else armed == OnReadable && sendOffset == off
    }

    /** Looks at the next answer in the buffer. */
    method CountStep() returns (more: bool, slots: nat)
      requires AtWork(sendOffset)
      modifies this`got, this`recvBuf, this`extra, this`sendBuf, this`requests, this`responses, this`sendOffset
      modifies this`recvOffset, this`sd, this`armed
      ensures if more then AtWork(old(sendOffset)) && |got| == old(|got|) + 1 else Counted(slots, old(sendOffset))
    {
      LookAhead();
      hide Server.Busy, Server.Ledger, Server.Finished, Server.Tallied, Server.Counting, Ends, SaneSize;
      var size := SaneSize(recvBuf[recvOffset..], RESPONSE_MAGIC);
      if size == -1 {
        slots := DoConnectionError();
        more := false;
      } else if size == 0 {
        armed := OnReadable;
        more, slots := false, 1;
      } else {
        var done := TakeAnswer(size);
        if done { AllAnswered(); }
        more, slots := !done, 0;
      }
    }

    /** What the size of the next answer says. */
    lemma LookAhead()
      requires Busy() && Counting()
      ensures recvOffset <= |recvBuf|
      ensures var size := SaneSize(recvBuf[recvOffset..], RESPONSE_MAGIC);
        size >= -1 && (size <= 0 ==> Tallied() && (Ends(Task(), wire) <==> size == -1))
    {
      var b := recvBuf[recvOffset..];
      SaneSizeFits(b, RESPONSE_MAGIC);
      hide Whole, Rest, Ahead, SaneSize;
      if SaneSize(b, RESPONSE_MAGIC) <= 0 { AheadEnd(wire, |batch|, got, b); }
      assert wire[..ok] == wire;
    }

    /** Counts all whole answers in the buffer, up to the last one due. */
    method CountAnswers() returns (slots: nat)
      requires Busy() && Tallied() && armed.Nothing? && sendOffset == |sendBuf|
      modifies this`got, this`recvBuf, this`extra, this`sendBuf, this`requests, this`responses, this`sendOffset
      modifies this`recvOffset, this`sd, this`armed, this`ok
      ensures Counted(slots, old(sendOffset))
    {
      BeginCounting();
      ok := |wire|;
      assert AtWork(sendOffset);
      AtWorkFits(sendOffset);
      hide Server.AtWork, Server.Counted;
      var more := true;
      slots := 0;
      ghost var off := sendOffset;
      while more
        invariant if more then AtWork(off) && sendOffset == off && |got| < |batch| else Counted(slots, off)
        decreases more, |batch| - |got|
      {
        more, slots := CountStep();
        if more { AtWorkFits(off); }
      }
    }

    lemma AtWorkFits(off: nat)
      requires AtWork(off)
      ensures |got| < |batch| && sendOffset == off
    {
    }

    lemma BeginCounting()
      requires Busy() && Tallied()
      ensures recvOffset <= |recvBuf| && Ahead(wire, |batch|, got, recvBuf[recvOffset..])
    {
      AheadStart(wire, ok, |batch|, got);
    }

    lemma AllAnswered()
      requires Finished() && |got| == |batch|
      ensures Ends(Task(), wire)
    {
      hide Whole, Rest;
      assert wire[..ok] == wire;
    }

    /** Receives the next bytes of the stream. */
    method Arrive(n: nat)
      requires Busy() && n <= |socket|
      modifies this`recvBuf, this`socket, this`wire
      ensures Busy() && Task() == old(Task()) && wire == old(wire + socket[..n]) && (old(Tallied()) ==> Tallied())
    {
      assert ok <= |wire| ==> wire[..ok] == (wire + socket[..n])[..ok];
      var data := socket[..n];
      assert socket == data + socket[n..];
      assert wire + (data + socket[n..]) == wire + data + socket[n..];
      recvBuf := recvBuf + data;
      socket := socket[n..];
      wire := wire + data;
    }

    /** Counts one whole answer. */
    method Tally(size: nat)
      requires Busy() && Counting() && sendOffset == |sendBuf|
      requires size == SaneSize(recvBuf[recvOffset..], RESPONSE_MAGIC) > 0
      modifies this`got, this`responses, this`recvOffset
      ensures Ledger() && Counting() && responses == old(responses) + 1
      ensures got == old(got + [recvBuf[recvOffset..][..size]])
      ensures |got| == |batch| ==> got == Whole(wire, |batch|)
    {
      CountOne(size);
      BalancedNext(batch, sendBuf, requests, got, responses, recvBuf, wire, recvOffset, sendOffset, out, size);
      hide Balanced, SaneSize, Whole, Ahead;
      got := got + [recvBuf[recvOffset..][..size]];
      recvOffset := recvOffset + size;
      responses := responses + 1;
    }

    /** Counts one whole answer; the last one due ends the exchange. */
    method TakeAnswer(size: nat) returns (done: bool)
      requires Busy() && Counting() && armed.Nothing? && sendOffset == |sendBuf|
      requires size == SaneSize(recvBuf[recvOffset..], RESPONSE_MAGIC) > 0
      modifies this`got, this`extra, this`sendBuf, this`requests, this`responses, this`sendOffset, this`recvOffset
      ensures got == old(got + [recvBuf[recvOffset..][..size]])
      ensures if done then Finished() && |got| == |batch| && sendOffset == 0
              else Busy() && Counting() && responses == old(responses) + 1 && sendOffset == |sendBuf| == old(sendOffset) && requests == old(requests)
    {
      hide SaneSize, Whole, Ahead, Server.Finished;
      Tally(size);
      done := responses == requests;
      if done {
        Complete();
      }
    }

    /** The next whole answer is the next one counted. */
    lemma CountOne(size: nat)
      requires Busy() && Counting() && size == SaneSize(recvBuf[recvOffset..], RESPONSE_MAGIC) > 0
      ensures recvOffset + size <= |recvBuf|
      ensures var all := got + [recvBuf[recvOffset..][..size]];
        && Ahead(wire, |batch|, all, recvBuf[recvOffset + size..])
        && (|all| == |batch| ==> all == Whole(wire, |batch|))
    {
      var b := recvBuf[recvOffset..];
      hide Whole, Rest, Ahead;
      AheadOne(wire, |batch|, got, b, size);
      assert b[size..] == recvBuf[recvOffset + size..];
      if |got| + 1 == |batch| { AheadEnd(wire, |batch|, got + [b[..size]], b[size..]); }
    }

    /** The last answer due is counted: what came after it stays in the buffer. */
    method Complete()
      requires Ledger() && responses == requests && sendOffset == |sendBuf| && armed.Nothing?
      requires ok == |wire| && got == Whole(wire, |batch|)
      modifies this`extra, this`sendBuf, this`requests, this`responses, this`sendOffset, this`recvOffset
      ensures Finished() && sendOffset == 0
    {
      extra := recvBuf[recvOffset..];
      NoneLeft(got, batch);
      assert recvBuf == recvBuf[..recvOffset] + extra;
      assert wire[..ok] == wire && sendBuf[..|sendBuf|] == sendBuf;
      hide Whole, Concat, Answers, AllFrames, Errors;
      var _ := DoDone();
    }

    /** Runs the armed callback, which is disarmed first. */
    method Run(ev: Outcome) returns (slots: nat)
      requires Poised()
      modifies this
      ensures Settled(slots) && Task() == old(Task()) && Track() == Next(Task(), old(Track()), ev)
    {
      BusyFits();
      hide Server.Busy, Server.Tallied, Server.Settled, WriteStep, ReadStep;
      var callback := armed;
      armed := Nothing;
      if callback.OnConnected? {
        slots := DoConnected(ev.connected, ev.w);
      } else if callback.OnWritable? {
        slots := DoWrite(ev.w);
      } else {
        slots := DoRead(ev.arrived, ev.failed);
      }
    }

    /** The exchange works on `j` and stands at `c`. */
    ghost predicate Stands(j: Job, c: Course)
      reads this
    {
      (Finished() || Poised()) && Task() == j && Track() == c
    }

    lemma StandsAs(j: Job, c: Course)
      requires Stands(j, c)
      ensures c.on == armed && (c.on.Nothing? ==> Finished())
    {
    }

    lemma StandsWaiting(j: Job, c: Course)
      requires Stands(j, c) && !armed.Nothing?
      ensures Poised() && !c.on.Nothing? && Task() == j && Track() == c
    {
    }

    /** One event: a step along the course, and a slot yielded exactly when it waits again. */
    method RunAt(ev: Outcome, ghost j: Job, ghost c: Course) returns (slots: nat)
      requires Stands(j, c) && !armed.Nothing?
      modifies this
      ensures Stands(j, Next(j, c, ev)) && slots == if Next(j, c, ev).on.Nothing? then 0 else 1
    {
      StandsWaiting(j, c);
      hide Next;
      slots := Run(ev);
    }

    /** The exchange with `j` has not begun. */
    ghost predicate Rests(j: Job, c: Course, sd: int)
      reads this
    {
      Untried() && Task() == j && Track() == c && this.sd == sd
    }

    lemma RestsIdle(j: Job, c: Course, sd: int)
      requires Rests(j, c, sd)
      ensures c.on.Nothing?
    {
    }

    method StartAt(start: Start, ghost j: Job, ghost c: Course, ghost sd: int) returns (slots: nat)
      requires Rests(j, c, sd)
      modifies this
      ensures Stands(j, Begin(j, c.heard, sd, start)) && slots == if Begin(j, c.heard, sd, start).on.Nothing? then 0 else 1
    {
      hide Begin, Server.Busy, Server.Tallied;
      slots := DoStart(start);
    }

    lemma BusyFits()
      requires Busy()
      ensures sendOffset <= |sendBuf| && recvOffset <= |recvBuf| && responses < requests
      ensures recvOffset == |Concat(got)| && recvBuf == wire
    {
    }
  }

  /** A read in terms of the bytes received after it. */
  lemma ReadStepIs(j: Job, sent: nat, heard: nat, ok: nat, arrived: nat, wire: Bytes, socket: Bytes)
    requires j.stream == wire + socket && heard <= |wire| == Min(heard + arrived, |j.stream|)
    ensures ReadStep(j, sent, heard, ok, arrived, true) == Course(Nothing, 0, |wire|, ok)
    ensures ReadStep(j, sent, heard, ok, arrived, false) ==
      if Ends(j, wire) then Course(Nothing, 0, |wire|, |wire|) else Course(OnReadable, sent, |wire|, |wire|)
  {
    hide Ends;
    assert Seen(j, |wire|) == wire;
  }

  lemma WholePrefix(b: Bytes, n: nat)
    requires n == |b|
    ensures b[..n] == b
  {
  }

  lemma NoneLeft(got: seq<Bytes>, batch: seq<Bytes>)
    requires |got| == |batch|
    ensures Concat(got + Errors(batch[|got|..])) == Concat(got)
  {
    assert batch[|got|..] == [] && got + [] == got;
  }

  // ---- the event loop ----

  class EventLoop {
    var usedSlots: nat
    const servers: seq<Server>

    constructor (servers: seq<Server>)
      ensures this.servers == servers && usedSlots == 0
    {
      this.servers := servers;
      usedSlots := 0;
    }

    ghost predicate Distinct()
    {
      forall i, j :: 0 <= i < j < |servers| ==> servers[i] != servers[j]
    }

    /** Every exchange stands at its place, waiting for an event or over, and the slots in use count the waiting ones. */
    ghost predicate Valid(work: seq<Job>, cs: seq<Course>)
      reads this, servers
    {
      && Distinct() && |work| == |cs| == |servers| && usedSlots == Waits(cs)
      && forall i :: 0 <= i < |servers| ==> servers[i].Stands(work[i], cs[i])
    }

    /** Runs the callback of one ready server: its slot is freed, and used again if the callback yields. */
    method Dispatch(i: nat, ev: Outcome, ghost work: seq<Job>, ghost cs: seq<Course>)
      requires Valid(work, cs) && i < |servers| && !servers[i].armed.Nothing?
      modifies this`usedSlots, servers[i]
      ensures Valid(work, cs[i := Next(work[i], cs[i], ev)])
    {
      servers[i].StandsWaiting(work[i], cs[i]);
      WaitsUpdate(cs, i, Next(work[i], cs[i], ev));
      hide Server.Stands, Waits, Next;
      usedSlots := usedSlots - 1;
      var slots := servers[i].RunAt(ev, work[i], cs[i]);
      usedSlots := usedSlots + slots;
    }

    /** One pass over the servers that the kernel reports ready. */
    method Round(ready: seq<(nat, Outcome)>, ghost work: seq<Job>, ghost cs: seq<Course>)
      requires Valid(work, cs)
      modifies this, servers
      ensures Valid(work, RoundOf(work, cs, ready, |ready|))
    {
      RoundNone(work, cs, ready);
      hide Server.Stands, Next, InRound, RoundOf, Waits;
      for n := 0 to |ready|
        invariant Valid(work, RoundOf(work, cs, ready, n))
      {
        var (i, ev) := ready[n];
        ghost var now := RoundOf(work, cs, ready, n);
        RoundNext(work, cs, ready, n);
        if i < |servers| {
          servers[i].StandsAs(work[i], now[i]);
          if !servers[i].armed.Nothing? {
            Dispatch(i, ev, work, now);
          }
        }
      }
    }

    /**
     * Serves ready servers, round after round, for as long as some exchange waits: every exchange takes the course that
     * its own events give it, and no slot is in use exactly when all are over.
     */
    method Loop(schedule: seq<seq<(nat, Outcome)>>, ghost work: seq<Job>, ghost cs: seq<Course>) returns (rounds: nat)
      requires Valid(work, cs)
      modifies this, servers
      ensures Valid(work, EndsOf(work, cs, schedule, |schedule|))
      ensures usedSlots == 0 <==> AllOver(EndsOf(work, cs, schedule, |schedule|))
      ensures usedSlots == 0 ==> forall i :: 0 <= i < |servers| ==> servers[i].Finished()
      ensures rounds <= |schedule| && (usedSlots > 0 ==> rounds == |schedule|)
    {
      EndsNone(work, cs, schedule);
      hide Server.Stands, RoundOf, EndsOf, Waits, Server.Finished;
      rounds := 0;
      while usedSlots > 0 && rounds < |schedule|
        invariant rounds <= |schedule| && Valid(work, EndsOf(work, cs, schedule, rounds))
        decreases |schedule| - rounds
      {
        EndsNext(work, cs, schedule, rounds);
        Round(schedule[rounds], work, EndsOf(work, cs, schedule, rounds));
        rounds := rounds + 1;
      }
      WaitsZero(EndsOf(work, cs, schedule, rounds));
      if usedSlots == 0 {
        AllFinished(work, EndsOf(work, cs, schedule, rounds));
        AllStay(work, cs, schedule, rounds);
      }
    }

    lemma AllFinished(work: seq<Job>, cs: seq<Course>)
      requires Valid(work, cs) && AllOver(cs)
      ensures forall i :: 0 <= i < |servers| ==> servers[i].Finished()
    {
      hide Server.Stands, Server.Finished, Waits;
      forall i | 0 <= i < |servers|
        ensures servers[i].Finished()
      {
        servers[i].StandsAs(work[i], cs[i]);
      }
    }

    /** The first `n` exchanges are begun, the others wait for their turn. */
    ghost predicate BegunUpTo(n: nat, work: seq<Job>, cs: seq<Course>, sds: seq<int>)
      reads this, servers
    {
      && Distinct() && n <= |servers| == |work| == |cs| == |sds| && usedSlots == Waits(cs)
      && (forall i :: 0 <= i < n ==> servers[i].Stands(work[i], cs[i]))
      && (forall i :: n <= i < |servers| ==> servers[i].Rests(work[i], cs[i], sds[i]))
    }

    method StartNext(i: nat, start: Start, ghost work: seq<Job>, ghost cs: seq<Course>, ghost sds: seq<int>)
      requires i < |servers| && BegunUpTo(i, work, cs, sds)
      modifies this`usedSlots, servers[i]
      ensures BegunUpTo(i + 1, work, cs[i := Begin(work[i], cs[i].heard, sds[i], start)], sds)
    {
      servers[i].RestsIdle(work[i], cs[i], sds[i]);
      WaitsUpdate(cs, i, Begin(work[i], cs[i].heard, sds[i], start));
      hide Server.Stands, Server.Rests, Waits, Begin;
      var slots := servers[i].StartAt(start, work[i], cs[i], sds[i]);
      usedSlots := usedSlots + slots;
    }

    /** Begins every exchange: at once on a live connection, else by connecting. */
    method StartAll(starts: nat -> Start, ghost work: seq<Job>, ghost cs: seq<Course>, ghost sds: seq<int>)
      requires BegunUpTo(0, work, cs, sds)
      modifies this, servers
      ensures Valid(work, StartsOf(work, cs, sds, starts, |cs|))
    {
      StartsNone(work, cs, sds, starts);
      hide Server.Stands, Server.Rests, Waits, StartsOf, Begin;
      for i := 0 to |servers|
        invariant BegunUpTo(i, work, StartsOf(work, cs, sds, starts, i), sds)
      {
        StartsNext(work, cs, sds, starts, i);
        StartNext(i, starts(i), work, StartsOf(work, cs, sds, starts, i), sds);
      }
    }
  }

  // ---- the courses of all servers ----

  /** The first `m` exchanges are begun. */
  ghost function StartsOf(work: seq<Job>, cs: seq<Course>, sds: seq<int>, starts: nat -> Start, m: nat): (r: seq<Course>)
    requires |work| == |cs| == |sds|
    ensures |r| == |cs|
  {
    seq(|cs|, i requires 0 <= i < |cs| => if i < m then Begin(work[i], cs[i].heard, sds[i], starts(i)) else cs[i])
  }

  lemma StartsNone(work: seq<Job>, cs: seq<Course>, sds: seq<int>, starts: nat -> Start)
    requires |work| == |cs| == |sds|
    ensures StartsOf(work, cs, sds, starts, 0) == cs
  {
  }

  lemma StartsNext(work: seq<Job>, cs: seq<Course>, sds: seq<int>, starts: nat -> Start, m: nat)
    requires |work| == |cs| == |sds| && m < |cs|
    ensures var now := StartsOf(work, cs, sds, starts, m);
      && now[m].heard == cs[m].heard
      && StartsOf(work, cs, sds, starts, m + 1) == now[m := Begin(work[m], cs[m].heard, sds[m], starts(m))]
  {
    hide Begin;
  }

  /** After the first `m` events of a round. */
  ghost function RoundOf(work: seq<Job>, cs: seq<Course>, ready: seq<(nat, Outcome)>, m: nat): (r: seq<Course>)
    requires |work| == |cs| && m <= |ready|
    ensures |r| == |cs|
  {
    seq(|cs|, i requires 0 <= i < |cs| => InRound(work[i], cs[i], ready, m, i))
  }

  lemma RoundNone(work: seq<Job>, cs: seq<Course>, ready: seq<(nat, Outcome)>)
    requires |work| == |cs|
    ensures RoundOf(work, cs, ready, 0) == cs
  {
  }

  /** One event moves its own server, and nobody if that one is over. */
  lemma RoundNext(work: seq<Job>, cs: seq<Course>, ready: seq<(nat, Outcome)>, m: nat)
    requires |work| == |cs| && m < |ready|
    ensures var now, i, next := RoundOf(work, cs, ready, m), ready[m].0, RoundOf(work, cs, ready, m + 1);
      && (i >= |cs| ==> next == now)
      && (i < |cs| ==> next == now[i := Next(work[i], now[i], ready[m].1)] && (now[i].on.Nothing? ==> next == now))
  {
    var now, i := RoundOf(work, cs, ready, m), ready[m].0;
    if i < |cs| && now[i].on.Nothing? {
      OverNext(work[i], now[i], ready[m].1);
      assert now[i := now[i]] == now;
    }
    hide Next;
  }

  /** After the first `r` rounds of a schedule. */
  ghost function EndsOf(work: seq<Job>, cs: seq<Course>, schedule: seq<seq<(nat, Outcome)>>, r: nat): (ends: seq<Course>)
    requires |work| == |cs| && r <= |schedule|
    ensures |ends| == |cs|
  {
    seq(|cs|, i requires 0 <= i < |cs| => After(work[i], cs[i], schedule, r, i))
  }

  lemma EndsNone(work: seq<Job>, cs: seq<Course>, schedule: seq<seq<(nat, Outcome)>>)
    requires |work| == |cs|
    ensures EndsOf(work, cs, schedule, 0) == cs
  {
  }

  lemma EndsNext(work: seq<Job>, cs: seq<Course>, schedule: seq<seq<(nat, Outcome)>>, r: nat)
    requires |work| == |cs| && r < |schedule|
    ensures EndsOf(work, cs, schedule, r + 1) == RoundOf(work, EndsOf(work, cs, schedule, r), schedule[r], |schedule[r]|)
  {
    hide InRound;
  }

  /** Once all are over, the rest of the schedule changes nothing. */
  lemma AllStay(work: seq<Job>, cs: seq<Course>, schedule: seq<seq<(nat, Outcome)>>, r: nat)
    requires |work| == |cs| && r <= |schedule| && AllOver(EndsOf(work, cs, schedule, r))
    ensures EndsOf(work, cs, schedule, |schedule|) == EndsOf(work, cs, schedule, r)
  {
    forall i | 0 <= i < |cs|
      ensures After(work[i], cs[i], schedule, |schedule|, i) == After(work[i], cs[i], schedule, r, i)
    {
      assert EndsOf(work, cs, schedule, r)[i].on.Nothing?;
      OverStays(work[i], cs[i], schedule, r, |schedule|, i);
    }
  }

  // ---- however the answers are cut into reads ----

  /** After the first `n` events. */
  ghost function Fold(j: Job, c: Course, evs: seq<Outcome>, n: nat): Course
    requires n <= |evs|
  {
    if n == 0 then c else Next(j, Fold(j, c, evs, n - 1), evs[n - 1])
  }

  /** How many bytes the first `n` events bring. */
  ghost function Arrived(evs: seq<Outcome>, n: nat): nat
    requires n <= |evs|
  {
    if n == 0 then 0 else Arrived(evs, n - 1) + evs[n - 1].arrived
  }

  /**
   * Once the batch is sent, and as long as no read fails, only the number of bytes received counts: the exchange is over
   * exactly when they hold an answer to every request or a broken one, and all whole answers in them are counted.
   */
  lemma {:induction false} CutsDoNotMatter(j: Job, c: Course, evs: seq<Outcome>, n: nat)
    requires c.on.OnReadable? && 0 < n <= |evs| && forall k :: 0 <= k < n ==> !evs[k].failed
    ensures StandsAt(j, Fold(j, c, evs, n), c.heard + Arrived(evs, n))
  {
    hide StandsAt, Next;
    if n == 1 {
      assert Fold(j, c, evs, 0) == c && Arrived(evs, 0) == 0;
      ReadOnce(j, c, evs[0]);
    } else {
      CutsDoNotMatter(j, c, evs, n - 1);
      ReadMore(j, Fold(j, c, evs, n - 1), c.heard + Arrived(evs, n - 1), evs[n - 1]);
    }
  }
}
