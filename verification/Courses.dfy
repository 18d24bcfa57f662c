/** The course of one exchange with a storage server, as a function of what happens to it. */
module Courses {
  import opened Keys
  import opened Frames

  datatype Callback = Nothing | OnConnected | OnWritable | OnReadable

  /** What one non-blocking send did; sending nothing without an excuse is a failure. */
  datatype SendResult = Sent(n: nat) | WouldBlock | SendFailed

  /** What the kernel reports for one ready server, of which the armed callback uses its part. */
  datatype Outcome = Ready(connected: bool, w: SendResult, arrived: nat, failed: bool)

  /** How an exchange begins: whether it is time to retry, the new socket, and the first send. */
  datatype Start = Start(mayRetry: bool, fd: int, w: SendResult)

  predicate SendFine(w: SendResult) { w.WouldBlock? || (w.Sent? && w.n > 0) }

  predicate StartFine(s: Start) { s.mayRetry && s.fd >= 0 && SendFine(s.w) }

  predicate Fine(ev: Outcome) { ev.connected && SendFine(ev.w) && !ev.failed }

  ghost predicate IsAnswer(f: Bytes) { IsFrame(f) && f[0] == RESPONSE_MAGIC && |f| <= MAX_REQUEST_SIZE }

  ghost predicate Answers(fs: seq<Bytes>)
  {
    forall i :: 0 <= i < |fs| ==> IsAnswer(fs[i])
  }

  ghost predicate CalmRound(ready: seq<(nat, Outcome)>)
  {
    forall n :: 0 <= n < |ready| ==> Fine(ready[n].1)
  }

  // ---- the whole answers in a buffer ----

  /** The first whole answers in a buffer, at most `n`. */
  ghost function Whole(b: Bytes, n: nat): (r: seq<Bytes>)
    ensures |r| <= n
  {
    var size := SaneSize(b, RESPONSE_MAGIC);
    if n == 0 || size <= 0 || size > |b| then [] else [b[..size]] + Whole(b[size..], n - 1)
  }

  /** What follows them. */
  ghost function Rest(b: Bytes, n: nat): Bytes
  {
    var size := SaneSize(b, RESPONSE_MAGIC);
    if n == 0 || size <= 0 || size > |b| then b else Rest(b[size..], n - 1)
  }

  lemma WholeNone(b: Bytes, n: nat)
    requires n == 0 || SaneSize(b, RESPONSE_MAGIC) <= 0
    ensures Whole(b, n) == [] && Rest(b, n) == b
  {
  }

  lemma WholeOne(b: Bytes, n: nat)
    requires n > 0 && SaneSize(b, RESPONSE_MAGIC) > 0
    ensures var size := SaneSize(b, RESPONSE_MAGIC);
      && size <= |b| && Whole(b, n) == [b[..size]] + Whole(b[size..], n - 1) && Rest(b, n) == Rest(b[size..], n - 1)
      && IsAnswer(b[..size]) && b == b[..size] + b[size..]
  {
    SaneSizeFits(b, RESPONSE_MAGIC);
    TakeFrame(b);
  }

  lemma {:induction false} WholeAndRest(b: Bytes, n: nat)
    ensures b == Concat(Whole(b, n)) + Rest(b, n) && Answers(Whole(b, n))
    ensures |Whole(b, n)| < n ==> SaneSize(Rest(b, n), RESPONSE_MAGIC) <= 0
  {
    hide Whole, Rest, SaneSize, IsAnswer;
    var size := SaneSize(b, RESPONSE_MAGIC);
    if n == 0 || size <= 0 {
      WholeNone(b, n);
    } else {
      WholeOne(b, n);
      WholeAndRest(b[size..], n - 1);
      var f, rest := b[..size], Whole(b[size..], n - 1);
      assert ([f] + rest)[1..] == rest;
      assert f + (Concat(rest) + Rest(b, n)) == f + Concat(rest) + Rest(b, n);
    }
  }

  /** More bytes only add answers. */
  lemma {:induction false} WholeGrows(b: Bytes, more: Bytes, n: nat)
    ensures var have := Whole(b, n);
      && Whole(b + more, n) == have + Whole(Rest(b, n) + more, n - |have|)
      && Rest(b + more, n) == Rest(Rest(b, n) + more, n - |have|)
  {
    hide Whole, Rest, SaneSize, IsAnswer;
    var size := SaneSize(b, RESPONSE_MAGIC);
    if n == 0 || size <= 0 {
      WholeNone(b, n);
      assert [] + Whole(b + more, n) == Whole(b + more, n);
    } else {
      WholeOne(b, n);
      SaneStays(b, more);
      WholeOne(b + more, n);
      assert (b + more)[..size] == b[..size] && (b + more)[size..] == b[size..] + more;
      WholeGrows(b[size..], more, n - 1);
    }
  }

  /** Counting is under way: what is counted and what lies ahead make up all whole answers. */
  ghost predicate Ahead(all: Bytes, n: nat, got: seq<Bytes>, b: Bytes)
  {
    |got| <= n && Whole(all, n) == got + Whole(b, n - |got|) && Rest(all, n) == Rest(b, n - |got|)
  }

  /** What was counted before is a part of what there is now. */
  lemma AheadStart(all: Bytes, k: nat, n: nat, got: seq<Bytes>)
    requires k <= |all| && got == Whole(all[..k], n)
    ensures |Concat(got)| <= |all| && Ahead(all, n, got, all[|Concat(got)|..])
  {
    var b, more := all[..k], all[k..];
    assert all == b + more;
    AheadMore(b, more, n);
    WholeAndRest(b, n);
    hide Whole, Rest, Concat, Answers, Ahead;
    AfterFirst(Concat(got), Rest(b, n), more, all);
  }

  lemma AheadMore(b: Bytes, more: Bytes, n: nat)
    ensures Ahead(b + more, n, Whole(b, n), Rest(b, n) + more)
  {
    WholeGrows(b, more, n);
    hide Whole, Rest;
  }

  lemma AfterFirst(a: Bytes, b: Bytes, c: Bytes, all: Bytes)
    requires all == a + b + c
    ensures |a| <= |all| && all[|a|..] == b + c
  {
  }

  lemma AheadOne(all: Bytes, n: nat, got: seq<Bytes>, b: Bytes, size: nat)
    requires Ahead(all, n, got, b) && |got| < n && size == SaneSize(b, RESPONSE_MAGIC) > 0
    ensures size <= |b| && Ahead(all, n, got + [b[..size]], b[size..])
  {
    hide Whole, Rest;
    WholeOne(b, n - |got|);
  }

  lemma AheadEnd(all: Bytes, n: nat, got: seq<Bytes>, b: Bytes)
    requires Ahead(all, n, got, b) && (|got| == n || SaneSize(b, RESPONSE_MAGIC) <= 0)
    ensures got == Whole(all, n) && b == Rest(all, n)
  {
    hide Whole, Rest;
    WholeNone(b, n - |got|);
  }

  lemma SaneStays(b: Bytes, more: Bytes)
    requires SaneSize(b, RESPONSE_MAGIC) != 0
    ensures SaneSize(b + more, RESPONSE_MAGIC) == SaneSize(b, RESPONSE_MAGIC)
  {
    assert forall i :: 0 <= i < HEADER_SIZE ==> (b + more)[i] == b[i];
  }

  // ---- the course of an exchange ----

  /** What an exchange has to do, and everything the storage server is ever going to show it. */
  datatype Job = Job(batch: seq<Bytes>, stream: Bytes)

  /**
   * Where it stands: what it waits for, how many bytes were sent, how many received, and how many of these by reads that
   * did not fail, whose whole answers are counted.
   */
  datatype Course = Course(on: Callback, sent: nat, heard: nat, ok: nat)

  ghost function Seen(j: Job, k: nat): Bytes { j.stream[..Min(k, |j.stream|)] }

  /** All answers that are counted: the whole ones received by reads that did not fail. */
  ghost function GotOf(j: Job, c: Course): seq<Bytes> { Whole(Seen(j, c.ok), |j.batch|) }

  /** What came behind the last answer due. */
  ghost function ExtraOf(j: Job, c: Course): Bytes
  {
    if |GotOf(j, c)| == |j.batch| then Rest(Seen(j, c.ok), |j.batch|) else []
  }

  /** Every request is answered, or the next answer is broken. */
  ghost predicate Ends(j: Job, seen: Bytes)
  {
    |Whole(seen, |j.batch|)| == |j.batch| || SaneSize(Rest(seen, |j.batch|), RESPONSE_MAGIC) == -1
  }

  ghost function WriteStep(j: Job, sent: nat, heard: nat, ok: nat, w: SendResult): Course
  {
    if !SendFine(w) then Course(Nothing, 0, heard, ok)
    else
      var now := if w.Sent? then Min(sent + w.n, |Concat(j.batch)|) else sent;
      Course(if now == |Concat(j.batch)| then OnReadable else OnWritable, now, heard, ok)
  }

  ghost function ReadStep(j: Job, sent: nat, heard: nat, ok: nat, arrived: nat, failed: bool): Course
  {
    var now := Min(heard + arrived, |j.stream|);
    if failed then Course(Nothing, 0, now, ok)
    else if Ends(j, Seen(j, now)) then Course(Nothing, 0, now, now)
    else Course(OnReadable, sent, now, now)
  }

  /** What one event does to an exchange. */
  ghost function Next(j: Job, c: Course, ev: Outcome): Course
  {
    match c.on
    case Nothing => c
    case OnConnected => if ev.connected then WriteStep(j, c.sent, c.heard, c.ok, ev.w) else Course(Nothing, 0, c.heard, c.ok)
    case OnWritable => WriteStep(j, c.sent, c.heard, c.ok, ev.w)
    case OnReadable => ReadStep(j, c.sent, c.heard, c.ok, ev.arrived, ev.failed)
  }

  /** How an exchange begins with `had` bytes in its buffer. */
  ghost function Begin(j: Job, had: nat, sd: int, start: Start): Course
  {
    if sd >= 0 then WriteStep(j, 0, had, 0, start.w)
    else if start.mayRetry && start.fd >= 0 then Course(OnConnected, 0, had, 0)
    else Course(Nothing, 0, had, 0)
  }

  /** After the first `m` events of a round. */
  ghost function InRound(j: Job, c: Course, ready: seq<(nat, Outcome)>, m: nat, i: nat): Course
    requires m <= |ready|
  {
    if m == 0 then c
    else
      var before := InRound(j, c, ready, m - 1, i);
      if ready[m - 1].0 == i then Next(j, before, ready[m - 1].1) else before
  }

  /** After the first `r` rounds of a schedule: server `i` has had its own events, in order. */
  ghost function After(j: Job, c: Course, schedule: seq<seq<(nat, Outcome)>>, r: nat, i: nat): Course
    requires r <= |schedule|
  {
    if r == 0 then c
    else InRound(j, After(j, c, schedule, r - 1, i), schedule[r - 1], |schedule[r - 1]|, i)
  }

  lemma {:induction false} OverInRound(j: Job, c: Course, ready: seq<(nat, Outcome)>, m: nat, i: nat)
    requires m <= |ready| && c.on.Nothing?
    ensures InRound(j, c, ready, m, i) == c
  {
    if m > 0 { OverInRound(j, c, ready, m - 1, i); }
  }

  /** An exchange that is over stays as it is. */
  lemma {:induction false} OverStays(j: Job, c: Course, schedule: seq<seq<(nat, Outcome)>>, r: nat, q: nat, i: nat)
    requires r <= q <= |schedule| && After(j, c, schedule, r, i).on.Nothing?
    ensures After(j, c, schedule, q, i) == After(j, c, schedule, r, i)
    decreases q
  {
    if r < q {
      OverStays(j, c, schedule, r, q - 1, i);
      OverInRound(j, After(j, c, schedule, r, i), schedule[q - 1], |schedule[q - 1]|, i);
    }
  }

  /** What holds of every course that an exchange can take: while it waits, some answer is due and has not arrived whole. */
  ghost predicate Proper(j: Job, c: Course)
  {
    && c.ok <= c.heard <= |j.stream| && c.sent <= |Concat(j.batch)|
    && (!c.on.Nothing? ==> !Ends(j, Seen(j, c.ok)) && (c.on.OnReadable? <==> c.sent == |Concat(j.batch)|))
  }

  lemma NothingSeen(j: Job)
    requires j.batch != []
    ensures !Ends(j, Seen(j, 0))
  {
    assert Seen(j, 0) == [];
  }

  lemma BeginProper(j: Job, had: nat, sd: int, start: Start)
    requires j.batch != [] && had <= |j.stream| && Concat(j.batch) != []
    ensures Proper(j, Begin(j, had, sd, start))
    ensures StartFine(start) ==> !Begin(j, had, sd, start).on.Nothing?
  {
    NothingSeen(j);
    hide Ends, Concat;
  }

  lemma NextProper(j: Job, c: Course, ev: Outcome)
    requires Proper(j, c)
    ensures Proper(j, Next(j, c, ev)) && c.ok <= Next(j, c, ev).ok && c.heard <= Next(j, c, ev).heard
    ensures Fine(ev) && Next(j, c, ev).on.Nothing? ==> c.on.Nothing? || Ends(j, Seen(j, Next(j, c, ev).ok))
  {
    hide Ends, Concat, Seen;
  }

  lemma {:induction false} RoundProper(j: Job, c: Course, ready: seq<(nat, Outcome)>, m: nat, i: nat)
    requires m <= |ready| && Proper(j, c)
    ensures Proper(j, InRound(j, c, ready, m, i))
    ensures CalmRound(ready) && InRound(j, c, ready, m, i).on.Nothing? ==>
      c.on.Nothing? || Ends(j, Seen(j, InRound(j, c, ready, m, i).ok))
  {
    if m > 0 {
      RoundProper(j, c, ready, m - 1, i);
      var before, ev := InRound(j, c, ready, m - 1, i), ready[m - 1].1;
      hide Proper, Ends, Next, Seen;
      NextProper(j, before, ev);
      if before.on.Nothing? { OverNext(j, before, ev); }
    }
  }

  lemma OverNext(j: Job, c: Course, ev: Outcome)
    requires c.on.Nothing?
    ensures Next(j, c, ev) == c
  {
  }

  /**
   * Over every schedule: an exchange that still waits has not received an answer to every request, and one that is over
   * without a fault has, or the next answer is broken.
   */
  lemma {:induction false} AfterProper(j: Job, c: Course, schedule: seq<seq<(nat, Outcome)>>, r: nat, i: nat)
    requires r <= |schedule| && Proper(j, c)
    ensures Proper(j, After(j, c, schedule, r, i))
    ensures (forall n :: 0 <= n < r ==> CalmRound(schedule[n])) && After(j, c, schedule, r, i).on.Nothing? ==>
      c.on.Nothing? || Ends(j, Seen(j, After(j, c, schedule, r, i).ok))
  {
    if r > 0 {
      AfterProper(j, c, schedule, r - 1, i);
      var before, ready := After(j, c, schedule, r - 1, i), schedule[r - 1];
      hide Proper, Ends, InRound, CalmRound;
      RoundProper(j, before, ready, |ready|, i);
      if before.on.Nothing? { OverInRound(j, before, ready, |ready|, i); }
    }
  }

  // ---- however the answers are cut into reads ----

  lemma EndsGrow(j: Job, b: Bytes, more: Bytes)
    requires Ends(j, b)
    ensures Ends(j, b + more) && Whole(b + more, |j.batch|) == Whole(b, |j.batch|)
  {
    var n := |j.batch|;
    var have, rest := Whole(b, n), Rest(b, n);
    WholeGrows(b, more, n);
    hide Whole, Rest, SaneSize;
    if |have| < n { SaneStays(rest, more); }
    WholeNone(rest + more, n - |have|);
  }

  lemma SeenGrows(j: Job, k: nat, m: nat)
    requires k <= m && Ends(j, Seen(j, k))
    ensures Ends(j, Seen(j, m)) && Whole(Seen(j, m), |j.batch|) == Whole(Seen(j, k), |j.batch|)
  {
    var a, b := Min(k, |j.stream|), Min(m, |j.stream|);
    assert Seen(j, m) == Seen(j, k) + j.stream[a..b];
    hide Ends, Seen, Whole;
    EndsGrow(j, Seen(j, k), j.stream[a..b]);
  }

  /** Where an exchange stands that has received `k` bytes by reads that did not fail. */
  ghost predicate StandsAt(j: Job, c: Course, k: nat)
  {
    && (c.on.Nothing? <==> Ends(j, Seen(j, k))) && GotOf(j, c) == Whole(Seen(j, k), |j.batch|)
    && (!c.on.Nothing? ==> c.on.OnReadable? && c.heard == Min(k, |j.stream|))
  }

  lemma ReadOnce(j: Job, c: Course, ev: Outcome)
    requires c.on.OnReadable? && !ev.failed
    ensures StandsAt(j, Next(j, c, ev), c.heard + ev.arrived)
  {
    hide Ends, Whole;
    SeenAgain(j, c.heard + ev.arrived);
  }

  lemma ReadMore(j: Job, c: Course, k: nat, ev: Outcome)
    requires StandsAt(j, c, k) && !ev.failed
    ensures StandsAt(j, Next(j, c, ev), k + ev.arrived)
  {
    hide Ends, Whole, Seen;
    if c.on.Nothing? {
      SeenGrows(j, k, k + ev.arrived);
    } else {
      ReadOnce(j, c, ev);
      SeenAgain(j, c.heard + ev.arrived);
      SeenAgain(j, k + ev.arrived);
    }
  }

  lemma SeenAgain(j: Job, k: nat)
    ensures Seen(j, Min(k, |j.stream|)) == Seen(j, k)
  {
  }

  // ---- many exchanges ----

  ghost predicate AllOver(cs: seq<Course>)
  {
    forall i :: 0 <= i < |cs| ==> cs[i].on.Nothing?
  }

  /** How many exchanges wait. */
  ghost function Waits(cs: seq<Course>): nat
  {
    if cs == [] then 0 else (if cs[0].on.Nothing? then 0 else 1) + Waits(cs[1..])
  }

  lemma {:induction false} WaitsUpdate(cs: seq<Course>, i: nat, c: Course)
    requires i < |cs|
    ensures Waits(cs[i := c]) == Waits(cs) - (if cs[i].on.Nothing? then 0 else 1) + (if c.on.Nothing? then 0 else 1)
    ensures !cs[i].on.Nothing? ==> Waits(cs) > 0
  {
    if i == 0 {
      assert cs[i := c][1..] == cs[1..];
    } else {
      assert cs[i := c][1..] == cs[1..][i - 1 := c];
      WaitsUpdate(cs[1..], i - 1, c);
    }
  }

  lemma {:induction false} WaitsZero(cs: seq<Course>)
    ensures Waits(cs) == 0 <==> AllOver(cs)
  {
    if cs != [] {
      WaitsZero(cs[1..]);
      if AllOver(cs[1..]) && cs[0].on.Nothing? {
        forall i | 0 <= i < |cs|
          ensures cs[i].on.Nothing?
        {
          if i > 0 { assert cs[1..][i - 1].on.Nothing?; }
        }
      }
      if AllOver(cs) { assert AllOver(cs[1..]); }
    }
  }

  // ---- the books of a server object ----

  /** The counters and buffers agree with the batch and the answers; there are some only once the batch is sent. */
  ghost predicate Balanced(batch: seq<Bytes>, sendBuf: Bytes, requests: nat, got: seq<Bytes>, responses: nat,
                           recvBuf: Bytes, wire: Bytes, recvOffset: nat, sendOffset: nat, out: Bytes)
  {
    && AllFrames(batch) && sendBuf == Concat(batch) && requests == |batch|
    && Answers(got) && responses == |got| <= requests
    && recvBuf == wire && recvOffset == |Concat(got)| <= |recvBuf| && recvBuf[..recvOffset] == Concat(got)
    && sendOffset <= |sendBuf| && out == sendBuf[..sendOffset] && (got != [] ==> sendOffset == |sendBuf|)
  }

  /** The next answer lies where the last one ended. */
  lemma NextAnswer(got: seq<Bytes>, buf: Bytes, off: nat, size: nat)
    requires off == |Concat(got)| <= |buf| && buf[..off] == Concat(got) && Answers(got)
    requires size == SaneSize(buf[off..], RESPONSE_MAGIC) > 0
    ensures off + size <= |buf| && size > 0
    ensures var all := got + [buf[off..][..size]];
      Answers(all) && off + size == |Concat(all)| && buf[..off + size] == Concat(all)
  {
    SaneSizeFits(buf[off..], RESPONSE_MAGIC);
    TakeFrame(buf[off..]);
    var f := buf[off..][..size];
    ConcatSnoc(got, f);
    assert buf[..off + size] == buf[..off] + f;
  }

  lemma BalancedNext(batch: seq<Bytes>, sendBuf: Bytes, requests: nat, got: seq<Bytes>, responses: nat,
                     recvBuf: Bytes, wire: Bytes, recvOffset: nat, sendOffset: nat, out: Bytes, size: nat)
    requires Balanced(batch, sendBuf, requests, got, responses, recvBuf, wire, recvOffset, sendOffset, out)
    requires responses < requests && sendOffset == |sendBuf| && size == SaneSize(recvBuf[recvOffset..], RESPONSE_MAGIC) > 0
    ensures recvOffset + size <= |recvBuf|
    ensures Balanced(batch, sendBuf, requests, got + [recvBuf[recvOffset..][..size]], responses + 1,
                     recvBuf, wire, recvOffset + size, sendOffset, out)
  {
    NextAnswer(got, recvBuf, recvOffset, size);
    hide Concat, Answers, AllFrames, SaneSize;
  }
}
