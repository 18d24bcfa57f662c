/** What one answer left over at a server does to all the batches that follow. */
module Drift {
  import opened Frames
  import opened Batch
  import opened Exchange
  import opened Pipeline
  import opened Leftovers
  import Courses

  // ---- later batches ----

  /** A batch, what the server answers to it, as much of that as it sends, and what the exchange gets. */
  datatype Turn = Turn(batch: seq<Bytes>, answers: seq<Bytes>, socket: Bytes, e: Exch)

  ghost predicate Shaped(t: Turn) { 2 <= |t.batch| == |t.answers| && |t.e.got| <= |t.batch| }

  /** The server answers every request, and the no-op at the end with a bare header; `held` is in the buffer before. */
  ghost predicate Takes(t: Turn, held: Bytes)
  {
    var n := |t.batch|;
    && Shaped(t) && t.batch[n - 1] == NOOP_REQUEST && Courses.Answers(t.answers)
    && |t.answers[n - 1]| == HEADER_SIZE && t.socket <= Concat(t.answers)
    && Told(t.batch, held + t.socket, t.e, false)
  }

  /** Everything was answered, and the no-op's answer had arrived with the last frame that was due. */
  ghost predicate InTime(t: Turn)
    requires Shaped(t)
  {
    |t.e.got| == |t.batch| && t.e.extra == t.answers[|t.batch| - 1]
  }

  lemma PrefixCancel(a: Bytes, b: Bytes, c: Bytes)
    requires a + b <= a + c
    ensures b <= c
  {
    assert b == (a + b)[|a|..] && c == (a + c)[|a|..];
  }

  lemma LateFrames(t: Turn, held: Bytes)
    requires Takes(t, held) && IsFrame(held) && |t.e.got| == |t.batch|
    ensures t.e.got == [held] + t.answers[..|t.batch| - 1] && t.e.extra <= t.answers[|t.batch| - 1]
  {
    var n, all := |t.batch|, [held] + t.answers;
    var due, last := all[..n], t.answers[n - 1];
    assert due == [held] + t.answers[..n - 1] && due[1..] == t.answers[..n - 1] && due[0] == held;
    assert t.answers == t.answers[..n - 1] + [last];
    ConcatSnoc(t.answers[..n - 1], last);
    assert Concat(due) == held + Concat(t.answers[..n - 1]);
    assert held + Concat(t.answers) == Concat(due) + last;
    assert Concat(t.e.got) + t.e.extra <= held + t.socket <= Concat(due) + last;
    FramesAgree(t.e.got, due, last);
    assert t.e.got == due;
    PrefixCancel(Concat(due), t.e.extra, last);
  }

  /**
   * A batch that begins with one whole answer left over leaves exactly one, the last request's, if and only if it is in
   * time. Otherwise that answer has lost as much of its end as the no-op's was short of, or, after a fault, nothing is left.
   */
  lemma LateBatch(t: Turn, held: Bytes)
    requires Takes(t, held) && IsFrame(held)
    ensures var n := |t.batch|; var last := t.answers[n - 2];
      && (RestOf(t.batch, t.e) == last <==> InTime(t))
      && (|t.e.got| < n ==> RestOf(t.batch, t.e) == [])
      && (|t.e.got| == n ==>
           |t.e.extra| <= HEADER_SIZE && RestOf(t.batch, t.e) == last[..|last| + |t.e.extra| - HEADER_SIZE])
  {
    var n := |t.batch|;
    var last, noop := t.answers[n - 2], t.answers[n - 1];
    LastIsFrame(t, held);
    if |t.e.got| == n {
      LateFrames(t, held);
      assert t.e.got[n - 1] == last;
      hide Takes, Told, Concat;
      CutAnswer(last, noop, t.e.extra);
    } else {
      assert t.e.extra == [] && t.batch[n - 1] == NOOP_REQUEST;
      hide Takes, Told, Concat, RestOf;
      ErrorCut(t.batch, t.e);
    }
  }

  /** A made-up answer to the no-op is cut off whole. */
  lemma ErrorCut(batch: seq<Bytes>, e: Exch)
    requires |e.got| < |batch| && e.extra == [] && batch[|batch| - 1] == NOOP_REQUEST
    ensures RestOf(batch, e) == []
  {
    ErrorFrameEchoes(NOOP_REQUEST);
  }

  /** Cutting 24 bytes off an answer with part of the no-op's behind it. */
  lemma CutAnswer(last: Bytes, noop: Bytes, extra: Bytes)
    requires extra <= noop && |noop| == HEADER_SIZE <= |last|
    ensures var b := (last + extra)[..|last + extra| - HEADER_SIZE];
      b == last[..|last| + |extra| - HEADER_SIZE] && (b == last <==> extra == noop)
  {
    assert extra == noop[..|extra|];
  }

  lemma LastIsFrame(t: Turn, held: Bytes)
    requires Takes(t, held)
    ensures IsFrame(t.answers[|t.batch| - 2])
  {
  }

  /** Turn `j` finds in the buffer what the one before left. */
  ghost predicate Meets(held: seq<Bytes>, ts: seq<Turn>, j: nat)
    requires j < |ts| == |held|
  {
    && Takes(ts[j], held[j])
    && (j > 0 ==> Shaped(ts[j - 1]) && held[j] == RestOf(ts[j - 1].batch, ts[j - 1].e))
  }

  /** Turns at one server, each with what was in the buffer before it; all but the last are in time. */
  ghost predicate Turns(held: seq<Bytes>, ts: seq<Turn>)
  {
    && |held| == |ts| > 0 && IsFrame(held[0]) && (forall j :: 0 <= j < |ts| ==> Meets(held, ts, j))
    && forall j :: 0 <= j < |ts| - 1 ==> Prompt(ts[j])
  }

  ghost predicate Prompt(t: Turn) { Shaped(t) && InTime(t) }

  lemma OneLeft(t: Turn, held: Bytes)
    requires Takes(t, held) && IsFrame(held) && InTime(t)
    ensures RestOf(t.batch, t.e) == t.answers[|t.batch| - 2] && IsFrame(RestOf(t.batch, t.e))
  {
    LateBatch(t, held);
    LastIsFrame(t, held);
  }

  /** Turn after turn the answer to the last request stays behind. */
  lemma {:induction false} StaysLate(held: seq<Bytes>, ts: seq<Turn>, i: nat)
    requires Turns(held, ts) && i < |ts|
    ensures IsFrame(held[i])
    ensures i > 0 ==> Shaped(ts[i - 1]) && held[i] == ts[i - 1].answers[|ts[i - 1].batch| - 2]
  {
    TurnAt(held, ts, i);
    if i > 0 {
      hide RestOf, Takes, IsFrame, Meets, Prompt, InTime;
      StaysLate(held, ts, i - 1);
      OneLeft(ts[i - 1], held[i - 1]);
    }
  }

  lemma TurnAt(held: seq<Bytes>, ts: seq<Turn>, i: nat)
    requires Turns(held, ts) && i < |ts|
    ensures Takes(ts[i], held[i]) && IsFrame(held[0])
    ensures i > 0 ==> Shaped(ts[i - 1]) && Takes(ts[i - 1], held[i - 1]) && InTime(ts[i - 1])
    ensures i > 0 ==> held[i] == RestOf(ts[i - 1].batch, ts[i - 1].e)
  {
    assert Meets(held, ts, i);
    if i > 0 { assert Meets(held, ts, i - 1) && Prompt(ts[i - 1]); }
    hide Takes, RestOf, IsFrame, Turns;
  }

  /** So every reply of these turns is the answer to the request before: the first to the last one of the turn before. */
  lemma EveryReplyLate(held: seq<Bytes>, ts: seq<Turn>, i: nat)
    requires Turns(held, ts) && i < |ts| && |ts[i].e.got| == |ts[i].batch|
    ensures Shaped(ts[i]) && (i > 0 ==> Shaped(ts[i - 1]))
    ensures var before := if i == 0 then held[0] else ts[i - 1].answers[|ts[i - 1].batch| - 2];
      ts[i].e.got == [before] + ts[i].answers[..|ts[i].batch| - 1]
  {
    StaysLate(held, ts, i);
    TurnAt(held, ts, i);
    hide Turns, RestOf, Meets, Prompt;
    LateFrames(ts[i], held[i]);
  }

  /** The buffer of a server keeps what its exchange left, when every request that was sent was counted. */
  lemma RestStays(recv: map<Dest, Bytes>, before: map<Dest, Bytes>, net: nat -> Peer, own: (nat, Bytes) -> Bytes,
                  fs: seq<Bytes>, ds: seq<Dest>, ex: map<nat, Exch>, s: nat)
    requires Batched(fs, ds, SentOn(ds)) && OwnFrames(own) && ToldAll(before, net, fs, ds, SentOn(ds), ex, false)
    requires Stocked(recv, HarvestOf(own, fs, ds, SentOn(ds), ex, before), Counted(ds, 0))
    requires !TooManyServers(ds) && s in ex
    ensures Get(recv, Remote(s)) == RestOf(BatchOf(fs, ds, SentOn(ds), s), ex[s])
  {
    var n, m, d := Counted(ds, 0), SentOn(ds), Remote(s);
    StockedAt(recv, before, own, fs, ds, m, ex, n, d);
    SourceSize(before, net, own, fs, ds, m, ex, d);
    hide SourceOf, ToldAll, Batched, OwnFrames, Counted, Count, RestOf, BatchOf, Stocked, HarvestOf;
    NothingAfter(SourceOf(own, fs, ds, m, ex, d));
    assert [] + RestOf(BatchOf(fs, ds, m, s), ex[s]) == RestOf(BatchOf(fs, ds, m, s), ex[s]);
  }

  lemma StockedAt(recv: map<Dest, Bytes>, before: map<Dest, Bytes>, own: (nat, Bytes) -> Bytes,
                  fs: seq<Bytes>, ds: seq<Dest>, m: nat, ex: map<nat, Exch>, n: nat, d: Dest)
    requires m <= |ds| == |fs| && n <= |ds| && Stocked(recv, HarvestOf(own, fs, ds, m, ex, before), n)
    ensures Count(ds, n, d) <= |SourceOf(own, fs, ds, m, ex, d)|
    ensures Get(recv, d) == Tail(SourceOf(own, fs, ds, m, ex, d), Count(ds, n, d)) + LeftOf(fs, ds, m, ex, before, d)
  {
    assert Unspent(recv, HarvestOf(own, fs, ds, m, ex, before), n, d);
    hide SourceOf, LeftOf, Tail, Count;
  }

  lemma NothingAfter(fs: seq<Bytes>)
    ensures Tail(fs, |fs|) == []
  {
  }

  // ---- when the no-op's answer comes too late ----

  lemma TwoFrames(f: Bytes, g: Bytes)
    ensures Concat([f, g]) == f + g
  {
    assert [f, g][1..] == [g] && [g][1..] == [];
    assert Concat([g]) == g + Concat([]) == g;
  }

  /** It may: any request and any answers, with no fault, when the bytes of the no-op's answer come after the others. */
  lemma TooLate(f: Bytes, held: Bytes, reply: Bytes, noop: Bytes) returns (t: Turn)
    requires IsFrame(f) && Courses.Answers([held, reply, noop]) && |noop| == HEADER_SIZE
    ensures t == Turn([f, NOOP_REQUEST], [reply, noop], Concat([reply, noop]), Exch([held, reply], []))
    ensures Takes(t, held) && !InTime(t) && Told(t.batch, held + t.socket, t.e, true)
  {
    t := Turn([f, NOOP_REQUEST], [reply, noop], Concat([reply, noop]), Exch([held, reply], []));
    var all := [held, reply, noop];
    assert all[0] == held && all[1] == reply && all[2] == noop;
    assert IsFrame(NOOP_REQUEST);
    TwoFrames(held, reply);
    TwoFrames(reply, noop);
    assert Concat([held, reply]) + [] <= held + (reply + noop);
  }

  /**
   * And the event loop takes that course: the batch is sent at once, and one read brings the bytes of the reply. The
   * exchange is over before the no-op's answer arrives.
   */
  lemma TooLateCourse(f: Bytes, held: Bytes, reply: Bytes, noop: Bytes) returns (j: Courses.Job, c: Courses.Course)
    requires IsFrame(f) && SaneAnswer(held) && SaneAnswer(reply) && |noop| == HEADER_SIZE
    ensures j == Courses.Job([f, NOOP_REQUEST], held + (reply + noop))
    ensures var w := Courses.Sent(|Concat(j.batch)|);
      c == Courses.Next(j, Courses.Begin(j, |held|, 0, Courses.Start(true, 0, w)), Courses.Ready(true, w, |reply|, false))
    ensures c.on.Nothing? && ExchOf(j, c) == Exch([held, reply], [])
  {
    j := Courses.Job([f, NOOP_REQUEST], held + (reply + noop));
    var w := Courses.Sent(|Concat(j.batch)|);
    var start := Courses.Begin(j, |held|, 0, Courses.Start(true, 0, w));
    TwoFrames(f, NOOP_REQUEST);
    assert start == Courses.Course(Courses.OnReadable, |Concat(j.batch)|, |held|, 0);
    c := Courses.Next(j, start, Courses.Ready(true, w, |reply|, false));
    var seen := held + reply;
    assert Courses.Seen(j, |seen|) == seen;
    TwoWhole(held, reply);
  }

  lemma TwoWhole(f: Bytes, g: Bytes)
    requires SaneAnswer(f) && SaneAnswer(g)
    ensures Courses.Whole(f + g, 2) == [f, g] && Courses.Rest(f + g, 2) == []
  {
    Courses.SaneStays(f, g);
    Courses.WholeOne(f + g, 2);
    assert (f + g)[..|f|] == f && (f + g)[|f|..] == g;
    Courses.WholeOne(g, 1);
    assert g[..|g|] == g && g[|g|..] == [];
    Courses.WholeNone([], 0);
  }

  ghost predicate SaneAnswer(f: Bytes) { |f| == SaneSize(f, RESPONSE_MAGIC) > 0 }

  /** The last answer without its end, and the bytes of the no-op's answer that had not arrived. */
  ghost function Spliced(last: Bytes, noop: Bytes, x: nat): (r: Bytes)
    requires x <= HEADER_SIZE == |noop| <= |last|
    ensures |r| == |last|
  {
    last[..|last| + x - HEADER_SIZE] + noop[x..]
  }

  /** As long as the lengths in the header are whole, it passes for an answer. */
  lemma SplicedIsSane(last: Bytes, noop: Bytes, x: nat)
    requires SaneAnswer(last) && SaneAnswer(noop) && x <= HEADER_SIZE == |noop| <= |last|
    requires |last| == HEADER_SIZE || |last| + x >= HEADER_SIZE + 12
    ensures SaneAnswer(Spliced(last, noop, x)) && IsFrame(Spliced(last, noop, x))
  {
    var f := Spliced(last, noop, x);
    SaneSizeFits(last, RESPONSE_MAGIC);
    SaneSizeFits(noop, RESPONSE_MAGIC);
    if |last| + x >= HEADER_SIZE + 12 {
      assert forall i :: 0 <= i < 12 ==> f[i] == last[i];
    } else {
      assert forall i :: 0 <= i < HEADER_SIZE ==> f[i] == if i < x then last[i] else noop[i];
      BareHeader(last);
      BareHeader(noop);
    }
  }

  lemma BareHeader(f: Bytes)
    requires SaneAnswer(f) && |f| == HEADER_SIZE
    ensures f[0] == RESPONSE_MAGIC && forall i :: i in {2, 3, 4, 8, 9, 10, 11} ==> f[i] == 0
  {
    SaneSizeFits(f, RESPONSE_MAGIC);
  }

  /** Then it is the first reply of the next batch, though it answers nothing unless both ends happen to be alike. */
  lemma SplicedIsNext(t: Turn, held: Bytes, batch: seq<Bytes>, socket: Bytes, e: Exch)
    requires Takes(t, held) && IsFrame(held) && |t.e.got| == |t.batch| && |t.e.extra| <= HEADER_SIZE
    requires var last, noop, x := t.answers[|t.batch| - 2], t.answers[|t.batch| - 1], |t.e.extra|;
      && SaneAnswer(last) && SaneAnswer(noop) && (|last| == HEADER_SIZE || |last| + x >= HEADER_SIZE + 12)
      && Told(batch, RestOf(t.batch, t.e) + (noop[x..] + socket), e, false) && e.got != []
    ensures var last, noop, x := t.answers[|t.batch| - 2], t.answers[|t.batch| - 1], |t.e.extra|;
      && HEADER_SIZE <= |last| && e.got[0] == Spliced(last, noop, x)
      && (e.got[0] == last <==> last[|last| + x - HEADER_SIZE..] == noop[x..])
  {
    var last, noop, x := t.answers[|t.batch| - 2], t.answers[|t.batch| - 1], |t.e.extra|;
    LateBatch(t, held);
    SaneSizeFits(last, RESPONSE_MAGIC);
    SplicedIsSane(last, noop, x);
    var cut := |last| + x - HEADER_SIZE;
    assert RestOf(t.batch, t.e) == last[..cut];
    hide Takes, Told, RestOf, SaneAnswer, IsFrame;
    assert last[..cut] + (noop[x..] + socket) == Spliced(last, noop, x) + socket;
    FirstGot(batch, Spliced(last, noop, x), socket, e);
    SameEnd(last, cut, noop[x..]);
  }

  lemma FirstGot(batch: seq<Bytes>, f: Bytes, socket: Bytes, e: Exch)
    requires Told(batch, f + socket, e, false) && IsFrame(f) && e.got != []
    ensures e.got[0] == f
  {
    assert Concat(e.got) == e.got[0] + Concat(e.got[1..]);
    assert Courses.IsAnswer(e.got[0]);
    hide Concat;
    SameFrame(e.got[0], Concat(e.got[1..]), f, socket);
  }

  lemma SameEnd(last: Bytes, cut: nat, end: Bytes)
    requires cut <= |last| && cut + |end| == |last|
    ensures last[..cut] + end == last <==> last[cut..] == end
  {
    assert last == last[..cut] + last[cut..];
    if last[..cut] + end == last { assert (last[..cut] + end)[cut..] == end; }
  }

  // ---- when the header itself is spliced ----

  /** The server's answer to the no-op, up to its opaque field. */
  ghost predicate NoopAnswer(f: Bytes)
  {
    |f| == HEADER_SIZE && f[0] == RESPONSE_MAGIC && f[1] == NOOP && forall i :: 2 <= i < 12 ==> f[i] == 0
  }

  /** The body length that a header announces whose end is that of the no-op's answer, `d` bytes late, with `x` bytes of it gone. */
  function Announced(d: nat, x: nat): nat
  {
    (if x > 0 then 0 else if d == 8 then 0x8100_0000 else if d == 9 then 0x81_0000 else if d == 10 then 0x8100
     else if d == 11 then 0x81 else 0)
    + (if x > 1 then 0 else if d == 7 then 0x0A00_0000 else if d == 8 then 0x0A_0000 else if d == 9 then 0x0A00
       else if d == 10 then 0x0A else 0)
  }

  lemma SmallBody(f: Bytes)
    requires HEADER_SIZE <= |f| && BodyLength(f) < 12
    ensures f[8] == 0 && f[9] == 0 && f[10] == 0
  {
  }

  lemma SplicedByte(last: Bytes, noop: Bytes, x: nat, socket: Bytes, i: nat)
    requires x <= HEADER_SIZE == |noop| < |last| && |last| + x < HEADER_SIZE + 12 && i < 12
    ensures var d := |last| - HEADER_SIZE;
      (Spliced(last, noop, x) + socket)[i] == if i < d + x then last[i] else noop[i - d]
  {
  }

  lemma SplicedBody(last: Bytes, noop: Bytes, x: nat, socket: Bytes)
    requires SaneAnswer(last) && NoopAnswer(noop) && HEADER_SIZE < |last| && |last| + x < HEADER_SIZE + 12
    ensures BodyLength(Spliced(last, noop, x) + socket) == Announced(|last| - HEADER_SIZE, x)
    ensures (Spliced(last, noop, x) + socket)[0] == RESPONSE_MAGIC
  {
    var b, d := Spliced(last, noop, x) + socket, |last| - HEADER_SIZE;
    SaneSizeFits(last, RESPONSE_MAGIC);
    SmallBody(last);
    SplicedByte(last, noop, x, socket, 0);
    SplicedByte(last, noop, x, socket, 8);
    SplicedByte(last, noop, x, socket, 9);
    SplicedByte(last, noop, x, socket, 10);
    SplicedByte(last, noop, x, socket, 11);
    hide SaneSize, Spliced;
  }

  /**
   * What the next batch finds when the cut went through the lengths of the header: nothing yet while less has arrived than
   * is announced, then a broken frame, or a frame of another length that takes in what follows.
   */
  lemma SplicedSize(last: Bytes, noop: Bytes, x: nat, socket: Bytes)
    requires SaneAnswer(last) && NoopAnswer(noop) && HEADER_SIZE < |last| && |last| + x < HEADER_SIZE + 12
    ensures var b, n := Spliced(last, noop, x) + socket, Announced(|last| - HEADER_SIZE, x);
      var lengths := b[4] as nat + KeyLength(b);
      SaneSize(b, RESPONSE_MAGIC) ==
        if n >= 0x8000_0000 then -1
        else if |b| < HEADER_SIZE + n then 0
        else if n < lengths || n - lengths > MAX_VALUE_SIZE || KeyLength(b) > MAX_KEY_SIZE then -1
        else HEADER_SIZE + n
  {
    SplicedBody(last, noop, x, socket);
    hide Spliced, BodyLength, KeyLength;
  }

  /** All of a 33-byte answer's end gone: the next exchange waits for more than eight megabytes. */
  lemma SplicedWaits(last: Bytes, noop: Bytes, socket: Bytes)
    requires SaneAnswer(last) && |last| == HEADER_SIZE + 9 && NoopAnswer(noop) && |socket| < 0x81_0A00 - 9
    ensures SaneSize(Spliced(last, noop, 0) + socket, RESPONSE_MAGIC) == 0
  {
    SplicedSize(last, noop, 0, socket);
    hide SaneSize;
  }

  /** An answer of 32 bytes that loses all 24 makes a broken header: every request of the next batch is answered with an error. */
  lemma SplicedBreaks(last: Bytes, noop: Bytes, batch: seq<Bytes>, socket: Bytes, e: Exch)
    requires SaneAnswer(last) && |last| == HEADER_SIZE + 8 && SaneAnswer(noop) && |noop| == HEADER_SIZE
    requires Told(batch, Spliced(last, noop, 0) + socket, e, false)
    ensures SaneSize(Spliced(last, noop, 0) + socket, RESPONSE_MAGIC) == -1 && e.got == []
  {
    var b := Spliced(last, noop, 0) + socket;
    SaneSizeFits(last, RESPONSE_MAGIC);
    BareHeader(noop);
    assert b[0] == last[0] && b[8] == noop[0] && b[9] == noop[1] && b[10] == noop[2] && b[11] == noop[3];
    assert BodyLength(b) >= 0x8100_0000;
  }
}
