/** One exchange of the proxy with the servers of a batch: queues out, answer buffers back, through the event loop. */
module Exchange {
  import opened Frames
  import opened Courses
  import opened Backend
  import opened Batch

  /** What an exchange got from one server: the real answers, and what came beyond the last one due. */
  datatype Exch = Exch(got: seq<Bytes>, extra: Bytes)

  /** A storage server as an exchange finds it: its connection, and all it is going to send. */
  datatype Peer = Peer(sd: int, socket: Bytes)

  /** The answer to request `r` of the batch. */
  ghost function AnswerAt(batch: seq<Bytes>, e: Exch, r: nat): Bytes
  {
    if r < |e.got| then e.got[r] else if r < |batch| then ErrorFor(batch[r]) else []
  }

  ghost function AnswersOf(batch: seq<Bytes>, e: Exch): seq<Bytes>
    requires |e.got| <= |batch|
  {
    e.got + Errors(batch[|e.got|..])
  }

  /** What the receive buffer holds when the exchange is over. */
  ghost function Buffer(batch: seq<Bytes>, e: Exch): Bytes
    requires |e.got| <= |batch|
  {
    Concat(AnswersOf(batch, e)) + e.extra
  }

  /**
   * The real answers are the first frames of the server's stream. Fewer than the batch is long come only when something
   * went wrong or the stream goes on with a broken frame.
   */
  ghost predicate Told(batch: seq<Bytes>, stream: Bytes, e: Exch, calm: bool)
  {
    && AllFrames(batch) && Answers(e.got) && |e.got| <= |batch| && Concat(e.got) + e.extra <= stream
    && (|e.got| < |batch| ==> e.extra == [])
    && (calm && |e.got| < |batch| ==> SaneSize(stream[|Concat(e.got)|..], RESPONSE_MAGIC) == -1)
  }

  /** What an exchange that took this course got: all whole answers received by reads that did not fail. */
  ghost function ExchOf(j: Job, c: Course): Exch { Exch(GotOf(j, c), ExtraOf(j, c)) }

  lemma BrokenStays(b: Bytes, more: Bytes)
    requires SaneSize(b, RESPONSE_MAGIC) == -1
    ensures SaneSize(b + more, RESPONSE_MAGIC) == -1
  {
    assert forall i :: 0 <= i < HEADER_SIZE ==> (b + more)[i] == b[i];
  }

  lemma CourseTells(j: Job, c: Course, calm: bool)
    requires AllFrames(j.batch) && c.ok <= |j.stream| && (calm ==> Ends(j, Seen(j, c.ok)))
    ensures Told(j.batch, j.stream, ExchOf(j, c), calm)
  {
    var seen, n := Seen(j, c.ok), |j.batch|;
    WholeAndRest(seen, n);
    var got, rest := Whole(seen, n), Rest(seen, n);
    hide Whole, Rest, SaneSize, Concat, Answers, AllFrames;
    SplitStream(j.stream, c.ok, Concat(got), rest);
    if calm && |got| < n { BrokenStays(rest, j.stream[c.ok..]); }
  }

  lemma SplitStream(stream: Bytes, k: nat, a: Bytes, rest: Bytes)
    requires k <= |stream| && stream[..k] == a + rest
    ensures a + rest <= stream && a + [] <= stream && stream[|a|..] == rest + stream[k..]
  {
    assert stream == stream[..k] + stream[k..];
  }

  /** A finished exchange of the event loop got what its course says, and its buffer holds that and errors for the rest. */
  lemma FinishedTells(srv: Server)
    requires srv.Finished()
    ensures var j, c := srv.Task(), srv.Track();
      && c.on.Nothing? && c.ok <= |j.stream| && AllFrames(j.batch) && |GotOf(j, c)| <= |j.batch|
      && Exch(srv.got, srv.extra) == ExchOf(j, c)
      && srv.recvBuf == Buffer(j.batch, ExchOf(j, c)) && srv.sendBuf == [] && srv.requests == 0
  {
    var j, c := srv.Task(), srv.Track();
    var n := |srv.batch|;
    assert Seen(j, c.ok) == srv.wire[..srv.ok];
    if |srv.got| == n {
      assert srv.wire[..srv.ok] == srv.wire;
      WholeAndRest(srv.wire, n);
      hide Whole, Rest, Answers, AllFrames, Errors;
      assert srv.extra == srv.wire[|Concat(srv.got)|..];
    }
  }

  // ---- the no-op's answer ----

  lemma AnswersAre(batch: seq<Bytes>, stream: Bytes, e: Exch)
    requires Told(batch, stream, e, false)
    ensures |AnswersOf(batch, e)| == |batch| && AllFrames(AnswersOf(batch, e))
    ensures forall r :: 0 <= r < |batch| ==> AnswersOf(batch, e)[r] == AnswerAt(batch, e, r)
  {
    var lost, n := batch[|e.got|..], |e.got|;
    ErrorsAre(lost);
    forall r | 0 <= r < |batch|
      ensures AnswersOf(batch, e)[r] == AnswerAt(batch, e, r) && IsFrame(AnswersOf(batch, e)[r])
    {
      if r >= n {
        assert lost[r - n] == batch[r];
        ErrorFrameEchoes(batch[r]);
      }
    }
  }

  function ButLast(fs: seq<Bytes>): seq<Bytes> { if fs == [] then [] else fs[..|fs| - 1] }

  /** What is left of the last answer and the bytes after it when 24 bytes are cut off the end. */
  ghost function RestOf(batch: seq<Bytes>, e: Exch): Bytes
    requires batch != []
  {
    var last := AnswerAt(batch, e, |batch| - 1) + e.extra;
    if HEADER_SIZE <= |last| then last[..|last| - HEADER_SIZE] else []
  }

  /** Cutting 24 bytes off leaves every answer but the last whole, whatever the server sent. */
  lemma CutNoop(batch: seq<Bytes>, stream: Bytes, e: Exch)
    requires Told(batch, stream, e, false) && batch != []
    ensures var b := Buffer(batch, e);
      HEADER_SIZE <= |b| && b[..|b| - HEADER_SIZE] == Concat(ButLast(AnswersOf(batch, e))) + RestOf(batch, e)
  {
    AnswersAre(batch, stream, e);
    var all, n := AnswersOf(batch, e), |batch| - 1;
    var front, last := ButLast(all), all[n];
    assert all == front + [last] && IsFrame(last);
    ConcatSnoc(front, last);
    hide Concat, AnswersOf, Told, AllFrames;
    CutEnd(Concat(front), last, e.extra);
  }

  lemma CutEnd(a: Bytes, last: Bytes, extra: Bytes)
    requires HEADER_SIZE <= |last|
    ensures var b, end := a + last + extra, last + extra;
      b[..|b| - HEADER_SIZE] == a + end[..|end| - HEADER_SIZE]
  {
  }

  /** The stream ends with the answer to the last of `n` requests, which is a bare header. */
  ghost predicate Tidy(stream: Bytes, n: nat)
  {
    forall got: seq<Bytes>, extra: Bytes :: Answers(got) && |got| == n > 0 && Concat(got) + extra <= stream ==>
      extra == [] && |got[n - 1]| == HEADER_SIZE
  }

  lemma TidyRest(batch: seq<Bytes>, stream: Bytes, e: Exch)
    requires Told(batch, stream, e, false) && batch != [] && Tidy(stream, |batch|)
    requires batch[|batch| - 1] == NOOP_REQUEST
    ensures RestOf(batch, e) == []
  {
    ErrorFrameEchoes(NOOP_REQUEST);
  }

  // ---- from the queues to the event loop and back ----

  /** What a server's buffers are like when its exchange is over. */
  ghost predicate Heard(queue: map<nat, Bytes>, requests: map<nat, nat>, recv: map<Dest, Bytes>, ex: map<nat, Exch>, s: nat,
                        batch: seq<Bytes>, stream: Bytes, calm: bool)
  {
    && s in ex && Told(batch, stream, ex[s], calm) && Get(recv, Remote(s)) == Buffer(batch, ex[s])
    && Get(queue, s) == [] && Num(requests, s) == 0
  }

  /** The queue of a server is its batch. */
  ghost predicate Loaded(queue: map<nat, Bytes>, requests: map<nat, nat>, s: nat, batch: seq<Bytes>)
  {
    Get(queue, s) == Concat(batch) != [] && Num(requests, s) == |batch| && AllFrames(batch) && batch != []
  }

  ghost function StreamOf(recv: map<Dest, Bytes>, net: nat -> Peer, s: nat): Bytes
  {
    Get(recv, Remote(s)) + net(s).socket
  }

  /** A server object ready to start. */
  ghost predicate Mustered(o: Server, j: Job, had: nat, sd: int)
    reads o
  {
    o.Untried() && o.sd == sd && o.Task() == j && o.Track() == Course(Nothing, 0, had, 0)
  }

  ghost function JobOf(recv: map<Dest, Bytes>, net: nat -> Peer, batchOf: nat -> seq<Bytes>, s: nat): Job
  {
    Job(batchOf(s), StreamOf(recv, net, s))
  }

  method MusterOne(s: nat, queue: map<nat, Bytes>, requests: map<nat, nat>, recv: map<Dest, Bytes>, net: nat -> Peer,
                   ghost batchOf: nat -> seq<Bytes>) returns (o: Server)
    requires Loaded(queue, requests, s, batchOf(s))
    ensures fresh(o) && Mustered(o, JobOf(recv, net, batchOf, s), |Get(recv, Remote(s))|, net(s).sd)
  {
    var have := if Remote(s) in recv then recv[Remote(s)] else [];
    o := new Server(net(s).sd, queue[s], requests[s], have, net(s).socket, batchOf(s));
  }

  method Muster(servers: seq<nat>, queue: map<nat, Bytes>, requests: map<nat, nat>, recv: map<Dest, Bytes>, net: nat -> Peer,
                ghost batchOf: nat -> seq<Bytes>) returns (objs: seq<Server>)
    requires forall i :: 0 <= i < |servers| ==> Loaded(queue, requests, servers[i], batchOf(servers[i]))
    ensures |objs| == |servers| && (forall i :: 0 <= i < |objs| ==> fresh(objs[i]))
    ensures forall i, j :: 0 <= i < j < |objs| ==> objs[i] != objs[j]
    ensures forall i :: 0 <= i < |objs| ==>
      Mustered(objs[i], JobOf(recv, net, batchOf, servers[i]), |Get(recv, Remote(servers[i]))|, net(servers[i]).sd)
  {
    hide Loaded, Mustered, JobOf;
    objs := [];
    for i := 0 to |servers|
      invariant |objs| == i && (forall j :: 0 <= j < i ==> fresh(objs[j]))
      invariant forall j, k :: 0 <= j < k < i ==> objs[j] != objs[k]
      invariant forall j :: 0 <= j < i ==>
        Mustered(objs[j], JobOf(recv, net, batchOf, servers[j]), |Get(recv, Remote(servers[j]))|, net(servers[j]).sd)
    {
      var o := MusterOne(servers[i], queue, requests, recv, net, batchOf);
      objs := objs + [o];
    }
  }

  /** The buffers of the servers outside `done` are as they were. */
  ghost predicate Untouched(queue: map<nat, Bytes>, requests: map<nat, nat>, recv: map<Dest, Bytes>,
                            queue': map<nat, Bytes>, requests': map<nat, nat>, recv': map<Dest, Bytes>, done: set<nat>)
  {
    && Get(recv', Local) == Get(recv, Local)
    && forall s :: s !in done ==>
      Get(queue', s) == Get(queue, s) && Num(requests', s) == Num(requests, s) && Get(recv', Remote(s)) == Get(recv, Remote(s))
  }

  ghost predicate AllHeard(queue: map<nat, Bytes>, requests: map<nat, nat>, recv: map<Dest, Bytes>, ex: map<nat, Exch>,
                           done: set<nat>, batchOf: nat -> seq<Bytes>, streamOf: nat -> Bytes, calm: bool)
  {
    ex.Keys == done && forall s :: s in done ==> Heard(queue, requests, recv, ex, s, batchOf(s), streamOf(s), calm)
  }

  lemma HeardStays(queue: map<nat, Bytes>, requests: map<nat, nat>, recv: map<Dest, Bytes>, ex: map<nat, Exch>, t: nat,
                   batch: seq<Bytes>, stream: Bytes, calm: bool, s: nat, b: Bytes, e: Exch)
    requires Heard(queue, requests, recv, ex, t, batch, stream, calm) && t != s
    ensures Heard(queue[s := []], requests[s := 0], recv[Remote(s) := b], ex[s := e], t, batch, stream, calm)
  {
    hide Told, Buffer;
  }

  lemma HeardNow(queue: map<nat, Bytes>, requests: map<nat, nat>, recv: map<Dest, Bytes>, ex: map<nat, Exch>,
                 batch: seq<Bytes>, stream: Bytes, calm: bool, s: nat, e: Exch)
    requires Told(batch, stream, e, calm)
    ensures Heard(queue[s := []], requests[s := 0], recv[Remote(s) := Buffer(batch, e)], ex[s := e], s, batch, stream, calm)
  {
    hide Buffer;
  }

  lemma HeardOne(queue: map<nat, Bytes>, requests: map<nat, nat>, recv: map<Dest, Bytes>, ex: map<nat, Exch>, done: set<nat>,
                 batchOf: nat -> seq<Bytes>, streamOf: nat -> Bytes, calm: bool, s: nat, e: Exch)
    requires AllHeard(queue, requests, recv, ex, done, batchOf, streamOf, calm) && s !in done
    requires Told(batchOf(s), streamOf(s), e, calm)
    ensures AllHeard(queue[s := []], requests[s := 0], recv[Remote(s) := Buffer(batchOf(s), e)], ex[s := e], done + {s},
                     batchOf, streamOf, calm)
  {
    var b := Buffer(batchOf(s), e);
    forall t | t in done + {s}
      ensures Heard(queue[s := []], requests[s := 0], recv[Remote(s) := b], ex[s := e], t, batchOf(t), streamOf(t), calm)
    {
      if t == s {
        HeardNow(queue, requests, recv, ex, batchOf(s), streamOf(s), calm, s, e);
      } else {
        assert Heard(queue, requests, recv, ex, t, batchOf(t), streamOf(t), calm);
        hide Told, Buffer, AllHeard;
        HeardStays(queue, requests, recv, ex, t, batchOf(t), streamOf(t), calm, s, b, e);
      }
    }
    hide Told, Buffer, Heard;
  }

  lemma UntouchedOne(queue: map<nat, Bytes>, requests: map<nat, nat>, recv: map<Dest, Bytes>,
                     queue': map<nat, Bytes>, requests': map<nat, nat>, recv': map<Dest, Bytes>, done: set<nat>, s: nat, b: Bytes)
    requires Untouched(queue, requests, recv, queue', requests', recv', done)
    ensures Untouched(queue, requests, recv, queue'[s := []], requests'[s := 0], recv'[Remote(s) := b], done + {s})
  {
  }

  /** The course that the exchange with server number `i` takes. */
  ghost function EndOf(recv: map<Dest, Bytes>, net: nat -> Peer, starts: nat -> Start, schedule: seq<seq<(nat, Outcome)>>,
                       batchOf: nat -> seq<Bytes>, s: nat, i: nat): Course
  {
    var j := JobOf(recv, net, batchOf, s);
    After(j, Begin(j, |Get(recv, Remote(s))|, net(s).sd, starts(i)), schedule, |schedule|, i)
  }

  /** Every exchange comes to an end under the schedule. */
  ghost predicate AllEnd(recv: map<Dest, Bytes>, net: nat -> Peer, starts: nat -> Start, schedule: seq<seq<(nat, Outcome)>>,
                         batchOf: nat -> seq<Bytes>, servers: seq<nat>)
  {
    forall i :: 0 <= i < |servers| ==> EndOf(recv, net, starts, schedule, batchOf, servers[i], i).on.Nothing?
  }

  /** What was got from each server is what its course gives. */
  ghost predicate GotAll(recv: map<Dest, Bytes>, net: nat -> Peer, starts: nat -> Start, schedule: seq<seq<(nat, Outcome)>>,
                         batchOf: nat -> seq<Bytes>, servers: seq<nat>, ex: map<nat, Exch>)
  {
    forall i :: 0 <= i < |servers| ==>
      && servers[i] in ex
      && ex[servers[i]] == ExchOf(JobOf(recv, net, batchOf, servers[i]), EndOf(recv, net, starts, schedule, batchOf, servers[i], i))
  }

  /** The first `n` servers' answers are taken. */
  ghost predicate GotSome(servers: seq<nat>, work: seq<Job>, ends: seq<Course>, ex: map<nat, Exch>, n: nat)
    requires |servers| == |work| == |ends|
  {
    n <= |servers| && forall i :: 0 <= i < n ==> servers[i] in ex && ex[servers[i]] == ExchOf(work[i], ends[i])
  }

  lemma GotMore(servers: seq<nat>, work: seq<Job>, ends: seq<Course>, ex: map<nat, Exch>, n: nat)
    requires |servers| == |work| == |ends| && n < |servers| && NoRepeat(servers) && GotSome(servers, work, ends, ex, n)
    ensures GotSome(servers, work, ends, ex[servers[n] := ExchOf(work[n], ends[n])], n + 1)
  {
    hide ExchOf;
  }

  /** A server object whose exchange is over, as its course says. */
  ghost predicate Done(o: Server, j: Job, c: Course)
    reads o
  {
    o.Finished() && o.Task() == j && o.Track() == c
  }

  lemma DoneTells(o: Server, j: Job, c: Course, calm: bool)
    requires Done(o, j, c) && (calm ==> Ends(j, Seen(j, c.ok)))
    ensures |GotOf(j, c)| <= |j.batch| && Told(j.batch, j.stream, ExchOf(j, c), calm)
    ensures o.recvBuf == Buffer(j.batch, ExchOf(j, c)) && o.sendBuf == [] && o.requests == 0
  {
    FinishedTells(o);
    hide Server.Finished, Buffer;
    CourseTells(j, c, calm);
  }

  /** Takes the buffers of the finished exchanges back. */
  method Gather(servers: seq<nat>, objs: seq<Server>, queue: map<nat, Bytes>, requests: map<nat, nat>, recv: map<Dest, Bytes>,
                ghost work: seq<Job>, ghost ends: seq<Course>,
                ghost batchOf: nat -> seq<Bytes>, ghost streamOf: nat -> Bytes, ghost calm: bool)
      returns (queue': map<nat, Bytes>, requests': map<nat, nat>, recv': map<Dest, Bytes>, ghost ex: map<nat, Exch>)
    requires NoRepeat(servers) && |objs| == |servers| == |work| == |ends|
    requires forall i :: 0 <= i < |objs| ==> Done(objs[i], work[i], ends[i])
    requires forall i :: 0 <= i < |objs| ==> work[i] == Job(batchOf(servers[i]), streamOf(servers[i]))
    requires forall i :: 0 <= i < |objs| ==> calm ==> Ends(work[i], Seen(work[i], ends[i].ok))
    ensures AllHeard(queue', requests', recv', ex, SetOf(servers), batchOf, streamOf, calm)
    ensures Untouched(queue, requests, recv, queue', requests', recv', SetOf(servers))
    ensures GotSome(servers, work, ends, ex, |servers|)
  {
    SetBounds(servers);
    queue', requests', recv', ex := queue, requests, recv, map[];
    ghost var done: set<nat> := {};
    hide Done, Told, Buffer, Ends, Seen, ExchOf, GotOf, Heard;
    for i := 0 to |servers|
      invariant done == SetOf(servers[..i]) && AllHeard(queue', requests', recv', ex, done, batchOf, streamOf, calm)
      invariant Untouched(queue, requests, recv, queue', requests', recv', done) && GotSome(servers, work, ends, ex, i)
    {
      var s, o := servers[i], objs[i];
      SetStep(servers, i);
      DoneTells(o, work[i], ends[i], calm);
      ghost var e := ExchOf(work[i], ends[i]);
      HeardOne(queue', requests', recv', ex, done, batchOf, streamOf, calm, s, e);
      UntouchedOne(queue, requests, recv, queue', requests', recv', done, s, o.recvBuf);
      GotMore(servers, work, ends, ex, i);
      hide AllHeard, Untouched, GotSome;
      queue', requests' := queue'[s := o.sendBuf], requests'[s := o.requests];
      recv', ex := recv'[Remote(s) := o.recvBuf], ex[s := e];
      done := done + {s};
    }
  }

  ghost predicate CalmNetwork(starts: nat -> Start, schedule: seq<seq<(nat, Outcome)>>)
  {
    (forall i :: StartFine(starts(i))) && forall n :: 0 <= n < |schedule| ==> CalmRound(schedule[n])
  }

  /** Without faults an exchange that is over has all its answers, or the next one is broken. */
  lemma CalmEnds(recv: map<Dest, Bytes>, net: nat -> Peer, starts: nat -> Start, schedule: seq<seq<(nat, Outcome)>>,
                 batchOf: nat -> seq<Bytes>, s: nat, i: nat)
    requires CalmNetwork(starts, schedule) && Concat(batchOf(s)) != []
    requires EndOf(recv, net, starts, schedule, batchOf, s, i).on.Nothing?
    ensures Ends(JobOf(recv, net, batchOf, s), Seen(JobOf(recv, net, batchOf, s), EndOf(recv, net, starts, schedule, batchOf, s, i).ok))
  {
    var j := JobOf(recv, net, batchOf, s);
    hide Ends, Seen, Proper, After, Begin, CalmRound;
    BeginProper(j, |Get(recv, Remote(s))|, net(s).sd, starts(i));
    AfterProper(j, Begin(j, |Get(recv, Remote(s))|, net(s).sd, starts(i)), schedule, |schedule|, i);
  }

  /** The jobs of the servers, where they start from, and their sockets. */
  ghost function Works(recv: map<Dest, Bytes>, net: nat -> Peer, batchOf: nat -> seq<Bytes>, servers: seq<nat>): (r: seq<Job>)
    ensures |r| == |servers|
  {
    seq(|servers|, i requires 0 <= i < |servers| => JobOf(recv, net, batchOf, servers[i]))
  }

  ghost function Origins(recv: map<Dest, Bytes>, servers: seq<nat>): (r: seq<Course>)
    ensures |r| == |servers|
  {
    seq(|servers|, i requires 0 <= i < |servers| => Course(Nothing, 0, |Get(recv, Remote(servers[i]))|, 0))
  }

  ghost function Sockets(net: nat -> Peer, servers: seq<nat>): (r: seq<int>)
    ensures |r| == |servers|
  {
    seq(|servers|, i requires 0 <= i < |servers| => net(servers[i]).sd)
  }

  /** Where the event loop leaves all servers. */
  ghost function AllEnds(recv: map<Dest, Bytes>, net: nat -> Peer, starts: nat -> Start, schedule: seq<seq<(nat, Outcome)>>,
                         batchOf: nat -> seq<Bytes>, servers: seq<nat>): (r: seq<Course>)
    ensures |r| == |servers|
  {
    var work, cs := Works(recv, net, batchOf, servers), Origins(recv, servers);
    EndsOf(work, StartsOf(work, cs, Sockets(net, servers), starts, |cs|), schedule, |schedule|)
  }

  lemma AllEndsAt(recv: map<Dest, Bytes>, net: nat -> Peer, starts: nat -> Start, schedule: seq<seq<(nat, Outcome)>>,
                  batchOf: nat -> seq<Bytes>, servers: seq<nat>, i: nat)
    requires i < |servers|
    ensures AllEnds(recv, net, starts, schedule, batchOf, servers)[i] == EndOf(recv, net, starts, schedule, batchOf, servers[i], i)
  {
    hide JobOf, After, Begin;
  }

  /** What the courses of all servers say about the schedule. */
  lemma AllEndsAre(recv: map<Dest, Bytes>, net: nat -> Peer, starts: nat -> Start, schedule: seq<seq<(nat, Outcome)>>,
                   batchOf: nat -> seq<Bytes>, servers: seq<nat>)
    ensures AllOver(AllEnds(recv, net, starts, schedule, batchOf, servers)) <==>
      AllEnd(recv, net, starts, schedule, batchOf, servers)
    ensures forall ex :: GotSome(servers, Works(recv, net, batchOf, servers),
        AllEnds(recv, net, starts, schedule, batchOf, servers), ex, |servers|) ==>
      GotAll(recv, net, starts, schedule, batchOf, servers, ex)
  {
    forall i | 0 <= i < |servers|
      ensures AllEnds(recv, net, starts, schedule, batchOf, servers)[i] == EndOf(recv, net, starts, schedule, batchOf, servers[i], i)
    {
      AllEndsAt(recv, net, starts, schedule, batchOf, servers, i);
    }
    hide AllEnds, EndOf, JobOf, ExchOf;
  }

  /**
   * The servers get their batches through the event loop. It comes to an end exactly when every exchange does under the
   * schedule, and then each has been heard as its course says.
   */
  method Converse(servers: seq<nat>, queue: map<nat, Bytes>, requests: map<nat, nat>, recv: map<Dest, Bytes>,
                  net: nat -> Peer, starts: nat -> Start, schedule: seq<seq<(nat, Outcome)>>,
                  ghost batchOf: nat -> seq<Bytes>, ghost streamOf: nat -> Bytes, ghost calm: bool)
      returns (done: bool, queue': map<nat, Bytes>, requests': map<nat, nat>, recv': map<Dest, Bytes>, ghost ex: map<nat, Exch>)
    requires NoRepeat(servers) && forall s :: streamOf(s) == StreamOf(recv, net, s)
    requires forall i :: 0 <= i < |servers| ==> Loaded(queue, requests, servers[i], batchOf(servers[i]))
    requires calm ==> CalmNetwork(starts, schedule)
    ensures done <==> AllEnd(recv, net, starts, schedule, batchOf, servers)
    ensures done ==> GotAll(recv, net, starts, schedule, batchOf, servers, ex)
    ensures done ==> AllHeard(queue', requests', recv', ex, SetOf(servers), batchOf, streamOf, calm)
    ensures done ==> Untouched(queue, requests, recv, queue', requests', recv', SetOf(servers))
  {
    ghost var work, cs, sds := Works(recv, net, batchOf, servers), Origins(recv, servers), Sockets(net, servers);
    ghost var ends := AllEnds(recv, net, starts, schedule, batchOf, servers);
    AllEndsAre(recv, net, starts, schedule, batchOf, servers);
    if calm { CalmAll(queue, requests, recv, net, starts, schedule, batchOf, servers); }
    hide Loaded, StreamOf, AllHeard, Untouched, NoRepeat, CalmNetwork, AllEnd, GotAll, AllOver, Ends, Seen;
    var objs := Muster(servers, queue, requests, recv, net, batchOf);
    var loop := new EventLoop(objs);
    Ready(loop, servers, work, cs, sds, recv, net, batchOf);
    hide Mustered, Server.Stands, Server.Rests, Waits, Server.Finished;
    loop.StartAll(starts, work, cs, sds);
    var _ := loop.Loop(schedule, work, StartsOf(work, cs, sds, starts, |cs|));
    done := loop.usedSlots == 0;
    queue', requests', recv', ex := queue, requests, recv, map[];
    if done {
      AllDone(loop, work, ends);
      queue', requests', recv', ex := Gather(servers, objs, queue, requests, recv, work, ends, batchOf, streamOf, calm);
    }
  }

  lemma CalmAll(queue: map<nat, Bytes>, requests: map<nat, nat>, recv: map<Dest, Bytes>, net: nat -> Peer, starts: nat -> Start,
                schedule: seq<seq<(nat, Outcome)>>, batchOf: nat -> seq<Bytes>, servers: seq<nat>)
    requires forall i :: 0 <= i < |servers| ==> Loaded(queue, requests, servers[i], batchOf(servers[i]))
    requires CalmNetwork(starts, schedule)
    ensures var work, ends := Works(recv, net, batchOf, servers), AllEnds(recv, net, starts, schedule, batchOf, servers);
      forall i :: 0 <= i < |servers| ==> ends[i].on.Nothing? ==> Ends(work[i], Seen(work[i], ends[i].ok))
  {
    var work, ends := Works(recv, net, batchOf, servers), AllEnds(recv, net, starts, schedule, batchOf, servers);
    forall i | 0 <= i < |servers| && ends[i].on.Nothing?
      ensures Ends(work[i], Seen(work[i], ends[i].ok))
    {
      assert Loaded(queue, requests, servers[i], batchOf(servers[i]));
      AllEndsAt(recv, net, starts, schedule, batchOf, servers, i);
      hide AllEnds, EndOf, JobOf, Ends, Seen, CalmNetwork;
      CalmEnds(recv, net, starts, schedule, batchOf, servers[i], i);
    }
  }

  /** The mustered objects are ready for the event loop. */
  lemma Ready(loop: EventLoop, servers: seq<nat>, work: seq<Job>, cs: seq<Course>, sds: seq<int>,
              recv: map<Dest, Bytes>, net: nat -> Peer, batchOf: nat -> seq<Bytes>)
    requires work == Works(recv, net, batchOf, servers) && cs == Origins(recv, servers) && sds == Sockets(net, servers)
    requires |loop.servers| == |servers| && forall i, j :: 0 <= i < j < |servers| ==> loop.servers[i] != loop.servers[j]
    requires forall i :: 0 <= i < |servers| ==>
      Mustered(loop.servers[i], JobOf(recv, net, batchOf, servers[i]), |Get(recv, Remote(servers[i]))|, net(servers[i]).sd)
    requires loop.usedSlots == 0
    ensures loop.BegunUpTo(0, work, cs, sds)
  {
    hide Server.Untried, JobOf, Waits;
    WaitsZero(cs);
  }

  lemma AllDone(loop: EventLoop, work: seq<Job>, ends: seq<Course>)
    requires loop.Valid(work, ends) && forall i :: 0 <= i < |loop.servers| ==> loop.servers[i].Finished()
    ensures forall i :: 0 <= i < |loop.servers| ==> Done(loop.servers[i], work[i], ends[i])
  {
    hide Server.Finished, Server.Poised, Server.Task, Server.Track, Waits;
  }
}
