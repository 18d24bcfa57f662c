/** The proxy's batch pipeline: requests out to their servers, answers back in request order. */
module Pipeline {
  import opened Keys
  import opened Frames
  import opened Batch
  import opened Exchange
  import Courses
  import Backend

  /** The table of places filled for the first requests. */
  ghost predicate Follows(order: seq<Dest>, ds: seq<Dest>)
  {
    |order| <= |ds| && forall i :: 0 <= i < |order| ==> order[i] == ds[i]
  }

  /** What the connection layer lets through: whole frames whose parts fit their body. */
  ghost predicate Sound(fs: seq<Bytes>)
  {
    forall i :: 0 <= i < |fs| ==> IsFrame(fs[i]) && fs[i][4] as nat + KeyLength(fs[i]) <= BodyLength(fs[i])
  }

  ghost function Dests(route: Key -> nat, fs: seq<Bytes>): (r: seq<Dest>)
    requires Sound(fs)
    ensures |r| == |fs|
  {
    seq(|fs|, i requires 0 <= i < |fs| => DestOf(route, fs[i]))
  }

  lemma DestAt(route: Key -> nat, fs: seq<Bytes>, n: nat)
    requires Sound(fs) && n < |fs|
    ensures HEADER_SIZE <= |fs[n]| && Dests(route, fs)[n] == DestOf(route, fs[n])
  {
  }

  ghost predicate NothingQueued(queue: map<nat, Bytes>, requests: map<nat, nat>)
  {
    forall s :: Get(queue, s) == [] && Num(requests, s) == 0
  }

  ghost predicate QueuesHold(queue: map<nat, Bytes>, fs: seq<Bytes>, ds: seq<Dest>, n: nat)
    requires n <= |ds| == |fs|
  {
    forall s :: Get(queue, s) == Queued(fs, ds, n, Remote(s))
  }

  ghost predicate CountsHold(requests: map<nat, nat>, ds: seq<Dest>, n: nat)
    requires n <= |ds|
  {
    forall s :: Num(requests, s) == Count(ds, n, Remote(s))
  }

  /** The proxy's own answers are collected, and the servers' buffers are as they were. */
  ghost predicate LocalHolds(recv: map<Dest, Bytes>, before: map<Dest, Bytes>, ds: seq<Dest>, n: nat, locals: seq<Bytes>)
    requires n <= |ds|
  {
    && Count(ds, n, Local) <= |locals| && Get(recv, Local) == Joined(locals, Count(ds, n, Local))
    && forall s :: Get(recv, Remote(s)) == Get(before, Remote(s))
  }

  /** The proxy's own answers, each made from its request. */
  ghost function OwnAnswers(own: (nat, Bytes) -> Bytes, fs: seq<Bytes>, ds: seq<Dest>): (r: seq<Bytes>)
    requires |fs| == |ds|
    ensures |r| == Count(ds, |ds|, Local)
  {
    seq(Count(ds, |ds|, Local), k requires 0 <= k < Count(ds, |ds|, Local) => own(k, Pick(fs, ds, |ds|, Local)[k]))
  }

  lemma OwnAnswerAt(own: (nat, Bytes) -> Bytes, fs: seq<Bytes>, ds: seq<Dest>, n: nat)
    requires n < |ds| == |fs|
    ensures Count(ds, n + 1, Local) <= Count(ds, |ds|, Local)
    ensures ds[n].Local? ==>
      && Count(ds, n, Local) < Count(ds, |ds|, Local)
      && OwnAnswers(own, fs, ds)[Count(ds, n, Local)] == own(Count(ds, n, Local), fs[n])
  {
    CountGrows(ds, n + 1, |ds|, Local);
    if ds[n].Local? { PickAtRank(fs, ds, |ds|, n); }
  }

  lemma QueueStep(queue: map<nat, Bytes>, fs: seq<Bytes>, ds: seq<Dest>, n: nat)
    requires n < |ds| == |fs| && QueuesHold(queue, fs, ds, n)
    ensures ds[n].Local? ==> QueuesHold(queue, fs, ds, n + 1)
    ensures ds[n].Remote? ==> QueuesHold(queue[ds[n].srv := Get(queue, ds[n].srv) + fs[n]], fs, ds, n + 1)
  {
  }

  lemma CountStep(requests: map<nat, nat>, ds: seq<Dest>, n: nat)
    requires n < |ds| && CountsHold(requests, ds, n)
    ensures ds[n].Local? ==> CountsHold(requests, ds, n + 1)
    ensures ds[n].Remote? ==> CountsHold(requests[ds[n].srv := Num(requests, ds[n].srv) + 1], ds, n + 1)
    ensures Touched(ds, n + 1) == Touched(ds, n) + if ds[n].Remote? && Num(requests, ds[n].srv) == 0 then [ds[n].srv] else []
  {
    if ds[n].Remote? { TouchedIffCounted(ds, n, ds[n].srv); }
  }

  lemma LocalStep(recv: map<Dest, Bytes>, before: map<Dest, Bytes>, ds: seq<Dest>, n: nat, locals: seq<Bytes>)
    requires n < |ds| && LocalHolds(recv, before, ds, n, locals) && Count(ds, n + 1, Local) <= |locals|
    ensures ds[n].Remote? ==> LocalHolds(recv, before, ds, n + 1, locals)
    ensures ds[n].Local? ==>
      LocalHolds(recv[Local := Get(recv, Local) + locals[Count(ds, n, Local)]], before, ds, n + 1, locals)
  {
  }

  // ---- walking the bytes ----

  ghost predicate Walked(batch: Bytes, fs: seq<Bytes>, n: nat, pos: nat)
  {
    n <= |fs| && pos == |Joined(fs, n)| <= |batch| && batch[pos..] == Tail(fs, n)
  }

  lemma WalkStart(batch: Bytes, fs: seq<Bytes>)
    requires batch == Concat(fs)
    ensures Walked(batch, fs, 0, 0)
  {
    TailIsConcat(fs, 0);
    assert fs[0..] == fs;
  }

  /** The next request of the walk, read from the bytes. */
  lemma WalkHead(batch: Bytes, fs: seq<Bytes>, n: nat, pos: nat)
    requires Sound(fs) && Walked(batch, fs, n, pos) && pos < |batch|
    ensures n < |fs| && HEADER_SIZE <= |batch[pos..]| && FrameSize(batch[pos..]) == |fs[n]| <= |batch[pos..]|
    ensures batch[pos..][..|fs[n]|] == fs[n] && |fs[n]| >= HEADER_SIZE
    ensures Walked(batch, fs, n + 1, pos + |fs[n]|)
  {
    HeadFrame(fs[n], Tail(fs, n + 1));
    assert batch[pos + |fs[n]|..] == batch[pos..][|fs[n]|..];
  }

  lemma WalkEnd(batch: Bytes, fs: seq<Bytes>, n: nat, pos: nat)
    requires Sound(fs) && Walked(batch, fs, n, pos)
    ensures pos >= |batch| ==> n == |fs|
  {
  }

  class Proxy {
    const route: Key -> nat
    var queue: map<nat, Bytes>
    var requests: map<nat, nat>
    var recv: map<Dest, Bytes>
    var out: Bytes

    constructor (route: Key -> nat)
      ensures this.route == route && Ready() && (forall d :: Get(recv, d) == []) && out == []
    {
      this.route := route;
      queue, requests, recv, out := map[], map[], map[], [];
    }

    /** Nothing is queued; the servers' buffers may hold what an earlier batch left in them. */
    ghost predicate Ready()
      reads this`queue, this`requests, this`recv
    {
      NothingQueued(queue, requests) && Get(recv, Local) == []
    }

    /** The queues hold the first `n` requests, and the proxy's own answers are collected. */
    ghost predicate Holds(fs: seq<Bytes>, ds: seq<Dest>, n: nat, locals: seq<Bytes>, before: map<Dest, Bytes>)
      requires n <= |ds| == |fs|
      reads this`queue, this`requests, this`recv
    {
      QueuesHold(queue, fs, ds, n) && CountsHold(requests, ds, n) && LocalHolds(recv, before, ds, n, locals)
    }

    /** Routes one request: answered here with `answer`, or appended to its server's queue. */
    method Forward(d: Dest, req: Bytes, servers: seq<nat>, answer: Bytes,
                   ghost fs: seq<Bytes>, ghost ds: seq<Dest>, ghost n: nat, ghost locals: seq<Bytes>, ghost before: map<Dest, Bytes>)
        returns (servers': seq<nat>)
      requires n < |ds| == |fs| && Holds(fs, ds, n, locals, before) && ds[n] == d && fs[n] == req
      requires servers == Touched(ds, n) && Count(ds, n + 1, Local) <= |locals|
      requires d.Local? ==> answer == locals[Count(ds, n, Local)]
      modifies this`queue, this`requests, this`recv
      ensures Holds(fs, ds, n + 1, locals, before) && servers' == Touched(ds, n + 1)
    {
      QueueStep(queue, fs, ds, n);
      CountStep(requests, ds, n);
      LocalStep(recv, before, ds, n, locals);
      hide QueuesHold, CountsHold, LocalHolds, Count, Queued, Touched;
      servers' := servers;
      if d.Local? {
        recv := recv[Local := (if Local in recv then recv[Local] else []) + answer];
      } else {
        var s := d.srv;
        queue := queue[s := (if s in queue then queue[s] else []) + req];
        var count := if s in requests then requests[s] else 0;
        if count == 0 {
          servers' := servers + [s];
        }
        requests := requests[s := count + 1];
      }
    }

    /** Takes the request at `pos` and forwards it. */
    method TakeRequest(batch: Bytes, pos: nat, servers: seq<nat>, localNo: nat, own: (nat, Bytes) -> Bytes,
                       ghost fs: seq<Bytes>, ghost ds: seq<Dest>, ghost n: nat, ghost before: map<Dest, Bytes>)
        returns (d: Dest, servers': seq<nat>, size: nat)
      requires Sound(fs) && ds == Dests(route, fs) && Walked(batch, fs, n, pos) && pos < |batch|
      requires n <= |ds| && Holds(fs, ds, n, OwnAnswers(own, fs, ds), before) && servers == Touched(ds, n)
      requires localNo == Count(ds, n, Local)
      modifies this`queue, this`requests, this`recv
      ensures n < |ds| && d == ds[n] && 0 < size && Walked(batch, fs, n + 1, pos + size)
      ensures Holds(fs, ds, n + 1, OwnAnswers(own, fs, ds), before) && servers' == Touched(ds, n + 1)
      ensures |servers'| <= |servers| + 1 && (d.Local? ==> servers' == servers)
    {
      hide Walked, Proxy.Holds, Sound, FrameSize, IsFrame, DestOf, OwnAnswers, QueuesHold, CountsHold, LocalHolds, Dests;
      WalkHead(batch, fs, n, pos);
      DestAt(route, fs, n);
      OwnAnswerAt(own, fs, ds, n);
      size := FrameSize(batch[pos..]);
      var req := batch[pos..][..size];
      d := DestOf(route, req);
      servers' := Forward(d, req, servers, if d.Local? then own(localNo, req) else [], fs, ds, n, OwnAnswers(own, fs, ds), before);
    }

    /** The walk stands after the requests of `order`, all of them sent and counted. */
    ghost predicate Sending(batch: Bytes, fs: seq<Bytes>, ds: seq<Dest>, own: (nat, Bytes) -> Bytes,
                            order: seq<Dest>, servers: seq<nat>, consumed: nat, localNo: nat, before: map<Dest, Bytes>)
      reads this
    {
      && Sound(fs) && ds == Dests(route, fs)
      && Follows(order, ds) && Walked(batch, fs, |order|, consumed)
      && servers == Touched(ds, |order|) && Holds(fs, ds, |order|, OwnAnswers(own, fs, ds), before) && localNo == Count(ds, |order|, Local)
      && |order| < MAX_QUIET_REQUESTS && |servers| < MAX_BATCH_SERVERS && Counted(ds, 0) == Counted(ds, |order|)
    }

    /** The walk is over. */
    ghost predicate SentAll(batch: Bytes, fs: seq<Bytes>, ds: seq<Dest>, own: (nat, Bytes) -> Bytes,
                            order: seq<Dest>, servers: seq<nat>, consumed: nat, before: map<Dest, Bytes>)
      reads this
    {
      && |order| == Counted(ds, 0) && Follows(order, ds)
      && |ds| == |fs| && servers == Touched(ds, SentOn(ds)) && Holds(fs, ds, SentOn(ds), OwnAnswers(own, fs, ds), before)
      && Walked(batch, fs, |order|, consumed)
    }

    method DemuxStep(batch: Bytes, own: (nat, Bytes) -> Bytes, order: seq<Dest>, servers: seq<nat>, consumed: nat, localNo: nat,
                     ghost fs: seq<Bytes>, ghost ds: seq<Dest>, ghost before: map<Dest, Bytes>)
        returns (stop: bool, order': seq<Dest>, servers': seq<nat>, consumed': nat, localNo': nat)
      requires Sending(batch, fs, ds, own, order, servers, consumed, localNo, before) && consumed < |batch|
      modifies this`queue, this`requests, this`recv
      ensures |order| < |ds|
      ensures !stop ==> Sending(batch, fs, ds, own, order', servers', consumed', localNo', before) && |order'| == |order| + 1
      ensures stop ==> SentAll(batch, fs, ds, own, order', servers', consumed', before)
    {
      hide Walked, Proxy.Holds, Sound, Counted, Touched, Dests, SentOn, Concat;
      ghost var n := |order|;
      var d, size;
      d, servers', size := TakeRequest(batch, consumed, servers, localNo, own, fs, ds, n, before);
      localNo' := if d.Local? then localNo + 1 else localNo;
      order', consumed' := order, consumed;
      if d.Remote? && |servers'| == MAX_BATCH_SERVERS {
        CountedStop(ds, n, n + 1);
        return true, order', servers', consumed', localNo';
      }
      CountedNext(ds, n);
      order' := order + [d];
      consumed' := consumed + size;
      stop := |order'| == MAX_QUIET_REQUESTS;
      if stop {
        CountedStop(ds, n + 1, n + 1);
      }
    }

    /** Sends every request of a batch on its way, until the batch or a table is full. */
    method Demux(batch: Bytes, own: (nat, Bytes) -> Bytes, ghost fs: seq<Bytes>, ghost ds: seq<Dest>, ghost before: map<Dest, Bytes>)
        returns (order: seq<Dest>, servers: seq<nat>, consumed: nat)
      requires Ready() && Sound(fs) && batch == Concat(fs) && ds == Dests(route, fs) && before == recv
      modifies this`queue, this`requests, this`recv
      ensures SentAll(batch, fs, ds, own, order, servers, consumed, before)
    {
      WalkStart(batch, fs);
      order, servers, consumed := [], [], 0;
      var localNo, stop := 0, false;
      assert Holds(fs, ds, 0, OwnAnswers(own, fs, ds), before);
      while !stop && consumed < |batch|
        invariant !stop ==> Sending(batch, fs, ds, own, order, servers, consumed, localNo, before)
        invariant stop ==> SentAll(batch, fs, ds, own, order, servers, consumed, before)
        decreases !stop, |ds| - |order|
      {
        stop, order, servers, consumed, localNo :=
          DemuxStep(batch, own, order, servers, consumed, localNo, fs, ds, before);
      }
      if !stop {
        WalkEnd(batch, fs, |order|, consumed);
        CountedStop(ds, |order|, |order|);
      }
    }

    /** Closes every queue with a no-op and has the event loop exchange the queues for answers. */
    method Talk(servers: seq<nat>, net: nat -> Peer, starts: nat -> Courses.Start,
                schedule: seq<seq<(nat, Courses.Outcome)>>,
                ghost fs: seq<Bytes>, ghost ds: seq<Dest>, ghost n: nat, ghost calm: bool)
        returns (done: bool, ghost ex: map<nat, Exch>)
      requires n <= |ds| == |fs| && QueuesHold(queue, fs, ds, n) && CountsHold(requests, ds, n) && servers == Touched(ds, n)
      requires AllFrames(fs) && (calm ==> CalmNetwork(starts, schedule))
      modifies this`queue, this`requests, this`recv
      ensures done <==> AllEnd(old(recv), net, starts, schedule, BatchFn(fs, ds, n), servers)
      ensures done ==> GotAll(old(recv), net, starts, schedule, BatchFn(fs, ds, n), servers, ex)
      ensures done ==> NothingQueued(queue, requests) && HeardAll(recv, old(recv), net, fs, ds, n, ex, calm)
    {
      UntouchedEmpty(queue, requests, fs, ds, n);
      TouchedNoRepeat(ds, n);
      ghost var queue0, requests0 := queue, requests;
      queue, requests := AppendNoops(queue, requests, servers);
      AllLoaded(queue0, requests0, queue, requests, fs, ds, n);
      ghost var q, m, r := queue, requests, recv;
      ghost var batchOf, streamOf := BatchFn(fs, ds, n), (s: nat) => StreamOf(r, net, s);
      assert forall s: nat :: batchOf(s) == BatchOf(fs, ds, n, s);
      hide QueuesHold, CountsHold, Touched, NoRepeat, Queued, Count, Loaded, StreamOf, BatchOf, BatchFn, AllHeard, Untouched, AllEnd, GotAll;
      done, queue, requests, recv, ex := Converse(servers, queue, requests, recv, net, starts, schedule, batchOf, streamOf, calm);
      if done {
        HeardGathered(queue0, requests0, q, m, r, queue, requests, recv, net, fs, ds, n, ex, calm, batchOf, streamOf);
      }
    }

    /** Drops the last 24 bytes of every touched server's buffer. */
    method CutNoops(servers: seq<nat>)
      requires NoRepeat(servers) && forall s :: s in SetOf(servers) ==> HEADER_SIZE <= |Get(recv, Remote(s))|
      modifies this`recv
      ensures forall d :: Get(recv, d) == Cut24(old(recv), SetOf(servers), d)
    {
      SetBounds(servers);
      ghost var done: set<nat> := {};
      for i := 0 to |servers|
        invariant done == SetOf(servers[..i]) && forall d :: Get(recv, d) == Cut24(old(recv), done, d)
      {
        var s := servers[i];
        SetStep(servers, i);
        assert Get(recv, Remote(s)) == Cut24(old(recv), done, Remote(s)) == Get(old(recv), Remote(s));
        CutStep(old(recv), recv, done, s);
        var have := recv[Remote(s)];
        recv := recv[Remote(s) := have[..|have| - HEADER_SIZE]];
        done := done + {s};
      }
    }

    /** Moves the first answer of one buffer to the client. */
    method PassOn(d: Dest, ghost t: Harvest, ghost i: nat)
      requires i < |t.ds| && t.ds[i] == d && AllFrames(t.src(d))
      requires Count(t.ds, i, d) < |t.src(d)| && Stocked(recv, t, i)
      modifies this`recv, this`out
      ensures Stocked(recv, t, i + 1) && out == old(out) + Reply(t, i)
    {
      StockHead(recv, t, i);
      hide Stocked, IsFrame;
      var have := if d in recv then recv[d] else [];
      var size := FrameSize(have);
      out := out + have[..size];
      recv := recv[d := have[size..]];
    }

    /** Passes the answers on to the client, one per counted request, in request order. */
    method Merge(order: seq<Dest>, ghost t: Harvest)
      requires Follows(order, t.ds) && Enough(t, |order|) && Stocked(recv, t, 0) && AllSupply(t)
      modifies this`recv, this`out
      ensures out == old(out) + Output(t, |order|) && Stocked(recv, t, |order|)
    {
      hide Stocked, AllFrames;
      for i := 0 to |order|
        invariant Stocked(recv, t, i) && out == old(out) + Output(t, i)
      {
        PassOn(order[i], t, i);
      }
    }

    /** Once the servers were heard: one answer for every counted request goes to the client. */
    method Reap(order: seq<Dest>, servers: seq<nat>, ghost own: (nat, Bytes) -> Bytes, ghost net: nat -> Peer,
                ghost fs: seq<Bytes>, ghost ds: seq<Dest>, ghost n: nat, ghost ex: map<nat, Exch>,
                ghost before: map<Dest, Bytes>)
      requires Batched(fs, ds, n) && Follows(order, ds) && |order| <= n && servers == Touched(ds, n) && OwnFrames(own)
      requires Filled(recv, before, net, own, fs, ds, n, ex)
      modifies this`recv, this`out
      ensures out == old(out) + Replies(own, fs, ds, ex, |order|)
      ensures Stocked(recv, HarvestOf(own, fs, ds, n, ex, before), |order|)
    {
      ghost var t := HarvestOf(own, fs, ds, n, ex, before);
      TouchedNoRepeat(ds, n);
      FilledBuffers(recv, before, net, own, fs, ds, n, ex);
      HarvestEnough(before, net, own, fs, ds, n, ex, |order|);
      hide Filled, ToldAll, Stocked, Enough, AllSupply, HarvestOf, Batched, OwnFrames, Touched, Count, NoRepeat, Follows;
      CutNoops(servers);
      HarvestStocked(old(recv), recv, before, net, own, fs, ds, n, ex);
      OrderFits(order, ds, t, own, fs, n, ex, before);
      Merge(order, t);
      RepliesAreOutput(before, net, own, fs, ds, n, ex, |order|);
    }

    /** Once the servers were heard, the replies go out and nothing is queued. */
    method Deliver(order: seq<Dest>, servers: seq<nat>, ghost own: (nat, Bytes) -> Bytes, ghost net: nat -> Peer,
                   ghost starts: nat -> Courses.Start, ghost schedule: seq<seq<(nat, Courses.Outcome)>>,
                   ghost fs: seq<Bytes>, ghost ds: seq<Dest>, ghost ex: map<nat, Exch>,
                   ghost before: map<Dest, Bytes>, ghost held: map<Dest, Bytes>, ghost calm: bool)
      requires Batched(fs, ds, SentOn(ds)) && Follows(order, ds) && |order| == Counted(ds, 0) && servers == Touched(ds, SentOn(ds))
      requires OwnFrames(own) && LocalHolds(held, before, ds, SentOn(ds), OwnAnswers(own, fs, ds))
      requires NothingQueued(queue, requests) && HeardAll(recv, held, net, fs, ds, SentOn(ds), ex, calm)
      requires GotAll(held, net, starts, schedule, BatchFn(fs, ds, SentOn(ds)), servers, ex)
      modifies this`recv, this`out
      ensures Ready() && out == old(out) + Replies(own, fs, ds, ex, Counted(ds, 0))
      ensures Exchanged(before, recv, net, starts, schedule, own, fs, ds, ex, calm)
    {
      ghost var n := SentOn(ds);
      GotAgree(held, before, net, starts, schedule, own, fs, ds, ex);
      FilledFrom(recv, held, before, net, own, fs, ds, n, ex, calm);
      hide Counted, SentOn, Touched, OwnFrames, NothingQueued, Replies, ToldAll, Stocked, HarvestOf, LocalHolds, HeardAll, Filled,
        Follows, OwnAnswers, Batched, GotAll, BatchFn;
      Reap(order, servers, own, net, fs, ds, n, ex, before);
      LocalsSpent(recv, own, fs, ds, ex, before, net);
    }

    /** From the queues to the replies. */
    method Answer(order: seq<Dest>, servers: seq<nat>, ghost own: (nat, Bytes) -> Bytes, net: nat -> Peer,
                  starts: nat -> Courses.Start, schedule: seq<seq<(nat, Courses.Outcome)>>,
                  ghost fs: seq<Bytes>, ghost ds: seq<Dest>, ghost before: map<Dest, Bytes>, ghost calm: bool)
        returns (done: bool, ghost ex: map<nat, Exch>)
      requires Batched(fs, ds, SentOn(ds)) && Follows(order, ds) && |order| == Counted(ds, 0) && servers == Touched(ds, SentOn(ds))
      requires OwnFrames(own) && Holds(fs, ds, SentOn(ds), OwnAnswers(own, fs, ds), before) && (calm ==> CalmNetwork(starts, schedule))
      modifies this`queue, this`requests, this`recv, this`out
      ensures !done ==> out == old(out)
      ensures done <==> AllSentEnd(before, net, starts, schedule, fs, ds)
      ensures done ==> Ready() && out == old(out) + Replies(own, fs, ds, ex, Counted(ds, 0))
      ensures done ==> Exchanged(before, recv, net, starts, schedule, own, fs, ds, ex, calm)
    {
      assert AllFrames(fs);
      hide Counted, SentOn, Touched, OwnFrames, NothingQueued, Get, Replies, CalmNetwork, QueuesHold, CountsHold, LocalHolds, HeardAll,
        Follows, AllFrames, OwnAnswers, AllEnd, GotAll, BatchFn, AllSentEnd, Exchanged;
      ghost var held := recv;
      EndsAgree(held, before, net, starts, schedule, own, fs, ds);
      done, ex := Talk(servers, net, starts, schedule, fs, ds, SentOn(ds), calm);
      if done {
        Deliver(order, servers, own, net, starts, schedule, fs, ds, ex, before, held, calm);
      }
    }

    /**
     * Answers a batch. It is done exactly when every exchange comes to an end under the schedule. The client then gets one
     * reply per counted request, in request order, each what its own destination answered at that request's rank; what a
     * server answered is all the whole frames that its course received before any fault.
     */
    method ProcessMulti(batch: Bytes, own: (nat, Bytes) -> Bytes, net: nat -> Peer, starts: nat -> Courses.Start,
                        schedule: seq<seq<(nat, Courses.Outcome)>>,
                        ghost fs: seq<Bytes>, ghost ds: seq<Dest>, ghost calm: bool)
        returns (done: bool, consumed: nat, ghost ex: map<nat, Exch>)
      requires Ready() && Sound(fs) && batch == Concat(fs) && ds == Dests(route, fs) && OwnFrames(own)
      requires calm ==> CalmNetwork(starts, schedule)
      modifies this
      ensures Walked(batch, fs, Counted(ds, 0), consumed)
      ensures !done ==> out == old(out)
      ensures done <==> AllSentEnd(old(recv), net, starts, schedule, fs, ds)
      ensures done ==> Ready() && out == old(out) + Replies(own, fs, ds, ex, Counted(ds, 0))
      ensures done ==> Exchanged(old(recv), recv, net, starts, schedule, own, fs, ds, ex, calm)
    {
      ghost var before := recv;
      SoundBatch(fs, ds, SentOn(ds));
      hide Sound, Concat, Dests, Walked, Counted, SentOn, Touched, OwnFrames, NothingQueued, Get, Replies, CalmNetwork, QueuesHold,
        CountsHold, LocalHolds, Follows, AllFrames, OwnAnswers, AllSentEnd, Exchanged, Batched;
      var order, servers;
      order, servers, consumed := Demux(batch, own, fs, ds, before);
      done, ex := Answer(order, servers, own, net, starts, schedule, fs, ds, before, calm);
    }
  }

  /** Every exchange of the batch comes to an end under the schedule. */
  ghost predicate AllSentEnd(before: map<Dest, Bytes>, net: nat -> Peer, starts: nat -> Courses.Start,
                             schedule: seq<seq<(nat, Courses.Outcome)>>, fs: seq<Bytes>, ds: seq<Dest>)
    requires |ds| == |fs|
  {
    AllEnd(before, net, starts, schedule, BatchFn(fs, ds, SentOn(ds)), Touched(ds, SentOn(ds)))
  }

  /**
   * What the servers answered is what their courses give, taken from their own streams, and every buffer holds what was
   * not passed on.
   */
  ghost predicate Exchanged(before: map<Dest, Bytes>, recv: map<Dest, Bytes>, net: nat -> Peer, starts: nat -> Courses.Start,
                            schedule: seq<seq<(nat, Courses.Outcome)>>, own: (nat, Bytes) -> Bytes,
                            fs: seq<Bytes>, ds: seq<Dest>, ex: map<nat, Exch>, calm: bool)
    requires |ds| == |fs|
  {
    && GotAll(before, net, starts, schedule, BatchFn(fs, ds, SentOn(ds)), Touched(ds, SentOn(ds)), ex)
    && ToldAll(before, net, fs, ds, SentOn(ds), ex, calm)
    && Stocked(recv, HarvestOf(own, fs, ds, SentOn(ds), ex, before), Counted(ds, 0))
  }

  ghost predicate OwnFrames(own: (nat, Bytes) -> Bytes)
  {
    forall k, f :: IsFrame(own(k, f))
  }

  ghost predicate Batched(fs: seq<Bytes>, ds: seq<Dest>, n: nat)
  {
    n <= |ds| == |fs| && AllFrames(fs)
  }

  lemma SoundBatch(fs: seq<Bytes>, ds: seq<Dest>, n: nat)
    requires Sound(fs) && n <= |ds| == |fs|
    ensures Batched(fs, ds, n)
  {
  }

  // ---- the queues and what the servers say to them ----

  /** What a server is sent: its requests and a no-op. */
  ghost function BatchOf(fs: seq<Bytes>, ds: seq<Dest>, n: nat, s: nat): seq<Bytes>
    requires n <= |ds| == |fs|
  {
    Pick(fs, ds, n, Remote(s)) + [NOOP_REQUEST]
  }

  ghost function BatchFn(fs: seq<Bytes>, ds: seq<Dest>, n: nat): nat -> seq<Bytes>
    requires n <= |ds| == |fs|
  {
    (s: nat) => BatchOf(fs, ds, n, s)
  }

  method AppendNoops(queue: map<nat, Bytes>, requests: map<nat, nat>, servers: seq<nat>)
      returns (q: map<nat, Bytes>, n: map<nat, nat>)
    requires NoRepeat(servers)
    ensures forall s :: Get(q, s) == Get(queue, s) + if s in SetOf(servers) then NOOP_REQUEST else []
    ensures forall s :: Num(n, s) == Num(requests, s) + if s in SetOf(servers) then 1 else 0
  {
    SetBounds(servers);
    q, n := queue, requests;
    ghost var done: set<nat> := {};
    for i := 0 to |servers|
      invariant done == SetOf(servers[..i])
      invariant forall s :: Get(q, s) == Get(queue, s) + if s in done then NOOP_REQUEST else []
      invariant forall s :: Num(n, s) == Num(requests, s) + if s in done then 1 else 0
    {
      var s := servers[i];
      SetStep(servers, i);
      q := q[s := (if s in q then q[s] else []) + NOOP_REQUEST];
      n := n[s := (if s in n then n[s] else 0) + 1];
      done := done + {s};
    }
  }

  lemma UntouchedEmpty(queue: map<nat, Bytes>, requests: map<nat, nat>, fs: seq<Bytes>, ds: seq<Dest>, n: nat)
    requires n <= |ds| == |fs| && QueuesHold(queue, fs, ds, n) && CountsHold(requests, ds, n)
    ensures forall s :: s !in SetOf(Touched(ds, n)) ==> Get(queue, s) == [] && Num(requests, s) == 0
    ensures Touched(ds, n) == [] ==> SetOf(Touched(ds, n)) == {}
  {
    forall s | s !in SetOf(Touched(ds, n))
      ensures Get(queue, s) == [] && Num(requests, s) == 0
    {
      TouchedIffCounted(ds, n, s);
      QueuedIsPick(fs, ds, n, Remote(s));
      assert Pick(fs, ds, n, Remote(s)) == [];
    }
  }

  lemma {:induction false} PickFrames(fs: seq<Bytes>, ds: seq<Dest>, n: nat, d: Dest)
    requires n <= |ds| == |fs| && AllFrames(fs)
    ensures AllFrames(Pick(fs, ds, n, d))
  {
    hide IsFrame;
    if n > 0 { PickFrames(fs, ds, n - 1, d); }
  }

  lemma BatchFrames(fs: seq<Bytes>, ds: seq<Dest>, n: nat, s: nat)
    requires n <= |ds| == |fs| && AllFrames(fs)
    ensures AllFrames(BatchOf(fs, ds, n, s)) && |BatchOf(fs, ds, n, s)| == Count(ds, n, Remote(s)) + 1
    ensures Concat(BatchOf(fs, ds, n, s)) == Queued(fs, ds, n, Remote(s)) + NOOP_REQUEST
  {
    PickFrames(fs, ds, n, Remote(s));
    QueuedIsPick(fs, ds, n, Remote(s));
    ConcatSnoc(Pick(fs, ds, n, Remote(s)), NOOP_REQUEST);
    assert IsFrame(NOOP_REQUEST);
  }

  /** With the no-ops added, every touched server's queue is its batch. */
  lemma AllLoaded(queue0: map<nat, Bytes>, requests0: map<nat, nat>, queue: map<nat, Bytes>, requests: map<nat, nat>,
                  fs: seq<Bytes>, ds: seq<Dest>, n: nat)
    requires n <= |ds| == |fs| && AllFrames(fs) && QueuesHold(queue0, fs, ds, n) && CountsHold(requests0, ds, n)
    requires forall s :: Get(queue, s) == Get(queue0, s) + if s in SetOf(Touched(ds, n)) then NOOP_REQUEST else []
    requires forall s :: Num(requests, s) == Num(requests0, s) + if s in SetOf(Touched(ds, n)) then 1 else 0
    ensures forall i :: 0 <= i < |Touched(ds, n)| ==>
      Loaded(queue, requests, Touched(ds, n)[i], BatchOf(fs, ds, n, Touched(ds, n)[i]))
  {
    forall i | 0 <= i < |Touched(ds, n)|
      ensures Loaded(queue, requests, Touched(ds, n)[i], BatchOf(fs, ds, n, Touched(ds, n)[i]))
    {
      var s := Touched(ds, n)[i];
      assert s in SetOf(Touched(ds, n));
      BatchFrames(fs, ds, n, s);
    }
  }

  /** Every touched server has told its answers; the other buffers are as they were. */
  ghost predicate HeardAll(recv: map<Dest, Bytes>, before: map<Dest, Bytes>, net: nat -> Peer,
                           fs: seq<Bytes>, ds: seq<Dest>, n: nat, ex: map<nat, Exch>, calm: bool)
    requires n <= |ds| == |fs|
  {
    && ex.Keys == SetOf(Touched(ds, n)) && Get(recv, Local) == Get(before, Local)
    && (forall s :: s in ex ==>
         && Told(BatchOf(fs, ds, n, s), StreamOf(before, net, s), ex[s], calm)
         && Get(recv, Remote(s)) == Buffer(BatchOf(fs, ds, n, s), ex[s]))
    && (forall s :: s !in ex ==> Get(recv, Remote(s)) == Get(before, Remote(s)))
  }

  lemma HeardGathered(queue0: map<nat, Bytes>, requests0: map<nat, nat>, queue: map<nat, Bytes>, requests: map<nat, nat>,
                      recv: map<Dest, Bytes>, queue': map<nat, Bytes>, requests': map<nat, nat>, recv': map<Dest, Bytes>,
                      net: nat -> Peer, fs: seq<Bytes>, ds: seq<Dest>, n: nat, ex: map<nat, Exch>, calm: bool,
                      batchOf: nat -> seq<Bytes>, streamOf: nat -> Bytes)
    requires n <= |ds| == |fs|
    requires forall s: nat :: batchOf(s) == BatchOf(fs, ds, n, s) && streamOf(s) == StreamOf(recv, net, s)
    requires forall s :: s !in SetOf(Touched(ds, n)) ==> Get(queue0, s) == [] && Num(requests0, s) == 0
    requires forall s :: Get(queue, s) == Get(queue0, s) + if s in SetOf(Touched(ds, n)) then NOOP_REQUEST else []
    requires forall s :: Num(requests, s) == Num(requests0, s) + if s in SetOf(Touched(ds, n)) then 1 else 0
    requires AllHeard(queue', requests', recv', ex, SetOf(Touched(ds, n)), batchOf, streamOf, calm)
    requires Untouched(queue, requests, recv, queue', requests', recv', SetOf(Touched(ds, n)))
    ensures NothingQueued(queue', requests') && HeardAll(recv', recv, net, fs, ds, n, ex, calm)
  {
    hide Buffer, Touched, SetOf, BatchOf, StreamOf, Courses.Answers, AllFrames, SaneSize, Concat;
    var all := SetOf(Touched(ds, n));
    forall s
      ensures Get(queue', s) == [] && Num(requests', s) == 0
    {
      if s in all {
        assert Heard(queue', requests', recv', ex, s, batchOf(s), streamOf(s), calm);
      }
    }
    forall s | s in ex
      ensures Told(BatchOf(fs, ds, n, s), StreamOf(recv, net, s), ex[s], calm)
      ensures Get(recv', Remote(s)) == Buffer(BatchOf(fs, ds, n, s), ex[s])
    {
      assert Heard(queue', requests', recv', ex, s, batchOf(s), streamOf(s), calm);
    }
  }

  // ---- replies ----

  /** The reply to request `i`: what its own destination answered at its rank. */
  ghost function AnswerTo(own: (nat, Bytes) -> Bytes, fs: seq<Bytes>, ds: seq<Dest>, ex: map<nat, Exch>, i: nat): Bytes
    requires i < |ds| == |fs|
  {
    var rank := Count(ds, i, ds[i]);
    match ds[i]
    case Local => own(rank, fs[i])
    case Remote(s) => if s in ex && rank < |ex[s].got| then ex[s].got[rank] else Backend.ErrorFor(fs[i])
  }

  /** The replies to the first `n` requests, in request order. */
  ghost function Replies(own: (nat, Bytes) -> Bytes, fs: seq<Bytes>, ds: seq<Dest>, ex: map<nat, Exch>, n: nat): Bytes
    requires n <= |ds| == |fs|
  {
    if n == 0 then [] else Replies(own, fs, ds, ex, n - 1) + AnswerTo(own, fs, ds, ex, n - 1)
  }

  /** Every touched server's answers are the first frames of what was in its buffer and what it sends. */
  ghost predicate ToldAll(before: map<Dest, Bytes>, net: nat -> Peer, fs: seq<Bytes>, ds: seq<Dest>, n: nat,
                          ex: map<nat, Exch>, calm: bool)
    requires n <= |ds| == |fs|
  {
    && ex.Keys == SetOf(Touched(ds, n))
    && forall s :: s in ex ==> Told(BatchOf(fs, ds, n, s), StreamOf(before, net, s), ex[s], calm)
  }

  /**
   * A request of rank `r` at its server gets the `r`-th of the whole answers received by reads that did not fail, and an
   * error exactly when there are not so many.
   */
  lemma ReplyIs(recv: map<Dest, Bytes>, net: nat -> Peer, starts: nat -> Courses.Start, schedule: seq<seq<(nat, Courses.Outcome)>>,
                own: (nat, Bytes) -> Bytes, fs: seq<Bytes>, ds: seq<Dest>, n: nat, ex: map<nat, Exch>, i: nat, k: nat)
    requires n <= |ds| == |fs| && i < n && k < |Touched(ds, n)| && ds[i] == Remote(Touched(ds, n)[k])
    requires GotAll(recv, net, starts, schedule, BatchFn(fs, ds, n), Touched(ds, n), ex)
    ensures var s, r := Touched(ds, n)[k], Count(ds, i, ds[i]);
      var j, end := JobOf(recv, net, BatchFn(fs, ds, n), s), EndOf(recv, net, starts, schedule, BatchFn(fs, ds, n), s, k);
      var whole := Courses.Whole(Courses.Seen(j, end.ok), |j.batch|);
      AnswerTo(own, fs, ds, ex, i) == if r < |whole| then whole[r] else Backend.ErrorFor(fs[i])
  {
    hide EndOf, JobOf, Courses.Whole, Courses.Seen, Touched, Count, BatchFn;
  }

  /** What each place has to pass on, and what stays in its buffer after that. */
  datatype Harvest = Harvest(ds: seq<Dest>, src: Dest -> seq<Bytes>, rest: Dest -> Bytes)

  ghost function HarvestOf(own: (nat, Bytes) -> Bytes, fs: seq<Bytes>, ds: seq<Dest>, n: nat, ex: map<nat, Exch>,
                           before: map<Dest, Bytes>): Harvest
    requires n <= |ds| == |fs|
  {
    Harvest(ds, d => SourceOf(own, fs, ds, n, ex, d), d => LeftOf(fs, ds, n, ex, before, d))
  }

  ghost function SourceOf(own: (nat, Bytes) -> Bytes, fs: seq<Bytes>, ds: seq<Dest>, n: nat, ex: map<nat, Exch>, d: Dest): seq<Bytes>
    requires n <= |ds| == |fs|
  {
    match d
    case Local =>
      var locals := OwnAnswers(own, fs, ds);
      if Count(ds, n, Local) <= |locals| then locals[..Count(ds, n, Local)] else []
    case Remote(s) =>
      if s in ex && |ex[s].got| <= |BatchOf(fs, ds, n, s)| then ButLast(AnswersOf(BatchOf(fs, ds, n, s), ex[s])) else []
  }

  ghost function LeftOf(fs: seq<Bytes>, ds: seq<Dest>, n: nat, ex: map<nat, Exch>, before: map<Dest, Bytes>, d: Dest): Bytes
    requires n <= |ds| == |fs|
  {
    match d
    case Local => []
    case Remote(s) => if s in ex then RestOf(BatchOf(fs, ds, n, s), ex[s]) else Get(before, d)
  }

  ghost predicate Enough(t: Harvest, n: nat)
    requires n <= |t.ds|
  {
    forall i :: 0 <= i < n ==> Count(t.ds, i, t.ds[i]) < |t.src(t.ds[i])|
  }

  ghost predicate AllSupply(t: Harvest)
  {
    forall d :: AllFrames(t.src(d))
  }

  /** The answer passed on for request `i`. */
  ghost function Reply(t: Harvest, i: nat): Bytes
    requires i < |t.ds|
  {
    var d := t.ds[i];
    if Count(t.ds, i, d) < |t.src(d)| then t.src(d)[Count(t.ds, i, d)] else []
  }

  ghost function Output(t: Harvest, n: nat): Bytes
    requires n <= |t.ds|
  {
    if n == 0 then [] else Output(t, n - 1) + Reply(t, n - 1)
  }

  // ---- merging ----

  /** Every buffer holds the answers not yet passed on after `n` requests, and what stays. */
  ghost predicate Stocked(recv: map<Dest, Bytes>, t: Harvest, n: nat)
    requires n <= |t.ds|
  {
    forall d :: Unspent(recv, t, n, d)
  }

  ghost predicate Unspent(recv: map<Dest, Bytes>, t: Harvest, n: nat, d: Dest)
    requires n <= |t.ds|
  {
    Count(t.ds, n, d) <= |t.src(d)| && Get(recv, d) == Tail(t.src(d), Count(t.ds, n, d)) + t.rest(d)
  }

  lemma UnspentOther(recv: map<Dest, Bytes>, t: Harvest, i: nat, rest: Bytes, d: Dest)
    requires i < |t.ds| && d != t.ds[i] && Unspent(recv, t, i, d)
    ensures Unspent(recv[t.ds[i] := rest], t, i + 1, d)
  {
    assert Count(t.ds, i + 1, d) == Count(t.ds, i, d);
  }

  /** The buffer of request `i` is its answer and the rest; without the answer it is unspent after `i + 1` requests. */
  lemma UnspentHead(recv: map<Dest, Bytes>, t: Harvest, i: nat) returns (rest: Bytes)
    requires i < |t.ds| && Count(t.ds, i, t.ds[i]) < |t.src(t.ds[i])| && Unspent(recv, t, i, t.ds[i])
    ensures Get(recv, t.ds[i]) == Reply(t, i) + rest && Unspent(recv[t.ds[i] := rest], t, i + 1, t.ds[i])
  {
    var d := t.ds[i];
    var src, c := t.src(d), Count(t.ds, i, d);
    rest := Tail(src, c + 1) + t.rest(d);
    assert Tail(src, c) == src[c] + Tail(src, c + 1);
    assert src[c] + Tail(src, c + 1) + t.rest(d) == src[c] + rest;
  }

  /** The buffer of request `i` starts with its answer; taking it leaves the others alone. */
  lemma StockHead(recv: map<Dest, Bytes>, t: Harvest, i: nat)
    requires i < |t.ds| && Count(t.ds, i, t.ds[i]) < |t.src(t.ds[i])| && AllFrames(t.src(t.ds[i]))
    requires Stocked(recv, t, i)
    ensures var have, f := Get(recv, t.ds[i]), Reply(t, i);
      && HEADER_SIZE <= |have| && FrameSize(have) == |f| <= |have| && have[..|f|] == f
      && Stocked(recv[t.ds[i] := have[|f|..]], t, i + 1)
  {
    assert IsFrame(Reply(t, i));
    hide IsFrame, FrameSize, AllFrames, Count, Unspent, Reply, Get;
    var rest := UnspentHead(recv, t, i);
    HeadFrame(Reply(t, i), rest);
    var left, n := recv[t.ds[i] := rest], i + 1;
    forall d
      ensures Unspent(left, t, n, d)
    {
      if d != t.ds[i] { UnspentOther(recv, t, i, rest, d); }
    }
  }

  lemma CutStep(recv: map<Dest, Bytes>, cut: map<Dest, Bytes>, done: set<nat>, s: nat)
    requires s !in done && HEADER_SIZE <= |Get(recv, Remote(s))| && forall d :: Get(cut, d) == Cut24(recv, done, d)
    ensures var have := Get(cut, Remote(s));
      && Remote(s) in cut && HEADER_SIZE <= |have|
      && forall d :: Get(cut[Remote(s) := have[..|have| - HEADER_SIZE]], d) == Cut24(recv, done + {s}, d)
  {
    assert Get(cut, Remote(s)) == Cut24(recv, done, Remote(s));
    var have := Get(cut, Remote(s));
    forall d
      ensures Get(cut[Remote(s) := have[..|have| - HEADER_SIZE]], d) == Cut24(recv, done + {s}, d)
    {
      assert Get(cut, d) == Cut24(recv, done, d);
    }
  }

  /** A buffer with 24 bytes cut off its end, for the servers in `done`. */
  ghost function Cut24(recv: map<Dest, Bytes>, done: set<nat>, d: Dest): Bytes
  {
    var have := Get(recv, d);
    if d.Remote? && d.srv in done && HEADER_SIZE <= |have| then have[..|have| - HEADER_SIZE] else have
  }

  lemma {:induction false} JoinedIsConcat(fs: seq<Bytes>, n: nat)
    requires n <= |fs|
    ensures Joined(fs, n) == Concat(fs[..n])
  {
    if n > 0 {
      JoinedIsConcat(fs, n - 1);
      assert fs[..n] == fs[..n - 1] + [fs[n - 1]];
      ConcatSnoc(fs[..n - 1], fs[n - 1]);
    }
  }


  /** The buffers as the exchange leaves them. */
  ghost predicate Filled(recv: map<Dest, Bytes>, before: map<Dest, Bytes>, net: nat -> Peer, own: (nat, Bytes) -> Bytes,
                         fs: seq<Bytes>, ds: seq<Dest>, n: nat, ex: map<nat, Exch>)
    requires n <= |ds| == |fs|
  {
    && ToldAll(before, net, fs, ds, n, ex, false)
    && Count(ds, n, Local) <= |OwnAnswers(own, fs, ds)|
    && Get(recv, Local) == Joined(OwnAnswers(own, fs, ds), Count(ds, n, Local))
    && (forall s :: s in ex ==> Get(recv, Remote(s)) == Buffer(BatchOf(fs, ds, n, s), ex[s]))
    && (forall s :: s !in ex ==> Get(recv, Remote(s)) == Get(before, Remote(s)))
  }

  lemma FilledFrom(recv: map<Dest, Bytes>, held: map<Dest, Bytes>, before: map<Dest, Bytes>, net: nat -> Peer,
                   own: (nat, Bytes) -> Bytes, fs: seq<Bytes>, ds: seq<Dest>, n: nat, ex: map<nat, Exch>, calm: bool)
    requires n <= |ds| == |fs| && LocalHolds(held, before, ds, n, OwnAnswers(own, fs, ds))
    requires HeardAll(recv, held, net, fs, ds, n, ex, calm)
    ensures Filled(recv, before, net, own, fs, ds, n, ex) && ToldAll(before, net, fs, ds, n, ex, calm)
  {
    hide Buffer, BatchOf, OwnAnswers, Touched, SetOf;
    forall s | s in ex
      ensures Told(BatchOf(fs, ds, n, s), StreamOf(before, net, s), ex[s], calm)
    {
      assert Get(held, Remote(s)) == Get(before, Remote(s));
    }
  }

  lemma EndSame(recv: map<Dest, Bytes>, recv': map<Dest, Bytes>, net: nat -> Peer, starts: nat -> Courses.Start,
                schedule: seq<seq<(nat, Courses.Outcome)>>, batchOf: nat -> seq<Bytes>, s: nat, i: nat)
    requires Get(recv, Remote(s)) == Get(recv', Remote(s))
    ensures EndOf(recv, net, starts, schedule, batchOf, s, i) == EndOf(recv', net, starts, schedule, batchOf, s, i)
    ensures JobOf(recv, net, batchOf, s) == JobOf(recv', net, batchOf, s)
  {
  }

  /** The proxy's own answers do not matter to the exchanges. */
  lemma EndsAgree(held: map<Dest, Bytes>, before: map<Dest, Bytes>, net: nat -> Peer, starts: nat -> Courses.Start,
                  schedule: seq<seq<(nat, Courses.Outcome)>>, own: (nat, Bytes) -> Bytes, fs: seq<Bytes>, ds: seq<Dest>)
    requires |ds| == |fs| && LocalHolds(held, before, ds, SentOn(ds), OwnAnswers(own, fs, ds))
    ensures AllSentEnd(before, net, starts, schedule, fs, ds) <==>
      AllEnd(held, net, starts, schedule, BatchFn(fs, ds, SentOn(ds)), Touched(ds, SentOn(ds)))
  {
    var b, servers := BatchFn(fs, ds, SentOn(ds)), Touched(ds, SentOn(ds));
    forall i | 0 <= i < |servers|
      ensures EndOf(held, net, starts, schedule, b, servers[i], i) == EndOf(before, net, starts, schedule, b, servers[i], i)
    {
      EndSame(held, before, net, starts, schedule, b, servers[i], i);
    }
    hide EndOf, BatchFn, OwnAnswers, Touched, SentOn;
  }

  lemma GotAgree(held: map<Dest, Bytes>, before: map<Dest, Bytes>, net: nat -> Peer, starts: nat -> Courses.Start,
                 schedule: seq<seq<(nat, Courses.Outcome)>>, own: (nat, Bytes) -> Bytes, fs: seq<Bytes>, ds: seq<Dest>,
                 ex: map<nat, Exch>)
    requires |ds| == |fs| && LocalHolds(held, before, ds, SentOn(ds), OwnAnswers(own, fs, ds))
    requires GotAll(held, net, starts, schedule, BatchFn(fs, ds, SentOn(ds)), Touched(ds, SentOn(ds)), ex)
    ensures GotAll(before, net, starts, schedule, BatchFn(fs, ds, SentOn(ds)), Touched(ds, SentOn(ds)), ex)
  {
    var b, servers := BatchFn(fs, ds, SentOn(ds)), Touched(ds, SentOn(ds));
    forall i | 0 <= i < |servers|
      ensures EndOf(held, net, starts, schedule, b, servers[i], i) == EndOf(before, net, starts, schedule, b, servers[i], i)
      ensures JobOf(held, net, b, servers[i]) == JobOf(before, net, b, servers[i])
    {
      EndSame(held, before, net, starts, schedule, b, servers[i], i);
    }
    hide EndOf, JobOf, ExchOf, BatchFn, OwnAnswers, Touched, SentOn;
  }

  lemma OwnAreFrames(own: (nat, Bytes) -> Bytes, fs: seq<Bytes>, ds: seq<Dest>)
    requires |ds| == |fs| && OwnFrames(own)
    ensures AllFrames(OwnAnswers(own, fs, ds))
  {
    hide IsFrame;
    forall k | 0 <= k < |OwnAnswers(own, fs, ds)|
      ensures IsFrame(OwnAnswers(own, fs, ds)[k])
    {
      assert OwnAnswers(own, fs, ds)[k] == own(k, Pick(fs, ds, |ds|, Local)[k]);
    }
  }

  /** A touched server has one answer to pass on for each of its requests, the others none. */
  lemma SourceSize(before: map<Dest, Bytes>, net: nat -> Peer, own: (nat, Bytes) -> Bytes,
                   fs: seq<Bytes>, ds: seq<Dest>, n: nat, ex: map<nat, Exch>, d: Dest)
    requires Batched(fs, ds, n) && OwnFrames(own) && ToldAll(before, net, fs, ds, n, ex, false)
    ensures var r := SourceOf(own, fs, ds, n, ex, d); |r| == Count(ds, n, d) && AllFrames(r)
  {
    match d
    case Local =>
      CountGrows(ds, n, |ds|, Local);
      OwnAreFrames(own, fs, ds);
    case Remote(s) =>
      TouchedIffCounted(ds, n, s);
      BatchFrames(fs, ds, n, s);
      if s in ex {
        AnswersAre(BatchOf(fs, ds, n, s), StreamOf(before, net, s), ex[s]);
      }
  }

  lemma FilledBuffers(recv: map<Dest, Bytes>, before: map<Dest, Bytes>, net: nat -> Peer, own: (nat, Bytes) -> Bytes,
                      fs: seq<Bytes>, ds: seq<Dest>, n: nat, ex: map<nat, Exch>)
    requires Batched(fs, ds, n) && Filled(recv, before, net, own, fs, ds, n, ex)
    ensures forall s :: s in SetOf(Touched(ds, n)) ==> HEADER_SIZE <= |Get(recv, Remote(s))|
  {
    forall s | s in SetOf(Touched(ds, n))
      ensures HEADER_SIZE <= |Get(recv, Remote(s))|
    {
      BatchFrames(fs, ds, n, s);
      CutNoop(BatchOf(fs, ds, n, s), StreamOf(before, net, s), ex[s]);
    }
  }

  lemma HarvestStocked(recv: map<Dest, Bytes>, cut: map<Dest, Bytes>, before: map<Dest, Bytes>, net: nat -> Peer,
                       own: (nat, Bytes) -> Bytes, fs: seq<Bytes>, ds: seq<Dest>, n: nat, ex: map<nat, Exch>)
    requires Batched(fs, ds, n) && Filled(recv, before, net, own, fs, ds, n, ex)
    requires forall d :: Get(cut, d) == Cut24(recv, SetOf(Touched(ds, n)), d)
    ensures Stocked(cut, HarvestOf(own, fs, ds, n, ex, before), 0)
  {
    var t := HarvestOf(own, fs, ds, n, ex, before);
    forall d
      ensures Unspent(cut, t, 0, d)
    {
      CutAt(recv, cut, before, net, own, fs, ds, n, ex, d);
      TailIsConcat(t.src(d), 0);
      assert t.src(d)[0..] == t.src(d);
    }
  }

  /** After the cut a buffer holds the answers to pass on and what stays. */
  lemma CutAt(recv: map<Dest, Bytes>, cut: map<Dest, Bytes>, before: map<Dest, Bytes>, net: nat -> Peer,
              own: (nat, Bytes) -> Bytes, fs: seq<Bytes>, ds: seq<Dest>, n: nat, ex: map<nat, Exch>, d: Dest)
    requires Batched(fs, ds, n) && Filled(recv, before, net, own, fs, ds, n, ex)
    requires Get(cut, d) == Cut24(recv, SetOf(Touched(ds, n)), d)
    ensures Get(cut, d) == Concat(SourceOf(own, fs, ds, n, ex, d)) + LeftOf(fs, ds, n, ex, before, d)
  {
    hide Concat, OwnAnswers, Cut24, BatchOf, Touched, Buffer, AnswersOf, RestOf, Told, Joined, ButLast, SetOf, AllFrames;
    match d
    case Local =>
      LocalUncut(recv, SetOf(Touched(ds, n)));
      CutLocal(own, fs, ds, n);
    case Remote(s) =>
      if s in ex {
        CutHeard(recv, before, net, fs, ds, n, ex, s);
      } else {
        RemoteUncut(recv, SetOf(Touched(ds, n)), s);
        assert [] + Get(before, d) == Get(before, d);
        assert Concat([]) == [] by { ConcatNone(); }
      }
  }

  lemma LocalUncut(recv: map<Dest, Bytes>, done: set<nat>)
    ensures Cut24(recv, done, Local) == Get(recv, Local)
  {
  }

  lemma RemoteUncut(recv: map<Dest, Bytes>, done: set<nat>, s: nat)
    requires s !in done
    ensures Cut24(recv, done, Remote(s)) == Get(recv, Remote(s))
  {
  }

  lemma ConcatNone()
    ensures Concat([]) == []
  {
  }

  lemma CutLocal(own: (nat, Bytes) -> Bytes, fs: seq<Bytes>, ds: seq<Dest>, n: nat)
    requires n <= |ds| == |fs| && Count(ds, n, Local) <= |OwnAnswers(own, fs, ds)|
    ensures var c := Count(ds, n, Local);
      Joined(OwnAnswers(own, fs, ds), c) == Concat(OwnAnswers(own, fs, ds)[..c]) + []
  {
    hide OwnAnswers;
    JoinedIsConcat(OwnAnswers(own, fs, ds), Count(ds, n, Local));
  }

  lemma CutHeard(recv: map<Dest, Bytes>, before: map<Dest, Bytes>, net: nat -> Peer,
                 fs: seq<Bytes>, ds: seq<Dest>, n: nat, ex: map<nat, Exch>, s: nat)
    requires Batched(fs, ds, n) && s in ex && s in SetOf(Touched(ds, n))
    requires Told(BatchOf(fs, ds, n, s), StreamOf(before, net, s), ex[s], false)
    requires Get(recv, Remote(s)) == Buffer(BatchOf(fs, ds, n, s), ex[s])
    ensures |ex[s].got| <= |BatchOf(fs, ds, n, s)|
    ensures Cut24(recv, SetOf(Touched(ds, n)), Remote(s))
         == Concat(ButLast(AnswersOf(BatchOf(fs, ds, n, s), ex[s]))) + RestOf(BatchOf(fs, ds, n, s), ex[s])
  {
    BatchFrames(fs, ds, n, s);
    CutNoop(BatchOf(fs, ds, n, s), StreamOf(before, net, s), ex[s]);
  }

  lemma HarvestEnough(before: map<Dest, Bytes>, net: nat -> Peer, own: (nat, Bytes) -> Bytes,
                      fs: seq<Bytes>, ds: seq<Dest>, n: nat, ex: map<nat, Exch>, k: nat)
    requires Batched(fs, ds, n) && OwnFrames(own) && ToldAll(before, net, fs, ds, n, ex, false) && k <= n
    ensures var t := HarvestOf(own, fs, ds, n, ex, before); Enough(t, k) && AllSupply(t)
  {
    var t := HarvestOf(own, fs, ds, n, ex, before);
    hide SourceOf, LeftOf, ToldAll, Batched, OwnFrames;
    forall i | 0 <= i < k
      ensures Count(ds, i, ds[i]) < |t.src(ds[i])|
    {
      CountGrows(ds, i, n, ds[i]);
      SourceSize(before, net, own, fs, ds, n, ex, ds[i]);
    }
    forall d
      ensures AllFrames(t.src(d))
    {
      SourceSize(before, net, own, fs, ds, n, ex, d);
    }
  }

  lemma OrderFits(order: seq<Dest>, ds: seq<Dest>, t: Harvest, own: (nat, Bytes) -> Bytes, fs: seq<Bytes>, n: nat,
                  ex: map<nat, Exch>, before: map<Dest, Bytes>)
    requires n <= |ds| == |fs| && t == HarvestOf(own, fs, ds, n, ex, before)
    ensures t.ds == ds
  {
  }

  /** The answer passed on for a request is its own destination's, at its rank. */
  lemma ReplyMatchesRequest(before: map<Dest, Bytes>, net: nat -> Peer, own: (nat, Bytes) -> Bytes,
                            fs: seq<Bytes>, ds: seq<Dest>, n: nat, ex: map<nat, Exch>, i: nat)
    requires Batched(fs, ds, n) && OwnFrames(own) && ToldAll(before, net, fs, ds, n, ex, false) && i < n
    ensures Reply(HarvestOf(own, fs, ds, n, ex, before), i) == AnswerTo(own, fs, ds, ex, i)
  {
    var d := ds[i];
    CountGrows(ds, i, n, d);
    SourceSize(before, net, own, fs, ds, n, ex, d);
    PickAtRank(fs, ds, n, i);
    match d
    case Local =>
      OwnAnswerAt(own, fs, ds, i);
    case Remote(s) =>
      TouchedIffCounted(ds, n, s);
      var batch := BatchOf(fs, ds, n, s);
      AnswersAre(batch, StreamOf(before, net, s), ex[s]);
      assert batch[Count(ds, i, d)] == fs[i];
  }

  lemma {:induction false} RepliesAreOutput(before: map<Dest, Bytes>, net: nat -> Peer, own: (nat, Bytes) -> Bytes,
                                            fs: seq<Bytes>, ds: seq<Dest>, n: nat, ex: map<nat, Exch>, k: nat)
    requires Batched(fs, ds, n) && OwnFrames(own) && ToldAll(before, net, fs, ds, n, ex, false) && k <= n
    ensures Output(HarvestOf(own, fs, ds, n, ex, before), k) == Replies(own, fs, ds, ex, k)
  {
    hide Batched, OwnFrames, ToldAll, AnswerTo, Reply;
    if k > 0 {
      RepliesAreOutput(before, net, own, fs, ds, n, ex, k - 1);
      ReplyMatchesRequest(before, net, own, fs, ds, n, ex, k - 1);
    }
  }

  /** The one request that is sent but not counted is not for the proxy. */
  lemma LocalsCounted(ds: seq<Dest>)
    ensures Count(ds, Counted(ds, 0), Local) == Count(ds, SentOn(ds), Local)
  {
    if TooManyServers(ds) { EighthIsNew(ds); }
  }

  /** The proxy's own answers are all passed on. */
  lemma LocalsSpent(recv: map<Dest, Bytes>, own: (nat, Bytes) -> Bytes, fs: seq<Bytes>, ds: seq<Dest>, ex: map<nat, Exch>,
                    before: map<Dest, Bytes>, net: nat -> Peer)
    requires Batched(fs, ds, SentOn(ds)) && OwnFrames(own) && ToldAll(before, net, fs, ds, SentOn(ds), ex, false)
    requires Stocked(recv, HarvestOf(own, fs, ds, SentOn(ds), ex, before), Counted(ds, 0))
    ensures Get(recv, Local) == []
  {
    var n := SentOn(ds);
    var t := HarvestOf(own, fs, ds, n, ex, before);
    SourceSize(before, net, own, fs, ds, n, ex, Local);
    LocalsCounted(ds);
    hide SourceOf, ToldAll, Batched, OwnFrames, Counted, SentOn, Count, TooManyServers;
    assert Unspent(recv, t, Counted(ds, 0), Local);
    assert Tail(t.src(Local), |t.src(Local)|) + [] == [];
  }
}
