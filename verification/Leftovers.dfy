/** What a batch leaves in the buffers, and what that does to the next one. */
module Leftovers {
  import opened Keys
  import opened Frames
  import opened Batch
  import opened Exchange
  import opened Pipeline

  ghost predicate NothingHeld(recv: map<Dest, Bytes>)
  {
    forall d :: Get(recv, d) == []
  }

  /** Every touched server's stream ends with the bare header that answers its no-op. */
  ghost predicate AllTidy(before: map<Dest, Bytes>, net: nat -> Peer, fs: seq<Bytes>, ds: seq<Dest>, n: nat)
    requires n <= |ds| == |fs|
  {
    forall s :: s in Touched(ds, n) ==> Tidy(StreamOf(before, net, s), |BatchOf(fs, ds, n, s)|)
  }

  lemma NoRest(before: map<Dest, Bytes>, net: nat -> Peer, fs: seq<Bytes>, ds: seq<Dest>, n: nat, ex: map<nat, Exch>, d: Dest)
    requires Batched(fs, ds, n) && ToldAll(before, net, fs, ds, n, ex, false) && AllTidy(before, net, fs, ds, n)
    requires Get(before, d) == []
    ensures LeftOf(fs, ds, n, ex, before, d) == []
  {
    if d.Remote? && d.srv in ex {
      var s := d.srv;
      assert s in Touched(ds, n);
      TidyRest(BatchOf(fs, ds, n, s), StreamOf(before, net, s), ex[s]);
    }
  }

  /** What a buffer holds after the counted requests. */
  lemma LeftAt(recv: map<Dest, Bytes>, before: map<Dest, Bytes>, net: nat -> Peer, own: (nat, Bytes) -> Bytes,
               fs: seq<Bytes>, ds: seq<Dest>, ex: map<nat, Exch>, d: Dest)
    requires Batched(fs, ds, SentOn(ds)) && OwnFrames(own) && ToldAll(before, net, fs, ds, SentOn(ds), ex, false)
    requires AllTidy(before, net, fs, ds, SentOn(ds)) && Get(before, d) == []
    requires Stocked(recv, HarvestOf(own, fs, ds, SentOn(ds), ex, before), Counted(ds, 0))
    ensures Count(ds, Counted(ds, 0), d) <= |SourceOf(own, fs, ds, SentOn(ds), ex, d)| == Count(ds, SentOn(ds), d)
    ensures Get(recv, d) == Tail(SourceOf(own, fs, ds, SentOn(ds), ex, d), Count(ds, Counted(ds, 0), d))
  {
    var t, n := HarvestOf(own, fs, ds, SentOn(ds), ex, before), Counted(ds, 0);
    assert Unspent(recv, t, n, d);
    NoRest(before, net, fs, ds, SentOn(ds), ex, d);
    SourceSize(before, net, own, fs, ds, SentOn(ds), ex, d);
    hide SourceOf, LeftOf, ToldAll, AllTidy, Batched, OwnFrames, Counted, SentOn, Count;
    assert Tail(t.src(d), Count(ds, n, d)) + [] == Tail(t.src(d), Count(ds, n, d));
  }

  /** From empty buffers and tidy servers: all buffers end empty exactly when the batch touches no eighth server. */
  lemma NothingLeftIff(recv: map<Dest, Bytes>, before: map<Dest, Bytes>, net: nat -> Peer, own: (nat, Bytes) -> Bytes,
                       fs: seq<Bytes>, ds: seq<Dest>, ex: map<nat, Exch>)
    requires Batched(fs, ds, SentOn(ds)) && OwnFrames(own) && ToldAll(before, net, fs, ds, SentOn(ds), ex, false)
    requires AllTidy(before, net, fs, ds, SentOn(ds)) && NothingHeld(before)
    requires Stocked(recv, HarvestOf(own, fs, ds, SentOn(ds), ex, before), Counted(ds, 0))
    ensures NothingHeld(recv) <==> |Touched(ds, Min(|ds|, MAX_QUIET_REQUESTS))| < MAX_BATCH_SERVERS
    ensures TooManyServers(ds) ==> ds[Counted(ds, 0)].Remote? && Get(recv, ds[Counted(ds, 0)]) == AnswerTo(own, fs, ds, ex, Counted(ds, 0))
  {
    TooManyIff(ds);
    if TooManyServers(ds) {
      AnswerLeft(recv, before, net, own, fs, ds, ex);
    } else {
      forall d
        ensures Get(recv, d) == []
      {
        LeftAt(recv, before, net, own, fs, ds, ex, d);
      }
    }
  }

  lemma AnswerLeft(recv: map<Dest, Bytes>, before: map<Dest, Bytes>, net: nat -> Peer, own: (nat, Bytes) -> Bytes,
                   fs: seq<Bytes>, ds: seq<Dest>, ex: map<nat, Exch>)
    requires Batched(fs, ds, SentOn(ds)) && OwnFrames(own) && ToldAll(before, net, fs, ds, SentOn(ds), ex, false)
    requires AllTidy(before, net, fs, ds, SentOn(ds)) && NothingHeld(before) && TooManyServers(ds)
    requires Stocked(recv, HarvestOf(own, fs, ds, SentOn(ds), ex, before), Counted(ds, 0))
    ensures var d := ds[Counted(ds, 0)];
      d.Remote? && Get(recv, d) == AnswerTo(own, fs, ds, ex, Counted(ds, 0)) && IsFrame(Get(recv, d))
  {
    var n, m := Counted(ds, 0), SentOn(ds);
    var d, t := ds[n], HarvestOf(own, fs, ds, m, ex, before);
    EighthIsNew(ds);
    LeftAt(recv, before, net, own, fs, ds, ex, d);
    ReplyMatchesRequest(before, net, own, fs, ds, m, ex, n);
    SourceSize(before, net, own, fs, ds, m, ex, d);
    var src := SourceOf(own, fs, ds, m, ex, d);
    hide SourceOf, ToldAll, AllTidy, Batched, OwnFrames, Counted, SentOn, AnswerTo;
    assert Tail(src, 0) == src[0] + Tail(src, 1) == src[0];
  }

  /** The uncounted request was sent all the same. */
  lemma UncountedWasSent(fs: seq<Bytes>, ds: seq<Dest>)
    requires TooManyServers(ds) && |ds| == |fs|
    ensures var n := Counted(ds, 0);
      ds[n].Remote? && BatchOf(fs, ds, SentOn(ds), ds[n].srv) == [fs[n], NOOP_REQUEST]
  {
    hide Count, BatchOf, Counted;
    EighthIsNew(ds);
    FirstBatch(fs, ds, Counted(ds, 0));
  }

  lemma FirstBatch(fs: seq<Bytes>, ds: seq<Dest>, n: nat)
    requires n < |ds| == |fs| && ds[n].Remote? && Count(ds, n, ds[n]) == 0
    ensures BatchOf(fs, ds, n + 1, ds[n].srv) == [fs[n], NOOP_REQUEST]
  {
    assert Pick(fs, ds, n, ds[n]) == [];
  }

  /** What the proxy does not consume begins with that request. */
  lemma UncountedStays(bytes: Bytes, fs: seq<Bytes>, ds: seq<Dest>, consumed: nat)
    requires TooManyServers(ds) && |ds| == |fs| && Walked(bytes, fs, Counted(ds, 0), consumed)
    ensures fs[Counted(ds, 0)] <= bytes[consumed..]
  {
    assert Tail(fs, Counted(ds, 0)) == fs[Counted(ds, 0)] + Tail(fs, Counted(ds, 0) + 1);
  }

  /** The next batch begins with it, and sends it to the same server again. */
  lemma SentAgain(route: Key -> nat, fs: seq<Bytes>, fs': seq<Bytes>)
    requires Sound(fs) && Sound(fs') && TooManyServers(Dests(route, fs))
    requires fs' != [] && fs'[0] == fs[Counted(Dests(route, fs), 0)]
    ensures var ds, ds' := Dests(route, fs), Dests(route, fs'); var n := Counted(ds, 0);
      && ds[n].Remote? && ds'[0] == ds[n] && SentOn(ds') > 0
      && BatchOf(fs', ds', SentOn(ds'), ds[n].srv)[0] == fs[n]
  {
    var ds, ds' := Dests(route, fs), Dests(route, fs');
    var n, m := Counted(ds, 0), SentOn(ds');
    EighthIsNew(ds);
    CountedSome(ds', 0);
    hide Counted, SentOn, Dests, DestOf, TooManyServers;
    DestAt(route, fs, n);
    DestAt(route, fs', 0);
    PickFirst(fs', ds', m);
  }

  lemma {:induction false} PickFirst(fs: seq<Bytes>, ds: seq<Dest>, n: nat)
    requires 0 < n <= |ds| == |fs|
    ensures Pick(fs, ds, n, ds[0]) != [] && Pick(fs, ds, n, ds[0])[0] == fs[0]
  {
    if n > 1 { PickFirst(fs, ds, n - 1); }
  }

  // ---- the next batch ----

  /** Two ways to cut one stream into frames agree. */
  lemma {:induction false} FramesAgree(got: seq<Bytes>, olds: seq<Bytes>, socket: Bytes)
    requires AllFrames(got) && AllFrames(olds) && Concat(got) <= Concat(olds) + socket
    ensures forall r :: 0 <= r < |got| && r < |olds| ==> got[r] == olds[r]
    ensures |got| >= |olds| ==> Concat(got[|olds|..]) <= socket
  {
    if olds == [] {
      assert Concat(olds) + socket == socket && got[0..] == got;
    } else if got != [] {
      var f, g, rest, more := got[0], olds[0], Concat(got[1..]), Concat(olds[1..]);
      assert Concat(olds) + socket == g + (more + socket);
      SameFrame(f, rest, g, more + socket);
      FramesAgree(got[1..], olds[1..], socket);
      if |got| >= |olds| { assert got[1..][|olds[1..]|..] == got[|olds|..]; }
      forall r | 0 <= r < |got| && r < |olds|
        ensures got[r] == olds[r]
      {
        if r > 0 { assert got[1..][r - 1] == olds[1..][r - 1]; }
      }
    }
  }

  lemma SameFrame(f: Bytes, rest: Bytes, g: Bytes, more: Bytes)
    requires IsFrame(f) && IsFrame(g) && f + rest <= g + more
    ensures f == g && rest <= more
  {
    HeadFrame(f, rest);
    HeadFrame(g, more);
    var a, b := f + rest, g + more;
    assert forall i :: 0 <= i < HEADER_SIZE ==> a[i] == b[i];
    assert FrameSize(a) == FrameSize(b);
    assert a == b[..|a|];
    assert f == a[..|f|] == b[..|f|] == g;
    assert rest == a[|f|..] == b[..|a|][|g|..] == more[..|rest|];
  }

  /**
   * With whole answers left over at a server, its replies are late by as many: the left-over answers come first, and the
   * request of rank `r` gets the answer to an earlier one.
   */
  lemma LateReplies(before: map<Dest, Bytes>, net: nat -> Peer, own: (nat, Bytes) -> Bytes,
                    fs: seq<Bytes>, ds: seq<Dest>, n: nat, ex: map<nat, Exch>, olds: seq<Bytes>, i: nat)
    requires Batched(fs, ds, n) && ToldAll(before, net, fs, ds, n, ex, false) && i < n && ds[i].Remote? && ds[i].srv in ex
    requires AllFrames(olds) && Get(before, ds[i]) == Concat(olds)
    ensures var e, r := ex[ds[i].srv], Count(ds, i, ds[i]);
      && (r < |e.got| && r < |olds| ==> AnswerTo(own, fs, ds, ex, i) == olds[r])
      && (|olds| <= r < |e.got| ==>
           Concat(e.got[|olds|..]) <= net(ds[i].srv).socket && AnswerTo(own, fs, ds, ex, i) == e.got[|olds|..][r - |olds|])
  {
    var s := ds[i].srv;
    var e := ex[s];
    assert Told(BatchOf(fs, ds, n, s), StreamOf(before, net, s), e, false);
    assert Concat(e.got) <= Concat(e.got) + e.extra <= Concat(olds) + net(s).socket;
    FramesAgree(e.got, olds, net(s).socket);
  }

  /**
   * The answer that an eighth server left becomes the reply to the first request of the next batch for it, and each later
   * request of that batch gets the answer to the one before.
   */
  lemma StaleAnswerIsNext(recv: map<Dest, Bytes>, before: map<Dest, Bytes>, net: nat -> Peer, own: (nat, Bytes) -> Bytes,
                          fs: seq<Bytes>, ds: seq<Dest>, ex: map<nat, Exch>,
                          net': nat -> Peer, fs': seq<Bytes>, ds': seq<Dest>, n': nat, ex': map<nat, Exch>, i: nat)
    requires Batched(fs, ds, SentOn(ds)) && OwnFrames(own) && ToldAll(before, net, fs, ds, SentOn(ds), ex, false)
    requires AllTidy(before, net, fs, ds, SentOn(ds)) && NothingHeld(before) && TooManyServers(ds)
    requires Stocked(recv, HarvestOf(own, fs, ds, SentOn(ds), ex, before), Counted(ds, 0))
    requires Batched(fs', ds', n') && ToldAll(recv, net', fs', ds', n', ex', false) && i < n' && ds'[i] == ds[Counted(ds, 0)]
    requires ds'[i].Remote? && ds'[i].srv in ex' && Count(ds', i, ds'[i]) < |ex'[ds'[i].srv].got|
    ensures var e, r := ex'[ds'[i].srv], Count(ds', i, ds'[i]);
      if r == 0 then AnswerTo(own, fs', ds', ex', i) == AnswerTo(own, fs, ds, ex, Counted(ds, 0))
      else Concat(e.got[1..]) <= net'(ds'[i].srv).socket && AnswerTo(own, fs', ds', ex', i) == e.got[1..][r - 1]
  {
    AnswerLeft(recv, before, net, own, fs, ds, ex);
    var a := Get(recv, ds'[i]);
    assert Concat([a]) == a + Concat([]) == a;
    hide AnswerTo, ToldAll, Stocked, AllTidy, Batched;
    LateReplies(recv, net', own, fs', ds', n', ex', [a], i);
  }

  // ---- an input ----

  /** A GET of a one-byte key. */
  function GetRequest(k: Byte): Bytes
  {
    [REQUEST_MAGIC, 0, 0, 1, 0, 0, 0, 0, 0, 0, 0, 1, 0, 0, 0, 0, 0, 0, 0, 0, 0, 0, 0, 0, k]
  }

  ghost function EightGets(): (r: seq<Bytes>)
    ensures |r| == 8 && forall i :: 0 <= i < 8 ==> r[i] == GetRequest(i as Byte)
  {
    seq(8, i requires 0 <= i < 8 => GetRequest(i as Byte))
  }

  /** Every first byte has a server of its own. */
  function ByFirst(k: Key): nat { if k == [] then 0 else k[0] as nat }

  lemma GetRequestGoes(k: Byte)
    ensures IsFrame(GetRequest(k)) && KeyLength(GetRequest(k)) == 1 && DestOf(ByFirst, GetRequest(k)) == Remote(k as nat)
  {
    assert GetRequest(k)[24..25] == [k];
  }

  /** Eight GETs: seven are counted, all eight are sent. */
  lemma EightGetsOverflow()
    ensures Sound(EightGets()) && TooManyServers(Dests(ByFirst, EightGets()))
    ensures Counted(Dests(ByFirst, EightGets()), 0) == 7 && SentOn(Dests(ByFirst, EightGets())) == 8
  {
    var fs := EightGets();
    forall i | 0 <= i < 8
      ensures IsFrame(fs[i]) && fs[i][4] as nat + KeyLength(fs[i]) <= BodyLength(fs[i]) && DestOf(ByFirst, fs[i]) == Remote(i)
    {
      GetRequestGoes(i as Byte);
    }
    hide GetRequest, DestOf, Counted;
    EightServers(Dests(ByFirst, fs));
  }
}
