/** The two batch processors are what the connection layer asks for: each takes one or more whole requests of a batch. */
module Serving {
  import opened Keys
  import opened Frames
  import opened Parsing
  import opened Batch
  import Connection
  import Pipeline
  import Dispatch
  import Buffers
  import Storage

  /** The requests that the connection layer accepts have a key and a body to match. */
  lemma SaneIsSound(fs: seq<Bytes>)
    requires AllSane(fs)
    ensures Pipeline.Sound(fs)
  {
    forall i | 0 <= i < |fs|
      ensures IsFrame(fs[i]) && fs[i][4] as nat + KeyLength(fs[i]) <= BodyLength(fs[i])
    {
      SaneSizeFits(fs[i], REQUEST_MAGIC);
    }
  }

  /** `consumed` is what `Pipeline.Proxy.ProcessMulti` ensures of the bytes it consumes. */
  ghost predicate ProxyConsumes(route: Key -> nat, fs: seq<Bytes>, consumed: nat)
    requires Pipeline.Sound(fs)
  {
    Pipeline.Walked(Concat(fs), fs, Counted(Pipeline.Dests(route, fs), 0), consumed)
  }

  /** A function that answers every batch as `Pipeline.Proxy.ProcessMulti` may. */
  ghost predicate LikeProxy(route: Key -> nat, serve: (nat, Bytes) -> (nat, Bytes), call: nat, fs: seq<Bytes>)
  {
    Pipeline.Sound(fs) ==> ProxyConsumes(route, fs, serve(call, Concat(fs)).0)
  }

  /** The proxy, which may stop at an eighth server, takes at least one request. */
  lemma ProxyServes(route: Key -> nat, serve: (nat, Bytes) -> (nat, Bytes))
    requires forall call: nat, fs: seq<Bytes> :: LikeProxy(route, serve, call, fs)
    ensures Connection.Serves(serve)
  {
    forall call: nat, fs: seq<Bytes>
      ensures Connection.ServesBatch(serve, call, fs)
    {
      if AllSane(fs) && fs != [] {
        SaneIsSound(fs);
        assert LikeProxy(route, serve, call, fs);
        ProxyTakesSome(route, fs, serve(call, Concat(fs)).0);
      }
    }
  }

  lemma ProxyTakesSome(route: Key -> nat, fs: seq<Bytes>, consumed: nat)
    requires Pipeline.Sound(fs) && fs != [] && ProxyConsumes(route, fs, consumed)
    ensures exists k :: Connection.Cuts(fs, consumed, k)
  {
    var n := Counted(Pipeline.Dests(route, fs), 0);
    CountedSome(Pipeline.Dests(route, fs), 0);
    Pipeline.JoinedIsConcat(fs, n);
    assert Connection.Cuts(fs, consumed, n);
  }

  lemma {:induction false} StretchIsConcat(fs: seq<Bytes>, i: nat)
    requires i <= |fs|
    ensures Dispatch.Stretch(fs, i, |fs|) == Concat(fs[i..])
    decreases |fs| - i
  {
    if i < |fs| {
      StretchIsConcat(fs, i + 1);
      assert fs[i..][1..] == fs[i + 1..];
    }
  }

  /** The storage server takes the whole of a batch that it can read. */
  method EngineTakesAll(engine: Dispatch.Engine, recv: Buffers.Buffer, size: nat, heap: Buffers.Heap, ghost fs: seq<Bytes>)
      returns (ok: bool, consumed: nat)
    requires engine.Valid() && recv.Valid() && recv.buf != null && AllSane(fs)
    requires size <= |recv.Contents()| && recv.Contents()[..size] == Concat(fs)
    modifies engine, engine.disk, recv, recv.buf
    ensures ok <==> old(recv.Stays(Storage.META_SIZE))
    ensures ok ==> EngineConsumes(fs, consumed)
  {
    StretchIsConcat(fs, 0);
    assert fs[0..] == fs;
    ok, consumed := engine.ProcessMulti(recv, size, heap, fs);
  }

  /** What `EngineTakesAll` ensures of the bytes consumed. */
  ghost predicate EngineConsumes(fs: seq<Bytes>, consumed: nat) { consumed == |Dispatch.Stretch(fs, 0, |fs|)| }

  /** A function that answers every batch as `Dispatch.Engine.ProcessMulti` may. */
  ghost predicate LikeEngine(serve: (nat, Bytes) -> (nat, Bytes), call: nat, fs: seq<Bytes>)
  {
    AllSane(fs) ==> EngineConsumes(fs, serve(call, Concat(fs)).0)
  }

  /** The storage server takes every request. */
  lemma EngineServes(serve: (nat, Bytes) -> (nat, Bytes))
    requires forall call: nat, fs: seq<Bytes> :: LikeEngine(serve, call, fs)
    ensures Connection.Serves(serve)
  {
    forall call: nat, fs: seq<Bytes>
      ensures Connection.ServesBatch(serve, call, fs)
    {
      if AllSane(fs) && fs != [] {
        assert LikeEngine(serve, call, fs);
        StretchIsConcat(fs, 0);
        assert fs[0..] == fs && fs[..|fs|] == fs;
        assert Connection.Cuts(fs, serve(call, Concat(fs)).0, |fs|);
      }
    }
  }
}
