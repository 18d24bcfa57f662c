/** The frame parse of a byte stream. */
module Parsing {
  import opened Frames

  /** A whole request that the sanity check accepts. */
  ghost predicate SaneFrame(f: Bytes)
  {
    0 < |f| == SaneSize(f, REQUEST_MAGIC)
  }

  ghost predicate AllSane(fs: seq<Bytes>)
  {
    forall i :: 0 <= i < |fs| ==> SaneFrame(fs[i])
  }

  /** The frames at the front of a stream, up to the first that is broken or incomplete. */
  ghost function Parse(b: Bytes): seq<Bytes>
    decreases |b|
  {
    var size := SaneSize(b, REQUEST_MAGIC);
    SaneSizeFits(b, REQUEST_MAGIC);
    if size <= 0 then [] else [b[..size]] + Parse(b[size..])
  }

  lemma SaneIsFrame(f: Bytes)
    requires SaneFrame(f)
    ensures IsFrame(f)
  {
    SaneSizeFits(f, REQUEST_MAGIC);
  }

  /** Whether a frame is accepted does not depend on what follows it. */
  lemma SaneHead(f: Bytes, rest: Bytes)
    requires SaneFrame(f)
    ensures SaneSize(f + rest, REQUEST_MAGIC) == |f| && (f + rest)[..|f|] == f && (f + rest)[|f|..] == rest
  {
    SaneIsFrame(f);
    HeadFrame(f, rest);
    var b := f + rest;
    assert forall i :: 0 <= i < HEADER_SIZE ==> b[i] == f[i];
  }

  /** A size found at the front of a stream cuts off a frame that is accepted by itself. */
  lemma SaneCut(b: Bytes)
    requires SaneSize(b, REQUEST_MAGIC) > 0
    ensures SaneSize(b, REQUEST_MAGIC) <= |b| && SaneFrame(b[..SaneSize(b, REQUEST_MAGIC)])
  {
    SaneSizeFits(b, REQUEST_MAGIC);
    var f := b[..SaneSize(b, REQUEST_MAGIC)];
    assert forall i :: 0 <= i < HEADER_SIZE ==> f[i] == b[i];
  }

  lemma ParseHead(f: Bytes, rest: Bytes)
    requires SaneFrame(f)
    ensures Parse(f + rest) == [f] + Parse(rest)
  {
    SaneHead(f, rest);
    hide SaneSize;
  }

  /** Whole frames parse as themselves, whatever follows them. */
  lemma {:induction false} ParseConcat(fs: seq<Bytes>, rest: Bytes)
    requires AllSane(fs)
    ensures Parse(Concat(fs) + rest) == fs + Parse(rest)
  {
    hide Parse, SaneFrame;
    if fs == [] {
      assert Concat(fs) + rest == rest && fs + Parse(rest) == Parse(rest);
    } else {
      var tail := Concat(fs[1..]) + rest;
      assert Concat(fs) + rest == fs[0] + tail;
      ParseHead(fs[0], tail);
      ParseConcat(fs[1..], rest);
      assert fs == [fs[0]] + fs[1..];
    }
  }
}
