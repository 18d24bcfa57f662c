/** Memcached binary frames: sizes, sanity checks and error answers. */
module Frames {
  import opened Keys

  type Bytes = seq<Byte>

  const HEADER_SIZE := 24
  const MAX_EXTRAS_SIZE := 256
  const MAX_KEY_SIZE := 256
  const MAX_VALUE_SIZE := 4 * 1024 * 1024 + 128
  const MAX_REQUEST_SIZE := HEADER_SIZE + MAX_EXTRAS_SIZE + MAX_KEY_SIZE + MAX_VALUE_SIZE + 32
  const MAX_QUIET_REQUESTS := MAX_REQUEST_SIZE / HEADER_SIZE + 1

  const NOOP: Byte := 0x0A
  const REQUEST_MAGIC: Byte := 0x80
  const RESPONSE_MAGIC: Byte := 0x81

  /** The no-op that the proxy sends after every server's batch. */
  const NOOP_REQUEST: Bytes := [0x80, 0x0A, 0, 0, 0, 0, 0, 0, 0, 0, 0, 0, 0, 0, 0xDE, 0xAD, 0, 0, 0, 0, 0, 0, 0, 0]

  function Be16(b: Bytes, i: nat): (r: nat)
    requires i + 2 <= |b|
    ensures r < 0x1_0000
  {
    b[i] as nat * 256 + b[i + 1] as nat
  }

  function Be32(b: Bytes, i: nat): (r: nat)
    requires i + 4 <= |b|
    ensures r < 0x1_0000_0000
  {
    Be16(b, i) * 0x1_0000 + Be16(b, i + 2)
  }

  function BodyLength(b: Bytes): nat
    requires HEADER_SIZE <= |b|
  {
    Be32(b, 8)
  }

  function Opcode(b: Bytes): Byte
    requires HEADER_SIZE <= |b|
  {
    b[1]
  }

  function KeyLength(b: Bytes): nat
    requires HEADER_SIZE <= |b|
  {
    Be16(b, 2)
  }

  function Reserved(b: Bytes): nat
    requires HEADER_SIZE <= |b|
  {
    Be16(b, 6)
  }

  /** The size that the header announces. */
  function FrameSize(b: Bytes): nat
    requires HEADER_SIZE <= |b|
  {
    HEADER_SIZE + BodyLength(b)
  }

  /** A 32-bit unsigned result stored in a C int. */
  function ToInt32(n: nat): int
  {
    var m := n % 0x1_0000_0000;
    if m < 0x8000_0000 then m else m - 0x1_0000_0000
  }

  /** -1 for a broken frame, 0 when more data is needed, else the size of the first frame. */
  function SaneSize(b: Bytes, magic: Byte): int
  {
    if |b| < HEADER_SIZE then 0
    else
      var size := ToInt32(BodyLength(b) + HEADER_SIZE);
      if |b| < size then 0
      else if b[0] != magic then -1
      else
        var extras, key, body := b[4] as nat, KeyLength(b), BodyLength(b);
        if body < extras + key then -1
        else if body - extras - key > MAX_VALUE_SIZE then -1
        else if key > MAX_KEY_SIZE then -1
        else size
  }

  /** An accepted size is the announced one, is present and fits a request, whatever the 32-bit length says. */
  lemma SaneSizeFits(b: Bytes, magic: Byte)
    ensures var r := SaneSize(b, magic);
      && (r > 0 ==> HEADER_SIZE <= r <= |b| && r == FrameSize(b) && r <= MAX_REQUEST_SIZE && b[0] == magic)
      && (r <= 0 ==> r == 0 || r == -1)
  {
    if |b| >= HEADER_SIZE {
      var body := BodyLength(b);
      if body <= MAX_VALUE_SIZE + 255 + 256 {
        assert ToInt32(body + HEADER_SIZE) == body + HEADER_SIZE;
      }
    }
  }

  /** Exactly when a frame is accepted, waited for and refused. */
  lemma SaneSizeIs(b: Bytes, magic: Byte)
    requires HEADER_SIZE <= |b|
    ensures var r, extras, key, body := SaneSize(b, magic), b[4] as nat, Be16(b, 2), Be32(b, 8);
      && (r > 0 <==> b[0] == magic && HEADER_SIZE + body <= |b| && extras + key <= body
                     && body - extras - key <= MAX_VALUE_SIZE && key <= MAX_KEY_SIZE)
      && (r > 0 ==> r == HEADER_SIZE + body)
      && (r == 0 <==> HEADER_SIZE + body < 0x8000_0000 && |b| < HEADER_SIZE + body)
      && r >= -1
  {
    SaneSizeFits(b, magic);
    hide Be32, Be16;
  }

  /** One whole frame. */
  ghost predicate IsFrame(f: Bytes)
  {
    HEADER_SIZE <= |f| && |f| == FrameSize(f)
  }

  ghost predicate AllFrames(fs: seq<Bytes>)
  {
    forall i :: 0 <= i < |fs| ==> IsFrame(fs[i])
  }

  function Concat(fs: seq<Bytes>): Bytes
  {
    if fs == [] then [] else fs[0] + Concat(fs[1..])
  }

  lemma {:induction false} ConcatSplit(fs: seq<Bytes>, gs: seq<Bytes>)
    ensures Concat(fs + gs) == Concat(fs) + Concat(gs)
  {
    if fs == [] {
      assert fs + gs == gs;
    } else {
      assert (fs + gs)[1..] == fs[1..] + gs;
      ConcatSplit(fs[1..], gs);
    }
  }

  lemma ConcatSnoc(fs: seq<Bytes>, f: Bytes)
    ensures Concat(fs + [f]) == Concat(fs) + f
  {
    ConcatSplit(fs, [f]);
    assert Concat([f]) == f + Concat([]);
  }

  /** A frame's size does not depend on what follows it. */
  lemma HeadFrame(f: Bytes, rest: Bytes)
    requires IsFrame(f)
    ensures HEADER_SIZE <= |f + rest| && FrameSize(f + rest) == |f| && Opcode(f + rest) == Opcode(f)
    ensures (f + rest)[..|f|] == f && (f + rest)[|f|..] == rest
  {
  }

  lemma TakeFrame(b: Bytes)
    requires HEADER_SIZE <= |b| && FrameSize(b) <= |b|
    ensures IsFrame(b[..FrameSize(b)])
  {
    var f := b[..FrameSize(b)];
    assert forall i :: 0 <= i < HEADER_SIZE ==> f[i] == b[i];
  }

  // ---- error answers ----

  const UNKNOWN_ERROR: Bytes :=
    [85, 110, 107, 110, 111, 119, 110, 32, 101, 114, 114, 111, 114, 32, 99, 111, 100, 101]

  /** The answer made up for a request whose server is gone: its opcode and opaque, status 0x83. */
  function ErrorFrame(req: Bytes): Bytes
    requires HEADER_SIZE <= |req|
  {
    var text := if Opcode(req) == NOOP then [] else UNKNOWN_ERROR;
    [RESPONSE_MAGIC, req[1], 0, 0, 0, 0, 0, 0x83, 0, 0, 0, |text| as Byte] + req[12..16] + [0, 0, 0, 0, 0, 0, 0, 0] + text
  }

  /** It is a sane response that echoes opcode and opaque; for a no-op it is a bare header. */
  lemma ErrorFrameEchoes(req: Bytes)
    requires HEADER_SIZE <= |req|
    ensures var f := ErrorFrame(req);
      && IsFrame(f) && SaneSize(f, RESPONSE_MAGIC) == |f|
      && Opcode(f) == Opcode(req) && f[12..16] == req[12..16] && Be16(f, 6) == 0x83
      && (Opcode(req) == NOOP ==> |f| == HEADER_SIZE)
  {
    var f := ErrorFrame(req);
    assert f[8..12] == [0, 0, 0, f[11]];
  }
}
