/** What the bytes of requests and answers mean. */
module Layout {
  import opened Keys
  import opened Frames
  import opened Parsing
  import opened Radix
  import opened Storage
  import opened Commands
  import Batch
  import Connection

  // ---- numbers ----

  /** The number that bytes stand for, highest first. */
  function FromBe(b: Bytes): nat
  {
    if b == [] then 0 else FromBe(b[..|b| - 1]) * 256 + b[|b| - 1] as nat
  }

  lemma {:induction false} FromBeInverts(n: nat, w: nat)
    requires n < Pow256(w)
    ensures FromBe(Be(n, w)) == n
  {
    if w > 0 {
      FromBeInverts(n / 256, w - 1);
      assert Be(n, w)[..w - 1] == Be(n / 256, w - 1);
    }
  }

  lemma FromBeSnoc(b: Bytes, c: Byte)
    ensures FromBe(b + [c]) == FromBe(b) * 256 + c as nat
  {
    assert (b + [c])[..|b|] == b;
  }

  lemma FromBeTwo(b: Bytes, i: nat)
    requires i + 2 <= |b|
    ensures FromBe(b[i..i + 2]) == Be16(b, i)
  {
    FromBeSnoc([], b[i]);
    FromBeSnoc([b[i]], b[i + 1]);
    assert [] + [b[i]] == [b[i]] && b[i..i + 2] == [b[i]] + [b[i + 1]];
  }

  lemma FromBeFour(b: Bytes, i: nat)
    requires i + 4 <= |b|
    ensures FromBe(b[i..i + 4]) == Be32(b, i)
  {
    FromBeTwo(b, i);
    FromBeSnoc(b[i..i + 2], b[i + 2]);
    FromBeSnoc(b[i..i + 3], b[i + 3]);
    assert b[i..i + 3] == b[i..i + 2] + [b[i + 2]] && b[i..i + 4] == b[i..i + 3] + [b[i + 3]];
    hide FromBe;
  }

  lemma FromBeEight(b: Bytes, i: nat)
    requires i + 8 <= |b|
    ensures FromBe(b[i..i + 8]) == Be64(b, i)
  {
    FromBeFour(b, i);
    hide FromBe, Be32;
    FromBeSnoc(b[i..i + 4], b[i + 4]);
    FromBeSnoc(b[i..i + 5], b[i + 5]);
    FromBeSnoc(b[i..i + 6], b[i + 6]);
    FromBeSnoc(b[i..i + 7], b[i + 7]);
    assert b[i..i + 5] == b[i..i + 4] + [b[i + 4]] && b[i..i + 6] == b[i..i + 5] + [b[i + 5]];
    assert b[i..i + 7] == b[i..i + 6] + [b[i + 6]] && b[i..i + 8] == b[i..i + 7] + [b[i + 7]];
    LowFour(b, i + 4);
  }

  lemma LowFour(b: Bytes, i: nat)
    requires i + 4 <= |b|
    ensures Be32(b, i) == ((b[i] as nat * 256 + b[i + 1] as nat) * 256 + b[i + 2] as nat) * 256 + b[i + 3] as nat
  {
  }

  lemma Bounds()
    ensures Pow256(1) == 256 && Pow256(2) == 0x1_0000 && Pow256(4) == 0x1_0000_0000 && Pow256(8) == 0x1_0000_0000_0000_0000
  {
    assert Pow256(4) == 0x1_0000_0000 && Pow256(6) == 0x1_0000_0000_0000;
  }

  lemma ReadBe8(b: Bytes, i: nat, n: nat)
    requires i < |b| && b[i..i + 1] == Be(n, 1) && n < 256
    ensures b[i] as nat == n
  {
    assert b[i] == b[i..i + 1][0];
  }

  lemma ReadBe16(b: Bytes, i: nat, n: nat)
    requires i + 2 <= |b| && b[i..i + 2] == Be(n, 2) && n < 0x1_0000
    ensures Be16(b, i) == n
  {
    Bounds();
    FromBeInverts(n, 2);
    FromBeTwo(b, i);
  }

  lemma ReadBe32(b: Bytes, i: nat, n: nat)
    requires i + 4 <= |b| && b[i..i + 4] == Be(n, 4) && n < 0x1_0000_0000
    ensures Be32(b, i) == n
  {
    Bounds();
    FromBeInverts(n, 4);
    FromBeFour(b, i);
    hide Be32, Be, FromBe;
  }

  lemma ReadBe64(b: Bytes, i: nat, n: nat)
    requires i + 8 <= |b| && b[i..i + 8] == Be(n, 8) && n < 0x1_0000_0000_0000_0000
    ensures Be64(b, i) == n
  {
    Bounds();
    FromBeInverts(n, 8);
    FromBeEight(b, i);
    hide Be64, Be, FromBe;
  }

  // ---- requests ----

  /** A request as a client writes it: the header's fields in their places, then extras, key and value. */
  function Written(r: Request, reserved: nat): (f: Bytes)
    requires |r.tag| == 4
    ensures |f| == HEADER_SIZE + |r.extras| + |r.key| + |r.value|
  {
    [REQUEST_MAGIC, r.opcode] + Be(|r.key|, 2) + Be(|r.extras|, 1) + [0] + Be(reserved, 2)
    + Be(|r.extras| + |r.key| + |r.value|, 4) + r.tag + Be(r.cas, 8) + r.extras + r.key + r.value
  }

  /** What a client may put in a request. */
  ghost predicate Legal(r: Request, reserved: nat)
  {
    && |r.tag| == 4 && |r.extras| < 256 && |r.key| <= MAX_KEY_SIZE && |r.value| <= MAX_VALUE_SIZE
    && r.cas < 0x1_0000_0000_0000_0000 && reserved < 0x1_0000
  }

  /** Where its bytes are. */
  lemma SlicesOf(r: Request, reserved: nat)
    requires |r.tag| == 4
    ensures var f := Written(r, reserved);
      && f[0] == REQUEST_MAGIC && f[1] == r.opcode && f[2..4] == Be(|r.key|, 2) && f[4..5] == Be(|r.extras|, 1)
      && f[6..8] == Be(reserved, 2) && f[8..12] == Be(|r.extras| + |r.key| + |r.value|, 4) && f[12..16] == r.tag
      && f[16..24] == Be(r.cas, 8) && f[HEADER_SIZE..] == r.extras + r.key + r.value
  {
    hide Be;
  }

  /** The fields of its header. */
  lemma HeaderOf(r: Request, reserved: nat)
    requires Legal(r, reserved)
    ensures var f, body := Written(r, reserved), |r.extras| + |r.key| + |r.value|;
      && f[0] == REQUEST_MAGIC && f[1] == r.opcode && KeyLength(f) == |r.key| && f[4] as nat == |r.extras|
      && Reserved(f) == reserved && BodyLength(f) == body && f[12..16] == r.tag && Be64(f, 16) == r.cas
      && f[HEADER_SIZE..] == r.extras + r.key + r.value
  {
    var f, body := Written(r, reserved), |r.extras| + |r.key| + |r.value|;
    SlicesOf(r, reserved);
    hide Be, Written;
    ReadBe8(f, 4, |r.extras|);
    ReadBe16(f, 2, |r.key|);
    ReadBe16(f, 6, reserved);
    ReadBe32(f, 8, body);
    ReadBe64(f, 16, r.cas);
  }

  /** The parts behind any header that announces their lengths. */
  lemma PartsOf(h: Bytes, x: Bytes, k: Bytes, v: Bytes)
    requires |h| == HEADER_SIZE && h[4] as nat == |x| && Be16(h, 2) == |k|
    ensures var f := h + x + k + v;
      && ValueOffset(f) <= |f| && Unpack(f) == Request(h[1], h[12..16], Be64(h, 16), x, k, v)
      && Batch.KeyOf(f) == k
  {
    var f := h + x + k + v;
    assert forall i :: 0 <= i < HEADER_SIZE ==> f[i] == h[i];
    assert KeyLength(f) == |k|;
    assert f[12..16] == h[12..16];
    assert f[HEADER_SIZE..HEADER_SIZE + |x|] == x && f[HEADER_SIZE + |x|..HEADER_SIZE + |x| + |k|] == k;
    assert f[HEADER_SIZE + |x| + |k|..] == v;
  }

  /** The server reads the request that was written, and the connection layer lets it through. */
  lemma UnpackReads(r: Request, reserved: nat)
    requires Legal(r, reserved)
    ensures var f := Written(r, reserved);
      SaneFrame(f) && ValueOffset(f) <= |f| && Unpack(f) == r && Batch.KeyOf(f) == r.key
  {
    var f := Written(r, reserved);
    HeaderOf(r, reserved);
    var h := f[..HEADER_SIZE];
    SaneSizeIs(f, REQUEST_MAGIC);
    assert f == h + f[HEADER_SIZE..] && f == h + r.extras + r.key + r.value;
    assert Be16(h, 2) == KeyLength(f) && h[12..16] == f[12..16] && Be64(h, 16) == Be64(f, 16);
    hide Be, Written, Unpack, Batch.KeyOf;
    PartsOf(h, r.extras, r.key, r.value);
  }

  /** The lowest bit of the reserved field makes a request quiet, the next one keeps it at the proxy, as its opcode may. */
  lemma FlagsRead(r: Request, reserved: nat, route: Key -> nat)
    requires Legal(r, reserved)
    ensures var f := Written(r, reserved);
      && (Connection.Quiet(f) <==> reserved % 2 == 1)
      && Batch.DestOf(route, f) ==
         if r.opcode == NOOP || reserved / 2 % 2 == 1 then Batch.Local else Batch.Remote(route(r.key))
  {
    HeaderOf(r, reserved);
    UnpackReads(r, reserved);
    hide Written, Batch.KeyOf;
  }

  /** Requests that name one key meet at one server, whatever else they carry. */
  lemma KeysMeet(r: Request, s: Request, route: Key -> nat)
    requires Legal(r, 0) && Legal(s, 0) && r.key == s.key && r.opcode != NOOP && s.opcode != NOOP
    ensures Batch.DestOf(route, Written(r, 0)) == Batch.DestOf(route, Written(s, 0)) == Batch.Remote(route(r.key))
  {
    FlagsRead(r, 0, route);
    FlagsRead(s, 0, route);
  }

  /** The flags byte by byte, in any frame. */
  lemma FlagBits(f: Bytes, route: Key -> nat)
    requires HEADER_SIZE <= |f|
    ensures Connection.Quiet(f) <==> f[7] % 2 == 1
    ensures Batch.DestOf(route, f).Local? <==> f[1] == 0x0A || f[7] / 2 % 2 == 1
  {
    Halves(f[6] as nat, f[7] as nat);
    hide Batch.KeyOf;
  }

  lemma Halves(a: nat, b: nat)
    ensures (a * 256 + b) % 2 == b % 2 && (a * 256 + b) / 2 % 2 == b / 2 % 2
  {
    TwiceAnd(a * 128 + b / 2, b % 2);
    TwiceAnd(a * 64 + b / 2 / 2, b / 2 % 2);
  }

  lemma TwiceAnd(q: nat, r: nat)
    requires r < 2
    ensures (2 * q + r) % 2 == r && (2 * q + r) / 2 == q
  {
  }

  const SAMPLE := Request(SET, [0xDE, 0xAD, 0xBE, 0xEF], 0x0102, [0, 0, 0, 7, 0, 0, 0, 0], [0x6B], [0x76])

  /** A quiet SET of "k" to "v", with flags 7 and version 258, byte by byte. */
  lemma SetOnTheWire()
    ensures Written(SAMPLE, 1) ==
      [0x80, 0x01, 0x00, 0x01] + [0x08, 0x00, 0x00, 0x01] + [0x00, 0x00, 0x00, 0x0A] + [0xDE, 0xAD, 0xBE, 0xEF]
      + [0, 0, 0, 0, 0, 0, 0x01, 0x02] + [0, 0, 0, 7, 0, 0, 0, 0] + [0x6B] + [0x76]
  {
    SampleNumbers();
    hide Be;
    var f := Written(SAMPLE, 1);
    assert |f| == 34;
    assert f[0..4] == [0x80, 0x01, 0x00, 0x01] && f[4..8] == [0x08, 0x00, 0x00, 0x01] && f[8..12] == [0x00, 0x00, 0x00, 0x0A];
    assert f[12..16] == SAMPLE.tag && f[16..24] == [0, 0, 0, 0, 0, 0, 0x01, 0x02];
    assert f[24..32] == SAMPLE.extras && f[32..33] == SAMPLE.key && f[33..34] == SAMPLE.value;
    hide Written;
    assert f == f[0..4] + f[4..8] + f[8..12] + f[12..16] + f[16..24] + f[24..32] + f[32..33] + f[33..34];
  }

  lemma SampleNumbers()
    ensures Be(1, 2) == [0, 1] && Be(8, 1) == [8] && Be(10, 4) == [0, 0, 0, 10] && Be(0x0102, 8) == [0, 0, 0, 0, 0, 0, 1, 2]
  {
    SmallBe(1, 1);
    SmallBe(8, 0);
    SmallBe(10, 3);
    SmallBe(1, 6);
    BeNext(0x0102, 7);
    hide Be;
    assert seq(6, i => 0 as Byte) == [0, 0, 0, 0, 0, 0];
  }

  lemma BeNext(n: nat, w: nat)
    ensures Be(n, w + 1) == Be(n / 256, w) + [(n % 256) as Byte]
  {
  }

  /** A number below 256 after `w` zeros. */
  lemma {:induction false} SmallBe(n: nat, w: nat)
    requires n < 256
    ensures Be(n, w + 1) == seq(w, i => 0 as Byte) + [n as Byte]
  {
    BeNext(n, w);
    if w > 0 {
      SmallBe(0, w - 1);
      assert seq(w - 1, i => 0 as Byte) + [0] == seq(w, i => 0 as Byte);
    }
  }

  const PROXY_NOOP := Request(0x0A, [0, 0, 0xDE, 0xAD], 0, [], [], [])

  /** The no-op that the proxy sends, as a server reads it. */
  lemma NoopReads()
    ensures SaneFrame(NOOP_REQUEST) && ValueOffset(NOOP_REQUEST) == |NOOP_REQUEST| == HEADER_SIZE
    ensures Unpack(NOOP_REQUEST) == PROXY_NOOP && !Connection.Quiet(NOOP_REQUEST)
  {
    var f := NOOP_REQUEST;
    NoopNumbers();
    SaneSizeIs(f, REQUEST_MAGIC);
    hide SaneSize, Be16, Be32, Be64;
    assert f[12..16] == PROXY_NOOP.tag;
  }

  lemma NoopNumbers()
    ensures var f := NOOP_REQUEST;
      Be16(f, 2) == Be16(f, 6) == Be32(f, 8) == Be64(f, 16) == 0 && f[0] == 0x80 && f[1] == 0x0A && f[4] == 0 && |f| == 24
  {
  }

  // ---- answers ----

  ghost predicate Sendable(req: Request, a: Answer)
  {
    && |req.tag| == 4 && a.status < 0x1_0000 && a.cas < 0x1_0000_0000_0000_0000
    && |a.extras| < 256 && |a.value| <= MAX_VALUE_SIZE
  }

  /** A packed answer is a sane frame that echoes opcode and opaque, and everything in it reads back. */
  lemma PackReads(req: Request, a: Answer)
    requires Sendable(req, a)
    ensures var f := Pack(req, a);
      && SaneSize(f, RESPONSE_MAGIC) == |f| == HEADER_SIZE + |a.extras| + |a.value|
      && f[1] == req.opcode && f[12..16] == req.tag && Be16(f, 6) == a.status && Be64(f, 16) == a.cas
      && KeyLength(f) == 0 && f[4] as nat == |a.extras|
      && f[HEADER_SIZE..HEADER_SIZE + |a.extras|] == a.extras && f[HEADER_SIZE + |a.extras|..] == a.value
  {
    var f, body := Pack(req, a), |a.extras| + |a.value|;
    hide Be;
    assert f[4..5] == Be(|a.extras|, 1) && f[6..8] == Be(a.status, 2) && f[8..12] == Be(body, 4);
    assert f[12..16] == req.tag && f[16..24] == Be(a.cas, 8);
    assert f[HEADER_SIZE..] == a.extras + a.value && f[2] == 0 && f[3] == 0 && f[0] == RESPONSE_MAGIC && f[1] == req.opcode;
    hide Pack;
    ReadBe8(f, 4, |a.extras|);
    ReadBe16(f, 6, a.status);
    ReadBe32(f, 8, body);
    ReadBe64(f, 16, a.cas);
    assert f[HEADER_SIZE..HEADER_SIZE + |a.extras|] == f[HEADER_SIZE..][..|a.extras|];
    assert f[HEADER_SIZE + |a.extras|..] == f[HEADER_SIZE..][|a.extras|..];
    SaneSizeIs(f, RESPONSE_MAGIC);
  }

  /** The answer that the proxy makes up is the one a server would pack for status 0x83, without a text for a no-op. */
  lemma ErrorFrameIsPacked(f: Bytes)
    requires HEADER_SIZE <= |f| && ValueOffset(f) <= |f|
    ensures ErrorFrame(f) == Pack(Unpack(f), Answer(0x83, 0, [], if f[1] == 0x0A then [] else UNKNOWN_ERROR))
  {
    ErrorNumbers();
    hide Be;
    var text := if f[1] == 0x0A then [] else UNKNOWN_ERROR;
    var tag := Unpack(f).tag;
    assert tag == f[12..16];
    hide Unpack;
    var head: Bytes := [RESPONSE_MAGIC, f[1], 0, 0, 0, 0, 0, 0x83, 0, 0, 0, |text| as Byte];
    assert Pack(Unpack(f), Answer(0x83, 0, [], text))[..12] == head;
  }

  lemma ErrorNumbers()
    ensures Be(0, 1) == [0] && Be(0x83, 2) == [0, 0x83] && Be(0, 4) == [0, 0, 0, 0] && Be(18, 4) == [0, 0, 0, 18]
    ensures Be(0, 8) == [0, 0, 0, 0, 0, 0, 0, 0]
  {
    SmallBe(0, 0);
    SmallBe(0x83, 1);
    SmallBe(0, 3);
    SmallBe(18, 3);
    SmallBe(0, 7);
    hide Be;
  }
}
