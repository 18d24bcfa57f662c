/** What the bit strings of the hash stand for: sources as numbers, the padding and the blocks. */
module Bitstrings {
  import opened Bits
  import opened Radix
  import opened Whirlpool

  /** The number that bits stand for, highest first. */
  ghost function NumberOf(bits: seq<bool>): nat
  {
    if bits == [] then 0 else 2 * NumberOf(bits[..|bits| - 1]) + if bits[|bits| - 1] then 1 else 0
  }

  lemma NumberSnoc(bits: seq<bool>, bit: bool)
    ensures NumberOf(bits + [bit]) == 2 * NumberOf(bits) + if bit then 1 else 0
  {
    assert (bits + [bit])[..|bits|] == bits;
  }

  lemma {:induction false} NumberAppend(a: seq<bool>, b: seq<bool>)
    ensures NumberOf(a + b) == NumberOf(a) * Pow2(|b|) + NumberOf(b)
  {
    if b == [] {
      assert a + b == a;
    } else {
      var front, last := b[..|b| - 1], b[|b| - 1];
      NumberAppend(a, front);
      assert a + b == (a + front) + [last] && b == front + [last];
      NumberSnoc(a + front, last);
      NumberSnoc(front, last);
      assert Pow2(|b|) == 2 * Pow2(|front|);
      hide NumberOf, Pow2;
      Doubled(NumberOf(a), Pow2(|front|), NumberOf(front), if last then 1 else 0);
    }
  }

  lemma Doubled(n: nat, p: nat, low: nat, bit: nat)
    ensures 2 * (n * p + low) + bit == n * (2 * p) + (2 * low + bit)
  {
  }

  lemma {:induction false} NumberBelow(bits: seq<bool>)
    ensures NumberOf(bits) < Pow2(|bits|)
  {
    if bits != [] { NumberBelow(bits[..|bits| - 1]); }
  }

  /** The `n` lowest bits of a number, highest first. */
  ghost function Lowest(x: nat, n: nat): (r: seq<bool>)
    ensures |r| == n
  {
    seq(n, k requires 0 <= k < n => Low(x, n - 1 - k))
  }

  lemma LowestSnoc(x: nat, n: nat)
    requires n > 0
    ensures Lowest(x, n) == Lowest(x / 2, n - 1) + [x % 2 == 1]
  {
    forall k | 0 <= k < n - 1
      ensures Lowest(x, n)[k] == Lowest(x / 2, n - 1)[k]
    {
      assert Low(x, n - 1 - k) == Low(x / 2, n - 2 - k);
    }
    assert Lowest(x, n)[n - 1] == Low(x, 0);
  }

  lemma {:induction false} LowestIs(x: nat, n: nat)
    requires x < Pow2(n)
    ensures NumberOf(Lowest(x, n)) == x
  {
    if n > 0 {
      LowestIs(x / 2, n - 1);
      LowestSnoc(x, n);
      NumberSnoc(Lowest(x / 2, n - 1), x % 2 == 1);
      hide Lowest, NumberOf;
    }
  }

  /** The bits of a byte are its binary digits. */
  lemma ByteNumber(x: Octet)
    ensures NumberOf(Span(x, 0, 8)) == x
  {
    assert Pow2(8) == 256 by { assert Pow2(4) == 16; }
    LowestIs(x, 8);
    assert Span(x, 0, 8) == Lowest(x, 8);
  }

  lemma BitsSnoc(ls: seq<Octet>, x: Octet)
    ensures BitsOf(ls + [x]) == BitsOf(ls) + Span(x, 0, 8)
  {
    var all := ls + [x];
    forall i | 0 <= i < 8 * |all|
      ensures BitsOf(all)[i] == (BitsOf(ls) + Span(x, 0, 8))[i]
    {
      if i >= 8 * |ls| { SlotOf(i - 8 * |ls|, |ls|); }
    }
  }

  lemma ByteAppend(ls: seq<Octet>, x: Octet)
    ensures NumberOf(BitsOf(ls + [x])) == 256 * NumberOf(BitsOf(ls)) + x
  {
    BitsSnoc(ls, x);
    NumberAppend(BitsOf(ls), Span(x, 0, 8));
    ByteNumber(x);
    assert Pow2(8) == 256 by { assert Pow2(4) == 16; }
    hide BitsOf, NumberOf, Pow2;
  }

  /** The bits of bytes are the binary digits of the number they stand for. */
  lemma {:induction false} BytesNumber(ls: seq<Octet>)
    ensures NumberOf(BitsOf(ls)) == Value(ls)
  {
    if ls != [] {
      var front, last := ls[..|ls| - 1], ls[|ls| - 1];
      BytesNumber(front);
      assert ls == front + [last];
      ByteAppend(front, last);
      hide BitsOf, NumberOf;
    }
  }

  lemma StreamIsEnd(source: seq<Octet>, sourceBits: nat)
    requires Gap(sourceBits) + sourceBits == 8 * |source|
    ensures BitsOf(source) == BitsOf(source)[..Gap(sourceBits)] + Stream(source, sourceBits)
  {
    hide BitAt, Gap;
  }

  /** The bits of a source are the lowest binary digits of the number that its bytes stand for. */
  lemma StreamNumber(source: seq<Octet>, sourceBits: nat)
    requires Gap(sourceBits) + sourceBits == 8 * |source|
    ensures NumberOf(Stream(source, sourceBits)) == Value(source) % Pow2(sourceBits)
  {
    StreamIsEnd(source, sourceBits);
    hide NumberOf, BitsOf, Stream, Value, Pow2, Gap;
    var first, bits := BitsOf(source)[..Gap(sourceBits)], Stream(source, sourceBits);
    NumberAppend(first, bits);
    NumberBelow(bits);
    BytesNumber(source);
    Residue(NumberOf(first), NumberOf(bits), Pow2(sourceBits));
  }

  lemma {:induction false} BigEndianIs(n: nat, w: nat)
    requires n < Pow256(w)
    ensures Value(BigEndian(n, w)) == n
  {
    if w > 0 {
      BigEndianIs(n / 256, w - 1);
      assert BigEndian(n, w)[..w - 1] == BigEndian(n / 256, w - 1);
    }
  }

  /** The padding ends with the length of the message as a number of 256 bits. */
  lemma LengthNumber(msg: seq<bool>)
    ensures NumberOf(LengthBits(msg)) == |msg| % Pow256(32)
  {
    var n := |msg| % Pow256(32);
    BigEndianIs(n, 32);
    BytesNumber(BigEndian(n, 32));
    hide NumberOf, BitsOf, Value, BigEndian, Pow256;
  }

  /** The zeros reach the block boundary. */
  lemma ToBoundary(n: nat) returns (zeros: nat, blocks: nat)
    ensures zeros == (255 - n) % BLOCK_BITS < 512 && n + 257 + zeros == 512 * blocks
  {
    PadSize(n);
    zeros := (255 - n) % BLOCK_BITS;
    blocks := n / 512 + if n % 512 < 256 then 1 else 2;
  }

  lemma PaddedIs(msg: seq<bool>, zeros: nat)
    requires zeros == (255 - |msg|) % BLOCK_BITS
    ensures Padded(msg) == msg + [true] + Zeros(zeros) + LengthBits(msg)
  {
    hide LengthBits, Zeros;
  }

  /** Where the parts of a padded message are. */
  lemma PaddedParts(msg: seq<bool>, zeros: nat, length: seq<bool>)
    requires |length| == 256
    ensures var p := msg + [true] + Zeros(zeros) + length;
      && |p| == |msg| + 257 + zeros && p[..|msg|] == msg && p[|msg|] && p[|p| - 256..] == length
      && forall i :: |msg| < i < |p| - 256 ==> !p[i]
  {
  }

  /**
   * A padded message is whole blocks: the message, one bit, zeros, and the length in the last 256 bits, with no more zeros
   * than the next block boundary asks for.
   */
  lemma PaddedShape(msg: seq<bool>)
    ensures var p := Padded(msg);
      && |p| % 512 == 0 && |msg| + 257 <= |p| < |msg| + 257 + 512
      && p[..|msg|] == msg && p[|msg|] && (forall i :: |msg| < i < |p| - 256 ==> !p[i])
      && NumberOf(p[|p| - 256..]) == |msg| % Pow256(32)
  {
    hide NumberOf, LengthBits, Zeros, Pow256, Padded;
    var zeros, blocks := ToBoundary(|msg|);
    PaddedIs(msg, zeros);
    PaddedParts(msg, zeros, LengthBits(msg));
    LengthNumber(msg);
    assert 512 * blocks % 512 == 0;
  }

  /** Nothing hashes to the initial value, and every further block is compressed into the hash so far. */
  lemma HashedBlocks<H>(compress: (H, seq<bool>) -> H, iv: H, msg: seq<bool>, block: seq<bool>)
    requires |msg| % 512 == 0 && |block| == 512
    ensures Hashed(compress, iv, msg + block) == compress(Hashed(compress, iv, msg), block)
    ensures Hashed(compress, iv, []) == iv
  {
    Fill(compress, iv, msg, block);
    assert Tail(msg) == [] && [] + block == block;
  }
}
