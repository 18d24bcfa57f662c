/** Whirlpool input: bit strings of any length, collected in blocks of 512 bits, padded and counted. */
module Whirlpool {
  import opened Bits
  import opened Radix

  const BLOCK_BYTES := 64
  const BLOCK_BITS := 512
  const LENGTH_BYTES := 32

  function BitAt(buf: seq<Octet>, i: nat): bool
    requires i < 8 * |buf|
  {
    Bit(buf[i / 8], i % 8)
  }

  function BitsOf(buf: seq<Octet>): seq<bool>
  {
    seq(8 * |buf|, i requires 0 <= i < 8 * |buf| => BitAt(buf, i))
  }

  /** Bits `from` to `from + n` of a byte. */
  ghost function Span(b: Octet, from: nat, n: nat): seq<bool>
    requires from + n <= 8
  {
    seq(n, k requires 0 <= k < n => Bit(b, from + k))
  }

  /** No bit of `b` is set from number `n` on. */
  ghost predicate Clear(b: Octet, n: nat)
  {
    forall k :: n <= k < 8 ==> !Bit(b, k)
  }

  lemma SpanSplit(b: Octet, n: nat, m: nat)
    requires n + m <= 8
    ensures Span(b, 0, n) + Span(b, n, m) == Span(b, 0, n + m)
  {
  }

  // ---- the reference: a message, its blocks and its padding ----

  /** The hashing state after `k` blocks of the message. */
  ghost function Chain<H>(compress: (H, seq<bool>) -> H, iv: H, msg: seq<bool>, k: nat): H
    requires BLOCK_BITS * k <= |msg|
  {
    if k == 0 then iv
    else compress(Chain(compress, iv, msg, k - 1), msg[BLOCK_BITS * (k - 1)..BLOCK_BITS * k])
  }

  ghost function Hashed<H>(compress: (H, seq<bool>) -> H, iv: H, msg: seq<bool>): H
  {
    Chain(compress, iv, msg, |msg| / BLOCK_BITS)
  }

  /** The bits after the last whole block. */
  ghost function Tail(msg: seq<bool>): seq<bool>
  {
    msg[BLOCK_BITS * (|msg| / BLOCK_BITS)..]
  }

  ghost function Zeros(n: nat): (r: seq<bool>)
    ensures |r| == n
  {
    seq(n, _ => false)
  }

  /** A one bit, zeros up to the last 256 bits of a block, and the length of the message. */
  ghost function Padded(msg: seq<bool>): seq<bool>
  {
    msg + [true] + Zeros((255 - |msg|) % BLOCK_BITS) + LengthBits(msg)
  }

  ghost function LengthBits(msg: seq<bool>): (r: seq<bool>)
    ensures |r| == 256
  {
    BitsOf(BigEndian(|msg| % Pow256(LENGTH_BYTES), LENGTH_BYTES))
  }

  ghost function Digest<H>(compress: (H, seq<bool>) -> H, iv: H, msg: seq<bool>): H
  {
    Hashed(compress, iv, Padded(msg))
  }

  lemma {:induction false} ChainPrefix<H>(compress: (H, seq<bool>) -> H, iv: H, msg: seq<bool>, more: seq<bool>, k: nat)
    requires BLOCK_BITS * k <= |msg|
    ensures Chain(compress, iv, msg + more, k) == Chain(compress, iv, msg, k)
  {
    if k > 0 {
      ChainPrefix(compress, iv, msg, more, k - 1);
      assert (msg + more)[BLOCK_BITS * (k - 1)..BLOCK_BITS * k] == msg[BLOCK_BITS * (k - 1)..BLOCK_BITS * k];
    }
  }

  /** Bits that do not fill the block wait. */
  lemma Wait<H>(compress: (H, seq<bool>) -> H, iv: H, msg: seq<bool>, more: seq<bool>)
    requires |Tail(msg)| + |more| < BLOCK_BITS
    ensures Hashed(compress, iv, msg + more) == Hashed(compress, iv, msg) && Tail(msg + more) == Tail(msg) + more
    ensures |msg + more| % BLOCK_BITS == |Tail(msg)| + |more| && |Tail(msg)| == |msg| % BLOCK_BITS
  {
    ChainPrefix(compress, iv, msg, more, |msg| / BLOCK_BITS);
  }

  /** Bits that fill the block are hashed. */
  lemma Fill<H>(compress: (H, seq<bool>) -> H, iv: H, msg: seq<bool>, more: seq<bool>)
    requires |Tail(msg)| + |more| == BLOCK_BITS
    ensures Hashed(compress, iv, msg + more) == compress(Hashed(compress, iv, msg), Tail(msg) + more)
    ensures Tail(msg + more) == [] && |msg + more| % BLOCK_BITS == 0 && |Tail(msg)| == |msg| % BLOCK_BITS
  {
    var k := |msg| / BLOCK_BITS;
    ChainPrefix(compress, iv, msg, more, k);
    assert (msg + more)[BLOCK_BITS * k..BLOCK_BITS * (k + 1)] == Tail(msg) + more;
  }

  // ---- big-endian counters ----

  ghost function Value(ls: seq<Octet>): nat
  {
    if ls == [] then 0 else 256 * Value(ls[..|ls| - 1]) + ls[|ls| - 1]
  }

  ghost function BigEndian(n: nat, w: nat): (r: seq<Octet>)
    ensures |r| == w
  {
    if w == 0 then [] else BigEndian(n / 256, w - 1) + [n % 256]
  }

  lemma {:induction false} ValueBytes(ls: seq<Octet>)
    ensures BigEndian(Value(ls), |ls|) == ls && Value(ls) < Pow256(|ls|)
  {
    if ls != [] { ValueBytes(ls[..|ls| - 1]); }
  }

  lemma {:induction false} ValueUpdate(ls: seq<Octet>, i: nat, y: Octet)
    requires i < |ls|
    ensures Value(ls[i := y]) == Value(ls) + (y - ls[i]) * Pow256(|ls| - 1 - i)
  {
    var n := |ls| - 1;
    var front := ls[..n];
    if i == n {
      assert ls[i := y][..n] == front;
    } else {
      assert ls[i := y][..n] == front[i := y];
      ValueUpdate(front, i, y);
      Scale(y - ls[i], Pow256(n - 1 - i));
    }
  }

  lemma Scale(d: int, p: nat)
    ensures 256 * (d * p) == d * (256 * p)
  {
  }

  lemma {:induction false} ValueZeros(ls: seq<Octet>)
    requires forall i :: 0 <= i < |ls| ==> ls[i] == 0
    ensures Value(ls) == 0
  {
    if ls != [] { ValueZeros(ls[..|ls| - 1]); }
  }

  /** `rest` has still to be added above the last `w` bytes to make the sum. */
  ghost predicate Owing(ls: seq<Octet>, rest: nat, w: nat, sum: nat)
  {
    Value(ls) + rest * Pow256(w) == sum
  }

  lemma OweLess(ls: seq<Octet>, i: nat, carry: nat, value: nat, sum: nat)
    requires i < |ls| && Owing(ls, carry + value, |ls| - 1 - i, sum)
    ensures var c := carry + ls[i] + value % 256;
      Owing(ls[i := c % 256], c / 256 + value / 256, |ls| - i, sum)
  {
    var p, was, c := Pow256(|ls| - 1 - i), ls[i], carry + ls[i] + value % 256;
    ValueUpdate(ls, i, c % 256);
    Carried(p, c % 256 - was, c / 256 + value / 256, carry + value);
  }

  lemma Carried(p: nat, stored: int, rest: nat, sum: nat)
    requires stored + 256 * rest == sum
    ensures stored * p + rest * (256 * p) == sum * p
  {
    Scale(rest, p);
  }

  /** With nothing left, or no byte left, the counter holds the sum, cut to its size. */
  lemma OweNothing(ls: seq<Octet>, rest: nat, w: nat, sum: nat)
    requires Owing(ls, rest, w, sum) && (w == |ls| || rest == 0)
    ensures Value(ls) == sum % Pow256(|ls|)
  {
    ValueBytes(ls);
    Residue(if w == |ls| then rest else 0, Value(ls), Pow256(|ls|));
  }

  // ---- what the buffer holds ----

  /** The first `upto` bits of the buffer are the waiting bits and zeros after them. */
  ghost predicate Holds(buf: seq<Octet>, waiting: seq<bool>, upto: nat)
  {
    && |buf| == BLOCK_BYTES && |waiting| <= upto <= BLOCK_BITS
    && forall i :: 0 <= i < upto ==> BitAt(buf, i) == (i < |waiting| && waiting[i])
  }

  /** Or-ing a shifted byte into the open slot appends its first `n` bits. */
  lemma OrHolds(buf: seq<Octet>, waiting: seq<bool>, b: Octet, n: nat)
    requires |waiting| < BLOCK_BITS && Holds(buf, waiting, 8 * (|waiting| / 8 + 1)) && |waiting| % 8 + n <= 8
    requires forall k :: n <= k < 8 - |waiting| % 8 ==> !Bit(b, k)
    ensures var pos, rem := |waiting| / 8, |waiting| % 8;
      Holds(buf[pos := Or(buf[pos], Shr(b, rem))], waiting + Span(b, 0, n), 8 * (pos + 1))
  {
    var pos, rem := |waiting| / 8, |waiting| % 8;
    var now, all := buf[pos := Or(buf[pos], Shr(b, rem))], waiting + Span(b, 0, n);
    forall i | 0 <= i < 8 * (pos + 1)
      ensures BitAt(now, i) == (i < |all| && all[i])
    {
      assert BitAt(buf, i) == (i < |waiting| && waiting[i]);
      if i / 8 == pos {
        OrBit(buf[pos], Shr(b, rem), i % 8);
        ShrBit(b, rem, i % 8);
      }
    }
  }

  /** Storing a shifted byte in the next slot appends its last bits. */
  lemma StoreHolds(buf: seq<Octet>, waiting: seq<bool>, b: Octet, rem: nat, n: nat)
    requires |waiting| < BLOCK_BITS && |waiting| % 8 == 0 && Holds(buf, waiting, |waiting|) && n <= rem < 8
    requires forall k :: 8 - rem + n <= k < 8 ==> !Bit(b, k)
    ensures Holds(buf[|waiting| / 8 := Shl(b, 8 - rem)], waiting + Span(b, 8 - rem, n), |waiting| + 8)
  {
    var pos := |waiting| / 8;
    var now, all := buf[pos := Shl(b, 8 - rem)], waiting + Span(b, 8 - rem, n);
    forall i | 0 <= i < |waiting| + 8
      ensures BitAt(now, i) == (i < |all| && all[i])
    {
      if i < |waiting| {
        assert BitAt(buf, i) == waiting[i];
      } else {
        ShlBit(b, 8 - rem, i % 8);
      }
    }
  }

  lemma ZeroHolds(buf: seq<Octet>, waiting: seq<bool>, j: nat)
    requires j < BLOCK_BYTES && Holds(buf, waiting, 8 * j)
    ensures Holds(buf[j := 0], waiting, 8 * (j + 1))
  {
    forall i | 0 <= i < 8 * (j + 1)
      ensures BitAt(buf[j := 0], i) == (i < |waiting| && waiting[i])
    {
      if i / 8 == j {
        ZeroBit(7 - i % 8);
      } else {
        assert BitAt(buf, i) == (i < |waiting| && waiting[i]);
      }
    }
  }

  /** A full buffer is the waiting bits and zeros. */
  lemma FullHolds(buf: seq<Octet>, waiting: seq<bool>)
    requires Holds(buf, waiting, BLOCK_BITS)
    ensures BitsOf(buf) == waiting + Zeros(BLOCK_BITS - |waiting|)
  {
    forall i | 0 <= i < BLOCK_BITS
      ensures BitsOf(buf)[i] == (waiting + Zeros(BLOCK_BITS - |waiting|))[i]
    {
      assert BitAt(buf, i) == (i < |waiting| && waiting[i]);
    }
  }

  // ---- the source ----

  /** The first byte of a source holds its bits right-justified. */
  function Gap(sourceBits: nat): (r: nat)
    ensures r < 8 && (r + sourceBits) % 8 == 0
  {
    (8 - sourceBits % 8) % 8
  }

  /** The bits of a source. */
  ghost function Stream(source: seq<Octet>, sourceBits: nat): (r: seq<bool>)
    requires Gap(sourceBits) + sourceBits <= 8 * |source|
    ensures |r| == sourceBits
  {
    seq(sourceBits, i requires 0 <= i < sourceBits => BitAt(source, Gap(sourceBits) + i))
  }

  /** A byte taken across two source bytes holds the next eight bits. */
  lemma TakenByte(source: seq<Octet>, sourceBits: nat, p: nat)
    requires Gap(sourceBits) + sourceBits <= 8 * |source| && 8 * p + 8 < sourceBits
    ensures var gap := Gap(sourceBits);
      Span(Or(Shl(source[p], gap), Shr(source[p + 1], 8 - gap)), 0, 8) == Stream(source, sourceBits)[8 * p..8 * p + 8]
  {
    var gap := Gap(sourceBits);
    var x, y := Shl(source[p], gap), Shr(source[p + 1], 8 - gap);
    var b, all := Or(x, y), Stream(source, sourceBits);
    forall k | 0 <= k < 8
      ensures Span(b, 0, 8)[k] == all[8 * p..8 * p + 8][k]
    {
      TakenBit(source, gap, p, k);
      assert all[8 * p + k] == BitAt(source, gap + k + 8 * p);
    }
  }

  lemma TakenBit(source: seq<Octet>, gap: nat, p: nat, k: nat)
    requires gap < 8 && p + 1 < |source| && k < 8
    ensures Bit(Or(Shl(source[p], gap), Shr(source[p + 1], 8 - gap)), k) == BitAt(source, gap + k + 8 * p)
  {
    OrBit(Shl(source[p], gap), Shr(source[p + 1], 8 - gap), k);
    ShlBit(source[p], gap, k);
    ShrBit(source[p + 1], 8 - gap, k);
    SlotOf(gap + k, p);
    hide Bit, Or, Shl, Shr;
    if gap + k < 8 {
      assert BitAt(source, gap + k + 8 * p) == Bit(source[p], gap + k);
    } else {
      assert BitAt(source, gap + k + 8 * p) == Bit(source[p + 1], gap + k - 8);
    }
  }

  lemma SlotOf(i: nat, p: nat)
    ensures (i + 8 * p) / 8 == i / 8 + p && (i + 8 * p) % 8 == i % 8
  {
  }

  /** The last bits, left-justified with zeros after them. */
  lemma LastByte(source: seq<Octet>, sourceBits: nat, p: nat)
    requires Gap(sourceBits) + sourceBits <= 8 * |source| && 8 * p < sourceBits <= 8 * p + 8
    ensures var b, n := Shl(source[p], Gap(sourceBits)), sourceBits - 8 * p;
      Span(b, 0, n) == Stream(source, sourceBits)[8 * p..] && Clear(b, n)
  {
    var gap, n := Gap(sourceBits), sourceBits - 8 * p;
    var b, all := Shl(source[p], gap), Stream(source, sourceBits);
    assert n == 8 - gap;
    forall k | 0 <= k < 8
      ensures k < n ==> Span(b, 0, n)[k] == all[8 * p..][k]
      ensures n <= k ==> !Bit(b, k)
    {
      ShlBit(source[p], gap, k);
      SlotOf(gap + k, p);
      if k < n { assert all[8 * p + k] == BitAt(source, gap + k + 8 * p); }
    }
  }

  // ---- the hasher ----

  class Hasher<H> {
    const compress: (H, seq<bool>) -> H
    const iv: H
    const buffer: array<Octet>
    const bitLength: array<Octet>
    var bufferBits: nat
    var bufferPos: nat
    var hash: H

    /** The bits fed so far. */
    ghost var msg: seq<bool>

    constructor (compress: (H, seq<bool>) -> H, iv: H)
      ensures Valid() && msg == [] && this.compress == compress && this.iv == iv && fresh(buffer) && fresh(bitLength)
    {
      this.compress, this.iv, hash := compress, iv, iv;
      bufferBits, bufferPos, msg := 0, 0, [];
      buffer := new Octet[BLOCK_BYTES];
      bitLength := new Octet[LENGTH_BYTES](_ => 0);
      new;
      buffer[0] := 0;
      ValueZeros(bitLength[..]);
      ZeroHolds(buffer[..], [], 0);
      assert buffer[..][0 := 0] == buffer[..];
    }

    /** Whole blocks are hashed and the other bits wait; the buffer is clean up to `upto`. */
    ghost predicate Loaded(upto: nat)
      reads this, buffer
    {
      && bufferBits == |msg| % BLOCK_BITS && bufferPos == bufferBits / 8
      && hash == Hashed(compress, iv, msg) && Holds(buffer[..], Tail(msg), upto)
    }

    ghost predicate Shaped()
    {
      buffer != bitLength && buffer.Length == BLOCK_BYTES && bitLength.Length == LENGTH_BYTES
    }

    ghost predicate Valid()
      reads this, buffer, bitLength
    {
      && Shaped() && Loaded(8 * (bufferPos + 1))
      && Value(bitLength[..]) == |msg| % Pow256(LENGTH_BYTES)
    }

    /** Adds a carry and the lowest byte of `value` to one byte of the length. */
    method AddByte(i: nat, carry: nat, value: nat, ghost sum: nat) returns (c: nat)
      requires i < bitLength.Length == LENGTH_BYTES && Owing(bitLength[..], carry + value, LENGTH_BYTES - 1 - i, sum)
      modifies bitLength
      ensures Owing(bitLength[..], c + value / 256, LENGTH_BYTES - i, sum)
    {
      c := carry + bitLength[i] + value % 256;
      OweLess(bitLength[..], i, carry, value, sum);
      hide Owing;
      ghost var now := bitLength[..][i := c % 256];
      bitLength[i] := c % 256;
      assert bitLength[..] == now;
      c := c / 256;
    }

    /** Adds to the 256-bit length, byte by byte from the end. */
    method Tally(sourceBits: nat)
      requires bitLength.Length == LENGTH_BYTES
      modifies bitLength
      ensures Value(bitLength[..]) == (Value(old(bitLength[..])) + sourceBits) % Pow256(LENGTH_BYTES)
    {
      var i: nat, carry: nat, value: nat := LENGTH_BYTES, 0, sourceBits;
      ghost var sum := Value(bitLength[..]) + sourceBits;
      assert Owing(bitLength[..], carry + value, LENGTH_BYTES - i, sum);
      hide Owing, Value, Pow256;
      while i > 0 && (carry != 0 || value != 0)
        invariant i <= LENGTH_BYTES && Owing(bitLength[..], carry + value, LENGTH_BYTES - i, sum)
      {
        i := i - 1;
        carry := AddByte(i, carry, value, sum);
        value := value / 256;
      }
      OweNothing(bitLength[..], carry + value, LENGTH_BYTES - i, sum);
    }

    method ProcessBuffer()
      requires buffer.Length == BLOCK_BYTES
      modifies this`hash
      ensures hash == compress(old(hash), BitsOf(buffer[..]))
    {
      hash := compress(hash, BitsOf(buffer[..]));
    }

    /** Completes the open slot with the first bits of `b`, and hashes a full block. */
    method CompleteByte(b: Octet, rem: nat)
      requires Shaped() && Loaded(8 * (bufferPos + 1)) && rem == bufferBits % 8
      modifies this, buffer
      ensures msg == old(msg) + Span(b, 0, 8 - rem) && Loaded(bufferBits) && bufferBits % 8 == 0
    {
      ghost var more := Span(b, 0, 8 - rem);
      OrHolds(buffer[..], Tail(msg), b, 8 - rem);
      if |Tail(msg)| + |more| < BLOCK_BITS {
        Wait(compress, iv, msg, more);
      } else {
        Fill(compress, iv, msg, more);
      }
      ghost var now := buffer[..][bufferPos := Or(buffer[bufferPos], Shr(b, rem))];
      buffer[bufferPos] := Or(buffer[bufferPos], Shr(b, rem));
      assert buffer[..] == now;
      bufferPos := bufferPos + 1;
      bufferBits := bufferBits + 8 - rem;
      if bufferBits == BLOCK_BITS {
        FullHolds(buffer[..], Tail(msg) + more);
        assert Tail(msg) + more + Zeros(0) == Tail(msg) + more;
        ProcessBuffer();
        bufferBits, bufferPos := 0, 0;
      }
      msg := msg + more;
    }

    /** Opens the next slot with `n` of the last bits of `b`. */
    method OpenByte(b: Octet, rem: nat, n: nat)
      requires Shaped() && Loaded(bufferBits) && bufferBits % 8 == 0 && n <= rem < 8
      requires Clear(b, 8 - rem + n)
      modifies this, buffer
      ensures msg == old(msg) + Span(b, 8 - rem, n) && Loaded(8 * (bufferPos + 1)) && bufferBits == old(bufferBits) + n
    {
      StoreHolds(buffer[..], Tail(msg), b, rem, n);
      Wait(compress, iv, msg, Span(b, 8 - rem, n));
      ghost var now := buffer[..][bufferPos := Shl(b, 8 - rem)];
      buffer[bufferPos] := Shl(b, 8 - rem);
      assert buffer[..] == now;
      bufferBits := bufferBits + n;
      msg := msg + Span(b, 8 - rem, n);
    }

    /** Adds bits that leave room in the open slot. */
    method ExtendByte(b: Octet, rem: nat, n: nat)
      requires Shaped() && Loaded(8 * (bufferPos + 1)) && rem == bufferBits % 8 && rem + n < 8
      requires Clear(b, n)
      modifies this, buffer
      ensures msg == old(msg) + Span(b, 0, n) && Loaded(8 * (bufferPos + 1)) && bufferBits == old(bufferBits) + n
    {
      OrHolds(buffer[..], Tail(msg), b, n);
      Wait(compress, iv, msg, Span(b, 0, n));
      ghost var now := buffer[..][bufferPos := Or(buffer[bufferPos], Shr(b, rem))];
      buffer[bufferPos] := Or(buffer[bufferPos], Shr(b, rem));
      assert buffer[..] == now;
      bufferBits := bufferBits + n;
      msg := msg + Span(b, 0, n);
    }

    /** Takes `n` left-justified bits. */
    method PutBits(b: Octet, rem: nat, n: nat)
      requires Shaped() && Loaded(8 * (bufferPos + 1)) && rem == bufferBits % 8 && n <= 8
      requires Clear(b, n)
      modifies this, buffer
      ensures msg == old(msg) + Span(b, 0, n) && Loaded(8 * (bufferPos + 1)) 
      ensures bufferBits % 8 == if rem + n < 8 then rem + n else rem + n - 8
    {
      hide Hasher.Loaded, Clear, Span, Bit;
      if rem + n < 8 {
        SameSlot(bufferBits, n);
        ExtendByte(b, rem, n);
      } else {
        CompleteByte(b, rem);
        SameSlot(bufferBits, n - (8 - rem));
        OpenByte(b, rem, n - (8 - rem));
        SpanSplit(b, 8 - rem, n - (8 - rem));
      }
    }

    /** Feeds the hasher: the message grows by exactly the bits of the source. */
    method Add(source: seq<Octet>, sourceBits: nat)
      requires Valid() && Gap(sourceBits) + sourceBits <= 8 * |source|
      modifies this, buffer, bitLength
      ensures Valid() && msg == old(msg) + Stream(source, sourceBits)
    {
      hide Pow256, Value, Hasher.Loaded, Stream, Gap;
      Tally(sourceBits);
      Modulo(|msg|, sourceBits, Pow256(LENGTH_BYTES));
      Absorb(source, sourceBits);
    }

    /** Takes eight bits from the source, across two of its bytes. */
    method TakeByte(source: seq<Octet>, sourceBits: nat, sourcePos: nat, rem: nat)
      requires Shaped() && Loaded(8 * (bufferPos + 1)) && rem == bufferBits % 8
      requires Gap(sourceBits) + sourceBits <= 8 * |source| && 8 * sourcePos + 8 < sourceBits
      modifies this, buffer
      ensures Loaded(8 * (bufferPos + 1)) && rem == bufferBits % 8
      ensures msg == old(msg) + Stream(source, sourceBits)[8 * sourcePos..8 * sourcePos + 8]
    {
      TakenByte(source, sourceBits, sourcePos);
      hide Hasher.Loaded, Bit, Shl, Shr, Or, Stream;
      var gap := Gap(sourceBits);
      PutBits(Or(Shl(source[sourcePos], gap), Shr(source[sourcePos + 1], 8 - gap)), rem, 8);
    }

    /** Takes the last bits of the source. */
    method TakeRest(source: seq<Octet>, sourceBits: nat, sourcePos: nat, rem: nat)
      requires Shaped() && Loaded(8 * (bufferPos + 1)) && rem == bufferBits % 8
      requires Gap(sourceBits) + sourceBits <= 8 * |source| && 8 * sourcePos < sourceBits <= 8 * sourcePos + 8
      modifies this, buffer
      ensures Loaded(8 * (bufferPos + 1)) && msg == old(msg) + Stream(source, sourceBits)[8 * sourcePos..]
    {
      LastByte(source, sourceBits, sourcePos);
      hide Hasher.Loaded, Bit, Clear, Shl, Stream;
      PutBits(Shl(source[sourcePos], Gap(sourceBits)), rem, sourceBits - 8 * sourcePos);
    }

    method Absorb(source: seq<Octet>, sourceBits: nat)
      requires Shaped() && Loaded(8 * (bufferPos + 1)) && Gap(sourceBits) + sourceBits <= 8 * |source|
      modifies this, buffer
      ensures Loaded(8 * (bufferPos + 1)) && msg == old(msg) + Stream(source, sourceBits)
    {
      var sourcePos, left, rem := 0, sourceBits, bufferBits % 8;
      ghost var all := Stream(source, sourceBits);
      hide Hasher.Loaded, Stream, Gap;
      while left > 8
        invariant Loaded(8 * (bufferPos + 1)) && bufferBits % 8 == rem
        invariant left == sourceBits - 8 * sourcePos && (left > 0 || sourceBits == 0)
        invariant msg == old(msg) + all[..8 * sourcePos]
      {
        TakeByte(source, sourceBits, sourcePos, rem);
        Longer(old(msg), all, 8 * sourcePos, 8 * sourcePos + 8);
        left := left - 8;
        sourcePos := sourcePos + 1;
      }
      if left > 0 {
        TakeRest(source, sourceBits, sourcePos, rem);
      }
      Longer(old(msg), all, 8 * sourcePos, |all|);
    }

    /** Clears the buffer from byte `from` to byte `upto`. */
    method ZeroFill(from: nat, upto: nat, ghost waiting: seq<bool>)
      requires from <= upto <= BLOCK_BYTES && Holds(buffer[..], waiting, 8 * from)
      modifies buffer
      ensures Holds(buffer[..], waiting, 8 * upto)
    {
      for j := from to upto
        invariant Holds(buffer[..], waiting, 8 * j)
      {
        ZeroHolds(buffer[..], waiting, j);
        ghost var now := buffer[..][j := 0];
        buffer[j] := 0;
        assert buffer[..] == now;
      }
    }

    /** Puts the length in the last 32 bytes. */
    method CopyLength(ghost waiting: seq<bool>)
      requires Shaped() && Holds(buffer[..], waiting, 256)
      modifies buffer
      ensures BitsOf(buffer[..]) == waiting + Zeros(256 - |waiting|) + BitsOf(bitLength[..])
    {
      ghost var before := buffer[..];
      forall i | 0 <= i < LENGTH_BYTES {
        buffer[BLOCK_BYTES - LENGTH_BYTES + i] := bitLength[i];
      }
      assert buffer[..] == before[..32] + bitLength[..];
      HalfAndHalf(before, bitLength[..], waiting);
    }

    /** Appends the one bit and closes the slot. */
    method MarkEnd()
      requires Shaped() && Loaded(8 * (bufferPos + 1))
      modifies buffer
      ensures Holds(buffer[..], Tail(msg) + [true], 8 * (bufferPos + 1)) && hash == Hashed(compress, iv, msg)
      ensures bufferPos == |msg| % BLOCK_BITS / 8 < BLOCK_BYTES
    {
      MarkBits();
      OrHolds(buffer[..], Tail(msg), 0x80, 1);
      ghost var now := buffer[..][bufferPos := Or(buffer[bufferPos], Shr(0x80, bufferBits % 8))];
      buffer[bufferPos] := Or(buffer[bufferPos], Shr(0x80, bufferBits % 8));
      assert buffer[..] == now;
    }

    /** Hashes the waiting bits with zeros after them. */
    method CloseBlock(from: nat, ghost waiting: seq<bool>)
      requires from <= BLOCK_BYTES && Holds(buffer[..], waiting, 8 * from)
      modifies this`hash, buffer
      ensures |waiting| <= BLOCK_BITS && Holds(buffer[..], [], 0)
      ensures hash == compress(old(hash), waiting + Zeros(BLOCK_BITS - |waiting|))
    {
      ZeroFill(from, BLOCK_BYTES, waiting);
      FullHolds(buffer[..], waiting);
      ProcessBuffer();
    }

    /** Hashes the waiting bits, zeros, and the length. */
    method LengthBlock(from: nat, ghost waiting: seq<bool>)
      requires Shaped() && from <= BLOCK_BYTES - LENGTH_BYTES && Holds(buffer[..], waiting, 8 * from)
      modifies this`hash, buffer
      ensures hash == compress(old(hash), waiting + Zeros(256 - |waiting|) + BitsOf(bitLength[..]))
    {
      ZeroFill(from, BLOCK_BYTES - LENGTH_BYTES, waiting);
      CopyLength(waiting);
      ProcessBuffer();
    }

    /** Ends the message: the result is the hash of its padded form. */
    method Finalize() returns (digest: H)
      requires Valid()
      modifies this, buffer
      ensures digest == Digest(compress, iv, old(msg))
    {
      hide Holds, Value, Pow256, LengthBits, Digest, Hashed, BitsOf, Zeros, Tail, Hasher.Loaded;
      LengthRead(bitLength[..], msg);
      MarkEnd();
      bufferPos := bufferPos + 1;
      if bufferPos > BLOCK_BYTES - LENGTH_BYTES {
        PadTwo(compress, iv, msg);
        CloseBlock(bufferPos, Tail(msg) + [true]);
        bufferPos := 0;
        LengthBlock(bufferPos, []);
      } else {
        PadOne(compress, iv, msg);
        LengthBlock(bufferPos, Tail(msg) + [true]);
      }
      bufferPos := BLOCK_BYTES - LENGTH_BYTES;
      digest := hash;
    }
  }

  lemma Longer(was: seq<bool>, all: seq<bool>, i: nat, j: nat)
    requires i <= j <= |all|
    ensures was + all[..i] + all[i..j] == was + all[..j] && all[..|all|] == all && all[i..|all|] == all[i..]
  {
    assert all[..i] + all[i..j] == all[..j];
  }

  lemma MarkBits()
    ensures Span(0x80, 0, 1) == [true] && Clear(0x80, 1)
  {
    forall k | 0 <= k < 8
      ensures Bit(0x80, k) <==> k == 0
    {
      assert Pow2(7) == 128 by { assert Pow2(4) == 16; }
      if k == 0 {
        assert Low(128, 7) by { assert Low(16, 4); }
      } else {
        TopAdded(0, 7, 7 - k);
        ZeroBit(7 - k);
      }
    }
  }

  lemma HalfAndHalf(before: seq<Octet>, length: seq<Octet>, waiting: seq<bool>)
    requires Holds(before, waiting, 256) && |length| == LENGTH_BYTES
    ensures BitsOf(before[..32] + length) == waiting + Zeros(256 - |waiting|) + BitsOf(length)
  {
    var now := before[..32] + length;
    forall i | 0 <= i < BLOCK_BITS
      ensures BitsOf(now)[i] == (waiting + Zeros(256 - |waiting|) + BitsOf(length))[i]
    {
      if i < 256 {
        assert BitAt(before, i) == (i < |waiting| && waiting[i]);
      } else {
        SlotOf(i - 256, 32);
      }
    }
  }

  /** A short last block takes all the padding. */
  lemma PadOne<H>(compress: (H, seq<bool>) -> H, iv: H, msg: seq<bool>)
    requires |msg| % BLOCK_BITS < 256
    ensures var waiting := Tail(msg) + [true];
      && |waiting| <= 256
      && Digest(compress, iv, msg)
         == compress(Hashed(compress, iv, msg), waiting + Zeros(256 - |waiting|) + LengthBits(msg))
  {
    hide LengthBits, Zeros;
    PadSize(|msg|);
    var z, l := Zeros(255 - |msg| % BLOCK_BITS), LengthBits(msg);
    var more := [true] + z + l;
    assert Padded(msg) == msg + more;
    Fill(compress, iv, msg, more);
    assert Tail(msg) + more == Tail(msg) + [true] + z + l;
  }

  lemma PadSize(n: nat)
    ensures (255 - n) % BLOCK_BITS == if n % BLOCK_BITS < 256 then 255 - n % BLOCK_BITS else 767 - n % BLOCK_BITS
  {
  }

  lemma ZerosSplit(n: nat, m: nat)
    ensures Zeros(n + m) == Zeros(n) + Zeros(m)
  {
  }

  /** A longer one is closed with zeros and the length goes into a block of its own. */
  lemma PadTwo<H>(compress: (H, seq<bool>) -> H, iv: H, msg: seq<bool>)
    requires |msg| % BLOCK_BITS >= 256
    ensures var waiting := Tail(msg) + [true];
      && |waiting| <= BLOCK_BITS
      && Digest(compress, iv, msg)
         == compress(compress(Hashed(compress, iv, msg), waiting + Zeros(BLOCK_BITS - |waiting|)), [] + Zeros(256) + LengthBits(msg))
  {
    hide LengthBits, Zeros;
    var rem, l := |msg| % BLOCK_BITS, LengthBits(msg);
    PadSize(|msg|);
    ZerosSplit(511 - rem, 256);
    var a, b := Zeros(511 - rem), Zeros(256);
    assert Padded(msg) == msg + ([true] + a) + (b + l);
    Fill(compress, iv, msg, [true] + a);
    Fill(compress, iv, msg + ([true] + a), b + l);
    assert Tail(msg) + ([true] + a) == Tail(msg) + [true] + a;
    assert [] + (b + l) == [] + b + l;
  }

  lemma LengthRead(ls: seq<Octet>, msg: seq<bool>)
    requires |ls| == LENGTH_BYTES && Value(ls) == |msg| % Pow256(LENGTH_BYTES)
    ensures BitsOf(ls) == LengthBits(msg)
  {
    ValueBytes(ls);
  }

  // ---- pieces ----

  /** All the bits of a list of pieces. */
  ghost function Fed(pieces: seq<(seq<Octet>, nat)>, n: nat): seq<bool>
    requires n <= |pieces| && PiecesOk(pieces)
  {
    if n == 0 then [] else Fed(pieces, n - 1) + Stream(pieces[n - 1].0, pieces[n - 1].1)
  }

  ghost predicate PiecesOk(pieces: seq<(seq<Octet>, nat)>)
  {
    forall i :: 0 <= i < |pieces| ==> Gap(pieces[i].1) + pieces[i].1 <= 8 * |pieces[i].0|
  }

  /** However the bits are cut into pieces, the digest is that of the whole bit string. */
  method HashPieces<H>(compress: (H, seq<bool>) -> H, iv: H, pieces: seq<(seq<Octet>, nat)>) returns (digest: H)
    requires PiecesOk(pieces)
    ensures digest == Digest(compress, iv, Fed(pieces, |pieces|))
  {
    hide Digest, Stream, Gap, Hasher.Loaded, Value, Pow256;
    var w := new Hasher(compress, iv);
    for n := 0 to |pieces|
      invariant w.Valid() && w.msg == Fed(pieces, n) && fresh(w) && fresh(w.buffer) && fresh(w.bitLength)
    {
      w.Add(pieces[n].0, pieces[n].1);
    }
    digest := w.Finalize();
  }

  lemma SameSlot(i: nat, n: nat)
    requires i % 8 + n < 8
    ensures (i + n) % 8 == i % 8 + n && (i + n) / 8 == i / 8
  {
  }

  lemma Scaled(d: int, e: int, m: int)
    requires d * m == e && -m < e < m
    ensures d == 0
  {
    assert d > 0 ==> (d - 1) * m >= 0;
    assert d < 0 ==> (-d - 1) * m >= 0;
  }

  /** The remainder is the one number below `m` that differs by a multiple. */
  lemma Residue(q: nat, r: nat, m: nat)
    requires r < m
    ensures (r + q * m) % m == r
  {
    var q', r' := (r + q * m) / m, (r + q * m) % m;
    assert r + q * m == r' + q' * m;
    Scaled(q - q', r' - r, m);
  }

  lemma Modulo(a: nat, b: nat, m: nat)
    requires m > 0
    ensures (a % m + b) % m == (a + b) % m
  {
    var s := a % m + b;
    assert a + b == s % m + (s / m + a / m) * m;
    Residue(s / m + a / m, s % m, m);
  }
}
