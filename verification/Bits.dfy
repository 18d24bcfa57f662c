/** Shifts and bits of bytes, most significant bit first. */
module Bits {
  import opened Radix

  type Octet = x: int | 0 <= x < 256

  /** The bit of weight 2 to the power `i`. */
  predicate Low(x: nat, i: nat)
  {
    if i == 0 then x % 2 == 1 else Low(x / 2, i - 1)
  }

  /** Bit `k` of a byte, counted from the top. */
  predicate Bit(x: Octet, k: nat)
    requires k < 8
  {
    Low(x, 7 - k)
  }

  /** A left shift within a byte. */
  function Shl(x: Octet, n: nat): Octet
    decreases n
  {
    if n == 0 then x else Shl(2 * x % 256, n - 1)
  }

  /** A right shift. */
  function Shr(x: Octet, n: nat): Octet
  {
    if n == 0 then x else Shr(x / 2, n - 1)
  }

  /** Bitwise or of the lowest `w` bits. */
  function OrLow(x: nat, y: nat, w: nat): nat
  {
    if w == 0 then 0 else 2 * OrLow(x / 2, y / 2, w - 1) + if x % 2 == 1 || y % 2 == 1 then 1 else 0
  }

  lemma {:induction false} OrLowBit(x: nat, y: nat, w: nat, i: nat)
    ensures Low(OrLow(x, y, w), i) <==> i < w && (Low(x, i) || Low(y, i))
    decreases w, i
  {
    if w == 0 {
      ZeroBit(i);
    } else if i > 0 {
      OrLowBit(x / 2, y / 2, w - 1, i - 1);
    }
  }

  lemma {:induction false} ZeroBit(i: nat)
    ensures !Low(0, i)
  {
    if i > 0 { ZeroBit(i - 1); }
  }

  lemma {:induction false} OrLowBound(x: nat, y: nat, w: nat)
    ensures OrLow(x, y, w) < Pow2(w)
  {
    if w > 0 { OrLowBound(x / 2, y / 2, w - 1); }
  }

  /** Bitwise or. */
  function Or(x: Octet, y: Octet): Octet
  {
    OrLowBound(x, y, 8);
    assert Pow2(8) == 256 by { assert Pow2(4) == 16; }
    OrLow(x, y, 8)
  }

  /** A higher bit does not show in the lower ones. */
  lemma {:induction false} TopAdded(x: nat, m: nat, i: nat)
    requires i < m
    ensures Low(x + Pow2(m), i) == Low(x, i)
  {
    if i > 0 { TopAdded(x / 2, m - 1, i - 1); }
  }

  lemma ShlOnce(x: Octet, i: nat)
    requires i < 7
    ensures Low(2 * x % 256, i + 1) == Low(x, i)
  {
    var y := 2 * x % 256;
    assert Low(y, i + 1) == Low(y / 2, i);
    assert Pow2(7) == 128 by { assert Pow2(4) == 16; }
    if x >= 128 {
      TopAdded(x - 128, 7, i);
      assert y == 2 * (x - 128);
    } else {
      assert y == 2 * x;
    }
  }

  lemma {:induction false} ShlLow(x: Octet, n: nat, i: nat)
    requires i < 8
    ensures Low(Shl(x, n), i) <==> i >= n && Low(x, i - n)
    decreases n
  {
    if n > 0 {
      var y: Octet := 2 * x % 256;
      ShlLow(y, n - 1, i);
      if i >= n {
        ShlOnce(x, i - n);
      } else if i == n - 1 {
        assert y % 2 == 0;
      }
    }
  }

  lemma {:induction false} ShrLow(x: Octet, n: nat, i: nat)
    ensures Low(Shr(x, n), i) <==> Low(x, i + n)
  {
    if n > 0 { ShrLow(x / 2, n - 1, i); }
  }

  lemma {:induction false} HighBit(x: nat, m: nat, i: nat)
    requires x < Pow2(m) && m <= i
    ensures !Low(x, i)
  {
    if m == 0 {
      ZeroBit(i);
    } else {
      HighBit(x / 2, m - 1, i - 1);
    }
  }

  // ---- the three operations, bit by bit ----

  lemma ShlBit(x: Octet, n: nat, k: nat)
    requires k < 8
    ensures Bit(Shl(x, n), k) <==> k + n < 8 && Bit(x, k + n)
  {
    ShlLow(x, n, 7 - k);
  }

  lemma ShrBit(x: Octet, n: nat, k: nat)
    requires k < 8
    ensures Bit(Shr(x, n), k) <==> k >= n && Bit(x, k - n)
  {
    assert Pow2(8) == 256 by { assert Pow2(4) == 16; }
    ShrLow(x, n, 7 - k);
    if k < n { HighBit(x, 8, 7 - k + n); }
  }

  lemma OrBit(x: Octet, y: Octet, k: nat)
    requires k < 8
    ensures Bit(Or(x, y), k) <==> Bit(x, k) || Bit(y, k)
  {
    OrLowBit(x, y, 8, 7 - k);
  }
}
