/** Binary keys and the order in which the proxy compares them. */
module Keys {
  newtype Byte = n: int | 0 <= n < 256

  type Key = seq<Byte>

  /** Lexicographic order on byte strings, the reference for `KeyCmp`. */
  predicate Below(a: Key, b: Key)
  {
    b != [] && (a == [] || a[0] < b[0] || (a[0] == b[0] && Below(a[1..], b[1..])))
  }

  predicate AtMost(a: Key, b: Key)
  {
    a == b || Below(a, b)
  }

  /** The C library's memcmp on the first `n` bytes. */
  function MemCmp(a: Key, b: Key, n: nat): (r: int)
    requires n <= |a| && n <= |b|
    decreases n
  {
    if n == 0 then 0
    else if a[0] < b[0] then -1
    else if a[0] > b[0] then 1
    else MemCmp(a[1..], b[1..], n - 1)
  }

  function Min(a: nat, b: nat): nat { if a < b then a else b }

  /** Compares the common prefix, then the lengths. */
  function KeyCmp(a: Key, b: Key): (r: int)
  {
    var r := MemCmp(a, b, Min(|a|, |b|));
    if r == 0 then
      if |a| == |b| then 0 else if |a| < |b| then -1 else 1
    else r
  }

  lemma {:induction false} KeyCmpIsLexicographic(a: Key, b: Key)
    ensures KeyCmp(a, b) < 0 <==> Below(a, b)
    ensures KeyCmp(a, b) == 0 <==> a == b
    ensures KeyCmp(a, b) > 0 <==> Below(b, a)
  {
    if a == [] || b == [] || a[0] != b[0] {
    } else {
      KeyCmpIsLexicographic(a[1..], b[1..]);
      assert a == [a[0]] + a[1..] && b == [b[0]] + b[1..];
      assert Min(|a|, |b|) == Min(|a[1..]|, |b[1..]|) + 1;
    }
  }

  lemma {:induction false} BelowIrreflexive(a: Key)
    ensures !Below(a, a)
  {
    if a != [] { BelowIrreflexive(a[1..]); }
  }

  lemma {:induction false} BelowTransitive(a: Key, b: Key, c: Key)
    requires Below(a, b) && Below(b, c)
    ensures Below(a, c)
  {
    if a != [] && a[0] == b[0] == c[0] { BelowTransitive(a[1..], b[1..], c[1..]); }
  }

  lemma {:induction false} BelowTotal(a: Key, b: Key)
    ensures Below(a, b) || a == b || Below(b, a)
    ensures !(Below(a, b) && Below(b, a))
    ensures a == b ==> !Below(a, b)
  {
    KeyCmpIsLexicographic(a, b);
  }
}
