/** Keys as file names, and keys as hexadecimal text. */
module Escape {
  import opened Keys
  import opened Wrappers

  type Name = seq<Byte>

  const PERCENT: Byte := 37

  // ---- hexadecimal digits ----

  function HexDigit(n: nat): Byte
    requires n < 16
  {
    if n < 10 then (48 + n) as Byte else (55 + n) as Byte
  }

  /** The value of a digit; 0 for anything else. */
  function HexValue(c: Byte): (r: nat)
    ensures r < 16
  {
    if 48 <= c <= 57 then c as nat - 48
    else if 65 <= c <= 70 then c as nat - 55
    else if 97 <= c <= 102 then c as nat - 87
    else 0
  }

  predicate IsHex(c: Byte) { HexValue(c) != 0 || c == 48 }

  lemma HexRoundTrip(n: nat)
    requires n < 16
    ensures IsHex(HexDigit(n)) && HexValue(HexDigit(n)) == n && HexDigit(n) != 0
  {
  }

  /** The two digits of a byte. */
  function Digits(c: Byte): Name
  {
    [HexDigit(c as nat / 16), HexDigit(c as nat % 16)]
  }

  function FromDigits(a: Byte, b: Byte): Byte
  {
    (HexValue(a) * 16 + HexValue(b)) as Byte
  }

  lemma DigitsRoundTrip(c: Byte)
    ensures var d := Digits(c); IsHex(d[0]) && IsHex(d[1]) && FromDigits(d[0], d[1]) == c
  {
    HexRoundTrip(c as nat / 16);
    HexRoundTrip(c as nat % 16);
  }

  // ---- file names ----

  /** The bytes that stand for themselves. */
  predicate Plain(c: Byte)
  {
    || c == 35 || 43 <= c <= 45 || 48 <= c <= 57 || 59 <= c <= 62 || 64 <= c <= 91 || 93 <= c <= 94 || 97 <= c <= 126
  }

  function EscapeByte(c: Byte): Name { if Plain(c) then [c] else [PERCENT] + Digits(c) }

  /** Digits are upper-case; letters, digits and a few signs stand for themselves, and everything else is escaped. */
  lemma Signs(c: Byte)
    ensures forall n: nat :: n < 16 ==> HexDigit(n) as int == "0123456789ABCDEF"[n] as int
    ensures Plain(c) <==>
      || 'a' as int <= c as int <= 'z' as int || '@' as int <= c as int <= 'Z' as int || '0' as int <= c as int <= '9' as int
      || exists i :: 0 <= i < |"#+,-;<=>[]^{|}~"| && "#+,-;<=>[]^{|}~"[i] as int == c as int
    ensures EscapeByte(0x2F) == [0x25, 0x32, 0x46]
    ensures HexValue('A' as int as Byte) == HexValue('a' as int as Byte) == 10 && HexValue('F' as int as Byte) == HexValue('f' as int as Byte) == 15
  {
    var signs := "#+,-;<=>[]^{|}~";
    assert |signs| == 15;
    assert signs[0] as int == 35 && signs[1] as int == 43 && signs[2] as int == 44 && signs[3] as int == 45 && signs[4] as int == 59;
    assert signs[5] as int == 60 && signs[6] as int == 61 && signs[7] as int == 62 && signs[8] as int == 91 && signs[9] as int == 93;
    assert signs[10] as int == 94 && signs[11] as int == 123 && signs[12] as int == 124 && signs[13] as int == 125 && signs[14] as int == 126;
  }

  /** The name of the first `n` bytes of a key. */
  function Escaped(key: Key, n: nat): Name
    requires n <= |key|
  {
    if n == 0 then [] else Escaped(key, n - 1) + EscapeByte(key[n - 1])
  }

  /** Writes the name of a key, as much as leaves five bytes free. */
  method KeyEscape(space: nat, key: Key) returns (name: Name)
    requires space >= 6
    ensures exists n :: 0 <= n <= |key| && name == Escaped(key, n) && (n < |key| ==> |name| >= space - 5)
    ensures |name| < space
    ensures 3 * |key| <= space - 3 ==> name == Escaped(key, |key|)
  {
    name := [];
    var i := 0;
    while i < |key| && space - |name| - 5 > 0
      invariant i <= |key| && name == Escaped(key, i) && |name| <= 3 * i && |name| < space - 2
    {
      var c := key[i];
      assert Escaped(key, i + 1) == name + EscapeByte(c);
      hide Plain, HexDigit;
      if !Plain(c) {
        name := name + [PERCENT];
        name := name + [HexDigit(c as nat / 16)];
        name := name + [HexDigit(c as nat % 16)];
      } else {
        name := name + [c];
      }
      i := i + 1;
    }
  }

  /** The key that a name stands for, read from position `i` on; none for a broken escape. */
  function Unescaped(name: Name, i: nat): Option<Key>
    requires i <= |name|
    decreases |name| - i
  {
    if i == |name| then Some([])
    else if name[i] != PERCENT then
      var rest := Unescaped(name, i + 1);
      if rest.None? then None else Some([name[i]] + rest.value)
    else if i + 3 > |name| || !IsHex(name[i + 1]) || !IsHex(name[i + 2]) then None
    else
      var rest := Unescaped(name, i + 3);
      if rest.None? then None else Some([FromDigits(name[i + 1], name[i + 2])] + rest.value)
  }

  /** `k` and then the rest of the name make up the whole key. */
  ghost predicate ReadSoFar(name: Name, i: nat, k: Key)
    requires i <= |name|
  {
    match Unescaped(name, i)
    case None => Unescaped(name, 0).None?
    case Some(rest) => Unescaped(name, 0) == Some(k + rest)
  }

  lemma ReadOne(name: Name, i: nat, k: Key)
    requires i < |name| && ReadSoFar(name, i, k)
    ensures name[i] != PERCENT ==> ReadSoFar(name, i + 1, k + [name[i]])
    ensures name[i] == PERCENT && i + 3 <= |name| && IsHex(name[i + 1]) && IsHex(name[i + 2]) ==>
      ReadSoFar(name, i + 3, k + [FromDigits(name[i + 1], name[i + 2])])
  {
    forall c, rest: Key
      ensures k + ([c] + rest) == k + [c] + rest
    {
    }
  }

  /** Reads a name back; a key that does not leave the last byte free is refused. */
  method KeyUnescape(name: Name, space: nat) returns (key: Option<Key>)
    requires space > 0
    ensures key == match Unescaped(name, 0)
                   case None => None
                   case Some(k) => if |k| < space then Some(k) else None
  {
    var k: Key, i := [], 0;
    assert forall rest: Key :: [] + rest == rest;
    while i < |name|
      invariant i <= |name| && |k| < space && ReadSoFar(name, i, k)
      decreases |name| - i
    {
      ReadOne(name, i, k);
      var c := name[i];
      if c == PERCENT {
        if i + 3 > |name| || !IsHex(name[i + 1]) || !IsHex(name[i + 2]) {
          return None;
        }
        c := FromDigits(name[i + 1], name[i + 2]);
        i := i + 3;
      } else {
        i := i + 1;
      }
      k := k + [c];
      if |k| == space {
        return None;
      }
    }
    assert k + [] == k;
    key := Some(k);
  }

  // ---- there and back ----

  lemma {:induction false} ReadEscaped(key: Key, m: nat, more: Name, rest: Key)
    requires m <= |key| && Unescaped(more, 0) == Some(rest)
    ensures Unescaped(Escaped(key, m) + more, 0) == Some(key[..m] + rest)
  {
    hide Unescaped, EscapeByte;
    if m == 0 {
      assert Escaped(key, 0) + more == more && key[..0] + rest == rest;
    } else {
      var c := key[m - 1];
      ReadByte(c, more);
      ReadEscaped(key, m - 1, EscapeByte(c) + more, [c] + rest);
      assert Escaped(key, m) + more == Escaped(key, m - 1) + (EscapeByte(c) + more);
      assert key[..m] + rest == key[..m - 1] + ([c] + rest);
    }
  }

  lemma {:induction false} Shifted(front: Name, name: Name, i: nat)
    requires i <= |name|
    ensures Unescaped(front + name, |front| + i) == Unescaped(name, i)
    decreases |name| - i
  {
    if i < |name| {
      Shifted(front, name, i + 1);
      if i + 3 <= |name| { Shifted(front, name, i + 3); }
    }
  }

  lemma ReadByte(c: Byte, more: Name)
    requires Unescaped(more, 0).Some?
    ensures Unescaped(EscapeByte(c) + more, 0) == Some([c] + Unescaped(more, 0).value)
  {
    var e := EscapeByte(c);
    Shifted(e, more, 0);
    if Plain(c) {
      assert (e + more)[0] == c;
    } else {
      DigitsRoundTrip(c);
      assert e + more == [PERCENT] + Digits(c) + more;
    }
  }

  /** A byte other than a percent sign is read as it is. */
  lemma UnescapePlain(c: Byte, more: Name)
    requires c != 0x25
    ensures var rest := Unescaped(more, 0);
      Unescaped([c] + more, 0) == if rest.None? then None else Some([c] + rest.value)
    ensures Unescaped([], 0) == Some([])
  {
    Shifted([c], more, 0);
  }

  /** Two digits after a percent sign are read as their byte, and nothing else can be there. */
  lemma UnescapeCode(a: Byte, b: Byte, more: Name)
    ensures var rest := Unescaped(more, 0);
      Unescaped([0x25] + [a, b] + more, 0) ==
        if IsHex(a) && IsHex(b) && rest.Some? then Some([FromDigits(a, b)] + rest.value) else None
    ensures |more| < 2 ==> Unescaped([0x25] + more, 0) == None
  {
    Shifted([0x25] + [a, b], more, 0);
    hide IsHex, FromDigits;
    var name := [0x25] + [a, b] + more;
    assert name[0] == 0x25 && name[1] == a && name[2] == b;
  }

  /** Reading a name back gives the key. */
  lemma UnescapeInverts(key: Key)
    ensures Unescaped(Escaped(key, |key|), 0) == Some(key)
  {
    ReadEscaped(key, |key|, [], []);
    assert Escaped(key, |key|) + [] == Escaped(key, |key|) && key[..|key|] + [] == key;
  }

  /** Different keys have different names. */
  lemma NamesDiffer(k1: Key, k2: Key)
    requires Escaped(k1, |k1|) == Escaped(k2, |k2|)
    ensures k1 == k2
  {
    UnescapeInverts(k1);
    UnescapeInverts(k2);
  }

  lemma DigitIsPlain(n: nat)
    requires n < 16
    ensures Plain(HexDigit(n))
  {
  }

  lemma SafeByte(c: Byte, j: nat)
    requires j < |EscapeByte(c)|
    ensures Plain(EscapeByte(c)[j]) || EscapeByte(c)[j] == PERCENT
  {
    DigitIsPlain(c as nat / 16);
    DigitIsPlain(c as nat % 16);
    hide Plain, HexDigit;
  }

  /** A name is a safe file name: no slash, no dot, no zero byte. */
  lemma {:induction false} NamesAreSafe(key: Key, n: nat, i: nat)
    requires n <= |key| && i < |Escaped(key, n)|
    ensures Plain(Escaped(key, n)[i]) || Escaped(key, n)[i] == PERCENT
  {
    hide Plain, EscapeByte;
    var front := Escaped(key, n - 1);
    if i < |front| {
      NamesAreSafe(key, n - 1, i);
    } else {
      SafeByte(key[n - 1], i - |front|);
    }
  }

  // ---- hexadecimal text ----

  /** The text of a key from byte `i` on. */
  function Hex(key: Key, i: nat): Name
    requires i <= |key|
    decreases |key| - i
  {
    if i == |key| then [] else Digits(key[i]) + Hex(key, i + 1)
  }

  /** The bytes that a text stands for; none for an odd digit, a wrong one or more than 256 bytes. */
  function Unhex(text: Name): Option<Key>
  {
    if text == [] then Some([])
    else if |text| == 1 || !IsHex(text[0]) || !IsHex(text[1]) then None
    else
      var rest := Unhex(text[2..]);
      if rest.None? then None else Some([FromDigits(text[0], text[1])] + rest.value)
  }

  lemma {:induction false} UnhexInverts(key: Key, i: nat)
    requires i <= |key|
    ensures Unhex(Hex(key, i)) == Some(key[i..])
    decreases |key| - i
  {
    if i < |key| {
      UnhexInverts(key, i + 1);
      DigitsRoundTrip(key[i]);
      var text := Hex(key, i);
      assert text[2..] == Hex(key, i + 1);
      assert key[i..] == [key[i]] + key[i + 1..];
    } else {
      assert key[i..] == [];
    }
  }

  lemma UnhexShort(text: Name)
    ensures text == [] ==> Unhex(text) == Some([])
    ensures |text| == 1 ==> Unhex(text) == None
  {
  }

  lemma UnhexPair(text: Name)
    requires |text| >= 2
    ensures var rest := Unhex(text[2..]);
      Unhex(text) == if IsHex(text[0]) && IsHex(text[1]) && rest.Some? then Some([FromDigits(text[0], text[1])] + rest.value) else None
  {
  }

  /** All of a text are digits. */
  ghost predicate AllHex(text: Name)
  {
    forall i :: 0 <= i < |text| ==> IsHex(text[i])
  }

  lemma AllHexTail(text: Name)
    requires |text| >= 2
    ensures AllHex(text) <==> IsHex(text[0]) && IsHex(text[1]) && AllHex(text[2..])
  {
    hide IsHex;
    if AllHex(text[2..]) {
      assert forall i :: 2 <= i < |text| ==> text[i] == text[2..][i - 2];
    }
  }

  /** Every text of an even number of digits, and no other, stands for a key: one byte for two digits. */
  lemma {:induction false} UnhexWhen(text: Name)
    ensures Unhex(text).Some? <==> |text| % 2 == 0 && AllHex(text)
    ensures Unhex(text).Some? ==> |text| == 2 * |Unhex(text).value|
  {
    UnhexShort(text);
    if |text| >= 2 {
      UnhexPair(text);
      AllHexTail(text);
      UnhexWhen(text[2..]);
      hide Unhex, AllHex, IsHex, HexValue;
    }
  }

  /** The first of two digits is the higher one. */
  lemma {:induction false} UnhexByte(text: Name, i: nat)
    requires Unhex(text).Some? && i < |Unhex(text).value|
    ensures 2 * i + 1 < |text| && Unhex(text).value[i] as nat == 16 * HexValue(text[2 * i]) + HexValue(text[2 * i + 1])
    decreases i
  {
    UnhexShort(text);
    UnhexPair(text);
    hide Unhex, IsHex, HexValue;
    if i > 0 { UnhexByte(text[2..], i - 1); }
  }

  const MAX_HEX_KEY := 256

  method EncodeHex(key: Key) returns (text: Name)
    ensures |key| <= MAX_HEX_KEY ==> text == Hex(key, 0)
    ensures |text| <= 2 * MAX_HEX_KEY
  {
    var left: Key := if |key| > MAX_HEX_KEY then key[..MAX_HEX_KEY] else key;
    text := [];
    ghost var all := left;
    for i := 0 to |left|
      invariant |text| == 2 * i && text + Hex(all, i) == Hex(all, 0)
    {
      assert text + (Digits(left[i]) + Hex(all, i + 1)) == text + Digits(left[i]) + Hex(all, i + 1);
      text := text + [HexDigit(left[i] as nat / 16)] + [HexDigit(left[i] as nat % 16)];
    }
    assert text + [] == text;
  }

  /** `k` and then the rest of the text make up the whole key. */
  ghost predicate HexSoFar(text: Name, left: Name, k: Key)
  {
    match Unhex(left)
    case None => Unhex(text).None?
    case Some(rest) => Unhex(text) == Some(k + rest)
  }

  lemma HexOne(text: Name, left: Name, k: Key)
    requires |left| >= 2 && HexSoFar(text, left, k)
    ensures IsHex(left[0]) && IsHex(left[1]) ==> HexSoFar(text, left[2..], k + [FromDigits(left[0], left[1])])
  {
    forall c, rest: Key
      ensures k + ([c] + rest) == k + [c] + rest
    {
    }
  }

  method DecodeHex(text: Name) returns (key: Option<Key>)
    ensures key == match Unhex(text)
                   case None => None
                   case Some(k) => if |k| <= MAX_HEX_KEY then Some(k) else None
  {
    var k: Key, left := [], text;
    assert forall rest: Key :: [] + rest == rest;
    while |left| >= 2
      invariant |k| <= MAX_HEX_KEY && HexSoFar(text, left, k)
      decreases |left|
    {
      HexOne(text, left, k);
      if |k| >= MAX_HEX_KEY || !IsHex(left[0]) || !IsHex(left[1]) {
        return None;
      }
      k := k + [FromDigits(left[0], left[1])];
      left := left[2..];
    }
    if left != [] {
      return None;
    }
    assert k + [] == k;
    key := Some(k);
  }
}
