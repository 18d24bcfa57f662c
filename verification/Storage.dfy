/** The server's store: values with a 16-byte metadata suffix. */
module Storage {
  import opened Keys
  import opened Frames
  import opened Wrappers
  import opened Radix

  // ---- numbers as bytes ----

  /** The lowest `w` bytes of a number, lowest first. */
  function Le(n: nat, w: nat): (r: Bytes)
    ensures |r| == w
  {
    if w == 0 then [] else [(n % 256) as Byte] + Le(n / 256, w - 1)
  }

  function FromLe(b: Bytes): nat
  {
    if b == [] then 0 else b[0] as nat + 256 * FromLe(b[1..])
  }

  lemma {:induction false} LeRoundTrip(n: nat, w: nat)
    requires n < Pow256(w)
    ensures FromLe(Le(n, w)) == n
  {
    if w > 0 { LeRoundTrip(n / 256, w - 1); }
  }

  lemma LowByte(n: nat, rest: nat)
    requires n < 256
    ensures (n + 256 * rest) % 256 == n && (n + 256 * rest) / 256 == rest
  {
  }

  lemma {:induction false} FromLeInverts(b: Bytes)
    ensures FromLe(b) < Pow256(|b|) && Le(FromLe(b), |b|) == b
  {
    if b != [] {
      FromLeInverts(b[1..]);
      assert b == [b[0]] + b[1..];
      LowByte(b[0] as nat, FromLe(b[1..]));
      assert Pow256(|b|) == 256 * Pow256(|b[1..]|);
    }
  }

  /** The lowest `w` bytes of a number, highest first. */
  function Be(n: nat, w: nat): (r: Bytes)
    ensures |r| == w
  {
    if w == 0 then [] else Be(n / 256, w - 1) + [(n % 256) as Byte]
  }

  // ---- metadata ----

  const META_SIZE := 16

  datatype Meta = Meta(flags: nat, expiration: nat, cas: nat)

  ghost predicate Fits(md: Meta)
  {
    md.flags < 0x1_0000_0000 && md.expiration < 0x1_0000_0000 && md.cas < 0x1_0000_0000_0000_0000
  }

  /** The structure as it lies in memory. */
  function PackMeta(md: Meta): (r: Bytes)
    ensures |r| == META_SIZE
  {
    Le(md.flags, 4) + Le(md.expiration, 4) + Le(md.cas, 8)
  }

  function UnpackMeta(b: Bytes): Meta
    requires |b| == META_SIZE
  {
    Meta(FromLe(b[0..4]), FromLe(b[4..8]), FromLe(b[8..16]))
  }

  lemma MetaRoundTrip(md: Meta)
    requires Fits(md)
    ensures UnpackMeta(PackMeta(md)) == md
  {
    assert Pow256(4) == 0x1_0000_0000 && Pow256(8) == 0x1_0000_0000_0000_0000;
    var b := PackMeta(md);
    assert b[0..4] == Le(md.flags, 4) && b[4..8] == Le(md.expiration, 4) && b[8..16] == Le(md.cas, 8);
    LeRoundTrip(md.flags, 4);
    LeRoundTrip(md.expiration, 4);
    LeRoundTrip(md.cas, 8);
  }

  lemma UnpackInverts(b: Bytes)
    requires |b| == META_SIZE
    ensures Fits(UnpackMeta(b)) && PackMeta(UnpackMeta(b)) == b
  {
    assert Pow256(4) == 0x1_0000_0000 && Pow256(8) == 0x1_0000_0000_0000_0000;
    FromLeInverts(b[0..4]);
    FromLeInverts(b[4..8]);
    FromLeInverts(b[8..16]);
    assert b == b[0..4] + b[4..8] + b[8..16];
  }

  lemma FromLeStep(b: Bytes, i: nat, n: nat)
    requires i < n <= |b|
    ensures FromLe(b[i..n]) == b[i] as nat + 0x100 * FromLe(b[i + 1..n])
  {
    assert b[i..n][1..] == b[i + 1..n];
  }

  lemma FromLeFour(b: Bytes, i: nat, n: nat)
    requires i + 4 <= n <= |b|
    ensures FromLe(b[i..n]) == b[i] as nat + 0x100 * b[i + 1] as nat + 0x1_0000 * b[i + 2] as nat + 0x100_0000 * b[i + 3] as nat
                               + 0x1_0000_0000 * FromLe(b[i + 4..n])
  {
    FromLeStep(b, i, n);
    FromLeStep(b, i + 1, n);
    FromLeStep(b, i + 2, n);
    FromLeStep(b, i + 3, n);
    hide FromLe;
  }

  /** Where the fields lie: flags, expiration and version, each lowest byte first. */
  lemma MetaLies(b: Bytes)
    requires |b| == META_SIZE
    ensures var md := UnpackMeta(b);
      && md.flags == b[0] as nat + 0x100 * b[1] as nat + 0x1_0000 * b[2] as nat + 0x100_0000 * b[3] as nat
      && md.expiration == b[4] as nat + 0x100 * b[5] as nat + 0x1_0000 * b[6] as nat + 0x100_0000 * b[7] as nat
      && md.cas == b[8] as nat + 0x100 * b[9] as nat + 0x1_0000 * b[10] as nat + 0x100_0000 * b[11] as nat
                   + 0x1_0000_0000 * (b[12] as nat + 0x100 * b[13] as nat + 0x1_0000 * b[14] as nat + 0x100_0000 * b[15] as nat)
  {
    FromLeFour(b, 0, 4);
    FromLeFour(b, 4, 8);
    FromLeFour(b, 8, 16);
    FromLeFour(b, 12, 16);
    assert FromLe([]) == 0 && b[4..4] == b[8..8] == b[16..16] == [];
    hide FromLe;
  }

  // ---- items ----

  datatype Entry = Entry(value: Bytes, meta: Meta)

  function Encode(e: Entry): Bytes { e.value + PackMeta(e.meta) }

  /** Data too short for its metadata counts as missing. */
  function Decode(raw: Bytes): Option<Entry>
  {
    if |raw| < META_SIZE then None
    else Some(Entry(raw[..|raw| - META_SIZE], UnpackMeta(raw[|raw| - META_SIZE..])))
  }

  lemma EntryRoundTrip(e: Entry)
    requires Fits(e.meta)
    ensures Decode(Encode(e)) == Some(e)
  {
    var raw := Encode(e);
    assert raw[..|raw| - META_SIZE] == e.value && raw[|raw| - META_SIZE..] == PackMeta(e.meta);
    MetaRoundTrip(e.meta);
  }

  /** Data that is long enough is the encoding of exactly one entry. */
  lemma DecodeInverts(raw: Bytes)
    requires |raw| >= META_SIZE
    ensures var e := Decode(raw); e.Some? && Fits(e.value.meta) && Encode(e.value) == raw
  {
    UnpackInverts(raw[|raw| - META_SIZE..]);
  }

  type Raw = map<Key, Bytes>

  class Disk {
    var raw: Raw

    constructor ()
      ensures raw == map[]
    {
      raw := map[];
    }

    /** Reads the data of a key and takes the metadata off its end. */
    method Get(key: Key) returns (e: Option<Entry>)
      ensures e.None? <==> key !in raw || |raw[key]| < META_SIZE
      ensures e.Some? ==> Fits(e.value.meta) && raw[key] == Encode(e.value)
    {
      if key !in raw || |raw[key]| < META_SIZE {
        return None;
      }
      var data := raw[key];
      var size := |data| - META_SIZE;
      DecodeInverts(data);
      e := Some(Entry(data[..size], UnpackMeta(data[size..])));
    }

    /** Stores `size` bytes of a buffer with metadata, which is laid over the bytes that follow and taken away again. */
    method Set(buf: array<Byte>, off: nat, size: nat, md: Meta, key: Key) returns (ok: bool)
      requires off + size + META_SIZE <= buf.Length
      modifies this, buf
      ensures buf[..] == old(buf[..])
      ensures ok == (key != [])
      ensures raw == if ok then old(raw)[key := Encode(Entry(old(buf[off..off + size]), md))] else old(raw)
    {
      if key == [] {
        return false;
      }
      ghost var before := buf[..];
      var at := off + size;
      var prev := buf[at..at + META_SIZE];
      var bytes := PackMeta(md);
      Overlay(buf, at, bytes);
      assert buf[off..at + META_SIZE] == before[off..at] + bytes;
      raw := raw[key := buf[off..at + META_SIZE]];
      Overlay(buf, at, prev);
      assert buf[..] == before;
      ok := true;
    }

    method Delete(key: Key) returns (ok: bool)
      modifies this
      ensures ok == (key in old(raw)) && raw == old(raw) - {key}
    {
      ok := key in raw;
      raw := raw - {key};
    }
  }

  /** Copies bytes into a buffer. */
  method Overlay(buf: array<Byte>, at: nat, bytes: Bytes)
    requires at + |bytes| <= buf.Length
    modifies buf
    ensures buf[..] == old(buf[..at]) + bytes + old(buf[at + |bytes|..])
  {
    forall i | 0 <= i < |bytes| {
      buf[at + i] := bytes[i];
    }
  }
}
