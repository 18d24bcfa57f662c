/** The version that a key listing shows for a file. */
module FileVersions {
  /** Size, seconds and nanoseconds of the last change, packed into one 64-bit number. */
  function FileVersion(size: bv64, sec: bv64, nsec: bv64): bv64 { (size << 40) | (sec << 32) | nsec }

  /** What of the size and the seconds shares the upper bits. */
  function Upper(size: bv64, sec: bv64): bv64 { (size | (sec >> 8)) & 0xFF_FFFF }

  function Middle(sec: bv64): bv64 { sec & 0xFF }

  function Packed(upper: bv64, middle: bv64, lower: bv64): bv64 { (upper << 40) | (middle << 32) | lower }

  lemma VersionIsPacked(size: bv64, sec: bv64, nsec: bv64)
    ensures FileVersion(size, sec, nsec) == Packed(Upper(size, sec), Middle(sec), nsec)
  {
  }

  lemma PackedParts(upper: bv64, middle: bv64, lower: bv64)
    requires upper < 0x100_0000 && middle < 0x100 && lower < 0x1_0000_0000
    ensures var v := Packed(upper, middle, lower);
      v >> 40 == upper && (v >> 32) & 0xFF == middle && v & 0xFFFF_FFFF == lower
  {
  }

  lemma PartsFit(size: bv64, sec: bv64)
    ensures Upper(size, sec) < 0x100_0000 && Middle(sec) < 0x100
  {
  }

  /** Two states of a file show one version exactly when these parts agree. */
  lemma VersionsCollide(size: bv64, sec: bv64, nsec: bv64, size': bv64, sec': bv64, nsec': bv64)
    requires nsec < 0x1_0000_0000 && nsec' < 0x1_0000_0000
    ensures FileVersion(size, sec, nsec) == FileVersion(size', sec', nsec') <==>
      nsec == nsec' && Middle(sec) == Middle(sec') && Upper(size, sec) == Upper(size', sec')
  {
    VersionIsPacked(size, sec, nsec);
    VersionIsPacked(size', sec', nsec');
    PartsFit(size, sec);
    PartsFit(size', sec');
    hide FileVersion, Upper, Middle, Packed;
    PackedParts(Upper(size, sec), Middle(sec), nsec);
    PackedParts(Upper(size', sec'), Middle(sec'), nsec');
  }

  /** A file of odd size that is written again at the same length 256 seconds later may show the same version. */
  lemma RewrittenLater(size: bv64, sec: bv64, nsec: bv64)
    requires size & 1 == 1 && sec & 0x100 == 0 && nsec < 0x1_0000_0000
    ensures FileVersion(size, sec, nsec) == FileVersion(size, sec + 256, nsec)
  {
    assert sec + 256 == sec | 0x100;
    OddSize(size, sec);
    VersionsCollide(size, sec, nsec, size, sec | 0x100, nsec);
  }

  /** The version as a number. */
  function VersionNumber(size: bv64, sec: bv64, nsec: bv64): nat { FileVersion(size, sec, nsec) as nat }

  /** A moment whose version comes back 256 seconds later. */
  predicate Returns(sec: bv64, nsec: bv64) { sec & 0x100 == 0 && nsec < 0x1_0000_0000 }

  function Later(sec: bv64): bv64 { sec + 256 }

  /** For example for files of 17 bytes. */
  lemma SeventeenBytes(sec: bv64, nsec: bv64)
    requires Returns(sec, nsec)
    ensures VersionNumber(17, sec, nsec) == VersionNumber(17, Later(sec), nsec)
  {
    RewrittenLater(17, sec, nsec);
  }

  lemma OddSize(size: bv64, sec: bv64)
    requires size & 1 == 1
    ensures Upper(size, sec) == Upper(size, sec | 0x100) && Middle(sec) == Middle(sec | 0x100)
  {
  }
}
