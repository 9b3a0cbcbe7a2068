/**
 * The 5-byte absolute slot number (ASN) of a 6TiSCH frame and the difference
 * between two of them, as computed by ParserData._asndiference.
 */
module AsnCodec {

  /** One element of the Python byte list the parser receives. */
  type byte = x: int | 0 <= x < 256

  /** Unsigned little-endian value of a byte string (struct's '<' byte order). */
  function LittleEndian(s: seq<byte>): nat
  {
    if s == [] then 0 else s[0] + 256 * LittleEndian(s[1..])
  }

  /** A little-endian 16-bit word ('H' under '<'); the two bytes can be read back. */
  function LE16(lo: byte, hi: byte): (w: nat)
    ensures w < 0x10000
    ensures w % 256 == lo && w / 256 == hi
  {
    lo + 256 * hi
  }

  /** The three fields struct.unpack('<HHB') produces from five ASN bytes. */
  datatype AsnFields = AsnFields(wordA: nat, wordB: nat, epoch: byte)

  /**
   * The tuple struct.unpack('<BHH') stores in self._asn, in its own order and
   * under the labels the parser's constructor gives its slots: asn_4, asn_2_3,
   * asn_0_1. Read little-endian, the word labelled asn_2_3 (bytes 1-2) is the
   * LOW half of bytes 1..4 and asn_0_1 the high half, the opposite of what the
   * labels suggest; nothing reads self._asn, so the mismatch has no effect.
   */
  datatype HeaderAsn = HeaderAsn(asn4: byte, asn23: nat, asn01: nat)

  lemma {:induction false} LittleEndian4(s: seq<byte>)
    requires |s| == 4
    ensures LittleEndian(s) == LE16(s[0], s[1]) + 0x10000 * LE16(s[2], s[3])
  {
    var t := s[1..];
    assert LittleEndian(t[1..][1..][1..]) == 0;
    assert LittleEndian(t[1..][1..]) == s[3];
    assert LittleEndian(t[1..]) == s[2] as int + 256 * (s[3] as int);
    assert LittleEndian(t) == s[1] as int + 256 * (s[2] as int + 256 * (s[3] as int));
  }

  /**
   * struct.unpack('<HHB', b): two little-endian words, then the epoch byte.
   * This is the layout _asndiference reads both of its arguments with.
   */
  function UnpackHHB(b: seq<byte>): (f: AsnFields)
    requires |b| == 5
    ensures f.wordA < 0x10000 && f.wordB < 0x10000 && f.epoch == b[4]
    ensures f.wordA + 0x10000 * f.wordB == LittleEndian(b[..4])
  {
    LittleEndian4(b[..4]);
    AsnFields(LE16(b[0], b[1]), LE16(b[2], b[3]), b[4])
  }

  /**
   * struct.unpack('<BHH', b): the epoch byte first, then two little-endian
   * words. The parser stores this decoding of the header ASN and never reads it.
   */
  function UnpackBHH(b: seq<byte>): (h: HeaderAsn)
    requires |b| == 5
    ensures h.asn23 < 0x10000 && h.asn01 < 0x10000 && h.asn4 == b[0]
    ensures h.asn23 + 0x10000 * h.asn01 == LittleEndian(b[1..])
  {
    LittleEndian4(b[1..]);
    HeaderAsn(b[0], LE16(b[1], b[2]), LE16(b[3], b[4]))
  }

  /** Returned when the two epochs differ (the ASN rolled over). */
  const RolloverSentinel: int := 0xFFFFFFFF

  /**
   * _asndiference(init, end): the sentinel when the epoch bytes differ,
   * otherwise the difference of the lower 32 bits read little-endian.
   */
  function AsnDiff(init: seq<byte>, end: seq<byte>): (d: int)
    requires |init| == 5 && |end| == 5
    ensures init[4] != end[4] ==> d == RolloverSentinel
    ensures init[4] == end[4] ==> d == LittleEndian(end[..4]) - LittleEndian(init[..4])
  {
    var a := UnpackHHB(init);
    var e := UnpackHHB(end);
    if e.epoch != a.epoch then RolloverSentinel
    else 0x10000 * (e.wordB - a.wordB) + (e.wordA - a.wordA)
  }

  /**
   * The sentinel is returned exactly when the epochs differ, or in the one
   * same-epoch case whose genuine difference is 0xFFFFFFFF as well.
   */
  lemma AsnDiffSentinelExactly(init: seq<byte>, end: seq<byte>)
    requires |init| == 5 && |end| == 5
    ensures AsnDiff(init, end) == RolloverSentinel <==>
              init[4] != end[4] ||
              (LittleEndian(init[..4]) == 0 && LittleEndian(end[..4]) == 0xFFFFFFFF)
  {
  }

  /** In every epoch, the sentinel collides with a genuine same-epoch difference. */
  lemma SentinelAmbiguous(epoch: byte)
    ensures AsnDiff([0, 0, 0, 0, epoch], [255, 255, 255, 255, epoch]) == RolloverSentinel
  {
  }

  /** An ASN compared with itself is zero slots apart. */
  lemma AsnDiffSelf(x: seq<byte>)
    requires |x| == 5
    ensures AsnDiff(x, x) == 0
  {
  }

  /** Within one epoch, swapping the arguments negates the difference. */
  lemma AsnDiffAntisymmetric(x: seq<byte>, y: seq<byte>)
    requires |x| == 5 && |y| == 5 && x[4] == y[4]
    ensures AsnDiff(y, x) == -AsnDiff(x, y)
  {
  }

  /** Within one epoch the difference lies strictly inside the 32-bit range. */
  lemma AsnDiffBounds(x: seq<byte>, y: seq<byte>)
    requires |x| == 5 && |y| == 5 && x[4] == y[4]
    ensures -0xFFFFFFFF <= AsnDiff(x, y) <= 0xFFFFFFFF
  {
  }
}
