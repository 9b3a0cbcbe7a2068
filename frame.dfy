/**
 * Fixed-offset splitting of a data frame and recognition of the latency
 * probe that the uinject application appends to its UDP payload.
 */
module Frame {
  import opened AsnCodec

  const HeaderLength: nat := 2
  /** The frame must reach past the ASN for struct.unpack to succeed. */
  const AsnEnd: nat := 7
  /** Header, ASN, destination and source together. */
  const AddressEnd: nat := 23
  /** A residual longer than this may carry a probe. */
  const ProbeThreshold: nat := 37
  const Marker: string := "uinject"

  /** Python's input[i:j] for 0 <= i <= j: indices beyond the end are clamped. */
  function Slice(s: seq<byte>, i: nat, j: nat): (r: seq<byte>)
    requires i <= j
    ensures j <= |s| ==> r == s[i..j]
    ensures i <= |s| <= j ==> r == s[i..]
    ensures |s| <= i ==> r == []
  {
    var lo := if i <= |s| then i else |s|;
    var hi := if j <= |s| then j else |s|;
    s[lo..hi]
  }

  /** The five consecutive pieces parseInput cuts a frame into. */
  datatype DecodedFrame = DecodedFrame(
    header: seq<byte>, asn: seq<byte>, dest: seq<byte>, source: seq<byte>, residual: seq<byte>)

  /**
   * input[:2], input[2:7], input[7:15], input[15:23], input[23:]. A piece
   * that runs past the end of a short frame is cut at the end, and one that
   * starts past it is empty.
   */
  function Split(input: seq<byte>): (f: DecodedFrame)
    ensures |input| >= HeaderLength ==> f.header == input[..2]
    ensures |input| < HeaderLength ==> f.header == input
    ensures |input| >= AsnEnd ==> f.asn == input[2..7]
    ensures HeaderLength <= |input| < AsnEnd ==> f.asn == input[2..]
    ensures |input| < HeaderLength ==> f.asn == []
    ensures |input| >= 15 ==> f.dest == input[7..15]
    ensures AsnEnd <= |input| < 15 ==> f.dest == input[7..]
    ensures |input| < AsnEnd ==> f.dest == []
    ensures |input| >= AddressEnd ==> f.source == input[15..23] && f.residual == input[23..]
    ensures 15 <= |input| < AddressEnd ==> f.source == input[15..]
    ensures |input| < 15 ==> f.source == []
    ensures |input| < AddressEnd ==> f.residual == []
  {
    var residualEnd := if |input| < AddressEnd then AddressEnd else |input|;
    DecodedFrame(Slice(input, 0, 2), Slice(input, 2, 7), Slice(input, 7, 15),
                 Slice(input, 15, 23), Slice(input, 23, residualEnd))
  }

  /** The pieces are contiguous and cover the frame: nothing is lost or repeated. */
  lemma SplitCoversFrame(input: seq<byte>)
    ensures var f := Split(input); f.header + f.asn + f.dest + f.source + f.residual == input
  {
  }

  /** ''.join(chr(i) for i in bs). */
  function AsText(bs: seq<byte>): (t: string)
    ensures |t| == |bs|
    ensures forall i :: 0 <= i < |bs| ==> t[i] as int == bs[i] as int
  {
    seq(|bs|, i requires 0 <= i < |bs| => bs[i] as char)
  }

  /** The probe marker as the bytes the mote sends. */
  const MarkerBytes: seq<byte> := [0x75, 0x69, 0x6e, 0x6a, 0x65, 0x63, 0x74]

  /**
   * The gate of parseInput: a residual longer than 37 bytes whose last seven
   * bytes, read as text, spell "uinject".
   */
  predicate IsProbe(residual: seq<byte>)
    ensures IsProbe(residual) <==>
              |residual| > ProbeThreshold && residual[|residual| - 7..] == MarkerBytes
  {
    && |residual| > ProbeThreshold
    && var tail := residual[|residual| - 7..];
       MarkerText(tail);
       AsText(tail) == Marker
  }

  /** Seven bytes read as text spell "uinject" exactly when they are the marker bytes. */
  lemma MarkerText(tail: seq<byte>)
    requires |tail| == 7
    ensures AsText(tail) == Marker <==> tail == MarkerBytes
  {
    if AsText(tail) == Marker {
      forall i | 0 <= i < 7 ensures tail[i] == MarkerBytes[i] {
        assert AsText(tail)[i] == Marker[i];
      }
    }
    if tail == MarkerBytes {
      assert AsText(tail) == Marker;
    }
  }

  /** Lower-case hexadecimal digit of 0 <= v < 16. */
  function HexDigit(v: nat): (c: char)
    requires v < 16
  {
    if v < 10 then ('0' as int + v) as char else ('a' as int + v - 10) as char
  }

  /** Value of a lower-case hexadecimal digit (the partner of HexDigit). */
  function DigitValue(c: char): nat
  {
    if '0' <= c <= '9' then c as int - '0' as int
    else if 'a' <= c <= 'f' then c as int - 'a' as int + 10
    else 0
  }

  /** Value of a lower-case hexadecimal numeral. */
  function HexValue(s: string): nat
  {
    if s == [] then 0 else 16 * HexValue(s[..|s| - 1]) + DigitValue(s[|s| - 1])
  }

  /** "{0:x}".format(b): lower-case hexadecimal without zero padding. */
  function HexNoPad(b: byte): (s: string)
    ensures 1 <= |s| <= 2
    ensures |s| == 2 <==> b >= 16
    ensures forall i :: 0 <= i < |s| ==> s[i] in "0123456789abcdef"
  {
    if b < 16 then [HexDigit(b)] else [HexDigit(b / 16), HexDigit(b % 16)]
  }

  /** Reading the numeral back gives the byte: HexNoPad loses nothing on its own. */
  lemma HexNoPadRoundTrip(b: byte)
    ensures HexValue(HexNoPad(b)) == b
  {
    var s := HexNoPad(b);
    if b < 16 {
      assert s[..0] == [];
    } else {
      assert s[..1] == [HexDigit(b / 16)];
      assert s[..1][..0] == [];
      assert HexValue(s[..1]) == b / 16;
      assert DigitValue(s[1]) == b % 16;
    }
  }

  /** "{0:x}{1:x}".format(hi, lo): the node identifier, no separator, no padding. */
  function NodeId(hi: byte, lo: byte): (id: string)
    ensures 2 <= |id| <= 4
  {
    HexNoPad(hi) + HexNoPad(lo)
  }

  /** Two different motes can share an identifier: 0x1,0x23 and 0x12,0x3 both give "123". */
  lemma NodeIdCollision()
    ensures NodeId(0x1, 0x23) == NodeId(0x12, 0x3) == "123"
  {
  }

  /** When both bytes need two digits the identifier determines them. */
  lemma NodeIdInjectiveWide(a: byte, b: byte, c: byte, d: byte)
    requires a >= 16 && b >= 16 && c >= 16 && d >= 16
    requires NodeId(a, b) == NodeId(c, d)
    ensures a == c && b == d
  {
    var ab := NodeId(a, b);
    assert ab[..2] == HexNoPad(a) && ab[2..] == HexNoPad(b);
    assert ab[..2] == HexNoPad(c) && ab[2..] == HexNoPad(d);
    HexNoPadRoundTrip(a);
    HexNoPadRoundTrip(b);
    HexNoPadRoundTrip(c);
    HexNoPadRoundTrip(d);
  }

  /** The fields parseInput reads from the end of a probe residual. */
  datatype Probe = Probe(numCellsUsed: byte, asn: seq<byte>, counter: nat, l3Source: string)

  /**
   * numCellsUsed = r[-15], aux = r[-14:-9], counter = r[-9] + 256*r[-8],
   * l3_source = hex(r[-16]) + hex(r[-17]).
   */
  function ProbeFields(r: seq<byte>): (p: Probe)
    requires |r| >= 17
    ensures p.counter < 0x10000 && |p.asn| == 5 && 2 <= |p.l3Source| <= 4
  {
    var n := |r|;
    Probe(r[n - 15], r[n - 14..n - 9], LE16(r[n - 9], r[n - 8]), NodeId(r[n - 16], r[n - 17]))
  }

  /**
   * The 17 bytes a mote appends to its payload: its id (low byte first),
   * the cells it uses, the ASN it sent at, its counter, and the marker.
   */
  function ProbeTrailer(idHi: byte, idLo: byte, cells: byte, asn: seq<byte>, counter: nat): (t: seq<byte>)
    requires |asn| == 5 && counter < 0x10000
    ensures |t| == 17
  {
    [idLo, idHi, cells] + asn + [counter % 256, counter / 256] + MarkerBytes
  }

  /** Any payload of at least 21 bytes followed by a trailer is a probe, and decoding recovers the trailer's fields. */
  lemma ProbeRoundTrip(prefix: seq<byte>, idHi: byte, idLo: byte, cells: byte, asn: seq<byte>, counter: nat)
    requires |asn| == 5 && counter < 0x10000 && |prefix| > ProbeThreshold - 17
    ensures var r := prefix + ProbeTrailer(idHi, idLo, cells, asn, counter);
            IsProbe(r) && ProbeFields(r) == Probe(cells, asn, counter, NodeId(idHi, idLo))
  {
  }
}
