/**
 * Frames as bytes: a beat carries byte n of the frame in bits 8n to 8n + 7, the order of the byte lanes of
 * AXI4-Stream.  What the detector's comparisons, made on bit slices, mean for the bytes on the wire.
 */
module FrameBytes {
  import opened Words
  import opened PacketDetect
  import opened TimestampInject

  type u8 = x: int | 0 <= x < 256

  function BitsOf(bytes: seq<u8>): (r: seq<bool>)
    ensures |r| == 8 * |bytes|
  {
    if bytes == [] then [] else Bits(bytes[0], 8) + BitsOf(bytes[1..])
  }

  function BeatOf(bytes: seq<u8>): Beat
    requires |bytes| == 64
  {
    BitsOf(bytes)
  }

  lemma {:induction false} ByteAt(bytes: seq<u8>, i: nat)
    requires i < |bytes|
    ensures BitsOf(bytes)[8 * i..8 * i + 8] == Bits(bytes[i], 8)
  {
    if i > 0 {
      ByteAt(bytes[1..], i - 1);
      var first, rest := Bits(bytes[0], 8), BitsOf(bytes[1..]);
      assert (first + rest)[8 * i..8 * i + 8] == rest[8 * (i - 1)..8 * (i - 1) + 8];
    }
  }

  /** Slices are read with their first bits lowest. */
  lemma {:induction false} NumberJoins(a: seq<bool>, b: seq<bool>)
    ensures Number(a + b) == Number(a) + Pow2(|a|) * Number(b)
  {
    if a == [] {
      assert a + b == b;
    } else {
      assert (a + b)[1..] == a[1..] + b;
      NumberJoins(a[1..], b);
      Doubled(Pow2(|a| - 1), Number(b));
    }
  }

  lemma Doubled(p: nat, n: nat)
    ensures 2 * (p * n) == (2 * p) * n
  {
  }

  lemma PowersOfByte()
    ensures Pow2(4) == 16 && Pow2(8) == 256
  {
    assert Pow2(2) == 4;
    Pow2Sum(2, 2);
    Pow2Sum(4, 4);
  }

  lemma ByteReads(b: u8)
    ensures Number(Bits(b, 8)) == b
  {
    PowersOfByte();
    LowBits(b, 8, 8);
    assert Bits(b, 8)[..8] == Bits(b, 8);
  }

  lemma LowerHalfReads(b: u8)
    ensures Number(Bits(b, 8)[..4]) == b % 16
  {
    PowersOfByte();
    LowBits(b, 8, 4);
  }

  lemma UpperHalfReads(bits: seq<bool>, b: u8)
    requires |bits| == 8 && Number(bits) == b && Number(bits[..4]) == b % 16
    ensures Number(bits[4..]) == b / 16
  {
    PowersOfByte();
    assert bits == bits[..4] + bits[4..];
    NumberJoins(bits[..4], bits[4..]);
  }

  lemma NumberOfByte(b: u8)
    ensures Number(Bits(b, 8)) == b && Number(Bits(b, 8)[4..]) == b / 16
  {
    ByteReads(b);
    LowerHalfReads(b);
    UpperHalfReads(Bits(b, 8), b);
  }

  lemma EthTypeBytes(bytes: seq<u8>)
    requires |bytes| == 64
    ensures Number(BeatOf(bytes)[96..112]) == bytes[12] as nat + 256 * bytes[13] as nat
  {
    var d := BitsOf(bytes);
    ByteAt(bytes, 12);
    ByteAt(bytes, 13);
    assert d[96..112] == d[96..104] + d[104..112];
    NumberJoins(Bits(bytes[12], 8), Bits(bytes[13], 8));
    NumberOfByte(bytes[12]);
    NumberOfByte(bytes[13]);
    PowersOfByte();
  }

  lemma VlanIdBytes(bytes: seq<u8>)
    requires |bytes| == 64
    ensures Number(BeatOf(bytes)[116..128]) == bytes[14] as nat / 16 + 16 * bytes[15] as nat
  {
    var d := BitsOf(bytes);
    ByteAt(bytes, 14);
    ByteAt(bytes, 15);
    assert d[116..128] == d[112..120][4..] + d[120..128];
    NumberJoins(Bits(bytes[14], 8)[4..], Bits(bytes[15], 8));
    NumberOfByte(bytes[14]);
    NumberOfByte(bytes[15]);
    PowersOfByte();
  }

  /** The detector compares the bytes of both fields in the reverse of their order on the wire: it takes a
      frame whose bytes 12 and 13 are 00 81, whose byte 14 has C in its upper half, and whose byte 15 is AB. */
  lemma MatchedBytes(bytes: seq<u8>)
    requires |bytes| == 64
    ensures VlanMatch(BeatOf(bytes)) <==>
            bytes[12] == 0x00 && bytes[13] == 0x81 && bytes[14] / 16 == 0xC && bytes[15] == 0xAB
  {
    EthTypeBytes(bytes);
    VlanIdBytes(bytes);
    assert bytes[12] as nat + 256 * bytes[13] as nat == 0x8100 <==> bytes[12] == 0x00 && bytes[13] == 0x81;
    assert bytes[14] as nat / 16 + 16 * bytes[15] as nat == 0xABC <==> bytes[14] / 16 == 0xC && bytes[15] == 0xAB;
  }

  /** In network order a tagged frame has 81 00 there, so none is ever matched, whatever its VLAN; in
      particular not the one that the synchronisation sender builds, with 0A BC behind it. */
  lemma TaggedFramesAreNotMatched(bytes: seq<u8>)
    requires |bytes| == 64 && bytes[12..14] == [0x81, 0x00]
    ensures !VlanMatch(BeatOf(bytes))
  {
    MatchedBytes(bytes);
    assert bytes[12] == bytes[12..14][0];
  }

  /** On the fields of the beat itself, whatever stands around them. */
  lemma MatchedFields(macs: seq<bool>, ethType: seq<bool>, low: seq<bool>, vlanId: seq<bool>, rest: seq<bool>)
    requires |macs| == 96 && |ethType| == 16 && |low| == 4 && |vlanId| == 12 && |rest| == 384
    ensures VlanMatch(macs + ethType + low + vlanId + rest) <==> Number(ethType) == 33024 && Number(vlanId) == 2748
  {
    var d := macs + ethType + low + vlanId + rest;
    assert d[96..112] == ethType && d[116..128] == vlanId;
  }
}
