/**
 Mono 16-bit little-endian PCM: the bytes on the wire and the samples they stand for
 (bot.py, array.array("h"); voice-server/src/audio-utils.ts, readInt16LE and writeInt16LE).
 */
module Pcm16 {
  type byte = b: int | 0 <= b < 0x100
  type sample = s: int | -0x8000 <= s < 0x8000

  function ReadInt16LE(lo: byte, hi: byte): sample {
    var u := lo + 0x100 * hi;
    if u < 0x8000 then u else u - 0x1_0000
  }

  function LowByte(s: sample): byte {
    (if s < 0 then s + 0x1_0000 else s) % 0x100
  }

  function HighByte(s: sample): byte {
    (if s < 0 then s + 0x1_0000 else s) / 0x100
  }

  /** The samples of a buffer; an odd last byte belongs to none. */
  function Samples(b: seq<byte>): (s: seq<sample>)
    ensures |s| == |b| / 2
  {
    seq(|b| / 2, i requires 0 <= i < |b| / 2 => ReadInt16LE(b[2 * i], b[2 * i + 1]))
  }

  function Bytes(s: seq<sample>): (b: seq<byte>)
    ensures |b| == 2 * |s|
  {
    seq(2 * |s|, i requires 0 <= i < 2 * |s| => if i % 2 == 0 then LowByte(s[i / 2]) else HighByte(s[i / 2]))
  }

  /** A sample is the two's complement number of its bytes, the low one first. */
  lemma SampleValue(b: seq<byte>, i: nat)
    requires i < |b| / 2
    ensures (Samples(b)[i] as int - (b[2 * i] as int + 0x100 * b[2 * i + 1] as int)) % 0x1_0000 == 0
    ensures Samples(b)[i] < 0 <==> b[2 * i + 1] >= 0x80
  {
  }

  lemma ReadBack(s: sample)
    ensures ReadInt16LE(LowByte(s), HighByte(s)) == s
  {
    var u := if s < 0 then s + 0x1_0000 else s;
    assert u == u % 0x100 + 0x100 * (u / 0x100);
  }

  lemma SamplesOfBytes(s: seq<sample>)
    ensures Samples(Bytes(s)) == s
  {
    forall i | 0 <= i < |s| ensures Samples(Bytes(s))[i] == s[i] {
      assert (2 * i) / 2 == i && (2 * i + 1) / 2 == i;
      ReadBack(s[i]);
    }
  }

  /** Only an odd last byte is lost. */
  lemma BytesOfSamples(b: seq<byte>)
    ensures Bytes(Samples(b)) == b[..2 * (|b| / 2)]
  {
    forall i | 0 <= i < 2 * (|b| / 2) ensures Bytes(Samples(b))[i] == b[i] {
      var k := i / 2;
      assert i == 2 * k || i == 2 * k + 1;
      var u: int := b[2 * k] as int + 0x100 * b[2 * k + 1] as int;
      assert u % 0x100 == b[2 * k] && u / 0x100 == b[2 * k + 1];
    }
  }
}
