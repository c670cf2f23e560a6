/** Node.js `Buffer` reads used by the parsers and drivers: signed 16-bit words in
    either byte order and signed 32-bit big-endian words, with the encoders that
    invert them. A read past the end of the buffer throws a RangeError in Node; here
    it gives None. */
module NodeBuffer {
  import opened JsValues

  type Byte = b: int | 0 <= b < 0x100

  /** Two's-complement value of the 16-bit word `hi * 256 + lo`. */
  function Int16(hi: Byte, lo: Byte): (v: int)
    ensures -0x8000 <= v < 0x8000
    ensures v % 0x10000 == hi as int * 0x100 + lo
    ensures v < 0 <==> hi >= 0x80
  {
    var word: int := hi as int * 0x100 + lo;
    if word >= 0x8000 then word - 0x10000 else word
  }

  /** The high and low bytes of a value in the signed 16-bit range. */
  function Int16Bytes(v: int): (r: (Byte, Byte))
    requires -0x8000 <= v < 0x8000
  {
    var word := if v < 0 then v + 0x10000 else v;
    (word / 0x100, word % 0x100)
  }

  lemma Int16BytesRoundTrip(v: int)
    requires -0x8000 <= v < 0x8000
    ensures Int16(Int16Bytes(v).0, Int16Bytes(v).1) == v
  {
  }

  lemma Int16RoundTrip(hi: Byte, lo: Byte)
    ensures Int16Bytes(Int16(hi, lo)) == (hi, lo)
  {
  }

  /** `buf.readInt16BE(offset)`. */
  function ReadInt16BE(buf: seq<Byte>, offset: nat): (r: Option<int>)
    ensures r.Some? <==> offset + 2 <= |buf|
    ensures r.Some? ==> -0x8000 <= r.value < 0x8000
    ensures r.Some? ==> Int16Bytes(r.value) == (buf[offset], buf[offset + 1])
  {
    if offset + 2 <= |buf| then Some(Int16(buf[offset], buf[offset + 1])) else None
  }

  /** `buf.readInt16LE(offset)`: the low byte comes first. */
  function ReadInt16LE(buf: seq<Byte>, offset: nat): (r: Option<int>)
    ensures r.Some? <==> offset + 2 <= |buf|
    ensures r.Some? ==> -0x8000 <= r.value < 0x8000
    ensures r.Some? ==> Int16Bytes(r.value) == (buf[offset + 1], buf[offset])
  {
    if offset + 2 <= |buf| then Some(Int16(buf[offset + 1], buf[offset])) else None
  }

  /** The two bytes `writeInt16BE` would store. */
  function Int16BE(v: int): (bytes: seq<Byte>)
    requires -0x8000 <= v < 0x8000
    ensures |bytes| == 2
  {
    [Int16Bytes(v).0, Int16Bytes(v).1]
  }

  /** The two bytes `writeInt16LE` would store. */
  function Int16LE(v: int): (bytes: seq<Byte>)
    requires -0x8000 <= v < 0x8000
    ensures |bytes| == 2
  {
    [Int16Bytes(v).1, Int16Bytes(v).0]
  }

  /** Reading back what was written, in either byte order, gives the value. */
  lemma {:induction false} Int16WriteRead(v: int, before: seq<Byte>, after: seq<Byte>)
    requires -0x8000 <= v < 0x8000
    ensures ReadInt16BE(before + Int16BE(v) + after, |before|) == Some(v)
    ensures ReadInt16LE(before + Int16LE(v) + after, |before|) == Some(v)
  {
    Int16BytesRoundTrip(v);
    var be := before + Int16BE(v) + after;
    var le := before + Int16LE(v) + after;
    assert be[|before|] == Int16Bytes(v).0 && be[|before| + 1] == Int16Bytes(v).1;
    assert le[|before|] == Int16Bytes(v).1 && le[|before| + 1] == Int16Bytes(v).0;
  }

  /** The four bytes `writeInt32BE` would store, most significant first. */
  function Int32BE(v: int): (bytes: seq<Byte>)
    requires -0x8000_0000 <= v < 0x8000_0000
    ensures |bytes| == 4
  {
    var word := if v < 0 then v + 0x1_0000_0000 else v;
    [word / 0x100_0000, word / 0x1_0000 % 0x100, word / 0x100 % 0x100, word % 0x100]
  }

  /** Two's-complement value of the 32-bit word with bytes `b0 b1 b2 b3`, most
      significant first. */
  function Int32(b0: Byte, b1: Byte, b2: Byte, b3: Byte): (v: int)
    ensures -0x8000_0000 <= v < 0x8000_0000
    ensures v < 0 <==> b0 >= 0x80
    ensures Int32BE(v) == [b0, b1, b2, b3]
  {
    var word: int := ((b0 as int * 0x100 + b1) * 0x100 + b2) * 0x100 + b3;
    WordBytes(b0, b1, b2, b3);
    if word >= 0x8000_0000 then word - 0x1_0000_0000 else word
  }

  /** The bytes of a 32-bit word are recovered by division and remainder. */
  lemma WordBytes(b0: Byte, b1: Byte, b2: Byte, b3: Byte)
    ensures var word: int := ((b0 as int * 0x100 + b1) * 0x100 + b2) * 0x100 + b3;
            && 0 <= word < 0x1_0000_0000
            && word / 0x100_0000 == b0 && word / 0x1_0000 % 0x100 == b1
            && word / 0x100 % 0x100 == b2 && word % 0x100 == b3
  {
    var w1: int := b0 as int * 0x100 + b1;
    var w2: int := w1 * 0x100 + b2;
    var word: int := w2 * 0x100 + b3;
    assert word == b0 as int * 0x100_0000 + b1 as int * 0x1_0000 + b2 as int * 0x100 + b3;
    assert word / 0x100 == w2;
    assert word / 0x1_0000 == w1;
    assert word / 0x100_0000 == b0;
  }

  /** `buf.readInt32BE(offset)`: two's complement of four bytes, most significant first. */
  function ReadInt32BE(buf: seq<Byte>, offset: nat): (r: Option<int>)
    ensures r.Some? <==> offset + 4 <= |buf|
    ensures r.Some? ==> -0x8000_0000 <= r.value < 0x8000_0000
    ensures r.Some? ==> (r.value < 0 <==> buf[offset] >= 0x80)
    ensures r.Some? ==> Int32BE(r.value) == buf[offset..offset + 4]
  {
    if offset + 4 <= |buf| then
      var v := Int32(buf[offset], buf[offset + 1], buf[offset + 2], buf[offset + 3]);
      assert buf[offset..offset + 4] == [buf[offset], buf[offset + 1], buf[offset + 2], buf[offset + 3]];
      Some(v)
    else None
  }

  /** Decoding the four bytes of a value gives it back. */
  lemma Int32RoundTrip(v: int)
    requires -0x8000_0000 <= v < 0x8000_0000
    ensures var bytes := Int32BE(v); Int32(bytes[0], bytes[1], bytes[2], bytes[3]) == v
  {
    var word := if v < 0 then v + 0x1_0000_0000 else v;
    var w2 := word / 0x100;
    var w1 := w2 / 0x100;
    assert word == w2 * 0x100 + word % 0x100;
    assert w2 == w1 * 0x100 + w2 % 0x100;
    assert w1 == w1 / 0x100 * 0x100 + w1 % 0x100;
    assert w1 == word / 0x1_0000 && w1 / 0x100 == word / 0x100_0000;
  }

  /** Reading back the four bytes written at any position gives the value. */
  lemma Int32WriteRead(v: int, before: seq<Byte>, after: seq<Byte>)
    requires -0x8000_0000 <= v < 0x8000_0000
    ensures ReadInt32BE(before + Int32BE(v) + after, |before|) == Some(v)
  {
    var buf := before + Int32BE(v) + after;
    var bytes := Int32BE(v);
    assert buf[|before|..|before| + 4] == bytes;
    Int32RoundTrip(v);
  }

  /** The three signed 16-bit words of a 6-byte sensor data block. */
  datatype Int16Triple = Int16Triple(x: int, y: int, z: int)

  predicate InInt16Range(t: Int16Triple)
  {
    -0x8000 <= t.x < 0x8000 && -0x8000 <= t.y < 0x8000 && -0x8000 <= t.z < 0x8000
  }

  /** `readInt16LE(0)`, `readInt16LE(2)` and `readInt16LE(4)` of a 6-byte block. */
  function TripleLE(block: seq<Byte>): (t: Int16Triple)
    requires |block| == 6
    ensures InInt16Range(t)
    ensures TripleToLE(t) == block
  {
    var t := Int16Triple(ReadInt16LE(block, 0).value, ReadInt16LE(block, 2).value, ReadInt16LE(block, 4).value);
    assert TripleToLE(t) == block;
    t
  }

  /** `readInt16BE(0)`, `readInt16BE(2)` and `readInt16BE(4)` of a 6-byte block. */
  function TripleBE(block: seq<Byte>): (t: Int16Triple)
    requires |block| == 6
    ensures InInt16Range(t)
    ensures TripleToBE(t) == block
  {
    var t := Int16Triple(ReadInt16BE(block, 0).value, ReadInt16BE(block, 2).value, ReadInt16BE(block, 4).value);
    assert TripleToBE(t) == block;
    t
  }

  function TripleToLE(t: Int16Triple): (block: seq<Byte>)
    requires InInt16Range(t)
    ensures |block| == 6
  {
    Int16LE(t.x) + Int16LE(t.y) + Int16LE(t.z)
  }

  function TripleToBE(t: Int16Triple): (block: seq<Byte>)
    requires InInt16Range(t)
    ensures |block| == 6
  {
    Int16BE(t.x) + Int16BE(t.y) + Int16BE(t.z)
  }

  /** Decoding an encoded triple gives the triple back, in both byte orders. */
  lemma TripleRoundTrip(t: Int16Triple)
    requires InInt16Range(t)
    ensures TripleLE(TripleToLE(t)) == t
    ensures TripleBE(TripleToBE(t)) == t
  {
    Int16WriteRead(t.x, [], Int16LE(t.y) + Int16LE(t.z));
    Int16WriteRead(t.y, Int16LE(t.x), Int16LE(t.z));
    Int16WriteRead(t.z, Int16LE(t.x) + Int16LE(t.y), []);
    assert TripleToLE(t) == [] + Int16LE(t.x) + (Int16LE(t.y) + Int16LE(t.z));
    assert TripleToLE(t) == Int16LE(t.x) + Int16LE(t.y) + Int16LE(t.z) + [];
    Int16WriteRead(t.x, [], Int16BE(t.y) + Int16BE(t.z));
    Int16WriteRead(t.y, Int16BE(t.x), Int16BE(t.z));
    Int16WriteRead(t.z, Int16BE(t.x) + Int16BE(t.y), []);
    assert TripleToBE(t) == [] + Int16BE(t.x) + (Int16BE(t.y) + Int16BE(t.z));
    assert TripleToBE(t) == Int16BE(t.x) + Int16BE(t.y) + Int16BE(t.z) + [];
  }
}
