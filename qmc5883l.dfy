/** The QMC5883L magnetometer driver of s_qmc5883l.js. The 6-byte block read from
    register 0x00 is an input; the driver has no fallback, so a failing read is
    outside this model. The conversion divides by 12000 LSB per Gauss, so despite
    its name readMicroTesla yields Gauss. */
module Qmc5883l {
  import opened NodeBuffer
  import opened SensorAxes

  /** X LSB, the first of the six output data registers. */
  const DataRegister: Byte := 0x00
  const Scale: real := 1.0 / 12000.0

  /** `readRawData()`: the little-endian signed 16-bit words at offsets 0, 2 and 4;
      encoding them back little-endian gives the block. */
  function ReadRawData(block: seq<Byte>): (raw: Int16Triple)
    requires |block| == 6
    ensures InInt16Range(raw) && TripleToLE(raw) == block
    ensures raw.x == ReadInt16LE(block, 0).value && raw.y == ReadInt16LE(block, 2).value &&
            raw.z == ReadInt16LE(block, 4).value
  {
    TripleLE(block)
  }

  /** `readMicroTesla()`: each raw axis times 1/12000. */
  function ReadMicroTesla(block: seq<Byte>): (field: Vector)
    requires |block| == 6
    ensures var raw := ReadRawData(block);
            field.x * 12000.0 == raw.x as real && field.y * 12000.0 == raw.y as real &&
            field.z * 12000.0 == raw.z as real
  {
    Scaled(ReadRawData(block), Scale)
  }

  /** Raw values encoded little-endian read back as themselves. */
  lemma RawRoundTrip(t: Int16Triple)
    requires InInt16Range(t)
    ensures ReadRawData(TripleToLE(t)) == t
  {
    TripleRoundTrip(t);
  }

  /** Scaling keeps each axis' sign and zero, and bounds it by 32768/12000. */
  lemma FieldSignAndBounds(block: seq<Byte>)
    requires |block| == 6
    ensures var raw := ReadRawData(block);
            var field := ReadMicroTesla(block);
            (field.x > 0.0 <==> raw.x > 0) && (field.x == 0.0 <==> raw.x == 0) &&
            (field.y > 0.0 <==> raw.y > 0) && (field.y == 0.0 <==> raw.y == 0) &&
            (field.z > 0.0 <==> raw.z > 0) && (field.z == 0.0 <==> raw.z == 0)
    ensures var field := ReadMicroTesla(block);
            -32768.0 / 12000.0 <= field.x <= 32767.0 / 12000.0 &&
            -32768.0 / 12000.0 <= field.y <= 32767.0 / 12000.0 &&
            -32768.0 / 12000.0 <= field.z <= 32767.0 / 12000.0
  {
    var raw := ReadRawData(block);
    ScaledAxis(raw.x, Scale);
    ScaledAxis(raw.y, Scale);
    ScaledAxis(raw.z, Scale);
  }

  /** Each axis depends only on its own pair of bytes. */
  lemma AxesIndependent(b1: seq<Byte>, b2: seq<Byte>)
    requires |b1| == 6 && |b2| == 6
    ensures b1[0..2] == b2[0..2] ==> ReadMicroTesla(b1).x == ReadMicroTesla(b2).x
    ensures b1[2..4] == b2[2..4] ==> ReadMicroTesla(b1).y == ReadMicroTesla(b2).y
    ensures b1[4..6] == b2[4..6] ==> ReadMicroTesla(b1).z == ReadMicroTesla(b2).z
  {
    assert b1[0..2] == b2[0..2] ==> b1[0] == b2[0] && b1[1] == b2[1];
    assert b1[2..4] == b2[2..4] ==> b1[2] == b2[2] && b1[3] == b2[3];
    assert b1[4..6] == b2[4..6] ==> b1[4] == b2[4] && b1[5] == b2[5];
  }
}
