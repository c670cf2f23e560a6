/** The ITG-3205 gyroscope driver of s_itg3205.js. The blocks read from the gyro
    registers (6 bytes at 0x1D) and the temperature registers (2 bytes at 0x1B)
    are inputs; the driver has no fallback, so a failing read is outside this
    model. The words are big-endian. */
module Itg3205 {
  import opened NodeBuffer
  import opened SensorAxes

  /** GYRO_XOUT_H, the first of the six gyro registers. */
  const GyroRegister: Byte := 0x1D
  /** TEMP_OUT_H, the first of the two temperature registers. */
  const TemperatureRegister: Byte := 0x1B
  /** 14.375 LSB per degree per second. */
  const Sensitivity: real := 14.375

  /** `readRawGyroData()`: the big-endian signed 16-bit words at offsets 0, 2 and 4;
      encoding them back big-endian gives the block. */
  function ReadRawGyroData(block: seq<Byte>): (raw: Int16Triple)
    requires |block| == 6
    ensures InInt16Range(raw) && TripleToBE(raw) == block
    ensures raw.x == ReadInt16BE(block, 0).value && raw.y == ReadInt16BE(block, 2).value &&
            raw.z == ReadInt16BE(block, 4).value
  {
    TripleBE(block)
  }

  /** `readGyroDPS()`: each raw axis divided by 14.375, in degrees per second. */
  function ReadGyroDPS(block: seq<Byte>): (rate: Vector)
    requires |block| == 6
    ensures var raw := ReadRawGyroData(block);
            rate.x * Sensitivity == raw.x as real && rate.y * Sensitivity == raw.y as real &&
            rate.z * Sensitivity == raw.z as real
  {
    var raw := ReadRawGyroData(block);
    Vector(raw.x as real / Sensitivity, raw.y as real / Sensitivity, raw.z as real / Sensitivity)
  }

  /** Raw values encoded big-endian read back as themselves. */
  lemma RawRoundTrip(t: Int16Triple)
    requires InInt16Range(t)
    ensures ReadRawGyroData(TripleToBE(t)) == t
  {
    TripleRoundTrip(t);
  }

  /** Every rate lies within [-32768 / 14.375, 32767 / 14.375] degrees per second
      and has the sign of its raw value. */
  lemma RateBounds(block: seq<Byte>)
    requires |block| == 6
    ensures var rate := ReadGyroDPS(block);
            -32768.0 / Sensitivity <= rate.x <= 32767.0 / Sensitivity &&
            -32768.0 / Sensitivity <= rate.y <= 32767.0 / Sensitivity &&
            -32768.0 / Sensitivity <= rate.z <= 32767.0 / Sensitivity
    ensures var raw := ReadRawGyroData(block);
            var rate := ReadGyroDPS(block);
            (rate.x > 0.0 <==> raw.x > 0) && (rate.y > 0.0 <==> raw.y > 0) && (rate.z > 0.0 <==> raw.z > 0)
  {
  }

  /** Degrees Celsius for a raw temperature word: (raw + 13200) / 280, with no
      further offset. */
  function Celsius(raw: int): real
  {
    (raw + 13200) as real / 280.0
  }

  /** `readTemperature()`: the big-endian signed word at offset 0 of the block,
      converted by Celsius. */
  function ReadTemperature(block: seq<Byte>): (celsius: real)
    requires |block| == 2
    ensures celsius * 280.0 - 13200.0 == ReadInt16BE(block, 0).value as real
    ensures (-32768.0 + 13200.0) / 280.0 <= celsius <= (32767.0 + 13200.0) / 280.0
  {
    Celsius(ReadInt16BE(block, 0).value)
  }

  /** The conversion is affine: raw -13200 reads 0 degrees, and every 280 LSB add
      exactly one degree. */
  lemma CelsiusAffine(raw: int)
    ensures Celsius(-13200) == 0.0
    ensures Celsius(raw + 280) == Celsius(raw) + 1.0
    ensures Celsius(raw) < Celsius(raw + 1)
  {
  }

  /** A temperature word written big-endian reads back converted by Celsius. */
  lemma TemperatureOfEncoded(raw: int)
    requires -0x8000 <= raw < 0x8000
    ensures ReadTemperature(Int16BE(raw)) == Celsius(raw)
  {
    Int16WriteRead(raw, [], []);
    assert [] + Int16BE(raw) + [] == Int16BE(raw);
  }
}
