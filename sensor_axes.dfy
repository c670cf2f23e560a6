/** The `{ x, y, z }` objects the three I2C sensor drivers return, and the scaling
    of a decoded register triple into physical units. Numbers are exact reals:
    the IEEE rounding of the scale factors is not modelled. */
module SensorAxes {
  import opened NodeBuffer

  datatype Vector = Vector(x: real, y: real, z: real)

  const Zero := Vector(0.0, 0.0, 0.0)

  /** Each axis multiplied by the same factor. */
  function Scaled(t: Int16Triple, factor: real): Vector
  {
    Vector(t.x as real * factor, t.y as real * factor, t.z as real * factor)
  }

  /** A 16-bit value scaled by a positive factor lies within
      [-32768 * factor, 32767 * factor], keeps its sign and its zero, and is
      recovered by dividing by the factor. */
  lemma ScaledAxis(raw: int, factor: real)
    requires -0x8000 <= raw < 0x8000 && factor > 0.0
    ensures -32768.0 * factor <= raw as real * factor <= 32767.0 * factor
    ensures raw as real * factor > 0.0 <==> raw > 0
    ensures raw as real * factor == 0.0 <==> raw == 0
    ensures raw as real * factor / factor == raw as real
  {
    assert (raw as real - 32767.0) * factor <= 0.0;
    assert (raw as real + 32768.0) * factor >= 0.0;
  }
}
