/** The ADXL345 accelerometer driver of s_adxl345.js. The I2C bus is `this.i2c`,
    set once by the constructor and `null` when opening failed; here it is the
    flag `busOpen`. The block read from the data registers is an input: Some of
    the 6 bytes read, or None when the read threw. */
module Adxl345 {
  import opened JsValues
  import opened NodeBuffer
  import opened SensorAxes

  const PowerCtl: Byte := 0x2D
  const MeasureMode: Byte := 0x08
  const DataFormat: Byte := 0x31
  const FullResolution16g: Byte := 0x0B
  /** DATAX0, the first of the six data registers. */
  const DataX0: Byte := 0x32
  /** 3.9 mg per LSB in full-resolution mode. */
  const ScaleFactor: real := 0.0039

  /** `init()`: the (register, value) writes it issues, in order; none when the bus
      is not open. */
  function Init(busOpen: bool): (writes: seq<(Byte, Byte)>)
    ensures writes != [] <==> busOpen
    ensures busOpen ==> writes == [(PowerCtl, MeasureMode), (DataFormat, FullResolution16g)]
  {
    if busOpen then [(PowerCtl, MeasureMode), (DataFormat, FullResolution16g)] else []
  }

  /** `readAcceleration()` in g: each axis is the little-endian signed 16-bit word
      at offsets 0, 2 and 4 times 0.0039; {0, 0, 0} when the bus is not open (no
      read is made) or when the read throws. */
  function ReadAcceleration(busOpen: bool, read: Option<seq<Byte>>): (a: Vector)
    requires read.Some? ==> |read.value| == 6
    ensures !busOpen || read.None? ==> a == Zero
    ensures busOpen && read.Some? ==>
              a.x == ReadInt16LE(read.value, 0).value as real * ScaleFactor &&
              a.y == ReadInt16LE(read.value, 2).value as real * ScaleFactor &&
              a.z == ReadInt16LE(read.value, 4).value as real * ScaleFactor
  {
    if !busOpen then Zero
    else
      match read
      case None => Zero
      case Some(buffer) => Scaled(TripleLE(buffer), ScaleFactor)
  }

  /** Reading the little-endian encoding of three raw values gives those values
      scaled by 0.0039. */
  lemma ReadEncoded(t: Int16Triple)
    requires InInt16Range(t)
    ensures ReadAcceleration(true, Some(TripleToLE(t))) == Scaled(t, ScaleFactor)
  {
    TripleRoundTrip(t);
  }

  /** Dividing a reading by 0.0039 gives raw values whose little-endian encoding
      is the block that was read. */
  lemma RecoversBlock(block: seq<Byte>)
    requires |block| == 6
    ensures var a := ReadAcceleration(true, Some(block));
            var raw := Int16Triple((a.x / ScaleFactor).Floor, (a.y / ScaleFactor).Floor, (a.z / ScaleFactor).Floor);
            InInt16Range(raw) && TripleToLE(raw) == block
  {
    var t := TripleLE(block);
    ScaledAxis(t.x, ScaleFactor);
    ScaledAxis(t.y, ScaleFactor);
    ScaledAxis(t.z, ScaleFactor);
  }

  /** Every axis lies within [-32768 * 0.0039, 32767 * 0.0039] g. */
  lemma AccelerationBounds(busOpen: bool, read: Option<seq<Byte>>)
    requires read.Some? ==> |read.value| == 6
    ensures var a := ReadAcceleration(busOpen, read);
            -32768.0 * ScaleFactor <= a.x <= 32767.0 * ScaleFactor &&
            -32768.0 * ScaleFactor <= a.y <= 32767.0 * ScaleFactor &&
            -32768.0 * ScaleFactor <= a.z <= 32767.0 * ScaleFactor
  {
    if busOpen && read.Some? {
      var t := TripleLE(read.value);
      ScaledAxis(t.x, ScaleFactor);
      ScaledAxis(t.y, ScaleFactor);
      ScaledAxis(t.z, ScaleFactor);
    }
  }

  /** Each axis depends only on its own pair of bytes. */
  lemma AxesIndependent(b1: seq<Byte>, b2: seq<Byte>)
    requires |b1| == 6 && |b2| == 6
    ensures b1[0..2] == b2[0..2] ==> ReadAcceleration(true, Some(b1)).x == ReadAcceleration(true, Some(b2)).x
    ensures b1[2..4] == b2[2..4] ==> ReadAcceleration(true, Some(b1)).y == ReadAcceleration(true, Some(b2)).y
    ensures b1[4..6] == b2[4..6] ==> ReadAcceleration(true, Some(b1)).z == ReadAcceleration(true, Some(b2)).z
  {
    assert b1[0..2] == b2[0..2] ==> b1[0] == b2[0] && b1[1] == b2[1];
    assert b1[2..4] == b2[2..4] ==> b1[2] == b2[2] && b1[3] == b2[3];
    assert b1[4..6] == b2[4..6] ==> b1[4] == b2[4] && b1[5] == b2[5];
  }
}
