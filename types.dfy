/** Values that flow through the replay: envelopes, the image readings they
    carry, the replay entries the player hands out, and the fixed-width
    integers the program computes with. */
module Types {

  datatype Option<T> = None | Some(value: T)

  const U32_MODULUS: int := 0x1_0000_0000

  /** The C++ `uint32_t`. */
  type uint32 = x: int | 0 <= x < 0x1_0000_0000

  /** `static_cast<uint32_t>` of a signed integer: two's-complement wrap-around. */
  function ToUint32(x: int): (r: uint32)
    ensures (r - x) % U32_MODULUS == 0
    ensures 0 <= x < U32_MODULUS ==> r == x
  {
    x % U32_MODULUS
  }

  /** A cluon time stamp, seconds and microseconds as recorded. */
  datatype TimeStamp = TimeStamp(seconds: int, microseconds: int)

  /** The fields of an `opendlv.proxy.ImageReading` message: the format tag,
      the frame dimensions and the compressed payload. */
  datatype ImageReading = ImageReading(fourcc: string, width: uint32, height: uint32, data: seq<bv8>)

  /** A cluon envelope.  `image` is what decoding the envelope's payload as an
      ImageReading yields; it is only looked at when `dataType` says the
      payload is one. */
  datatype Envelope = Envelope(
    dataType: int,
    senderStamp: uint32,
    sampleTimeStamp: TimeStamp,
    image: ImageReading)

  /** The message identifier of `opendlv.proxy.ImageReading` in the OpenDLV
      standard message set. */
  const IMAGE_READING_ID: int := 1055

  /** The only format tag that reaches the publish path. */
  const H264: string := "h264"

  /** One turn of the replay loop: what `od4.isRunning()` answers at the top
      of the turn, the pair `(found, envelope)` the player returns, the
      player's recommended delay in microseconds, and the two clock readings
      in microseconds taken around the image handler (unused for other
      envelopes). */
  datatype Entry = Entry(
    running: bool,
    found: bool,
    envelope: Envelope,
    delay: int,
    before: int,
    after: int)
}
