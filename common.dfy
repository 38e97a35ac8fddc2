/** Values shared by the publisher and the subscriber scripts. */
module Common {

  datatype Option<+T> = None | Some(value: T)

  /** One byte of an MQTT payload (Python `bytes` element). */
  newtype byte = x: int | 0 <= x < 256

  /** The literal acknowledgement payload `b"ACK"`. */
  const AckPayload: seq<byte> := [65, 67, 75]
}
