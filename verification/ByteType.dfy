/** The bytes that buffers hold. */
module ByteType {
  newtype byte = x: int | 0 <= x < 256
}
