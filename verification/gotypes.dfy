/**
  Go value shapes that the memoizer and its error type are built from:
  nil-able values, the 64-bit integer types and byte payloads.
 */
module GoTypes {

  /** A value that Go may leave nil (an `error` interface, for one). */
  datatype Option<+T> = None | Some(value: T)

  /** Go's `int64`, and Go's `int` on the 64-bit platforms the service runs on. */
  type Int64 = x: int | -0x8000_0000_0000_0000 <= x < 0x8000_0000_0000_0000

  /** Go's `uint64`, the width of a CRC-64 checksum. */
  type Uint64 = bv64

  /** A `[]byte` payload, e.g. the raw pixels of one MNIST image. */
  type Payload = seq<bv8>
}
