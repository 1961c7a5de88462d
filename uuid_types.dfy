/** The value types shared by every part of the UUID library: the byte, the
    16-byte identifier, optional values and the errors the library returns. */
module UuidTypes {

  /** Go's `byte`: an 8-bit value whose shifts and bitwise operations
      truncate to 8 bits, as Go's do. */
  type byte = bv8

  /** Number of bytes in an identifier (`uuidSize`). */
  const UuidSize: nat := 16

  /** A UUID is exactly 16 bytes (`type UUID [uuidSize]byte`). */
  type UUID = s: seq<byte> | |s| == UuidSize witness [0, 0, 0, 0, 0, 0, 0, 0, 0, 0, 0, 0, 0, 0, 0, 0]

  /** The zero value of the array type, returned beside an error. */
  const ZeroUuid: UUID := [0, 0, 0, 0, 0, 0, 0, 0, 0, 0, 0, 0, 0, 0, 0, 0]

  /** A 6-byte hardware (node) address. */
  type NodeAddr = s: seq<byte> | |s| == 6 witness [0, 0, 0, 0, 0, 0]

  datatype Option<T> = None | Some(value: T)

  /** The errors that parsing can return: the library's own two, and the two
      that `encoding/hex` reports. */
  datatype Error =
    | ErrUUIDSize                  // byte slice is not 16 bytes long
    | ErrUUIDFormat                // does not match the canonical pattern
    | ErrHexLength                 // odd number of hex digits
    | ErrHexInvalidByte(c: char)   // a character that is not a hex digit

  /** Go's `(UUID, error)` pair: the array is returned whether or not there
      is an error, and `err == None` stands for a nil error. */
  datatype UuidResult = UuidResult(uuid: UUID, err: Option<Error>)
}
