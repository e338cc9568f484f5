/** Strings of bytes. */
module ByteStrings {
  type Byte = x: nat | x < 256
  type Bytes = seq<Byte>
}
