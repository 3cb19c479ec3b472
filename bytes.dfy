/** Raw file contents: the splitter works on bytes, never on decoded text. */
module Bytes {

  newtype byte = x: int | 0 <= x < 256

  type Bytes = seq<byte>

  const LF: byte := 10
  const CR: byte := 13
  const DASH: byte := 45
}
