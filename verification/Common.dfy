/** The few types every part of the model shares. */
module Common {
  datatype Option<+T> = None | Some(value: T)

  type byte = b: int | 0 <= b < 256
  type Bytes = seq<byte>

  /** Every character that ends a line, not only the newline. */
  predicate Break(c: char) {
    c as int in {0x0A, 0x0B, 0x0C, 0x0D, 0x1C, 0x1D, 0x1E, 0x85, 0x2028, 0x2029}
  }

  /** What stripping takes off. */
  predicate Space(c: char) {
    || Break(c) || c as int in {0x09, 0x1F, 0x20, 0xA0, 0x1680, 0x202F, 0x205F, 0x3000}
    || 0x2000 <= c as int <= 0x200A
  }
}
