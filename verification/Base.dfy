// What several components share.

module Base {

  datatype Option<+T> = None | Some(value: T)

  // Conversion to int16_t.
  function Int16(x: int): int {
    (x + 0x8000) % 0x10000 - 0x8000
  }
}
