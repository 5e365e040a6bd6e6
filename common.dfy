/** Optional values, standing in for Rust's Option. */
module Wrappers {
  datatype Option<+T> = None | Some(value: T)
}

/** The decoded terminal input the three modes react to (crossterm's Event and KeyEvent).
    Only the fields the program looks at are kept: the key code and the event kind. */
module Input {
  datatype KeyEventKind = Press | Repeat | Release

  datatype KeyCode = Up | Down | Left | Right | Enter | Backspace | Char(c: char) | Other

  datatype KeyEvent = KeyEvent(code: KeyCode, kind: KeyEventKind)

  /** A key event, or any other terminal event (mouse, resize, focus, paste). */
  datatype Event = Key(key: KeyEvent) | OtherEvent
}

/** The fixed-width unsigned integers of the source. */
module Numbers {
  type U16 = x: int | 0 <= x < 0x1_0000
  type U32 = x: int | 0 <= x < 0x1_0000_0000

  /** Rust's `f64 as u16` on a non-negative whole number: saturates at the top of the range. */
  function ToU16(n: nat): (r: U16)
    ensures r <= n
    ensures n < 0x1_0000 ==> r == n
    ensures n >= 0x1_0000 ==> r == 0xFFFF
  {
    if n > 0xFFFF then 0xFFFF else n
  }
}
