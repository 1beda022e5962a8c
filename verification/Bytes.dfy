/** Bytes, the character constants the parser dispatches on, and the Option type. */
module Bytes {
  datatype Option<+T> = None | Some(value: T)

  type byte = bv8
  type bytes = seq<byte>

  const NUL: byte := 0x00
  const TAB: byte := 0x09
  const LF: byte := 0x0A
  const CR: byte := 0x0D
  const SPACE: byte := 0x20
  const QUOTE: byte := 0x22
  const PLUS: byte := 0x2B
  const COMMA: byte := 0x2C
  const MINUS: byte := 0x2D
  const DOT: byte := 0x2E
  const SLASH: byte := 0x2F
  const STAR: byte := 0x2A
  const ZERO: byte := 0x30
  const COLON: byte := 0x3A
  const LBRACKET: byte := 0x5B
  const BACKSLASH: byte := 0x5C
  const RBRACKET: byte := 0x5D
  const LBRACE: byte := 0x7B
  const RBRACE: byte := 0x7D

  predicate IsDigit(b: byte) {
    0x30 <= b <= 0x39
  }

  predicate IsSpace(b: byte) {
    b == LF || b == SPACE || b == TAB || b == CR
  }

  predicate IsExponentMark(b: byte) {
    b == 0x65 || b == 0x45
  }

  predicate IsSign(b: byte) {
    b == PLUS || b == MINUS
  }

  /** The value of a decimal digit. */
  function DigitValue(b: byte): (n: nat)
    ensures n <= 9
  {
    if b == 0x31 then 1 else if b == 0x32 then 2 else if b == 0x33 then 3
    else if b == 0x34 then 4 else if b == 0x35 then 5 else if b == 0x36 then 6
    else if b == 0x37 then 7 else if b == 0x38 then 8 else if b == 0x39 then 9
    else 0
  }

  /** A C int. */
  type CInt = x: int | -0x8000_0000 <= x < 0x8000_0000
}
