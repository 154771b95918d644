/** Characters, hexadecimal digits, 32-bit words and small option types shared by the modules. */
module Util {

  datatype Option<+T> = None | Some(value: T)

  /** One C `char`, stored as the unsigned value of its eight bits. */
  type Byte = b: int | 0 <= b < 256

  /** An unsigned 32-bit integer, and how many there are. */
  type Word32 = w: int | 0 <= w < 0x1_0000_0000

  const WORDS := 0x1_0000_0000

  const HASH: Byte := '#' as int
  const DOLLAR: Byte := '$' as int
  const STAR: Byte := '*' as int
  const PLUS: Byte := '+' as int
  const MINUS: Byte := '-' as int
  const COLON: Byte := ':' as int
  const RBRACE: Byte := '}' as int

  /** The value of a `char` when C promotes it to `int`: plain `char` is signed on the targets. */
  function Signed(b: Byte): int {
    if b < 128 then b else b - 256
  }

  lemma SignedIsTwosComplement(b: Byte)
    ensures -128 <= Signed(b) < 128 && (Signed(b) - b) % 256 == 0
  {
  }

  function NibbleToInt(ch: Byte): Option<int> {
    if 97 <= ch <= 102 then Some(ch - 97 + 10)
    else if 65 <= ch <= 70 then Some(ch - 65 + 10)
    else if 48 <= ch <= 57 then Some(ch - 48)
    else None
  }

  predicate IsHex(ch: Byte) {
    NibbleToInt(ch).Some?
  }

  function HexDigit(n: int): Byte
    requires 0 <= n < 16
  {
    if n < 10 then 48 + n else 97 + (n - 10)
  }

  /** The character `IntToNibble` leaves behind: `previous` when `n` does not fit in a nibble. */
  function IntToNibble(n: int, previous: Byte): Byte {
    if 0 <= n < 16 then HexDigit(n) else previous
  }

  /** The digits as they are written, and the upper-case ones that are read as well. */
  const LOWER := "0123456789abcdef"
  const UPPER := "0123456789ABCDEF"

  predicate IsDigit(ch: Byte, v: int) {
    0 <= v < 16 && (ch == LOWER[v] as int || ch == UPPER[v] as int)
  }

  ghost predicate IsAnyDigit(ch: Byte) {
    exists v :: IsDigit(ch, v)
  }

  /** A character stands for its position among the digits of either case, and else for nothing. */
  lemma NibbleIsPosition(ch: Byte)
    ensures forall v :: NibbleToInt(ch) == Some(v) <==> IsDigit(ch, v)
    ensures NibbleToInt(ch).Some? <==> IsAnyDigit(ch)
  {
    assert NibbleToInt(ch).Some? ==> IsDigit(ch, NibbleToInt(ch).value);
  }

  /** A number below 16 is written as the lower-case digit at its position; others are not written. */
  lemma NibbleIsWritten(n: int, previous: Byte)
    ensures IntToNibble(n, previous) == if 0 <= n < 16 then LOWER[n] as int else previous
  {
  }

  lemma HexDigitReadsBack(n: int)
    requires 0 <= n < 16
    ensures NibbleToInt(HexDigit(n)) == Some(n)
    ensures HexDigit(n) !in {HASH, DOLLAR, STAR, PLUS, MINUS, COLON, RBRACE}
  {
  }

  function Repeat<T>(x: T, n: nat): (r: seq<T>)
    ensures |r| == n
    ensures forall i :: 0 <= i < n ==> r[i] == x
  {
    seq(n, _ => x)
  }

  function Sum(s: seq<Byte>): nat {
    if s == [] then 0 else Sum(s[..|s| - 1]) + s[|s| - 1]
  }
}
