/**
 * Fixed-width integer types of the interpreter and the wrap-around arithmetic
 * that Go's unsigned and signed integer types perform implicitly.
 *
 * All values are unbounded Dafny integers restricted by subset types; every
 * wrap-around of the source is written out explicitly.
 */
module Base {

  /** Go `uint8` (also the `Registr` register type). */
  type Byte = b: int | 0 <= b < 0x100

  /** Go `uint16` (program counter, address register, opcodes). */
  type Word = w: int | 0 <= w < 0x1_0000

  /** Go `uint32` (entries of the call stack). */
  type Word32 = w: int | 0 <= w < 0x1_0000_0000

  /** Go `int8` (the `CPUTimer` type and the coordinates of `draw_line8`). */
  type Int8 = t: int | -0x80 <= t < 0x80

  /** A register index 0x0..0xF. */
  type Reg = r: int | 0 <= r < 16

  datatype Option<T> = None | Some(value: T)

  /** Truncation to 8 bits, as every `uint8` operation does. */
  function Wrap8(v: int): (r: Byte)
    ensures (r - v) % 0x100 == 0
    ensures 0 <= v < 0x100 ==> r == v
  {
    v % 0x100
  }

  /** Truncation to 16 bits, as every `uint16` operation does. */
  function Wrap16(v: int): (r: Word)
    ensures (r - v) % 0x1_0000 == 0
    ensures 0 <= v < 0x1_0000 ==> r == v
  {
    v % 0x1_0000
  }

  /** Two's-complement truncation to a signed byte, as every `int8` operation does. */
  function Wrap8s(v: int): (r: Int8)
    ensures (r - v) % 0x100 == 0
    ensures -0x80 <= v < 0x80 ==> r == v
  {
    (v + 0x80) % 0x100 - 0x80
  }

  /** The conversion `int8(b)` of a byte: reinterpretation of the same eight bits. */
  function ToInt8(b: Byte): (t: Int8)
    ensures (t - b) % 0x100 == 0
    ensures t < 0 <==> b >= 0x80
  {
    if b >= 0x80 then b - 0x100 else b
  }

  /** The conversion `uint8(t)` of a signed byte. */
  function FromInt8(t: Int8): (b: Byte)
    ensures (t - b) % 0x100 == 0
    ensures t < 0 <==> b >= 0x80
  {
    if t < 0 then t + 0x100 else t
  }

  /** The two conversions are mutually inverse. */
  lemma Int8RoundTrip(b: Byte, t: Int8)
    ensures FromInt8(ToInt8(b)) == b
    ensures ToInt8(FromInt8(t)) == t
  {
  }

  /** Go's `|` on two bytes. */
  function Or8(a: Byte, b: Byte): Byte
  {
    ((a as bv8) | (b as bv8)) as int
  }

  /** Go's `&` on two bytes. */
  function And8(a: Byte, b: Byte): Byte
  {
    ((a as bv8) & (b as bv8)) as int
  }

  /** Go's `^` on two bytes. */
  function Xor8(a: Byte, b: Byte): Byte
  {
    ((a as bv8) ^ (b as bv8)) as int
  }

  function Pow2(k: nat): (p: nat)
    ensures p >= 1
  {
    if k == 0 then 1 else 2 * Pow2(k - 1)
  }

  /** `(b >> k) & 1`: bit k of a byte, bit 0 being the least significant. */
  function Bit(b: Byte, k: nat): (r: int)
    requires k < 8
    ensures r == 0 || r == 1
  {
    b / Pow2(k) % 2
  }

  /** Quotient and remainder are determined by `w == q * d + r` with `0 <= r < d`. */
  lemma {:induction false} DivModOf(w: int, d: int, q: int, r: int)
    requires d > 0 && 0 <= r < d && w == q * d + r
    ensures w / d == q && w % d == r
  {
    var q', r' := w / d, w % d;
    assert (q - q') * d == r' - r;
    if q > q' {
      MulAtLeast(q - q', d);
    } else if q < q' {
      MulAtLeast(q' - q, d);
    }
  }

  /** A positive multiple of `d` is at least `d`. */
  lemma MulAtLeast(k: int, d: int)
    requires k >= 1 && d > 0
    ensures k * d >= d
  {
    assert k * d == (k - 1) * d + d;
  }

  /** A word written as four hex digits splits back into those digits. */
  lemma Nibbles(a: nat, b: nat, c: nat, d: nat)
    requires a < 0x10 && b < 0x10 && c < 0x10 && d < 0x10
    ensures var w := a * 0x1000 + b * 0x100 + c * 0x10 + d;
      && w / 0x1000 == a && w / 0x100 % 0x10 == b && w / 0x10 % 0x10 == c && w % 0x10 == d
      && w / 0x1000 % 0x10 == a && w % 0x100 == c * 0x10 + d && w % 0x1000 == b * 0x100 + c * 0x10 + d
  {
    var w := a * 0x1000 + b * 0x100 + c * 0x10 + d;
    DivModOf(w, 0x1000, a, b * 0x100 + c * 0x10 + d);
    DivModOf(a, 0x10, 0, a);
    DivModOf(w, 0x100, a * 0x10 + b, c * 0x10 + d);
    DivModOf(a * 0x10 + b, 0x10, a, b);
    DivModOf(w, 0x10, a * 0x100 + b * 0x10 + c, d);
    DivModOf(a * 0x100 + b * 0x10 + c, 0x10, a * 0x10 + b, c);
  }

  /** Every word is its four hex digits, most significant first. */
  lemma WordNibbles(w: Word)
    ensures w == w / 0x1000 * 0x1000 + w / 0x100 % 0x10 * 0x100 + w / 0x10 % 0x10 * 0x10 + w % 0x10
    ensures w / 0x1000 < 0x10 && w / 0x1000 % 0x10 == w / 0x1000
    ensures w % 0x100 == w / 0x10 % 0x10 * 0x10 + w % 0x10
    ensures w % 0x1000 == w / 0x100 % 0x10 * 0x100 + w % 0x100
  {
    var rest := w % 0x1000;
    var b, c, d := rest / 0x100, rest % 0x100 / 0x10, rest % 0x10;
    assert rest % 0x100 == c * 0x10 + d;
    assert w == w / 0x1000 * 0x1000 + b * 0x100 + c * 0x10 + d;
    Nibbles(w / 0x1000, b, c, d);
  }
}
