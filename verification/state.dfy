/**
 * The interpreter state: the fields of `CHIP8CPU` (cpu.go) together with the
 * memory and the screen grid it reaches through the console, as one
 * immutable record. The keypad and the random source are not part of it:
 * the operations that consult them take them as arguments.
 */
module State {
  import opened Base
  import Memory
  import CallStack
  import Display

  datatype Machine = Machine(
    v: seq<Byte>,          // V0..VF
    i: Word,               // the address register I
    pc: Word,              // the program counter
    sp: CallStack.Stack,   // the call stack
    dt: Int8,              // the delay timer, a signed byte
    st: Int8,              // the sound timer, a signed byte
    mem: Memory.Mem,
    pic: Display.Grid)

  /** The shapes fixed at initialisation: 16 registers, 0x1000 bytes, a 64x32 grid. */
  predicate Valid(m: Machine)
  {
    && |m.v| == 16
    && Memory.Valid(m.mem)
    && CallStack.Valid(m.sp)
    && Display.WellShaped(m.pic)
  }

  /** The run-time panics of the source: popping an empty stack, indexing past memory or the grid. */
  datatype Error = StackUnderflow | OutOfBounds

  datatype Result = Ok(m: Machine) | Fault(error: Error)

  const VF: Reg := 0xF

  /** `cpu.v[x] = val`. */
  function SetV(m: Machine, x: Reg, val: Byte): (r: Machine)
    requires Valid(m)
    ensures Valid(r)
    ensures r.v[x] == val && forall k :: 0 <= k < 16 && k != x ==> r.v[k] == m.v[k]
    ensures r.(v := m.v) == m
  {
    m.(v := m.v[x := val])
  }
}
