/**
 * The opcode bodies of opcodes.go, one pure function per `op_*` method, and
 * the field extraction those methods perform.
 *
 * Each body takes the decoded fields as arguments (`x`, `y` register
 * indices, `nn` byte, `nnn` address), so that its behaviour can be stated
 * for every field value; `Cpu.Execute` feeds them the fields exactly as
 * opcodes.go computes them, which makes `x` and `y` always 0.
 */
module Opcodes {
  import opened Base
  import opened State
  import Memory
  import CallStack
  import Display
  import Input

  // ---------------------------------------------------------------------
  // Field extraction as written in opcodes.go.
  // ---------------------------------------------------------------------

  /**
   * `(op & 0x0F00) >> 16`: the mask keeps bits 8..11, but a 16-bit value
   * shifted right by 16 bits is 0, so every VX opcode addresses V0.
   */
  function FieldX(op: Word): (x: Reg)
    ensures x == 0
  {
    (op / 0x100 % 0x10 * 0x100) / 0x1_0000
  }

  /** `(op & 0x00F0) >> 8`: the mask keeps bits 4..7 and the shift discards them, so VY is V0 too. */
  function FieldY(op: Word): (y: Reg)
    ensures y == 0
  {
    (op / 0x10 % 0x10 * 0x10) / 0x100
  }

  /** `op & 0x00FF`: the low byte, which together with the high byte rebuilds the word. */
  function FieldNN(op: Word): (nn: Byte)
    ensures op == op / 0x100 * 0x100 + nn
  {
    op % 0x100
  }

  /** `op & 0x0FFF`: the twelve address bits below the class nibble. */
  function FieldNNN(op: Word): (nnn: nat)
    ensures nnn < 0x1000 && op == op / 0x1000 * 0x1000 + nnn
  {
    op % 0x1000
  }

  // ---------------------------------------------------------------------
  // Class 0.
  // ---------------------------------------------------------------------

  /** 0NNN: the body is empty (and `tick` never dispatches to it). */
  function Op0NNN(m: Machine): Machine
  {
    m
  }

  /** 00E0: clears the screen; nothing else changes. */
  function Op00E0(m: Machine): (r: Machine)
    requires Valid(m)
    ensures Valid(r) && r.(pic := m.pic) == m
    ensures forall c, q :: 0 <= c < Display.Width && 0 <= q < Display.Height ==> r.pic[c][q] == 0
  {
    m.(pic := Display.Clear(m.pic))
  }

  /**
   * 00EE: PC := the popped return address, truncated to 16 bits. Popping an
   * empty stack is the underflow fault.
   */
  function Op00EE(m: Machine): (r: Result)
    requires Valid(m)
    ensures r.Fault? <==> CallStack.Depth(m.sp) == 0
    ensures r.Fault? ==> r.error == StackUnderflow
    ensures r.Ok? ==> Valid(r.m) && r.m.(pc := m.pc, sp := m.sp) == m
    ensures r.Ok? ==> exists top :: CallStack.Contents(m.sp) == CallStack.Contents(r.m.sp) + [top] && r.m.pc == top % 0x1_0000
  {
    match CallStack.Pop(m.sp)
    case None => Fault(StackUnderflow)
    case Some((s, addr)) =>
      Ok(m.(pc := Wrap16(addr), sp := s))
  }

  // ---------------------------------------------------------------------
  // Jumps, calls and skips.
  // ---------------------------------------------------------------------

  /** 1NNN: PC := NNN. */
  function Op1NNN(m: Machine, nnn: nat): (r: Machine)
    requires Valid(m) && nnn < 0x1000
    ensures Valid(r) && r.pc == nnn && r.(pc := m.pc) == m
  {
    m.(pc := nnn)
  }

  /**
   * 2NNN: pushes the PC (already advanced past this instruction) and jumps to
   * NNN. On a full stack the push is silently lost but the jump still happens.
   */
  function Op2NNN(m: Machine, nnn: nat): (r: Machine)
    requires Valid(m) && nnn < 0x1000
    ensures Valid(r) && r.pc == nnn && r.(pc := m.pc, sp := m.sp) == m
    ensures m.sp.i < m.sp.size ==> CallStack.Contents(r.sp) == CallStack.Contents(m.sp) + [m.pc]
    ensures m.sp.i == m.sp.size ==> r.sp == m.sp
  {
    m.(sp := CallStack.Push(m.sp, m.pc), pc := nnn)
  }

  /** The PC after a skip: two bytes further, in `uint16` arithmetic. */
  function Skip(m: Machine, taken: bool): (r: Machine)
    requires Valid(m)
    ensures Valid(r) && r.(pc := m.pc) == m
    ensures taken ==> r.pc == Wrap16(m.pc + 2)
    ensures !taken ==> r == m
  {
    if taken then m.(pc := Wrap16(m.pc + 2)) else m
  }

  /** 3XNN: skips when VX equals NN. */
  function Op3XNN(m: Machine, x: Reg, nn: Byte): (r: Machine)
    requires Valid(m)
    ensures Valid(r) && r.(pc := m.pc) == m
    ensures r.pc == (if m.v[x] == nn then (m.pc + 2) % 0x1_0000 else m.pc)
  {
    Skip(m, m.v[x] == nn)
  }

  /** 4XNN: skips when VX differs from NN. */
  function Op4XNN(m: Machine, x: Reg, nn: Byte): (r: Machine)
    requires Valid(m)
    ensures Valid(r) && r.(pc := m.pc) == m
    ensures r.pc == (if m.v[x] != nn then (m.pc + 2) % 0x1_0000 else m.pc)
  {
    Skip(m, m.v[x] != nn)
  }

  /** 5XY0: skips when VX equals VY (the low nibble is not checked). */
  function Op5XY0(m: Machine, x: Reg, y: Reg): (r: Machine)
    requires Valid(m)
    ensures Valid(r) && r.(pc := m.pc) == m
    ensures r.pc == (if m.v[x] == m.v[y] then (m.pc + 2) % 0x1_0000 else m.pc)
  {
    Skip(m, m.v[x] == m.v[y])
  }

  /** 9XY0: skips when VX differs from VY (the low nibble is not checked). */
  function Op9XY0(m: Machine, x: Reg, y: Reg): (r: Machine)
    requires Valid(m)
    ensures Valid(r) && r.(pc := m.pc) == m
    ensures r.pc == (if m.v[x] != m.v[y] then (m.pc + 2) % 0x1_0000 else m.pc)
  {
    Skip(m, m.v[x] != m.v[y])
  }

  /** Of 3XNN and 4XNN with the same operands, exactly one skips; likewise 5XY0 and 9XY0. */
  lemma SkipPairsExclusive(m: Machine, x: Reg, y: Reg, nn: Byte)
    requires Valid(m)
    ensures (Op3XNN(m, x, nn).pc == Wrap16(m.pc + 2)) != (Op4XNN(m, x, nn).pc == Wrap16(m.pc + 2))
    ensures (Op5XY0(m, x, y).pc == Wrap16(m.pc + 2)) != (Op9XY0(m, x, y).pc == Wrap16(m.pc + 2))
    ensures Op3XNN(m, x, nn).pc == m.pc || Op4XNN(m, x, nn).pc == m.pc
    ensures Op5XY0(m, x, y).pc == m.pc || Op9XY0(m, x, y).pc == m.pc
  {
  }

  /** BNNN: PC := NNN + V0 in `uint16` arithmetic (V0 always, never VX). */
  function OpBNNN(m: Machine, nnn: nat): (r: Machine)
    requires Valid(m) && nnn < 0x1000
    ensures Valid(r) && r.(pc := m.pc) == m
    ensures r.pc == nnn + m.v[0] && r.pc < 0x1100
  {
    m.(pc := Wrap16(nnn + m.v[0]))
  }

  // ---------------------------------------------------------------------
  // Register loads and arithmetic.
  // ---------------------------------------------------------------------

  /** 6XNN: VX := NN; nothing else changes. */
  function Op6XNN(m: Machine, x: Reg, nn: Byte): (r: Machine)
    requires Valid(m)
    ensures Valid(r) && r.v[x] == nn
    ensures forall k :: 0 <= k < 16 && k != x ==> r.v[k] == m.v[k]
    ensures r.(v := m.v) == m
  {
    SetV(m, x, nn)
  }

  /** 7XNN: VX := VX + NN modulo 256, with no flag: VF is untouched unless it is VX. */
  function Op7XNN(m: Machine, x: Reg, nn: Byte): (r: Machine)
    requires Valid(m)
    ensures Valid(r)
    ensures (r.v[x] as int - m.v[x] - nn) % 0x100 == 0
    ensures m.v[x] as int + nn < 0x100 ==> r.v[x] == m.v[x] as int + nn
    ensures m.v[x] as int + nn >= 0x100 ==> r.v[x] == m.v[x] as int + nn - 0x100
    ensures forall k :: 0 <= k < 16 && k != x ==> r.v[k] == m.v[k]
    ensures r.(v := m.v) == m
  {
    SetV(m, x, Wrap8(m.v[x] as int + nn))
  }

  /** 8XY0: VX := VY. */
  function Op8XY0(m: Machine, x: Reg, y: Reg): (r: Machine)
    requires Valid(m)
    ensures Valid(r) && r.v[x] == m.v[y]
    ensures forall k :: 0 <= k < 16 && k != x ==> r.v[k] == m.v[k]
    ensures r.(v := m.v) == m
  {
    SetV(m, x, m.v[y])
  }

  /** 8XY1: VX := VX | VY. */
  function Op8XY1(m: Machine, x: Reg, y: Reg): (r: Machine)
    requires Valid(m)
    ensures Valid(r) && r.v[x] == Or8(m.v[x], m.v[y])
    ensures forall k :: 0 <= k < 16 && k != x ==> r.v[k] == m.v[k]
    ensures r.(v := m.v) == m
  {
    SetV(m, x, Or8(m.v[x], m.v[y]))
  }

  /** 8XY2: VX := VX & VY. */
  function Op8XY2(m: Machine, x: Reg, y: Reg): (r: Machine)
    requires Valid(m)
    ensures Valid(r) && r.v[x] == And8(m.v[x], m.v[y])
    ensures forall k :: 0 <= k < 16 && k != x ==> r.v[k] == m.v[k]
    ensures r.(v := m.v) == m
  {
    SetV(m, x, And8(m.v[x], m.v[y]))
  }

  /** 8XY3: VX := VX ^ VY. */
  function Op8XY3(m: Machine, x: Reg, y: Reg): (r: Machine)
    requires Valid(m)
    ensures Valid(r) && r.v[x] == Xor8(m.v[x], m.v[y])
    ensures forall k :: 0 <= k < 16 && k != x ==> r.v[k] == m.v[k]
    ensures r.(v := m.v) == m
  {
    SetV(m, x, Xor8(m.v[x], m.v[y]))
  }

  /**
   * 8XY4: VX := VX + VY modulo 256. The sum is formed in 8 bits before it is
   * widened and compared with 0xFFFF, so the carry flag written to VF is
   * always 0 (VF is then overwritten by the sum when X is F).
   */
  function Op8XY4(m: Machine, x: Reg, y: Reg): (r: Machine)
    requires Valid(m)
    ensures Valid(r)
    ensures r.v[x] == (m.v[x] as int + m.v[y]) % 0x100
    ensures x != VF ==> r.v[VF] == 0
    ensures forall k :: 0 <= k < 16 && k != x && k != VF ==> r.v[k] == m.v[k]
    ensures r.(v := m.v) == m
  {
    var sum := Wrap8(m.v[x] as int + m.v[y]);
    var m1 := SetV(m, VF, CarryFlag(sum));
    SetV(m1, x, Wrap8(sum % 0x1_0000))
  }

  /** The carry test of 8XY4, `sum > 0xFFFF`, applied to whatever sum it is given. */
  function CarryFlag(sum: int): (f: Byte)
    ensures f == 1 <==> sum > 0xFFFF
    ensures f <= 1
  {
    if sum > 0xFFFF then 1 else 0
  }

  /** The flag 8XY5 and 8XY7 write: 1 when the minuend is strictly greater, 0 otherwise. */
  function NoBorrow(minuend: Byte, subtrahend: Byte): (f: Byte)
    ensures f == 1 <==> minuend > subtrahend
    ensures f <= 1
  {
    if minuend > subtrahend then 1 else 0
  }

  /**
   * 8XY5: VF := 1 iff VX > VY (strictly), then VX := VX - VY modulo 256.
   * VF is written first, so when X, Y or both are F the subtraction reads the flag.
   */
  function Op8XY5(m: Machine, x: Reg, y: Reg): (r: Machine)
    requires Valid(m)
    ensures Valid(r)
    ensures x != VF && y != VF ==>
      r.v[x] == (m.v[x] as int - m.v[y]) % 0x100 && r.v[VF] == NoBorrow(m.v[x], m.v[y])
    ensures x == VF && y != VF ==> r.v[VF] == (NoBorrow(m.v[x], m.v[y]) - m.v[y]) % 0x100
    ensures x != VF && y == VF ==>
      r.v[x] == (m.v[x] - NoBorrow(m.v[x], m.v[y])) % 0x100 && r.v[VF] == NoBorrow(m.v[x], m.v[y])
    ensures x == VF && y == VF ==> r.v[VF] == 0
    ensures forall k :: 0 <= k < 16 && k != x && k != VF ==> r.v[k] == m.v[k]
    ensures r.(v := m.v) == m
  {
    var m1 := SetV(m, VF, NoBorrow(m.v[x], m.v[y]));
    SetV(m1, x, Wrap8(m1.v[x] as int - m1.v[y]))
  }

  /** 8XY7: VF := 1 iff VY > VX (strictly), then VX := VY - VX modulo 256, reading VF if X, Y or both are F. */
  function Op8XY7(m: Machine, x: Reg, y: Reg): (r: Machine)
    requires Valid(m)
    ensures Valid(r)
    ensures x != VF && y != VF ==>
      r.v[x] == (m.v[y] as int - m.v[x]) % 0x100 && r.v[VF] == NoBorrow(m.v[y], m.v[x])
    ensures x == VF && y != VF ==> r.v[VF] == (m.v[y] - NoBorrow(m.v[y], m.v[x])) % 0x100
    ensures x != VF && y == VF ==>
      r.v[x] == (NoBorrow(m.v[y], m.v[x]) - m.v[x]) % 0x100 && r.v[VF] == NoBorrow(m.v[y], m.v[x])
    ensures x == VF && y == VF ==> r.v[VF] == 0
    ensures forall k :: 0 <= k < 16 && k != x && k != VF ==> r.v[k] == m.v[k]
    ensures r.(v := m.v) == m
  {
    var m1 := SetV(m, VF, NoBorrow(m.v[y], m.v[x]));
    SetV(m1, x, Wrap8(m1.v[y] as int - m1.v[x]))
  }

  /** 8XY6: VF := the least significant bit of VX, then VX := VX >> 1 (read after the flag write). */
  function Op8XY6(m: Machine, x: Reg): (r: Machine)
    requires Valid(m)
    ensures Valid(r)
    ensures x != VF ==> r.v[VF] == m.v[x] % 2 && 2 * (r.v[x] as int) + r.v[VF] == m.v[x]
    ensures x == VF ==> r.v[VF] == 0
    ensures forall k :: 0 <= k < 16 && k != x && k != VF ==> r.v[k] == m.v[k]
    ensures r.(v := m.v) == m
  {
    var m1 := SetV(m, VF, m.v[x] % 2);              // cpu.v[x] & 0x0001
    SetV(m1, x, m1.v[x] / 2)                        // cpu.v[x] >> 1
  }

  /**
   * 8XYE: VX := VX << 1 modulo 256. The flag `(VX & 0x80) >> 15` shifts a
   * byte by 15 bits, so VF is always 0 rather than the old top bit.
   */
  function Op8XYE(m: Machine, x: Reg): (r: Machine)
    requires Valid(m)
    ensures Valid(r)
    ensures x != VF ==> r.v[x] == 2 * (m.v[x] as int) % 0x100 && r.v[VF] == 0
    ensures x == VF ==> r.v[VF] == 0
    ensures forall k :: 0 <= k < 16 && k != x && k != VF ==> r.v[k] == m.v[k]
    ensures r.(v := m.v) == m
  {
    var m1 := SetV(m, VF, (m.v[x] / 0x80 % 2 * 0x80) / 0x8000);  // (cpu.v[x] & 0x80) >> 15
    SetV(m1, x, Wrap8(m1.v[x] as int * 2))                              // cpu.v[x] << 1
  }

  /**
   * Shifting right then left restores an even VX, and shifting left then
   * right restores a VX below 0x80: no bit is lost. The right shift's flag is
   * the bit it drops; the left shift's flag is 0 whatever it drops.
   */
  lemma {:induction false} ShiftRoundTrips(m: Machine, x: Reg)
    requires Valid(m) && x != VF
    ensures m.v[x] % 2 == 0 ==> Op8XYE(Op8XY6(m, x), x).v[x] == m.v[x]
    ensures m.v[x] < 0x80 ==> Op8XY6(Op8XYE(m, x), x).v[x] == m.v[x]
    ensures Op8XY6(m, x).v[VF] == m.v[x] % 2
    ensures Op8XYE(m, x).v[VF] == 0
  {
    var r := Op8XY6(m, x);
    assert 2 * (r.v[x] as int) + r.v[VF] == m.v[x];
  }

  /** 8XY4 never reports a carry, even when the true sum exceeds 255. */
  lemma AddCarryNeverSet(m: Machine, x: Reg, y: Reg)
    requires Valid(m) && x != VF
    ensures Op8XY4(m, x, y).v[VF] == 0
    ensures m.v[x] as int + m.v[y] > 0xFF ==> Op8XY4(m, x, y).v[x] == m.v[x] as int + m.v[y] - 0x100
  {
  }

  /** Equal operands give VF = 0 in 8XY5 and 8XY7: the comparison is strict. */
  lemma SubtractEqualOperands(m: Machine, x: Reg, y: Reg)
    requires Valid(m) && x != VF && y != VF && m.v[x] == m.v[y]
    ensures Op8XY5(m, x, y).v[VF] == 0 && Op8XY5(m, x, y).v[x] == 0
    ensures Op8XY7(m, x, y).v[VF] == 0 && Op8XY7(m, x, y).v[x] == 0
  {
  }

  // ---------------------------------------------------------------------
  // The address register, the random byte and the timers.
  // ---------------------------------------------------------------------

  /** ANNN: I := NNN. */
  function OpANNN(m: Machine, nnn: nat): (r: Machine)
    requires Valid(m) && nnn < 0x1000
    ensures Valid(r) && r.i == nnn && r.(i := m.i) == m
  {
    m.(i := nnn)
  }

  /** CXNN: VX := the random byte AND NN; the byte is an argument here. */
  function OpCXNN(m: Machine, x: Reg, nn: Byte, rnd: Byte): (r: Machine)
    requires Valid(m)
    ensures Valid(r) && r.v[x] == And8(rnd, nn)
    ensures forall k :: 0 <= k < 16 && k != x ==> r.v[k] == m.v[k]
    ensures r.(v := m.v) == m
  {
    SetV(m, x, And8(rnd, nn))
  }

  /** FX07: VX := the delay timer, its signed byte read back as unsigned. */
  function OpFX07(m: Machine, x: Reg): (r: Machine)
    requires Valid(m)
    ensures Valid(r) && ToInt8(r.v[x]) == m.dt
    ensures forall k :: 0 <= k < 16 && k != x ==> r.v[k] == m.v[k]
    ensures r.(v := m.v) == m
  {
    SetV(m, x, FromInt8(m.dt))
  }

  /** FX15: the delay timer := VX reinterpreted as a signed byte (negative for VX >= 128). */
  function OpFX15(m: Machine, x: Reg): (r: Machine)
    requires Valid(m)
    ensures Valid(r) && FromInt8(r.dt) == m.v[x] && (r.dt < 0 <==> m.v[x] >= 0x80)
    ensures r.(dt := m.dt) == m
  {
    m.(dt := ToInt8(m.v[x]))
  }

  /** FX18: the sound timer := VX reinterpreted as a signed byte. */
  function OpFX18(m: Machine, x: Reg): (r: Machine)
    requires Valid(m)
    ensures Valid(r) && FromInt8(r.st) == m.v[x] && (r.st < 0 <==> m.v[x] >= 0x80)
    ensures r.(st := m.st) == m
  {
    m.(st := ToInt8(m.v[x]))
  }

  /** Loading the delay timer with FX15 and reading it back with FX07 returns the register's value. */
  lemma DelayTimerRoundTrip(m: Machine, x: Reg, y: Reg)
    requires Valid(m)
    ensures OpFX07(OpFX15(m, x), y).v[y] == m.v[x]
  {
    Int8RoundTrip(m.v[x], 0);
  }

  /**
   * FX1E: I := I + X in `uint16` arithmetic, where X is the register INDEX
   * from the opcode, not the value VX; then VF := 1 iff I exceeds 0xFFF.
   */
  function OpFX1E(m: Machine, x: Reg): (r: Machine)
    requires Valid(m)
    ensures Valid(r)
    ensures r.i == (m.i + x) % 0x1_0000
    ensures r.v[VF] == (if r.i > 0xFFF then 1 else 0)
    ensures forall k :: 0 <= k < 16 && k != VF ==> r.v[k] == m.v[k]
    ensures r.(i := m.i, v := m.v) == m
  {
    var m1 := m.(i := Wrap16(m.i + x));
    SetV(m1, VF, if m1.i > 0xFFF then 1 else 0)
  }

  /**
   * FX29: I := VX * 5, the product formed in 8 bits. For VX <= 15 this is
   * the address of glyph VX; from VX = 52 on the product wraps.
   */
  function OpFX29(m: Machine, x: Reg): (r: Machine)
    requires Valid(m)
    ensures Valid(r) && r.(i := m.i) == m
    ensures r.i == (5 * m.v[x] as int) % 0x100
    ensures m.v[x] < 16 ==> r.i == Memory.GlyphAddress(m.v[x])
    ensures r.i == 5 * m.v[x] as int <==> m.v[x] <= 51
  {
    m.(i := Wrap8(m.v[x] as int * 5))
  }

  // ---------------------------------------------------------------------
  // Memory transfers.
  // ---------------------------------------------------------------------

  /**
   * FX33: the hundreds, tens and ones digits of VX go to I, I+1 and I+2, in
   * that order; a write past memory is the out-of-bounds fault.
   */
  function OpFX33(m: Machine, x: Reg): (r: Result)
    requires Valid(m)
    ensures r.Fault? <==> m.i + 2 >= Memory.Size
    ensures r.Fault? ==> r.error == OutOfBounds
    ensures r.Ok? ==> Valid(r.m) && r.m.(mem := m.mem) == m
  {
    var d := BcdDigits(m.v[x]);
    if m.i >= Memory.Size then Fault(OutOfBounds)
    else
      var mem1 := Memory.Write(m.mem, m.i, d[0]);
      if m.i + 1 >= Memory.Size then Fault(OutOfBounds)
      else
        var mem2 := Memory.Write(mem1, m.i + 1, d[1]);
        if m.i + 2 >= Memory.Size then Fault(OutOfBounds)
        else Ok(m.(mem := Memory.Write(mem2, m.i + 2, d[2])))
  }

  /**
   * The three values FX33 writes, computed as the source does: ones from
   * `vx % 10`, tens from `(vx % 100 - ones) / 10`, hundreds from
   * `(vx % 1000 - ones - tens * 10) / 100`. They are the decimal digits.
   */
  function BcdDigits(vx: Byte): (d: seq<Byte>)
    ensures |d| == 3 && 100 * (d[0] as int) + 10 * (d[1] as int) + d[2] as int == vx as int
    ensures d[0] <= 2 && d[1] <= 9 && d[2] <= 9
  {
    DecimalDigits(vx);
    var a: int := vx as int % 10;
    var b: int := (vx as int % 100 - a) / 10;
    var c: int := (vx as int % 1000 - a - b * 10) / 100;
    [c as Byte, b as Byte, a as Byte]
  }

  /**
   * What FX33 stores: the decimal digits of VX, hundreds first, at I, I+1
   * and I+2, with every other byte of memory untouched.
   */
  lemma BcdStoresDigits(m: Machine, x: Reg)
    requires Valid(m) && m.i + 2 < Memory.Size
    ensures var r := OpFX33(m, x);
      && r.Ok?
      && var c, b, a := r.m.mem.data[m.i], r.m.mem.data[m.i + 1], r.m.mem.data[m.i + 2];
      && 100 * c as int + 10 * b as int + a == m.v[x] && a <= 9 && b <= 9 && c <= 2
      && forall addr :: 0 <= addr < Memory.Size && !(m.i <= addr <= m.i + 2) ==>
           r.m.mem.data[addr] == m.mem.data[addr]
  {
    var d := BcdDigits(m.v[x]);
    ThreeWrites(m.mem, m.i, d[0], d[1], d[2]);
  }

  /** Writing three bytes at `i`, `i + 1`, `i + 2` puts them there and changes no other byte. */
  lemma ThreeWrites(mem: Memory.Mem, i: nat, c: Byte, b: Byte, a: Byte)
    requires Memory.Valid(mem) && i + 2 < Memory.Size
    ensures var r := Memory.Write(Memory.Write(Memory.Write(mem, i, c), i + 1, b), i + 2, a);
      && Memory.Valid(r)
      && r.data[i] == c && r.data[i + 1] == b && r.data[i + 2] == a
      && forall addr :: 0 <= addr < Memory.Size && !(i <= addr <= i + 2) ==> r.data[addr] == mem.data[addr]
  {
    var r := Memory.Write(Memory.Write(Memory.Write(mem, i, c), i + 1, b), i + 2, a);
    assert r.data == mem.data[i := c][i + 1 := b][i + 2 := a];
  }

  /** The three digits FX33 computes from a byte are its decimal digits, most significant first. */
  lemma DecimalDigits(vx: Byte)
    ensures var a := vx % 10;
      var b := (vx % 100 - a) / 10;
      var c := (vx % 1000 - a - b * 10) / 100;
      100 * c + 10 * b + a == vx && 0 <= a <= 9 && 0 <= b <= 9 && 0 <= c <= 2
  {
    var a, t := vx % 10, vx / 10;
    var b, c := t % 10, t / 10;
    DivModOf(vx, 10, t, a);
    DivModOf(t, 10, c, b);
    DivModOf(vx, 100, c, 10 * b + a);
    DivModOf(vx, 1000, 0, vx);
    DivModOf(10 * b, 10, b, 0);
    DivModOf(100 * c, 100, c, 0);
  }

  /** The decimal digits 1, 5, 7 of 157. */
  lemma BcdOf157(m: Machine, x: Reg)
    requires Valid(m) && m.v[x] == 157 && m.i + 2 < Memory.Size
    ensures OpFX33(m, x).Ok?
    ensures OpFX33(m, x).m.mem.data[m.i .. m.i + 3] == [1, 5, 7]
  {
    BcdStoresDigits(m, x);
    var r := OpFX33(m, x).m.mem.data;
    assert r[m.i] == 1 && r[m.i + 1] == 5 && r[m.i + 2] == 7;
  }

  /** The store loop of FX55 from iteration `k` to `x`: address `base + j` := `v[j]`. */
  function StoreFrom(mem: Memory.Mem, base: nat, v: seq<Byte>, k: nat, x: Reg): (r: Option<Memory.Mem>)
    requires Memory.Valid(mem) && |v| == 16 && k <= x + 1
    ensures r.None? <==> k <= x && base + x >= Memory.Size
    ensures r.Some? ==> Memory.Valid(r.value)
    ensures r.Some? ==> forall a :: 0 <= a < Memory.Size ==>
      r.value.data[a] == (if base + k <= a <= base + x then v[a - base] else mem.data[a])
    decreases x + 1 - k
  {
    if k > x then Some(mem)
    else if base + k >= Memory.Size then None
    else StoreFrom(Memory.Write(mem, base + k, v[k]), base, v, k + 1, x)
  }

  /** FX55: V0..VX go to I..I+X; nothing else in memory or the machine changes. */
  function OpFX55(m: Machine, x: Reg): (r: Result)
    requires Valid(m)
    ensures r.Fault? <==> m.i + x >= Memory.Size
    ensures r.Fault? ==> r.error == OutOfBounds
    ensures r.Ok? ==> Valid(r.m) && r.m.(mem := m.mem) == m
    ensures r.Ok? ==> forall k :: 0 <= k <= x ==> r.m.mem.data[m.i + k] == m.v[k]
    ensures r.Ok? ==> forall a :: 0 <= a < Memory.Size && !(m.i <= a <= m.i + x) ==>
      r.m.mem.data[a] == m.mem.data[a]
  {
    match StoreFrom(m.mem, m.i, m.v, 0, x)
    case None => Fault(OutOfBounds)
    case Some(mem) => Ok(m.(mem := mem))
  }

  /** The load loop of FX65 from iteration `k` to `x`: `v[j]` := address `base + j`. */
  function LoadFrom(v: seq<Byte>, mem: Memory.Mem, base: nat, k: nat, x: Reg): (r: Option<seq<Byte>>)
    requires Memory.Valid(mem) && |v| == 16 && k <= x + 1
    ensures r.None? <==> k <= x && base + x >= Memory.Size
    ensures r.Some? ==> |r.value| == 16
    ensures r.Some? ==> forall j :: 0 <= j < 16 ==>
      r.value[j] == (if k <= j <= x then mem.data[base + j] else v[j])
    decreases x + 1 - k
  {
    if k > x then Some(v)
    else if base + k >= Memory.Size then None
    else LoadFrom(v[k := Memory.Read(mem, base + k)], mem, base, k + 1, x)
  }

  /** FX65: V0..VX := the bytes at I..I+X; nothing else changes. */
  function OpFX65(m: Machine, x: Reg): (r: Result)
    requires Valid(m)
    ensures r.Fault? <==> m.i + x >= Memory.Size
    ensures r.Fault? ==> r.error == OutOfBounds
    ensures r.Ok? ==> Valid(r.m) && r.m.(v := m.v) == m
    ensures r.Ok? ==> forall k :: 0 <= k <= x ==> r.m.v[k] == m.mem.data[m.i + k]
    ensures r.Ok? ==> forall k :: x < k < 16 ==> r.m.v[k] == m.v[k]
  {
    match LoadFrom(m.v, m.mem, m.i, 0, x)
    case None => Fault(OutOfBounds)
    case Some(v) => Ok(m.(v := v))
  }

  /** FX55 followed by FX65 with the same I and X leaves every register as it was. */
  lemma StoreLoadRoundTrip(m: Machine, x: Reg)
    requires Valid(m) && m.i + x < Memory.Size
    ensures OpFX55(m, x).Ok?
    ensures OpFX65(OpFX55(m, x).m, x).Ok?
    ensures OpFX65(OpFX55(m, x).m, x).m.v == m.v
  {
    var m1 := OpFX55(m, x).m;
    var m2 := OpFX65(m1, x).m;
    assert forall k :: 0 <= k < 16 ==> m2.v[k] == m.v[k];
  }

  // ---------------------------------------------------------------------
  // Sprites.
  // ---------------------------------------------------------------------

  /** Sprite row `k`, with I = `base` and VY = `vy`: its byte lies inside memory and `draw_line8` accepts its screen row. */
  predicate RowFits(base: nat, vy: Byte, k: nat)
  {
    base + k < Memory.Size && ToInt8(Wrap8(vy as int + k)) < 64
  }

  /** Every sprite row from `from` below `rows` fits. */
  predicate SpriteFits(base: nat, vy: Byte, rows: Byte, from: nat)
  {
    forall k :: from <= k < rows ==> RowFits(base, vy, k)
  }

  /**
   * One row of DXYN on the grid: `draw_line8(VX, VY + k, mem[I + k])`, the
   * row byte wrapping at 256 and both coordinates reinterpreted as `int8`;
   * the collision value it returns is dropped.
   */
  function DrawRow(g: Display.Grid, vx: Int8, vy: Byte, mem: Memory.Mem, base: nat, k: nat): (r: Option<Display.Grid>)
    requires Display.WellShaped(g) && Memory.Valid(mem)
    ensures r.None? <==> !RowFits(base, vy, k)
    ensures r.Some? ==> Display.WellShaped(r.value)
    ensures r.Some? && Display.Binary(g) ==> Display.Binary(r.value)
    ensures r.Some? ==>
      r.value == Display.DrawLine8(g, vx, ToInt8(Wrap8(vy as int + k)), mem.data[base + k]).value.0
    ensures r.Some? ==>
      r.value == Display.Blit(g, vx, Display.RowIndex(ToInt8(Wrap8(vy as int + k))), mem.data[base + k])
  {
    if base + k >= Memory.Size then None
    else
      var row := ToInt8(Wrap8(vy as int + k));
      var drawn := Display.DrawLine8(g, vx, row, Memory.Read(mem, base + k));
      if drawn.None? then None
      else
        assert Display.Binary(g) ==> Display.Binary(drawn.value.0) by {
          if Display.Binary(g) {
            Display.DrawKeepsBinary(g, vx, row, Memory.Read(mem, base + k));
          }
        }
        Some(drawn.value.0)
  }

  /** The row loop of DXYN from row `k`; the first row that does not fit is a panic (`None`). */
  function DrawRows(g: Display.Grid, vx: Int8, vy: Byte, mem: Memory.Mem, base: nat, rows: Byte, k: nat): (r: Option<Display.Grid>)
    requires Display.WellShaped(g) && Memory.Valid(mem) && k <= rows
    ensures r.None? <==> !SpriteFits(base, vy, rows, k)
    ensures r.Some? ==> Display.WellShaped(r.value)
    ensures r.Some? && Display.Binary(g) ==> Display.Binary(r.value)
    decreases rows - k
  {
    if k == rows then Some(g)
    else
      match DrawRow(g, vx, vy, mem, base, k)
      case None => None
      case Some(g') => DrawRows(g', vx, vy, mem, base, rows, k + 1)
  }

  /**
   * DXYN with `rows` = NN (`op & 0x00FF`, not the low nibble): draws the
   * rows on the grid and changes nothing else. I is left alone and VF is
   * not set from the collisions.
   */
  function OpDXYN(m: Machine, x: Reg, y: Reg, rows: Byte): (r: Result)
    requires Valid(m)
    ensures r.Fault? <==> !SpriteFits(m.i, m.v[y], rows, 0)
    ensures r.Fault? ==> r.error == OutOfBounds
    ensures r.Ok? ==> Valid(r.m) && r.m.(pic := m.pic) == m
    ensures r.Ok? ==> r.m.i == m.i && r.m.v[VF] == m.v[VF]
    ensures r.Ok? && Display.Binary(m.pic) ==> Display.Binary(r.m.pic)
  {
    match DrawRows(m.pic, ToInt8(m.v[x]), m.v[y], m.mem, m.i, rows, 0)
    case None => Fault(OutOfBounds)
    case Some(pic) => Ok(m.(pic := pic))
  }

  /** A one-row DXYN is exactly one `draw_line8` of the byte at I, at (VX, VY). */
  lemma DrawOneRow(m: Machine, x: Reg, y: Reg)
    requires Valid(m) && m.i < Memory.Size && ToInt8(m.v[y]) < 64
    ensures OpDXYN(m, x, y, 1).Ok?
    ensures OpDXYN(m, x, y, 1).m.pic ==
      Display.DrawLine8(m.pic, ToInt8(m.v[x]), ToInt8(m.v[y]), m.mem.data[m.i]).value.0
  {
    assert Wrap8(m.v[y] as int + 0) == m.v[y];
  }

  /**
   * The row loop from row `k` is the reference `Display.Paint` of the
   * sprite bytes from I + k, starting at row VY + k, whenever those bytes
   * lie inside memory: the same grid, and `None` for the same sprites.
   */
  lemma {:induction false} DrawRowsPaint(g: Display.Grid, vx: Int8, vy: Byte, mem: Memory.Mem, base: nat, rows: Byte, k: nat, y: int, bytes: seq<Byte>)
    requires Display.WellShaped(g) && Memory.Valid(mem) && k <= rows && base + rows <= Memory.Size
    requires y == vy as int + k && bytes == mem.data[base + k .. base + rows]
    ensures DrawRows(g, vx, vy, mem, base, rows, k) == Display.Paint(g, vx, y, bytes)
    decreases rows - k
  {
    if k < rows {
      if !RowFits(base, vy, k) {
        DrawRowsStops(g, vx, vy, mem, base, rows, k);
        Display.PaintStops(g, vx, y, bytes);
      } else {
        var j := k + 1;
        var row := Display.RowIndex(ToInt8(Wrap8(y)));
        var g' := Display.Blit(g, vx, row, mem.data[base + k]);
        DrawRowsUnfold(g, vx, vy, mem, base, rows, k, j, row, g');
        DrawRowsPaint(g', vx, vy, mem, base, rows, j, y + 1, mem.data[base + j .. base + rows]);
        Display.PaintFromRow(g, g', vx, y, row, mem.data, base + k, base + j, base + rows);
      }
    }
  }

  /** The row loop reaching a row `k` that does not fit panics. */
  lemma DrawRowsStops(g: Display.Grid, vx: Int8, vy: Byte, mem: Memory.Mem, base: nat, rows: Byte, k: nat)
    requires Display.WellShaped(g) && Memory.Valid(mem) && k < rows && !RowFits(base, vy, k)
    ensures DrawRows(g, vx, vy, mem, base, rows, k).None?
  {
  }

  /** The row loop at a fitting row `k` is that row's blit at screen row `row`, followed by the loop from `j = k + 1`. */
  lemma DrawRowsUnfold(g: Display.Grid, vx: Int8, vy: Byte, mem: Memory.Mem, base: nat, rows: Byte, k: nat, j: nat, row: nat, g': Display.Grid)
    requires Display.WellShaped(g) && Memory.Valid(mem) && k < rows && j == k + 1 && RowFits(base, vy, k)
    requires row == Display.RowIndex(ToInt8(Wrap8(vy as int + k)))
    requires g' == Display.Blit(g, vx, row, mem.data[base + k])
    ensures Display.WellShaped(g')
    ensures DrawRows(g, vx, vy, mem, base, rows, k) == DrawRows(g', vx, vy, mem, base, rows, j)
  {
  }

  /**
   * A DXYN whose N bytes from I lie inside memory paints them one below the
   * other from row VY, as `Display.Paint` does, into the machine's grid, and
   * panics exactly when the reference rejects a row.
   */
  lemma DrawSprite(m: Machine, x: Reg, y: Reg, rows: Byte)
    requires Valid(m) && m.i + rows <= Memory.Size
    ensures var p := Display.Paint(m.pic, ToInt8(m.v[x]), m.v[y] as int, m.mem.data[m.i .. m.i + rows]);
      OpDXYN(m, x, y, rows) == if p.Some? then Ok(m.(pic := p.value)) else Fault(OutOfBounds)
  {
    DrawRowsPaint(m.pic, ToInt8(m.v[x]), m.v[y], m.mem, m.i, rows, 0, m.v[y] as int, m.mem.data[m.i .. m.i + rows]);
  }

  /** A two-row DXYN is two chained `draw_line8` calls, the second one row lower. */
  lemma DrawTwoRows(m: Machine, x: Reg, y: Reg)
    requires Valid(m) && m.i + 1 < Memory.Size && m.v[y] < 63
    ensures OpDXYN(m, x, y, 2).Ok?
    ensures var first := Display.DrawLine8(m.pic, ToInt8(m.v[x]), m.v[y], m.mem.data[m.i]).value.0;
      OpDXYN(m, x, y, 2).m.pic == Display.DrawLine8(first, ToInt8(m.v[x]), m.v[y] + 1, m.mem.data[m.i + 1]).value.0
  {
    assert RowFits(m.i, m.v[y], 0) && RowFits(m.i, m.v[y], 1);
    DrawSprite(m, x, y, 2);
  }

  /**
   * A three-row sprite at VY = 31 wraps vertically: its second and third
   * rows land on screen rows 0 and 1.
   */
  lemma DrawWrapsToTop(m: Machine, x: Reg, y: Reg)
    requires Valid(m) && m.i + 2 < Memory.Size && m.v[y] == 31
    ensures OpDXYN(m, x, y, 3).Ok?
    ensures var vx := ToInt8(m.v[x]);
      OpDXYN(m, x, y, 3).m.pic ==
        Display.Blit(Display.Blit(Display.Blit(m.pic, vx, 31, m.mem.data[m.i]), vx, 0, m.mem.data[m.i + 1]),
          vx, 1, m.mem.data[m.i + 2])
  {
    var bytes := m.mem.data[m.i .. m.i + 3];
    DrawSprite(m, x, y, 3);
    Display.PaintWrapsToTop(m.pic, ToInt8(m.v[x]), bytes);
  }

  /**
   * A sprite does not wrap past screen row 63: at VY = 60 the fifth row is
   * row 64, which `draw_line8` rejects, so a five-row DXYN panics.
   */
  lemma DrawPastRow63Faults(m: Machine, x: Reg, y: Reg)
    requires Valid(m) && m.v[y] == 60
    ensures OpDXYN(m, x, y, 5).Fault?
  {
    assert !RowFits(m.i, m.v[y], 4);
  }

  // ---------------------------------------------------------------------
  // Keys.
  // ---------------------------------------------------------------------

  /** EX9E: skips when the key numbered VX is down. */
  function OpEX9E(m: Machine, x: Reg, pad: Input.Keypad): (r: Machine)
    requires Valid(m)
    ensures Valid(r) && r.(pc := m.pc) == m
    ensures r.pc == (if Input.IsPressed(pad, m.v[x]) then (m.pc + 2) % 0x1_0000 else m.pc)
  {
    Skip(m, Input.IsPressed(pad, m.v[x]))
  }

  /** EXA1: skips when the key numbered VX is not down. */
  function OpEXA1(m: Machine, x: Reg, pad: Input.Keypad): (r: Machine)
    requires Valid(m)
    ensures Valid(r) && r.(pc := m.pc) == m
    ensures r.pc == (if !Input.IsPressed(pad, m.v[x]) then (m.pc + 2) % 0x1_0000 else m.pc)
  {
    Skip(m, !Input.IsPressed(pad, m.v[x]))
  }

  /** Of EX9E and EXA1 on the same state and keypad, exactly one skips. */
  lemma KeySkipsExclusive(m: Machine, x: Reg, pad: Input.Keypad)
    requires Valid(m)
    ensures (OpEX9E(m, x, pad).pc == Wrap16(m.pc + 2)) != (OpEXA1(m, x, pad).pc == Wrap16(m.pc + 2))
  {
  }

  /** The scan of FX0A from key `k`: the lowest key 0..15 that is down, if any. */
  function FirstPressed(pad: Input.Keypad, k: nat): (r: Option<Byte>)
    requires k <= 16
    ensures r.None? <==> forall j :: k <= j < 16 ==> !Input.IsPressed(pad, j)
    ensures r.Some? ==> k <= r.value < 16 && Input.IsPressed(pad, r.value)
    ensures r.Some? ==> forall j :: k <= j < r.value ==> !Input.IsPressed(pad, j)
    decreases 16 - k
  {
    if k == 16 then None
    else if Input.IsPressed(pad, k) then Some(k)
    else FirstPressed(pad, k + 1)
  }

  /**
   * FX0A: with a key 0..15 down, VX := that key; with none, PC := PC - 2 so
   * that the same instruction runs again on the next tick.
   */
  function OpFX0A(m: Machine, x: Reg, pad: Input.Keypad): (r: Machine)
    requires Valid(m)
    ensures Valid(r)
    ensures 0 <= pad.keys < 16 ==> r == SetV(m, x, pad.keys)
    ensures !(0 <= pad.keys < 16) ==> r == m.(pc := Wrap16(m.pc - 2))
  {
    assert 0 <= pad.keys < 16 ==> Input.IsPressed(pad, pad.keys);
    match FirstPressed(pad, 0)
    case Some(k) => SetV(m, x, k)
    case None => m.(pc := Wrap16(m.pc - 2))
  }
}
