/**
 * The disassembler of chip_disasm.go: starting at the program start it
 * reads opcode words two bytes apart, stops at the first zero word, and
 * decodes every other word into an instruction. Unlike the interpreter it
 * extracts X and Y with the right shifts. Printing the instruction text is
 * outside the model; the decoded instruction is what would be printed.
 */
module Disasm {
  import opened Base
  import Memory
  import Cpu
  import Opcodes

  /** One line of the listing, named after the mnemonic it prints, with its operands. */
  datatype Instruction =
    | Cls | Ret | Sys(nnn: nat)
    | Jp(nnn: nat) | CallAt(nnn: nat)
    | SeImm(x: Reg, nn: Byte) | SneImm(x: Reg, nn: Byte) | SeReg(x: Reg, y: Reg)
    | LdImm(x: Reg, nn: Byte) | AddImm(x: Reg, nn: Byte)
    | LdReg(x: Reg, y: Reg) | OrReg(x: Reg, y: Reg) | AndReg(x: Reg, y: Reg) | XorReg(x: Reg, y: Reg)
    | AddReg(x: Reg, y: Reg) | SubReg(x: Reg, y: Reg) | Shr(x: Reg, y: Reg) | Subn(x: Reg, y: Reg)
    | Shl(x: Reg, y: Reg)
    | SneReg(x: Reg, y: Reg) | LdI(nnn: nat) | JpV0(nnn: nat) | Rnd(x: Reg, nn: Byte)
    | Drw(x: Reg, y: Reg, n: Reg)
    | Skp(x: Reg) | Sknp(x: Reg)
    | LdFromDt(x: Reg) | LdKey(x: Reg) | LdDt(x: Reg) | LdSt(x: Reg) | AddI(x: Reg)
    | LdFont(x: Reg) | LdBcd(x: Reg) | LdStore(x: Reg) | LdLoad(x: Reg)
    | Unknown

  // ---------------------------------------------------------------------
  // Fields, as the disassembler extracts them.
  // ---------------------------------------------------------------------

  /** `(op & 0x0F00) >> 8`. */
  function RegX(op: Word): Reg
  {
    op / 0x100 % 0x10
  }

  /** `(op & 0x00F0) >> 4`. */
  function RegY(op: Word): Reg
  {
    op / 0x10 % 0x10
  }

  /** `op & 0x000F`. */
  function Low4(op: Word): Reg
  {
    op % 0x10
  }

  /** `op & 0x00FF`. */
  function Low8(op: Word): Byte
  {
    op % 0x100
  }

  /** `op & 0x0FFF`. */
  function Low12(op: Word): nat
  {
    op % 0x1000
  }

  /** The fields put back together give the word: nothing is lost or counted twice. */
  lemma FieldsReassemble(op: Word)
    ensures op == op / 0x1000 * 0x1000 + RegX(op) * 0x100 + RegY(op) * 0x10 + Low4(op)
    ensures Low8(op) == RegY(op) * 0x10 + Low4(op)
    ensures Low12(op) == RegX(op) * 0x100 + Low8(op)
    ensures op / 0x1000 < 0x10
  {
    WordNibbles(op);
  }

  /**
   * The register field the listing shows is the X nibble; the interpreter
   * uses register 0 for the same word, so the two differ for every X other
   * than 0.
   */
  lemma ShownRegisterIsNotUsed(op: Word)
    ensures RegX(op) == Cpu.Nibble(op, 1) && RegY(op) == Cpu.Nibble(op, 2)
    ensures Opcodes.FieldX(op) == 0 && Opcodes.FieldY(op) == 0
  {
  }

  // ---------------------------------------------------------------------
  // Decoding and its inverse.
  // ---------------------------------------------------------------------

  /**
   * The `switch` of `disasm_rom`: the same selection as `tick`, except that
   * a class-0 word other than 00E0 and 00EE is listed as SYS NNN.
   */
  function Decode(op: Word): Instruction
  {
    var x, y, nn, nnn := RegX(op), RegY(op), Low8(op), Low12(op);
    match op / 0x1000
    case 0x0 => if op == 0x00E0 then Cls else if op == 0x00EE then Ret else Sys(nnn)
    case 0x1 => Jp(nnn)
    case 0x2 => CallAt(nnn)
    case 0x3 => SeImm(x, nn)
    case 0x4 => SneImm(x, nn)
    case 0x5 => SeReg(x, y)
    case 0x6 => LdImm(x, nn)
    case 0x7 => AddImm(x, nn)
    case 0x8 =>
      (match op % 0x10
       case 0x0 => LdReg(x, y)
       case 0x1 => OrReg(x, y)
       case 0x2 => AndReg(x, y)
       case 0x3 => XorReg(x, y)
       case 0x4 => AddReg(x, y)
       case 0x5 => SubReg(x, y)
       case 0x6 => Shr(x, y)
       case 0x7 => Subn(x, y)
       case 0xE => Shl(x, y)
       case _ => Unknown)
    case 0x9 => SneReg(x, y)
    case 0xA => LdI(nnn)
    case 0xB => JpV0(nnn)
    case 0xC => Rnd(x, nn)
    case 0xD => Drw(x, y, Low4(op))
    case 0xE => if op % 0x100 == 0x9E then Skp(x) else if op % 0x100 == 0xA1 then Sknp(x) else Unknown
    case 0xF =>
      (match op % 0x100
       case 0x07 => LdFromDt(x)
       case 0x0A => LdKey(x)
       case 0x15 => LdDt(x)
       case 0x18 => LdSt(x)
       case 0x1E => AddI(x)
       case 0x29 => LdFont(x)
       case 0x33 => LdBcd(x)
       case 0x55 => LdStore(x)
       case 0x65 => LdLoad(x)
       case _ => Unknown)
    case _ => Unknown
  }

  /** The instructions that have an opcode word: addresses fit in 12 bits and SYS does not alias CLS or RET. */
  predicate Encodable(ins: Instruction)
  {
    && ins != Unknown
    && (ins.Sys? || ins.Jp? || ins.CallAt? || ins.LdI? || ins.JpV0? ==> ins.nnn < 0x1000)
    && (ins.Sys? ==> ins.nnn != 0xE0 && ins.nnn != 0xEE)
  }

  /** The opcode word of an instruction, with 0 in the low nibble of SE Vx, Vy and SNE Vx, Vy. */
  function Assemble(ins: Instruction): Word
    requires Encodable(ins)
  {
    match ins
    case Cls => 0x00E0
    case Ret => 0x00EE
    case Sys(nnn) => nnn
    case Jp(nnn) => 0x1000 + nnn
    case CallAt(nnn) => 0x2000 + nnn
    case SeImm(x, nn) => 0x3000 + x * 0x100 + nn
    case SneImm(x, nn) => 0x4000 + x * 0x100 + nn
    case SeReg(x, y) => 0x5000 + x * 0x100 + y * 0x10
    case LdImm(x, nn) => 0x6000 + x * 0x100 + nn
    case AddImm(x, nn) => 0x7000 + x * 0x100 + nn
    case LdReg(x, y) => 0x8000 + x * 0x100 + y * 0x10
    case OrReg(x, y) => 0x8001 + x * 0x100 + y * 0x10
    case AndReg(x, y) => 0x8002 + x * 0x100 + y * 0x10
    case XorReg(x, y) => 0x8003 + x * 0x100 + y * 0x10
    case AddReg(x, y) => 0x8004 + x * 0x100 + y * 0x10
    case SubReg(x, y) => 0x8005 + x * 0x100 + y * 0x10
    case Shr(x, y) => 0x8006 + x * 0x100 + y * 0x10
    case Subn(x, y) => 0x8007 + x * 0x100 + y * 0x10
    case Shl(x, y) => 0x800E + x * 0x100 + y * 0x10
    case SneReg(x, y) => 0x9000 + x * 0x100 + y * 0x10
    case LdI(nnn) => 0xA000 + nnn
    case JpV0(nnn) => 0xB000 + nnn
    case Rnd(x, nn) => 0xC000 + x * 0x100 + nn
    case Drw(x, y, n) => 0xD000 + x * 0x100 + y * 0x10 + n
    case Skp(x) => 0xE09E + x * 0x100
    case Sknp(x) => 0xE0A1 + x * 0x100
    case LdFromDt(x) => 0xF007 + x * 0x100
    case LdKey(x) => 0xF00A + x * 0x100
    case LdDt(x) => 0xF015 + x * 0x100
    case LdSt(x) => 0xF018 + x * 0x100
    case AddI(x) => 0xF01E + x * 0x100
    case LdFont(x) => 0xF029 + x * 0x100
    case LdBcd(x) => 0xF033 + x * 0x100
    case LdStore(x) => 0xF055 + x * 0x100
    case LdLoad(x) => 0xF065 + x * 0x100
  }

  /** A word built from a top nibble, a middle byte split as X and Y, and a low nibble splits back into them. */
  lemma WordSplits(cls: nat, x: Reg, y: Reg, n: Reg)
    requires cls < 0x10
    ensures var w: Word := cls * 0x1000 + x * 0x100 + y * 0x10 + n;
      w / 0x1000 == cls && RegX(w) == x && RegY(w) == y && Low4(w) == n &&
      Low8(w) == y * 0x10 + n && Low12(w) == x * 0x100 + y * 0x10 + n
  {
    Nibbles(cls, x, y, n);
  }

  /** Assembling then decoding gives the instruction back. */
  lemma DecodeAssemble(ins: Instruction)
    requires Encodable(ins)
    ensures Decode(Assemble(ins)) == ins
  {
    if ins.Cls? || ins.Ret? || ins.Sys? {
      RoundTripSystem(ins);
    } else if ins.Jp? || ins.CallAt? || ins.LdI? || ins.JpV0? {
      RoundTripAddress(ins);
    } else if ins.SeImm? || ins.SneImm? || ins.LdImm? || ins.AddImm? || ins.Rnd? {
      RoundTripImmediate(ins);
    } else if ins.SeReg? || ins.SneReg? || ins.Drw? {
      RoundTripTwoRegisters(ins);
    } else if ins.LdReg? || ins.OrReg? || ins.AndReg? || ins.XorReg? || ins.AddReg?
      || ins.SubReg? || ins.Shr? || ins.Subn? || ins.Shl? {
      RoundTripArithmetic(ins);
    } else {
      RoundTripRegister(ins);
    }
  }

  /** `DecodeAssemble` for class 0: CLS, RET, and SYS, whose address is the whole word. */
  lemma RoundTripSystem(ins: Instruction)
    requires Encodable(ins) && (ins.Cls? || ins.Ret? || ins.Sys?)
    ensures Decode(Assemble(ins)) == ins
  {
    if ins.Sys? {
      DivModOf(ins.nnn, 0x1000, 0, ins.nnn);
    }
  }

  /** `DecodeAssemble` for the other instructions with a 12-bit address. */
  lemma RoundTripAddress(ins: Instruction)
    requires Encodable(ins) && (ins.Jp? || ins.CallAt? || ins.LdI? || ins.JpV0?)
    ensures Decode(Assemble(ins)) == ins
  {
    var cls := if ins.Jp? then 0x1 else if ins.CallAt? then 0x2 else if ins.LdI? then 0xA else 0xB;
    assert Assemble(ins) == cls * 0x1000 + ins.nnn;
    DivModOf(Assemble(ins), 0x1000, cls, ins.nnn);
  }

  /** `DecodeAssemble` for the instructions with a register and an 8-bit immediate. */
  lemma RoundTripImmediate(ins: Instruction)
    requires ins.SeImm? || ins.SneImm? || ins.LdImm? || ins.AddImm? || ins.Rnd?
    ensures Decode(Assemble(ins)) == ins
  {
    var cls := if ins.SeImm? then 0x3 else if ins.SneImm? then 0x4 else if ins.LdImm? then 0x6
      else if ins.AddImm? then 0x7 else 0xC;
    var y, n := ins.nn / 0x10, ins.nn % 0x10;
    assert Assemble(ins) == cls * 0x1000 + ins.x * 0x100 + y * 0x10 + n;
    WordSplits(cls, ins.x, y, n);
  }

  /** `DecodeAssemble` for SE Vx, Vy, SNE Vx, Vy and DRW, whose operation is the top nibble. */
  lemma RoundTripTwoRegisters(ins: Instruction)
    requires ins.SeReg? || ins.SneReg? || ins.Drw?
    ensures Decode(Assemble(ins)) == ins
  {
    var cls := if ins.SeReg? then 0x5 else if ins.SneReg? then 0x9 else 0xD;
    var n := if ins.Drw? then ins.n else 0;
    assert Assemble(ins) == cls * 0x1000 + ins.x * 0x100 + ins.y * 0x10 + n;
    WordSplits(cls, ins.x, ins.y, n);
  }

  /** `DecodeAssemble` for class 8: the low nibble names the operation. */
  lemma RoundTripArithmetic(ins: Instruction)
    requires ins.LdReg? || ins.OrReg? || ins.AndReg? || ins.XorReg? || ins.AddReg?
      || ins.SubReg? || ins.Shr? || ins.Subn? || ins.Shl?
    ensures Decode(Assemble(ins)) == ins
  {
    var low := if ins.LdReg? then 0x0 else if ins.OrReg? then 0x1 else if ins.AndReg? then 0x2
      else if ins.XorReg? then 0x3 else if ins.AddReg? then 0x4 else if ins.SubReg? then 0x5
      else if ins.Shr? then 0x6 else if ins.Subn? then 0x7 else 0xE;
    assert Assemble(ins) == 0x8 * 0x1000 + ins.x * 0x100 + ins.y * 0x10 + low;
    WordSplits(0x8, ins.x, ins.y, low);
  }

  /** `DecodeAssemble` for classes E and F: the low byte names the operation. */
  lemma RoundTripRegister(ins: Instruction)
    requires ins.Skp? || ins.Sknp? || ins.LdFromDt? || ins.LdKey? || ins.LdDt? || ins.LdSt?
      || ins.AddI? || ins.LdFont? || ins.LdBcd? || ins.LdStore? || ins.LdLoad?
    ensures Decode(Assemble(ins)) == ins
  {
    var low :=
      if ins.Skp? then 0x9E else if ins.Sknp? then 0xA1 else if ins.LdFromDt? then 0x07
      else if ins.LdKey? then 0x0A else if ins.LdDt? then 0x15 else if ins.LdSt? then 0x18
      else if ins.AddI? then 0x1E else if ins.LdFont? then 0x29 else if ins.LdBcd? then 0x33
      else if ins.LdStore? then 0x55 else 0x65;
    var cls := if ins.Skp? || ins.Sknp? then 0xE else 0xF;
    assert Assemble(ins) == cls * 0x1000 + ins.x * 0x100 + low;
    ByteWordSplits(cls, ins.x, low);
  }

  /** A word built from a top nibble, X and a low byte splits back into them. */
  lemma ByteWordSplits(cls: nat, x: Reg, low: Byte)
    requires cls < 0x10
    ensures var w: Word := cls * 0x1000 + x * 0x100 + low;
      w / 0x1000 == cls && RegX(w) == x && w % 0x100 == low
  {
    var w := cls * 0x1000 + x * 0x100 + low;
    DivModOf(w, 0x1000, cls, x * 0x100 + low);
    DivModOf(w, 0x100, cls * 0x10 + x, low);
    DivModOf(cls * 0x10 + x, 0x10, cls, x);
  }

  /**
   * Decoding then assembling gives the word back, except that SE Vx, Vy and
   * SNE Vx, Vy are listed for any low nibble and assemble with 0 there.
   */
  lemma AssembleDecode(op: Word)
    requires Decode(op) != Unknown
    ensures Encodable(Decode(op))
    ensures !(Decode(op).SeReg? || Decode(op).SneReg?) ==> Assemble(Decode(op)) == op
    ensures Decode(op).SeReg? || Decode(op).SneReg? ==> Assemble(Decode(op)) == op - op % 0x10
  {
    FieldsReassemble(op);
    var c := op / 0x1000;
    if c == 0x8 {
      ReassembleArithmetic(op);
    } else if c == 0xE || c == 0xF {
      ReassembleRegister(op);
    } else if c == 0x0 {
      ReassembleSystem(op);
    } else if c in {0x1, 0x2, 0xA, 0xB} {
      ReassembleAddress(op);
    } else if c in {0x3, 0x4, 0x6, 0x7, 0xC} {
      ReassembleImmediate(op);
    } else if c in {0x5, 0x9} {
      ReassembleCompare(op);
    } else {
      ReassembleDraw(op);
    }
  }

  /** `AssembleDecode` for class 8. */
  lemma ReassembleArithmetic(op: Word)
    requires op / 0x1000 == 0x8 && Decode(op) != Unknown
    ensures Encodable(Decode(op)) && Assemble(Decode(op)) == op
  {
    FieldsReassemble(op);
  }

  /** `AssembleDecode` for classes E and F. */
  lemma ReassembleRegister(op: Word)
    requires (op / 0x1000 == 0xE || op / 0x1000 == 0xF) && Decode(op) != Unknown
    ensures Encodable(Decode(op)) && Assemble(Decode(op)) == op
  {
    FieldsReassemble(op);
  }

  /** `AssembleDecode` for class 0: CLS, RET and SYS. */
  lemma ReassembleSystem(op: Word)
    requires op / 0x1000 == 0x0
    ensures Encodable(Decode(op)) && Assemble(Decode(op)) == op
  {
    FieldsReassemble(op);
  }

  /** `AssembleDecode` for the classes with a 12-bit address. */
  lemma ReassembleAddress(op: Word)
    requires op / 0x1000 in {0x1, 0x2, 0xA, 0xB}
    ensures Encodable(Decode(op)) && Assemble(Decode(op)) == op
  {
    FieldsReassemble(op);
  }

  /** `AssembleDecode` for the classes with a register and an 8-bit immediate. */
  lemma ReassembleImmediate(op: Word)
    requires op / 0x1000 in {0x3, 0x4, 0x6, 0x7, 0xC}
    ensures Encodable(Decode(op)) && Assemble(Decode(op)) == op
  {
    FieldsReassemble(op);
  }

  /** `AssembleDecode` for SE Vx, Vy and SNE Vx, Vy, which lose the low nibble. */
  lemma ReassembleCompare(op: Word)
    requires op / 0x1000 in {0x5, 0x9}
    ensures Encodable(Decode(op)) && Assemble(Decode(op)) == op - op % 0x10
  {
    FieldsReassemble(op);
  }

  /** `AssembleDecode` for DRW, which keeps every field. */
  lemma ReassembleDraw(op: Word)
    requires op / 0x1000 == 0xD
    ensures Encodable(Decode(op)) && Assemble(Decode(op)) == op
  {
    FieldsReassemble(op);
  }

  // ---------------------------------------------------------------------
  // Agreement with the interpreter.
  // ---------------------------------------------------------------------

  /** The interpreter handler that runs an instruction; SYS has none and is `Unknown` to `tick`. */
  function Runs(ins: Instruction): Cpu.Handler
  {
    match ins
    case Cls => Cpu.Clear
    case Ret => Cpu.Return
    case Sys(_) => Cpu.Unknown
    case Jp(_) => Cpu.Jump
    case CallAt(_) => Cpu.Call
    case SeImm(_, _) => Cpu.SkipIfEqual
    case SneImm(_, _) => Cpu.SkipIfNotEqual
    case SeReg(_, _) => Cpu.SkipIfRegsEqual
    case LdImm(_, _) => Cpu.SetImmediate
    case AddImm(_, _) => Cpu.AddImmediate
    case LdReg(_, _) => Cpu.Move
    case OrReg(_, _) => Cpu.Or
    case AndReg(_, _) => Cpu.And
    case XorReg(_, _) => Cpu.Xor
    case AddReg(_, _) => Cpu.AddRegs
    case SubReg(_, _) => Cpu.Sub
    case Shr(_, _) => Cpu.ShiftRight
    case Subn(_, _) => Cpu.SubReversed
    case Shl(_, _) => Cpu.ShiftLeft
    case SneReg(_, _) => Cpu.SkipIfRegsDiffer
    case LdI(_) => Cpu.SetIndex
    case JpV0(_) => Cpu.JumpOffset
    case Rnd(_, _) => Cpu.Random
    case Drw(_, _, _) => Cpu.Draw
    case Skp(_) => Cpu.SkipIfKey
    case Sknp(_) => Cpu.SkipIfNoKey
    case LdFromDt(_) => Cpu.ReadDelay
    case LdKey(_) => Cpu.WaitKey
    case LdDt(_) => Cpu.SetDelay
    case LdSt(_) => Cpu.SetSound
    case AddI(_) => Cpu.AddIndex
    case LdFont(_) => Cpu.FontAddress
    case LdBcd(_) => Cpu.Bcd
    case LdStore(_) => Cpu.Store
    case LdLoad(_) => Cpu.Load
    case Unknown => Cpu.Unknown
  }

  /**
   * The disassembler and `tick` classify every word alike: the listed
   * instruction is the one the interpreter runs, and the words `tick`
   * reports as unknown are exactly the SYS lines and the unknown lines.
   */
  lemma ListingAgreesWithTick(op: Word)
    ensures Runs(Decode(op)) == Cpu.Dispatch(op)
    ensures Cpu.Dispatch(op) == Cpu.Unknown <==> Decode(op).Sys? || Decode(op) == Unknown
  {
    var cls := op / 0x1000;
    if cls == 0x8 {
      AgreesInClass8(op);
    } else if cls == 0xF {
      AgreesInClassF(op);
    } else {
      AgreesElsewhere(op);
    }
  }

  /** `ListingAgreesWithTick` for class 8, selected by the low nibble. */
  lemma AgreesInClass8(op: Word)
    requires op / 0x1000 == 0x8
    ensures Runs(Decode(op)) == Cpu.Dispatch(op)
  {
    var low := op % 0x10;
    if low == 0x0 {} else if low == 0x1 {} else if low == 0x2 {} else if low == 0x3 {}
    else if low == 0x4 {} else if low == 0x5 {} else if low == 0x6 {} else if low == 0x7 {}
    else if low == 0xE {} else {}
  }

  /** `ListingAgreesWithTick` for class F, selected by the low byte. */
  lemma AgreesInClassF(op: Word)
    requires op / 0x1000 == 0xF
    ensures Runs(Decode(op)) == Cpu.Dispatch(op)
  {
    var low := op % 0x100;
    if low == 0x07 {} else if low == 0x0A {} else if low == 0x15 {} else if low == 0x18 {}
    else if low == 0x1E {} else if low == 0x29 {} else if low == 0x33 {} else if low == 0x55 {}
    else if low == 0x65 {} else {}
  }

  /** `ListingAgreesWithTick` for the classes other than 8 and F. */
  lemma AgreesElsewhere(op: Word)
    requires op / 0x1000 != 0x8 && op / 0x1000 != 0xF
    ensures Runs(Decode(op)) == Cpu.Dispatch(op)
  {
    var cls := op / 0x1000;
    if cls == 0x0 {} else if cls == 0x1 {} else if cls == 0x2 {} else if cls == 0x3 {}
    else if cls == 0x4 {} else if cls == 0x5 {} else if cls == 0x6 {} else if cls == 0x7 {}
    else if cls == 0x9 {} else if cls == 0xA {} else if cls == 0xB {} else if cls == 0xC {}
    else if cls == 0xD {} else if cls == 0xE {} else {}
  }

  // ---------------------------------------------------------------------
  // The walk over memory.
  // ---------------------------------------------------------------------

  /** The opcode word in slot `k` from `start`: the two bytes at `start + 2k`. */
  function WordAt(mem: Memory.Mem, start: nat, k: nat): Word
    requires Memory.Valid(mem) && start + 2 * k + 1 < Memory.Size
  {
    Memory.Read2(mem, start + 2 * k)
  }

  /** Slot `k` from `start + 2` is slot `k + 1` from `start`. */
  lemma SlotShift(mem: Memory.Mem, start: nat, k: nat)
    requires Memory.Valid(mem) && start + 2 * (k + 1) + 1 < Memory.Size
    ensures WordAt(mem, start + 2, k) == WordAt(mem, start, k + 1)
  {
  }

  /**
   * The opcode words fetched from `pc` on, two bytes apart, up to the first
   * zero word; `None` when the fetch runs past the last byte, which panics.
   */
  function Words(mem: Memory.Mem, pc: nat): Option<seq<Word>>
    requires Memory.Valid(mem)
    decreases Memory.Size - pc
  {
    if pc + 1 >= Memory.Size then None
    else
      var op := Memory.Read2(mem, pc);
      if op == 0 then Some([])
      else
        match Words(mem, pc + 2)
        case None => None
        case Some(rest) => Some([op] + rest)
  }

  /** No slot from `pc` to the end of memory holds a zero word. */
  ghost predicate NoZeroFrom(mem: Memory.Mem, pc: nat)
    requires Memory.Valid(mem)
  {
    forall k: nat :: pc + 2 * k + 1 < Memory.Size ==> WordAt(mem, pc, k) != 0
  }

  /**
   * The walk panics exactly when no zero word comes before the end of
   * memory; otherwise it returns the nonzero words before the first zero
   * word, in memory order.
   */
  lemma {:induction false} WordsShape(mem: Memory.Mem, pc: nat)
    requires Memory.Valid(mem)
    ensures Words(mem, pc).None? <==> NoZeroFrom(mem, pc)
    ensures var r := Words(mem, pc);
      r.Some? ==> pc + 2 * |r.value| + 1 < Memory.Size && WordAt(mem, pc, |r.value|) == 0
    ensures var r := Words(mem, pc);
      r.Some? ==> forall k :: 0 <= k < |r.value| ==> r.value[k] == WordAt(mem, pc, k) != 0
    decreases Memory.Size - pc
  {
    if pc + 1 < Memory.Size {
      var op := Memory.Read2(mem, pc);
      assert WordAt(mem, pc, 0) == op;
      if op != 0 {
        WordsShape(mem, pc + 2);
        match Words(mem, pc + 2) {
          case None =>
            forall k: nat | pc + 2 * k + 1 < Memory.Size
              ensures WordAt(mem, pc, k) != 0
            {
              if k > 0 {
                SlotShift(mem, pc, k - 1);
              }
            }
          case Some(rest) =>
            var r := [op] + rest;
            SlotShift(mem, pc, |rest|);
            forall k | 0 <= k < |r|
              ensures r[k] == WordAt(mem, pc, k) != 0
            {
              if k > 0 {
                SlotShift(mem, pc, k - 1);
              }
            }
        }
      }
    }
  }

  /** Every word decoded. */
  function DecodeAll(words: seq<Word>): (r: seq<Instruction>)
    ensures |r| == |words| && forall k :: 0 <= k < |words| ==> r[k] == Decode(words[k])
  {
    seq(|words|, k requires 0 <= k < |words| => Decode(words[k]))
  }

  /**
   * The listing from `pc`: the words up to the first zero word, decoded,
   * or `None` when the walk runs off the end of memory.
   */
  function Listing(mem: Memory.Mem, pc: nat): Option<seq<Instruction>>
    requires Memory.Valid(mem)
  {
    match Words(mem, pc)
    case None => None
    case Some(words) => Some(DecodeAll(words))
  }

  /**
   * What a listing is: `None` exactly when every word from `pc` to the end
   * of memory is nonzero; otherwise the decoded nonzero words in front of
   * the first zero word, which still lies inside memory.
   */
  lemma ListingShape(mem: Memory.Mem, pc: nat)
    requires Memory.Valid(mem)
    ensures var r := Listing(mem, pc);
      && (r.None? <==> forall k: nat :: pc + 2 * k + 1 < Memory.Size ==> WordAt(mem, pc, k) != 0)
      && (r.Some? ==> pc + 2 * |r.value| + 1 < Memory.Size && WordAt(mem, pc, |r.value|) == 0)
      && (r.Some? ==> forall k :: 0 <= k < |r.value| ==>
            WordAt(mem, pc, k) != 0 && r.value[k] == Decode(WordAt(mem, pc, k)))
  {
    WordsShape(mem, pc);
  }

  /** `lines` in front of a listing that did not panic. */
  function Prefixed(lines: seq<Instruction>, r: Option<seq<Instruction>>): Option<seq<Instruction>>
  {
    match r
    case None => None
    case Some(rest) => Some(lines + rest)
  }

  /** One step of the listing: a zero word ends it, any other word is listed in front of the rest. */
  lemma ListingStep(mem: Memory.Mem, pc: nat)
    requires Memory.Valid(mem) && pc + 1 < Memory.Size
    ensures Memory.Read2(mem, pc) == 0 ==> Listing(mem, pc) == Some([])
    ensures Memory.Read2(mem, pc) != 0 ==>
      Listing(mem, pc) == Prefixed([Decode(Memory.Read2(mem, pc))], Listing(mem, pc + 2))
  {
    var op := Memory.Read2(mem, pc);
    if op == 0 {
      assert Words(mem, pc) == Some([]);
    } else {
      match Words(mem, pc + 2) {
        case None =>
          assert Words(mem, pc) == None;
        case Some(rest) =>
          assert Words(mem, pc) == Some([op] + rest);
          DecodeAllCons(op, rest);
      }
    }
  }

  /** Decoding a word in front of others decodes it in front of their decoding. */
  lemma DecodeAllCons(op: Word, rest: seq<Word>)
    ensures DecodeAll([op] + rest) == [Decode(op)] + DecodeAll(rest)
  {
    var a, b := DecodeAll([op] + rest), [Decode(op)] + DecodeAll(rest);
    assert |a| == |b|;
    forall k | 0 <= k < |a|
      ensures a[k] == b[k]
    {
      if k > 0 {
        assert ([op] + rest)[k] == rest[k - 1];
      }
    }
  }

  /** Nothing in front of a listing leaves it as it is; anything in front of an empty one is just that. */
  lemma PrefixedUnit(a: seq<Instruction>, r: Option<seq<Instruction>>)
    ensures Prefixed([], r) == r
    ensures Prefixed(a, Some([])) == Some(a)
  {
    match r {
      case None =>
      case Some(rest) => assert [] + rest == rest;
    }
    assert a + [] == a;
  }

  /** Putting `a` in front of `b` in front of a listing is putting `a + b` in front of it. */
  lemma PrefixedTwice(a: seq<Instruction>, b: seq<Instruction>, r: Option<seq<Instruction>>)
    ensures Prefixed(a, Prefixed(b, r)) == Prefixed(a + b, r)
  {
    match r {
      case None =>
      case Some(rest) => assert a + (b + rest) == (a + b) + rest;
    }
  }

  /**
   * The loop of `disasm_rom` over a loaded memory: from the program start,
   * fetch, step PC by 2, stop at a zero word, decode and list anything else.
   */
  method Disassemble(mem: Memory.Mem) returns (r: Option<seq<Instruction>>)
    requires Memory.Valid(mem)
    ensures r == Listing(mem, Memory.ProgramStart)
  {
    var pc := Memory.ProgramStart;
    var lines: seq<Instruction> := [];
    PrefixedUnit(lines, Listing(mem, pc));
    while pc + 1 < Memory.Size
      invariant Memory.ProgramStart <= pc <= Memory.Size
      invariant Listing(mem, Memory.ProgramStart) == Prefixed(lines, Listing(mem, pc))
      decreases Memory.Size - pc
    {
      var op := Memory.Read2(mem, pc);
      ListingStep(mem, pc);
      pc := pc + 2;
      if op == 0 {
        PrefixedUnit(lines, None);
        return Some(lines);
      }
      PrefixedTwice(lines, [Decode(op)], Listing(mem, pc));
      lines := lines + [Decode(op)];
    }
    r := None;   // the fetch past the last byte panics
  }

  /** The word of slot `k` of an image. */
  function RomWord(rom: seq<Byte>, k: nat): Word
    requires 2 * k + 1 < |rom|
  {
    rom[2 * k] as int * 0x100 + rom[2 * k + 1]
  }

  /**
   * Words that are all nonzero and followed by a zero word list as exactly
   * those words, decoded.
   */
  lemma ListingOfWords(mem: Memory.Mem, start: nat, words: seq<Word>)
    requires Memory.Valid(mem) && start + 2 * |words| + 1 < Memory.Size
    requires forall k :: 0 <= k < |words| ==> WordAt(mem, start, k) == words[k] != 0
    requires WordAt(mem, start, |words|) == 0
    ensures Listing(mem, start) == Some(seq(|words|, k requires 0 <= k < |words| => Decode(words[k])))
  {
    ListingShape(mem, start);
    var r := Listing(mem, start);
    assert r.Some?;
    var expected := seq(|words|, k requires 0 <= k < |words| => Decode(words[k]));
    assert |r.value| == |expected|;
    assert forall k :: 0 <= k < |words| ==> r.value[k] == expected[k];
    assert r.value == expected;
  }

  /** The words of a loaded image sit in the slots from the program start, followed by a zero word. */
  lemma ImageSlots(rom: seq<Byte>)
    requires |rom| % 2 == 0 && Memory.ProgramStart + |rom| + 2 <= Memory.Size
    ensures var mem := Memory.Loaded(Memory.Init(), rom);
      && Memory.Valid(mem)
      && (forall k :: 0 <= k < |rom| / 2 ==> WordAt(mem, Memory.ProgramStart, k) == RomWord(rom, k))
      && WordAt(mem, Memory.ProgramStart, |rom| / 2) == 0
  {
    var mem := Memory.Loaded(Memory.Init(), rom);
    var start, n := Memory.ProgramStart, |rom| / 2;
    Memory.LoadedContents(Memory.Init(), rom);
    forall k | 0 <= k < n
      ensures WordAt(mem, start, k) == RomWord(rom, k)
    {
      assert mem.data[start + 2 * k] == rom[2 * k];
      assert mem.data[start + (2 * k + 1)] == rom[2 * k + 1];
    }
    assert mem.data[start + 2 * n] == 0 && mem.data[start + 2 * n + 1] == 0;
  }

  /**
   * An image of whole words, none of them zero, with room for one more
   * word behind it, lists every one of its words and stops at the zero
   * word that the memory initialisation leaves behind it.
   */
  lemma ListingOfImage(rom: seq<Byte>)
    requires |rom| % 2 == 0 && Memory.ProgramStart + |rom| + 2 <= Memory.Size
    requires forall k :: 0 <= k < |rom| / 2 ==> RomWord(rom, k) != 0
    ensures var mem := Memory.Loaded(Memory.Init(), rom);
      Listing(mem, Memory.ProgramStart) == Some(seq(|rom| / 2, k requires 0 <= k < |rom| / 2 => Decode(RomWord(rom, k))))
  {
    var mem := Memory.Loaded(Memory.Init(), rom);
    var words := seq(|rom| / 2, k requires 0 <= k < |rom| / 2 => RomWord(rom, k));
    ImageSlots(rom);
    ListingOfWords(mem, Memory.ProgramStart, words);
    assert seq(|words|, k requires 0 <= k < |words| => Decode(words[k]))
        == seq(|rom| / 2, k requires 0 <= k < |rom| / 2 => Decode(RomWord(rom, k)));
  }
}
