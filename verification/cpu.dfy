/**
 * The processor of cpu.go: `init`, `timer_decrement` and `tick`, which
 * fetches the opcode word at PC, advances PC, counts the timers down and
 * hands the word to one of the `op_*` bodies of opcodes.go.
 *
 * The dispatch is given an independent reference: the opcode patterns of
 * the documented instruction table ("00E0", "8XY4", "FX0A", ...), where hex
 * digits must match and the placeholders X, Y, N match anything.
 */
module Cpu {
  import opened Base
  import opened State
  import Memory
  import CallStack
  import Display
  import Input
  import Opcodes

  // ---------------------------------------------------------------------
  // The instruction table.
  // ---------------------------------------------------------------------

  /** The `op_*` method `tick` hands an opcode word to; `Unknown` for the words it only reports. */
  datatype Handler =
    | Clear | Return | Jump | Call
    | SkipIfEqual | SkipIfNotEqual | SkipIfRegsEqual
    | SetImmediate | AddImmediate
    | Move | Or | And | Xor | AddRegs | Sub | ShiftRight | SubReversed | ShiftLeft
    | SkipIfRegsDiffer | SetIndex | JumpOffset | Random | Draw
    | SkipIfKey | SkipIfNoKey
    | ReadDelay | WaitKey | SetDelay | SetSound | AddIndex | FontAddress | Bcd | Store | Load
    | Unknown

  /** The documented pattern of each instruction: hex digits are fixed, X, Y and N are operands. */
  function Pattern(h: Handler): (p: string)
    ensures |p| == 4
  {
    match h
    case Clear => "00E0"
    case Return => "00EE"
    case Jump => "1NNN"
    case Call => "2NNN"
    case SkipIfEqual => "3XNN"
    case SkipIfNotEqual => "4XNN"
    case SkipIfRegsEqual => "5XY0"
    case SetImmediate => "6XNN"
    case AddImmediate => "7XNN"
    case Move => "8XY0"
    case Or => "8XY1"
    case And => "8XY2"
    case Xor => "8XY3"
    case AddRegs => "8XY4"
    case Sub => "8XY5"
    case ShiftRight => "8XY6"
    case SubReversed => "8XY7"
    case ShiftLeft => "8XYE"
    case SkipIfRegsDiffer => "9XY0"
    case SetIndex => "ANNN"
    case JumpOffset => "BNNN"
    case Random => "CXNN"
    case Draw => "DXYN"
    case SkipIfKey => "EX9E"
    case SkipIfNoKey => "EXA1"
    case ReadDelay => "FX07"
    case WaitKey => "FX0A"
    case SetDelay => "FX15"
    case SetSound => "FX18"
    case AddIndex => "FX1E"
    case FontAddress => "FX29"
    case Bcd => "FX33"
    case Store => "FX55"
    case Load => "FX65"
    case Unknown => "...."
  }

  /** The value of an upper-case hex digit, or `None` for an operand placeholder. */
  function HexValue(c: char): (r: Option<nat>)
    ensures r.Some? ==> r.value < 16
  {
    if '0' <= c <= '9' then Some(c as int - '0' as int)
    else if 'A' <= c <= 'F' then Some(c as int - 'A' as int + 10)
    else None
  }

  /** Nibble `k` of the opcode word, counting from the most significant. */
  function Nibble(op: Word, k: nat): (d: nat)
    requires k < 4
    ensures d < 16
  {
    if k == 0 then op / 0x1000 % 0x10
    else if k == 1 then op / 0x100 % 0x10
    else if k == 2 then op / 0x10 % 0x10
    else op % 0x10
  }

  /** Every fixed digit of the pattern equals the corresponding nibble of the word. */
  predicate Matches(op: Word, p: string)
    requires |p| == 4
  {
    forall k :: 0 <= k < 4 && HexValue(p[k]).Some? ==> HexValue(p[k]).value == Nibble(op, k)
  }

  // ---------------------------------------------------------------------
  // Dispatch.
  // ---------------------------------------------------------------------

  /** A word is its four nibbles; the low byte and the low nibble are the last two and the last one. */
  lemma NibbleParts(op: Word)
    ensures op == Nibble(op, 0) * 0x1000 + Nibble(op, 1) * 0x100 + Nibble(op, 2) * 0x10 + Nibble(op, 3)
    ensures op / 0x1000 == Nibble(op, 0)
    ensures op % 0x100 == Nibble(op, 2) * 0x10 + Nibble(op, 3)
    ensures op % 0x10 == Nibble(op, 3)
  {
    WordNibbles(op);
  }

  /** 5XY0 and 9XY0 are the two instructions whose last fixed digit `tick` does not look at. */
  predicate LowNibbleUnchecked(h: Handler)
  {
    h == SkipIfRegsEqual || h == SkipIfRegsDiffer
  }

  /**
   * The `switch` of `tick`: on the top nibble, then on the whole word
   * (class 0), the low nibble (class 8) or the low byte (classes E and F).
   * Everything else, 0NNN included, is only reported as unknown. Classes 5
   * and 9 are selected on the top nibble alone.
   */
  function Dispatch(op: Word): Handler
  {
    match op / 0x1000
    case 0x0 => if op == 0x00E0 then Clear else if op == 0x00EE then Return else Unknown
    case 0x1 => Jump
    case 0x2 => Call
    case 0x3 => SkipIfEqual
    case 0x4 => SkipIfNotEqual
    case 0x5 => SkipIfRegsEqual
    case 0x6 => SetImmediate
    case 0x7 => AddImmediate
    case 0x8 =>
      (match op % 0x10
       case 0x0 => Move
       case 0x1 => Or
       case 0x2 => And
       case 0x3 => Xor
       case 0x4 => AddRegs
       case 0x5 => Sub
       case 0x6 => ShiftRight
       case 0x7 => SubReversed
       case 0xE => ShiftLeft
       case _ => Unknown)
    case 0x9 => SkipIfRegsDiffer
    case 0xA => SetIndex
    case 0xB => JumpOffset
    case 0xC => Random
    case 0xD => Draw
    case 0xE => if op % 0x100 == 0x9E then SkipIfKey else if op % 0x100 == 0xA1 then SkipIfNoKey else Unknown
    case 0xF =>
      (match op % 0x100
       case 0x07 => ReadDelay
       case 0x0A => WaitKey
       case 0x15 => SetDelay
       case 0x18 => SetSound
       case 0x1E => AddIndex
       case 0x29 => FontAddress
       case 0x33 => Bcd
       case 0x55 => Store
       case 0x65 => Load
       case _ => Unknown)
    case _ => Unknown
  }

  /**
   * The handler `tick` selects fits its documented pattern; for 5XY0 and
   * 9XY0 the word fits once its low nibble is cleared.
   */
  lemma DispatchFitsPattern(op: Word)
    ensures Dispatch(op) != Unknown && !LowNibbleUnchecked(Dispatch(op)) ==> Matches(op, Pattern(Dispatch(op)))
    ensures LowNibbleUnchecked(Dispatch(op)) ==> Matches(op / 0x10 * 0x10, Pattern(Dispatch(op)))
  {
    var cls := op / 0x1000;
    if cls == 0x0 {
      FitsInClass0(op);
    } else if cls == 0x8 {
      FitsInClass8(op);
    } else if cls == 0xE {
      FitsInClassE(op);
    } else if cls == 0xF {
      FitsInClassF(op);
    } else if cls == 0x5 || cls == 0x9 {
      FitsInCompareClass(op);
    } else {
      FitsInSingleHandlerClass(op);
    }
  }

  /** `DispatchFitsPattern` for the words of class 0. */
  lemma FitsInClass0(op: Word)
    requires op / 0x1000 == 0x0
    ensures Dispatch(op) != Unknown ==> Matches(op, Pattern(Dispatch(op)))
  {
    NibbleParts(op);
    if Dispatch(op) != Unknown {
      MatchesByDigits(op, Pattern(Dispatch(op)));
    }
  }


  /** `DispatchFitsPattern` for the words of class 8. */
  lemma FitsInClass8(op: Word)
    requires op / 0x1000 == 0x8
    ensures Dispatch(op) != Unknown ==> Matches(op, Pattern(Dispatch(op)))
  {
    NibbleParts(op);
    if Dispatch(op) != Unknown {
      MatchesByDigits(op, Pattern(Dispatch(op)));
    }
  }


  /** `DispatchFitsPattern` for the words of class E. */
  lemma FitsInClassE(op: Word)
    requires op / 0x1000 == 0xE
    ensures Dispatch(op) != Unknown ==> Matches(op, Pattern(Dispatch(op)))
  {
    NibbleParts(op);
    if Dispatch(op) != Unknown {
      MatchesByDigits(op, Pattern(Dispatch(op)));
    }
  }


  /** `DispatchFitsPattern` for the words of class F. */
  lemma FitsInClassF(op: Word)
    requires op / 0x1000 == 0xF
    ensures Dispatch(op) != Unknown ==> Matches(op, Pattern(Dispatch(op)))
  {
    NibbleParts(op);
    if Dispatch(op) != Unknown {
      MatchesByDigits(op, Pattern(Dispatch(op)));
    }
  }


  /** `DispatchFitsPattern` for 5XY0 and 9XY0, whose low nibble `tick` does not look at. */
  lemma FitsInCompareClass(op: Word)
    requires op / 0x1000 == 0x5 || op / 0x1000 == 0x9
    ensures LowNibbleUnchecked(Dispatch(op)) && Matches(op / 0x10 * 0x10, Pattern(Dispatch(op)))
  {
    var w := op / 0x10 * 0x10;
    NibbleParts(op);
    NibbleParts(w);
    assert Nibble(w, 0) == Nibble(op, 0) && Nibble(w, 1) == Nibble(op, 1) && Nibble(w, 2) == Nibble(op, 2);
    MatchesByDigits(w, Pattern(Dispatch(op)));
  }

  /** `DispatchFitsPattern` for the other classes with a single instruction. */
  lemma FitsInSingleHandlerClass(op: Word)
    requires op / 0x1000 in {0x1, 0x2, 0x3, 0x4, 0x6, 0x7, 0xA, 0xB, 0xC, 0xD}
    ensures Dispatch(op) != Unknown && !LowNibbleUnchecked(Dispatch(op)) && Matches(op, Pattern(Dispatch(op)))
  {
    NibbleParts(op);
    MatchesByDigits(op, Pattern(Dispatch(op)));
  }

  /** Digit `k` of the pattern is a placeholder or equals nibble `k` of the word. */
  predicate DigitFits(op: Word, p: string, k: nat)
    requires |p| == 4 && k < 4
  {
    HexValue(p[k]).None? || HexValue(p[k]).value == Nibble(op, k)
  }

  /** `Matches` digit by digit. */
  lemma MatchesByDigits(op: Word, p: string)
    requires |p| == 4
    requires DigitFits(op, p, 0) && DigitFits(op, p, 1) && DigitFits(op, p, 2) && DigitFits(op, p, 3)
    ensures Matches(op, p)
  {
    forall k | 0 <= k < 4 && HexValue(p[k]).Some?
      ensures HexValue(p[k]).value == Nibble(op, k)
    {
      assert DigitFits(op, p, k);
    }
  }

  /**
   * A word that fits a documented pattern is handed to that pattern's
   * handler; with the ensures of `Dispatch`, the handler is exactly the
   * instruction whose pattern the word fits, and `Unknown` means it fits none.
   */
  lemma DispatchFollowsPatterns(op: Word, h: Handler)
    requires h != Unknown && Matches(op, Pattern(h))
    ensures Dispatch(op) == h
  {
    NibbleParts(op);
    DigitsOfMatch(op, Pattern(h));
    if h in {Clear, Return, Jump, Call, SkipIfEqual, SkipIfNotEqual, SkipIfRegsEqual, SetImmediate, AddImmediate} {
      FollowsUpToClass7(op, h);
    } else if h in {Move, Or, And, Xor, AddRegs, Sub, ShiftRight, SubReversed, ShiftLeft} {
      FollowsInClass8(op, h);
    } else if h in {SkipIfRegsDiffer, SetIndex, JumpOffset, Random, Draw, SkipIfKey, SkipIfNoKey} {
      FollowsFrom9ToE(op, h);
    } else {
      FollowsInClassF(op, h);
    }
  }

  /** `DispatchFollowsPatterns` for the patterns of classes 0 to 7. */
  lemma FollowsUpToClass7(op: Word, h: Handler)
    requires h in {Clear, Return, Jump, Call, SkipIfEqual, SkipIfNotEqual, SkipIfRegsEqual, SetImmediate, AddImmediate}
    requires DigitFits(op, Pattern(h), 0) && DigitFits(op, Pattern(h), 1)
    requires DigitFits(op, Pattern(h), 2) && DigitFits(op, Pattern(h), 3)
    ensures Dispatch(op) == h
  {
    NibbleParts(op);
  }

  /** `DispatchFollowsPatterns` for the patterns of class 8. */
  lemma FollowsInClass8(op: Word, h: Handler)
    requires h in {Move, Or, And, Xor, AddRegs, Sub, ShiftRight, SubReversed, ShiftLeft}
    requires DigitFits(op, Pattern(h), 0) && DigitFits(op, Pattern(h), 3)
    ensures Dispatch(op) == h
  {
    NibbleParts(op);
  }

  /** `DispatchFollowsPatterns` for the patterns of classes 9 to E. */
  lemma FollowsFrom9ToE(op: Word, h: Handler)
    requires h in {SkipIfRegsDiffer, SetIndex, JumpOffset, Random, Draw, SkipIfKey, SkipIfNoKey}
    requires DigitFits(op, Pattern(h), 0) && DigitFits(op, Pattern(h), 2) && DigitFits(op, Pattern(h), 3)
    ensures Dispatch(op) == h
  {
    NibbleParts(op);
  }

  /** `DispatchFollowsPatterns` for the patterns of class F. */
  lemma FollowsInClassF(op: Word, h: Handler)
    requires h in {ReadDelay, WaitKey, SetDelay, SetSound, AddIndex, FontAddress, Bcd, Store, Load}
    requires DigitFits(op, Pattern(h), 0) && DigitFits(op, Pattern(h), 2) && DigitFits(op, Pattern(h), 3)
    ensures Dispatch(op) == h
  {
    NibbleParts(op);
  }

  /** The converse of `MatchesByDigits`: a matching word fits every digit. */
  lemma DigitsOfMatch(op: Word, p: string)
    requires |p| == 4 && Matches(op, p)
    ensures DigitFits(op, p, 0) && DigitFits(op, p, 1) && DigitFits(op, p, 2) && DigitFits(op, p, 3)
  {
  }

  /** 5XY1 is not of the form 5XY0, yet `tick` runs it as 5XY0; likewise 9XY1 as 9XY0. */
  lemma LowNibbleIgnored()
    ensures !Matches(0x5121, Pattern(SkipIfRegsEqual)) && Dispatch(0x5121) == SkipIfRegsEqual
    ensures !Matches(0x9121, Pattern(SkipIfRegsDiffer)) && Dispatch(0x9121) == SkipIfRegsDiffer
  {
    assert HexValue(Pattern(SkipIfRegsEqual)[3]).Some?;
    assert HexValue(Pattern(SkipIfRegsDiffer)[3]).Some?;
  }

  /** The handlers that may set PC to something other than the already advanced PC. */
  predicate MovesPc(h: Handler)
  {
    h in {Return, Jump, Call, SkipIfEqual, SkipIfNotEqual, SkipIfRegsEqual, SkipIfRegsDiffer,
          JumpOffset, SkipIfKey, SkipIfNoKey, WaitKey}
  }

  /** The handlers that can reach a run-time panic: an empty-stack pop or an index past memory or the grid. */
  predicate MayPanic(h: Handler)
  {
    h in {Return, Draw, Bcd, Store, Load}
  }

  /**
   * The call of the selected `op_*` body with the fields as opcodes.go
   * extracts them (X and Y always 0). The keypad and the random byte are
   * the state of the input device and of `rand.Int()` at that moment.
   */
  function Execute(m: Machine, op: Word, pad: Input.Keypad, rnd: Byte): (r: Result)
    requires Valid(m)
    ensures r.Ok? ==> Valid(r.m)
    ensures r.Fault? ==> MayPanic(Dispatch(op))
    ensures Dispatch(op) == Unknown ==> r == Ok(m)
    ensures r.Ok? && !MovesPc(Dispatch(op)) ==> r.m.pc == m.pc
    ensures r.Ok? && Dispatch(op) != Call && Dispatch(op) != Return ==> r.m.sp == m.sp
    ensures r.Ok? && Dispatch(op) != Bcd && Dispatch(op) != Store ==> r.m.mem == m.mem
    ensures r.Ok? && Dispatch(op) != Clear && Dispatch(op) != Draw ==> r.m.pic == m.pic
    ensures r.Ok? && Dispatch(op) != SetDelay ==> r.m.dt == m.dt
    ensures r.Ok? && Dispatch(op) != SetSound ==> r.m.st == m.st
  {
    var x, y := Opcodes.FieldX(op), Opcodes.FieldY(op);
    var nn, nnn := Opcodes.FieldNN(op), Opcodes.FieldNNN(op);
    match Dispatch(op)
    case Clear => Ok(Opcodes.Op00E0(m))
    case Return => Opcodes.Op00EE(m)
    case Jump => Ok(Opcodes.Op1NNN(m, nnn))
    case Call => Ok(Opcodes.Op2NNN(m, nnn))
    case SkipIfEqual => Ok(Opcodes.Op3XNN(m, x, nn))
    case SkipIfNotEqual => Ok(Opcodes.Op4XNN(m, x, nn))
    case SkipIfRegsEqual => Ok(Opcodes.Op5XY0(m, x, y))
    case SetImmediate => Ok(Opcodes.Op6XNN(m, x, nn))
    case AddImmediate => Ok(Opcodes.Op7XNN(m, x, nn))
    case Move => Ok(Opcodes.Op8XY0(m, x, y))
    case Or => Ok(Opcodes.Op8XY1(m, x, y))
    case And => Ok(Opcodes.Op8XY2(m, x, y))
    case Xor => Ok(Opcodes.Op8XY3(m, x, y))
    case AddRegs => Ok(Opcodes.Op8XY4(m, x, y))
    case Sub => Ok(Opcodes.Op8XY5(m, x, y))
    case ShiftRight => Ok(Opcodes.Op8XY6(m, x))
    case SubReversed => Ok(Opcodes.Op8XY7(m, x, y))
    case ShiftLeft => Ok(Opcodes.Op8XYE(m, x))
    case SkipIfRegsDiffer => Ok(Opcodes.Op9XY0(m, x, y))
    case SetIndex => Ok(Opcodes.OpANNN(m, nnn))
    case JumpOffset => Ok(Opcodes.OpBNNN(m, nnn))
    case Random => Ok(Opcodes.OpCXNN(m, x, nn, rnd))
    case Draw => Opcodes.OpDXYN(m, x, y, nn)
    case SkipIfKey => Ok(Opcodes.OpEX9E(m, x, pad))
    case SkipIfNoKey => Ok(Opcodes.OpEXA1(m, x, pad))
    case ReadDelay => Ok(Opcodes.OpFX07(m, x))
    case WaitKey => Ok(Opcodes.OpFX0A(m, x, pad))
    case SetDelay => Ok(Opcodes.OpFX15(m, x))
    case SetSound => Ok(Opcodes.OpFX18(m, x))
    case AddIndex => Ok(Opcodes.OpFX1E(m, x))
    case FontAddress => Ok(Opcodes.OpFX29(m, x))
    case Bcd => Opcodes.OpFX33(m, x)
    case Store => Opcodes.OpFX55(m, x)
    case Load => Opcodes.OpFX65(m, x)
    case Unknown => Ok(m)
  }

  // ---------------------------------------------------------------------
  // Timers, init and tick.
  // ---------------------------------------------------------------------

  /** The per-tick count-down: a positive timer loses one, zero and negative values stay. */
  function Countdown(t: Int8): (r: Int8)
    ensures t > 0 ==> r == t - 1
    ensures t <= 0 ==> r == t
  {
    if t > 0 then t - 1 else t
  }

  /** `n` ticks' worth of count-down. */
  function CountdownTimes(t: Int8, n: nat): Int8
    decreases n
  {
    if n == 0 then t else CountdownTimes(Countdown(t), n - 1)
  }

  /**
   * A timer loaded with a non-negative value reaches 0 and stays there; a
   * negative value (VX >= 0x80 loaded through FX15 or FX18) never changes.
   */
  lemma {:induction false} CountdownSettles(t: Int8, n: nat)
    ensures t >= 0 ==> CountdownTimes(t, n) == (if n <= t then t - n else 0)
    ensures t < 0 ==> CountdownTimes(t, n) == t
    decreases n
  {
    if n > 0 {
      CountdownSettles(Countdown(t), n - 1);
    }
  }

  /** `timer_decrement`: both timers lose one, wrapping from -128 to 127 as `int8` does. */
  function TimerDecrement(m: Machine): (r: Machine)
    requires Valid(m)
    ensures Valid(r) && r.(dt := m.dt, st := m.st) == m
    ensures (r.dt - (m.dt - 1)) % 0x100 == 0 && (r.st - (m.st - 1)) % 0x100 == 0
    ensures m.dt > -0x80 ==> r.dt == m.dt - 1
    ensures m.dt == -0x80 ==> r.dt == 0x7F
    ensures m.st > -0x80 ==> r.st == m.st - 1
    ensures m.st == -0x80 ==> r.st == 0x7F
  {
    m.(dt := Wrap8s(m.dt - 1), st := Wrap8s(m.st - 1))
  }

  /**
   * `init` of the processor: sixteen zero registers, I = 0, PC at the
   * program start, an empty 16-entry stack and stopped timers. The memory
   * and the grid are those of the console it runs in.
   */
  function Init(mem: Memory.Mem, pic: Display.Grid): (m: Machine)
    requires Memory.Valid(mem) && Display.WellShaped(pic)
    ensures Valid(m)
    ensures forall k :: 0 <= k < 16 ==> m.v[k] == 0
    ensures m.i == 0 && m.pc == Memory.ProgramStart && m.dt == 0 && m.st == 0
    ensures CallStack.Depth(m.sp) == 0 && m.sp.size == 16
    ensures m.mem == mem && m.pic == pic
  {
    Machine(seq(16, _ => 0), 0, Memory.ProgramStart, CallStack.Init(16), 0, 0, mem, pic)
  }

  /** A console freshly set up with `rom` loaded at the program start. */
  function Boot(rom: seq<Byte>): (m: Machine)
    requires |rom| <= Memory.Size - Memory.ProgramStart
    ensures Valid(m) && m.pc == Memory.ProgramStart
    ensures forall k :: 0 <= k < |rom| ==> m.mem.data[Memory.ProgramStart + k] == rom[k]
    ensures forall a :: 0 <= a < Memory.ProgramStart ==> m.mem.data[a] == Memory.Init().data[a]
    ensures Display.Binary(m.pic)
  {
    Init(Memory.Loaded(Memory.Init(), rom), Display.Init())
  }

  /** The state after the fetch: PC past the opcode word (in `uint16`) and both timers counted down. */
  function Advance(m: Machine): (r: Machine)
    requires Valid(m)
    ensures Valid(r) && r.(pc := m.pc, dt := m.dt, st := m.st) == m
    ensures r.pc == (m.pc + 2) % 0x1_0000
    ensures r.dt == Countdown(m.dt) && r.st == Countdown(m.st)
  {
    m.(pc := Wrap16(m.pc + 2), st := Countdown(m.st), dt := Countdown(m.dt))
  }

  /** The opcode word at PC, high byte first; `None` when the second byte lies past memory (a panic). */
  function Fetch(m: Machine): (r: Option<Word>)
    requires Valid(m)
    ensures r.None? <==> m.pc + 1 >= Memory.Size
    ensures r.Some? ==> r.value / 0x100 == m.mem.data[m.pc] && r.value % 0x100 == m.mem.data[m.pc + 1]
  {
    if m.pc + 1 >= Memory.Size then None else Some(Memory.Read2(m.mem, m.pc))
  }

  /**
   * `tick`: fetch, advance, count down, execute. A fetch past memory and
   * the panics of the handlers are faults; an unknown opcode is reported
   * and skipped.
   */
  function Tick(m: Machine, pad: Input.Keypad, rnd: Byte): (r: Result)
    requires Valid(m)
    ensures Fetch(m).None? ==> r == Fault(OutOfBounds)
    ensures Fetch(m).Some? && Dispatch(Fetch(m).value) == Unknown ==> r == Ok(Advance(m))
    ensures r.Ok? ==> Valid(r.m)
    ensures r.Ok? && !MovesPc(Dispatch(Fetch(m).value)) ==> r.m.pc == (m.pc + 2) % 0x1_0000
    ensures r.Ok? && Dispatch(Fetch(m).value) != SetDelay ==> r.m.dt == Countdown(m.dt)
    ensures r.Ok? && Dispatch(Fetch(m).value) != SetSound ==> r.m.st == Countdown(m.st)
    ensures r.Fault? && Fetch(m).Some? ==> MayPanic(Dispatch(Fetch(m).value))
  {
    match Fetch(m)
    case None => Fault(OutOfBounds)
    case Some(op) => Execute(Advance(m), op, pad, rnd)
  }

  // ---------------------------------------------------------------------
  // Behaviour over ticks.
  // ---------------------------------------------------------------------

  /** The first word a booted console fetches is the first two bytes of the ROM. */
  lemma BootFetchesRomStart(rom: seq<Byte>)
    requires 2 <= |rom| <= Memory.Size - Memory.ProgramStart
    ensures Fetch(Boot(rom)) == Some(rom[0] as int * 0x100 + rom[1])
  {
    Memory.FirstOpcodeAfterLoad(rom);
  }

  /** The machine whose next instruction is the word `op`. */
  predicate At(m: Machine, op: Word)
    requires Valid(m)
  {
    Fetch(m) == Some(op)
  }

  /** A tick at a machine whose next word is `op` executes `op` on the advanced machine. */
  lemma TickExecutes(m: Machine, op: Word, pad: Input.Keypad, rnd: Byte)
    requires Valid(m) && At(m, op)
    ensures Tick(m, pad, rnd) == Execute(Advance(m), op, pad, rnd)
  {
  }

  /** A tick at a 2NNN word is the call of NNN on the advanced machine. */
  lemma TickCalls(m: Machine, op: Word, pad: Input.Keypad, rnd: Byte)
    requires Valid(m) && At(m, op) && Dispatch(op) == Call
    ensures Tick(m, pad, rnd) == Ok(Opcodes.Op2NNN(Advance(m), Opcodes.FieldNNN(op)))
  {
    TickExecutes(m, op, pad, rnd);
  }

  /** A tick at 00EE is the return on the advanced machine. */
  lemma TickReturns(m: Machine, pad: Input.Keypad, rnd: Byte)
    requires Valid(m) && At(m, 0x00EE)
    ensures Tick(m, pad, rnd) == Opcodes.Op00EE(Advance(m))
  {
    TickExecutes(m, 0x00EE, pad, rnd);
  }

  /**
   * 2NNN followed by 00EE at NNN: the call lands on NNN with the return
   * address on the stack, and the return comes back to the instruction after
   * the call with the stack as it was.
   */
  lemma CallThenReturn(m: Machine, nnn: nat, pad: Input.Keypad, rnd: Byte)
    requires Valid(m) && nnn + 1 < Memory.Size && m.pc + 1 < Memory.Size
    requires At(m, 0x2000 + nnn) && m.sp.i < m.sp.size
    requires m.mem.data[nnn] == 0x00 && m.mem.data[nnn + 1] == 0xEE
    ensures Tick(m, pad, rnd).Ok? && Tick(m, pad, rnd).m.pc == nnn
    ensures CallStack.Contents(Tick(m, pad, rnd).m.sp) == CallStack.Contents(m.sp) + [m.pc + 2]
    ensures var m2 := Tick(Tick(m, pad, rnd).m, pad, rnd);
      m2.Ok? && m2.m.pc == m.pc + 2 && CallStack.Contents(m2.m.sp) == CallStack.Contents(m.sp)
  {
    var op := 0x2000 + nnn;
    DivModOf(op, 0x1000, 0x2, nnn);
    assert Dispatch(op) == Call && Opcodes.FieldNNN(op) == nnn;
    TickCalls(m, op, pad, rnd);
    var m1 := Tick(m, pad, rnd).m;
    assert Fetch(m1) == Some(0x00EE);
    TickReturns(m1, pad, rnd);
  }

  /** Every word FX0A waits for a key. */
  lemma DispatchesWaitKey(x: Reg)
    ensures Dispatch(0xF00A + x * 0x100) == WaitKey
  {
    Nibbles(0xF, x, 0x0, 0xA);
  }

  /** A tick at an FX0A word is the key wait on V0 on the advanced machine. */
  lemma TickWaitsKey(m: Machine, op: Word, pad: Input.Keypad, rnd: Byte)
    requires Valid(m) && At(m, op) && Dispatch(op) == WaitKey
    ensures Tick(m, pad, rnd) == Ok(Opcodes.OpFX0A(Advance(m), 0, pad))
  {
    TickExecutes(m, op, pad, rnd);
  }

  /**
   * FX0A with no key 0..15 down runs again on the next tick: PC ends where
   * it was and the registers are untouched.
   */
  lemma WaitKeyRepeats(m: Machine, x: Reg, pad: Input.Keypad, rnd: Byte)
    requires Valid(m) && At(m, 0xF00A + x * 0x100) && !(0 <= pad.keys < 16)
    ensures Tick(m, pad, rnd).Ok? && Tick(m, pad, rnd).m.pc == m.pc && Tick(m, pad, rnd).m.v == m.v
  {
    DispatchesWaitKey(x);
    TickWaitsKey(m, 0xF00A + x * 0x100, pad, rnd);
    assert Advance(m).pc == m.pc + 2;
  }

  /** FX0A with key k down: V0 := k (X is not looked at) and execution moves on. */
  lemma WaitKeyTakesKey(m: Machine, x: Reg, pad: Input.Keypad, rnd: Byte)
    requires Valid(m) && At(m, 0xF00A + x * 0x100) && 0 <= pad.keys < 16
    ensures Tick(m, pad, rnd).Ok? && Tick(m, pad, rnd).m.pc == m.pc + 2 && Tick(m, pad, rnd).m.v[0] == pad.keys
  {
    DispatchesWaitKey(x);
    TickWaitsKey(m, 0xF00A + x * 0x100, pad, rnd);
    assert Advance(m).pc == m.pc + 2;
  }

  /** Every word 3XNN is a skip-if-equal against NN. */
  lemma DispatchesSkipIfEqual(x: Reg, nn: Byte)
    ensures Dispatch(0x3000 + x * 0x100 + nn) == SkipIfEqual
    ensures Opcodes.FieldNN(0x3000 + x * 0x100 + nn) == nn
  {
    Nibbles(0x3, x, nn / 0x10, nn % 0x10);
  }

  /** A tick at a 3XNN word compares V0 with NN on the advanced machine. */
  lemma TickSkipsIfEqual(m: Machine, op: Word, pad: Input.Keypad, rnd: Byte)
    requires Valid(m) && At(m, op) && Dispatch(op) == SkipIfEqual
    ensures Tick(m, pad, rnd) == Ok(Opcodes.Op3XNN(Advance(m), 0, Opcodes.FieldNN(op)))
  {
    TickExecutes(m, op, pad, rnd);
  }

  /** A taken 3XNN skips the following instruction: PC moves on by four. */
  lemma SkipJumpsOverOneInstruction(m: Machine, x: Reg, nn: Byte, pad: Input.Keypad, rnd: Byte)
    requires Valid(m) && m.pc + 5 < Memory.Size && At(m, 0x3000 + x * 0x100 + nn)
    requires m.v[0] == nn
    ensures Tick(m, pad, rnd).Ok? && Tick(m, pad, rnd).m.pc == m.pc + 4
  {
    DispatchesSkipIfEqual(x, nn);
    TickSkipsIfEqual(m, 0x3000 + x * 0x100 + nn, pad, rnd);
  }

  /** The handlers that skip the next instruction when their condition holds. */
  predicate IsSkip(h: Handler)
  {
    h in {SkipIfEqual, SkipIfNotEqual, SkipIfRegsEqual, SkipIfRegsDiffer, SkipIfKey, SkipIfNoKey}
  }

  /** The documented condition of each skip, with VX = `vx`, VY = `vy` and the keypad `pad`. */
  predicate SkipTaken(h: Handler, vx: Byte, vy: Byte, nn: Byte, pad: Input.Keypad)
    requires IsSkip(h)
  {
    match h
    case SkipIfEqual => vx == nn
    case SkipIfNotEqual => vx != nn
    case SkipIfRegsEqual => vx == vy
    case SkipIfRegsDiffer => vx != vy
    case SkipIfKey => Input.IsPressed(pad, vx)
    case SkipIfNoKey => !Input.IsPressed(pad, vx)
  }

  /**
   * A tick at any skip word changes only PC and the timers; PC moves on by
   * four when the condition holds, with V0 read for both VX and VY, and by
   * two otherwise.
   */
  lemma TickSkips(m: Machine, op: Word, pad: Input.Keypad, rnd: Byte)
    requires Valid(m) && At(m, op) && IsSkip(Dispatch(op))
    ensures Tick(m, pad, rnd).Ok?
    ensures Tick(m, pad, rnd).m == Advance(m).(pc := Tick(m, pad, rnd).m.pc)
    ensures Tick(m, pad, rnd).m.pc ==
      if SkipTaken(Dispatch(op), m.v[0], m.v[0], Opcodes.FieldNN(op), pad) then m.pc + 4 else m.pc + 2
  {
    TickExecutes(m, op, pad, rnd);
  }

  /** As written, every 5XYN skips: X and Y both read as 0, so V0 is compared with itself. */
  lemma RegsEqualAlwaysSkips(m: Machine, op: Word, pad: Input.Keypad, rnd: Byte)
    requires Valid(m) && At(m, op) && Dispatch(op) == SkipIfRegsEqual
    ensures Tick(m, pad, rnd).Ok? && Tick(m, pad, rnd).m.pc == m.pc + 4
  {
    TickSkips(m, op, pad, rnd);
  }

  /** As written, no 9XYN skips, for the same reason. */
  lemma RegsDifferNeverSkips(m: Machine, op: Word, pad: Input.Keypad, rnd: Byte)
    requires Valid(m) && At(m, op) && Dispatch(op) == SkipIfRegsDiffer
    ensures Tick(m, pad, rnd).Ok? && Tick(m, pad, rnd).m.pc == m.pc + 2
  {
    TickSkips(m, op, pad, rnd);
  }

  /**
   * A tick at a DXYN word draws NN rows (the whole low byte) at (V0, V0) on
   * the advanced machine.
   */
  lemma TickDraws(m: Machine, op: Word, pad: Input.Keypad, rnd: Byte)
    requires Valid(m) && At(m, op) && Dispatch(op) == Draw
    ensures Tick(m, pad, rnd) == Opcodes.OpDXYN(Advance(m), 0, 0, Opcodes.FieldNN(op))
  {
    TickExecutes(m, op, pad, rnd);
  }

  /** D012 draws eighteen rows, not two: the row count is the low byte 0x12. */
  lemma DrawsEighteenRows(m: Machine, pad: Input.Keypad, rnd: Byte)
    requires Valid(m) && At(m, 0xD012)
    ensures Tick(m, pad, rnd) == Opcodes.OpDXYN(Advance(m), 0, 0, 18)
  {
    assert Dispatch(0xD012) == Draw && Opcodes.FieldNN(0xD012) == 18;
    TickDraws(m, 0xD012, pad, rnd);
  }

  /** Every word 6XNN loads NN. */
  lemma DispatchesSetImmediate(x: Reg, nn: Byte)
    ensures Dispatch(0x6000 + x * 0x100 + nn) == SetImmediate
    ensures Opcodes.FieldNN(0x6000 + x * 0x100 + nn) == nn
  {
    Nibbles(0x6, x, nn / 0x10, nn % 0x10);
  }

  /** A tick at a 6XNN word loads NN into V0 on the advanced machine. */
  lemma TickSetsImmediate(m: Machine, op: Word, pad: Input.Keypad, rnd: Byte)
    requires Valid(m) && At(m, op) && Dispatch(op) == SetImmediate
    ensures Tick(m, pad, rnd) == Ok(Opcodes.Op6XNN(Advance(m), 0, Opcodes.FieldNN(op)))
  {
    TickExecutes(m, op, pad, rnd);
  }

  /** 6XNN loads NN into V0 whatever X says, and leaves V1..VF alone. */
  lemma LoadTargetsV0(m: Machine, x: Reg, nn: Byte, pad: Input.Keypad, rnd: Byte)
    requires Valid(m) && At(m, 0x6000 + x * 0x100 + nn)
    ensures Tick(m, pad, rnd) == Ok(Advance(m).(v := m.v[0 := nn]))
  {
    DispatchesSetImmediate(x, nn);
    TickSetsImmediate(m, 0x6000 + x * 0x100 + nn, pad, rnd);
    LoadsV0(Advance(m), nn);
    assert Advance(m).v == m.v;
  }

  /** 6XNN with X read as 0 sets V0 and nothing else. */
  lemma LoadsV0(m: Machine, nn: Byte)
    requires Valid(m)
    ensures Opcodes.Op6XNN(m, 0, nn) == m.(v := m.v[0 := nn])
  {
  }

  /**
   * 8XY4 adds V0 to itself whatever X and Y say: V0 doubles modulo 256 and
   * VF is cleared, since the carry test never succeeds.
   */
  lemma AddDoublesV0(m: Machine, x: Reg, y: Reg, pad: Input.Keypad, rnd: Byte)
    requires Valid(m) && At(m, 0x8004 + x * 0x100 + y * 0x10)
    ensures var r := Tick(m, pad, rnd);
      && r.Ok? && r.m.(v := m.v) == Advance(m)
      && r.m.v[0] == (2 * (m.v[0] as int)) % 0x100 && r.m.v[VF] == 0
      && forall k :: 0 < k < VF ==> r.m.v[k] == m.v[k]
  {
    var op := 0x8004 + x * 0x100 + y * 0x10;
    DispatchesAddRegs(x, y);
    TickAddsRegs(m, op, pad, rnd);
    DoublesV0(Advance(m));
  }

  /** A tick at an 8XY4 word is the addition of V0 to itself on the advanced machine. */
  lemma TickAddsRegs(m: Machine, op: Word, pad: Input.Keypad, rnd: Byte)
    requires Valid(m) && At(m, op) && Dispatch(op) == AddRegs
    ensures Tick(m, pad, rnd) == Ok(Opcodes.Op8XY4(Advance(m), 0, 0))
  {
    TickExecutes(m, op, pad, rnd);
  }

  /** Adding V0 to itself doubles it modulo 256, clears VF and leaves V1..VE alone. */
  lemma DoublesV0(m: Machine)
    requires Valid(m)
    ensures var r := Opcodes.Op8XY4(m, 0, 0);
      && r.(v := m.v) == m
      && r.v[0] == (2 * (m.v[0] as int)) % 0x100 && r.v[VF] == 0
      && forall k :: 0 < k < VF ==> r.v[k] == m.v[k]
  {
  }

  /** Every word 8XY4 is an addition of registers. */
  lemma DispatchesAddRegs(x: Reg, y: Reg)
    ensures Dispatch(0x8004 + x * 0x100 + y * 0x10) == AddRegs
  {
    Nibbles(0x8, x, y, 0x4);
  }

  /**
   * The program 6005 610A 8014 from boot: both loads land in V0, so the
   * second overwrites the first, and 8014 doubles V0 to 20 with no carry flag.
   */
  lemma LoadsAndAddFromBoot(pad: Input.Keypad, rnd: Byte)
    ensures var m0 := Boot([0x60, 0x05, 0x61, 0x0A, 0x80, 0x14]);
      var r1 := Tick(m0, pad, rnd);
      r1.Ok? && r1.m.v[0] == 0x05 &&
      var r2 := Tick(r1.m, pad, rnd);
      r2.Ok? && r2.m.v[0] == 0x0A && r2.m.v[1] == 0 &&
      var r3 := Tick(r2.m, pad, rnd);
      r3.Ok? && r3.m.v[0] == 20 && r3.m.v[1] == 0 && r3.m.v[VF] == 0 && r3.m.pc == 0x206
  {
    var rom: seq<Byte> := [0x60, 0x05, 0x61, 0x0A, 0x80, 0x14];
    var m0 := Boot(rom);
    assert Fetch(m0) == Some(0x6005);
    LoadTargetsV0(m0, 0x0, 0x05, pad, rnd);
    var m1 := Advance(m0).(v := m0.v[0 := 0x05]);
    assert Fetch(m1) == Some(0x610A);
    LoadTargetsV0(m1, 0x1, 0x0A, pad, rnd);
    var m2 := Advance(m1).(v := m1.v[0 := 0x0A]);
    assert Fetch(m2) == Some(0x8014);
    AddDoublesV0(m2, 0x0, 0x1, pad, rnd);
  }
}
