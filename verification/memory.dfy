/**
 * The flat 4 KiB memory of the machine (memory.go): byte accessors, the
 * big-endian word fetch, initialisation with the built-in hexadecimal font,
 * and the copy of a program image to 0x200.
 */
module Memory {
  import opened Base

  const Size: nat := 0x1000
  const ProgramStart: nat := 0x200
  /** First address after the font. */
  const FontEnd: nat := 0x50
  const GlyphBytes: nat := 5

  /**
   * The sixteen 4x5 glyphs of the hexadecimal digits 0..F, five rows each,
   * most significant bit leftmost. `init` writes them one after the other
   * from address 0x00.
   */
  const Glyphs: seq<seq<Byte>> := [
    [0xF0, 0x90, 0x90, 0x90, 0xF0],  // 0
    [0x20, 0x60, 0x20, 0x20, 0x70],  // 1
    [0xF0, 0x10, 0xF0, 0x80, 0xF0],  // 2
    [0xF0, 0x10, 0xF0, 0x10, 0xF0],  // 3
    [0x90, 0x90, 0xF0, 0x10, 0x10],  // 4
    [0xF0, 0x80, 0xF0, 0x10, 0xF0],  // 5
    [0xF0, 0x80, 0xF0, 0x90, 0xF0],  // 6
    [0xF0, 0x10, 0x20, 0x40, 0x40],  // 7
    [0xF0, 0x90, 0xF0, 0x90, 0xF0],  // 8
    [0xF0, 0x90, 0xF0, 0x10, 0xF0],  // 9
    [0xF0, 0x90, 0xF0, 0x90, 0x90],  // A
    [0xE0, 0x90, 0xE0, 0x90, 0xE0],  // B
    [0xF0, 0x80, 0x80, 0x80, 0xF0],  // C
    [0xE0, 0x90, 0x90, 0x90, 0xE0],  // D
    [0xF0, 0x80, 0xF0, 0x80, 0xF0],  // E
    [0xF0, 0x80, 0xF0, 0x80, 0x80]   // F
  ]

  /** The font byte `init` stores at address `a` (0x00..0x4F). */
  function FontByte(a: nat): Byte
    requires a < FontEnd
  {
    Glyphs[a / GlyphBytes][a % GlyphBytes]
  }

  /** `CHIP8Memory`: the byte slice `data`. */
  datatype Mem = Mem(data: seq<Byte>)

  /** The slice allocated by `init` has exactly 0x1000 bytes. */
  predicate Valid(m: Mem)
  {
    |m.data| == Size
  }

  /** `init`: the font at 0x00..0x4F and zero everywhere else. */
  function Init(): (m: Mem)
    ensures Valid(m)
    ensures forall k, row :: 0 <= k < 16 && 0 <= row < GlyphBytes ==> m.data[GlyphBytes * k + row] == Glyphs[k][row]
    ensures forall a :: FontEnd <= a < Size ==> m.data[a] == 0
  {
    Mem(seq(Size, a requires 0 <= a < Size => if a < FontEnd then FontByte(a) else 0))
  }

  /** `read`: indexing past the slice is a run-time panic, hence the precondition. */
  function Read(m: Mem, addr: nat): Byte
    requires addr < |m.data|
  {
    m.data[addr]
  }

  /**
   * `read2`: the opcode word at `addr`, high byte first. Both bytes must lie
   * inside the slice. The word splits back into exactly those two bytes.
   */
  function Read2(m: Mem, addr: nat): (w: Word)
    requires addr + 1 < |m.data|
    ensures w / 0x100 == m.data[addr] && w % 0x100 == m.data[addr + 1]
  {
    m.data[addr] as int * 0x100 + m.data[addr + 1]
  }

  /** `write`: after it, `addr` reads back `val` and every other address is unchanged. */
  function Write(m: Mem, addr: nat, val: Byte): (r: Mem)
    requires addr < |m.data|
    ensures |r.data| == |m.data|
    ensures Read(r, addr) == val
    ensures forall a :: 0 <= a < |m.data| && a != addr ==> Read(r, a) == Read(m, a)
  {
    Mem(m.data[addr := val])
  }

  /** What the copy loop of `read_rom` leaves behind: `rom` placed at 0x200, nothing else touched. */
  function Loaded(m: Mem, rom: seq<Byte>): Mem
    requires Valid(m) && |rom| <= Size - ProgramStart
  {
    Mem(m.data[..ProgramStart] + rom + m.data[ProgramStart + |rom|..])
  }

  /**
   * The copy loop of `read_rom` (the file read itself is left out): byte i of
   * the image goes to 0x200 + i. An image longer than 0xE00 bytes would index
   * past the slice.
   */
  method LoadRom(m: Mem, rom: seq<Byte>) returns (r: Mem)
    requires Valid(m) && |rom| <= Size - ProgramStart
    ensures Valid(r)
    ensures forall i :: 0 <= i < |rom| ==> r.data[ProgramStart + i] == rom[i]
    ensures forall a :: 0 <= a < ProgramStart ==> r.data[a] == m.data[a]
    ensures forall a :: ProgramStart + |rom| <= a < Size ==> r.data[a] == m.data[a]
    ensures r == Loaded(m, rom)
  {
    r := m;
    var i := 0;
    while i < |rom|
      invariant 0 <= i <= |rom|
      invariant Valid(r)
      invariant forall k :: 0 <= k < i ==> r.data[ProgramStart + k] == rom[k]
      invariant forall a :: 0 <= a < |r.data| && !(ProgramStart <= a < ProgramStart + i) ==> r.data[a] == m.data[a]
    {
      r := Write(r, ProgramStart + i, rom[i]);
      i := i + 1;
    }
    assert r.data == Loaded(m, rom).data;
  }

  /** The image lies at the program start; the bytes before and after it are those of `m`. */
  lemma LoadedContents(m: Mem, rom: seq<Byte>)
    requires Valid(m) && |rom| <= Size - ProgramStart
    ensures Valid(Loaded(m, rom))
    ensures forall i :: 0 <= i < |rom| ==> Loaded(m, rom).data[ProgramStart + i] == rom[i]
    ensures forall a :: 0 <= a < Size && !(ProgramStart <= a < ProgramStart + |rom|) ==>
      Loaded(m, rom).data[a] == m.data[a]
  {
  }

  /** After `init` and a load, the first opcode fetched is the first two image bytes. */
  lemma FirstOpcodeAfterLoad(rom: seq<Byte>)
    requires 2 <= |rom| <= Size - ProgramStart
    ensures Read2(Loaded(Init(), rom), ProgramStart) == rom[0] as int * 0x100 + rom[1]
  {
    var m := Loaded(Init(), rom);
    assert m.data[ProgramStart] == rom[0];
    assert m.data[ProgramStart + 1] == rom[1];
  }

  /**
   * Glyph k occupies the five bytes 5k..5k+4, all below 0x50, so the address
   * 5k names glyph k.
   */
  function GlyphAddress(k: nat): (a: nat)
    requires k < 16
    ensures a + GlyphBytes <= FontEnd
    ensures forall row :: 0 <= row < GlyphBytes ==> Read(Init(), a + row) == Glyphs[k][row]
  {
    GlyphBytes * k
  }

  /** Every font row uses only the four leftmost pixels: its low nibble is 0. */
  lemma FontLowNibbleZero()
    ensures forall a :: 0 <= a < FontEnd ==> Read(Init(), a) % 0x10 == 0
  {
    forall a | 0 <= a < FontEnd
      ensures Read(Init(), a) % 0x10 == 0
    {
      var k, row := a / GlyphBytes, a % GlyphBytes;
      assert Glyphs[k][row] % 0x10 == 0;
    }
  }
}
