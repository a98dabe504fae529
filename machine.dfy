/** The CHIP-8 machine of the interpreter as a value: its state, what one
    instruction does to it, the fetch, one cycle of the clock, loading a
    program and the state after a reset.  The class `Chip8` of the module
    `Interpreter` is proved to follow these functions, and the module
    `Properties` proves what they promise. */
module Machine {
  import JsBits
  import opened Opcodes
  import opened Wrappers

  const MemorySize: int := 0x1000
  const RegisterCount: int := 16
  const StackDepth: int := 16
  const Width: int := 64
  const Height: int := 32
  const ProgramStart: int := 0x200
  /** VF, the register the carry, borrow and shift flags go to. */
  const Flag: Reg := 0xF
  /** Each hexadecimal digit glyph is five rows of four pixels. */
  const GlyphRows: int := 5

  /** The hexadecimal digit glyphs 0 to F that a reset writes at address 0. */
  const Font: seq<int> := [
    0xF0, 0x90, 0x90, 0x90, 0xF0,
    0x20, 0x60, 0x20, 0x20, 0x70,
    0xF0, 0x10, 0xF0, 0x80, 0xF0,
    0xF0, 0x10, 0xF0, 0x10, 0xF0,
    0x90, 0x90, 0xF0, 0x10, 0x10,
    0xF0, 0x80, 0xF0, 0x10, 0xF0,
    0xF0, 0x80, 0xF0, 0x90, 0xF0,
    0xF0, 0x10, 0x20, 0x40, 0x40,
    0xF0, 0x90, 0xF0, 0x90, 0xF0,
    0xF0, 0x90, 0xF0, 0x10, 0xF0,
    0xF0, 0x90, 0xF0, 0x90, 0x90,
    0xE0, 0x90, 0xE0, 0x90, 0xE0,
    0xF0, 0x80, 0x80, 0x80, 0xF0,
    0xE0, 0x90, 0x90, 0x90, 0xE0,
    0xF0, 0x80, 0xF0, 0x80, 0xF0,
    0xF0, 0x80, 0xF0, 0x80, 0x80
  ]

  /** Everything the interpreter holds.  The display is the 64 x 32 bitmap laid
      out column by column: pixel (column c, row r) is `screen[Pixel(c, r)]`.
      Registers, memory cells and timers are unbounded integers, as the
      interpreter stores JavaScript numbers in them. */
  datatype State = State(
    memory: seq<int>,
    v: seq<int>,
    stack: seq<int>,
    sp: int,
    pc: int,
    i: int,
    delay: int,
    sound: int,
    awaiting: bool,
    key: Option<int>,
    screen: seq<int>)

  /** The shape every reachable state has. */
  predicate WellFormed(s: State)
  {
    |s.memory| == MemorySize && |s.v| == RegisterCount && |s.stack| == StackDepth
    && |s.screen| == Width * Height && 0 <= s.sp <= StackDepth
  }

  /** Every pixel is 0 or 1. */
  predicate Bitmap(screen: seq<int>)
  {
    forall p :: 0 <= p < |screen| ==> screen[p] == 0 || screen[p] == 1
  }

  function Pixel(col: int, row: int): int
  {
    col * Height + row
  }

  /** The display is stored column by column: a pixel's column and row are
      its index divided by the height, and the remainder. */
  lemma PixelCoordinates(col: int, row: int)
    requires 0 <= row < Height
    ensures Pixel(col, row) / Height == col && Pixel(col, row) % Height == row
  {
    JsBits.DivModUnique(Pixel(col, row), Height, col, row);
  }

  function Zeros(n: nat): (r: seq<int>)
    ensures |r| == n && forall k :: 0 <= k < n ==> r[k] == 0
  {
    seq(n, _ => 0)
  }

  function Blank(): seq<int>
  {
    Zeros(Width * Height)
  }

  // ---------------------------------------------------------------------
  // Memory access

  /** A memory cell; an address outside memory reads as 0, the value that a
      JavaScript bitwise operator makes of the `undefined` read there. */
  function Cell(m: seq<int>, a: int): int
  {
    if 0 <= a < |m| then m[a] else 0
  }

  /** The `count` cells from address `at` on. */
  function Cells(m: seq<int>, at: int, count: nat): (r: seq<int>)
    ensures |r| == count
    ensures forall k :: 0 <= k < count ==> r[k] == Cell(m, at + k)
  {
    seq(count, k => Cell(m, at + k))
  }

  /** `m` with `cells` written from address `at` on. */
  function Splice(m: seq<int>, at: int, cells: seq<int>): (r: seq<int>)
    requires 0 <= at && at + |cells| <= |m|
    ensures |r| == |m|
    ensures forall k :: 0 <= k < |m| ==> r[k] == if at <= k < at + |cells| then cells[k - at] else m[k]
  {
    m[..at] + cells + m[at + |cells|..]
  }

  // ---------------------------------------------------------------------
  // Drawing

  /** `(row & 2^(7-bit)) >> (7-bit)`: bit `bit` of a sprite row, counted from the left. */
  function SpriteBit(row: int, bit: int): int
    requires 0 <= bit < 8
  {
    JsBits.ShiftRight(JsBits.And(row, JsBits.Pow2(7 - bit)), 7 - bit)
  }

  /** The sprite rectangle lies on the display: the interpreter indexes a
      column array that does not exist otherwise.  A sprite of no rows touches
      nothing. */
  predicate SpriteFits(x: int, y: int, n: int)
  {
    n == 0 || (0 <= x && x + 8 <= Width && 0 <= y && y + n <= Height)
  }

  /** The display after the draw loops have done the first `rows` sprite rows and
      the first `bits` pixels of the next one: each pixel done is XOR-ed with its
      sprite bit, every other pixel is as it was. */
  function DrawPartial(screen: seq<int>, memory: seq<int>, i: int, x: int, y: int, rows: int, bits: int): (r: seq<int>)
    ensures |r| == |screen|
  {
    seq(|screen|, p requires 0 <= p < |screen| =>
      var col, row := p / Height, p % Height;
      if x <= col < x + 8 && y <= row
         && (row < y + rows || (row == y + rows && col < x + bits))
      then JsBits.Xor(screen[p], SpriteBit(Cell(memory, i + (row - y)), col - x))
      else screen[p])
  }

  /** DXYN: the display with the `n`-row sprite at address `i` drawn at (x, y). */
  function DrawSprite(screen: seq<int>, memory: seq<int>, i: int, x: int, y: int, n: int): (r: seq<int>)
    ensures |r| == |screen|
  {
    DrawPartial(screen, memory, i, x, y, n, 0)
  }

  // ---------------------------------------------------------------------
  // Binary-coded decimal

  /** The cells FX33 writes for `value`, computed as the interpreter does:
      one cell below 10, two below 100, three otherwise. */
  function BcdDigits(value: int): (r: seq<int>)
    ensures 1 <= |r| <= 3
  {
    if value < 10 then [value]
    else if value < 100 then
      var tens := value / 10;
      [tens, value - tens * 10]
    else
      var hundreds := value / 100;
      var tens := (value - hundreds * 100) / 10;
      [hundreds, tens, value - hundreds * 100 - tens * 10]
  }

  // ---------------------------------------------------------------------
  // Instructions

  /** What the interpreter needs of the state to carry out `ins` without
      indexing past an array: a return needs a saved address, a call a free
      stack slot, a draw a sprite on the display, and FX33 and FX55 the cells
      they write inside memory. */
  predicate CanExecute(s: State, ins: Instr)
    requires WellFormed(s)
  {
    match ins
    case Return => s.sp > 0
    case Call(_) => s.sp < StackDepth
    case Draw(x, y, n) => SpriteFits(s.v[x], s.v[y], n)
    case StoreBcd(x) => 0 <= s.i && s.i + |BcdDigits(s.v[x])| <= MemorySize
    case StoreRegisters(x) => 0 <= s.i && s.i + x + 1 <= MemorySize
    case _ => true
  }

  function SkipIf(s: State, condition: bool, distance: int): State
  {
    if condition then s.(pc := s.pc + distance) else s
  }

  /** 8XY5 and 8XY7: a negative difference is brought back by adding 0xFF, and
      VF is 0 exactly then. */
  function Borrowing(v: seq<int>, x: Reg, difference: int): (r: seq<int>)
    requires |v| == RegisterCount
    ensures |r| == RegisterCount
  {
    if difference < 0 then v[x := difference + 0xFF][Flag := 0]
    else v[x := difference][Flag := 1]
  }

  /** The groups of instructions the interpreter's handlers fall into. */
  predicate IsFlow(ins: Instr)
  {
    ins.ClearScreen? || ins.Return? || ins.MachineCall? || ins.Jump? || ins.Call?
    || ins.SetIndex? || ins.JumpOffset? || ins.Ignored?
  }

  predicate IsSkip(ins: Instr)
  {
    ins.SkipIfEqual? || ins.SkipIfNotEqual? || ins.SkipIfRegistersEqual?
    || ins.SkipIfRegistersDiffer? || ins.SkipIfKey? || ins.SkipIfNotKey?
  }

  predicate IsRegisterLoad(ins: Instr)
  {
    ins.SetRegister? || ins.AddToRegister? || ins.Random? || ins.Copy?
    || ins.BitOr? || ins.BitAnd? || ins.BitXor?
  }

  predicate IsArithmetic(ins: Instr)
  {
    ins.Add? || ins.Subtract? || ins.ShiftRight? || ins.SubtractReversed? || ins.ShiftLeft?
  }

  predicate IsTimerOrIndex(ins: Instr)
  {
    ins.LoadDelay? || ins.AwaitKey? || ins.SetDelay? || ins.SetSound?
    || ins.AddToIndex? || ins.FontCharacter?
  }

  /** The effect of `ins` on a state whose program counter has already moved
      past it.  `random` is the value CXNN draws. */
  function Execute(s: State, ins: Instr, random: int): (r: State)
    requires WellFormed(s) && CanExecute(s, ins)
    ensures WellFormed(r)
  {
    if IsFlow(ins) then ExecuteFlow(s, ins)
    else if IsSkip(ins) then ExecuteSkip(s, ins)
    else if IsRegisterLoad(ins) then ExecuteRegisterLoad(s, ins, random)
    else if IsArithmetic(ins) then ExecuteArithmetic(s, ins)
    else if IsTimerOrIndex(ins) then ExecuteTimerOrIndex(s, ins)
    else ExecuteMemory(s, ins)
  }

  /** 00E0, 00EE, 0NNN, 1NNN, 2NNN, ANNN, BNNN and the words no handler takes. */
  function ExecuteFlow(s: State, ins: Instr): (r: State)
    requires WellFormed(s) && CanExecute(s, ins) && IsFlow(ins)
    ensures WellFormed(r)
  {
    match ins
    case ClearScreen => s.(screen := Blank())
    case Return => s.(sp := s.sp - 1, pc := s.stack[s.sp - 1])
    case MachineCall(_) => s
    case Jump(nnn) => s.(pc := nnn)
    case Call(nnn) => s.(stack := s.stack[s.sp := s.pc], sp := s.sp + 1, pc := nnn)
    case SetIndex(nnn) => s.(i := nnn)
    case JumpOffset(nnn) => s.(pc := (s.v[0] + nnn) % 0x1000)
    case Ignored => s
  }

  /** 3XNN, 4XNN, 5XY0, 9XY0, EX9E and EXA1. */
  function ExecuteSkip(s: State, ins: Instr): (r: State)
    requires WellFormed(s) && IsSkip(ins)
    ensures WellFormed(r)
  {
    match ins
    case SkipIfEqual(x, nn) => SkipIf(s, s.v[x] == nn, 2)
    case SkipIfNotEqual(x, nn) => SkipIf(s, s.v[x] != nn, 2)
    case SkipIfRegistersEqual(x, y) => SkipIf(s, s.v[x] == s.v[y], 2)
    case SkipIfRegistersDiffer(x, y) => SkipIf(s, s.v[x] != s.v[y], 2)
    case SkipIfKey(x) => SkipIf(s, s.key == Some(s.v[x]), 1)
    case SkipIfNotKey(x) => SkipIf(s, s.key != Some(s.v[x]), 1)
  }

  /** 6XNN, 7XNN, CXNN and 8XY0 to 8XY3. */
  function ExecuteRegisterLoad(s: State, ins: Instr, random: int): (r: State)
    requires WellFormed(s) && IsRegisterLoad(ins)
    ensures WellFormed(r)
  {
    match ins
    case SetRegister(x, nn) => s.(v := s.v[x := nn])
    case AddToRegister(x, nn) => s.(v := s.v[x := s.v[x] + nn])
    case Random(x, _) => s.(v := s.v[x := random])
    case Copy(x, y) => s.(v := s.v[x := s.v[y]])
    case BitOr(x, y) => s.(v := s.v[x := JsBits.Or(s.v[x], s.v[y])])
    case BitAnd(x, y) => s.(v := s.v[x := JsBits.And(s.v[x], s.v[y])])
    case BitXor(x, y) => s.(v := s.v[x := JsBits.Xor(s.v[x], s.v[y])])
  }

  /** 8XY4 to 8XY7 and 8XYE: the result in VX, then the flag in VF. */
  function ExecuteArithmetic(s: State, ins: Instr): (r: State)
    requires WellFormed(s) && IsArithmetic(ins)
    ensures WellFormed(r)
  {
    match ins
    case Add(x, y) =>
      var sum := s.v[x] + s.v[y];
      if sum >= 0x100 then s.(v := s.v[x := sum - 0x100][Flag := 1])
      else s.(v := s.v[x := sum][Flag := 0])
    case Subtract(x, y) => s.(v := Borrowing(s.v, x, s.v[x] - s.v[y]))
    case ShiftRight(x, _) =>
      var v1 := s.v[Flag := JsBits.And(s.v[x], 0x01)];
      s.(v := v1[x := JsBits.ShiftRight(v1[x], 1)])
    case SubtractReversed(x, y) => s.(v := Borrowing(s.v, x, s.v[y] - s.v[x]))
    case ShiftLeft(x, _) =>
      var v1 := s.v[Flag := JsBits.ShiftRight(JsBits.And(s.v[x], 0x80), 7)];
      s.(v := v1[x := JsBits.And(JsBits.ShiftLeft(v1[x], 1), 0xFF)])
  }

  /** FX07, FX0A, FX15, FX18, FX1E and FX29. */
  function ExecuteTimerOrIndex(s: State, ins: Instr): (r: State)
    requires WellFormed(s) && IsTimerOrIndex(ins)
    ensures WellFormed(r)
  {
    match ins
    case LoadDelay(x) => s.(v := s.v[x := s.delay])
    case AwaitKey(_) => s.(awaiting := true)
    case SetDelay(x) => s.(delay := s.v[x])
    case SetSound(x) => s.(sound := s.v[x])
    case AddToIndex(x) =>
      var sum := s.i + s.v[x];
      if sum > 0xFFF then s.(i := JsBits.And(sum, 0xFFF), v := s.v[Flag := 1])
      else s.(i := sum, v := s.v[Flag := 0])
    case FontCharacter(x) =>
      if 0 <= s.v[x] <= 0xF then s.(i := s.v[x] * GlyphRows) else s
  }

  /** DXYN, FX33, FX55 and FX65: the instructions that walk memory or the display. */
  function ExecuteMemory(s: State, ins: Instr): (r: State)
    requires WellFormed(s) && CanExecute(s, ins)
    requires !IsFlow(ins) && !IsSkip(ins) && !IsRegisterLoad(ins) && !IsArithmetic(ins) && !IsTimerOrIndex(ins)
    ensures WellFormed(r)
  {
    match ins
    case Draw(x, y, n) => s.(screen := DrawSprite(s.screen, s.memory, s.i, s.v[x], s.v[y], n))
    case StoreBcd(x) => s.(memory := Splice(s.memory, s.i, BcdDigits(s.v[x])))
    case StoreRegisters(x) => s.(memory := Splice(s.memory, s.i, s.v[..x + 1]))
    case LoadRegisters(x) => s.(v := Cells(s.memory, s.i, x + 1) + s.v[x + 1..])
  }

  // ---------------------------------------------------------------------
  // Fetch and cycle

  /** `memory[pc] << 8 | memory[pc + 1]`. */
  function Fetch(s: State): int
  {
    JsBits.Or(JsBits.ShiftLeft(Cell(s.memory, s.pc), 8), Cell(s.memory, s.pc + 1))
  }

  function Advance(s: State): State
  {
    s.(pc := s.pc + 2)
  }

  /** Both timers lose one, with no floor. */
  function CountDown(s: State): State
  {
    s.(delay := s.delay - 1, sound := s.sound - 1)
  }

  /** What `processNextOpcode` needs: the instruction it fetches can be carried out. */
  predicate RunNextPre(s: State)
    requires WellFormed(s)
  {
    CanExecute(Advance(CountDown(s)), Decode(Fetch(s)))
  }

  /** `processNextOpcode`: count the timers down, fetch, move past the word, execute it. */
  function RunNext(s: State, random: int): (r: State)
    requires WellFormed(s) && RunNextPre(s)
    ensures WellFormed(r)
  {
    Execute(Advance(CountDown(s)), Decode(Fetch(s)), random)
  }

  /** The first step of `tick`: a pressed key ends the wait for one. */
  function Latch(s: State): State
  {
    if s.awaiting && s.key.Some? then s.(awaiting := false) else s
  }

  predicate CyclePre(s: State)
    requires WellFormed(s)
  {
    !Latch(s).awaiting ==> RunNextPre(Latch(s))
  }

  /** `tick`: end the wait if a key is down, then run one instruction unless still waiting. */
  function Cycle(s: State, random: int): (r: State)
    requires WellFormed(s) && CyclePre(s)
    ensures WellFormed(r)
  {
    var l := Latch(s);
    if l.awaiting then l else RunNext(l, random)
  }

  // ---------------------------------------------------------------------
  // Loading and reset

  /** The bytes `loadProgram` stores: each word's high byte, then its low byte. */
  function ProgramBytes(program: seq<int>): (r: seq<int>)
    ensures |r| == 2 * |program|
    ensures forall k :: 0 <= k < |program| ==> r[2 * k] == HighByte(program[k]) && r[2 * k + 1] == NN(program[k])
  {
    if program == [] then []
    else
      var last := program[|program| - 1];
      ProgramBytes(program[..|program| - 1]) + [HighByte(last), NN(last)]
  }

  function Loaded(s: State, program: seq<int>): State
    requires WellFormed(s) && ProgramStart + 2 * |program| <= MemorySize
  {
    s.(memory := Splice(s.memory, ProgramStart, ProgramBytes(program)), pc := ProgramStart)
  }

  /** A state with the font at address 0 and every other field zero, empty
      or off is the state after `reset`. */
  lemma InitialFields(s: State)
    requires s.memory == Font + Zeros(MemorySize - |Font|) && s.screen == Blank()
    requires s.v == Zeros(RegisterCount) && s.stack == Zeros(StackDepth)
    requires s.sp == 0 && s.pc == 0 && s.i == 0 && s.delay == 0 && s.sound == 0
    requires !s.awaiting && s.key == None
    ensures s == Initial()
  {
  }

  /** The state after `reset`: the font at address 0 and everything else zero. */
  function Initial(): (r: State)
    ensures WellFormed(r)
  {
    State(Font + Zeros(MemorySize - |Font|), Zeros(RegisterCount), Zeros(StackDepth), 0, 0, 0, 0, 0,
          false, None, Blank())
  }
}
