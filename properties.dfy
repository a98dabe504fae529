/** What the interpreter's behaviour amounts to, proved about the functions of
    `Machine` that the methods of `Interpreter.Chip8` are proved to follow. */
module Properties {
  import JsBits
  import opened Opcodes
  import opened Wrappers
  import opened Machine

  predicate IsByte(b: int) { 0 <= b < 0x100 }

  // ---------------------------------------------------------------------
  // Fetching and loading

  /** `readNextOpcode` reads the two cells at the program counter as one
      big-endian 16-bit word. */
  lemma FetchIsBigEndian(s: State)
    requires 0 <= s.pc && s.pc + 1 < |s.memory|
    requires IsByte(s.memory[s.pc]) && IsByte(s.memory[s.pc + 1])
    ensures Fetch(s) == s.memory[s.pc] * 0x100 + s.memory[s.pc + 1]
    ensures 0 <= Fetch(s) < 0x10000
  {
    JsBits.ByteOperators(s.memory[s.pc], s.memory[s.pc + 1]);
  }

  /** `loadProgram` puts word k's high byte at 0x200 + 2k and its low byte
      right after, leaves every other cell alone, and sets only the program
      counter besides. */
  lemma LoadPlacesWords(s: State, program: seq<int>)
    requires WellFormed(s) && ProgramStart + 2 * |program| <= MemorySize
    ensures var r := Loaded(s, program);
      r == s.(memory := r.memory, pc := ProgramStart)
      && |r.memory| == MemorySize
      && (forall k :: 0 <= k < |program| ==>
            r.memory[ProgramStart + 2 * k] == HighByte(program[k])
            && r.memory[ProgramStart + 2 * k + 1] == NN(program[k]))
      && (forall a :: 0 <= a < MemorySize && !(ProgramStart <= a < ProgramStart + 2 * |program|) ==>
            r.memory[a] == s.memory[a])
  {
    var bytes := ProgramBytes(program);
    var r := Loaded(s, program);
    forall k | 0 <= k < |program|
      ensures r.memory[ProgramStart + 2 * k] == HighByte(program[k])
      ensures r.memory[ProgramStart + 2 * k + 1] == NN(program[k])
    {
      assert bytes[2 * k] == HighByte(program[k]) && bytes[2 * k + 1] == NN(program[k]);
    }
  }

  /** A 16-bit word is its high byte times 256 plus its low byte. */
  lemma WordBytes(w: int)
    requires 0 <= w < 0x10000
    ensures HighByte(w) * 0x100 + NN(w) == w
  {
    assert w / 0x100 < 0x100;
  }

  /** Loading and then reading at word k gives word k back, for 16-bit words. */
  lemma LoadThenFetch(s: State, program: seq<int>, k: int)
    requires WellFormed(s) && ProgramStart + 2 * |program| <= MemorySize
    requires forall j :: 0 <= j < |program| ==> 0 <= program[j] < 0x10000
    requires 0 <= k < |program|
    ensures Fetch(Loaded(s, program).(pc := ProgramStart + 2 * k)) == program[k]
  {
    LoadPlacesWords(s, program);
    FetchIsBigEndian(Loaded(s, program).(pc := ProgramStart + 2 * k));
    WordBytes(program[k]);
  }

  // ---------------------------------------------------------------------
  // tick, the timers and waiting for a key

  /** The three cases of `tick`: waiting with no key down does nothing at all;
      waiting with a key down ends the wait and runs an instruction; otherwise
      an instruction runs. */
  lemma TickCases(s: State, random: int)
    requires WellFormed(s) && CyclePre(s)
    ensures s.awaiting && s.key.None? ==> Cycle(s, random) == s
    ensures s.awaiting && s.key.Some? ==> Cycle(s, random) == RunNext(s.(awaiting := false), random)
    ensures !s.awaiting ==> Cycle(s, random) == RunNext(s, random)
  {
  }

  /** Whatever it executes, an instruction leaves the timers alone unless it is
      FX15 or FX18. */
  lemma ExecuteTimers(s: State, ins: Instr, random: int)
    requires WellFormed(s) && CanExecute(s, ins)
    ensures Execute(s, ins, random).delay == if ins.SetDelay? then s.v[ins.x] else s.delay
    ensures Execute(s, ins, random).sound == if ins.SetSound? then s.v[ins.x] else s.sound
  {
    if IsFlow(ins) {
      assert Execute(s, ins, random) == ExecuteFlow(s, ins);
    } else if IsSkip(ins) {
      assert Execute(s, ins, random) == ExecuteSkip(s, ins);
    } else if IsRegisterLoad(ins) {
      assert Execute(s, ins, random) == ExecuteRegisterLoad(s, ins, random);
    } else if IsArithmetic(ins) {
      assert Execute(s, ins, random) == ExecuteArithmetic(s, ins);
    } else if IsTimerOrIndex(ins) {
      assert Execute(s, ins, random) == ExecuteTimerOrIndex(s, ins);
    } else {
      assert Execute(s, ins, random) == ExecuteMemory(s, ins);
    }
  }

  /** `processNextOpcode` counts both timers down by one, with no floor, before
      it executes; only FX15 and FX18 then set them, and FX07 reads the delay
      timer after the count-down. */
  lemma TimersCountDown(s: State, random: int)
    requires WellFormed(s) && RunNextPre(s)
    ensures var ins, r := Decode(Fetch(s)), RunNext(s, random);
      r.delay == (if ins.SetDelay? then s.v[ins.x] else s.delay - 1)
      && r.sound == (if ins.SetSound? then s.v[ins.x] else s.sound - 1)
      && (ins.LoadDelay? ==> r.v[ins.x] == s.delay - 1)
  {
    ExecuteTimers(Advance(CountDown(s)), Decode(Fetch(s)), random);
  }

  /** FX0A only raises the waiting flag: while no key is down, `tick` changes
      nothing, timers included; a key press ends the wait without storing the
      key in VX. */
  lemma AwaitKeyStalls(s: State, x: Reg, key: int, random: int)
    requires WellFormed(s) && !s.awaiting && Decode(Fetch(s)) == AwaitKey(x)
    ensures CyclePre(s)
    ensures var t := Cycle(s, random);
      t == CountDown(s).(pc := s.pc + 2, awaiting := true)
      && (t.key.None? ==> Cycle(t, random) == t)
      && Latch(t.(key := Some(key))) == CountDown(s).(pc := s.pc + 2, key := Some(key))
  {
    assert RunNextPre(s);
    assert RunNext(s, random) == ExecuteTimerOrIndex(Advance(CountDown(s)), AwaitKey(x));
  }

  // ---------------------------------------------------------------------
  // Subroutines

  /** 2NNN saves the address of the next instruction in the first free stack
      slot and jumps. */
  lemma CallStep(s: State, nnn: Address, random: int)
    requires WellFormed(s) && s.sp < StackDepth && Decode(Fetch(s)) == Call(nnn)
    ensures RunNextPre(s)
    ensures RunNext(s, random) == CountDown(s).(stack := s.stack[s.sp := s.pc + 2], sp := s.sp + 1, pc := nnn)
  {
    assert RunNext(s, random) == ExecuteFlow(Advance(CountDown(s)), Call(nnn));
  }

  /** 00EE pops the last saved address into the program counter; the slot
      keeps its value. */
  lemma ReturnStep(s: State, random: int)
    requires WellFormed(s) && s.sp > 0 && Decode(Fetch(s)) == Return
    ensures RunNextPre(s)
    ensures RunNext(s, random) == CountDown(s).(sp := s.sp - 1, pc := s.stack[s.sp - 1])
  {
    assert RunNext(s, random) == ExecuteFlow(Advance(CountDown(s)), Return);
  }

  /** Only 2NNN and 00EE touch the stack pointer or the stack. */
  lemma OthersKeepStack(s: State, ins: Instr, random: int)
    requires WellFormed(s) && CanExecute(s, ins) && !ins.Call? && !ins.Return?
    ensures Execute(s, ins, random).sp == s.sp && Execute(s, ins, random).stack == s.stack
  {
    if IsFlow(ins) {
      assert Execute(s, ins, random) == ExecuteFlow(s, ins);
    } else if IsSkip(ins) || IsRegisterLoad(ins) || IsArithmetic(ins) || IsTimerOrIndex(ins) {
    } else {
      assert Execute(s, ins, random) == ExecuteMemory(s, ins);
    }
  }

  /** A step that fetches neither a 2NNN nor a 00EE leaves the stack alone. */
  lemma StepKeepsStack(s: State, random: int)
    requires WellFormed(s) && RunNextPre(s)
    requires !Decode(Fetch(s)).Call? && !Decode(Fetch(s)).Return?
    ensures RunNext(s, random).sp == s.sp && RunNext(s, random).stack == s.stack
  {
    OthersKeepStack(Advance(CountDown(s)), Decode(Fetch(s)), random);
  }

  /** A 2NNN at `s` leaves the stack as `t` has it; when `t`, reached however
      many steps later with the stack as the call left it (by `StepKeepsStack`,
      any steps without 2NNN or 00EE keep it so), fetches a 00EE, that return
      comes back to the instruction after the call with the stack pointer
      restored. */
  lemma CallThenReturn(s: State, nnn: Address, t: State, random: int, random': int)
    requires WellFormed(s) && s.sp < StackDepth && Decode(Fetch(s)) == Call(nnn)
    requires WellFormed(t) && t.sp == s.sp + 1 && t.stack == s.stack[s.sp := s.pc + 2]
    requires Decode(Fetch(t)) == Return
    ensures RunNextPre(s) && RunNext(s, random).sp == t.sp && RunNext(s, random).stack == t.stack
    ensures RunNextPre(t) && RunNext(t, random').sp == s.sp && RunNext(t, random').pc == s.pc + 2
  {
    CallStep(s, nnn, random);
    ReturnStep(t, random');
  }

  /** The run a subroutine test of the interpreter makes: 2123 at address 0
      calls 0x123, which clears the display and returns; the program counter
      then stands at 2 and the stack pointer where it was. */
  lemma SubroutineExample(s: State, random: int)
    requires WellFormed(s) && s.pc == 0 && s.sp < StackDepth
    requires s.memory[0] == 0x21 && s.memory[1] == 0x23
    requires s.memory[0x123] == 0x00 && s.memory[0x124] == 0xE0
    requires s.memory[0x125] == 0x00 && s.memory[0x126] == 0xEE
    ensures RunNextPre(s)
    ensures var a := RunNext(s, random);
      RunNextPre(a) && var b := RunNext(a, random);
      RunNextPre(b) && var c := RunNext(b, random);
      c.pc == 2 && c.sp == s.sp
  {
    FetchIsBigEndian(s);
    assert Decode(0x2123) == Call(0x123);
    CallStep(s, 0x123, random);
    var a := CountDown(s).(stack := s.stack[s.sp := 2], sp := s.sp + 1, pc := 0x123);
    assert RunNext(s, random) == a;
    FetchIsBigEndian(a);
    DecodeClearWord();
    ClearScreenBlanks(Advance(CountDown(a)));
    var b := Advance(CountDown(a)).(screen := Blank());
    assert RunNext(a, random) == b;
    assert b.pc == 0x125 && b.memory == s.memory;
    FetchIsBigEndian(b);
    DecodeReturnWord();
    CallThenReturn(s, 0x123, b, random, random);
  }

  // ---------------------------------------------------------------------
  // Skips

  /** 3XNN, 4XNN, 5XY0 and 9XY0 skip a whole instruction (the program counter
      moves 4 instead of 2); EX9E and EXA1 move it 3 instead of 2.  Nothing but
      the program counter and the timers changes. */
  lemma SkipStep(s: State, ins: Instr, random: int)
    requires WellFormed(s) && Decode(Fetch(s)) == ins && IsSkip(ins)
    ensures RunNextPre(s)
    ensures var r := RunNext(s, random);
      r == CountDown(s).(pc := r.pc)
      && (ins.SkipIfEqual? ==> r.pc == s.pc + if s.v[ins.x] == ins.nn then 4 else 2)
      && (ins.SkipIfNotEqual? ==> r.pc == s.pc + if s.v[ins.x] != ins.nn then 4 else 2)
      && (ins.SkipIfRegistersEqual? ==> r.pc == s.pc + if s.v[ins.x] == s.v[ins.y] then 4 else 2)
      && (ins.SkipIfRegistersDiffer? ==> r.pc == s.pc + if s.v[ins.x] != s.v[ins.y] then 4 else 2)
      && (ins.SkipIfKey? ==> r.pc == s.pc + if s.key == Some(s.v[ins.x]) then 3 else 2)
      && (ins.SkipIfNotKey? ==> r.pc == s.pc + if s.key == Some(s.v[ins.x]) then 2 else 3)
  {
    assert RunNext(s, random) == ExecuteSkip(Advance(CountDown(s)), ins);
  }

  // ---------------------------------------------------------------------
  // Register arithmetic on bytes

  /** The registers other than VX and VF, untouched. */
  predicate OthersUnchanged(a: seq<int>, b: seq<int>, x: Reg)
    requires |a| == RegisterCount && |b| == RegisterCount
  {
    forall j :: 0 <= j < RegisterCount && j != x && j != Flag ==> a[j] == b[j]
  }

  /** 8XY4 on bytes: VX is the sum modulo 256 and VF the carry (VF is written
      last, so it wins when X is F). */
  lemma AddBytes(s: State, x: Reg, y: Reg)
    requires WellFormed(s) && IsByte(s.v[x]) && IsByte(s.v[y])
    ensures var r, sum := Execute(s, Add(x, y), 0), s.v[x] + s.v[y];
      r == s.(v := r.v) && OthersUnchanged(r.v, s.v, x)
      && r.v[Flag] == (if sum >= 0x100 then 1 else 0)
      && (x != Flag ==> r.v[x] == sum % 0x100)
  {
    assert Execute(s, Add(x, y), 0) == ExecuteArithmetic(s, Add(x, y));
  }

  /** 8XY5 on bytes: VF is 1 exactly when there is no borrow, and a borrowed
      result is one less than the 8-bit wrap-around, since the interpreter adds
      0xFF rather than 0x100. */
  lemma SubtractBytes(s: State, x: Reg, y: Reg)
    requires WellFormed(s) && IsByte(s.v[x]) && IsByte(s.v[y])
    ensures var r, a, b := Execute(s, Subtract(x, y), 0), s.v[x], s.v[y];
      r == s.(v := r.v) && OthersUnchanged(r.v, s.v, x)
      && r.v[Flag] == (if a >= b then 1 else 0)
      && (x != Flag ==> r.v[x] == (a - b) % 0x100 - (if a < b then 1 else 0) && IsByte(r.v[x]))
  {
    assert Execute(s, Subtract(x, y), 0) == ExecuteArithmetic(s, Subtract(x, y));
  }

  /** 8XY7 on bytes: the same, with the operands the other way round. */
  lemma SubtractReversedBytes(s: State, x: Reg, y: Reg)
    requires WellFormed(s) && IsByte(s.v[x]) && IsByte(s.v[y])
    ensures var r, a, b := Execute(s, SubtractReversed(x, y), 0), s.v[x], s.v[y];
      r == s.(v := r.v) && OthersUnchanged(r.v, s.v, x)
      && r.v[Flag] == (if b >= a then 1 else 0)
      && (x != Flag ==> r.v[x] == (b - a) % 0x100 - (if b < a then 1 else 0) && IsByte(r.v[x]))
  {
    assert Execute(s, SubtractReversed(x, y), 0) == ExecuteArithmetic(s, SubtractReversed(x, y));
  }

  /** The JavaScript of 8XY6 and 8XYE on a byte: `a & 0x01`, `a >> 1`,
      `(a & 0x80) >> 7` and `(a << 1) & 0xFF`. */
  lemma ShiftBits(a: int)
    requires IsByte(a)
    ensures JsBits.And(a, 0x01) == a % 2 && JsBits.ShiftRight(a, 1) == a / 2
    ensures JsBits.ShiftRight(JsBits.And(a, 0x80), 7) == a / 0x80
    ensures JsBits.And(JsBits.ShiftLeft(a, 1), 0xFF) == (2 * a) % 0x100
  {
    assert JsBits.Pow2(7) == 0x80 && JsBits.Pow2(8) == 0x100 && JsBits.Pow2(1) == 2;
    JsBits.MaskIsModulo(a, 1);
    JsBits.MaskedBit(a, 7);
    assert a % JsBits.TwoTo32 == a;
    assert JsBits.ShiftLeft(a, 1) == 2 * a;
    JsBits.MaskIsModulo(2 * a, 8);
  }

  /** 8XY6 on a byte: VF gets the bit shifted out, VX the halved value. */
  lemma ShiftRightByte(s: State, x: Reg, y: Reg)
    requires WellFormed(s) && IsByte(s.v[x])
    ensures var r, a := Execute(s, ShiftRight(x, y), 0), s.v[x];
      r == s.(v := r.v) && OthersUnchanged(r.v, s.v, x)
      && (x != Flag ==> r.v[x] == a / 2 && r.v[Flag] == a % 2)
  {
    ShiftBits(s.v[x]);
    assert Execute(s, ShiftRight(x, y), 0) == ExecuteArithmetic(s, ShiftRight(x, y));
  }

  /** 8XYE on a byte: VF gets bit 7, VX the doubled value modulo 256. */
  lemma ShiftLeftByte(s: State, x: Reg, y: Reg)
    requires WellFormed(s) && IsByte(s.v[x])
    ensures var r, a := Execute(s, ShiftLeft(x, y), 0), s.v[x];
      r == s.(v := r.v) && OthersUnchanged(r.v, s.v, x)
      && (x != Flag ==> r.v[x] == (2 * a) % 0x100 && r.v[Flag] == a / 0x80)
  {
    ShiftBits(s.v[x]);
    assert Execute(s, ShiftLeft(x, y), 0) == ExecuteArithmetic(s, ShiftLeft(x, y));
  }

  /** 8XY1 to 8XY3 keep bytes bytes and touch only VX. */
  lemma BitwiseBytes(s: State, x: Reg, y: Reg)
    requires WellFormed(s) && IsByte(s.v[x]) && IsByte(s.v[y])
    ensures var r := Execute(s, BitOr(x, y), 0); r == s.(v := s.v[x := r.v[x]]) && IsByte(r.v[x])
    ensures var r := Execute(s, BitAnd(x, y), 0); r == s.(v := s.v[x := r.v[x]]) && IsByte(r.v[x])
    ensures var r := Execute(s, BitXor(x, y), 0); r == s.(v := s.v[x := r.v[x]]) && IsByte(r.v[x])
  {
    JsBits.ByteOperators(s.v[x], s.v[y]);
  }

  /** 7XNN adds without wrapping and without touching VF: a byte register can
      leave the byte range. */
  lemma AddToRegisterNoWrap(s: State, x: Reg, nn: Byte)
    requires WellFormed(s)
    ensures var r := Execute(s, AddToRegister(x, nn), 0);
      r == s.(v := s.v[x := s.v[x] + nn])
      && (s.v[x] + nn >= 0x100 ==> !IsByte(r.v[x]))
  {
  }

  // ---------------------------------------------------------------------
  // The index register and BNNN

  /** FX1E: a sum past 0xFFF is masked back into the address range and VF says so. */
  lemma AddToIndexWraps(s: State, x: Reg)
    requires WellFormed(s)
    ensures var r, sum := Execute(s, AddToIndex(x), 0), s.i + s.v[x];
      r == s.(i := r.i, v := s.v[Flag := r.v[Flag]])
      && r.i == (if sum > 0xFFF then sum % 0x1000 else sum)
      && r.v[Flag] == (if sum > 0xFFF then 1 else 0)
  {
    IndexMask(s.i + s.v[x]);
    assert Execute(s, AddToIndex(x), 0) == ExecuteTimerOrIndex(s, AddToIndex(x));
  }

  /** FX1E's `i &= 0xFFF` keeps the index modulo 0x1000. */
  lemma IndexMask(sum: int)
    ensures JsBits.And(sum, 0xFFF) == sum % 0x1000
  {
    assert JsBits.Pow2(12) == 0x1000;
    JsBits.MaskIsModulo(sum, 12);
  }

  /** BNNN as the interpreter writes it, `v[0] + opcode & 0x0FFF`: JavaScript
      adds before it masks, which is V0 plus NNN modulo 0x1000. */
  lemma JumpOffsetMask(v0: int, opcode: int)
    ensures JsBits.And(v0 + opcode, 0x0FFF) == (v0 + NNN(opcode)) % 0x1000
  {
    assert JsBits.Pow2(12) == 0x1000;
    JsBits.MaskIsModulo(v0 + opcode, 12);
    JsBits.AddMultipleMod(v0 + NNN(opcode), 0x1000, 1, 0x1000, opcode / 0x1000);
  }

  /** FX29 points I at the five-byte glyph of a hexadecimal digit in the font
      that `reset` loads; otherwise nothing changes. */
  lemma FontCharacterGlyph(s: State, x: Reg)
    requires WellFormed(s) && s.memory[..|Font|] == Font
    ensures var r, c := Execute(s, FontCharacter(x), 0), s.v[x];
      (0 <= c <= 0xF ==> r == s.(i := c * GlyphRows)
                         && Cells(s.memory, r.i, GlyphRows) == Font[c * GlyphRows .. c * GlyphRows + GlyphRows])
      && (!(0 <= c <= 0xF) ==> r == s)
  {
    var c := s.v[x];
    assert Execute(s, FontCharacter(x), 0) == ExecuteTimerOrIndex(s, FontCharacter(x));
    if 0 <= c <= 0xF {
      CellsOfPrefix(s.memory, Font, c * GlyphRows, GlyphRows);
    }
  }

  /** Cells inside a known prefix of memory are that prefix's elements. */
  lemma CellsOfPrefix(m: seq<int>, prefix: seq<int>, at: int, count: nat)
    requires |prefix| <= |m| && m[..|prefix|] == prefix && 0 <= at && at + count <= |prefix|
    ensures Cells(m, at, count) == prefix[at .. at + count]
  {
    forall k | 0 <= k < count
      ensures Cells(m, at, count)[k] == prefix[at + k]
    {
      assert m[..|prefix|][at + k] == m[at + k];
    }
  }

  /** `reset` puts the font at address 0 and zeroes the rest. */
  lemma InitialFont()
    ensures Initial().memory[..|Font|] == Font
    ensures forall a :: |Font| <= a < MemorySize ==> Initial().memory[a] == 0
  {
    assert (Font + Zeros(MemorySize - |Font|))[..|Font|] == Font;
  }

  // ---------------------------------------------------------------------
  // The display

  /** Bit `bit` of a byte, counted from the left, as `(row & 2^(7-bit)) >> (7-bit)` reads it. */
  lemma SpriteBitValue(row: int, bit: int)
    requires IsByte(row) && 0 <= bit < 8
    ensures SpriteBit(row, bit) == (row / JsBits.Pow2(7 - bit)) % 2
  {
    JsBits.MaskedBit(row, 7 - bit);
    assert row % JsBits.TwoTo32 == row;
  }

  /** Every sprite bit is a 0 or a 1, whatever the memory cell holds. */
  lemma SpriteBitRange(row: int, bit: int)
    requires 0 <= bit < 8
    ensures SpriteBit(row, bit) in {0, 1}
  {
    JsBits.MaskedBit(row, 7 - bit);
  }

  /** XOR-ing the same bit twice gives a pixel back. */
  lemma XorTwice(p: int, b: int)
    requires p in {0, 1} && b in {0, 1}
    ensures JsBits.Xor(JsBits.Xor(p, b), b) == p
  {
    JsBits.XorOnBits(p, b);
    JsBits.XorOnBits(JsBits.Xor(p, b), b);
  }

  /** Every pixel outside the sprite's rectangle keeps its value, and a bitmap
      stays a bitmap. */
  lemma DrawFrame(screen: seq<int>, memory: seq<int>, i: int, x: int, y: int, n: int)
    requires Bitmap(screen)
    ensures var r := DrawSprite(screen, memory, i, x, y, n);
      Bitmap(r)
      && forall p :: 0 <= p < |screen| && !(x <= p / Height < x + 8 && y <= p % Height < y + n) ==> r[p] == screen[p]
  {
    var r := DrawSprite(screen, memory, i, x, y, n);
    forall p | 0 <= p < |screen|
      ensures r[p] == 0 || r[p] == 1
    {
      var col, row := p / Height, p % Height;
      if x <= col < x + 8 && y <= row < y + n {
        SpriteBitRange(Cell(memory, i + (row - y)), col - x);
        JsBits.XorOnBits(screen[p], SpriteBit(Cell(memory, i + (row - y)), col - x));
      }
    }
  }

  /** Pixel (x + b, y + k) of the rectangle is XOR-ed with bit b of sprite row k. */
  lemma DrawAt(screen: seq<int>, memory: seq<int>, i: int, x: int, y: int, n: int, k: int, b: int)
    requires |screen| == Width * Height && n > 0 && SpriteFits(x, y, n)
    requires 0 <= k < n && 0 <= b < 8
    ensures 0 <= Pixel(x + b, y + k) < |screen|
    ensures DrawSprite(screen, memory, i, x, y, n)[Pixel(x + b, y + k)]
            == JsBits.Xor(screen[Pixel(x + b, y + k)], SpriteBit(Cell(memory, i + k), b))
  {
    PixelCoordinates(x + b, y + k);
  }

  /** Inside the rectangle, pixel (x + b, y + k) is flipped exactly when bit b
      of sprite row k, counted from the left, is set. */
  lemma DrawFlipsSpriteBits(screen: seq<int>, memory: seq<int>, i: int, x: int, y: int, n: int, k: int, b: int)
    requires |screen| == Width * Height && Bitmap(screen) && n > 0 && SpriteFits(x, y, n)
    requires 0 <= k < n && 0 <= b < 8 && IsByte(Cell(memory, i + k))
    ensures 0 <= Pixel(x + b, y + k) < |screen|
    ensures var p, lit := Pixel(x + b, y + k), (Cell(memory, i + k) / JsBits.Pow2(7 - b)) % 2 == 1;
      DrawSprite(screen, memory, i, x, y, n)[p] == if lit then 1 - screen[p] else screen[p]
  {
    DrawAt(screen, memory, i, x, y, n, k, b);
    var p, row := Pixel(x + b, y + k), Cell(memory, i + k);
    SpriteBitValue(row, b);
    BitOfByte(row, 7 - b);
    JsBits.XorOnBits(screen[p], SpriteBit(row, b));
  }

  lemma BitOfByte(row: int, k: nat)
    ensures (row / JsBits.Pow2(k)) % 2 in {0, 1}
  {
  }

  /** Drawing the same sprite twice restores the display. */
  lemma DrawTwiceRestores(screen: seq<int>, memory: seq<int>, i: int, x: int, y: int, n: int)
    requires Bitmap(screen)
    ensures DrawSprite(DrawSprite(screen, memory, i, x, y, n), memory, i, x, y, n) == screen
  {
    var once := DrawSprite(screen, memory, i, x, y, n);
    var twice := DrawSprite(once, memory, i, x, y, n);
    forall p | 0 <= p < |screen|
      ensures twice[p] == screen[p]
    {
      var col, row := p / Height, p % Height;
      if x <= col < x + 8 && y <= row < y + n {
        SpriteBitRange(Cell(memory, i + (row - y)), col - x);
        XorTwice(screen[p], SpriteBit(Cell(memory, i + (row - y)), col - x));
      }
    }
  }

  /** DXYN changes only the display (no collision flag is set), so executing it
      twice gives back the state it started from. */
  lemma DrawTwiceState(s: State, x: Reg, y: Reg, n: Nibble, random: int)
    requires WellFormed(s) && Bitmap(s.screen) && SpriteFits(s.v[x], s.v[y], n)
    ensures var d := Execute(s, Draw(x, y, n), random);
      d == s.(screen := d.screen)
      && CanExecute(d, Draw(x, y, n))
      && Execute(d, Draw(x, y, n), random) == s
  {
    var d := Execute(s, Draw(x, y, n), random);
    assert d == ExecuteMemory(s, Draw(x, y, n));
    assert Execute(d, Draw(x, y, n), random) == ExecuteMemory(d, Draw(x, y, n));
    DrawTwiceRestores(s.screen, s.memory, s.i, s.v[x], s.v[y], n);
  }

  /** Only 00E0 and DXYN touch the display. */
  lemma OthersKeepScreen(s: State, ins: Instr, random: int)
    requires WellFormed(s) && CanExecute(s, ins) && !ins.ClearScreen? && !ins.Draw?
    ensures Execute(s, ins, random).screen == s.screen
  {
    if IsFlow(ins) {
      assert Execute(s, ins, random) == ExecuteFlow(s, ins);
    } else if IsSkip(ins) || IsRegisterLoad(ins) || IsArithmetic(ins) || IsTimerOrIndex(ins) {
    } else {
      assert Execute(s, ins, random) == ExecuteMemory(s, ins);
    }
  }

  /** Every pixel is 0 or 1 after a reset ... */
  lemma InitialBitmap()
    ensures Bitmap(Initial().screen)
  {
  }

  /** ... and every instruction keeps it so, ... */
  lemma ExecuteKeepsBitmap(s: State, ins: Instr, random: int)
    requires WellFormed(s) && CanExecute(s, ins) && Bitmap(s.screen)
    ensures Bitmap(Execute(s, ins, random).screen)
  {
    if ins.ClearScreen? {
      assert Execute(s, ins, random) == ExecuteFlow(s, ins);
    } else if ins.Draw? {
      assert Execute(s, ins, random) == ExecuteMemory(s, ins);
      DrawFrame(s.screen, s.memory, s.i, s.v[ins.x], s.v[ins.y], ins.n);
    } else {
      OthersKeepScreen(s, ins, random);
    }
  }

  /** ... and so do `processNextOpcode`, `tick`, `loadProgram`, `keypress` and
      `keyup`: the display of every state reached from a reset is a bitmap, the
      premise of `DrawFlipsSpriteBits`, `DrawTwiceRestores` and `DrawTwiceState`. */
  lemma StepsKeepBitmap(s: State, random: int, program: seq<int>, key: int)
    requires WellFormed(s) && Bitmap(s.screen)
    ensures RunNextPre(s) ==> Bitmap(RunNext(s, random).screen)
    ensures CyclePre(s) ==> Bitmap(Cycle(s, random).screen)
    ensures ProgramStart + 2 * |program| <= MemorySize ==> Bitmap(Loaded(s, program).screen)
    ensures Bitmap(s.(key := Some(key)).screen) && Bitmap(s.(key := None).screen)
  {
    if RunNextPre(s) {
      ExecuteKeepsBitmap(Advance(CountDown(s)), Decode(Fetch(s)), random);
    }
    if CyclePre(s) && !Latch(s).awaiting {
      ExecuteKeepsBitmap(Advance(CountDown(Latch(s))), Decode(Fetch(Latch(s))), random);
    }
  }

  /** On a blank display a sprite shows exactly its bits. */
  lemma DrawOnBlank(memory: seq<int>, i: int, x: int, y: int, n: int, k: int, b: int)
    requires n > 0 && SpriteFits(x, y, n) && 0 <= k < n && 0 <= b < 8 && IsByte(Cell(memory, i + k))
    ensures 0 <= Pixel(x + b, y + k) < Width * Height
    ensures DrawSprite(Blank(), memory, i, x, y, n)[Pixel(x + b, y + k)] == (Cell(memory, i + k) / JsBits.Pow2(7 - b)) % 2
  {
    DrawFlipsSpriteBits(Blank(), memory, i, x, y, n, k, b);
  }

  /** 00E0 blanks every pixel, and a sprite drawn next shows exactly its bits. */
  lemma ClearThenDraw(s: State, x: Reg, y: Reg, n: Nibble, k: int, b: int)
    requires WellFormed(s) && n > 0 && 0 <= k < n && 0 <= b < 8 && IsByte(Cell(s.memory, s.i + k))
    ensures var c := Execute(s, ClearScreen, 0);
      (forall p :: 0 <= p < |c.screen| ==> c.screen[p] == 0)
      && c == s.(screen := c.screen)
      && (SpriteFits(c.v[x], c.v[y], n) ==>
            var d := Execute(c, Draw(x, y, n), 0);
            d.screen[Pixel(c.v[x] + b, c.v[y] + k)] == (Cell(s.memory, s.i + k) / JsBits.Pow2(7 - b)) % 2)
  {
    ClearScreenBlanks(s);
    var c := s.(screen := Blank());
    if SpriteFits(c.v[x], c.v[y], n) {
      DrawScreen(c, x, y, n);
      DrawOnBlank(s.memory, s.i, s.v[x], s.v[y], n, k, b);
    }
  }

  /** 00E0 as one state update. */
  lemma ClearScreenBlanks(s: State)
    requires WellFormed(s)
    ensures Execute(s, ClearScreen, 0) == s.(screen := Blank())
  {
    assert Execute(s, ClearScreen, 0) == ExecuteFlow(s, ClearScreen);
  }

  /** DXYN's display is `DrawSprite` of VX and VY. */
  lemma DrawScreen(s: State, x: Reg, y: Reg, n: Nibble)
    requires WellFormed(s) && SpriteFits(s.v[x], s.v[y], n)
    ensures Execute(s, Draw(x, y, n), 0).screen == DrawSprite(s.screen, s.memory, s.i, s.v[x], s.v[y], n)
  {
    assert Execute(s, Draw(x, y, n), 0) == ExecuteMemory(s, Draw(x, y, n));
  }

  // ---------------------------------------------------------------------
  // Binary-coded decimal

  /** The number a sequence of decimal digits stands for, most significant first. */
  function DecimalValue(digits: seq<int>): int
  {
    if digits == [] then 0 else DecimalValue(digits[..|digits| - 1]) * 10 + digits[|digits| - 1]
  }

  /** For a value below 1000 the cells FX33 writes are its decimal digits,
      most significant first, with no leading zero: one digit below 10, two
      below 100, three otherwise. */
  lemma BcdDigitsAreDecimal(value: int)
    requires 0 <= value < 1000
    ensures var d := BcdDigits(value);
      DecimalValue(d) == value
      && (forall k :: 0 <= k < |d| ==> 0 <= d[k] <= 9)
      && |d| == (if value < 10 then 1 else if value < 100 then 2 else 3)
      && (|d| > 1 ==> d[0] != 0)
  {
    var d := BcdDigits(value);
    assert DecimalValue([d[0]]) == d[0] by { assert [d[0]][..0] == []; }
    if value >= 10 {
      assert DecimalValue([d[0], d[1]]) == d[0] * 10 + d[1] by { assert [d[0], d[1]][..1] == [d[0]]; }
    }
    if value >= 100 {
      assert DecimalValue(d) == DecimalValue([d[0], d[1]]) * 10 + d[2] by { assert d[..2] == [d[0], d[1]]; }
    }
  }

  /** The four values the interpreter's tests use. */
  lemma BcdExamples()
    ensures BcdDigits(254) == [2, 5, 4]
    ensures BcdDigits(15) == [1, 5]
    ensures BcdDigits(7) == [7]
    ensures BcdDigits(0) == [0]
  {
  }

  /** FX33 writes its digits from I on and nothing else. */
  lemma StoreBcdCells(s: State, x: Reg)
    requires WellFormed(s) && 0 <= s.i && s.i + |BcdDigits(s.v[x])| <= MemorySize
    ensures var r, d := Execute(s, StoreBcd(x), 0), BcdDigits(s.v[x]);
      r == s.(memory := r.memory)
      && (forall k :: 0 <= k < |d| ==> r.memory[s.i + k] == d[k])
      && (forall a :: 0 <= a < MemorySize && !(s.i <= a < s.i + |d|) ==> r.memory[a] == s.memory[a])
  {
    var r := Execute(s, StoreBcd(x), 0);
    assert r == ExecuteMemory(s, StoreBcd(x));
  }

  // ---------------------------------------------------------------------
  // FX55 and FX65

  /** Reading back the cells just written gives them. */
  lemma SpliceThenCells(m: seq<int>, at: int, cells: seq<int>)
    requires 0 <= at && at + |cells| <= |m|
    ensures Cells(Splice(m, at, cells), at, |cells|) == cells
  {
  }

  /** Writing back the cells just read changes nothing. */
  lemma CellsThenSplice(m: seq<int>, at: int, count: nat)
    requires 0 <= at && at + count <= |m|
    ensures Splice(m, at, Cells(m, at, count)) == m
  {
  }

  /** FX55 copies V0 to VX into memory from I on, leaving every other cell,
      I and the registers as they were. */
  lemma StoreRegistersCells(s: State, x: Reg, random: int)
    requires WellFormed(s) && 0 <= s.i && s.i + x + 1 <= MemorySize
    ensures var t := Execute(s, StoreRegisters(x), random);
      t == s.(memory := t.memory)
      && (forall k :: 0 <= k <= x ==> t.memory[s.i + k] == s.v[k])
      && (forall a :: 0 <= a < MemorySize && !(s.i <= a <= s.i + x) ==> t.memory[a] == s.memory[a])
  {
    assert Execute(s, StoreRegisters(x), random) == ExecuteMemory(s, StoreRegisters(x));
  }

  /** FX65 with the same X right after FX55 reloads the values just stored,
      so the state is unchanged. */
  lemma StoreThenLoad(s: State, x: Reg, random: int)
    requires WellFormed(s) && 0 <= s.i && s.i + x + 1 <= MemorySize
    ensures var t := Execute(s, StoreRegisters(x), random);
      Execute(t, LoadRegisters(x), random) == t
  {
    var t := Execute(s, StoreRegisters(x), random);
    assert t == ExecuteMemory(s, StoreRegisters(x));
    SpliceThenCells(s.memory, s.i, s.v[..x + 1]);
    assert s.v[..x + 1] + s.v[x + 1..] == s.v;
    assert Execute(t, LoadRegisters(x), random) == ExecuteMemory(t, LoadRegisters(x));
  }

  /** FX65 fills V0 to VX from memory from I on and keeps the other registers. */
  lemma LoadRegistersCells(s: State, x: Reg, random: int)
    requires WellFormed(s)
    ensures var t := Execute(s, LoadRegisters(x), random);
      t == s.(v := t.v)
      && (forall k :: 0 <= k <= x ==> t.v[k] == Cell(s.memory, s.i + k))
      && (forall k :: x < k < RegisterCount ==> t.v[k] == s.v[k])
  {
    assert Execute(s, LoadRegisters(x), random) == ExecuteMemory(s, LoadRegisters(x));
  }

  /** FX55 with the same X right after FX65 writes back what is already there. */
  lemma LoadThenStore(s: State, x: Reg, random: int)
    requires WellFormed(s) && 0 <= s.i && s.i + x + 1 <= MemorySize
    ensures var t := Execute(s, LoadRegisters(x), random);
      CanExecute(t, StoreRegisters(x)) && Execute(t, StoreRegisters(x), random) == t
  {
    var t := Execute(s, LoadRegisters(x), random);
    assert t == ExecuteMemory(s, LoadRegisters(x));
    assert t.v[..x + 1] == Cells(s.memory, s.i, x + 1);
    CellsThenSplice(s.memory, s.i, x + 1);
    assert Execute(t, StoreRegisters(x), random) == ExecuteMemory(t, StoreRegisters(x));
  }
}
