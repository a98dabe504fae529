/** The interpreter object itself: the fields of app.js's `Chip8`, updated in
    place by its methods, each proved to move the object from one `State` of
    the module `Machine` to the one the pure model prescribes. */
module Interpreter {
  import JsBits
  import opened Opcodes
  import opened Wrappers
  import opened Machine
  import Properties

  class Chip8 {
    var memory: array<int>
    var v: array<int>
    var stack: array<int>
    var graphicsData: array<int>
    var stackPointer: int
    var programCounter: int
    var i: int
    var delayTimer: int
    var soundTimer: int
    var isAwaitingInput: bool
    var currentKey: Option<int>

    /** The object's state as a value. */
    ghost function Snapshot(): State
      reads this, memory, v, stack, graphicsData
    {
      State(memory[..], v[..], stack[..], stackPointer, programCounter, i, delayTimer, soundTimer,
            isAwaitingInput, currentKey, graphicsData[..])
    }

    ghost predicate Valid()
      reads this, memory, v, stack, graphicsData
    {
      memory != v && memory != stack && memory != graphicsData
      && v != stack && v != graphicsData && stack != graphicsData
      && WellFormed(Snapshot())
    }

    /** `memory[a]`, with an address outside memory reading as 0. */
    function ReadCell(a: int): (r: int)
      reads this, memory
      ensures r == Cell(memory[..], a)
    {
      if 0 <= a < memory.Length then memory[a] else 0
    }

    constructor()
      ensures Valid() && Snapshot() == Initial()
    {
      memory, v, stack, graphicsData := new int[0], new int[0], new int[0], new int[0];
      new;
      Reset();
    }

    /** `reset`: fresh arrays, everything zero, the font at address 0. */
    method Reset()
      modifies this
      ensures Valid() && Snapshot() == Initial()
      ensures fresh(memory) && fresh(v) && fresh(stack) && fresh(graphicsData)
    {
      ResetRegisters();
      ResetScreen();
      LoadFont();
      InitialFields(Snapshot());
    }

    /** The assignments `reset` makes before it clears the screen: fresh
        memory, stack and registers, and every counter and flag zero. */
    method ResetRegisters()
      modifies this
      ensures fresh(memory) && fresh(stack) && fresh(v)
      ensures memory != stack && memory != v && stack != v
      ensures memory[..] == Zeros(MemorySize) && stack[..] == Zeros(StackDepth) && v[..] == Zeros(RegisterCount)
      ensures programCounter == 0 && stackPointer == 0 && i == 0 && delayTimer == 0 && soundTimer == 0
      ensures !isAwaitingInput && currentKey == None
    {
      programCounter, stackPointer, i, delayTimer, soundTimer := 0, 0, 0, 0, 0;
      isAwaitingInput, currentKey := false, None;
      memory := NewArray(MemorySize);
      stack := NewArray(StackDepth);
      v := NewArray(RegisterCount);
    }

    /** `new Array(n)`: n holes, each read as 0. */
    static method NewArray(n: nat) returns (a: array<int>)
      ensures fresh(a) && a[..] == Zeros(n)
    {
      a := new int[n](_ => 0);
      assert a[..] == Zeros(n);
    }

    /** The font loop of `reset`: the 80 glyph bytes from address 0 on. */
    method LoadFont()
      requires memory.Length == MemorySize && memory[..] == Zeros(MemorySize)
      modifies memory
      ensures memory[..] == Font + Zeros(MemorySize - |Font|)
    {
      var hexCharIndex := 0;
      assert memory[..] == Font[..0] + Zeros(MemorySize);
      while hexCharIndex < |Font|
        invariant 0 <= hexCharIndex <= |Font|
        invariant memory[..] == Font[..hexCharIndex] + Zeros(MemorySize - hexCharIndex)
      {
        CopyStep(Font, hexCharIndex, MemorySize);
        memory[hexCharIndex] := Font[hexCharIndex];
        hexCharIndex := hexCharIndex + 1;
      }
      assert Font[..|Font|] == Font;
    }

    /** `resetScreen`: a fresh display with every pixel 0. */
    method ResetScreen()
      modifies this
      ensures fresh(graphicsData)
      ensures memory == old(memory) && v == old(v) && stack == old(stack)
      ensures stackPointer == old(stackPointer) && programCounter == old(programCounter) && i == old(i)
      ensures delayTimer == old(delayTimer) && soundTimer == old(soundTimer)
      ensures isAwaitingInput == old(isAwaitingInput) && currentKey == old(currentKey)
      ensures graphicsData[..] == Blank()
    {
      var widthPixels, heightPixels := Width, Height;
      graphicsData := new int[widthPixels * heightPixels];
      var col := 0;
      while col < widthPixels
        invariant 0 <= col <= widthPixels
        invariant forall p :: 0 <= p < col * heightPixels ==> graphicsData[p] == 0
        modifies graphicsData
      {
        var row := 0;
        while row < heightPixels
          invariant 0 <= row <= heightPixels
          invariant forall p :: 0 <= p < col * heightPixels + row ==> graphicsData[p] == 0
          modifies graphicsData
        {
          graphicsData[Pixel(col, row)] := 0;
          row := row + 1;
        }
        col := col + 1;
      }
      assert graphicsData[..] == Blank();
    }

    /** `readNextOpcode`: the big-endian word at the program counter, which moves on by 2. */
    method ReadNextOpcode() returns (opcode: int)
      requires Valid()
      modifies this
      ensures memory == old(memory) && v == old(v) && stack == old(stack) && graphicsData == old(graphicsData)
      ensures Valid()
      ensures opcode == Fetch(old(Snapshot()))
      ensures Snapshot() == Advance(old(Snapshot()))
    {
      opcode := JsBits.Or(JsBits.ShiftLeft(ReadCell(programCounter), 8), ReadCell(programCounter + 1));
      programCounter := programCounter + 2;
    }

    /** `processOpcode`: carry out the instruction the word encodes. */
    method ProcessOpcode(opcode: int, random: int)
      requires Valid() && CanExecute(Snapshot(), Decode(opcode))
      modifies this, memory, v, stack, graphicsData
      ensures Valid()
      ensures Snapshot() == Execute(old(Snapshot()), Decode(opcode), random)
    {
      var ins := Decode(opcode);
      if IsFlow(ins) {
        ProcessFlow(ins, opcode);
      } else if IsSkip(ins) {
        ProcessSkip(ins);
      } else if IsRegisterLoad(ins) {
        ProcessRegisterLoad(ins, random);
      } else if IsArithmetic(ins) {
        ProcessArithmetic(ins);
      } else if IsTimerOrIndex(ins) {
        ProcessTimerOrIndex(ins);
      } else {
        match ins
        case Draw(x, y, n) => DrawSprite(v[x], v[y], n);
        case StoreBcd(x) => StoreBcd(x);
        case StoreRegisters(x) => StoreRegisters(x);
        case LoadRegisters(x) => LoadRegisters(x);
      }
    }

    /** 00E0, 00EE, 0NNN, 1NNN, 2NNN, ANNN, BNNN and the words no handler matches. */
    method ProcessFlow(ins: Instr, opcode: int)
      requires ins == Decode(opcode)
      requires Valid() && CanExecute(Snapshot(), ins)
      requires IsFlow(ins)
      modifies this, stack
      ensures Valid()
      ensures Snapshot() == ExecuteFlow(old(Snapshot()), ins)
    {
      match ins
      case ClearScreen =>
        ResetScreen();
      case Return =>
        stackPointer := stackPointer - 1;
        programCounter := stack[stackPointer];
      case MachineCall(_) =>
      case Jump(nnn) =>
        programCounter := nnn;
      case Call(nnn) =>
        stack[stackPointer] := programCounter;
        stackPointer := stackPointer + 1;
        programCounter := nnn;
      case SetIndex(nnn) =>
        i := nnn;
      case JumpOffset(nnn) =>
        Properties.JumpOffsetMask(v[0], opcode);
        programCounter := JsBits.And(v[0] + opcode, 0x0FFF);
      case Ignored =>
    }

    /** 3XNN, 4XNN, 5XY0, 9XY0, EX9E and EXA1. */
    method ProcessSkip(ins: Instr)
      requires Valid()
      requires IsSkip(ins)
      modifies this
      ensures Valid()
      ensures Snapshot() == ExecuteSkip(old(Snapshot()), ins)
    {
      match ins
      case SkipIfEqual(x, nn) =>
        if v[x] == nn { programCounter := programCounter + 2; }
      case SkipIfNotEqual(x, nn) =>
        if v[x] != nn { programCounter := programCounter + 2; }
      case SkipIfRegistersEqual(x, y) =>
        if v[x] == v[y] { programCounter := programCounter + 2; }
      case SkipIfRegistersDiffer(x, y) =>
        if v[x] != v[y] { programCounter := programCounter + 2; }
      case SkipIfKey(x) =>
        if currentKey == Some(v[x]) { programCounter := programCounter + 1; }
      case SkipIfNotKey(x) =>
        if currentKey != Some(v[x]) { programCounter := programCounter + 1; }
    }

    /** 6XNN, 7XNN, CXNN and 8XY0 to 8XY3. */
    method ProcessRegisterLoad(ins: Instr, random: int)
      requires Valid() && IsRegisterLoad(ins)
      modifies v
      ensures Valid()
      ensures Snapshot() == ExecuteRegisterLoad(old(Snapshot()), ins, random)
    {
      match ins
      case SetRegister(x, nn) =>
        v[x] := nn;
      case AddToRegister(x, nn) =>
        v[x] := v[x] + nn;
      case Random(x, _) =>
        v[x] := random;
      case Copy(x, y) =>
        v[x] := v[y];
      case BitOr(x, y) =>
        v[x] := JsBits.Or(v[x], v[y]);
      case BitAnd(x, y) =>
        v[x] := JsBits.And(v[x], v[y]);
      case BitXor(x, y) =>
        v[x] := JsBits.Xor(v[x], v[y]);
    }

    /** 8XY4 to 8XY7 and 8XYE, with their flag writes in the interpreter's order. */
    method ProcessArithmetic(ins: Instr)
      requires Valid() && IsArithmetic(ins)
      modifies v
      ensures Valid()
      ensures Snapshot() == ExecuteArithmetic(old(Snapshot()), ins)
    {
      if ins.ShiftRight? || ins.ShiftLeft? {
        ProcessShift(ins);
      } else {
        ProcessCarry(ins);
      }
    }

    /** 8XY4, 8XY5 and 8XY7. */
    method ProcessCarry(ins: Instr)
      requires Valid() && (ins.Add? || ins.Subtract? || ins.SubtractReversed?)
      modifies v
      ensures Valid()
      ensures Snapshot() == ExecuteArithmetic(old(Snapshot()), ins)
    {
      match ins
      case Add(x, y) =>
        v[x] := v[x] + v[y];
        if v[x] >= 0x100 {
          v[x] := v[x] - 0x100;
          v[Flag] := 1;
        } else {
          v[Flag] := 0;
        }
      case Subtract(x, y) =>
        v[x] := v[x] - v[y];
        if v[x] < 0 {
          v[x] := v[x] + 0xFF;
          v[Flag] := 0;
        } else {
          v[Flag] := 1;
        }
      case SubtractReversed(x, y) =>
        v[x] := v[y] - v[x];
        if v[x] < 0 {
          v[x] := v[x] + 0xFF;
          v[Flag] := 0;
        } else {
          v[Flag] := 1;
        }
    }

    /** 8XY6 and 8XYE: the bit shifted out goes to VF first. */
    method ProcessShift(ins: Instr)
      requires Valid() && (ins.ShiftRight? || ins.ShiftLeft?)
      modifies v
      ensures Valid()
      ensures Snapshot() == ExecuteArithmetic(old(Snapshot()), ins)
    {
      match ins
      case ShiftRight(x, _) =>
        v[Flag] := JsBits.And(v[x], 0x01);
        v[x] := JsBits.ShiftRight(v[x], 1);
      case ShiftLeft(x, _) =>
        v[Flag] := JsBits.ShiftRight(JsBits.And(v[x], 0x80), 7);
        v[x] := JsBits.ShiftLeft(v[x], 1);
        v[x] := JsBits.And(v[x], 0xFF);
    }

    /** FX07, FX0A, FX15, FX18, FX1E and FX29. */
    method ProcessTimerOrIndex(ins: Instr)
      requires Valid() && IsTimerOrIndex(ins)
      modifies this, v
      ensures Valid()
      ensures Snapshot() == ExecuteTimerOrIndex(old(Snapshot()), ins)
    {
      match ins
      case LoadDelay(x) =>
        v[x] := delayTimer;
      case AwaitKey(_) =>
        isAwaitingInput := true;
      case SetDelay(x) =>
        delayTimer := v[x];
      case SetSound(x) =>
        soundTimer := v[x];
      case AddToIndex(x) =>
        i := i + v[x];
        if i > 0xFFF {
          i := JsBits.And(i, 0xFFF);
          v[Flag] := 1;
        } else {
          v[Flag] := 0;
        }
      case FontCharacter(x) =>
        var character := v[x];
        if character >= 0 && character <= 0xF {
          i := character * GlyphRows;
        }
    }

    /** DXYN: XOR the `n`-row sprite at I onto the display at (x, y), row by row
        and bit by bit. */
    method DrawSprite(x: int, y: int, n: Nibble)
      requires Valid() && SpriteFits(x, y, n)
      modifies graphicsData
      ensures Valid()
      ensures graphicsData[..] == Machine.DrawSprite(old(graphicsData[..]), memory[..], i, x, y, n)
    {
      ghost var screen := graphicsData[..];
      var lastOffset := n - 1;
      var offset := 0;
      DrawNothing(screen, memory[..], i, x, y);
      while offset <= lastOffset
        invariant 0 <= offset <= n
        invariant graphicsData[..] == DrawPartial(screen, memory[..], i, x, y, offset, 0)
      {
        var bit := 0;
        while bit < 8
          invariant 0 <= bit <= 8
          invariant graphicsData[..] == DrawPartial(screen, memory[..], i, x, y, offset, bit)
        {
          var bitValue := SpriteBit(ReadCell(i + offset), bit);
          var p := Pixel(x + bit, y + offset);
          DrawStep(screen, memory[..], i, x, y, n, offset, bit);
          graphicsData[p] := JsBits.Xor(graphicsData[p], bitValue);
          bit := bit + 1;
        }
        DrawRowDone(screen, memory[..], i, x, y, offset);
        offset := offset + 1;
      }
    }

    /** FX33: the decimal digits of V[X] at I, I + 1 and I + 2, each computed
        from the cells already written. */
    method StoreBcd(x: Reg)
      requires Valid() && 0 <= i && i + |BcdDigits(v[x])| <= MemorySize
      modifies memory
      ensures Valid()
      ensures memory[..] == Splice(old(memory[..]), i, BcdDigits(v[x]))
    {
      var value := v[x];
      if value < 10 {
        memory[i] := value;
      } else if value < 100 {
        memory[i] := value / 10;
        memory[i + 1] := value - memory[i] * 10;
      } else {
        memory[i] := value / 100;
        memory[i + 1] := (value - memory[i] * 100) / 10;
        memory[i + 2] := value - memory[i] * 100 - memory[i + 1] * 10;
      }
    }

    /** FX55: V0 to VX into memory from I on. */
    method StoreRegisters(x: Reg)
      requires Valid() && 0 <= i && i + x + 1 <= MemorySize
      modifies memory
      ensures Valid()
      ensures memory[..] == Splice(old(memory[..]), i, v[..x + 1])
    {
      ghost var cells := memory[..];
      var lastVIndex := x;
      var vIndex := 0;
      while vIndex <= lastVIndex
        invariant 0 <= vIndex <= x + 1
        invariant memory[..] == Splice(cells, i, v[..vIndex])
      {
        SpliceExtend(cells, i, v[..vIndex], v[vIndex]);
        assert v[..vIndex + 1] == v[..vIndex] + [v[vIndex]];
        memory[i + vIndex] := v[vIndex];
        vIndex := vIndex + 1;
      }
    }

    /** FX65: V0 to VX from memory from I on. */
    method LoadRegisters(x: Reg)
      requires Valid()
      modifies v
      ensures Valid()
      ensures v[..] == Cells(memory[..], i, x + 1) + old(v[..])[x + 1..]
    {
      ghost var registers := v[..];
      var lastVIndex := x;
      var vIndex := 0;
      while vIndex <= lastVIndex
        invariant 0 <= vIndex <= x + 1
        invariant v[..] == Cells(memory[..], i, vIndex) + registers[vIndex..]
      {
        v[vIndex] := ReadCell(i + vIndex);
        vIndex := vIndex + 1;
      }
    }

    /** `processNextOpcode`: count both timers down, fetch, execute. */
    method ProcessNextOpcode(random: int)
      requires Valid() && RunNextPre(Snapshot())
      modifies this, memory, v, stack, graphicsData
      ensures Valid()
      ensures Snapshot() == RunNext(old(Snapshot()), random)
    {
      ghost var before := Snapshot();
      delayTimer := delayTimer - 1;
      soundTimer := soundTimer - 1;
      assert Snapshot() == CountDown(before);
      var opcode := ReadNextOpcode();
      assert Snapshot() == Advance(CountDown(before)) && opcode == Fetch(before);
      ProcessOpcode(opcode, random);
    }

    /** `tick`: a pressed key ends the wait; then one instruction runs unless the
        interpreter is still waiting. */
    method Tick(random: int)
      requires Valid() && CyclePre(Snapshot())
      modifies this, memory, v, stack, graphicsData
      ensures Valid()
      ensures Snapshot() == Cycle(old(Snapshot()), random)
    {
      if isAwaitingInput && currentKey != None {
        isAwaitingInput := false;
      }
      if !isAwaitingInput {
        ProcessNextOpcode(random);
      }
    }

    /** `keypress`: latch the key. */
    method Keypress(key: int)
      requires Valid()
      modifies this
      ensures memory == old(memory) && v == old(v) && stack == old(stack) && graphicsData == old(graphicsData)
      ensures Valid()
      ensures Snapshot() == old(Snapshot()).(key := Some(key))
    {
      currentKey := Some(key);
    }

    /** `keyup`: release the latch. */
    method Keyup()
      requires Valid()
      modifies this
      ensures memory == old(memory) && v == old(v) && stack == old(stack) && graphicsData == old(graphicsData)
      ensures Valid()
      ensures Snapshot() == old(Snapshot()).(key := None)
    {
      currentKey := None;
    }

    /** `loadProgram`: each word's high byte then its low byte from 0x200 on;
        the program counter goes to 0x200. */
    method LoadProgram(program: seq<int>)
      requires Valid() && ProgramStart + 2 * |program| <= MemorySize
      modifies this, memory
      ensures Valid()
      ensures Snapshot() == Loaded(old(Snapshot()), program)
    {
      StoreProgram(program);
      programCounter := ProgramStart;
    }

    /** The loop of `loadProgram`: each word's high byte, then its low byte,
        from address 0x200 on. */
    method StoreProgram(program: seq<int>)
      requires memory.Length == MemorySize && ProgramStart + 2 * |program| <= MemorySize
      modifies memory
      ensures memory[..] == Splice(old(memory[..]), ProgramStart, ProgramBytes(program))
    {
      ghost var cells := memory[..];
      var memoryPointer := ProgramStart;
      var programIndex := 0;
      while programIndex < |program|
        invariant 0 <= programIndex <= |program|
        invariant memoryPointer == ProgramStart + 2 * programIndex
        invariant memory[..] == Splice(cells, ProgramStart, ProgramBytes(program[..programIndex]))
      {
        var currentInstruction := program[programIndex];
        var highByte := JsBits.ShiftRight(JsBits.And(currentInstruction, 0xFF00), 8);
        var lowByte := JsBits.And(currentInstruction, 0x00FF);
        LoaderMasks(currentInstruction);
        LoadStep(cells, program, programIndex);
        ghost var before := memory[..];
        memory[memoryPointer] := highByte;
        memoryPointer := memoryPointer + 1;
        memory[memoryPointer] := lowByte;
        assert memory[..] == before[memoryPointer - 1 := highByte][memoryPointer := lowByte];
        memoryPointer := memoryPointer + 1;
        programIndex := programIndex + 1;
      }
      assert program[..|program|] == program;
    }
  }

  // ---------------------------------------------------------------------
  // The steps of the loops above

  /** Before the draw loops, the display is as it was. */
  lemma DrawNothing(screen: seq<int>, memory: seq<int>, i: int, x: int, y: int)
    ensures DrawPartial(screen, memory, i, x, y, 0, 0) == screen
  {
  }

  /** One pass of the inner draw loop flips one more pixel. */
  lemma DrawStep(screen: seq<int>, memory: seq<int>, i: int, x: int, y: int, n: int, offset: int, bit: int)
    requires |screen| == Width * Height && n > 0 && SpriteFits(x, y, n)
    requires 0 <= offset < n && 0 <= bit < 8
    ensures 0 <= Pixel(x + bit, y + offset) < |screen|
    ensures DrawPartial(screen, memory, i, x, y, offset, bit)[Pixel(x + bit, y + offset) :=
              JsBits.Xor(screen[Pixel(x + bit, y + offset)], SpriteBit(Cell(memory, i + offset), bit))]
            == DrawPartial(screen, memory, i, x, y, offset, bit + 1)
  {
    PixelCoordinates(x + bit, y + offset);
  }

  /** A finished sprite row is the start of the next one. */
  lemma DrawRowDone(screen: seq<int>, memory: seq<int>, i: int, x: int, y: int, offset: int)
    ensures DrawPartial(screen, memory, i, x, y, offset, 8) == DrawPartial(screen, memory, i, x, y, offset + 1, 0)
  {
  }

  /** Copying one more cell of `source` over a zeroed array. */
  lemma CopyStep(source: seq<int>, k: int, n: int)
    requires 0 <= k < |source| <= n
    ensures (source[..k] + Zeros(n - k))[k := source[k]] == source[..k + 1] + Zeros(n - k - 1)
  {
  }

  /** Writing one more cell extends a splice. */
  lemma SpliceExtend(m: seq<int>, at: int, cells: seq<int>, c: int)
    requires 0 <= at && at + |cells| + 1 <= |m|
    ensures Splice(m, at, cells + [c]) == Splice(m, at, cells)[at + |cells| := c]
  {
  }

  /** The two bytes `loadProgram` stores for a word. */
  lemma LoaderMasks(word: int)
    ensures JsBits.ShiftRight(JsBits.And(word, 0xFF00), 8) == HighByte(word)
    ensures JsBits.And(word, 0x00FF) == NN(word)
  {
    assert JsBits.Pow2(8) == 0x100;
    JsBits.FieldMask(word, 8, 8);
    JsBits.MaskIsModulo(word, 8);
  }

  /** One pass of the `loadProgram` loop stores the two bytes of one more word. */
  lemma LoadStep(m: seq<int>, program: seq<int>, k: int)
    requires 0 <= k < |program| && ProgramStart + 2 * |program| <= |m|
    ensures Splice(m, ProgramStart, ProgramBytes(program[..k + 1]))
            == Splice(m, ProgramStart, ProgramBytes(program[..k]))[ProgramStart + 2 * k := HighByte(program[k])]
                 [ProgramStart + 2 * k + 1 := NN(program[k])]
  {
    assert program[..k + 1][..k] == program[..k];
    SpliceExtend(m, ProgramStart, ProgramBytes(program[..k]), HighByte(program[k]));
    SpliceExtend(m, ProgramStart, ProgramBytes(program[..k]) + [HighByte(program[k])], NN(program[k]));
    assert ProgramBytes(program[..k + 1]) == ProgramBytes(program[..k]) + [HighByte(program[k])] + [NN(program[k])];
  }
}
