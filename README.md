# js-chip8's interpreter, modelled and verified in Dafny

The core of js-chip8 is one JavaScript class, `Chip8` in
`public/javascript/app.js`. It is a CHIP-8 virtual machine with the following parts:

- 4096 memory cells;
- sixteen registers V0 to VF;
- a sixteen-slot call stack with a stack pointer;
- a program counter and an index register I;
- a delay timer and a sound timer;
- a "waiting for a key" flag and the key currently held down;
- a 64 x 32 display.

Its methods work as follows:

- `reset` builds that state, with the hexadecimal font at address 0.
- `loadProgram` copies 16-bit words into memory from 0x200 on, high byte first.
- `readNextOpcode` fetches the big-endian word at the program counter.
- `processOpcode` carries out one of the CHIP-8 instructions.
- `processNextOpcode` counts the timers down and then fetches and executes.
- `tick` is one clock cycle: it ends a wait when a key is down, and runs an instruction unless it is still waiting.
- `keypress` and `keyup` set and clear the key.

The Dafny project has six modules:

- `Wrappers` (wrappers.dfy): `Option`.
- `JsBits` (jsbits.dfy): JavaScript's `&`, `|`, `^`, `<<` and `>>`. They are modelled
  exactly on unbounded integers: the ToInt32 conversion, then the operation on the low
  32 bits. Its lemmas say what these operators compute on the values the interpreter
  handles: masks are remainders, shifted masks are bit fields, `a << 8 | b` builds a
  word, and bytes stay bytes.
- `Opcodes` (opcodes.dfy): the instruction set as a datatype, `Decode` (the dispatch
  of `processOpcode`) and an `Encode` that `Decode` undoes.
- `Machine` (machine.dfy): the interpreter's state as a value (`State`) and pure
  functions for what each instruction, a fetch, `processNextOpcode`, `tick`,
  `loadProgram` and `reset` do to it.
- `Interpreter` (interpreter.dfy): the class `Chip8` itself. Its fields are the
  object's fields, and its arrays are updated in place by methods with the source's
  own loops. Every method's `ensures` ties the new state (`Snapshot()`) to the
  `Machine` function of the old state.
- `Properties` (properties.dfy): what those functions promise. This covers fetch and
  load round trips, the cases of a tick, the timers, subroutine calls, skips, the
  arithmetic on bytes, drawing, binary-coded decimal, and register dumps.

The model follows the code, also where the code departs from the behaviour its own comments describe (the collision flag at app.js:259-261, FX0A's "and then stored in VX" at app.js:312) or from the usual CHIP-8 behaviour:

- **Timers while waiting.** The timers are decremented only inside `processNextOpcode`.
  So a `tick` that is waiting for a key leaves them alone.
- **7XNN.** It adds without wrapping modulo 256.
- **8XY5 and 8XY7.** A negative difference has 0xFF added, not 0x100.
- **EX9E and EXA1.** They move the program counter on by 1 only.
- **FX0A.** It only raises the waiting flag and never stores the key, although its comment (app.js:312) says the key is stored in VX.
- **FX29.** For a value above 0xF it leaves I unchanged instead of failing.
- **BNNN.** It computes `(V0 + opcode) & 0x0FFF`. `Properties.JumpOffsetMask` shows
  that this is V0 + NNN modulo 0x1000.
- **Collision flag.** DXYN sets none, although its comment (app.js:259-261) says VF reports a pixel turned off.
- **Errors.** There is no error outcome: the JavaScript arrays simply grow, or the
  program has already failed (see "Left out").

## Model

| member | source | states |
|---|---|---|
| Interpreter.Chip8.constructor | public/javascript/app.js:9-12 | a new interpreter is in the reset state `Initial()` |
| Interpreter.Chip8.Reset | public/javascript/app.js:14-56 | memory, stack, registers and display become fresh arrays; the state becomes `Initial()`: the font at 0..79, every other cell, register, slot, counter and timer 0, no wait, no key, a blank display |
| Interpreter.Chip8.ResetRegisters | public/javascript/app.js:15-25 | fresh, distinct memory, stack and register arrays of 4096, 16 and 16 zero cells; program counter, stack pointer, I and both timers 0; not waiting; no key |
| Interpreter.Chip8.NewArray | public/javascript/app.js:16-19 | `new Array(n)`: a fresh array of n cells that all read as 0 |
| Interpreter.Chip8.LoadFont | public/javascript/app.js:29-52 | the font loop turns zeroed memory into the 80 glyph bytes followed by zeros |
| Interpreter.Chip8.ResetScreen | public/javascript/app.js:58-71 | a fresh display whose 64 x 32 pixels are all 0; no other field changes |
| Interpreter.Chip8.ReadNextOpcode | public/javascript/app.js:73-83 | returns `memory[pc] << 8 \| memory[pc + 1]` of the old state and moves the program counter on by 2, changing nothing else |
| Interpreter.Chip8.ProcessOpcode | public/javascript/app.js:85-402 | the new state is `Execute` of the old state and the decoded word, for every word the dispatch can meet |
| Interpreter.Chip8.ProcessFlow | public/javascript/app.js:88-124 | 00E0, 00EE, 0NNN, 1NNN, 2NNN, and ANNN and BNNN at lines 239-247, as `ExecuteFlow` says; BNNN is computed from the whole opcode as in the source |
| Interpreter.Chip8.ProcessSkip | public/javascript/app.js:126-145 | 3XNN, 4XNN, 5XY0, and 9XY0, EX9E and EXA1 at lines 232-237 and 290-303, as `ExecuteSkip` says |
| Interpreter.Chip8.ProcessRegisterLoad | public/javascript/app.js:147-182 | 6XNN, 7XNN, 8XY0 to 8XY3, and CXNN at lines 249-252, as `ExecuteRegisterLoad` says |
| Interpreter.Chip8.ProcessArithmetic | public/javascript/app.js:184-228 | 8XY4 to 8XY7 and 8XYE as `ExecuteArithmetic` says |
| Interpreter.Chip8.ProcessCarry | public/javascript/app.js:185-221 | 8XY4, 8XY5 and 8XY7 with their flag writes in the source's order |
| Interpreter.Chip8.ProcessShift | public/javascript/app.js:207-228 | 8XY6 and 8XYE: VF gets the bit shifted out before VX is shifted |
| Interpreter.Chip8.ProcessTimerOrIndex | public/javascript/app.js:307-347 | FX07, FX0A, FX15, FX18, FX1E and FX29 as `ExecuteTimerOrIndex` says |
| Interpreter.Chip8.DrawSprite | public/javascript/app.js:254-288 | after the two loops the display is `Machine.DrawSprite` of the old display: every pixel of the sprite rectangle XOR-ed with its sprite bit |
| Interpreter.Chip8.StoreBcd | public/javascript/app.js:352-378 | memory from I on is overwritten by the cells `BcdDigits(VX)` and nothing else |
| Interpreter.Chip8.StoreRegisters | public/javascript/app.js:381-388 | memory from I on is overwritten by V0..VX and nothing else |
| Interpreter.Chip8.LoadRegisters | public/javascript/app.js:391-398 | V0..VX become the cells from I on; VX+1..VF keep their values |
| Interpreter.Chip8.ProcessNextOpcode | public/javascript/app.js:441-447 | the new state is `RunNext` of the old: timers down by one, fetch, execute |
| Interpreter.Chip8.Tick | public/javascript/app.js:416-431 | the new state is `Cycle` of the old |
| Interpreter.Chip8.Keypress | public/javascript/app.js:433-435 | only the key changes, to the one pressed |
| Interpreter.Chip8.Keyup | public/javascript/app.js:437-439 | only the key changes, to none |
| Interpreter.Chip8.LoadProgram | public/javascript/app.js:449-467 | the new state is `Loaded` of the old: the program's bytes from 0x200 on and the program counter at 0x200 |
| Interpreter.Chip8.StoreProgram | public/javascript/app.js:456-463 | after the loop, memory from 0x200 on holds `ProgramBytes(program)` and every other cell is unchanged |
| Interpreter.LoaderMasks | public/javascript/app.js:459-462 | `(word & 0xFF00) >> 8` and `word & 0x00FF` are the word's high and low bytes, for every integer word |
| Machine.ProgramBytes | public/javascript/app.js:456-463 | two bytes per word: word k's high byte at 2k and its low byte at 2k + 1 |
| Machine.PixelCoordinates | public/javascript/app.js:283 | the flat display's pixel of column c and row r gives back c and r, so it stands for `graphicsData[c][r]` |
| Opcodes.DecodeEncode | public/javascript/app.js:87-400 | decoding the canonical word of every instruction gives that instruction back: the dispatch tells all of them apart |
| Opcodes.DecodeClearWord | public/javascript/app.js:90-93 | 0x00E0 decodes to clear-screen, not to 0NNN |
| Opcodes.DecodeReturnWord | public/javascript/app.js:96-104 | 0x00EE decodes to return, not to 0NNN |
| Opcodes.LowFieldsAreMasks | public/javascript/app.js:160-162 | `op & 0xF`, `op & 0xFF` and `op & 0xFFF` are the fields N, NN and NNN for every integer |
| Opcodes.HighFieldsAreMasks | public/javascript/app.js:87-88 | `op & 0xF000` is the family times 0x1000, and `(op & 0x0F00) >> 8`, `(op & 0x00F0) >> 4` and `(op & 0xFF00) >> 8` are X, Y and the high byte |
| JsBits.MaskIsModulo | public/javascript/app.js:241 | `a & (2^k - 1)` is `a` modulo 2^k for every integer `a` |
| JsBits.FieldMask | public/javascript/app.js:160-161 | `a & ((2^j - 1) << k)` keeps bits k..k+j-1 in place, and `>> k` reads them as a number |
| JsBits.MaskedBit | public/javascript/app.js:279 | `(a & 2^k) >> k` is bit k of `a`, a 0 or a 1 |
| JsBits.ByteOperators | public/javascript/app.js:76 | `&`, `\|` and `^` keep bytes bytes, and `a << 8 \| b` is `a * 256 + b` |
| JsBits.XorOnBits | public/javascript/app.js:283 | on 0 and 1, `p ^ b` flips `p` exactly when `b` is 1 |
| Properties.FetchIsBigEndian | public/javascript/app.js:76 | with bytes at pc and pc + 1, the fetched word is the first times 256 plus the second, in 0..0xFFFF |
| Properties.LoadPlacesWords | public/javascript/app.js:449-467 | loading puts word k's high byte at 0x200 + 2k and its low byte at 0x200 + 2k + 1, keeps every other cell, and changes only memory and the program counter |
| Properties.WordBytes | public/javascript/app.js:459-462 | a 16-bit word is its high byte times 256 plus its low byte |
| Properties.LoadThenFetch | public/spec/spec.js:62-95 | after loading 16-bit words, fetching at 0x200 + 2k gives word k back |
| Properties.TickCases | public/javascript/app.js:416-431 | a waiting tick with no key changes nothing; a waiting tick with a key clears the wait and runs one instruction; an ordinary tick runs one instruction |
| Properties.ExecuteTimers | public/javascript/app.js:320-327 | no instruction but FX15 and FX18 changes a timer, and those set it to VX |
| Properties.TimersCountDown | public/javascript/app.js:441-447 | after one step both timers are one lower, with no floor, unless FX15 or FX18 set them; FX07 reads the lowered delay timer |
| Properties.AwaitKeyStalls | public/spec/spec.js:738-758 | FX0A raises the waiting flag; further ticks without a key change nothing, timers included; a key press ends the wait without writing VX |
| Properties.CallStep | public/javascript/app.js:115-124 | 2NNN stores the return address in the free slot, bumps the stack pointer and jumps to NNN |
| Properties.ReturnStep | public/javascript/app.js:96-104 | 00EE lowers the stack pointer and jumps to the address saved there |
| Properties.OthersKeepStack | public/javascript/app.js:85-402 | no instruction but 2NNN and 00EE changes the stack pointer or the stack |
| Properties.StepKeepsStack | public/javascript/app.js:441-447 | a `processNextOpcode` that fetches neither 2NNN nor 00EE leaves the stack pointer and the stack as they were |
| Properties.CallThenReturn | public/javascript/app.js:96-124 | a call leaves the stack as a later state has it; when that state fetches 00EE, however many steps after the call, the return goes to the instruction after the call and restores the stack pointer |
| Properties.SubroutineExample | public/spec/spec.js:107-160 | call 0x123 from address 0, clear the display there, return: the program counter is 2 and the stack pointer as before |
| Properties.SkipStep | public/javascript/app.js:126-145 | 3XNN, 4XNN, 5XY0 and 9XY0 move the program counter 4 instead of 2 when their condition holds; EX9E and EXA1 (lines 290-303) move it 3 instead of 2; nothing else but the timers changes |
| Properties.AddBytes | public/javascript/app.js:185-193 | on bytes, 8XY4 leaves the sum modulo 256 in VX and the carry in VF and touches no other register |
| Properties.SubtractBytes | public/javascript/app.js:196-204 | on bytes, 8XY5 sets VF exactly when there is no borrow; VX is a byte, one below the 8-bit wrap-around when it borrowed |
| Properties.SubtractReversedBytes | public/javascript/app.js:213-221 | the same for 8XY7 with the operands reversed |
| Properties.ShiftBits | public/javascript/app.js:207-228 | on a byte, `a & 1`, `a >> 1`, `(a & 0x80) >> 7` and `(a << 1) & 0xFF` are the low bit, the half, the top bit and the doubled byte |
| Properties.ShiftRightByte | public/javascript/app.js:207-210 | on a byte, 8XY6 leaves the half in VX and the low bit in VF |
| Properties.ShiftLeftByte | public/javascript/app.js:224-228 | on a byte, 8XYE leaves the doubled value modulo 256 in VX and bit 7 in VF |
| Properties.BitwiseBytes | public/javascript/app.js:170-182 | 8XY1, 8XY2 and 8XY3 on bytes give a byte in VX and change nothing else |
| Properties.AddToRegisterNoWrap | public/javascript/app.js:152-155 | 7XNN adds NN without wrapping and leaves VF alone, so a register can leave the byte range |
| Properties.IndexMask | public/javascript/app.js:332-334 | `i & 0xFFF` is `i` modulo 0x1000 |
| Properties.AddToIndexWraps | public/javascript/app.js:330-338 | FX1E: a sum past 0xFFF is taken modulo 0x1000 and VF is 1; otherwise I is the sum and VF is 0 |
| Properties.JumpOffsetMask | public/javascript/app.js:244-247 | `v[0] + opcode & 0x0FFF` is V0 + NNN modulo 0x1000 |
| Properties.FontCharacterGlyph | public/javascript/app.js:342-347 | for a digit 0..F in VX, I points at its five glyph bytes in the font; for any other value nothing changes |
| Properties.InitialFont | public/javascript/app.js:29-52 | after a reset the first 80 cells are the font and all the others are 0 |
| Properties.SpriteBitValue | public/javascript/app.js:279 | the sprite bit read for column `bit` is bit 7 - bit of the row byte, most significant on the left |
| Properties.SpriteBitRange | public/javascript/app.js:279 | every sprite bit is 0 or 1, whatever the cell holds |
| Properties.XorTwice | public/javascript/app.js:283 | XOR-ing a pixel with the same bit twice gives it back |
| Properties.DrawFrame | public/javascript/app.js:254-288 | drawing keeps a bitmap a bitmap and leaves every pixel outside the sprite's rectangle as it was |
| Properties.DrawAt | public/javascript/app.js:273-285 | pixel (x + b, y + k) becomes its old value XOR bit b of sprite row k |
| Properties.DrawFlipsSpriteBits | public/spec/spec.js:994-1099 | inside the rectangle a pixel is flipped exactly when its sprite bit is set |
| Properties.DrawTwiceRestores | public/spec/spec.js:1067-1099 | drawing the same sprite twice restores the display |
| Properties.DrawTwiceState | public/javascript/app.js:254-288 | DXYN changes only the display (no collision flag), so executing it twice gives back the starting state |
| Properties.OthersKeepScreen | public/javascript/app.js:85-402 | no instruction but 00E0 and DXYN changes the display |
| Properties.InitialBitmap | public/javascript/app.js:58-71 | after a reset every pixel is 0 or 1 |
| Properties.ExecuteKeepsBitmap | public/javascript/app.js:88-93 | every instruction keeps every pixel 0 or 1: 00E0 writes zeros, DXYN XORs 0/1 pixels with 0/1 bits (lines 254-288), and the rest leave the display alone |
| Properties.StepsKeepBitmap | public/javascript/app.js:416-467 | `processNextOpcode`, `tick`, `keypress`, `keyup` and `loadProgram` keep every pixel 0 or 1, so the display of every state reached from a reset is a bitmap |
| Properties.ClearThenDraw | public/spec/spec.js:1100-1128 | 00E0 blanks every pixel and changes nothing else; a sprite drawn next shows exactly its bits |
| Properties.BcdDigitsAreDecimal | public/javascript/app.js:352-378 | for a value below 1000 the FX33 cells are its decimal digits, most significant first, each 0..9, with no leading zero, one, two or three of them |
| Properties.BcdExamples | public/spec/spec.js:891-993 | 254, 15, 7 and 0 give [2, 5, 4], [1, 5], [7] and [0] |
| Properties.StoreBcdCells | public/javascript/app.js:352-378 | FX33 writes its digits from I on and changes no other cell or field |
| Properties.StoreRegistersCells | public/javascript/app.js:381-388 | FX55 writes V0..VX at I..I+X and changes no other cell or field |
| Properties.LoadRegistersCells | public/javascript/app.js:391-398 | FX65 sets V0..VX to the cells at I..I+X, keeps VX+1..VF and changes no other field |
| Properties.StoreThenLoad | public/javascript/app.js:381-398 | FX65 right after FX55 with the same X changes nothing |
| Properties.LoadThenStore | public/javascript/app.js:381-398 | FX55 right after FX65 with the same X changes nothing |

## Left out

- `start` (app.js:404-414) is left out. It reschedules itself with `setTimeout`, which is timing and I/O.
- `drawScreenCallback` is left out. The constructor's argument and `tick`'s call to it are output to the page.
- The `_bind` helper and the rebinding of `start` in `reset` are left out. They are JavaScript method binding, not machine state.
- CXNN's `Math.round(Math.random() * 0xFF)` is a `random` parameter of `ProcessOpcode`, `ProcessNextOpcode` and `Tick`. Its range is not constrained. As in the source, NN is ignored.
- JavaScript numbers are doubles. The model uses unbounded integers, which agree while every value stays within 2^53 of 0. A register can leave that range quickly. The timers have no floor, so FX07 can put -1 in a register, and 8XX4 then doubles it on every step. A register above 0xFF also grows under 8XX4, to 2v - 256, and 7XNN adds without wrapping.
- `new Array(n)` leaves holes in memory, the registers and the stack. The model gives every hole the value 0, and reads past the end of memory as 0 too. For the bitwise operators (the fetch, 8XY1 to 8XY3, 8XY6, 8XYE, the sprite bits) this is exact, since JavaScript turns `undefined` into 0 there. Where the source uses a hole unconverted, the model differs:
  - `undefined` is unequal to every number under `===` and `!==`, so 3XNN, 4XNN, 5XY0, 9XY0, EX9E and EXA1 may skip where the model does not, or the reverse;
  - arithmetic on it gives NaN: 7XNN, 8XY4, 8XY5, 8XY7 and FX1E leave NaN in VX or I, and FX33 writes three NaN cells where the model writes one 0 cell;
  - BNNN computes `undefined + opcode & 0x0FFF`, which is 0, so the source jumps to 0 where the model jumps to NNN;
  - FX29 compares `undefined >= 0`, which is false, so the source leaves I unchanged where the model sets it to 0;
  - FX15 and FX18 set a timer to `undefined`, which the next decrement turns into NaN;
  - DXYN with a hole in VX throws a TypeError (there is no column `NaN`) where the model draws at column 0, and with a hole in VY it writes a stray `NaN` property where the model draws from row 0;
  - 8XY0, FX55 and FX65 copy holes on, and FX65 loads every memory cell that neither the font nor a program wrote as a hole.
  A program that reads no register and no memory cell before something has written it behaves the same in both.
- `Interpreter.Chip8.ProcessOpcode`, `ProcessNextOpcode` and `Tick` require `CanExecute`: a return needs a saved address, a call a free slot, a draw a sprite rectangle on the 64 x 32 display, and FX33 and FX55 cells inside memory. Without it, the source grows its arrays (call, FX33, FX55), or reads slot -1 (return). A draw whose rows run past row 31, or whose VY is negative, throws nothing while its columns exist: the source adds cells past the end of a column array, or a negative-index property. A draw that runs past column 63 flips the first sprite row's pixels up to column 63 and then throws a TypeError on the missing column; one that starts left of column 0 throws at its first pixel. The fixed-size arrays here do not model that growth or failure.
- `Interpreter.Chip8.LoadProgram` requires the program to fit below 0x1000, for the same reason.
- The display is one flat array of 64 x 32 pixels, column by column. `Machine.PixelCoordinates` shows that it is `graphicsData[column][row]`. The array of column arrays itself is not modelled.
- `Opcodes.DecodeEncode` covers every instruction but `Ignored`. `Ignored` stands for a whole class of words with no handler (family 8 or F with an unknown low part, family E other than 9E and A1) and has no canonical word.
- `Interpreter.Chip8.Reset` makes its five counter and two flag assignments before it allocates the arrays. `reset` interleaves them. None of them reads another, so the resulting state is the same.
