/** The CHIP-8 instruction set as the interpreter's `processOpcode` dispatches it:
    a 16-bit word classified by its high nibble, with a second discrimination on
    the low nibble (family 8) or the low byte (families 0, E and F). */
module Opcodes {
  import JsBits

  type Reg = r: int | 0 <= r < 0x10
  type Nibble = n: int | 0 <= n < 0x10
  type Byte = b: int | 0 <= b < 0x100
  type Address = a: int | 0 <= a < 0x1000

  datatype Instr =
    | ClearScreen                       // 00E0
    | Return                            // 00EE
    | MachineCall(nnn: Address)         // 0NNN, any other 0-family word: does nothing
    | Jump(nnn: Address)                // 1NNN
    | Call(nnn: Address)                // 2NNN
    | SkipIfEqual(x: Reg, nn: Byte)     // 3XNN
    | SkipIfNotEqual(x: Reg, nn: Byte)  // 4XNN
    | SkipIfRegistersEqual(x: Reg, y: Reg)   // 5XY?, the low nibble is not examined
    | SetRegister(x: Reg, nn: Byte)     // 6XNN
    | AddToRegister(x: Reg, nn: Byte)   // 7XNN
    | Copy(x: Reg, y: Reg)              // 8XY0
    | BitOr(x: Reg, y: Reg)             // 8XY1
    | BitAnd(x: Reg, y: Reg)            // 8XY2
    | BitXor(x: Reg, y: Reg)            // 8XY3
    | Add(x: Reg, y: Reg)               // 8XY4
    | Subtract(x: Reg, y: Reg)          // 8XY5
    | ShiftRight(x: Reg, y: Reg)        // 8XY6
    | SubtractReversed(x: Reg, y: Reg)  // 8XY7
    | ShiftLeft(x: Reg, y: Reg)         // 8XYE
    | SkipIfRegistersDiffer(x: Reg, y: Reg)  // 9XY?, the low nibble is not examined
    | SetIndex(nnn: Address)            // ANNN
    | JumpOffset(nnn: Address)          // BNNN
    | Random(x: Reg, nn: Byte)          // CXNN
    | Draw(x: Reg, y: Reg, n: Nibble)   // DXYN
    | SkipIfKey(x: Reg)                 // EX9E
    | SkipIfNotKey(x: Reg)              // EXA1
    | LoadDelay(x: Reg)                 // FX07
    | AwaitKey(x: Reg)                  // FX0A
    | SetDelay(x: Reg)                  // FX15
    | SetSound(x: Reg)                  // FX18
    | AddToIndex(x: Reg)                // FX1E
    | FontCharacter(x: Reg)             // FX29
    | StoreBcd(x: Reg)                  // FX33
    | StoreRegisters(x: Reg)            // FX55
    | LoadRegisters(x: Reg)             // FX65
    | Ignored                           // a word of family 8, E or F that no handler matches

  /* The operand fields.  app.js extracts them with masks and shifts
     (`(op & 0xF000)`, `(op & 0x0F00) >> 8`, `(op & 0x00F0) >> 4`, `op & 0x000F`,
     `op & 0x00FF`, `op & 0x0FFF`); on two's-complement integers these are the
     remainders and quotients below, whatever the sign or size of `op`. */

  function Family(op: int): Nibble { (op / 0x1000) % 0x10 }
  function X(op: int): Reg { (op / 0x100) % 0x10 }
  function Y(op: int): Reg { (op / 0x10) % 0x10 }
  function N(op: int): Nibble { op % 0x10 }
  function NN(op: int): Byte { op % 0x100 }
  function NNN(op: int): Address { op % 0x1000 }

  /** `(word & 0xFF00) >> 8`, the byte the loader stores first. */
  function HighByte(word: int): Byte { (word / 0x100) % 0x100 }

  /** The low fields are the JavaScript masks of app.js. */
  lemma LowFieldsAreMasks(op: int)
    ensures N(op) == JsBits.And(op, 0xF)
    ensures NN(op) == JsBits.And(op, 0xFF)
    ensures NNN(op) == JsBits.And(op, 0xFFF)
  {
    assert JsBits.Pow2(4) == 0x10 && JsBits.Pow2(8) == 0x100 && JsBits.Pow2(12) == 0x1000;
    JsBits.MaskIsModulo(op, 4);
    JsBits.MaskIsModulo(op, 8);
    JsBits.MaskIsModulo(op, 12);
  }

  /** The high fields and the loader's high byte are the JavaScript masks and
      shifts of app.js too. */
  lemma HighFieldsAreMasks(op: int)
    ensures JsBits.And(op, 0xF000) == Family(op) * 0x1000
    ensures X(op) == JsBits.ShiftRight(JsBits.And(op, 0x0F00), 8)
    ensures Y(op) == JsBits.ShiftRight(JsBits.And(op, 0x00F0), 4)
    ensures HighByte(op) == JsBits.ShiftRight(JsBits.And(op, 0xFF00), 8)
  {
    assert JsBits.Pow2(4) == 0x10 && JsBits.Pow2(8) == 0x100 && JsBits.Pow2(12) == 0x1000;
    JsBits.FieldMask(op, 12, 4);
    JsBits.FieldMask(op, 8, 4);
    JsBits.FieldMask(op, 4, 4);
    JsBits.FieldMask(op, 8, 8);
  }

  /** The dispatch of `processOpcode`. */
  function Decode(op: int): Instr
  {
    var x, y, nn, nnn := X(op), Y(op), NN(op), NNN(op);
    match Family(op)
    case 0x0 =>
      if op == 0x00E0 then ClearScreen
      else if op == 0x00EE then Return
      else MachineCall(nnn)
    case 0x1 => Jump(nnn)
    case 0x2 => Call(nnn)
    case 0x3 => SkipIfEqual(x, nn)
    case 0x4 => SkipIfNotEqual(x, nn)
    case 0x5 => SkipIfRegistersEqual(x, y)
    case 0x6 => SetRegister(x, nn)
    case 0x7 => AddToRegister(x, nn)
    case 0x8 => DecodeArithmetic(x, y, N(op))
    case 0x9 => SkipIfRegistersDiffer(x, y)
    case 0xA => SetIndex(nnn)
    case 0xB => JumpOffset(nnn)
    case 0xC => Random(x, nn)
    case 0xD => Draw(x, y, N(op))
    case 0xE =>
      if nn == 0x9E then SkipIfKey(x)
      else if nn == 0xA1 then SkipIfNotKey(x)
      else Ignored
    case _ => DecodeMisc(x, nn)
  }

  /** Family 8, told apart by the low nibble. */
  function DecodeArithmetic(x: Reg, y: Reg, n: Nibble): Instr
  {
    match n
    case 0x0 => Copy(x, y)
    case 0x1 => BitOr(x, y)
    case 0x2 => BitAnd(x, y)
    case 0x3 => BitXor(x, y)
    case 0x4 => Add(x, y)
    case 0x5 => Subtract(x, y)
    case 0x6 => ShiftRight(x, y)
    case 0x7 => SubtractReversed(x, y)
    case 0xE => ShiftLeft(x, y)
    case _ => Ignored
  }

  /** Family F, told apart by the low byte. */
  function DecodeMisc(x: Reg, nn: Byte): Instr
  {
    match nn
    case 0x07 => LoadDelay(x)
    case 0x0A => AwaitKey(x)
    case 0x15 => SetDelay(x)
    case 0x18 => SetSound(x)
    case 0x1E => AddToIndex(x)
    case 0x29 => FontCharacter(x)
    case 0x33 => StoreBcd(x)
    case 0x55 => StoreRegisters(x)
    case 0x65 => LoadRegisters(x)
    case _ => Ignored
  }

  /** The word with the nibbles `h`, `x`, `y` and `n`, most significant first. */
  function Nibbles(h: Nibble, x: Nibble, y: Nibble, n: Nibble): int
  {
    h * 0x1000 + x * 0x100 + y * 0x10 + n
  }

  /** The nibbles of the canonical word of each instruction, most significant first. */
  function Fields(ins: Instr): (Nibble, Nibble, Nibble, Nibble)
  {
    match ins
    case ClearScreen => (0x0, 0x0, 0xE, 0x0)
    case Return => (0x0, 0x0, 0xE, 0xE)
    case MachineCall(nnn) => (0x0, nnn / 0x100, (nnn % 0x100) / 0x10, (nnn % 0x100) % 0x10)
    case Jump(nnn) => (0x1, nnn / 0x100, (nnn % 0x100) / 0x10, (nnn % 0x100) % 0x10)
    case Call(nnn) => (0x2, nnn / 0x100, (nnn % 0x100) / 0x10, (nnn % 0x100) % 0x10)
    case SkipIfEqual(x, nn) => (0x3, x, nn / 0x10, nn % 0x10)
    case SkipIfNotEqual(x, nn) => (0x4, x, nn / 0x10, nn % 0x10)
    case SkipIfRegistersEqual(x, y) => (0x5, x, y, 0x0)
    case SetRegister(x, nn) => (0x6, x, nn / 0x10, nn % 0x10)
    case AddToRegister(x, nn) => (0x7, x, nn / 0x10, nn % 0x10)
    case Copy(x, y) => (0x8, x, y, 0x0)
    case BitOr(x, y) => (0x8, x, y, 0x1)
    case BitAnd(x, y) => (0x8, x, y, 0x2)
    case BitXor(x, y) => (0x8, x, y, 0x3)
    case Add(x, y) => (0x8, x, y, 0x4)
    case Subtract(x, y) => (0x8, x, y, 0x5)
    case ShiftRight(x, y) => (0x8, x, y, 0x6)
    case SubtractReversed(x, y) => (0x8, x, y, 0x7)
    case ShiftLeft(x, y) => (0x8, x, y, 0xE)
    case SkipIfRegistersDiffer(x, y) => (0x9, x, y, 0x0)
    case SetIndex(nnn) => (0xA, nnn / 0x100, (nnn % 0x100) / 0x10, (nnn % 0x100) % 0x10)
    case JumpOffset(nnn) => (0xB, nnn / 0x100, (nnn % 0x100) / 0x10, (nnn % 0x100) % 0x10)
    case Random(x, nn) => (0xC, x, nn / 0x10, nn % 0x10)
    case Draw(x, y, n) => (0xD, x, y, n)
    case SkipIfKey(x) => (0xE, x, 0x9, 0xE)
    case SkipIfNotKey(x) => (0xE, x, 0xA, 0x1)
    case LoadDelay(x) => (0xF, x, 0x0, 0x7)
    case AwaitKey(x) => (0xF, x, 0x0, 0xA)
    case SetDelay(x) => (0xF, x, 0x1, 0x5)
    case SetSound(x) => (0xF, x, 0x1, 0x8)
    case AddToIndex(x) => (0xF, x, 0x1, 0xE)
    case FontCharacter(x) => (0xF, x, 0x2, 0x9)
    case StoreBcd(x) => (0xF, x, 0x3, 0x3)
    case StoreRegisters(x) => (0xF, x, 0x5, 0x5)
    case LoadRegisters(x) => (0xF, x, 0x6, 0x5)
    case Ignored => (0xE, 0x0, 0x0, 0x0)
  }

  /** The assembler's view of the table: the canonical word of each instruction. */
  function Encode(ins: Instr): (op: int)
    ensures 0 <= op < 0x10000
  {
    var f := Fields(ins);
    Nibbles(f.0, f.1, f.2, f.3)
  }

  /** Every instruction the interpreter carries out, except the two 0NNN words
      that 00E0 and 00EE shadow.  `Ignored` stands for a whole class of words and
      has no canonical word of its own. */
  predicate Encodable(ins: Instr)
  {
    !ins.Ignored? && (ins.MachineCall? ==> ins.nnn != 0xE0 && ins.nnn != 0xEE)
  }

  /** The fields of a word built from its nibbles are those nibbles. */
  lemma NibbleFields(h: Nibble, x: Nibble, y: Nibble, n: Nibble)
    ensures Family(Nibbles(h, x, y, n)) == h && X(Nibbles(h, x, y, n)) == x
    ensures Y(Nibbles(h, x, y, n)) == y && N(Nibbles(h, x, y, n)) == n
    ensures NN(Nibbles(h, x, y, n)) == y * 0x10 + n
    ensures NNN(Nibbles(h, x, y, n)) == x * 0x100 + y * 0x10 + n
  {
    var op := Nibbles(h, x, y, n);
    JsBits.DivModUnique(op, 0x1000, h, x * 0x100 + y * 0x10 + n);
    JsBits.DivModUnique(op, 0x100, h * 0x10 + x, y * 0x10 + n);
    JsBits.DivModUnique(op, 0x10, h * 0x100 + x * 0x10 + y, n);
    JsBits.DivModUnique(h * 0x10 + x, 0x10, h, x);
    JsBits.DivModUnique(h * 0x100 + x * 0x10 + y, 0x10, h * 0x10 + x, y);
  }

  /** Decoding undoes encoding: the decoder tells every instruction apart. */
  lemma DecodeEncode(ins: Instr)
    requires Encodable(ins)
    ensures Decode(Encode(ins)) == ins
  {
    if ins.SkipIfEqual? || ins.SkipIfNotEqual? || ins.SkipIfRegistersEqual? || ins.SetRegister? || ins.AddToRegister? || ins.SkipIfRegistersDiffer? || ins.Random? || ins.Draw? || ins.SkipIfKey? || ins.SkipIfNotKey? {
      DecodeEncodeOperands(ins);
    } else if ins.Copy? || ins.BitOr? || ins.BitAnd? || ins.BitXor? || ins.Add? || ins.Subtract? || ins.ShiftRight? || ins.SubtractReversed? || ins.ShiftLeft? {
      DecodeEncodeArithmetic(ins);
    } else if ins.LoadDelay? || ins.AwaitKey? || ins.SetDelay? || ins.SetSound? || ins.AddToIndex? || ins.FontCharacter? || ins.StoreBcd? || ins.StoreRegisters? || ins.LoadRegisters? {
      DecodeEncodeMisc(ins);
    } else if ins.ClearScreen? {
      assert Encode(ins) == 0x00E0;
      DecodeClearWord();
    } else if ins.Return? {
      assert Encode(ins) == 0x00EE;
      DecodeReturnWord();
    } else {
      DecodeEncodeAddresses(ins);
    }
  }

  /** 00E0 clears the screen. */
  lemma DecodeClearWord()
    ensures Decode(0x00E0) == ClearScreen
  {
  }

  /** 00EE returns from a subroutine. */
  lemma DecodeReturnWord()
    ensures Decode(0x00EE) == Return
  {
  }

  /** The round trip for 0NNN, 1NNN, 2NNN, ANNN and BNNN. */
  lemma DecodeEncodeAddresses(ins: Instr)
    requires Encodable(ins)
    requires ins.MachineCall? || ins.Jump? || ins.Call? || ins.SetIndex? || ins.JumpOffset?
    ensures Decode(Encode(ins)) == ins
  {
    var f := Fields(ins);
    NibbleFields(f.0, f.1, f.2, f.3);
    AddressNibbles(ins.nnn);
  }

  /** An address is the sum of its three nibbles' weights. */
  lemma AddressNibbles(nnn: Address)
    ensures nnn == (nnn / 0x100) * 0x100 + ((nnn % 0x100) / 0x10) * 0x10 + (nnn % 0x100) % 0x10
  {
    var low := nnn % 0x100;
    assert nnn == (nnn / 0x100) * 0x100 + low;
    assert low == (low / 0x10) * 0x10 + low % 0x10;
  }

  /** The round trip for 3XNN to 7XNN, 9XY0, CXNN, DXYN, EX9E and EXA1. */
  lemma DecodeEncodeOperands(ins: Instr)
    requires ins.SkipIfEqual? || ins.SkipIfNotEqual? || ins.SkipIfRegistersEqual? || ins.SetRegister? || ins.AddToRegister? || ins.SkipIfRegistersDiffer? || ins.Random? || ins.Draw? || ins.SkipIfKey? || ins.SkipIfNotKey?
    ensures Decode(Encode(ins)) == ins
  {
    var f := Fields(ins);
    NibbleFields(f.0, f.1, f.2, f.3);
  }

  /** The round trip for family 8. */
  lemma DecodeEncodeArithmetic(ins: Instr)
    requires ins.Copy? || ins.BitOr? || ins.BitAnd? || ins.BitXor? || ins.Add? || ins.Subtract? || ins.ShiftRight? || ins.SubtractReversed? || ins.ShiftLeft?
    ensures Decode(Encode(ins)) == ins
  {
    var f := Fields(ins);
    NibbleFields(f.0, f.1, f.2, f.3);
  }

  /** The round trip for family F. */
  lemma DecodeEncodeMisc(ins: Instr)
    requires ins.LoadDelay? || ins.AwaitKey? || ins.SetDelay? || ins.SetSound? || ins.AddToIndex? || ins.FontCharacter? || ins.StoreBcd? || ins.StoreRegisters? || ins.LoadRegisters?
    ensures Decode(Encode(ins)) == ins
  {
    var f := Fields(ins);
    NibbleFields(f.0, f.1, f.2, f.3);
  }
}
