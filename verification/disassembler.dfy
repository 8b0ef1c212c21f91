/** `disassemble` of commodore/js/utilsc8dd.js: a two-pass listing of 6502 machine code.
    The first pass collects the addresses that branches, jumps and calls lead to; the
    second lists one instruction per line, with a label column for the collected ones. */
module Disassembler {
  import opened Common
  import opened NumText

  // ---------------------------------------------------------------------------------------
  // The opcode map

  /** The addressing modes as `steptab` names them. */
  datatype Mode = Imp | Acc | Imm | Abs | Abx | Aby | Zpg | Zpx | Zpy | Ind | Inx | Iny | Rel

  /** The documented 6502 mnemonics, and the empty name of an undocumented opcode. */
  datatype Mnemonic =
    ADC | AND | ASL | BCC | BCS | BEQ | BIT | BMI | BNE | BPL | BRK | BVC | BVS | CLC | CLD |
    CLI | CLV | CMP | CPX | CPY | DEC | DEX | DEY | EOR | INC | INX | INY | JMP | JSR | LDA |
    LDX | LDY | LSR | NOP | ORA | PHA | PHP | PLA | PLP | ROL | ROR | RTI | RTS | SBC | SEC |
    SED | SEI | STA | STX | STY | TAX | TAY | TSX | TXA | TXS | TYA | Undocumented

  /** The mnemonic as the listing prints it. */
  function Text(m: Mnemonic): (t: string)
    ensures t == "" <==> m == Undocumented
  {
    match m
    case ADC => "ADC"
    case AND => "AND"
    case ASL => "ASL"
    case BCC => "BCC"
    case BCS => "BCS"
    case BEQ => "BEQ"
    case BIT => "BIT"
    case BMI => "BMI"
    case BNE => "BNE"
    case BPL => "BPL"
    case BRK => "BRK"
    case BVC => "BVC"
    case BVS => "BVS"
    case CLC => "CLC"
    case CLD => "CLD"
    case CLI => "CLI"
    case CLV => "CLV"
    case CMP => "CMP"
    case CPX => "CPX"
    case CPY => "CPY"
    case DEC => "DEC"
    case DEX => "DEX"
    case DEY => "DEY"
    case EOR => "EOR"
    case INC => "INC"
    case INX => "INX"
    case INY => "INY"
    case JMP => "JMP"
    case JSR => "JSR"
    case LDA => "LDA"
    case LDX => "LDX"
    case LDY => "LDY"
    case LSR => "LSR"
    case NOP => "NOP"
    case ORA => "ORA"
    case PHA => "PHA"
    case PHP => "PHP"
    case PLA => "PLA"
    case PLP => "PLP"
    case ROL => "ROL"
    case ROR => "ROR"
    case RTI => "RTI"
    case RTS => "RTS"
    case SBC => "SBC"
    case SEC => "SEC"
    case SED => "SED"
    case SEI => "SEI"
    case STA => "STA"
    case STX => "STX"
    case STY => "STY"
    case TAX => "TAX"
    case TAY => "TAY"
    case TSX => "TSX"
    case TXA => "TXA"
    case TXS => "TXS"
    case TYA => "TYA"
    case Undocumented => ""
  }

  /** An entry of `opctab`: the mnemonic and the addressing mode. */
  datatype Op = Op(name: Mnemonic, mode: Mode)

  const Unmapped: Op := Op(Undocumented, Imp)

  /** `steptab`: the length of an instruction in each mode. */
  function Step(m: Mode): (n: nat)
    ensures 1 <= n <= 3
  {
    match m
    case Imp | Acc => 1
    case Imm | Zpg | Zpx | Zpy | Inx | Iny | Rel => 2
    case Abs | Abx | Aby | Ind => 3
  }

  /** `opctab`: the entry of each opcode, by its high and low nibble, four entries to a line
      as in the source table. An opcode without a mnemonic is the one-byte implied entry. */
  function Opcode(b: byte): (op: Op)
    ensures op.name == Undocumented ==> op == Unmapped
  {
    var hi, lo := b / 16, b % 16;
    match hi
    case 0x0 =>
      match lo {
      case 0x0 => Op(BRK, Imp)    case 0x1 => Op(ORA, Inx)    case 0x2 => Unmapped        case 0x3 => Unmapped
      case 0x4 => Unmapped        case 0x5 => Op(ORA, Zpg)    case 0x6 => Op(ASL, Zpg)    case 0x7 => Unmapped
      case 0x8 => Op(PHP, Imp)    case 0x9 => Op(ORA, Imm)    case 0xA => Op(ASL, Acc)    case 0xB => Unmapped
      case 0xC => Unmapped        case 0xD => Op(ORA, Abs)    case 0xE => Op(ASL, Abs)    case _ => Unmapped
      }
    case 0x1 =>
      match lo {
      case 0x0 => Op(BPL, Rel)    case 0x1 => Op(ORA, Iny)    case 0x2 => Unmapped        case 0x3 => Unmapped
      case 0x4 => Unmapped        case 0x5 => Op(ORA, Zpx)    case 0x6 => Op(ASL, Zpx)    case 0x7 => Unmapped
      case 0x8 => Op(CLC, Imp)    case 0x9 => Op(ORA, Aby)    case 0xA => Unmapped        case 0xB => Unmapped
      case 0xC => Unmapped        case 0xD => Op(ORA, Abx)    case 0xE => Op(ASL, Abx)    case _ => Unmapped
      }
    case 0x2 =>
      match lo {
      case 0x0 => Op(JSR, Abs)    case 0x1 => Op(AND, Inx)    case 0x2 => Unmapped        case 0x3 => Unmapped
      case 0x4 => Op(BIT, Zpg)    case 0x5 => Op(AND, Zpg)    case 0x6 => Op(ROL, Zpg)    case 0x7 => Unmapped
      case 0x8 => Op(PLP, Imp)    case 0x9 => Op(AND, Imm)    case 0xA => Op(ROL, Acc)    case 0xB => Unmapped
      case 0xC => Op(BIT, Abs)    case 0xD => Op(AND, Abs)    case 0xE => Op(ROL, Abs)    case _ => Unmapped
      }
    case 0x3 =>
      match lo {
      case 0x0 => Op(BMI, Rel)    case 0x1 => Op(AND, Iny)    case 0x2 => Unmapped        case 0x3 => Unmapped
      case 0x4 => Unmapped        case 0x5 => Op(AND, Zpx)    case 0x6 => Op(ROL, Zpx)    case 0x7 => Unmapped
      case 0x8 => Op(SEC, Imp)    case 0x9 => Op(AND, Aby)    case 0xA => Unmapped        case 0xB => Unmapped
      case 0xC => Unmapped        case 0xD => Op(AND, Abx)    case 0xE => Op(ROL, Abx)    case _ => Unmapped
      }
    case 0x4 =>
      match lo {
      case 0x0 => Op(RTI, Imp)    case 0x1 => Op(EOR, Inx)    case 0x2 => Unmapped        case 0x3 => Unmapped
      case 0x4 => Unmapped        case 0x5 => Op(EOR, Zpg)    case 0x6 => Op(LSR, Zpg)    case 0x7 => Unmapped
      case 0x8 => Op(PHA, Imp)    case 0x9 => Op(EOR, Imm)    case 0xA => Op(LSR, Acc)    case 0xB => Unmapped
      case 0xC => Op(JMP, Abs)    case 0xD => Op(EOR, Abs)    case 0xE => Op(LSR, Abs)    case _ => Unmapped
      }
    case 0x5 =>
      match lo {
      case 0x0 => Op(BVC, Rel)    case 0x1 => Op(EOR, Iny)    case 0x2 => Unmapped        case 0x3 => Unmapped
      case 0x4 => Unmapped        case 0x5 => Op(EOR, Zpx)    case 0x6 => Op(LSR, Zpx)    case 0x7 => Unmapped
      case 0x8 => Op(CLI, Imp)    case 0x9 => Op(EOR, Aby)    case 0xA => Unmapped        case 0xB => Unmapped
      case 0xC => Unmapped        case 0xD => Op(EOR, Abx)    case 0xE => Op(LSR, Abx)    case _ => Unmapped
      }
    case 0x6 =>
      match lo {
      case 0x0 => Op(RTS, Imp)    case 0x1 => Op(ADC, Inx)    case 0x2 => Unmapped        case 0x3 => Unmapped
      case 0x4 => Unmapped        case 0x5 => Op(ADC, Zpg)    case 0x6 => Op(ROR, Zpg)    case 0x7 => Unmapped
      case 0x8 => Op(PLA, Imp)    case 0x9 => Op(ADC, Imm)    case 0xA => Op(ROR, Acc)    case 0xB => Unmapped
      case 0xC => Op(JMP, Ind)    case 0xD => Op(ADC, Abs)    case 0xE => Op(ROR, Abs)    case _ => Unmapped
      }
    case 0x7 =>
      match lo {
      case 0x0 => Op(BVS, Rel)    case 0x1 => Op(ADC, Iny)    case 0x2 => Unmapped        case 0x3 => Unmapped
      case 0x4 => Unmapped        case 0x5 => Op(ADC, Zpx)    case 0x6 => Op(ROR, Zpx)    case 0x7 => Unmapped
      case 0x8 => Op(SEI, Imp)    case 0x9 => Op(ADC, Aby)    case 0xA => Unmapped        case 0xB => Unmapped
      case 0xC => Unmapped        case 0xD => Op(ADC, Abx)    case 0xE => Op(ROR, Abx)    case _ => Unmapped
      }
    case 0x8 =>
      match lo {
      case 0x0 => Unmapped        case 0x1 => Op(STA, Inx)    case 0x2 => Unmapped        case 0x3 => Unmapped
      case 0x4 => Op(STY, Zpg)    case 0x5 => Op(STA, Zpg)    case 0x6 => Op(STX, Zpg)    case 0x7 => Unmapped
      case 0x8 => Op(DEY, Imp)    case 0x9 => Unmapped        case 0xA => Op(TXA, Imp)    case 0xB => Unmapped
      case 0xC => Op(STY, Abs)    case 0xD => Op(STA, Abs)    case 0xE => Op(STX, Abs)    case _ => Unmapped
      }
    case 0x9 =>
      match lo {
      case 0x0 => Op(BCC, Rel)    case 0x1 => Op(STA, Iny)    case 0x2 => Unmapped        case 0x3 => Unmapped
      case 0x4 => Op(STY, Zpx)    case 0x5 => Op(STA, Zpx)    case 0x6 => Op(STX, Zpy)    case 0x7 => Unmapped
      case 0x8 => Op(TYA, Imp)    case 0x9 => Op(STA, Aby)    case 0xA => Op(TXS, Imp)    case 0xB => Unmapped
      case 0xC => Unmapped        case 0xD => Op(STA, Abx)    case 0xE => Unmapped        case _ => Unmapped
      }
    case 0xA =>
      match lo {
      case 0x0 => Op(LDY, Imm)    case 0x1 => Op(LDA, Inx)    case 0x2 => Op(LDX, Imm)    case 0x3 => Unmapped
      case 0x4 => Op(LDY, Zpg)    case 0x5 => Op(LDA, Zpg)    case 0x6 => Op(LDX, Zpg)    case 0x7 => Unmapped
      case 0x8 => Op(TAY, Imp)    case 0x9 => Op(LDA, Imm)    case 0xA => Op(TAX, Imp)    case 0xB => Unmapped
      case 0xC => Op(LDY, Abs)    case 0xD => Op(LDA, Abs)    case 0xE => Op(LDX, Abs)    case _ => Unmapped
      }
    case 0xB =>
      match lo {
      case 0x0 => Op(BCS, Rel)    case 0x1 => Op(LDA, Iny)    case 0x2 => Unmapped        case 0x3 => Unmapped
      case 0x4 => Op(LDY, Zpx)    case 0x5 => Op(LDA, Zpx)    case 0x6 => Op(LDX, Zpy)    case 0x7 => Unmapped
      case 0x8 => Op(CLV, Imp)    case 0x9 => Op(LDA, Aby)    case 0xA => Op(TSX, Imp)    case 0xB => Unmapped
      case 0xC => Op(LDY, Abx)    case 0xD => Op(LDA, Abx)    case 0xE => Op(LDX, Aby)    case _ => Unmapped
      }
    case 0xC =>
      match lo {
      case 0x0 => Op(CPY, Imm)    case 0x1 => Op(CMP, Inx)    case 0x2 => Unmapped        case 0x3 => Unmapped
      case 0x4 => Op(CPY, Zpg)    case 0x5 => Op(CMP, Zpg)    case 0x6 => Op(DEC, Zpg)    case 0x7 => Unmapped
      case 0x8 => Op(INY, Imp)    case 0x9 => Op(CMP, Imm)    case 0xA => Op(DEX, Imp)    case 0xB => Unmapped
      case 0xC => Op(CPY, Abs)    case 0xD => Op(CMP, Abs)    case 0xE => Op(DEC, Abs)    case _ => Unmapped
      }
    case 0xD =>
      match lo {
      case 0x0 => Op(BNE, Rel)    case 0x1 => Op(CMP, Iny)    case 0x2 => Unmapped        case 0x3 => Unmapped
      case 0x4 => Unmapped        case 0x5 => Op(CMP, Zpx)    case 0x6 => Op(DEC, Zpx)    case 0x7 => Unmapped
      case 0x8 => Op(CLD, Imp)    case 0x9 => Op(CMP, Aby)    case 0xA => Unmapped        case 0xB => Unmapped
      case 0xC => Unmapped        case 0xD => Op(CMP, Abx)    case 0xE => Op(DEC, Abx)    case _ => Unmapped
      }
    case 0xE =>
      match lo {
      case 0x0 => Op(CPX, Imm)    case 0x1 => Op(SBC, Inx)    case 0x2 => Unmapped        case 0x3 => Unmapped
      case 0x4 => Op(CPX, Zpg)    case 0x5 => Op(SBC, Zpg)    case 0x6 => Op(INC, Zpg)    case 0x7 => Unmapped
      case 0x8 => Op(INX, Imp)    case 0x9 => Op(SBC, Imm)    case 0xA => Op(NOP, Imp)    case 0xB => Unmapped
      case 0xC => Op(CPX, Abs)    case 0xD => Op(SBC, Abs)    case 0xE => Op(INC, Abs)    case _ => Unmapped
      }
    case _ =>
      match lo {
      case 0x0 => Op(BEQ, Rel)    case 0x1 => Op(SBC, Iny)    case 0x2 => Unmapped        case 0x3 => Unmapped
      case 0x4 => Unmapped        case 0x5 => Op(SBC, Zpx)    case 0x6 => Op(INC, Zpx)    case 0x7 => Unmapped
      case 0x8 => Op(SED, Imp)    case 0x9 => Op(SBC, Aby)    case 0xA => Unmapped        case 0xB => Unmapped
      case 0xC => Unmapped        case 0xD => Op(SBC, Abx)    case 0xE => Op(INC, Abx)    case _ => Unmapped
      }
  }

  /** The conditional branches, which the first pass recognises by name. */
  predicate IsBranch(m: Mnemonic)
  {
    match m
    case BPL | BMI | BVC | BVS | BCC | BCS | BNE | BEQ => true
    case _ => false
  }

  // ---------------------------------------------------------------------------------------
  // Reading instructions

  /** The length of the instruction at `pc`. */
  function Length(mem: seq<byte>, pc: int): (n: nat)
    ensures 1 <= n <= 3
  {
    Step(Opcode(At(mem, pc)).mode)
  }

  /** A byte read as a two's complement offset. */
  function Signed(b: byte): (d: int)
    ensures -128 <= d < 128
    ensures (d - b) % 256 == 0
  {
    if b < 128 then b else b - 256
  }

  /** The target of a branch at `pc` with offset byte `offset`: `offset ^ 255` on a byte is
      `255 - offset`, and `& 0xFFFF` keeps the target inside the address space. */
  function BranchTarget(pc: int, offset: byte): (t: int)
    ensures 0 <= t < 0x10000
    ensures (t - (pc + 2 + Signed(offset))) % 0x10000 == 0
  {
    var target := if offset >= 128 then pc + 2 - ((255 - offset) + 1) else pc + 2 + offset;
    target % 0x10000
  }

  /** The address the first pass takes from the instruction at `pc`: a branch's target, or
      the operand of any JMP or JSR, the indirect JMP included. */
  function Target(mem: seq<byte>, pc: int): Option<int>
  {
    var name := Opcode(At(mem, pc)).name;
    if IsBranch(name) then Some(BranchTarget(pc, At(mem, pc + 1)))
    else if name == JMP || name == JSR then Some(Word(mem, pc + 1))
    else None
  }

  /** `addLabel`'s test: inside the listed range, and in RAM or ROM rather than in the video
      or I/O windows. */
  predicate Labellable(t: int, start: int, end: int)
  {
    start <= t <= end && (t < 0x8000 || 0xC000 <= t <= 0xE7FF || 0xF000 <= t <= 0xFFFF)
  }

  /** The addresses at which the instructions from `pc` to `end` begin. */
  function Starts(mem: seq<byte>, pc: nat, end: int): (s: seq<nat>)
    ensures |s| == 0 <==> pc > end
    ensures |s| > 0 ==> s[0] == pc
    ensures forall i :: 0 <= i < |s| ==> pc <= s[i] <= end
    decreases if pc <= end then end - pc + 1 else 0
  {
    if pc > end then [] else [pc] + Starts(mem, pc + Length(mem, pc), end)
  }

  // ---------------------------------------------------------------------------------------
  // First pass

  /** The labels the first pass collects walking from `pc` to `end`. */
  function CollectTargets(mem: seq<byte>, pc: nat, start: int, end: int): (labels: set<int>)
    ensures forall t :: t in labels ==> Labellable(t, start, end)
    decreases if pc <= end then end - pc + 1 else 0
  {
    if pc > end then {}
    else
      var rest := CollectTargets(mem, pc + Length(mem, pc), start, end);
      match Target(mem, pc)
      case Some(t) => if Labellable(t, start, end) then {t} + rest else rest
      case None => rest
  }

  // ---------------------------------------------------------------------------------------
  // Second pass

  /** A label's name. */
  function LabelName(a: nat): string
  {
    "l" + Hex(a, 4)
  }

  /** `addressString(a, l)` with no symbols: the label when there is one, else `$` and the
      address in at least `width` hex digits. */
  function AddressText(a: nat, width: nat, labels: set<int>): string
  {
    if a in labels then LabelName(a) else "$" + Hex(a, width)
  }

  /** The mnemonic column: the name, or `.byte $XX` for an undocumented opcode. */
  function MnemonicText(b: byte): string
  {
    if Text(Opcode(b).name) == "" then ".byte $" + Hex(b, 2) else Text(Opcode(b).name)
  }

  /** The raw bytes column: the opcode and its operand bytes; the third byte is printed
      without a width, so a value below 16 has one digit. */
  function RawBytes(mem: seq<byte>, pc: int): string
  {
    var step := Length(mem, pc);
    Hex(At(mem, pc), 2)
    + (if step == 2 then " " + Hex(At(mem, pc + 1), 2)
       else if step == 3 then " " + Hex(At(mem, pc + 1), 2) + " " + Hex(At(mem, pc + 2), 0)
       else "")
  }

  /** The operand column for the instruction at `pc`. */
  function OperandText(mem: seq<byte>, pc: int, labels: set<int>): string
  {
    var byteOp := At(mem, pc + 1);
    var wordOp := Word(mem, pc + 1);
    match Opcode(At(mem, pc)).mode
    case Imp => ""
    case Acc => " A"
    case Imm => " #$" + Hex(byteOp, 2)
    case Zpg => " " + AddressText(byteOp, 2, labels)
    case Zpx => " " + AddressText(byteOp, 2, labels) + ",X"
    case Zpy => " " + AddressText(byteOp, 2, labels) + ",Y"
    case Abs => " " + AddressText(wordOp, 4, labels)
    case Abx => " " + AddressText(wordOp, 4, labels) + ",X"
    case Aby => " " + AddressText(wordOp, 4, labels) + ",Y"
    case Ind => " (" + AddressText(wordOp, 4, labels) + ")"
    case Inx => " (" + AddressText(byteOp, 2, labels) + ",X)"
    case Iny => " (" + AddressText(byteOp, 2, labels) + "),Y"
    case Rel => " " + AddressText(BranchTarget(pc, byteOp), 4, labels)
  }

  /** `list`: the columns padded to 6, 11 and 8 characters from a 12-blank string. */
  function ListLine(addr: string, raw: string, name: string, text: string): string
  {
    addr + Blanks(12, 6 - |addr|) + raw + Blanks(12, 11 - |raw|) + name + Blanks(12, 8 - |name|)
    + text + "\n"
  }

  /** The listing line of the instruction at `pc`. */
  function InstructionLine(mem: seq<byte>, pc: nat, labels: set<int>): string
  {
    var name := if pc in labels then LabelName(pc) else "";
    ListLine(Hex(pc, 4), RawBytes(mem, pc), name, MnemonicText(At(mem, pc)) + OperandText(mem, pc, labels))
  }

  /** The second pass from `pc` to `end`. */
  function ListInstructions(mem: seq<byte>, pc: nat, end: int, labels: set<int>): string
    decreases if pc <= end then end - pc + 1 else 0
  {
    if pc > end then ""
    else InstructionLine(mem, pc, labels) + ListInstructions(mem, pc + Length(mem, pc), end, labels)
  }

  /** The listing lines of the instructions at `addrs`, in order. */
  function Lines(mem: seq<byte>, addrs: seq<nat>, labels: set<int>): string
    decreases |addrs|
  {
    if |addrs| == 0 then "" else InstructionLine(mem, addrs[0], labels) + Lines(mem, addrs[1..], labels)
  }

  /** The last address listed: `end & 0xFFFF`, or the last byte of memory when that lies
      below the start. */
  function LastAddress(mem: seq<byte>, start: nat, end: nat): int
  {
    if end % 0x10000 < start % 0x10000 then |mem| - 1 else end % 0x10000
  }

  /** `disassemble(mem, start, end)`. A missing start or end is 0; the caller's symbol table
      is always replaced by an empty one, so there is none here. */
  function Disassemble(mem: seq<byte>, start: int, end: int): (r: string)
    ensures start < 0 ==> r == "Error: Start address not a valid value."
    ensures 0 <= start && end < 0 ==> r == "Error: End address not a valid value."
  {
    if start < 0 then "Error: Start address not a valid value."
    else if end < 0 then "Error: End address not a valid value."
    else
      var first := start % 0x10000;
      var last := LastAddress(mem, start, end);
      ListLine("", "", "", "* = " + Hex(first, 4))
      + ListInstructions(mem, first, last, CollectTargets(mem, first, first, last))
      + ListLine("", "", "", ".end")
  }

  // ---------------------------------------------------------------------------------------
  // Properties

  /** Facts of the opcode map: an undocumented opcode is one byte long, every relative-mode
      opcode is a branch (so the first pass finds each target the second pass lists), and
      the opcodes the first pass takes a JMP or JSR operand from are JSR, JMP absolute and
      JMP indirect, whose operand is the vector address rather than the jump's target. */
  lemma OpcodeMap(b: byte)
    ensures Opcode(b).name == Undocumented ==> Opcode(b).mode == Imp
    ensures Opcode(b).mode == Rel <==> IsBranch(Opcode(b).name)
    ensures Opcode(b).name in {JMP, JSR} <==> b == 0x20 || b == 0x4C || b == 0x6C
  {
    UndocumentedImplied(b);
    RelativeIsBranch(b);
    BranchIsRelative(b);
    JumpOpcodes(b);
  }

  lemma UndocumentedImplied(b: byte)
    ensures Opcode(b).name == Undocumented ==> Opcode(b).mode == Imp
  {
  }

  lemma RelativeIsBranch(b: byte)
    ensures Opcode(b).mode == Rel ==> IsBranch(Opcode(b).name)
  {
    if b % 16 == 0 {
      RelativeInColumnZero(b);
    } else {
      NoRelativeOffColumnZero(b);
    }
  }

  /** In the first column of the table every relative-mode entry is a branch. */
  lemma RelativeInColumnZero(b: byte)
    requires b % 16 == 0
    ensures Opcode(b).mode == Rel ==> IsBranch(Opcode(b).name)
  {
    match b / 16
    case 0 => case 1 => case 2 => case 3 => case 4 => case 5 => case 6 => case 7 =>
    case 8 => case 9 => case 10 => case 11 => case 12 => case 13 => case 14 => case 15 =>
  }

  /** Relative mode occurs only in the first column of the table. */
  lemma NoRelativeOffColumnZero(b: byte)
    requires b % 16 != 0
    ensures Opcode(b).mode != Rel
  {
    match b / 16
    case 0 => case 1 => case 2 => case 3 => case 4 => case 5 => case 6 => case 7 =>
    case 8 => case 9 => case 10 => case 11 => case 12 => case 13 => case 14 => case 15 =>
  }

  lemma BranchIsRelative(b: byte)
    ensures IsBranch(Opcode(b).name) ==> Opcode(b).mode == Rel
  {
    match b / 16
    case 0 => case 1 => case 2 => case 3 => case 4 => case 5 => case 6 => case 7 =>
    case 8 => case 9 => case 10 => case 11 => case 12 => case 13 => case 14 => case 15 =>
  }

  lemma JumpOpcodes(b: byte)
    ensures Opcode(b).name in {JMP, JSR} <==> b == 0x20 || b == 0x4C || b == 0x6C
  {
  }

  /** An undocumented opcode is listed as `.byte $XX`, one byte long. */
  lemma UndocumentedIsOneByte(mem: seq<byte>, pc: int)
    requires Opcode(At(mem, pc)).name == Undocumented
    ensures Length(mem, pc) == 1 && MnemonicText(At(mem, pc)) == ".byte $" + Hex(At(mem, pc), 2)
  {
    OpcodeMap(At(mem, pc));
  }

  /** Each instruction follows the previous one, and the last one reaches past `end`: the
      instructions listed tile the range from `pc` on. */
  lemma StartsTile(mem: seq<byte>, pc: nat, end: int)
    ensures var s := Starts(mem, pc, end);
      (forall i :: 0 <= i < |s| - 1 ==> s[i + 1] == s[i] + Length(mem, s[i]))
      && (|s| > 0 ==> end < s[|s| - 1] + Length(mem, s[|s| - 1]))
  {
    StartsFollow(mem, pc, end);
    StartsReachEnd(mem, pc, end);
  }

  /** Each address of `s` is where the instruction at the previous one ends. */
  predicate Tiles(mem: seq<byte>, s: seq<nat>)
  {
    forall i :: 0 <= i < |s| - 1 ==> s[i + 1] == s[i] + Length(mem, s[i])
  }

  /** Each listed instruction starts where the previous one ends. */
  lemma {:induction false} StartsFollow(mem: seq<byte>, pc: nat, end: int)
    ensures Tiles(mem, Starts(mem, pc, end))
    decreases if pc <= end then end - pc + 1 else 0
  {
    if pc <= end {
      var next := pc + Length(mem, pc);
      var rest := Starts(mem, next, end);
      StartsFollow(mem, next, end);
      assert Starts(mem, pc, end) == [pc] + rest;
      if |rest| > 0 {
        TileCons(mem, pc, rest);
      }
    }
  }

  /** The last instruction of `s`, if any, reaches past `end`. */
  predicate EndsPast(mem: seq<byte>, s: seq<nat>, end: int)
  {
    |s| > 0 ==> end < s[|s| - 1] + Length(mem, s[|s| - 1])
  }

  /** The last listed instruction reaches past `end`. */
  lemma {:induction false} StartsReachEnd(mem: seq<byte>, pc: nat, end: int)
    ensures EndsPast(mem, Starts(mem, pc, end), end)
    decreases if pc <= end then end - pc + 1 else 0
  {
    if pc <= end {
      var next := pc + Length(mem, pc);
      var rest := Starts(mem, next, end);
      StartsReachEnd(mem, next, end);
      assert Starts(mem, pc, end) == [pc] + rest;
      if |rest| > 0 {
        LastOfCons(pc, rest);
      }
    }
  }

  /** Putting an element in front keeps the last element. */
  lemma LastOfCons<T>(x: T, s: seq<T>)
    requires 0 < |s|
    ensures ([x] + s)[|s|] == s[|s| - 1]
  {
  }

  /** Putting `pc` before a tiling that starts right after its instruction keeps it a tiling. */
  lemma TileCons(mem: seq<byte>, pc: nat, rest: seq<nat>)
    requires 0 < |rest| && rest[0] == pc + Length(mem, pc) && Tiles(mem, rest)
    ensures Tiles(mem, [pc] + rest)
  {
    var s := [pc] + rest;
    forall i | 0 <= i < |s| - 1
      ensures s[i + 1] == s[i] + Length(mem, s[i])
    {
      if i > 0 {
        assert s[i] == rest[i - 1] && s[i + 1] == rest[i];
      }
    }
  }

  /** The instruction addresses strictly increase, so both passes end. */
  lemma StartsIncrease(mem: seq<byte>, pc: nat, end: int)
    ensures forall i, j :: 0 <= i < j < |Starts(mem, pc, end)| ==> Starts(mem, pc, end)[i] < Starts(mem, pc, end)[j]
  {
    var s := Starts(mem, pc, end);
    StartsTile(mem, pc, end);
    forall i | 0 <= i < |s| - 1
      ensures s[i] < s[i + 1]
    {
      assert s[i + 1] == s[i] + Length(mem, s[i]);
    }
    Increasing(s);
  }

  /** Steps that increase make a strictly increasing sequence. */
  lemma {:induction false} Increasing(s: seq<nat>)
    requires forall i :: 0 <= i < |s| - 1 ==> s[i] < s[i + 1]
    ensures forall i, j :: 0 <= i < j < |s| ==> s[i] < s[j]
    decreases |s|
  {
    if |s| > 1 {
      var t := s[1..];
      Increasing(t);
      forall i, j | 0 <= i < j < |s|
        ensures s[i] < s[j]
      {
        if i == 0 {
          assert s[1] == t[0];
          if j > 1 {
            assert s[j] == t[j - 1];
          }
        } else {
          assert s[i] == t[i - 1] && s[j] == t[j - 1];
        }
      }
    }
  }

  /** `t` is the target of one of the instructions at `addrs`. */
  predicate TargetAmong(mem: seq<byte>, addrs: seq<nat>, t: int)
    decreases |addrs|
  {
    |addrs| > 0 && (Target(mem, addrs[0]) == Some(t) || TargetAmong(mem, addrs[1..], t))
  }

  /** The first pass labels exactly the labellable targets of the instructions it walks. */
  lemma {:induction false} LabelsAreTargets(mem: seq<byte>, pc: nat, start: int, end: int, t: int)
    ensures t in CollectTargets(mem, pc, start, end) <==> Labellable(t, start, end) && TargetAmong(mem, Starts(mem, pc, end), t)
    decreases if pc <= end then end - pc + 1 else 0
  {
    if pc <= end {
      var next := pc + Length(mem, pc);
      LabelsAreTargets(mem, next, start, end, t);
      assert Starts(mem, pc, end)[1..] == Starts(mem, next, end);
    }
  }

  /** `TargetAmong` names an instruction whose target it is. */
  lemma {:induction false} TargetAmongIndex(mem: seq<byte>, addrs: seq<nat>, t: int)
    ensures TargetAmong(mem, addrs, t) <==> exists i :: 0 <= i < |addrs| && Target(mem, addrs[i]) == Some(t)
    decreases |addrs|
  {
    if |addrs| > 0 {
      TargetAmongIndex(mem, addrs[1..], t);
      if exists i :: 0 <= i < |addrs| && Target(mem, addrs[i]) == Some(t) {
        var i :| 0 <= i < |addrs| && Target(mem, addrs[i]) == Some(t);
        if i > 0 {
          assert addrs[1..][i - 1] == addrs[i];
        }
      }
      if TargetAmong(mem, addrs[1..], t) {
        var i :| 0 <= i < |addrs[1..]| && Target(mem, addrs[1..][i]) == Some(t);
        assert addrs[i + 1] == addrs[1..][i];
      }
    }
  }

  /** The second pass lists the instructions the first pass walked, one line each. */
  lemma {:induction false} ListingFollowsStarts(mem: seq<byte>, pc: nat, end: int, labels: set<int>)
    ensures ListInstructions(mem, pc, end, labels) == Lines(mem, Starts(mem, pc, end), labels)
    decreases if pc <= end then end - pc + 1 else 0
  {
    if pc <= end {
      var s := Starts(mem, pc, end);
      var rest := Starts(mem, pc + Length(mem, pc), end);
      ListingFollowsStarts(mem, pc + Length(mem, pc), end, labels);
      assert s[0] == pc && s[1..] == rest;
      assert Lines(mem, s, labels) == InstructionLine(mem, pc, labels) + Lines(mem, rest, labels);
    }
  }

  /** The listing: the origin line, one line per instruction from the start to the last
      address, the labels being the labellable targets of those instructions, and `.end`. */
  lemma DisassemblyLayout(mem: seq<byte>, start: nat, end: nat)
    ensures var first := start % 0x10000;
      var last := LastAddress(mem, start, end);
      Disassemble(mem, start, end)
      == ListLine("", "", "", "* = " + Hex(first, 4))
         + Lines(mem, Starts(mem, first, last), CollectTargets(mem, first, first, last))
         + ListLine("", "", "", ".end")
  {
    var first := start % 0x10000;
    var last := LastAddress(mem, start, end);
    ListingFollowsStarts(mem, first, last, CollectTargets(mem, first, first, last));
  }

  /** The raw bytes column has two digits per byte, separated by blanks, except that the
      third byte of a three-byte instruction has one digit when it is below 16. */
  lemma RawBytesLength(mem: seq<byte>, pc: int)
    ensures |RawBytes(mem, pc)|
        == 3 * Length(mem, pc) - 1 - (if Length(mem, pc) == 3 && At(mem, pc + 2) < 16 then 1 else 0)
  {
    HexWidth(At(mem, pc), 2);
    HexWidth(At(mem, pc + 1), 2);
    var b := At(mem, pc + 2);
    HexValue(b, 0);
    if b < 16 {
      DigitsFit(b, 1);
    } else {
      assert Digits(b, 16, true) == Digits(b / 16, 16, true) + [DigitChar(b % 16, true)];
    }
  }

  /** An indirect JMP in the listed range labels its vector address, not the address the
      jump goes to. */
  lemma IndirectJumpLabelsVector(mem: seq<byte>, pc: nat, start: int, end: int, i: nat)
    requires i < |Starts(mem, pc, end)| && At(mem, Starts(mem, pc, end)[i]) == 0x6C
    requires Labellable(Word(mem, Starts(mem, pc, end)[i] + 1), start, end)
    ensures Word(mem, Starts(mem, pc, end)[i] + 1) in CollectTargets(mem, pc, start, end)
  {
    var a := Starts(mem, pc, end)[i];
    assert Opcode(0x6C) == Op(JMP, Ind);
    assert Target(mem, a) == Some(Word(mem, a + 1));
    TargetAmongIndex(mem, Starts(mem, pc, end), Word(mem, a + 1));
    LabelsAreTargets(mem, pc, start, end, Word(mem, a + 1));
  }

  /** The listed instructions start inside the range and tile it up to its last address,
      which is the last byte of memory when the end given lies below the start. */
  lemma DisassemblyCovers(mem: seq<byte>, start: nat, end: nat)
    ensures var s := Starts(mem, start % 0x10000, LastAddress(mem, start, end));
      (forall i :: 0 <= i < |s| ==> start % 0x10000 <= s[i] <= LastAddress(mem, start, end))
      && (|s| > 0 ==> LastAddress(mem, start, end) < s[|s| - 1] + Length(mem, s[|s| - 1]))
    ensures end % 0x10000 < start % 0x10000 ==> LastAddress(mem, start, end) == |mem| - 1
    ensures start % 0x10000 <= end % 0x10000 ==> LastAddress(mem, start, end) == end % 0x10000
  {
    StartsTile(mem, start % 0x10000, LastAddress(mem, start, end));
  }
}
