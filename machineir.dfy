/**
 * The machine IR the core works on: registers, condition codes, operands,
 * opcodes, instructions and basic blocks, as LLVM's ARM back end presents
 * them. Only the opcodes the core names are distinguished; every other
 * instruction is an `OtherOp`, and meta (non-code) instructions such as
 * DBG_VALUE or CFI_INSTRUCTION are a `MetaOp`.
 */
module MachineIR {

  import ITMask

  datatype Option<T> = None | Some(value: T)

  /** ARM core registers, plus the flags register and LLVM's "no register". */
  datatype Reg =
    | R0 | R1 | R2 | R3 | R4 | R5 | R6 | R7
    | R8 | R9 | R10 | R11 | R12
    | SP | LR | PC | CPSR | NoReg

  /** The fourteen condition codes other than "always" (ARMv7-M A7.3). */
  datatype Cond = EQ | NE | HS | LO | MI | PL | VS | VC | HI | LS | GE | LT | GT | LE

  /** ARMCC::getOppositeCondition: each code is paired with its negation. */
  function Opposite(c: Cond): (o: Cond)
    ensures o != c
  {
    match c
    case EQ => NE case NE => EQ
    case HS => LO case LO => HS
    case MI => PL case PL => MI
    case VS => VC case VC => VS
    case HI => LS case LS => HI
    case GE => LT case LT => GE
    case GT => LE case LE => GT
  }

  lemma OppositeInvolution(c: Cond)
    ensures Opposite(Opposite(c)) == c
  {
  }

  /** The predicate of an instruction: ARMCC::AL or a condition. */
  datatype Pred = Always | When(cond: Cond)

  /** Operands: registers, immediates, and the condition-code operand that
      predOps adds (followed there by the predicate register). */
  datatype Operand = RegOp(reg: Reg) | ImmOp(imm: int) | PredOp(pred: Pred)

  datatype Opcode =
    | T2IT(cond: Cond, mask: nat)
    | TPUSH | TPOP | TPOP_RET
    | T2STR_PRE | T2STMDB_UPD
    | T2LDR_POST | T2LDMIA_UPD | T2LDMIA_RET
    | T2STRi12 | T2STRs | T2STRT
    | T2MOVi | T2MOVi16 | T2MOVTi16
    | TADDrSP | TADDspi
    | T2LDRi12 | T2LDRi12_RET | T2LDRs | T2LDRs_RET
    | TBX_RET
    | MetaOp(kind: nat)
    | OtherOp(code: nat)

  /** The MachineInstr flags the core reads or sets. */
  datatype Flags = Flags(frameSetup: bool, frameDestroy: bool, shadowStack: bool)

  const NoFlags := Flags(false, false, false)
  const ShadowStackFlag := Flags(false, false, true)

  /** An instruction: a unique id standing for its identity (the source
      holds pointers to instructions), its opcode, its explicit operands,
      its implicit register operands and its flags. */
  datatype Instr = Instr(id: nat, op: Opcode, ops: seq<Operand>, implicitOps: seq<Reg>, flags: Flags)

  predicate IsMeta(mi: Instr) { mi.op.MetaOp? }

  predicate IsIT(mi: Instr) { mi.op.T2IT? }

  /** A basic block: its instructions and the registers live at its end. */
  datatype Block = Block(insts: seq<Instr>, liveOuts: set<Reg>)

  /** An entry of the callee-saved register list of the frame info. */
  datatype CalleeSaved = CalleeSaved(reg: Reg, restored: bool)

  /** Number of non-meta instructions: the ones that emit code. */
  function CountCode(s: seq<Instr>): (n: nat)
    ensures n <= |s|
  {
    if s == [] then 0 else CountCode(s[..|s| - 1]) + (if IsMeta(s[|s| - 1]) then 0 else 1)
  }

  lemma CountCodeAppend(a: seq<Instr>, b: seq<Instr>)
    ensures CountCode(a + b) == CountCode(a) + CountCode(b)
    decreases |b|
  {
    if b == [] {
      assert a + b == a;
    } else {
      assert (a + b)[..|a + b| - 1] == a + b[..|b| - 1];
      CountCodeAppend(a, b[..|b| - 1]);
    }
  }

  lemma CountCodeSnoc(u: seq<Instr>, x: Instr)
    ensures CountCode(u + [x]) == CountCode(u) + (if IsMeta(x) then 0 else 1)
  {
    assert (u + [x])[..|u + [x]| - 1] == u;
  }

  /** Extending a slice of s by one element. */
  lemma CountCodeSliceSnoc(s: seq<Instr>, a: nat, b: nat)
    requires a <= b < |s|
    ensures CountCode(s[a..b + 1]) == CountCode(s[a..b]) + (if IsMeta(s[b]) then 0 else 1)
  {
    assert s[a..b + 1] == s[a..b] + [s[b]];
    CountCodeSnoc(s[a..b], s[b]);
  }

  lemma CountCodeSplit(s: seq<Instr>, i: nat)
    requires i <= |s|
    ensures CountCode(s) == CountCode(s[..i]) + CountCode(s[i..])
  {
    assert s == s[..i] + s[i..];
    CountCodeAppend(s[..i], s[i..]);
  }

  lemma CountCodeCons(x: Instr, s: seq<Instr>)
    ensures CountCode([x] + s) == (if IsMeta(x) then 0 else 1) + CountCode(s)
  {
    CountCodeAppend([x], s);
    assert [x][..0] == [];
  }

  /** Counting from the front of a non-empty sequence. */
  lemma CountCodeFront(t: seq<Instr>)
    requires t != []
    ensures CountCode(t) == (if IsMeta(t[0]) then 0 else 1) + CountCode(t[1..])
  {
    CountCodeCons(t[0], t[1..]);
    assert t == [t[0]] + t[1..];
  }

  /** Counting from the front of a prefix of 1 + n instructions. */
  lemma CountCodePrefixFront(t: seq<Instr>, n: nat)
    requires n < |t|
    ensures CountCode(t[..1 + n]) == (if IsMeta(t[0]) then 0 else 1) + CountCode(t[1..][..n])
  {
    CountCodeFront(t[..1 + n]);
    assert t[..1 + n][1..] == t[1..][..n];
  }

  /** No instruction of s is an IT. */
  predicate NoIT(s: seq<Instr>)
  {
    forall i :: 0 <= i < |s| ==> !IsIT(s[i])
  }

  /** Every IT immediate of s is a valid mask (getITBlockSize's assertion). */
  predicate MasksValid(s: seq<Instr>)
  {
    forall i {:trigger IsIT(s[i])} :: 0 <= i < |s| && IsIT(s[i]) ==> ITMask.ValidMask(s[i].op.mask)
  }

  /** predOps(Pred, PredReg): the condition-code operand and the predicate
      register that every predicable instruction carries. */
  function PredOps(pred: Pred, predReg: Reg): seq<Operand>
  {
    [PredOp(pred), RegOp(predReg)]
  }
}
