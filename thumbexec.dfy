/**
 * What the instructions of the shadow-stack pass do when they execute: a
 * register file, a memory holding one word per address, and the effect of
 * each opcode the pass emits, after section A7.7 of the ARMv7-M
 * Architecture Reference Manual. Addresses and computed values wrap at 32
 * bits.
 */
module ThumbExec {
  import opened MachineIR
  import opened ShadowInsts

  /** Register values and memory contents by address. */
  datatype Machine = Machine(regs: map<Reg, int>, mem: map<nat, int>)

  function Val(m: Machine, r: Reg): int
  {
    if r in m.regs then m.regs[r] else 0
  }

  function Load(m: Machine, a: nat): int
  {
    if a in m.mem then m.mem[a] else 0
  }

  function SetReg(m: Machine, r: Reg, v: int): Machine
  {
    m.(regs := m.regs[r := v])
  }

  function StoreAt(m: Machine, a: nat, v: int): Machine
  {
    m.(mem := m.mem[a := v])
  }

  lemma SetRegVal(m: Machine, r: Reg, v: int, x: Reg)
    ensures Val(SetReg(m, r, v), x) == if x == r then v else Val(m, x)
  {
  }

  lemma StoreAtLoad(m: Machine, a: nat, v: int, x: nat)
    ensures Load(StoreAt(m, a, v), x) == if x == a then v else Load(m, x)
  {
  }

  lemma StoreAtVal(m: Machine, a: nat, v: int, x: Reg)
    ensures Val(StoreAt(m, a, v), x) == Val(m, x)
  {
  }

  lemma SetRegLoad(m: Machine, r: Reg, v: int, x: nat)
    ensures Load(SetReg(m, r, v), x) == Load(m, x)
  {
  }

  /** push {r}: SP moves down a word and r is stored there. */
  function Push(m: Machine, r: Reg): Machine
  {
    var sp := U32(Val(m, SP) - 4);
    StoreAt(SetReg(m, SP, sp), sp, Val(m, r))
  }

  /** pop {r}: r is loaded from SP and SP moves up a word. */
  function Pop(m: Machine, r: Reg): Machine
  {
    var sp := Val(m, SP);
    SetReg(SetReg(m, r, Load(m, U32(sp))), SP, U32(sp + 4))
  }

  lemma PushVal(m: Machine, r: Reg, x: Reg)
    ensures Val(Push(m, r), x) == if x == SP then U32(Val(m, SP) - 4) else Val(m, x)
  {
    var sp := U32(Val(m, SP) - 4);
    StoreAtVal(SetReg(m, SP, sp), sp, Val(m, r), x);
    SetRegVal(m, SP, sp, x);
  }

  lemma PushLoad(m: Machine, r: Reg, a: nat)
    ensures Load(Push(m, r), a) == if a == U32(Val(m, SP) - 4) then Val(m, r) else Load(m, a)
  {
    var sp := U32(Val(m, SP) - 4);
    StoreAtLoad(SetReg(m, SP, sp), sp, Val(m, r), a);
    SetRegLoad(m, SP, sp, a);
  }

  lemma PopVal(m: Machine, r: Reg, x: Reg)
    requires r != SP
    ensures Val(Pop(m, r), x) ==
      if x == SP then U32(Val(m, SP) + 4) else if x == r then Load(m, U32(Val(m, SP))) else Val(m, x)
  {
    var sp := Val(m, SP);
    var m1 := SetReg(m, r, Load(m, U32(sp)));
    SetRegVal(m1, SP, U32(sp + 4), x);
    SetRegVal(m, r, Load(m, U32(sp)), x);
  }

  lemma PopLoad(m: Machine, r: Reg, a: nat)
    ensures Load(Pop(m, r), a) == Load(m, a)
  {
    var sp := Val(m, SP);
    var m1 := SetReg(m, r, Load(m, U32(sp)));
    SetRegLoad(m1, SP, U32(sp + 4), a);
    SetRegLoad(m, r, Load(m, U32(sp)), a);
  }

  function RegAt(ops: seq<Operand>, i: nat): Reg
  {
    if i < |ops| && ops[i].RegOp? then ops[i].reg else NoReg
  }

  function ImmAt(ops: seq<Operand>, i: nat): int
  {
    if i < |ops| && ops[i].ImmOp? then ops[i].imm else 0
  }

  /** What an instruction does when it executes. Opcodes outside the ones
      the pass emits are not modelled here and leave the machine as it is. */
  function Effect(m: Machine, mi: Instr): Machine
  {
    var o := mi.ops;
    var d := RegAt(o, 0);
    match mi.op
    case T2STRi12 => StoreAt(m, U32(Val(m, RegAt(o, 1)) + ImmAt(o, 2)), Val(m, d))
    case T2STRs => StoreAt(m, U32(Val(m, RegAt(o, 1)) + Val(m, RegAt(o, 2))), Val(m, d))
    case T2STRT => StoreAt(m, U32(Val(m, RegAt(o, 1)) + ImmAt(o, 2)), Val(m, d))
    case TPUSH => Push(m, RegAt(o, 2))
    case TPOP => Pop(m, RegAt(o, 2))
    case T2MOVi => SetReg(m, d, U32(ImmAt(o, 1)))
    case T2MOVi16 => SetReg(m, d, ImmAt(o, 1) % 0x10000)
    case T2MOVTi16 => SetReg(m, d, Val(m, RegAt(o, 1)) % 0x10000 + (ImmAt(o, 2) % 0x10000) * 0x10000)
    case TADDrSP => SetReg(m, d, U32(Val(m, RegAt(o, 1)) + Val(m, RegAt(o, 2))))
    case TADDspi => SetReg(m, d, U32(Val(m, RegAt(o, 1)) + 4 * ImmAt(o, 2)))
    case T2LDRi12 => SetReg(m, d, Load(m, U32(Val(m, RegAt(o, 1)) + ImmAt(o, 2))))
    case T2LDRi12_RET => SetReg(m, d, Load(m, U32(Val(m, RegAt(o, 1)) + ImmAt(o, 2))))
    case T2LDRs => SetReg(m, d, Load(m, U32(Val(m, RegAt(o, 1)) + Val(m, RegAt(o, 2)))))
    case T2LDRs_RET => SetReg(m, d, Load(m, U32(Val(m, RegAt(o, 1)) + Val(m, RegAt(o, 2)))))
    case TBX_RET => SetReg(m, PC, Val(m, LR))
    case _ => m
  }

  /** A straight-line run of s from m, every instruction executing. The
      pass gives each instruction it emits the instrumented instruction's
      predicate (ShadowInsts.SetupFresh, ShadowInsts.PopFresh) and none of
      them writes the flags, so under a failing condition none executes and
      the run changes nothing. */
  function Exec(m: Machine, s: seq<Instr>): Machine
    decreases |s|
  {
    if s == [] then m else Exec(Effect(m, s[0]), s[1..])
  }

  lemma {:induction false} ExecAppend(m: Machine, a: seq<Instr>, b: seq<Instr>)
    ensures Exec(m, a + b) == Exec(Exec(m, a), b)
    decreases |a|
  {
    if a == [] {
      assert a + b == b;
    } else {
      assert (a + b)[0] == a[0] && (a + b)[1..] == a[1..] + b;
      ExecAppend(Effect(m, a[0]), a[1..], b);
    }
  }

  /** A run of a then b, given the states each reaches. */
  lemma ExecThrough(m: Machine, a: seq<Instr>, b: seq<Instr>, m1: Machine, m2: Machine)
    requires Exec(m, a) == m1 && Exec(m1, b) == m2
    ensures Exec(m, a + b) == m2
  {
    ExecAppend(m, a, b);
  }

  lemma ExecOne(m: Machine, x: Instr)
    ensures Exec(m, [x]) == Effect(m, x)
  {
    assert [x][1..] == [];
  }

  /** m2 agrees with m1 on every register outside changed. */
  ghost predicate RegsKept(m1: Machine, m2: Machine, changed: set<Reg>)
  {
    forall x :: x !in changed ==> Val(m2, x) == Val(m1, x)
  }

  /** m2 agrees with m1 on every address outside changed. */
  ghost predicate MemKept(m1: Machine, m2: Machine, changed: set<nat>)
  {
    forall a :: a !in changed ==> Load(m2, a) == Load(m1, a)
  }

  lemma MovImmStep(m: Machine, n: nat, r: Reg, off: int, pi: PredInfo)
    ensures Exec(m, [MovImm(n, r, off, pi)]) == SetReg(m, r, U32(off))
  {
    ExecOne(m, MovImm(n, r, off, pi));
  }

  lemma MovLowStep(m: Machine, n: nat, r: Reg, off: int, pi: PredInfo)
    ensures Exec(m, [MovLow(n, r, off, pi)]) == SetReg(m, r, (off % 0x10000) % 0x10000)
  {
    ExecOne(m, MovLow(n, r, off, pi));
  }

  lemma MovHighStep(m: Machine, n: nat, r: Reg, off: int, pi: PredInfo)
    ensures Exec(m, [MovHigh(n, r, off, pi)]) ==
            SetReg(m, r, Val(m, r) % 0x10000 + ((off / 0x10000) % 0x10000) * 0x10000)
  {
    ExecOne(m, MovHigh(n, r, off, pi));
  }

  /** mov r, #off or movw/movt: r holds the offset as an unsigned word. */
  lemma MaterializeEffect(m: Machine, n: nat, r: Reg, off: int, pi: PredInfo)
    ensures Exec(m, Materialize(n, r, off, pi)) == SetReg(m, r, U32(off))
  {
    if T2ModImm(U32(off)) {
      MovImmStep(m, n, r, off, pi);
    } else {
      var lo := MovLow(n, r, off, pi);
      MovLowStep(m, n, r, off, pi);
      HalvesMakeWord(off);
      var w := (off % 0x10000) % 0x10000;
      if off / 0x10000 != 0 {
        var hi := MovHigh(n + 1, r, off, pi);
        assert Materialize(n, r, off, pi) == [lo] + [hi];
        ExecAppend(m, [lo], [hi]);
        var m1 := SetReg(m, r, w);
        MovHighStep(m1, n + 1, r, off, pi);
        assert Val(m1, r) == w;
        assert SetReg(m1, r, U32(off)) == SetReg(m, r, U32(off));
      } else {
        assert Materialize(n, r, off, pi) == [lo];
      }
    }
  }

  /** The MOVW half and the MOVT half of an int make its unsigned word; with
      a zero high half the MOVW alone does. */
  lemma HalvesMakeWord(off: int)
    ensures ((off % 0x10000) % 0x10000) % 0x10000 + ((off / 0x10000) % 0x10000) * 0x10000 == U32(off)
    ensures off / 0x10000 == 0 ==> (off % 0x10000) % 0x10000 == U32(off)
  {
    var q := off / 0x10000;
    var lo := off % 0x10000;
    assert off == q * 0x10000 + lo;
    var qq := q / 0x10000;
    var ql := q % 0x10000;
    assert q == qq * 0x10000 + ql;
    assert off == qq * Word + (ql * 0x10000 + lo);
    assert 0 <= ql * 0x10000 + lo < Word;
  }

  /** push {r} when spill holds. */
  lemma SpillEffect(m: Machine, spill: bool, n: nat, r: Reg, pi: PredInfo)
    ensures Exec(m, SpillIf(spill, n, r, pi)) == if spill then Push(m, r) else m
  {
    if spill {
      ExecOne(m, Spill(n, r, pi));
    }
  }

  /** pop {r} when spill holds. */
  lemma ReloadEffect(m: Machine, spill: bool, n: nat, r: Reg, pi: PredInfo)
    ensures Exec(m, ReloadIf(spill, n, r, pi)) == if spill then Pop(m, r) else m
  {
    if spill {
      ExecOne(m, Reload(n, r, pi));
    }
  }

  /** A value already in range is its own unsigned word. */
  lemma U32Small(x: int)
    requires 0 <= x < Word
    ensures U32(x) == x
  {
  }

  /** add r, sp, r. */
  lemma AddSPStep(m: Machine, n: nat, r: Reg, pi: PredInfo)
    ensures Exec(m, [AddSP(n, r, pi)]) == SetReg(m, r, U32(Val(m, SP) + Val(m, r)))
  {
    ExecOne(m, AddSP(n, r, pi));
  }

  /** strt lr, [r]. */
  lemma UnprivStep(m: Machine, n: nat, r: Reg, pi: PredInfo)
    ensures Exec(m, [StoreUnpriv(n, r, pi)]) == StoreAt(m, U32(Val(m, r) + 0), Val(m, LR))
  {
    ExecOne(m, StoreUnpriv(n, r, pi));
  }

  /** str lr, [sp, #off]. */
  lemma StoreShortStep(m: Machine, n: nat, off: int, pi: PredInfo)
    ensures Exec(m, [StoreShort(n, off, pi)]) == StoreAt(m, U32(Val(m, SP) + off), Val(m, LR))
  {
    ExecOne(m, StoreShort(n, off, pi));
  }

  /** add sp, #4. */
  lemma SkipSlotStep(m: Machine, n: nat, pi: PredInfo)
    ensures Exec(m, [SkipSlot(n, pi)]) == SetReg(m, SP, U32(Val(m, SP) + 4))
  {
    ExecOne(m, SkipSlot(n, pi));
  }

  /** ldr d, [sp, #off]. */
  lemma LoadShortStep(m: Machine, n: nat, d: Reg, off: int, pi: PredInfo)
    ensures Exec(m, [LoadShort(n, d, off, pi)]) == SetReg(m, d, Load(m, U32(Val(m, SP) + off)))
  {
    ExecOne(m, LoadShort(n, d, off, pi));
  }

  /** bx lr when ret holds. */
  lemma ReturnEffect(m: Machine, ret: bool, n: nat, pi: PredInfo)
    ensures Exec(m, ReturnIf(ret, n, pi)) == if ret then SetReg(m, PC, Val(m, LR)) else m
  {
    if ret {
      ExecOne(m, Return(n, pi));
    }
  }

  /** ldr d, [sp, r]. */
  lemma LoadRegStep(m: Machine, n: nat, d: Reg, r: Reg, pi: PredInfo)
    ensures Exec(m, [LoadReg(n, d, r, pi)]) == SetReg(m, d, Load(m, U32(Val(m, SP) + Val(m, r))))
  {
    ExecOne(m, LoadReg(n, d, r, pi));
  }

  /** The store of LR at SP plus r, directly or through the unprivileged
      store at the address computed in r. */
  lemma StoreLREffect(m: Machine, invert: bool, n: nat, r: Reg, pi: PredInfo)
    requires r != SP && r != LR
    ensures var a := U32(Val(m, SP) + Val(m, r));
      Exec(m, StoreLR(invert, n, r, pi)) ==
      (if invert then StoreAt(SetReg(m, r, a), a, Val(m, LR)) else StoreAt(m, a, Val(m, LR)))
  {
    var a := U32(Val(m, SP) + Val(m, r));
    if invert {
      var add := AddSP(n, r, pi);
      var st := StoreUnpriv(n + 1, r, pi);
      assert StoreLR(invert, n, r, pi) == [add] + [st];
      ExecAppend(m, [add], [st]);
      AddSPStep(m, n, r, pi);
      var m1 := SetReg(m, r, a);
      UnprivStep(m1, n + 1, r, pi);
      assert Val(m1, r) + 0 == a && Val(m1, LR) == Val(m, LR);
      U32Small(a);
    } else {
      ExecOne(m, StoreReg(n, r, pi));
    }
  }
}
