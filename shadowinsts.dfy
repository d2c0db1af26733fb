/**
 * The instructions the Silhouette shadow-stack pass emits: its configuration
 * (the shadow stack's distance from the stack, the store-hardening switch),
 * the Thumb-2 modified-immediate test that picks between one MOV and a
 * MOVW/MOVT pair, the predicate every new instruction copies from the push
 * or pop it instruments, and the instruction lists the prologue and the
 * epilogue receive.
 */
module ShadowInsts {
  import opened MachineIR
  import opened Liveness

  /** The value of -arm-silhouette-shadowstack-offset when not given. */
  const DefaultOffset: int := 14680064

  const Word: int := 0x1_0000_0000

  /** The pass's options: the shadow stack's offset from the stack (an int
      in the source), whether stores are hardened by running them
      unprivileged (SilhouetteInvert), and whether the free-register query
      is restricted to R0-R7. */
  datatype Config = Config(offset: int, invert: bool, thumb: bool)

  /** The offset fits the source's 32-bit int. */
  predicate ConfigOk(cfg: Config)
  {
    -0x8000_0000 <= cfg.offset < 0x8000_0000
  }

  /** The unsigned 32-bit value of x: the conversion of the int offset to
      the unsigned argument of getT2SOImmVal, and address arithmetic. */
  function U32(x: int): (r: nat)
    ensures r < Word
  {
    x % Word
  }

  /** The prologue stores with one instruction: a non-negative offset that
      fits STR's 12-bit immediate, and stores are not hardened. */
  predicate ShortStore(cfg: Config)
  {
    0 <= cfg.offset <= 4092 && !cfg.invert
  }

  /** The epilogue loads with one instruction whether or not stores are
      hardened. */
  predicate ShortLoad(cfg: Config)
  {
    0 <= cfg.offset <= 4092
  }

  /** v is a byte with its top bit set, shifted left by sh. */
  predicate ShiftedByte(v: nat, sh: nat)
    decreases sh
  {
    if sh == 0 then 128 <= v < 256 else v % 2 == 0 && ShiftedByte(v / 2, sh - 1)
  }

  /** v is such a byte shifted left by one of 1 to sh. */
  predicate ShiftedUpTo(v: nat, sh: nat)
    decreases sh
  {
    sh >= 1 && (ShiftedByte(v, sh) || ShiftedUpTo(v, sh - 1))
  }

  /** v is a byte splatted over the word as 0x00XY00XY, 0xXY00XY00 or
      0xXYXYXYXY. */
  predicate Splat(v: nat)
  {
    var lo := v % 0x10000;
    var hi := v / 0x10000;
    v < Word && lo == hi && (lo < 256 || lo % 256 == 0 || lo % 256 == lo / 256)
  }

  /** getT2SOImmVal(v) != -1: v is a Thumb-2 modified immediate (the
      constants ThumbExpandImm produces, section A5.3.2 of the ARMv7-M
      Architecture Reference Manual): a byte, a splatted byte, or a byte
      with its top bit set shifted left by 1 to 24. */
  predicate T2ModImm(v: nat)
  {
    v < 256 || Splat(v) || ShiftedUpTo(v, 24)
  }

  /** A shift found at sh is found by every wider search. */
  lemma {:induction false} UpToWiden(v: nat, sh: nat, k: nat)
    requires 1 <= sh <= k && ShiftedByte(v, sh)
    ensures ShiftedUpTo(v, k)
    decreases k
  {
    if k > sh {
      UpToWiden(v, sh, k - 1);
    }
  }

  /** b * 2^sh for a byte b with its top bit set. */
  lemma {:induction false} ShiftedMul(b: nat, sh: nat, v: nat)
    requires 128 <= b < 256 && v == b * Pow2Nat(sh)
    ensures ShiftedByte(v, sh)
    decreases sh
  {
    if sh > 0 {
      assert v == 2 * (b * Pow2Nat(sh - 1));
      ShiftedMul(b, sh - 1, v / 2);
    }
  }

  function Pow2Nat(e: nat): (r: nat)
    ensures r >= 1
  {
    if e == 0 then 1 else 2 * Pow2Nat(e - 1)
  }

  /** The default offset, 0xE0 shifted left by 16, takes one MOV. */
  lemma DefaultOffsetEncodable()
    ensures T2ModImm(U32(DefaultOffset))
    ensures !ShortStore(Config(DefaultOffset, false, false))
  {
    assert Pow2Nat(4) == 16;
    assert Pow2Nat(8) == 256;
    assert Pow2Nat(12) == 4096;
    assert Pow2Nat(16) == 65536;
    ShiftedMul(0xE0, 16, U32(DefaultOffset));
    UpToWiden(U32(DefaultOffset), 16, 24);
  }

  /** A value with two different non-zero bytes, 0x1234, takes the
      MOVW form. */
  lemma NotEncodableExample()
    ensures !T2ModImm(0x1234)
  {
    NotShiftedUpTo(24);
  }

  lemma {:induction false} NotShiftedUpTo(k: nat)
    ensures !ShiftedUpTo(0x1234, k)
  {
    if k >= 1 {
      NotShiftedUpTo(k - 1);
      if k >= 3 {
        assert ShiftedByte(0x1234, k) == ShiftedByte(0x91A, k - 1);
        assert ShiftedByte(0x91A, k - 1) == ShiftedByte(0x48D, k - 2);
      } else if k == 2 {
        assert ShiftedByte(0x1234, 2) == ShiftedByte(0x91A, 1);
      }
    }
  }

  /** ROR(x, r) on 32-bit words. */
  function Ror(x: nat, r: nat): (y: nat)
    requires x < Word && r < 32
  {
    Quot(x, Pow2Nat(r)) + Shl(x % Pow2Nat(r), 32 - r)
  }

  function Quot(x: nat, d: nat): nat
    requires d > 0
  {
    x / d
  }

  /** x shifted left by e. */
  function Shl(x: nat, e: nat): nat
  {
    x * Pow2Nat(e)
  }

  /** ThumbExpandImm (section A5.3.2 of the ARMv7-M Architecture Reference
      Manual): the 32-bit constant a 12-bit modified-immediate field
      stands for. Top bits 00 select the byte, 0x00XY00XY, 0xXY00XY00 or
      0xXYXYXYXY forms; otherwise the byte 1bcdefgh is rotated right by
      the field's top five bits. */
  function ThumbExpandImm(imm12: nat): (v: nat)
    requires imm12 < 4096
  {
    var b := imm12 % 256;
    if imm12 / 1024 == 0 then
      var form := imm12 / 256;
      if form == 0 then b
      else if form == 1 then b * 0x0001_0001
      else if form == 2 then b * 0x0100_0100
      else b * 0x0101_0101
    else Ror(128 + imm12 % 128, imm12 / 128)
  }

  /** A byte rotated right by 8 to 31 is that byte shifted left by the
      rest of 32. */
  lemma RorByte(x: nat, r: nat)
    requires x < 256 && 8 <= r < 32
    ensures Ror(x, r) == x * Pow2Nat(32 - r)
  {
    Pow2Mono(8, r);
    assert Pow2Nat(8) == 256;
    SmallDivMod(x, Pow2Nat(r));
  }

  lemma SmallDivMod(x: nat, d: nat)
    requires x < d
    ensures x / d == 0 && x % d == x
  {
  }

  lemma {:induction false} Pow2Mono(a: nat, b: nat)
    requires a <= b
    ensures Pow2Nat(a) <= Pow2Nat(b)
    decreases b
  {
    if a < b {
      Pow2Mono(a, b - 1);
    }
  }

  /** ShiftedByte(v, sh) holds for b * 2^sh and for nothing else. */
  lemma {:induction false} ShiftedFactor(v: nat, sh: nat) returns (b: nat)
    requires ShiftedByte(v, sh)
    ensures 128 <= b < 256 && v == b * Pow2Nat(sh)
    decreases sh
  {
    if sh == 0 {
      b := v;
    } else {
      b := ShiftedFactor(v / 2, sh - 1);
    }
  }

  lemma {:induction false} UpToFactor(v: nat, k: nat) returns (b: nat, sh: nat)
    requires ShiftedUpTo(v, k)
    ensures 128 <= b < 256 && 1 <= sh <= k && v == b * Pow2Nat(sh)
    decreases k
  {
    if ShiftedByte(v, k) {
      sh := k;
      b := ShiftedFactor(v, k);
    } else {
      b, sh := UpToFactor(v, k - 1);
    }
  }

  /** The three splat forms of a byte. */
  lemma SplatForms(b: nat)
    requires b < 256
    ensures Splat(b * 0x0001_0001) && Splat(b * 0x0100_0100) && Splat(b * 0x0101_0101)
  {
    SplatHalves(b * 0x0001_0001, b);
    SplatHalves(b * 0x0100_0100, b * 256);
    SplatHalves(b * 0x0101_0101, b * 257);
  }

  /** v made of two equal halves h. */
  lemma SplatHalves(v: nat, h: nat)
    requires h < 0x10000 && v == h * 0x10000 + h
    ensures v % 0x10000 == h && v / 0x10000 == h && v < Word
  {
  }

  /** The field that stands for a splatted value. */
  lemma SplatField(v: nat) returns (imm12: nat)
    requires Splat(v)
    ensures imm12 < 4096 && ThumbExpandImm(imm12) == v
  {
    var lo := SplatLow(v);
    if lo < 256 {
      imm12 := SplatExpands(1, lo);
    } else if lo % 256 == 0 {
      imm12 := SplatExpands(2, lo / 256);
      SplatByteForm(lo / 256, 256, lo, v);
    } else {
      imm12 := SplatExpands(3, lo % 256);
      SplatByteForm(lo % 256, 257, lo, v);
    }
  }

  /** The field of splat form 1, 2 or 3 for the byte b. */
  lemma SplatExpands(form: nat, b: nat) returns (imm12: nat)
    requires 1 <= form <= 3 && b < 256
    ensures imm12 < 4096
    ensures ThumbExpandImm(imm12) == b * (if form == 1 then 0x0001_0001 else if form == 2 then 0x0100_0100 else 0x0101_0101)
  {
    imm12 := form * 256 + b;
    assert imm12 / 1024 == 0 && imm12 / 256 == form && imm12 % 256 == b;
  }

  /** A splatted value is its low half repeated. */
  lemma SplatLow(v: nat) returns (lo: nat)
    requires Splat(v)
    ensures lo == v % 0x10000 && v == lo * 0x0001_0001
    ensures lo < 256 || lo % 256 == 0 || lo % 256 == lo / 256
    ensures lo % 256 == 0 ==> lo == (lo / 256) * 256
    ensures lo % 256 == lo / 256 ==> lo == (lo % 256) * 257
  {
    lo := v % 0x10000;
  }

  lemma SplatByteForm(b: nat, m: nat, lo: nat, v: nat)
    requires lo == b * m && v == lo * 0x0001_0001
    ensures v == b * (m * 0x0001_0001)
  {
  }

  /** The field that stands for b shifted left by sh. */
  lemma ShiftedField(b: nat, sh: nat) returns (imm12: nat)
    requires 128 <= b < 256 && 1 <= sh <= 24
    ensures imm12 < 4096 && ThumbExpandImm(imm12) == b * Pow2Nat(sh)
  {
    imm12 := (32 - sh) * 128 + (b - 128);
    assert imm12 / 128 == 32 - sh && imm12 % 128 == b - 128;
    RorByte(b, 32 - sh);
  }

  /** The value of a field is a Thumb-2 modified immediate. */
  lemma FieldEncodable(imm12: nat)
    requires imm12 < 4096
    ensures T2ModImm(ThumbExpandImm(imm12))
  {
    var b := imm12 % 256;
    if imm12 / 1024 == 0 {
      SplatForms(b);
    } else {
      var r := imm12 / 128;
      RorByte(128 + imm12 % 128, r);
      ShiftedMul(128 + imm12 % 128, 32 - r, ThumbExpandImm(imm12));
      UpToWiden(ThumbExpandImm(imm12), 32 - r, 24);
    }
  }

  /** getT2SOImmVal succeeds on v exactly when some 12-bit field expands
      to v: the test accepts every constant ThumbExpandImm produces and
      nothing else. */
  lemma T2ModImmIsExpansion(v: nat)
    ensures T2ModImm(v) <==> exists imm12 :: imm12 < 4096 && ThumbExpandImm(imm12) == v
  {
    if T2ModImm(v) {
      var imm12: nat;
      if v < 256 {
        imm12 := v;
      } else if Splat(v) {
        imm12 := SplatField(v);
      } else {
        var b, sh := UpToFactor(v, 24);
        imm12 := ShiftedField(b, sh);
      }
      assert ThumbExpandImm(imm12) == v;
    }
    if exists imm12 :: imm12 < 4096 && ThumbExpandImm(imm12) == v {
      var imm12 :| imm12 < 4096 && ThumbExpandImm(imm12) == v;
      FieldEncodable(imm12);
    }
  }

  /** getInstrPredicate's result: the condition and the predicate
      register. */
  datatype PredInfo = PredInfo(pred: Pred, reg: Reg)

  /** Where the first condition-code operand of ops is, if any
      (findFirstPredOperandIdx). */
  function FirstPredIndex(ops: seq<Operand>): Option<nat>
  {
    if ops == [] then None
    else if ops[0].PredOp? then Some(0)
    else match FirstPredIndex(ops[1..])
      case None => None
      case Some(i) => Some(i + 1)
  }

  /** FirstPredIndex finds the first condition-code operand, and None means
      there is none. */
  lemma {:induction false} FirstPredIndexFinds(ops: seq<Operand>)
    ensures var r := FirstPredIndex(ops);
      && (r.Some? ==> r.value < |ops| && ops[r.value].PredOp? && forall i :: 0 <= i < r.value ==> !ops[i].PredOp?)
      && (r.None? ==> forall i :: 0 <= i < |ops| ==> !ops[i].PredOp?)
  {
    if ops != [] && !ops[0].PredOp? {
      FirstPredIndexFinds(ops[1..]);
      assert forall i :: 1 <= i < |ops| ==> ops[i] == ops[1..][i - 1];
    }
  }

  /** getInstrPredicate: the first condition-code operand and the register
      after it; "always" and no register when there is none. */
  function InstrPredicate(mi: Instr): PredInfo
  {
    match FirstPredIndex(mi.ops)
    case None => PredInfo(Always, NoReg)
    case Some(i) =>
      var r := if i < |mi.ops| && i + 1 < |mi.ops| && mi.ops[i + 1].RegOp? then mi.ops[i + 1].reg else NoReg;
      PredInfo(if i < |mi.ops| && mi.ops[i].PredOp? then mi.ops[i].pred else Always, r)
  }

  /** The operands predOps appends for a predicate. */
  function P(pi: PredInfo): seq<Operand>
  {
    PredOps(pi.pred, pi.reg)
  }

  /** str lr, [sp, #off] */
  function StoreShort(n: nat, off: int, pi: PredInfo): Instr
  {
    Instr(n, T2STRi12, [RegOp(LR), RegOp(SP), ImmOp(off)] + P(pi), [], ShadowStackFlag)
  }

  /** push {r}: spill the scratch register. */
  function Spill(n: nat, r: Reg, pi: PredInfo): Instr
  {
    Instr(n, TPUSH, P(pi) + [RegOp(r)], [], NoFlags)
  }

  /** pop {r}: reload the scratch register. */
  function Reload(n: nat, r: Reg, pi: PredInfo): Instr
  {
    Instr(n, TPOP, P(pi) + [RegOp(r)], [], NoFlags)
  }

  /** mov r, #off, without setting the flags. */
  function MovImm(n: nat, r: Reg, off: int, pi: PredInfo): Instr
  {
    Instr(n, T2MOVi, [RegOp(r), ImmOp(off)] + P(pi) + [RegOp(NoReg)], [], ShadowStackFlag)
  }

  /** movw r, #(off & 0xffff) */
  function MovLow(n: nat, r: Reg, off: int, pi: PredInfo): Instr
  {
    Instr(n, T2MOVi16, [RegOp(r), ImmOp(off % 0x10000)] + P(pi), [], ShadowStackFlag)
  }

  /** movt r, #(off >> 16): >> on a signed int rounds toward minus
      infinity, as Dafny's / by a positive divisor does. */
  function MovHigh(n: nat, r: Reg, off: int, pi: PredInfo): Instr
  {
    Instr(n, T2MOVTi16, [RegOp(r), RegOp(r), ImmOp(off / 0x10000)] + P(pi), [], ShadowStackFlag)
  }

  /** add r, sp, r */
  function AddSP(n: nat, r: Reg, pi: PredInfo): Instr
  {
    Instr(n, TADDrSP, [RegOp(r), RegOp(SP), RegOp(r)] + P(pi), [], ShadowStackFlag)
  }

  /** strt lr, [r, #0]: the unprivileged store of hardened mode. */
  function StoreUnpriv(n: nat, r: Reg, pi: PredInfo): Instr
  {
    Instr(n, T2STRT, [RegOp(LR), RegOp(r), ImmOp(0)] + P(pi), [], ShadowStackFlag)
  }

  /** str lr, [sp, r] */
  function StoreReg(n: nat, r: Reg, pi: PredInfo): Instr
  {
    Instr(n, T2STRs, [RegOp(LR), RegOp(SP), RegOp(r), ImmOp(0)] + P(pi), [], ShadowStackFlag)
  }

  /** add sp, #4 (the immediate counts words): skip the PC/LR slot. */
  function SkipSlot(n: nat, pi: PredInfo): Instr
  {
    Instr(n, TADDspi, [RegOp(SP), RegOp(SP), ImmOp(1)] + P(pi), [], ShadowStackFlag)
  }

  /** ldr dst, [sp, #off], the returning form when dst is PC. */
  function LoadShort(n: nat, dst: Reg, off: int, pi: PredInfo): Instr
  {
    Instr(n, if dst == PC then T2LDRi12_RET else T2LDRi12,
          [RegOp(dst), RegOp(SP), ImmOp(off)] + P(pi), [], ShadowStackFlag)
  }

  /** ldr dst, [sp, r], the returning form when dst is PC. */
  function LoadReg(n: nat, dst: Reg, r: Reg, pi: PredInfo): Instr
  {
    Instr(n, if dst == PC then T2LDRs_RET else T2LDRs,
          [RegOp(dst), RegOp(SP), RegOp(r), ImmOp(0)] + P(pi), [], ShadowStackFlag)
  }

  /** bx lr */
  function Return(n: nat, pi: PredInfo): Instr
  {
    Instr(n, TBX_RET, P(pi), [], NoFlags)
  }

  /** ldr dst, [sp], #4: what a two-register LDMIA_UPD becomes once PC/LR is
      taken out of it; it keeps the old instruction's flags. */
  function LdrPost(n: nat, dst: Reg, pi: PredInfo, flags: Flags): Instr
  {
    Instr(n, T2LDR_POST, [RegOp(dst), RegOp(SP), RegOp(SP), ImmOp(4)] + P(pi), [], flags)
  }

  /** Materialize the offset in r: one MOV when it is a modified immediate,
      else MOVW with its low half and, unless the high half is zero, MOVT
      with the high half. */
  function Materialize(n: nat, r: Reg, off: int, pi: PredInfo): (s: seq<Instr>)
    ensures 1 <= |s| <= 2
  {
    if T2ModImm(U32(off)) then [MovImm(n, r, off, pi)]
    else [MovLow(n, r, off, pi)] + (if off / 0x10000 != 0 then [MovHigh(n + 1, r, off, pi)] else [])
  }

  /** The scratch register: the first free one, or R4 spilled around the
      sequence when there is none. */
  function Scratch(free: seq<Reg>): Reg
  {
    if free == [] then R4 else free[0]
  }

  /** The instructions setupShadowStack puts before the push, numbered from
      n: a single store, or the offset materialized in the scratch register
      and LR stored through it, spilled around when no register is free. */
  function SetupInsts(cfg: Config, pi: PredInfo, free: seq<Reg>, n: nat): seq<Instr>
  {
    if ShortStore(cfg) then [StoreShort(n, cfg.offset, pi)]
    else
      var spill := free == [];
      var r := Scratch(free);
      Spilled(spill, r, pi, n, SaveLR(cfg, r, pi, n + |SpillIf(spill, n, r, pi)|))
  }

  /** body, numbered from n plus the spill, between a push and a pop of r
      when spill holds. */
  function Spilled(spill: bool, r: Reg, pi: PredInfo, n: nat, body: seq<Instr>): seq<Instr>
  {
    var pre := SpillIf(spill, n, r, pi);
    pre + body + ReloadIf(spill, n + |pre| + |body|, r, pi)
  }

  /** Materialize the offset in r and store LR at SP plus r. */
  function SaveLR(cfg: Config, r: Reg, pi: PredInfo, n: nat): seq<Instr>
  {
    var mat := Materialize(n, r, cfg.offset, pi);
    mat + StoreLR(cfg.invert, n + |mat|, r, pi)
  }

  function SpillIf(spill: bool, n: nat, r: Reg, pi: PredInfo): (s: seq<Instr>)
    ensures |s| == if spill then 1 else 0
  {
    if spill then [Spill(n, r, pi)] else []
  }

  function ReloadIf(spill: bool, n: nat, r: Reg, pi: PredInfo): (s: seq<Instr>)
    ensures |s| == if spill then 1 else 0
  {
    if spill then [Reload(n, r, pi)] else []
  }

  /** The store of LR at SP plus r: through an unprivileged STRT at the
      address computed in r when hardened. */
  function StoreLR(invert: bool, n: nat, r: Reg, pi: PredInfo): (s: seq<Instr>)
    ensures |s| == if invert then 2 else 1
  {
    if invert then [AddSP(n, r, pi), StoreUnpriv(n + 1, r, pi)] else [StoreReg(n, r, pi)]
  }

  function ReturnIf(ret: bool, n: nat, pi: PredInfo): (s: seq<Instr>)
    ensures |s| == if ret then 1 else 0
  {
    if ret then [Return(n, pi)] else []
  }

  /** The epilogue has to return with its own BX: it spills, and the pop
      returns through PC, which is loaded into LR instead. */
  predicate NeedReturn(cfg: Config, dst: Reg, free: seq<Reg>)
  {
    !ShortLoad(cfg) && free == [] && dst == PC
  }

  /** The instructions popFromShadowStack puts after the pop, numbered from
      n, where dst is the register the pop returned into (PC or LR): skip
      the slot, then a single load or the long form. */
  function PopInsts(cfg: Config, pi: PredInfo, dst: Reg, free: seq<Reg>, n: nat): seq<Instr>
  {
    [SkipSlot(n, pi)] +
    if ShortLoad(cfg) then [LoadShort(n + 1, dst, cfg.offset, pi)] else PopLong(cfg, pi, dst, free, n + 1)
  }

  /** The long form of the epilogue's load, numbered from n: the load
      through the scratch register, spilled around when no register is
      free, into LR when the pop returned through PC and the sequence
      spills, then that return. */
  function PopLong(cfg: Config, pi: PredInfo, dst: Reg, free: seq<Reg>, n: nat): seq<Instr>
  {
    var spill := free == [];
    var r := Scratch(free);
    var ret := NeedReturn(cfg, dst, free);
    var body := LoadLR(cfg, if ret then LR else dst, r, pi, n + |SpillIf(spill, n, r, pi)|);
    var s := Spilled(spill, r, pi, n, body);
    s + ReturnIf(ret, n + |s|, pi)
  }

  /** Materialize the offset in r and load d from SP plus r. */
  function LoadLR(cfg: Config, d: Reg, r: Reg, pi: PredInfo, n: nat): seq<Instr>
  {
    var mat := Materialize(n, r, cfg.offset, pi);
    mat + [LoadReg(n + |mat|, d, r, pi)]
  }

  /** x is the new instruction with id id, predicated by pi, emitting code,
      not an IT. */
  predicate FreshAt(x: Instr, id: nat, pi: PredInfo)
  {
    x.id == id && InstrPredicate(x) == pi && !IsMeta(x) && !IsIT(x)
  }

  lemma {:induction false} FirstPredSkip(pre: seq<Operand>, rest: seq<Operand>)
    requires forall i :: 0 <= i < |pre| ==> !pre[i].PredOp?
    ensures FirstPredIndex(pre + rest) ==
            match FirstPredIndex(rest) case None => None case Some(k) => Some(k + |pre|)
    decreases |pre|
  {
    if pre != [] {
      assert (pre + rest)[1..] == pre[1..] + rest;
      FirstPredSkip(pre[1..], rest);
    } else {
      assert pre + rest == rest;
    }
  }

  /** An instruction whose operands are pre, the predicate's operands and
      post, with no condition code in pre, is predicated by pi. */
  lemma PredicateOf(mi: Instr, pre: seq<Operand>, pi: PredInfo, post: seq<Operand>)
    requires mi.ops == pre + P(pi) + post
    requires forall i :: 0 <= i < |pre| ==> !pre[i].PredOp?
    ensures InstrPredicate(mi) == pi
  {
    assert pre + P(pi) + post == pre + (P(pi) + post);
    FirstPredSkip(pre, P(pi) + post);
  }

  /** The builders of the prologue's stores and spills copy the predicate
      they are given. */
  lemma SetupBuildersPredicated(n: nat, r: Reg, off: int, pi: PredInfo)
    ensures InstrPredicate(StoreShort(n, off, pi)) == pi
    ensures InstrPredicate(Spill(n, r, pi)) == pi && InstrPredicate(Reload(n, r, pi)) == pi
    ensures InstrPredicate(AddSP(n, r, pi)) == pi && InstrPredicate(StoreUnpriv(n, r, pi)) == pi
    ensures InstrPredicate(StoreReg(n, r, pi)) == pi
  {
    PredicateOf(StoreShort(n, off, pi), [RegOp(LR), RegOp(SP), ImmOp(off)], pi, []);
    PredicateOf(Spill(n, r, pi), [], pi, [RegOp(r)]);
    PredicateOf(Reload(n, r, pi), [], pi, [RegOp(r)]);
    PredicateOf(AddSP(n, r, pi), [RegOp(r), RegOp(SP), RegOp(r)], pi, []);
    PredicateOf(StoreUnpriv(n, r, pi), [RegOp(LR), RegOp(r), ImmOp(0)], pi, []);
    PredicateOf(StoreReg(n, r, pi), [RegOp(LR), RegOp(SP), RegOp(r), ImmOp(0)], pi, []);
  }

  /** The builders that materialize the offset copy the predicate they are
      given. */
  lemma MovBuildersPredicated(n: nat, r: Reg, off: int, pi: PredInfo)
    ensures InstrPredicate(MovImm(n, r, off, pi)) == pi
    ensures InstrPredicate(MovLow(n, r, off, pi)) == pi && InstrPredicate(MovHigh(n, r, off, pi)) == pi
  {
    PredicateOf(MovImm(n, r, off, pi), [RegOp(r), ImmOp(off)], pi, [RegOp(NoReg)]);
    PredicateOf(MovLow(n, r, off, pi), [RegOp(r), ImmOp(off % 0x10000)], pi, []);
    PredicateOf(MovHigh(n, r, off, pi), [RegOp(r), RegOp(r), ImmOp(off / 0x10000)], pi, []);
  }

  /** The builders of the epilogue copy the predicate they are given. */
  lemma PopBuildersPredicated(n: nat, d: Reg, r: Reg, off: int, pi: PredInfo, flags: Flags)
    ensures InstrPredicate(SkipSlot(n, pi)) == pi
    ensures InstrPredicate(LoadShort(n, d, off, pi)) == pi && InstrPredicate(LoadReg(n, d, r, pi)) == pi
    ensures InstrPredicate(Return(n, pi)) == pi && InstrPredicate(LdrPost(n, d, pi, flags)) == pi
  {
    PredicateOf(SkipSlot(n, pi), [RegOp(SP), RegOp(SP), ImmOp(1)], pi, []);
    PredicateOf(Return(n, pi), [], pi, []);
    LoadBuildersPredicated(n, d, r, off, pi, flags);
  }

  lemma LoadBuildersPredicated(n: nat, d: Reg, r: Reg, off: int, pi: PredInfo, flags: Flags)
    ensures InstrPredicate(LoadShort(n, d, off, pi)) == pi && InstrPredicate(LoadReg(n, d, r, pi)) == pi
    ensures InstrPredicate(LdrPost(n, d, pi, flags)) == pi
  {
    PredicateOf(LoadShort(n, d, off, pi), [RegOp(d), RegOp(SP), ImmOp(off)], pi, []);
    PredicateOf(LoadReg(n, d, r, pi), [RegOp(d), RegOp(SP), RegOp(r), ImmOp(0)], pi, []);
    PredicateOf(LdrPost(n, d, pi, flags), [RegOp(d), RegOp(SP), RegOp(SP), ImmOp(4)], pi, []);
  }

  /** New instructions fit to be inserted for an instruction predicated by
      pi: numbered from n, predicated by pi, emitting code, no IT. */
  predicate Fresh(s: seq<Instr>, n: nat, pi: PredInfo)
  {
    forall i :: 0 <= i < |s| ==> FreshAt(s[i], n + i, pi)
  }

  lemma FreshConcat(a: seq<Instr>, b: seq<Instr>, n: nat, pi: PredInfo)
    requires Fresh(a, n, pi) && Fresh(b, n + |a|, pi)
    ensures Fresh(a + b, n, pi)
  {
    forall i | |a| <= i < |a + b| ensures (a + b)[i] == b[i - |a|] {
    }
  }

  lemma FreshSingle(x: Instr, n: nat, pi: PredInfo)
    requires x.id == n && InstrPredicate(x) == pi && !IsMeta(x) && !IsIT(x)
    ensures Fresh([x], n, pi)
  {
  }

  lemma MaterializeFresh(n: nat, r: Reg, off: int, pi: PredInfo)
    ensures Fresh(Materialize(n, r, off, pi), n, pi)
  {
    MovBuildersPredicated(n, r, off, pi);
    if T2ModImm(U32(off)) {
      FreshSingle(MovImm(n, r, off, pi), n, pi);
    } else {
      FreshSingle(MovLow(n, r, off, pi), n, pi);
      if off / 0x10000 != 0 {
        MovBuildersPredicated(n + 1, r, off, pi);
        FreshSingle(MovHigh(n + 1, r, off, pi), n + 1, pi);
        FreshConcat([MovLow(n, r, off, pi)], [MovHigh(n + 1, r, off, pi)], n, pi);
      } else {
        assert Materialize(n, r, off, pi) == [MovLow(n, r, off, pi)];
      }
    }
  }

  lemma SpillFresh(b: bool, n: nat, r: Reg, pi: PredInfo)
    ensures Fresh(SpillIf(b, n, r, pi), n, pi) && Fresh(ReloadIf(b, n, r, pi), n, pi)
  {
    SetupBuildersPredicated(n, r, 0, pi);
    if b {
      FreshSingle(Spill(n, r, pi), n, pi);
      FreshSingle(Reload(n, r, pi), n, pi);
    }
  }

  lemma StoreLRFresh(b: bool, n: nat, r: Reg, pi: PredInfo)
    ensures Fresh(StoreLR(b, n, r, pi), n, pi)
  {
    SetupBuildersPredicated(n, r, 0, pi);
    if b {
      SetupBuildersPredicated(n + 1, r, 0, pi);
      FreshSingle(AddSP(n, r, pi), n, pi);
      FreshSingle(StoreUnpriv(n + 1, r, pi), n + 1, pi);
      FreshConcat([AddSP(n, r, pi)], [StoreUnpriv(n + 1, r, pi)], n, pi);
    } else {
      FreshSingle(StoreReg(n, r, pi), n, pi);
    }
  }

  lemma ReturnIfFresh(b: bool, n: nat, pi: PredInfo)
    ensures Fresh(ReturnIf(b, n, pi), n, pi)
  {
    if b {
      PopBuildersPredicated(n, R0, R0, 0, pi, NoFlags);
      FreshSingle(Return(n, pi), n, pi);
    }
  }

  lemma SpilledFresh(spill: bool, r: Reg, pi: PredInfo, n: nat, body: seq<Instr>)
    requires Fresh(body, n + |SpillIf(spill, n, r, pi)|, pi)
    ensures Fresh(Spilled(spill, r, pi, n, body), n, pi)
  {
    var pre := SpillIf(spill, n, r, pi);
    SpillFresh(spill, n, r, pi);
    SpillFresh(spill, n + |pre| + |body|, r, pi);
    FreshConcat(pre, body, n, pi);
    FreshConcat(pre + body, ReloadIf(spill, n + |pre| + |body|, r, pi), n, pi);
  }

  lemma SaveLRFresh(cfg: Config, r: Reg, pi: PredInfo, n: nat)
    ensures Fresh(SaveLR(cfg, r, pi, n), n, pi)
  {
    var mat := Materialize(n, r, cfg.offset, pi);
    MaterializeFresh(n, r, cfg.offset, pi);
    StoreLRFresh(cfg.invert, n + |mat|, r, pi);
    FreshConcat(mat, StoreLR(cfg.invert, n + |mat|, r, pi), n, pi);
  }

  /** setupShadowStack's instructions are numbered from n, predicated like
      the push, emit code and hold no IT; the single store is the shortcut's
      only instruction. */
  lemma SetupFresh(cfg: Config, pi: PredInfo, free: seq<Reg>, n: nat)
    ensures var s := SetupInsts(cfg, pi, free, n);
      Fresh(s, n, pi) && (ShortStore(cfg) <==> |s| == 1)
  {
    var r := Scratch(free);
    if ShortStore(cfg) {
      StoreShortFresh(cfg, pi, r, n);
    } else {
      SetupLongFresh(cfg, pi, free == [], r, n);
      assert SetupInsts(cfg, pi, free, n) == Spilled(free == [], r, pi, n, SaveLR(cfg, r, pi, n + |SpillIf(free == [], n, r, pi)|));
    }
  }

  lemma StoreShortFresh(cfg: Config, pi: PredInfo, r: Reg, n: nat)
    ensures Fresh([StoreShort(n, cfg.offset, pi)], n, pi)
  {
    SetupBuildersPredicated(n, r, cfg.offset, pi);
    FreshSingle(StoreShort(n, cfg.offset, pi), n, pi);
  }

  lemma SetupLongFresh(cfg: Config, pi: PredInfo, spill: bool, r: Reg, n: nat)
    ensures var s := Spilled(spill, r, pi, n, SaveLR(cfg, r, pi, n + |SpillIf(spill, n, r, pi)|));
      Fresh(s, n, pi) && |s| >= 2
  {
    var k := n + |SpillIf(spill, n, r, pi)|;
    SaveLRFresh(cfg, r, pi, k);
    SpilledFresh(spill, r, pi, n, SaveLR(cfg, r, pi, k));
    LongLength(cfg, spill, r, pi, n, SaveLR(cfg, r, pi, k));
  }

  /** The long forms hold at least the materialization and the access. */
  lemma LongLength(cfg: Config, spill: bool, r: Reg, pi: PredInfo, n: nat, body: seq<Instr>)
    requires |body| >= 2
    ensures |Spilled(spill, r, pi, n, body)| >= 2
  {
  }

  lemma LoadLRFresh(cfg: Config, d: Reg, r: Reg, pi: PredInfo, n: nat)
    ensures Fresh(LoadLR(cfg, d, r, pi, n), n, pi)
  {
    var mat := Materialize(n, r, cfg.offset, pi);
    MaterializeFresh(n, r, cfg.offset, pi);
    PopBuildersPredicated(n + |mat|, d, r, 0, pi, NoFlags);
    FreshSingle(LoadReg(n + |mat|, d, r, pi), n + |mat|, pi);
    FreshConcat(mat, [LoadReg(n + |mat|, d, r, pi)], n, pi);
  }

  lemma PopLongFresh(cfg: Config, pi: PredInfo, dst: Reg, free: seq<Reg>, n: nat)
    ensures var s := PopLong(cfg, pi, dst, free, n);
      Fresh(s, n, pi) && |s| >= 2
  {
    var spill := free == [];
    var r := Scratch(free);
    var ret := NeedReturn(cfg, dst, free);
    var k := n + |SpillIf(spill, n, r, pi)|;
    var d := if ret then LR else dst;
    var body := LoadLR(cfg, d, r, pi, k);
    LoadLRFresh(cfg, d, r, pi, k);
    SpilledFresh(spill, r, pi, n, body);
    var s := Spilled(spill, r, pi, n, body);
    LongLength(cfg, spill, r, pi, n, body);
    ReturnFresh(s, ret, n, pi);
    assert PopLong(cfg, pi, dst, free, n) == s + ReturnIf(ret, n + |s|, pi);
  }

  lemma ReturnFresh(s: seq<Instr>, ret: bool, n: nat, pi: PredInfo)
    requires Fresh(s, n, pi)
    ensures Fresh(s + ReturnIf(ret, n + |s|, pi), n, pi)
  {
    ReturnIfFresh(ret, n + |s|, pi);
    FreshConcat(s, ReturnIf(ret, n + |s|, pi), n, pi);
  }

  /** popFromShadowStack's instructions are numbered from n, predicated
      like the pop, emit code and hold no IT; they start with the slot skip
      and are two in the shortcut. */
  lemma PopFresh(cfg: Config, pi: PredInfo, dst: Reg, free: seq<Reg>, n: nat)
    ensures var s := PopInsts(cfg, pi, dst, free, n);
      Fresh(s, n, pi) && s[0] == SkipSlot(n, pi) && (ShortLoad(cfg) <==> |s| == 2)
  {
    var head := [SkipSlot(n, pi)];
    PopBuildersPredicated(n, dst, dst, cfg.offset, pi, NoFlags);
    FreshSingle(SkipSlot(n, pi), n, pi);
    if ShortLoad(cfg) {
      PopBuildersPredicated(n + 1, dst, dst, cfg.offset, pi, NoFlags);
      FreshSingle(LoadShort(n + 1, dst, cfg.offset, pi), n + 1, pi);
      FreshConcat(head, [LoadShort(n + 1, dst, cfg.offset, pi)], n, pi);
    } else {
      PopLongFresh(cfg, pi, dst, free, n + 1);
      FreshConcat(head, PopLong(cfg, pi, dst, free, n + 1), n, pi);
    }
  }
}
