/**
 * What the prologue and epilogue sequences of the shadow-stack pass do to
 * the machine: the prologue saves LR in the shadow-stack slot at SP plus
 * the offset, the epilogue loads the register it returns through from the
 * slot at its own SP plus the offset, and the two meet exactly when they
 * agree on spilling the scratch register.
 */
module ShadowEffects {
  import opened MachineIR
  import opened ShadowInsts
  import opened ThumbExec

  lemma U32AddR(x: int, y: int)
    ensures U32(x + U32(y)) == U32(x + y)
  {
    var q := y / Word;
    assert y == q * Word + U32(y);
    assert x + y == (x + U32(y)) + q * Word;
  }

  lemma U32AddL(x: int, y: int)
    ensures U32(U32(x) + y) == U32(x + y)
  {
    U32AddR(y, x);
  }

  /** SP plus a register holding the offset, as an address. */
  lemma SumAddr(m: Machine, sp: int, r: Reg, off: int)
    requires Val(m, SP) == sp && Val(m, r) == U32(off)
    ensures U32(Val(m, SP) + Val(m, r)) == U32(sp + off)
  {
    U32AddR(sp, off);
  }

  /** The state after LR is stored at SP plus off through r: r holds that
      address in invert mode, the offset otherwise. */
  function Saved(m: Machine, invert: bool, r: Reg, off: int): Machine
  {
    var a := U32(Val(m, SP) + off);
    StoreAt(SetReg(m, r, if invert then a else U32(off)), a, Val(m, LR))
  }

  lemma SavedIs(m: Machine, invert: bool, r: Reg, off: int)
    ensures var a := U32(Val(m, SP) + off);
      Saved(m, invert, r, off) == StoreAt(SetReg(m, r, if invert then a else U32(off)), a, Val(m, LR))
  {
  }

  lemma SavedVal(m: Machine, invert: bool, r: Reg, off: int, x: Reg)
    ensures var a := U32(Val(m, SP) + off);
      Val(Saved(m, invert, r, off), x) == if x == r then (if invert then a else U32(off)) else Val(m, x)
  {
    var a := U32(Val(m, SP) + off);
    SavedIs(m, invert, r, off);
    var v := if invert then a else U32(off);
    StoreAtVal(SetReg(m, r, v), a, Val(m, LR), x);
    SetRegVal(m, r, v, x);
  }

  lemma SavedLoad(m: Machine, invert: bool, r: Reg, off: int, x: nat)
    ensures var a := U32(Val(m, SP) + off);
      Load(Saved(m, invert, r, off), x) == if x == a then Val(m, LR) else Load(m, x)
  {
    var a := U32(Val(m, SP) + off);
    SavedIs(m, invert, r, off);
    var v := if invert then a else U32(off);
    StoreAtLoad(SetReg(m, r, v), a, Val(m, LR), x);
    SetRegLoad(m, r, v, x);
  }

  /** The store of LR once the scratch register holds the offset. */
  lemma StoreAfterOffset(m: Machine, invert: bool, k: nat, r: Reg, off: int, pi: PredInfo)
    requires r != SP && r != LR
    ensures Exec(SetReg(m, r, U32(off)), StoreLR(invert, k, r, pi)) == Saved(m, invert, r, off)
  {
    SavedIs(m, invert, r, off);
    var m1 := SetReg(m, r, U32(off));
    var a := U32(Val(m, SP) + off);
    SetRegVal(m, r, U32(off), SP);
    SetRegVal(m, r, U32(off), LR);
    SetRegVal(m, r, U32(off), r);
    SumAddr(m1, Val(m, SP), r, off);
    StoreLREffect(m1, invert, k, r, pi);
    if invert {
      assert SetReg(m1, r, a) == SetReg(m, r, a);
    }
  }

  /** Materializing the offset, then storing LR through it. */
  lemma SaveLREffect(m: Machine, cfg: Config, r: Reg, pi: PredInfo, n: nat)
    requires r != SP && r != LR
    ensures Exec(m, SaveLR(cfg, r, pi, n)) == Saved(m, cfg.invert, r, cfg.offset)
  {
    MaterializeThenStore(m, cfg.invert, n, r, cfg.offset, pi);
  }

  lemma MaterializeThenStore(m: Machine, invert: bool, n: nat, r: Reg, off: int, pi: PredInfo)
    requires r != SP && r != LR
    ensures var mat := Materialize(n, r, off, pi);
      Exec(m, mat + StoreLR(invert, n + |mat|, r, pi)) == Saved(m, invert, r, off)
  {
    var mat := Materialize(n, r, off, pi);
    var st := StoreLR(invert, n + |mat|, r, pi);
    StoreAfterOffset(m, invert, n + |mat|, r, off, pi);
    MaterializeEffect(m, n, r, off, pi);
    ExecThrough(m, mat, st, SetReg(m, r, U32(off)), Saved(m, invert, r, off));
  }

  /** The load into d once the scratch register holds the offset. */
  lemma LoadAfterOffset(m: Machine, k: nat, d: Reg, r: Reg, off: int, pi: PredInfo)
    requires r != SP
    ensures Exec(SetReg(m, r, U32(off)), [LoadReg(k, d, r, pi)]) ==
            SetReg(SetReg(m, r, U32(off)), d, Load(m, U32(Val(m, SP) + off)))
  {
    var m1 := SetReg(m, r, U32(off));
    SetRegVal(m, r, U32(off), SP);
    SetRegVal(m, r, U32(off), r);
    SumAddr(m1, Val(m, SP), r, off);
    SetRegLoad(m, r, U32(off), U32(Val(m, SP) + off));
    LoadRegStep(m1, k, d, r, pi);
  }

  /** The state after d is loaded from SP plus off through r, which is left
      holding the offset. */
  function Loaded(m: Machine, d: Reg, r: Reg, off: int): Machine
  {
    SetReg(SetReg(m, r, U32(off)), d, Load(m, U32(Val(m, SP) + off)))
  }

  lemma LoadedIs(m: Machine, d: Reg, r: Reg, off: int)
    ensures Loaded(m, d, r, off) == SetReg(SetReg(m, r, U32(off)), d, Load(m, U32(Val(m, SP) + off)))
  {
  }

  lemma LoadedVal(m: Machine, d: Reg, r: Reg, off: int, x: Reg)
    ensures Val(Loaded(m, d, r, off), x) ==
      if x == d then Load(m, U32(Val(m, SP) + off)) else if x == r then U32(off) else Val(m, x)
  {
    LoadedIs(m, d, r, off);
    var m1 := SetReg(m, r, U32(off));
    SetRegVal(m1, d, Load(m, U32(Val(m, SP) + off)), x);
    SetRegVal(m, r, U32(off), x);
  }

  lemma LoadedLoad(m: Machine, d: Reg, r: Reg, off: int, x: nat)
    ensures Load(Loaded(m, d, r, off), x) == Load(m, x)
  {
    LoadedIs(m, d, r, off);
    var m1 := SetReg(m, r, U32(off));
    SetRegLoad(m1, d, Load(m, U32(Val(m, SP) + off)), x);
    SetRegLoad(m, r, U32(off), x);
  }

  lemma LoadLREffect(m: Machine, cfg: Config, d: Reg, r: Reg, pi: PredInfo, n: nat)
    requires r != SP
    ensures Exec(m, LoadLR(cfg, d, r, pi, n)) == Loaded(m, d, r, cfg.offset)
  {
    MaterializeThenLoad(m, n, d, r, cfg.offset, pi);
  }

  /** Materializing the offset, then loading d through it. */
  lemma MaterializeThenLoad(m: Machine, n: nat, d: Reg, r: Reg, off: int, pi: PredInfo)
    requires r != SP
    ensures var mat := Materialize(n, r, off, pi);
      Exec(m, mat + [LoadReg(n + |mat|, d, r, pi)]) == Loaded(m, d, r, off)
  {
    LoadedIs(m, d, r, off);
    var mat := Materialize(n, r, off, pi);
    MaterializeEffect(m, n, r, off, pi);
    LoadAfterOffset(m, n + |mat|, d, r, off, pi);
    ExecThrough(m, mat, [LoadReg(n + |mat|, d, r, pi)], SetReg(m, r, U32(off)), Loaded(m, d, r, off));
  }

  /** A body run between the spill and the reload of r. */
  lemma SpilledEffect(m: Machine, spill: bool, r: Reg, pi: PredInfo, n: nat, body: seq<Instr>, mb: Machine)
    requires Exec(if spill then Push(m, r) else m, body) == mb
    ensures Exec(m, Spilled(spill, r, pi, n, body)) == (if spill then Pop(mb, r) else mb)
  {
    var pre := SpillIf(spill, n, r, pi);
    var post := ReloadIf(spill, n + |pre| + |body|, r, pi);
    SpillEffect(m, spill, n, r, pi);
    ReloadEffect(mb, spill, n + |pre| + |body|, r, pi);
    ExecAppend(m, pre, body);
    ExecAppend(m, pre + body, post);
  }

  /** The prologue spills R4 when no register is free and stores with more
      than one instruction; the epilogue when no register is free and loads
      with more than one. */
  predicate SetupSpills(cfg: Config, free: seq<Reg>)
  {
    !ShortStore(cfg) && free == []
  }

  predicate PopSpills(cfg: Config, free: seq<Reg>)
  {
    !ShortLoad(cfg) && free == []
  }

  /** Where the prologue run at stack pointer sp saves LR: SP plus the
      offset, with SP a word lower while R4 is spilled. */
  function SetupSlot(cfg: Config, free: seq<Reg>, sp: int): nat
  {
    U32(sp + cfg.offset - (if SetupSpills(cfg, free) then 4 else 0))
  }

  /** Where the epilogue run at stack pointer sp, which points at the
      popped PC/LR slot, loads from: SP past that slot plus the offset, with
      SP a word lower while R4 is spilled. */
  function PopSlot(cfg: Config, free: seq<Reg>, sp: int): nat
  {
    U32(sp + 4 + cfg.offset - (if PopSpills(cfg, free) then 4 else 0))
  }

  /** The multi-instruction prologue's run: spill, materialize and store,
      reload. */
  lemma SetupLongRun(m: Machine, cfg: Config, pi: PredInfo, free: seq<Reg>, n: nat)
    requires !ShortStore(cfg) && Scratch(free) != SP && Scratch(free) != LR
    ensures var r := Scratch(free);
      var mb := Saved(if free == [] then Push(m, r) else m, cfg.invert, r, cfg.offset);
      Exec(m, SetupInsts(cfg, pi, free, n)) == if free == [] then Pop(mb, r) else mb
  {
    var r := Scratch(free);
    var spill := free == [];
    assert SetupInsts(cfg, pi, free, n) == Spilled(spill, r, pi, n, SaveLR(cfg, r, pi, n + |SpillIf(spill, n, r, pi)|));
    SpilledSaveRun(m, cfg, pi, spill, r, n);
  }

  /** Storing LR through r, with r spilled around the store when spill. */
  lemma SpilledSaveRun(m: Machine, cfg: Config, pi: PredInfo, spill: bool, r: Reg, n: nat)
    requires r != SP && r != LR
    ensures var mb := Saved(if spill then Push(m, r) else m, cfg.invert, r, cfg.offset);
      Exec(m, Spilled(spill, r, pi, n, SaveLR(cfg, r, pi, n + |SpillIf(spill, n, r, pi)|))) == if spill then Pop(mb, r) else mb
  {
    var k := n + |SpillIf(spill, n, r, pi)|;
    var m0 := if spill then Push(m, r) else m;
    SaveLREffect(m0, cfg, r, pi, k);
    SpilledEffect(m, spill, r, pi, n, SaveLR(cfg, r, pi, k), Saved(m0, cfg.invert, r, cfg.offset));
  }

  /** The single-instruction prologue's run. */
  lemma SetupShortRun(m: Machine, cfg: Config, pi: PredInfo, free: seq<Reg>, n: nat)
    requires ShortStore(cfg)
    ensures Exec(m, SetupInsts(cfg, pi, free, n)) == StoreAt(m, U32(Val(m, SP) + cfg.offset), Val(m, LR))
  {
    assert SetupInsts(cfg, pi, free, n) == [StoreShort(n, cfg.offset, pi)];
    StoreShortStep(m, n, cfg.offset, pi);
  }

  /** Adding y to an address x wraps back to x only when y is 0 modulo 2^32. */
  lemma WrapSame(x: int, y: int)
    requires 0 <= x < Word
    ensures U32(x + y) == x <==> U32(y) == 0
  {
    U32AddR(x, y);
    var z := U32(y);
    if x + z >= Word {
      assert (x + z) % Word == x + z - Word;
    }
  }

  /** What a prologue leaves behind: LR at the slot; every other word of
      memory as it was, except the word below SP when R4 was spilled; every
      register but the scratch as it was, and the scratch too when keptR. */
  ghost predicate SetupOutcome(m: Machine, m2: Machine, slot: nat, r: Reg, spilled: bool, keptR: bool)
  {
    && Load(m2, slot) == Val(m, LR)
    && (forall a: nat :: a != slot && !(spilled && a == U32(Val(m, SP) - 4)) ==> Load(m2, a) == Load(m, a))
    && (forall x: Reg :: x != r ==> Val(m2, x) == Val(m, x))
    && (keptR ==> Val(m2, r) == Val(m, r))
  }

  /** The prologue restores the scratch register, unless it had to
      materialize the offset in a free register, or it spilled R4 and the
      offset is 0 so that the slot is R4's spill slot. */
  predicate SetupKeepsScratch(cfg: Config, free: seq<Reg>)
  {
    ShortStore(cfg) || (free == [] && U32(cfg.offset) != 0)
  }

  /** The machine after the prologue, instruction by instruction: the
      single store; or R4 pushed, LR stored through R4, R4 popped; or LR
      stored through the first free register. */
  function SetupState(m: Machine, cfg: Config, free: seq<Reg>): Machine
  {
    if ShortStore(cfg) then StoreAt(m, U32(Val(m, SP) + cfg.offset), Val(m, LR))
    else if free == [] then Pop(Saved(Push(m, R4), cfg.invert, R4, cfg.offset), R4)
    else Saved(m, cfg.invert, free[0], cfg.offset)
  }

  /** Running the prologue's instructions reaches that state. */
  lemma SetupRun(m: Machine, cfg: Config, pi: PredInfo, free: seq<Reg>, n: nat)
    requires Scratch(free) != SP && Scratch(free) != LR
    ensures Exec(m, SetupInsts(cfg, pi, free, n)) == SetupState(m, cfg, free)
  {
    if ShortStore(cfg) {
      SetupShortRun(m, cfg, pi, free, n);
    } else {
      SetupLongRun(m, cfg, pi, free, n);
    }
  }

  /** The prologue saves LR at SetupSlot and changes nothing else but the
      scratch register and, when spilling, the word below SP; R4 ends up
      holding LR when it was spilled and the offset is 0. */
  lemma SetupSaves(m: Machine, cfg: Config, pi: PredInfo, free: seq<Reg>, n: nat)
    requires Scratch(free) != SP && Scratch(free) != LR && 0 <= Val(m, SP) < Word
    ensures var m2 := Exec(m, SetupInsts(cfg, pi, free, n));
      && SetupOutcome(m, m2, SetupSlot(cfg, free, Val(m, SP)), Scratch(free),
                      SetupSpills(cfg, free), SetupKeepsScratch(cfg, free))
      && (SetupSpills(cfg, free) && U32(cfg.offset) == 0 ==> Val(m2, R4) == Val(m, LR))
  {
    SetupRun(m, cfg, pi, free, n);
    SetupStateOutcome(m, cfg, free);
  }

  lemma SetupStateOutcome(m: Machine, cfg: Config, free: seq<Reg>)
    requires Scratch(free) != SP && Scratch(free) != LR && 0 <= Val(m, SP) < Word
    ensures var m2 := SetupState(m, cfg, free);
      && SetupOutcome(m, m2, SetupSlot(cfg, free, Val(m, SP)), Scratch(free),
                      SetupSpills(cfg, free), SetupKeepsScratch(cfg, free))
      && (SetupSpills(cfg, free) && U32(cfg.offset) == 0 ==> Val(m2, R4) == Val(m, LR))
  {
    if ShortStore(cfg) {
      StoredStateOutcome(m, cfg, free);
    } else if free == [] {
      SpilledStateOutcome(m, cfg);
    } else {
      SavedStateOutcome(m, cfg, free);
    }
  }

  /** The prologue's outcome with the single store. */
  lemma StoredStateOutcome(m: Machine, cfg: Config, free: seq<Reg>)
    requires ShortStore(cfg)
    ensures SetupOutcome(m, SetupState(m, cfg, free), U32(Val(m, SP) + cfg.offset), Scratch(free), false, true)
  {
    StoredOutcome(m, U32(Val(m, SP) + cfg.offset), Scratch(free));
  }

  /** The prologue's outcome through a free register. */
  lemma SavedStateOutcome(m: Machine, cfg: Config, free: seq<Reg>)
    requires !ShortStore(cfg) && free != []
    ensures SetupOutcome(m, SetupState(m, cfg, free), U32(Val(m, SP) + cfg.offset), free[0], false, false)
  {
    SavedOutcome(m, cfg.invert, free[0], cfg.offset);
  }

  /** The prologue's outcome when it spills R4. */
  lemma SpilledStateOutcome(m: Machine, cfg: Config)
    requires !ShortStore(cfg) && 0 <= Val(m, SP) < Word
    ensures var m2 := SetupState(m, cfg, []);
      && SetupOutcome(m, m2, U32(Val(m, SP) + cfg.offset - 4), R4, true, U32(cfg.offset) != 0)
      && (U32(cfg.offset) == 0 ==> Val(m2, R4) == Val(m, LR))
  {
    U32AddL(Val(m, SP) - 4, cfg.offset);
    SpilledSavedOutcome(m, cfg.invert, cfg.offset);
  }

  /** The single store changes the slot only. */
  lemma StoredOutcome(m: Machine, a: nat, r: Reg)
    ensures SetupOutcome(m, StoreAt(m, a, Val(m, LR)), a, r, false, true)
  {
    var m2 := StoreAt(m, a, Val(m, LR));
    forall x: nat ensures Load(m2, x) == if x == a then Val(m, LR) else Load(m, x) {
      StoreAtLoad(m, a, Val(m, LR), x);
    }
    forall x: Reg ensures Val(m2, x) == Val(m, x) {
      StoreAtVal(m, a, Val(m, LR), x);
    }
  }

  /** Storing LR through r changes the slot and r only. */
  lemma SavedOutcome(m: Machine, invert: bool, r: Reg, off: int)
    ensures SetupOutcome(m, Saved(m, invert, r, off), U32(Val(m, SP) + off), r, false, false)
  {
    var m2 := Saved(m, invert, r, off);
    forall x: nat ensures Load(m2, x) == if x == U32(Val(m, SP) + off) then Val(m, LR) else Load(m, x) {
      SavedLoad(m, invert, r, off, x);
    }
    forall x: Reg | x != r ensures Val(m2, x) == Val(m, x) {
      SavedVal(m, invert, r, off, x);
    }
  }

  /** Push R4, store LR through R4, pop R4. */
  lemma SpilledSavedOutcome(m: Machine, invert: bool, off: int)
    requires 0 <= Val(m, SP) < Word
    ensures var m2 := Pop(Saved(Push(m, R4), invert, R4, off), R4);
      && SetupOutcome(m, m2, U32(U32(Val(m, SP) - 4) + off), R4, true, U32(off) != 0)
      && (U32(off) == 0 ==> Val(m2, R4) == Val(m, LR))
  {
    var sp := Val(m, SP);
    var s4 := U32(sp - 4);
    var m0 := Push(m, R4);
    PushVal(m, R4, SP);
    PushVal(m, R4, LR);
    var a := U32(s4 + off);
    var mb := Saved(m0, invert, R4, off);
    var m2 := Pop(mb, R4);
    SavedVal(m0, invert, R4, off, SP);
    U32AddL(sp - 4, 4);
    WrapSame(s4, off);
    SavedLoad(m0, invert, R4, off, s4);
    PushLoad(m, R4, s4);
    PopVal(mb, R4, R4);
    PopVal(mb, R4, SP);
    SpilledSavedMem(m, invert, off);
    assert Val(m2, SP) == sp;
    SpilledSavedRegs(m, invert, off);
  }

  /** Push R4, store LR through R4, pop R4 writes R4's spill slot and the
      shadow slot, and no other word. */
  lemma SpilledSavedMem(m: Machine, invert: bool, off: int)
    ensures var s4 := U32(Val(m, SP) - 4);
      var m2 := Pop(Saved(Push(m, R4), invert, R4, off), R4);
      forall x: nat :: Load(m2, x) == if x == U32(s4 + off) then Val(m, LR) else if x == s4 then Val(m, R4) else Load(m, x)
  {
    var m0 := Push(m, R4);
    var mb := Saved(m0, invert, R4, off);
    PushVal(m, R4, SP);
    forall x: nat ensures Load(Pop(mb, R4), x) == if x == U32(U32(Val(m, SP) - 4) + off) then Val(m, LR) else if x == U32(Val(m, SP) - 4) then Val(m, R4) else Load(m, x) {
      PopLoad(mb, R4, x);
      SavedLoad(m0, invert, R4, off, x);
      PushLoad(m, R4, x);
    }
  }

  /** Push R4, store LR through R4, pop R4 leaves every register but R4
      and SP alone. */
  lemma SpilledSavedRegs(m: Machine, invert: bool, off: int)
    ensures var m2 := Pop(Saved(Push(m, R4), invert, R4, off), R4);
      forall x: Reg :: x != R4 && x != SP ==> Val(m2, x) == Val(m, x)
  {
    var m0 := Push(m, R4);
    var mb := Saved(m0, invert, R4, off);
    forall x: Reg | x != R4 && x != SP ensures Val(Pop(mb, R4), x) == Val(m, x) {
      PopVal(mb, R4, x);
      SavedVal(m0, invert, R4, off, x);
      PushVal(m, R4, x);
    }
  }

  /** The machine after the epilogue, from the machine right after the
      demoted pop: SP skips the PC/LR slot; then the single load, or R4
      pushed, the load through R4, R4 popped and the return when one is
      needed, or the load through the first free register. */
  function PopState(m: Machine, cfg: Config, dst: Reg, free: seq<Reg>): Machine
  {
    var m1 := SetReg(m, SP, U32(Val(m, SP) + 4));
    if ShortLoad(cfg) then SetReg(m1, dst, Load(m1, U32(Val(m1, SP) + cfg.offset)))
    else
      var r := Scratch(free);
      var ret := NeedReturn(cfg, dst, free);
      var m0 := if free == [] then Push(m1, r) else m1;
      var mb := Loaded(m0, if ret then LR else dst, r, cfg.offset);
      var ms := if free == [] then Pop(mb, r) else mb;
      if ret then SetReg(ms, PC, Val(ms, LR)) else ms
  }

  lemma PopLongRun(m: Machine, cfg: Config, pi: PredInfo, dst: Reg, free: seq<Reg>, n: nat)
    requires !ShortLoad(cfg) && Scratch(free) != SP
    ensures var r := Scratch(free);
      var ret := NeedReturn(cfg, dst, free);
      var m0 := if free == [] then Push(m, r) else m;
      var mb := Loaded(m0, if ret then LR else dst, r, cfg.offset);
      var ms := if free == [] then Pop(mb, r) else mb;
      Exec(m, PopLong(cfg, pi, dst, free, n)) == if ret then SetReg(ms, PC, Val(ms, LR)) else ms
  {
    var spill := free == [];
    var r := Scratch(free);
    var ret := NeedReturn(cfg, dst, free);
    var k := n + |SpillIf(spill, n, r, pi)|;
    var body := LoadLR(cfg, if ret then LR else dst, r, pi, k);
    var s := Spilled(spill, r, pi, n, body);
    assert PopLong(cfg, pi, dst, free, n) == s + ReturnIf(ret, n + |s|, pi);
    var m0 := if spill then Push(m, r) else m;
    LoadLREffect(m0, cfg, if ret then LR else dst, r, pi, k);
    SpilledReturn(m, spill, r, pi, n, body, Loaded(m0, if ret then LR else dst, r, cfg.offset), ret);
  }

  /** A body run with the scratch register spilled around it when spill,
      then the return when ret. */
  lemma SpilledReturn(m: Machine, spill: bool, r: Reg, pi: PredInfo, n: nat, body: seq<Instr>, mb: Machine, ret: bool)
    requires Exec(if spill then Push(m, r) else m, body) == mb
    ensures var s := Spilled(spill, r, pi, n, body);
      var ms := if spill then Pop(mb, r) else mb;
      Exec(m, s + ReturnIf(ret, n + |s|, pi)) == if ret then SetReg(ms, PC, Val(ms, LR)) else ms
  {
    var s := Spilled(spill, r, pi, n, body);
    SpilledEffect(m, spill, r, pi, n, body, mb);
    var ms := if spill then Pop(mb, r) else mb;
    ReturnEffect(ms, ret, n + |s|, pi);
    ExecAppend(m, s, ReturnIf(ret, n + |s|, pi));
  }

  /** Running the epilogue's instructions reaches PopState. */
  lemma PopRun(m: Machine, cfg: Config, pi: PredInfo, dst: Reg, free: seq<Reg>, n: nat)
    requires Scratch(free) != SP
    ensures Exec(m, PopInsts(cfg, pi, dst, free, n)) == PopState(m, cfg, dst, free)
  {
    if ShortLoad(cfg) {
      PopShortRun(m, cfg, pi, dst, free, n);
    } else {
      PopLongRuns(m, cfg, pi, dst, free, n);
    }
  }

  lemma PopShortRun(m: Machine, cfg: Config, pi: PredInfo, dst: Reg, free: seq<Reg>, n: nat)
    requires ShortLoad(cfg)
    ensures Exec(m, PopInsts(cfg, pi, dst, free, n)) == PopState(m, cfg, dst, free)
  {
    var m1 := SetReg(m, SP, U32(Val(m, SP) + 4));
    var ld := LoadShort(n + 1, dst, cfg.offset, pi);
    SkipSlotStep(m, n, pi);
    LoadShortStep(m1, n + 1, dst, cfg.offset, pi);
    PopStateShort(m, cfg, dst, free);
    ExecThrough(m, [SkipSlot(n, pi)], [ld], m1, PopState(m, cfg, dst, free));
    assert PopInsts(cfg, pi, dst, free, n) == [SkipSlot(n, pi)] + [ld];
  }

  lemma PopLongRuns(m: Machine, cfg: Config, pi: PredInfo, dst: Reg, free: seq<Reg>, n: nat)
    requires !ShortLoad(cfg) && Scratch(free) != SP
    ensures Exec(m, PopInsts(cfg, pi, dst, free, n)) == PopState(m, cfg, dst, free)
  {
    var m1 := SetReg(m, SP, U32(Val(m, SP) + 4));
    var rest := PopLong(cfg, pi, dst, free, n + 1);
    SkipSlotStep(m, n, pi);
    PopLongRun(m1, cfg, pi, dst, free, n + 1);
    PopStateLong(m, cfg, dst, free);
    ExecThrough(m, [SkipSlot(n, pi)], rest, m1, PopState(m, cfg, dst, free));
    assert PopInsts(cfg, pi, dst, free, n) == [SkipSlot(n, pi)] + rest;
  }

  lemma PopStateShort(m: Machine, cfg: Config, dst: Reg, free: seq<Reg>)
    requires ShortLoad(cfg)
    ensures var m1 := SetReg(m, SP, U32(Val(m, SP) + 4));
      PopState(m, cfg, dst, free) == SetReg(m1, dst, Load(m1, U32(Val(m1, SP) + cfg.offset)))
  {
  }

  lemma PopStateLong(m: Machine, cfg: Config, dst: Reg, free: seq<Reg>)
    requires !ShortLoad(cfg)
    ensures var m1 := SetReg(m, SP, U32(Val(m, SP) + 4));
      var r := Scratch(free);
      var ret := NeedReturn(cfg, dst, free);
      var m0 := if free == [] then Push(m1, r) else m1;
      var mb := Loaded(m0, if ret then LR else dst, r, cfg.offset);
      var ms := if free == [] then Pop(mb, r) else mb;
      PopState(m, cfg, dst, free) == if ret then SetReg(ms, PC, Val(ms, LR)) else ms
  {
  }

  /** What an epilogue does, from the machine m right after the demoted pop:
      dst, and LR too when a return had to be added, holds the word at the
      slot; SP is past the popped PC/LR slot; memory is as it was, except
      the word at SP, which R4's spill reuses; every register but SP, dst,
      the scratch register and the added return's LR is as it was, and the
      scratch register too when keptR. */
  ghost predicate PopOutcome(m: Machine, m2: Machine, slot: nat, dst: Reg, ret: bool, r: Reg, spilled: bool, keptR: bool)
  {
    && Val(m2, dst) == Load(m, slot)
    && (ret ==> Val(m2, LR) == Load(m, slot))
    && Val(m2, SP) == U32(Val(m, SP) + 4)
    && (forall a: nat :: !(spilled && a == Val(m, SP)) ==> Load(m2, a) == Load(m, a))
    && (forall x: Reg :: x != SP && x != dst && x != r && !(ret && x == LR) ==> Val(m2, x) == Val(m, x))
    && (keptR ==> Val(m2, r) == Val(m, r))
  }

  /** The epilogue gives the scratch register back when it spilled R4; the
      single load touches no scratch register at all. */
  predicate PopKeepsScratch(cfg: Config, dst: Reg, free: seq<Reg>)
  {
    if ShortLoad(cfg) then Scratch(free) != dst else free == []
  }

  /** Outside the single-load range, a 32-bit offset is not 0 modulo 2^32. */
  lemma LongOffsetNonZero(cfg: Config)
    requires ConfigOk(cfg) && !ShortLoad(cfg)
    ensures U32(cfg.offset) != 0
  {
    if cfg.offset < 0 {
      assert U32(cfg.offset) == cfg.offset + Word;
    }
  }

  /** Offset 0 with hardened stores and no free register at the push: the
      spilled R4 shares its word with the shadow slot, so the reload hands
      R4 the saved LR. */
  lemma ZeroOffsetSpillGivesR4LR(m: Machine, cfg: Config, pi: PredInfo, n: nat)
    requires cfg.offset == 0 && cfg.invert && 0 <= Val(m, SP) < Word
    ensures SetupSpills(cfg, [])
    ensures Val(Exec(m, SetupInsts(cfg, pi, [], n)), R4) == Val(m, LR)
  {
    SetupSaves(m, cfg, pi, [], n);
  }

  /** The epilogue loads from PopSlot into the register it returns through,
      and changes nothing else but SP, the scratch register and, when
      spilling, the dead word at SP. */
  lemma PopRestores(m: Machine, cfg: Config, pi: PredInfo, dst: Reg, free: seq<Reg>, n: nat)
    requires ConfigOk(cfg) && (dst == LR || dst == PC) && Scratch(free) != SP && 0 <= Val(m, SP) < Word
    ensures PopOutcome(m, Exec(m, PopInsts(cfg, pi, dst, free, n)), PopSlot(cfg, free, Val(m, SP)), dst,
                       NeedReturn(cfg, dst, free), Scratch(free), PopSpills(cfg, free), PopKeepsScratch(cfg, dst, free))
  {
    PopRun(m, cfg, pi, dst, free, n);
    PopStateOutcome(m, cfg, dst, free);
  }

  lemma PopStateOutcome(m: Machine, cfg: Config, dst: Reg, free: seq<Reg>)
    requires ConfigOk(cfg) && (dst == LR || dst == PC) && Scratch(free) != SP && 0 <= Val(m, SP) < Word
    ensures PopOutcome(m, PopState(m, cfg, dst, free), PopSlot(cfg, free, Val(m, SP)), dst,
                       NeedReturn(cfg, dst, free), Scratch(free), PopSpills(cfg, free), PopKeepsScratch(cfg, dst, free))
  {
    if ShortLoad(cfg) {
      PopStateShortOutcome(m, cfg, dst, free);
    } else if free != [] {
      PopStateFreeOutcome(m, cfg, dst, free);
    } else {
      PopStateSpillOutcome(m, cfg, dst);
    }
  }

  lemma PopStateShortOutcome(m: Machine, cfg: Config, dst: Reg, free: seq<Reg>)
    requires ShortLoad(cfg) && (dst == LR || dst == PC) && Scratch(free) != SP
    ensures PopOutcome(m, PopState(m, cfg, dst, free), PopSlot(cfg, free, Val(m, SP)), dst,
                       false, Scratch(free), false, Scratch(free) != dst)
  {
    var sp := Val(m, SP);
    var m1 := SetReg(m, SP, U32(sp + 4));
    SetRegVal(m, SP, U32(sp + 4), SP);
    U32AddL(sp + 4, cfg.offset);
    assert PopSlot(cfg, free, sp) == U32(U32(sp + 4) + cfg.offset);
    PopStateShort(m, cfg, dst, free);
    ShortPopOutcome(m, dst, cfg.offset, Scratch(free));
  }

  lemma PopStateFreeOutcome(m: Machine, cfg: Config, dst: Reg, free: seq<Reg>)
    requires !ShortLoad(cfg) && (dst == LR || dst == PC) && free != [] && free[0] != SP
    ensures PopOutcome(m, PopState(m, cfg, dst, free), PopSlot(cfg, free, Val(m, SP)), dst,
                       false, free[0], false, false)
  {
    var sp := Val(m, SP);
    U32AddL(sp + 4, cfg.offset);
    PopStateLong(m, cfg, dst, free);
    FreePopOutcome(m, dst, free[0], cfg.offset);
  }

  lemma PopStateSpillOutcome(m: Machine, cfg: Config, dst: Reg)
    requires ConfigOk(cfg) && !ShortLoad(cfg) && (dst == LR || dst == PC) && 0 <= Val(m, SP) < Word
    ensures PopOutcome(m, PopState(m, cfg, dst, []), PopSlot(cfg, [], Val(m, SP)), dst,
                       dst == PC, R4, true, true)
  {
    PopStateSpill(m, cfg, dst);
    LongOffsetNonZero(cfg);
    assert PopSlot(cfg, [], Val(m, SP)) == U32(Val(m, SP) + cfg.offset);
    SpillPopOutcome(m, dst, cfg.offset, PopSlot(cfg, [], Val(m, SP)), PopState(m, cfg, dst, []));
  }

  /** With R4 spilled, the load always goes into LR. */
  lemma PopStateSpill(m: Machine, cfg: Config, dst: Reg)
    requires !ShortLoad(cfg) && (dst == LR || dst == PC)
    ensures var m1 := SetReg(m, SP, U32(Val(m, SP) + 4));
      var ms := Pop(Loaded(Push(m1, R4), LR, R4, cfg.offset), R4);
      PopState(m, cfg, dst, []) == if dst == PC then SetReg(ms, PC, Val(ms, LR)) else ms
  {
    PopStateLong(m, cfg, dst, []);
    assert NeedReturn(cfg, dst, []) == (dst == PC);
    assert (if NeedReturn(cfg, dst, []) then LR else dst) == LR;
  }

  lemma ShortPopOutcome(m: Machine, dst: Reg, off: int, r: Reg)
    requires dst != SP && r != SP
    ensures var m1 := SetReg(m, SP, U32(Val(m, SP) + 4));
      PopOutcome(m, SetReg(m1, dst, Load(m1, U32(Val(m1, SP) + off))), U32(U32(Val(m, SP) + 4) + off),
                 dst, false, r, false, r != dst)
  {
    var p4 := U32(Val(m, SP) + 4);
    var m1 := SetReg(m, SP, p4);
    var v := Load(m1, U32(Val(m1, SP) + off));
    var m2 := SetReg(m1, dst, v);
    SetRegVal(m, SP, p4, SP);
    SetRegLoad(m, SP, p4, U32(p4 + off));
    SetRegVal(m1, dst, v, dst);
    SetRegVal(m1, dst, v, SP);
    forall a: nat ensures Load(m2, a) == Load(m, a) {
      SetRegLoad(m1, dst, v, a);
      SetRegLoad(m, SP, p4, a);
    }
    forall x: Reg | x != SP && x != dst ensures Val(m2, x) == Val(m, x) {
      SetRegVal(m1, dst, v, x);
      SetRegVal(m, SP, p4, x);
    }
  }

  lemma FreePopOutcome(m: Machine, dst: Reg, r: Reg, off: int)
    requires dst != SP && r != SP
    ensures var m1 := SetReg(m, SP, U32(Val(m, SP) + 4));
      PopOutcome(m, Loaded(m1, dst, r, off), U32(U32(Val(m, SP) + 4) + off), dst, false, r, false, false)
  {
    var p4 := U32(Val(m, SP) + 4);
    var m1 := SetReg(m, SP, p4);
    var m2 := Loaded(m1, dst, r, off);
    SetRegVal(m, SP, p4, SP);
    SetRegLoad(m, SP, p4, U32(p4 + off));
    LoadedVal(m1, dst, r, off, dst);
    LoadedVal(m1, dst, r, off, SP);
    forall a: nat ensures Load(m2, a) == Load(m, a) {
      LoadedLoad(m1, dst, r, off, a);
      SetRegLoad(m, SP, p4, a);
    }
    forall x: Reg | x != SP && x != dst && x != r ensures Val(m2, x) == Val(m, x) {
      LoadedVal(m1, dst, r, off, x);
      SetRegVal(m, SP, p4, x);
    }
  }

  /** With R4 spilled, the load goes into LR, and a return through LR
      follows when the pop returned through PC. */
  lemma SpillPopOutcome(m: Machine, dst: Reg, off: int, slot: nat, m2: Machine)
    requires (dst == LR || dst == PC) && U32(off) != 0 && 0 <= Val(m, SP) < Word
    requires slot == U32(Val(m, SP) + off)
    requires var m1 := SetReg(m, SP, U32(Val(m, SP) + 4));
      var ms := Pop(Loaded(Push(m1, R4), LR, R4, off), R4);
      m2 == if dst == PC then SetReg(ms, PC, Val(ms, LR)) else ms
    ensures PopOutcome(m, m2, slot, dst, dst == PC, R4, true, true)
  {
    var m1 := SetReg(m, SP, U32(Val(m, SP) + 4));
    var ms := Pop(Loaded(Push(m1, R4), LR, R4, off), R4);
    SpillPopMid(m, off, ms);
    if dst == PC {
      var v := Val(ms, LR);
      SetRegVal(ms, PC, v, PC);
      SetRegVal(ms, PC, v, LR);
      SetRegVal(ms, PC, v, SP);
      SetRegVal(ms, PC, v, R4);
      forall x: nat ensures Load(m2, x) == Load(ms, x) {
        SetRegLoad(ms, PC, v, x);
      }
      forall x: Reg | x != PC ensures Val(m2, x) == Val(ms, x) {
        SetRegVal(ms, PC, v, x);
      }
    }
  }

  /** The spilled epilogue before its return: LR holds the slot's word;
      every other register is as right after the pop, SP past the PC/LR
      slot; only the word at SP changes in memory. */
  lemma SpillPopMid(m: Machine, off: int, ms: Machine)
    requires U32(off) != 0 && 0 <= Val(m, SP) < Word
    requires var m1 := SetReg(m, SP, U32(Val(m, SP) + 4));
      ms == Pop(Loaded(Push(m1, R4), LR, R4, off), R4)
    ensures Val(ms, LR) == Load(m, U32(Val(m, SP) + off))
    ensures Val(ms, SP) == U32(Val(m, SP) + 4)
    ensures forall x: Reg :: x != LR && x != SP ==> Val(ms, x) == Val(m, x)
    ensures forall a: nat :: a != Val(m, SP) ==> Load(ms, a) == Load(m, a)
  {
    var sp := Val(m, SP);
    var m1 := SetReg(m, SP, U32(sp + 4));
    SetRegVal(m, SP, U32(sp + 4), SP);
    SpilledLoadKeeps(m1, sp, off);
    SpillPopMidRegs(m, m1, ms, off);
    SpillPopMidMem(m, m1, ms);
  }

  /** The registers after the spilled load, from its effect on m1, which
      is m with SP moved past the PC/LR slot. */
  lemma SpillPopMidRegs(m: Machine, m1: Machine, ms: Machine, off: int)
    requires m1 == SetReg(m, SP, U32(Val(m, SP) + 4))
    requires Val(ms, LR) == Load(m1, U32(Val(m, SP) + off))
    requires forall x: Reg :: x != LR ==> Val(ms, x) == Val(m1, x)
    ensures Val(ms, LR) == Load(m, U32(Val(m, SP) + off))
    ensures Val(ms, SP) == U32(Val(m, SP) + 4)
    ensures forall x: Reg :: x != LR && x != SP ==> Val(ms, x) == Val(m, x)
  {
    var p4 := U32(Val(m, SP) + 4);
    SetRegVal(m, SP, p4, SP);
    SetRegLoad(m, SP, p4, U32(Val(m, SP) + off));
    forall x: Reg | x != LR && x != SP ensures Val(ms, x) == Val(m, x) {
      SetRegVal(m, SP, p4, x);
    }
  }

  /** The memory after the spilled load, from its effect on m1. */
  lemma SpillPopMidMem(m: Machine, m1: Machine, ms: Machine)
    requires m1 == SetReg(m, SP, U32(Val(m, SP) + 4))
    requires forall a: nat :: a != Val(m, SP) ==> Load(ms, a) == Load(m1, a)
    ensures forall a: nat :: a != Val(m, SP) ==> Load(ms, a) == Load(m, a)
  {
    forall x: nat | x != Val(m, SP) ensures Load(ms, x) == Load(m, x) {
      SetRegLoad(m, SP, U32(Val(m, SP) + 4), x);
    }
  }

  lemma SpilledLoadKeeps(m1: Machine, sp: int, off: int)
    requires 0 <= sp < Word && Val(m1, SP) == U32(sp + 4) && U32(off) != 0
    ensures var ms := Pop(Loaded(Push(m1, R4), LR, R4, off), R4);
      && Val(ms, LR) == Load(m1, U32(sp + off))
      && (forall x: Reg :: x != LR ==> Val(ms, x) == Val(m1, x))
      && (forall a: nat :: a != sp ==> Load(ms, a) == Load(m1, a))
  {
    var mb := Loaded(Push(m1, R4), LR, R4, off);
    var ms := Pop(mb, R4);
    PushedLoad(m1, sp, off);
    PopVal(mb, R4, R4);
    PopVal(mb, R4, SP);
    PopVal(mb, R4, LR);
    forall x: nat | x != sp ensures Load(ms, x) == Load(m1, x) {
      PopLoad(mb, R4, x);
    }
    forall x: Reg | x != LR ensures Val(ms, x) == Val(m1, x) {
      PopVal(mb, R4, x);
    }
  }

  /** Push R4, then load LR through R4. */
  lemma PushedLoad(m1: Machine, sp: int, off: int)
    requires 0 <= sp < Word && Val(m1, SP) == U32(sp + 4) && U32(off) != 0
    ensures var mb := Loaded(Push(m1, R4), LR, R4, off);
      && Val(mb, SP) == sp
      && Val(mb, LR) == Load(m1, U32(sp + off))
      && Load(mb, sp) == Val(m1, R4)
      && (forall x: Reg :: x != LR && x != R4 && x != SP ==> Val(mb, x) == Val(m1, x))
      && (forall a: nat :: a != sp ==> Load(mb, a) == Load(m1, a))
  {
    var m0 := Push(m1, R4);
    var mb := Loaded(m0, LR, R4, off);
    U32AddL(sp + 4, -4);
    PushVal(m1, R4, SP);
    var a := U32(sp + off);
    WrapSame(sp, off);
    PushLoad(m1, R4, a);
    PushLoad(m1, R4, sp);
    LoadedVal(m0, LR, R4, off, LR);
    LoadedVal(m0, LR, R4, off, SP);
    LoadedLoad(m0, LR, R4, off, sp);
    forall x: nat | x != sp ensures Load(mb, x) == Load(m1, x) {
      LoadedLoad(m0, LR, R4, off, x);
      PushLoad(m1, R4, x);
    }
    forall x: Reg | x != LR && x != R4 && x != SP ensures Val(mb, x) == Val(m1, x) {
      LoadedVal(m0, LR, R4, off, x);
      PushVal(m1, R4, x);
    }
  }

  /** The epilogue, at SP one word below the prologue's SP (the popped
      PC/LR slot), reads the prologue's slot exactly when the two agree on
      spilling R4. */
  lemma SlotsMeet(cfg: Config, free0: seq<Reg>, free1: seq<Reg>, sp0: int)
    requires 0 <= sp0 < Word
    ensures PopSlot(cfg, free1, U32(sp0 - 4)) == SetupSlot(cfg, free0, sp0) <==>
            SetupSpills(cfg, free0) == PopSpills(cfg, free1)
  {
    var p := if PopSpills(cfg, free1) then 4 else 0;
    var s := if SetupSpills(cfg, free0) then 4 else 0;
    U32AddL(sp0 - 4, 4 + cfg.offset - p);
    var base := U32(sp0 + cfg.offset - 4);
    U32AddL(sp0 + cfg.offset - 4, 4 - p);
    U32AddL(sp0 + cfg.offset - 4, 4 - s);
    if p != s {
      if p == 0 {
        WrapSame(U32(base + 4), -4);
        U32AddL(base + 4, -4);
      } else {
        WrapSame(base, 4);
      }
    }
  }

  /** When no register is free at either end, the two decisions differ
      exactly when stores are hardened and the offset fits the single load:
      the prologue then spills and the epilogue does not. */
  lemma SpillsDisagree(cfg: Config)
    ensures SetupSpills(cfg, []) != PopSpills(cfg, []) <==> cfg.invert && 0 <= cfg.offset <= 4092
    ensures SetupSpills(cfg, []) != PopSpills(cfg, []) ==> SetupSpills(cfg, [])
  {
  }

  /** The shadow-stack round trip: a prologue run at SP sp0 saves LR; if the
      body leaves that slot alone and the demoted pop leaves SP one word
      below sp0, and the two ends agree on spilling, the epilogue hands the
      saved LR to the register the function returns through. */
  lemma ReturnsSavedLR(m: Machine, mp: Machine, cfg: Config, pi: PredInfo, dst: Reg,
                       free0: seq<Reg>, free1: seq<Reg>, n0: nat, n1: nat)
    requires ConfigOk(cfg) && (dst == LR || dst == PC)
    requires Scratch(free0) != SP && Scratch(free0) != LR && Scratch(free1) != SP
    requires 0 <= Val(m, SP) < Word && Val(mp, SP) == U32(Val(m, SP) - 4)
    requires SetupSpills(cfg, free0) == PopSpills(cfg, free1)
    requires var slot := SetupSlot(cfg, free0, Val(m, SP));
      Load(mp, slot) == Load(Exec(m, SetupInsts(cfg, pi, free0, n0)), slot)
    ensures Val(Exec(mp, PopInsts(cfg, pi, dst, free1, n1)), dst) == Val(m, LR)
  {
    SetupSavesLR(m, cfg, pi, free0, n0);
    PopLoadsSlot(mp, cfg, pi, dst, free1, n1);
    SlotsMeet(cfg, free0, free1, Val(m, SP));
  }

  lemma SetupSavesLR(m: Machine, cfg: Config, pi: PredInfo, free: seq<Reg>, n: nat)
    requires Scratch(free) != SP && Scratch(free) != LR && 0 <= Val(m, SP) < Word
    ensures Load(Exec(m, SetupInsts(cfg, pi, free, n)), SetupSlot(cfg, free, Val(m, SP))) == Val(m, LR)
  {
    SetupSaves(m, cfg, pi, free, n);
  }

  lemma PopLoadsSlot(m: Machine, cfg: Config, pi: PredInfo, dst: Reg, free: seq<Reg>, n: nat)
    requires ConfigOk(cfg) && (dst == LR || dst == PC) && Scratch(free) != SP && 0 <= Val(m, SP) < Word
    ensures Val(Exec(m, PopInsts(cfg, pi, dst, free, n)), dst) == Load(m, PopSlot(cfg, free, Val(m, SP)))
  {
    PopRestores(m, cfg, pi, dst, free, n);
  }
}
