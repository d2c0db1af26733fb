/**
 * The shadow-stack pass as it edits a machine function in place:
 * setupShadowStack, popFromShadowStack and their steps, each proved to
 * leave the function as the functions of ShadowStackSpec say.
 */
module ShadowStack {
  import opened MachineIR
  import opened BlockInvariant
  import opened MachineFunctions
  import opened Instrumentor
  import opened Liveness
  import opened ShadowInsts
  import opened ShadowStackSpec
  import opened ShadowSites
  import opened ShadowPassSpec

  lemma UpdateSame<T>(s: seq<T>, i: nat)
    requires i < |s|
    ensures s[i := s[i]] == s
  {
  }

  lemma UpdateTwice<T>(s: seq<T>, i: nat, x: T, y: T)
    requires i < |s|
    ensures s[i := x][i := y] == s[i := y]
  {
  }

  /** An in-place change of the instruction at index j of block b. */
  method SetInst(mf: MachineFunction, b: nat, j: nat, x: Instr)
    requires b < |mf.blocks| && j < |mf.blocks[b].insts|
    modifies mf
    ensures mf.blocks == old(mf.blocks)[b := Block(old(mf.blocks[b].insts)[j := x], old(mf.blocks[b].liveOuts))]
    ensures mf.nextId == old(mf.nextId) && mf.csi == old(mf.csi)
  {
    mf.blocks := mf.blocks[b := Block(mf.blocks[b].insts[j := x], mf.blocks[b].liveOuts)];
  }

  /** setupShadowStack on the push at index q of block b: the store of LR
      (and what it needs) goes before the push, numbered from the
      function's counter. */
  method SetupShadowStack(mf: MachineFunction, ti: TargetInfo, cfg: Config, b: nat, q: nat) returns (changed: bool)
    requires b < |mf.blocks| && q < |mf.blocks[b].insts| && !IsMeta(mf.blocks[b].insts[q])
    requires BlockOk(mf.blocks[b].insts, mf.nextId)
    modifies mf
    ensures changed
    ensures var e := SetupEdit(ti, cfg, old(mf.blocks[b]), q, old(mf.nextId));
      && mf.blocks == old(mf.blocks)[b := Block(e.insts, old(mf.blocks[b].liveOuts))]
      && mf.nextId == e.nextId
    ensures mf.csi == old(mf.csi)
  {
    var s := mf.blocks[b].insts;
    var pi := InstrPredicate(s[q]);
    var free: seq<Reg> := [];
    if !ShortStore(cfg) {
      free := FindFreeRegistersBefore(mf, ti, b, q, cfg.thumb);
    }
    var n := mf.nextId;
    var news := SetupInsts(cfg, pi, free, n);
    mf.nextId := Counter(n, news);
    SetupFresh(cfg, pi, free, n);
    ReadyFromWF(s, q, news, false);
    InsertInstsBefore(mf, b, q, news);
    changed := true;
  }

  /** The loop of popFromShadowStack over the callee-saved information that
      marks the first entry for LR restored. */
  method MarkLRRestored(mf: MachineFunction)
    modifies mf
    ensures mf.csi == MarkedLR(old(mf.csi))
    ensures mf.blocks == old(mf.blocks) && mf.nextId == old(mf.nextId)
  {
    var i := 0;
    while i < |mf.csi|
      invariant i <= |mf.csi|
      invariant mf.csi == old(mf.csi) && mf.blocks == old(mf.blocks) && mf.nextId == old(mf.nextId)
      invariant forall j :: 0 <= j < i ==> mf.csi[j].reg != LR
    {
      if mf.csi[i].reg == LR {
        mf.csi := mf.csi[i := mf.csi[i].(restored := true)];
        break;
      }
      i := i + 1;
    }
  }

  /** When the epilogue returns itself: the pop's PC/LR operand k becomes
      LR and, when the callee-saved information is valid, LR is marked
      restored. */
  method SwitchToLR(mf: MachineFunction, b: nat, q: nat, k: nat, ret: bool)
    requires b < |mf.blocks| && q < |mf.blocks[b].insts| && k < |mf.blocks[b].insts[q].ops|
    modifies mf
    ensures mf.blocks == old(mf.blocks)[b := Block(old(mf.blocks[b].insts)[q := Retarget(old(mf.blocks[b].insts[q]), k, ret)], old(mf.blocks[b].liveOuts))]
    ensures mf.nextId == old(mf.nextId)
    ensures mf.csi == if ret && mf.csiValid then MarkedLR(old(mf.csi)) else old(mf.csi)
  {
    var mi := mf.blocks[b].insts[q];
    if ret {
      SetInst(mf, b, q, Retarget(mi, k, ret));
      if mf.csiValid {
        MarkLRRestored(mf);
      }
    } else {
      assert mf.blocks[b].insts[q := mi] == mf.blocks[b].insts;
      UpdateSame(mf.blocks, b);
    }
  }

  /** The first steps of popFromShadowStack on the pop at index q of block
      b with PC/LR operand k: the free registers after the pop, the switch
      of PC to LR and the marking of LR when the epilogue returns itself,
      then the new instructions inserted after the pop. */
  method PopInsert(mf: MachineFunction, ti: TargetInfo, cfg: Config, b: nat, q: nat, k: nat)
    requires b < |mf.blocks| && PopReady(mf.blocks[b].insts, q, k, mf.nextId)
    modifies mf
    ensures var e := PopInserted(ti, cfg, old(mf.blocks[b]), q, k, old(mf.nextId));
      && mf.blocks == old(mf.blocks)[b := Block(e.insts, old(mf.blocks[b].liveOuts))]
      && mf.nextId == e.nextId
    ensures mf.csi == if PopReturns(ti, cfg, old(mf.blocks[b]), q, k) && mf.csiValid then MarkedLR(old(mf.csi)) else old(mf.csi)
  {
    var blocks0 := mf.blocks;
    var blk := mf.blocks[b];
    var s := blk.insts;
    var mi := s[q];
    var pi := InstrPredicate(mi);
    var free: seq<Reg> := [];
    if !ShortLoad(cfg) {
      free := FindFreeRegistersAfter(mf, ti, b, q, cfg.thumb);
    }
    assert free == PopFree(ti, cfg, blk, q);
    var ret := NeedReturn(cfg, mi.ops[k].reg, free);
    assert ret == PopReturns(ti, cfg, blk, q, k);
    var mi1 := Retarget(mi, k, ret);
    SwitchToLR(mf, b, q, k, ret);
    var s1 := Updated(s, q, mi1, mf.nextId);
    assert mf.blocks == blocks0[b := Block(s1, blk.liveOuts)];
    var n := mf.nextId;
    var news := PopInsts(cfg, pi, mi.ops[k].reg, free, n);
    assert news == PopNews(ti, cfg, blk, q, k, n);
    mf.nextId := Counter(n, news);
    PopFresh(cfg, pi, mi.ops[k].reg, free, n);
    ReadyFromWF(s1, q, news, true);
    InsertInstsAfter(mf, b, q, news);
    assert mf.blocks[b].insts == PopInserted(ti, cfg, blk, q, k, n).insts;
    UpdateTwice(blocks0, b, Block(s1, blk.liveOuts), Block(mf.blocks[b].insts, blk.liveOuts));
  }

  /** The opening of the demotion switch for a pop that returned
      (t2LDMIA_RET, tPOP_RET): last, the last new instruction, takes the
      pop's implicit operands and the pop becomes the plain form without
      them. Any other pop is left as it is. */
  method UnreturnPop(mf: MachineFunction, b: nat, x: Instr, k: nat, last: Instr)
    requires b < |mf.blocks| && BlockOk(mf.blocks[b].insts, mf.nextId)
    requires x in mf.blocks[b].insts && last in mf.blocks[b].insts && x.id != last.id && PopShaped(x, k)
    requires !IsMeta(last) && !IsIT(last)
    modifies mf
    ensures mf.blocks == old(mf.blocks)[b := Block(Unreturn(old(mf.blocks[b].insts), old(mf.nextId), x, k, last), old(mf.blocks[b].liveOuts))]
    ensures mf.nextId == old(mf.nextId) && mf.csi == old(mf.csi)
  {
    if Returning(x) {
      var blocks0 := mf.blocks;
      var blk := mf.blocks[b];
      var s := blk.insts;
      var n := mf.nextId;
      var s1 := Updated(s, Position(s, last), Inherited(last, x), n);
      SetInst(mf, b, Position(s, last), Inherited(last, x));
      assert mf.blocks[b].insts == s1;
      assert x in s1;
      var r := Updated(s1, Position(s1, x), Stripped(x), n);
      SetInst(mf, b, Position(s1, x), Stripped(x));
      assert mf.blocks[b].insts == r;
      UpdateTwice(blocks0, b, Block(s1, blk.liveOuts), Block(r, blk.liveOuts));
    }
  }

  /** The rest of the demotion switch on the plain pop y: an LDMIA with
      registers to spare or a POP with more than one drops operand k; a
      two-register LDMIA gets an LDR_POST of its other register after it
      and is removed; a one-register POP and an LDR_POST are removed. */
  method ShrinkPop(mf: MachineFunction, b: nat, y: Instr, k: nat, pi: PredInfo)
    requires b < |mf.blocks| && BlockOk(mf.blocks[b].insts, mf.nextId)
    requires y in mf.blocks[b].insts && PopShaped(y, k) && !Returning(y)
    modifies mf
    ensures var e := Shrink(old(mf.blocks[b].insts), old(mf.nextId), y, k, pi);
      && mf.blocks == old(mf.blocks)[b := Block(e.insts, old(mf.blocks[b].liveOuts))]
      && mf.nextId == e.nextId
    ensures mf.csi == old(mf.csi)
  {
    var s := mf.blocks[b].insts;
    var j := Position(s, y);
    if y.op.T2LDMIA_UPD? {
      if |y.ops| > 6 {
        SetInst(mf, b, j, y.(ops := Without(y.ops, k)));
      } else {
        NarrowPop(mf, b, y, k, pi);
      }
    } else if y.op.TPOP? {
      if |y.ops| > 3 {
        SetInst(mf, b, j, y.(ops := Without(y.ops, k)));
      } else {
        RemoveInst(mf, b, j);
      }
    } else {
      RemoveInst(mf, b, j);
    }
  }

  /** A two-register LDMIA y: an LDR_POST of the register other than PC/LR,
      numbered from the counter, with y's predicate and flags, goes after
      it; then y is removed. */
  method NarrowPop(mf: MachineFunction, b: nat, y: Instr, k: nat, pi: PredInfo)
    requires b < |mf.blocks| && BlockOk(mf.blocks[b].insts, mf.nextId)
    requires y in mf.blocks[b].insts && PopShaped(y, k) && y.op.T2LDMIA_UPD? && |y.ops| == 6
    modifies mf
    ensures var e := Shrink(old(mf.blocks[b].insts), old(mf.nextId), y, k, pi);
      && mf.blocks == old(mf.blocks)[b := Block(e.insts, old(mf.blocks[b].liveOuts))]
      && mf.nextId == e.nextId
    ensures mf.csi == old(mf.csi)
  {
    var blocks0 := mf.blocks;
    var blk := mf.blocks[b];
    var s := blk.insts;
    var j := Position(s, y);
    var n := mf.nextId;
    var ldr := LdrPost(n, y.ops[OtherIndex(k)].reg, pi, y.flags);
    assert ldr in [ldr];
    mf.nextId := Counter(n, [ldr]);
    ReadyFromWF(s, j, [ldr], true);
    InsertInstAfter(mf, b, j, ldr);
    var e := Inserted(s, j, [ldr], true, n);
    assert mf.blocks[b].insts == e.insts;
    var j' := Position(e.insts, y);
    RemoveInst(mf, b, j');
    UpdateTwice(blocks0, b, Block(e.insts, blk.liveOuts), mf.blocks[b]);
  }

  /** popFromShadowStack on the pop at index q of block b with PC/LR
      operand k. */
  method PopFromShadowStack(mf: MachineFunction, ti: TargetInfo, cfg: Config, b: nat, q: nat, k: nat) returns (changed: bool)
    requires b < |mf.blocks| && PopReady(mf.blocks[b].insts, q, k, mf.nextId)
    modifies mf
    ensures changed
    ensures var e := PopEdit(ti, cfg, old(mf.blocks[b]), q, k, old(mf.nextId));
      && mf.blocks == old(mf.blocks)[b := Block(e.insts, old(mf.blocks[b].liveOuts))]
      && mf.nextId == e.nextId
    ensures mf.csi == if PopReturns(ti, cfg, old(mf.blocks[b]), q, k) && mf.csiValid then MarkedLR(old(mf.csi)) else old(mf.csi)
  {
    var blocks0 := mf.blocks;
    var blk := mf.blocks[b];
    var n := mf.nextId;
    var mi := blk.insts[q];
    var pi := InstrPredicate(mi);
    var ret := PopReturns(ti, cfg, blk, q, k);
    var mi1 := Retarget(mi, k, ret);
    var news := PopNews(ti, cfg, blk, q, k, n);
    PopFresh(cfg, pi, mi.ops[k].reg, PopFree(ti, cfg, blk, q), n);
    PopInsert(mf, ti, cfg, b, q, k);
    var e1 := PopInserted(ti, cfg, blk, q, k, n);
    assert mi.id < n by {
      assert blk.insts[q] == mi;
    }
    FreshLast(news, n, pi, mi.id);
    var last := Last(news);
    RetargetSame(mi, k, ret, last);
    var blocks1 := mf.blocks;
    UnreturnPop(mf, b, mi1, k, last);
    var s2 := Unreturn(e1.insts, e1.nextId, mi1, k, last);
    StrippedSame(mi1, k);
    ShrinkPop(mf, b, Stripped(mi1), k, pi);
    assert mf.blocks[b].insts == PopEdit(ti, cfg, blk, q, k, n).insts;
    UpdateTwice(blocks0, b, blocks1[b], Block(s2, blk.liveOuts));
    UpdateTwice(blocks0, b, Block(s2, blk.liveOuts), mf.blocks[b]);
    changed := true;
  }

  /** setupShadowStack on the push a recorded site names. */
  method SetupSite(mf: MachineFunction, ti: TargetInfo, cfg: Config, t: Site) returns (changed: bool)
    requires AllOk(mf.blocks, mf.nextId) && PushAt(mf.blocks, t)
    modifies mf
    ensures changed
    ensures mf.State() == SetupAt(ti, cfg, old(mf.State()), t)
  {
    var q := IndexOf(mf.blocks[t.block].insts, t.id).value;
    SitePlain(mf.blocks[t.block].insts[q], false);
    changed := SetupShadowStack(mf, ti, cfg, t.block, q);
  }

  /** popFromShadowStack on the pop a recorded site names. */
  method PopSite(mf: MachineFunction, ti: TargetInfo, cfg: Config, t: Site) returns (changed: bool)
    requires AllOk(mf.blocks, mf.nextId) && PopAt(mf.blocks, t)
    modifies mf
    ensures changed
    ensures mf.State() == PopAtSite(ti, cfg, old(mf.State()), t, mf.csiValid)
  {
    var q := IndexOf(mf.blocks[t.block].insts, t.id).value;
    changed := PopFromShadowStack(mf, ti, cfg, t.block, q, t.opnd);
  }

  /** The push loop of runOnMachineFunction. */
  method SetupPushes(mf: MachineFunction, ti: TargetInfo, cfg: Config, pushes: seq<Site>) returns (changed: bool)
    requires AllOk(mf.blocks, mf.nextId) && forall t :: t in pushes ==> PushAt(mf.blocks, t)
    modifies mf
    ensures mf.State() == SetupAll(ti, cfg, old(mf.State()), pushes)
    ensures changed == (pushes != [])
  {
    changed := false;
    var i := 0;
    while i < |pushes|
      invariant 0 <= i <= |pushes|
      invariant AllOk(mf.blocks, mf.nextId)
      invariant forall t :: t in pushes[i..] ==> PushAt(mf.blocks, t)
      invariant SetupAll(ti, cfg, mf.State(), pushes[i..]) == SetupAll(ti, cfg, old(mf.State()), pushes)
      invariant changed == (i > 0)
    {
      ghost var before := mf.State();
      assert pushes[i..][0] == pushes[i] && pushes[i..][1..] == pushes[i + 1..];
      var c := SetupSite(mf, ti, cfg, pushes[i]);
      PushesStay(before.blocks, mf.blocks, pushes[i].block, mf.nextId);
      changed := changed || c;
      i := i + 1;
    }
  }

  /** The pop loop of runOnMachineFunction. */
  method PopPops(mf: MachineFunction, ti: TargetInfo, cfg: Config, pops: seq<Site>) returns (changed: bool)
    requires AllOk(mf.blocks, mf.nextId) && DistinctSites(pops) && forall t :: t in pops ==> PopAt(mf.blocks, t)
    modifies mf
    ensures mf.State() == PopAll(ti, cfg, old(mf.State()), pops, mf.csiValid)
    ensures changed == (pops != [])
  {
    changed := false;
    var j := 0;
    while j < |pops|
      invariant 0 <= j <= |pops|
      invariant AllOk(mf.blocks, mf.nextId)
      invariant DistinctSites(pops[j..])
      invariant forall t :: t in pops[j..] ==> PopAt(mf.blocks, t)
      invariant PopAll(ti, cfg, mf.State(), pops[j..], mf.csiValid) == PopAll(ti, cfg, old(mf.State()), pops, mf.csiValid)
      invariant changed == (j > 0)
    {
      ghost var before := mf.State();
      assert pops[j..][0] == pops[j] && pops[j..][1..] == pops[j + 1..];
      var c := PopSite(mf, ti, cfg, pops[j]);
      PopAllStep(ti, cfg, before, pops[j..], mf.csiValid, mf.State());
      changed := changed || c;
      j := j + 1;
    }
  }

  /** runOnMachineFunction: nothing in the privileged section; elsewhere
      every recorded push, then every recorded pop, is instrumented, and
      the result says whether any was. */
  method Run(mf: MachineFunction, ti: TargetInfo, cfg: Config) returns (changed: bool)
    requires AllOk(mf.blocks, mf.nextId) && PopsShaped(mf.blocks)
    modifies mf
    ensures mf.section == "privileged_functions" ==> !changed && mf.State() == old(mf.State())
    ensures mf.section != "privileged_functions" ==>
      && mf.State() == Instrumented(ti, cfg, old(mf.State()), mf.csiValid)
      && changed == (Sites(old(mf.blocks), false) != [] || Sites(old(mf.blocks), true) != [])
    ensures !changed ==> mf.State() == old(mf.State())
  {
    if mf.section == "privileged_functions" {
      return false;
    }
    var pushes, pops := Classify(mf);
    Classified(mf.blocks, mf.nextId);
    changed := SetupPushes(mf, ti, cfg, pushes);
    var popped := PopPops(mf, ti, cfg, pops);
    changed := changed || popped;
  }
}
