/**
 * The free-register query of the instrumentor: liveness of the ARM core
 * registers before (or after) an instruction, computed by stepping backward
 * from the block's live-out set, and the fixed list of candidate registers
 * filtered by reservation and liveness.
 *
 * What an instruction defines and uses, and which registers are reserved,
 * come from LLVM's target description; they are the parameters gathered in
 * TargetInfo.
 */
module Liveness {
  import opened MachineIR
  import opened MachineFunctions

  /** The register information the query consults: the registers each
      instruction defines (including clobbers) and uses, and the reserved
      registers (MachineRegisterInfo::isReserved). */
  datatype TargetInfo = TargetInfo(defs: Instr -> set<Reg>, uses: Instr -> set<Reg>, reserved: set<Reg>)

  /** LivePhysRegs::stepBackward over mi: its definitions die, its uses
      become live. */
  function StepBackward(ti: TargetInfo, live: set<Reg>, mi: Instr): (r: set<Reg>)
    ensures forall x :: x in r <==> (x in live && x !in ti.defs(mi)) || x in ti.uses(mi)
  {
    (live - ti.defs(mi)) + ti.uses(mi)
  }

  /** The registers live just before index i of s, when liveOuts are live at
      the end of s. */
  function LiveAt(ti: TargetInfo, s: seq<Instr>, liveOuts: set<Reg>, i: nat): set<Reg>
    requires i <= |s|
    decreases |s| - i
  {
    if i == |s| then liveOuts else StepBackward(ti, LiveAt(ti, s, liveOuts, i + 1), s[i])
  }

  /** The low registers R0-R7, in the order the query tries them. */
  const LoGPRs: seq<Reg> := [R0, R1, R2, R3, R4, R5, R6, R7]

  /** The high registers R8-R12 and LR, in the order the query tries them. */
  const HiGPRs: seq<Reg> := [R8, R9, R10, R11, R12, LR]

  /** The registers the query considers: the low ones only for Thumb. */
  function Candidates(thumb: bool): seq<Reg>
  {
    if thumb then LoGPRs else LoGPRs + HiGPRs
  }

  /** Position of a register in the fixed listing R0, ..., R12, LR. */
  function Rank(r: Reg): nat
  {
    match r
    case R0 => 0 case R1 => 1 case R2 => 2 case R3 => 3
    case R4 => 4 case R5 => 5 case R6 => 6 case R7 => 7
    case R8 => 8 case R9 => 9 case R10 => 10 case R11 => 11 case R12 => 12
    case LR => 13
    case _ => 14
  }

  /** rs lists registers in strictly increasing rank: without duplicates
      and in the fixed listing order. */
  predicate Ranked(rs: seq<Reg>)
  {
    forall i, j :: 0 <= i < j < |rs| ==> Rank(rs[i]) < Rank(rs[j])
  }

  /** The candidates, in order, that are neither reserved nor live. */
  function FreeAmong(cands: seq<Reg>, reserved: set<Reg>, live: set<Reg>): (free: seq<Reg>)
    ensures forall r :: r in free <==> r in cands && r !in reserved && r !in live
    ensures Ranked(cands) ==> Ranked(free)
  {
    if cands == [] then []
    else
      var rest := FreeAmong(cands[1..], reserved, live);
      assert Ranked(cands) ==> forall j :: 0 <= j < |rest| ==> Rank(cands[0]) < Rank(rest[j]) by {
        if Ranked(cands) {
          forall j | 0 <= j < |rest| ensures Rank(cands[0]) < Rank(rest[j]) {
            assert rest[j] in rest;
            var i :| 0 <= i < |cands[1..]| && cands[1..][i] == rest[j];
            assert cands[i + 1] == rest[j];
          }
        }
      }
      if cands[0] !in reserved && cands[0] !in live then [cands[0]] + rest else rest
  }

  lemma {:induction false} FreeAmongAppend(a: seq<Reg>, b: seq<Reg>, reserved: set<Reg>, live: set<Reg>)
    ensures FreeAmong(a + b, reserved, live) == FreeAmong(a, reserved, live) + FreeAmong(b, reserved, live)
    decreases |a|
  {
    if a == [] {
      assert a + b == b;
    } else {
      assert (a + b)[1..] == a[1..] + b;
      FreeAmongAppend(a[1..], b, reserved, live);
    }
  }

  /** One more candidate is kept exactly when it is neither reserved nor
      live. */
  lemma FreeAmongStep(cands: seq<Reg>, k: nat, reserved: set<Reg>, live: set<Reg>)
    requires k < |cands|
    ensures FreeAmong(cands[..k + 1], reserved, live)
            == FreeAmong(cands[..k], reserved, live) + (if cands[k] !in reserved && cands[k] !in live then [cands[k]] else [])
  {
    assert cands[..k + 1] == cands[..k] + [cands[k]];
    FreeAmongAppend(cands[..k], [cands[k]], reserved, live);
    assert [cands[k]][1..] == [];
  }

  lemma CandidatesRanked(thumb: bool)
    ensures Ranked(Candidates(thumb))
  {
  }

  /** The filter loop over one register list: push each candidate that is
      neither reserved nor live. */
  method PushFree(free0: seq<Reg>, cands: seq<Reg>, reserved: set<Reg>, live: set<Reg>) returns (free: seq<Reg>)
    ensures free == free0 + FreeAmong(cands, reserved, live)
  {
    free := free0;
    var k := 0;
    while k < |cands|
      invariant 0 <= k <= |cands|
      invariant free == free0 + FreeAmong(cands[..k], reserved, live)
    {
      FreeAmongStep(cands, k, reserved, live);
      ghost var kept := FreeAmong(cands[..k], reserved, live);
      if cands[k] !in reserved && cands[k] !in live {
        free := free + [cands[k]];
        assert free == free0 + (kept + [cands[k]]);
      } else {
        assert kept + [] == kept;
      }
      k := k + 1;
    }
    assert cands[..k] == cands;
  }

  /** The backward liveness walk: from the live-outs at the end of s, step
      over every instruction from the last one down to index i. */
  method LiveBefore(ti: TargetInfo, s: seq<Instr>, liveOuts: set<Reg>, i: nat) returns (live: set<Reg>)
    requires i <= |s|
    ensures live == LiveAt(ti, s, liveOuts, i)
  {
    live := liveOuts;
    var j := |s|;
    while j != i
      invariant i <= j <= |s|
      invariant live == LiveAt(ti, s, liveOuts, j)
      decreases j
    {
      j := j - 1;
      live := StepBackward(ti, live, s[j]);
    }
  }

  /** The candidates of the query that are neither reserved nor live at
      index i of block b, in the fixed order. */
  method FreeAt(mf: MachineFunction, ti: TargetInfo, b: nat, i: nat, thumb: bool) returns (free: seq<Reg>)
    requires b < |mf.blocks| && i <= |mf.blocks[b].insts|
    ensures free == FreeAmong(Candidates(thumb), ti.reserved, LiveAt(ti, mf.blocks[b].insts, mf.blocks[b].liveOuts, i))
  {
    var live := LiveBefore(ti, mf.blocks[b].insts, mf.blocks[b].liveOuts, i);
    free := FilterFree(ti.reserved, live, thumb);
  }

  /** The two filter loops of the query: the low registers, then, unless
      Thumb, the high ones. */
  method FilterFree(reserved: set<Reg>, live: set<Reg>, thumb: bool) returns (free: seq<Reg>)
    ensures free == FreeAmong(Candidates(thumb), reserved, live)
  {
    CandidatesSplit(thumb, reserved, live);
    free := PushFree([], LoGPRs, reserved, live);
    if !thumb {
      free := PushFree(free, HiGPRs, reserved, live);
    }
  }

  lemma CandidatesSplit(thumb: bool, reserved: set<Reg>, live: set<Reg>)
    ensures FreeAmong(Candidates(thumb), reserved, live)
            == [] + FreeAmong(LoGPRs, reserved, live) + (if thumb then [] else FreeAmong(HiGPRs, reserved, live))
  {
    FreeAmongAppend(LoGPRs, HiGPRs, reserved, live);
  }

  /** findFreeRegistersBefore: the free registers just before MI, the
      instruction at index q of block b. */
  method FindFreeRegistersBefore(mf: MachineFunction, ti: TargetInfo, b: nat, q: nat, thumb: bool)
      returns (free: seq<Reg>)
    requires b < |mf.blocks| && q < |mf.blocks[b].insts| && !IsMeta(mf.blocks[b].insts[q])
    ensures var live := LiveAt(ti, mf.blocks[b].insts, mf.blocks[b].liveOuts, q);
      && free == FreeAmong(Candidates(thumb), ti.reserved, live)
      && (forall r :: r in free <==> r in Candidates(thumb) && r !in ti.reserved && r !in live)
    ensures Ranked(free)
  {
    free := FreeAt(mf, ti, b, q, thumb);
    CandidatesRanked(thumb);
  }

  /** findFreeRegistersAfter: the free registers just after MI, i.e. live
      before the instruction that follows it. */
  method FindFreeRegistersAfter(mf: MachineFunction, ti: TargetInfo, b: nat, q: nat, thumb: bool)
      returns (free: seq<Reg>)
    requires b < |mf.blocks| && q < |mf.blocks[b].insts| && !IsMeta(mf.blocks[b].insts[q])
    ensures var live := LiveAt(ti, mf.blocks[b].insts, mf.blocks[b].liveOuts, q + 1);
      && free == FreeAmong(Candidates(thumb), ti.reserved, live)
      && (forall r :: r in free <==> r in Candidates(thumb) && r !in ti.reserved && r !in live)
    ensures Ranked(free)
  {
    free := FreeAt(mf, ti, b, q + 1, thumb);
    CandidatesRanked(thumb);
  }
}
