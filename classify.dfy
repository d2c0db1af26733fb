/**
 * Which instructions the shadow-stack pass instruments: the prologue pushes
 * that save LR and the epilogue pops that restore LR or PC. The pass walks
 * every block and records, for each, the instruction and the LR (PC/LR)
 * operand; a recorded instruction is a Site here: its block, its id and
 * the operand's index.
 */
module ShadowSites {
  import opened MachineIR
  import opened InstrIds
  import opened MachineFunctions

  datatype Site = Site(block: nat, id: nat, opnd: nat)

  /** The first register operand of ops whose register is one of regs. */
  function FirstRegIn(ops: seq<Operand>, regs: set<Reg>): (r: Option<nat>)
    ensures r.Some? ==> r.value < |ops| && ops[r.value].RegOp? && ops[r.value].reg in regs
    ensures forall i :: 0 <= i < |ops| && (r.None? || i < r.value) ==> !(ops[i].RegOp? && ops[i].reg in regs)
  {
    if ops == [] then None
    else if ops[0].RegOp? && ops[0].reg in regs then Some(0)
    else match FirstRegIn(ops[1..], regs)
      case None => None
      case Some(i) => Some(i + 1)
  }

  /** Operand i of ops is SP (STR_PRE, STMDB_UPD, LDR_POST and LDMIA_* count
      as pushes and pops only when they write SP back). */
  predicate IsSP(ops: seq<Operand>, i: nat)
  {
    i < |ops| && ops[i] == RegOp(SP)
  }

  /** The LR operand of a frame-setup push. */
  function PushOperand(mi: Instr): Option<nat>
  {
    var push := match mi.op
      case T2STR_PRE => IsSP(mi.ops, 0)
      case T2STMDB_UPD => IsSP(mi.ops, 0)
      case TPUSH => true
      case _ => false;
    if push && mi.flags.frameSetup then FirstRegIn(mi.ops, {LR}) else None
  }

  /** The LR or PC operand of a frame-destroy pop. */
  function PopOperand(mi: Instr): Option<nat>
  {
    var pop := match mi.op
      case T2LDR_POST => IsSP(mi.ops, 1)
      case T2LDMIA_UPD => IsSP(mi.ops, 1)
      case T2LDMIA_RET => IsSP(mi.ops, 1)
      case TPOP => true
      case TPOP_RET => true
      case _ => false;
    if pop && mi.flags.frameDestroy then FirstRegIn(mi.ops, {LR, PC}) else None
  }

  function Operand(mi: Instr, pop: bool): Option<nat>
  {
    if pop then PopOperand(mi) else PushOperand(mi)
  }

  /** No instruction is both a push and a pop the pass instruments. */
  lemma PushNotPop(mi: Instr)
    ensures PushOperand(mi).Some? ==> PopOperand(mi).None?
  {
  }

  function SiteOf(b: nat, mi: Instr, pop: bool): seq<Site>
  {
    match Operand(mi, pop)
    case None => []
    case Some(k) => [Site(b, mi.id, k)]
  }

  /** The sites of block b, whose instructions are s, in order. */
  function BlockSites(b: nat, s: seq<Instr>, pop: bool): seq<Site>
    decreases |s|
  {
    if s == [] then [] else BlockSites(b, s[..|s| - 1], pop) + SiteOf(b, s[|s| - 1], pop)
  }

  /** The sites of the function, block by block. */
  function Sites(blocks: seq<Block>, pop: bool): seq<Site>
    decreases |blocks|
  {
    if blocks == [] then []
    else Sites(blocks[..|blocks| - 1], pop) + BlockSites(|blocks| - 1, blocks[|blocks| - 1].insts, pop)
  }

  /** t names an instruction of its block, found by its id, that is a push
      (a pop) with operand t.opnd. */
  predicate SiteAt(blocks: seq<Block>, t: Site, pop: bool)
  {
    t.block < |blocks| &&
    match IndexOf(blocks[t.block].insts, t.id)
    case None => false
    case Some(q) => Operand(blocks[t.block].insts[q], pop) == Some(t.opnd)
  }

  /** No two sites name the same instruction. */
  predicate DistinctSites(ts: seq<Site>)
  {
    forall j, j' :: 0 <= j < j' < |ts| ==> ts[j].block != ts[j'].block || ts[j].id != ts[j'].id
  }

  predicate AllUnique(blocks: seq<Block>)
  {
    forall b :: 0 <= b < |blocks| ==> UniqueIds(blocks[b].insts)
  }

  /** The loop over an instruction's explicit operands. */
  method FirstRegOperand(ops: seq<Operand>, regs: set<Reg>) returns (r: Option<nat>)
    ensures r == FirstRegIn(ops, regs)
  {
    var i := 0;
    while i < |ops|
      invariant i <= |ops|
      invariant FirstRegIn(ops, regs) == (match FirstRegIn(ops[i..], regs) case None => None case Some(j) => Some(i + j))
    {
      assert ops[i..][0] == ops[i] && ops[i..][1..] == ops[i + 1..];
      if ops[i].RegOp? && ops[i].reg in regs {
        return Some(i);
      }
      i := i + 1;
    }
    return None;
  }

  /** The pass's switch on one instruction's opcode. */
  method ClassifyInst(mi: Instr) returns (push: Option<nat>, pop: Option<nat>)
    ensures push == PushOperand(mi) && pop == PopOperand(mi)
  {
    push, pop := None, None;
    match mi.op {
      case T2STR_PRE =>
        if 0 < |mi.ops| && mi.ops[0] == RegOp(SP) && mi.flags.frameSetup {
          push := FirstRegOperand(mi.ops, {LR});
        }
      case T2STMDB_UPD =>
        if 0 < |mi.ops| && mi.ops[0] == RegOp(SP) && mi.flags.frameSetup {
          push := FirstRegOperand(mi.ops, {LR});
        }
      case TPUSH =>
        if mi.flags.frameSetup {
          push := FirstRegOperand(mi.ops, {LR});
        }
      case T2LDR_POST =>
        if 1 < |mi.ops| && mi.ops[1] == RegOp(SP) && mi.flags.frameDestroy {
          pop := FirstRegOperand(mi.ops, {LR, PC});
        }
      case T2LDMIA_UPD =>
        if 1 < |mi.ops| && mi.ops[1] == RegOp(SP) && mi.flags.frameDestroy {
          pop := FirstRegOperand(mi.ops, {LR, PC});
        }
      case T2LDMIA_RET =>
        if 1 < |mi.ops| && mi.ops[1] == RegOp(SP) && mi.flags.frameDestroy {
          pop := FirstRegOperand(mi.ops, {LR, PC});
        }
      case TPOP =>
        if mi.flags.frameDestroy {
          pop := FirstRegOperand(mi.ops, {LR, PC});
        }
      case TPOP_RET =>
        if mi.flags.frameDestroy {
          pop := FirstRegOperand(mi.ops, {LR, PC});
        }
      case _ =>
    }
  }

  lemma BlockSitesStep(b: nat, s: seq<Instr>, i: nat, pop: bool)
    requires i < |s|
    ensures BlockSites(b, s[..i + 1], pop) == BlockSites(b, s[..i], pop) + SiteOf(b, s[i], pop)
  {
    assert s[..i + 1][..i] == s[..i];
  }

  lemma SitesStep(blocks: seq<Block>, b: nat, pop: bool)
    requires b < |blocks|
    ensures Sites(blocks[..b + 1], pop) == Sites(blocks[..b], pop) + BlockSites(b, blocks[b].insts, pop)
  {
    assert blocks[..b + 1][..b] == blocks[..b];
  }

  /** The inner loop of the classification: the sites of one block. */
  method ClassifyBlock(b: nat, s: seq<Instr>) returns (pushes: seq<Site>, pops: seq<Site>)
    ensures pushes == BlockSites(b, s, false) && pops == BlockSites(b, s, true)
  {
    pushes, pops := [], [];
    var i := 0;
    while i < |s|
      invariant i <= |s|
      invariant pushes == BlockSites(b, s[..i], false) && pops == BlockSites(b, s[..i], true)
    {
      var push, pop := ClassifyInst(s[i]);
      BlockSitesStep(b, s, i, false);
      BlockSitesStep(b, s, i, true);
      if push.Some? {
        pushes := pushes + [Site(b, s[i].id, push.value)];
      }
      if pop.Some? {
        pops := pops + [Site(b, s[i].id, pop.value)];
      }
      i := i + 1;
    }
    assert s[..i] == s;
  }

  /** The loops of runOnMachineFunction that collect the pushes and pops,
      block by block and instruction by instruction. */
  method Classify(mf: MachineFunction) returns (pushes: seq<Site>, pops: seq<Site>)
    ensures pushes == Sites(mf.blocks, false) && pops == Sites(mf.blocks, true)
  {
    var blocks := mf.blocks;
    pushes, pops := [], [];
    var b := 0;
    while b < |blocks|
      invariant b <= |blocks|
      invariant pushes == Sites(blocks[..b], false) && pops == Sites(blocks[..b], true)
    {
      var bpushes, bpops := ClassifyBlock(b, blocks[b].insts);
      SitesStep(blocks, b, false);
      SitesStep(blocks, b, true);
      pushes, pops := pushes + bpushes, pops + bpops;
      b := b + 1;
    }
    assert blocks[..b] == blocks;
  }

  /** Every site of a block names one of its instructions with that
      operand. */
  lemma {:induction false} BlockSitesSound(b: nat, s: seq<Instr>, pop: bool)
    ensures forall t :: t in BlockSites(b, s, pop) ==>
      t.block == b && exists i :: 0 <= i < |s| && s[i].id == t.id && Operand(s[i], pop) == Some(t.opnd)
    decreases |s|
  {
    if s != [] {
      var p := s[..|s| - 1];
      BlockSitesSound(b, p, pop);
      forall t | t in BlockSites(b, s, pop)
        ensures t.block == b && exists i :: 0 <= i < |s| && s[i].id == t.id && Operand(s[i], pop) == Some(t.opnd)
      {
        if t in BlockSites(b, p, pop) {
          var i :| 0 <= i < |p| && p[i].id == t.id && Operand(p[i], pop) == Some(t.opnd);
          assert s[i] == p[i];
        } else {
          assert s[|s| - 1].id == t.id;
        }
      }
    }
  }

  /** Every instrumented instruction of a block has its site. */
  lemma {:induction false} BlockSitesComplete(b: nat, s: seq<Instr>, pop: bool)
    ensures forall i :: 0 <= i < |s| && Operand(s[i], pop).Some? ==>
      Site(b, s[i].id, Operand(s[i], pop).value) in BlockSites(b, s, pop)
    decreases |s|
  {
    if s != [] {
      var p := s[..|s| - 1];
      BlockSitesComplete(b, p, pop);
      forall i | 0 <= i < |s| && Operand(s[i], pop).Some?
        ensures Site(b, s[i].id, Operand(s[i], pop).value) in BlockSites(b, s, pop)
      {
        if i < |p| {
          assert s[i] == p[i];
        }
      }
    }
  }

  /** In a block whose ids are unique, its sites name distinct instructions. */
  lemma {:induction false} BlockSitesDistinct(b: nat, s: seq<Instr>, pop: bool)
    requires UniqueIds(s)
    ensures forall j, j' :: 0 <= j < j' < |BlockSites(b, s, pop)| ==>
      BlockSites(b, s, pop)[j].id != BlockSites(b, s, pop)[j'].id
    decreases |s|
  {
    if s != [] {
      var p := s[..|s| - 1];
      var x := s[|s| - 1];
      assert UniqueIds(p);
      BlockSitesDistinct(b, p, pop);
      BlockSitesSound(b, p, pop);
      var ts := BlockSites(b, s, pop);
      var tp := BlockSites(b, p, pop);
      forall j, j' | 0 <= j < j' < |ts| ensures ts[j].id != ts[j'].id {
        if j' >= |tp| {
          assert ts[j'] == Site(b, x.id, Operand(x, pop).value);
          assert ts[j] == tp[j] && tp[j] in tp;
          var i :| 0 <= i < |p| && p[i].id == tp[j].id && Operand(p[i], pop) == Some(tp[j].opnd);
          assert s[i] == p[i];
        } else {
          assert ts[j] == tp[j] && ts[j'] == tp[j'];
        }
      }
    }
  }

  /** Every site of the function is in one of its blocks. */
  lemma {:induction false} SitesInBlocks(blocks: seq<Block>, pop: bool)
    ensures forall t :: t in Sites(blocks, pop) ==> t.block < |blocks|
    decreases |blocks|
  {
    if blocks != [] {
      var n := |blocks| - 1;
      SitesInBlocks(blocks[..n], pop);
      BlockSitesSound(n, blocks[n].insts, pop);
    }
  }

  /** The sites of the function name instructions of their blocks with the
      recorded operand. */
  lemma {:induction false} SitesSound(blocks: seq<Block>, pop: bool)
    ensures forall t :: t in Sites(blocks, pop) ==>
      t.block < |blocks| &&
      exists i :: 0 <= i < |blocks[t.block].insts| && blocks[t.block].insts[i].id == t.id
                  && Operand(blocks[t.block].insts[i], pop) == Some(t.opnd)
    decreases |blocks|
  {
    if blocks != [] {
      var n := |blocks| - 1;
      var p := blocks[..n];
      SitesSound(p, pop);
      BlockSitesSound(n, blocks[n].insts, pop);
      forall t | t in Sites(blocks, pop)
        ensures t.block < |blocks| &&
          exists i :: 0 <= i < |blocks[t.block].insts| && blocks[t.block].insts[i].id == t.id
                      && Operand(blocks[t.block].insts[i], pop) == Some(t.opnd)
      {
        if t in Sites(p, pop) {
          assert blocks[t.block] == p[t.block];
        }
      }
    }
  }

  /** Every instrumented instruction of the function has its site. */
  lemma {:induction false} SitesComplete(blocks: seq<Block>, pop: bool)
    ensures forall b, i :: 0 <= b < |blocks| && 0 <= i < |blocks[b].insts| && Operand(blocks[b].insts[i], pop).Some? ==>
      Site(b, blocks[b].insts[i].id, Operand(blocks[b].insts[i], pop).value) in Sites(blocks, pop)
    decreases |blocks|
  {
    if blocks != [] {
      var n := |blocks| - 1;
      var p := blocks[..n];
      SitesComplete(p, pop);
      BlockSitesComplete(n, blocks[n].insts, pop);
      forall b, i | 0 <= b < |blocks| && 0 <= i < |blocks[b].insts| && Operand(blocks[b].insts[i], pop).Some?
        ensures Site(b, blocks[b].insts[i].id, Operand(blocks[b].insts[i], pop).value) in Sites(blocks, pop)
      {
        if b < n {
          assert blocks[b] == p[b];
        }
      }
    }
  }

  /** With unique ids in every block, the sites are distinct. */
  lemma {:induction false} SitesDistinct(blocks: seq<Block>, pop: bool)
    requires AllUnique(blocks)
    ensures DistinctSites(Sites(blocks, pop))
    decreases |blocks|
  {
    if blocks != [] {
      var n := |blocks| - 1;
      var p := blocks[..n];
      assert AllUnique(p) by {
        forall b | 0 <= b < |p| ensures UniqueIds(p[b].insts) {
          assert p[b] == blocks[b];
        }
      }
      SitesDistinct(p, pop);
      SitesInBlocks(p, pop);
      BlockSitesSound(n, blocks[n].insts, pop);
      BlockSitesDistinct(n, blocks[n].insts, pop);
      DistinctJoin(Sites(p, pop), BlockSites(n, blocks[n].insts, pop), n);
    }
  }

  /** Sites of earlier blocks and the distinct sites of block n do not
      collide. */
  lemma DistinctJoin(tp: seq<Site>, tb: seq<Site>, n: nat)
    requires DistinctSites(tp) && forall t :: t in tp ==> t.block < n
    requires forall t :: t in tb ==> t.block == n
    requires forall j, j' :: 0 <= j < j' < |tb| ==> tb[j].id != tb[j'].id
    ensures DistinctSites(tp + tb)
  {
    var ts := tp + tb;
    forall j, j' | 0 <= j < j' < |ts| ensures ts[j].block != ts[j'].block || ts[j].id != ts[j'].id {
      if j' < |tp| {
        assert ts[j] == tp[j] && ts[j'] == tp[j'];
      } else if j < |tp| {
        assert ts[j] == tp[j] && tp[j] in tp;
        assert ts[j'] == tb[j' - |tp|] && tb[j' - |tp|] in tb;
      } else {
        assert ts[j] == tb[j - |tp|] && ts[j'] == tb[j' - |tp|];
      }
    }
  }

  /** With unique ids, a site found in the function is found again by its
      id. */
  lemma SitesAt(blocks: seq<Block>, pop: bool)
    requires AllUnique(blocks)
    ensures forall t :: t in Sites(blocks, pop) ==> SiteAt(blocks, t, pop)
  {
    SitesSound(blocks, pop);
    forall t | t in Sites(blocks, pop) ensures SiteAt(blocks, t, pop) {
      FoundSite(blocks, t, pop);
    }
  }

  lemma FoundSite(blocks: seq<Block>, t: Site, pop: bool)
    requires AllUnique(blocks) && t.block < |blocks|
    requires exists i :: 0 <= i < |blocks[t.block].insts| && blocks[t.block].insts[i].id == t.id
                         && Operand(blocks[t.block].insts[i], pop) == Some(t.opnd)
    ensures SiteAt(blocks, t, pop)
  {
    var s := blocks[t.block].insts;
    assert UniqueIds(s);
    var i :| 0 <= i < |s| && s[i].id == t.id && Operand(s[i], pop) == Some(t.opnd);
    assert IndexOf(s, t.id).Some?;
  }
}
