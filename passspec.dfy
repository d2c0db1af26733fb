/**
 * runOnMachineFunction of the shadow-stack pass as a function of the
 * machine function's state. The pass first records every push and every
 * pop it instruments, then gives each push its store and each pop its load,
 * in the order it recorded them. Each edit finds its
 * instruction again by its id: the edits before it keep every instruction
 * they do not own.
 */
module ShadowPassSpec {
  import opened MachineIR
  import opened InstrIds
  import opened BlockInvariant
  import opened MachineFunctions
  import opened Liveness
  import opened ShadowInsts
  import opened ShadowStackSpec
  import opened ShadowSites

  /** Every block keeps the block invariant with counter n. */
  predicate AllOk(blocks: seq<Block>, n: nat)
  {
    forall b :: 0 <= b < |blocks| ==> BlockOk(blocks[b].insts, n)
  }

  /** The instruction a site names, looked up by its id in its block. */
  function Found(blocks: seq<Block>, t: Site): (r: Option<Instr>)
    ensures r.Some? ==> t.block < |blocks| && r.value in blocks[t.block].insts && r.value.id == t.id
    ensures r.None? && t.block < |blocks| ==> forall x :: x in blocks[t.block].insts ==> x.id != t.id
  {
    if t.block < |blocks| then
      match IndexOf(blocks[t.block].insts, t.id)
      case None => None
      case Some(q) => Some(blocks[t.block].insts[q])
    else None
  }

  /** The index of that instruction in its block. */
  function FoundAt(blocks: seq<Block>, t: Site): (q: nat)
    requires Found(blocks, t).Some?
    ensures q < |blocks[t.block].insts| && blocks[t.block].insts[q] == Found(blocks, t).value
  {
    IndexOf(blocks[t.block].insts, t.id).value
  }

  /** t names a push the pass instruments, with LR operand t.opnd. */
  predicate PushAt(blocks: seq<Block>, t: Site)
  {
    Found(blocks, t).Some? && PushOperand(Found(blocks, t).value) == Some(t.opnd)
  }

  /** t names a pop the pass instruments, with PC/LR operand t.opnd, in the
      shape popFromShadowStack asserts. */
  predicate PopAt(blocks: seq<Block>, t: Site)
  {
    && Found(blocks, t).Some?
    && PopOperand(Found(blocks, t).value) == Some(t.opnd)
    && PopShaped(Found(blocks, t).value, t.opnd)
  }

  /** Every pop of the function the pass instruments has the operand counts
      popFromShadowStack asserts. */
  predicate PopsShaped(blocks: seq<Block>)
  {
    forall b, i :: 0 <= b < |blocks| && 0 <= i < |blocks[b].insts| && PopOperand(blocks[b].insts[i]).Some? ==>
      PopShaped(blocks[b].insts[i], PopOperand(blocks[b].insts[i]).value)
  }

  /** B is A after an edit of block b that keeps its live-outs, every other
      block, and every instruction of b that is not an IT and whose id is
      not in gone. */
  predicate Evolves(A: seq<Block>, B: seq<Block>, b: nat, gone: set<nat>)
  {
    && |B| == |A| && b < |A|
    && (forall c :: 0 <= c < |A| && c != b ==> B[c] == A[c])
    && B[b].liveOuts == A[b].liveOuts
    && Kept(A[b].insts, gone, B[b].insts)
  }

  /** The ids of the sites of ts in block b. */
  function SiteIds(ts: seq<Site>, b: nat): (r: set<nat>)
    ensures forall t :: t in ts && t.block == b ==> t.id in r
    ensures forall id :: id in r ==> exists t :: t in ts && t.block == b && t.id == id
  {
    if ts == [] then {}
    else (if ts[0].block == b then {ts[0].id} else {}) + SiteIds(ts[1..], b)
  }

  /** The instructions the pass instruments emit code and are no ITs. */
  lemma SitePlain(x: Instr, pop: bool)
    requires ShadowSites.Operand(x, pop).Some?
    ensures !IsMeta(x) && !IsIT(x)
  {
    match x.op
    case MetaOp(_) =>
    case T2IT(_, _) =>
    case _ =>
  }

  /** The block invariant holds for every counter above the one it holds
      for. */
  lemma OkAbove(blocks: seq<Block>, n: nat, m: nat)
    requires AllOk(blocks, n) && n <= m
    ensures AllOk(blocks, m)
  {
  }

  /** After an edit, a site whose instruction is no IT and is not dropped
      by the edit finds the same instruction. */
  lemma FoundStays(A: seq<Block>, B: seq<Block>, b: nat, gone: set<nat>, n: nat, t: Site)
    requires Evolves(A, B, b, gone) && AllOk(B, n)
    requires Found(A, t).Some? && !IsIT(Found(A, t).value)
    requires t.block == b ==> t.id !in gone
    ensures Found(B, t) == Found(A, t)
  {
    if t.block == b {
      var x := Found(A, t).value;
      assert x in B[b].insts;
      FindById(B[b].insts, x);
    }
  }

  /** Pushes survive an edit that drops nothing. */
  lemma PushesStay(A: seq<Block>, B: seq<Block>, b: nat, n: nat)
    requires Evolves(A, B, b, {}) && AllOk(B, n)
    ensures forall t :: PushAt(A, t) ==> PushAt(B, t)
  {
    forall t | PushAt(A, t) ensures PushAt(B, t) {
      SitePlain(Found(A, t).value, false);
      FoundStays(A, B, b, {}, n, t);
    }
  }

  /** Pops survive an edit that drops none of them. */
  lemma PopsStay(A: seq<Block>, B: seq<Block>, b: nat, gone: set<nat>, n: nat)
    requires Evolves(A, B, b, gone) && AllOk(B, n)
    ensures forall t :: PopAt(A, t) && (t.block == b ==> t.id !in gone) ==> PopAt(B, t)
  {
    forall t | PopAt(A, t) && (t.block == b ==> t.id !in gone) ensures PopAt(B, t) {
      FoundStays(A, B, b, gone, n, t);
    }
  }

  /** What an edit keeps of every block, given what it keeps of block b. */
  lemma EvolvesKept(A: seq<Block>, B: seq<Block>, b: nat, gone: set<nat>)
    requires Evolves(A, B, b, gone)
    ensures forall c :: 0 <= c < |A| ==> Kept(A[c].insts, if c == b then gone else {}, B[c].insts)
  {
  }

  /** Replacing block b by one that keeps the invariant with counter m,
      its live-outs and its instructions outside gone. */
  lemma Replaced(A: seq<Block>, b: nat, blk: Block, gone: set<nat>, n: nat, m: nat)
    requires AllOk(A, n) && n <= m && b < |A| && BlockOk(blk.insts, m)
    requires blk.liveOuts == A[b].liveOuts && Kept(A[b].insts, gone, blk.insts)
    ensures AllOk(A[b := blk], m) && Evolves(A, A[b := blk], b, gone)
  {
  }

  /** setupShadowStack on the push t names. */
  function SetupAt(ti: TargetInfo, cfg: Config, st: MFState, t: Site): (r: MFState)
    requires AllOk(st.blocks, st.nextId) && PushAt(st.blocks, t)
    ensures AllOk(r.blocks, r.nextId) && st.nextId <= r.nextId && r.csi == st.csi
    ensures Evolves(st.blocks, r.blocks, t.block, {})
  {
    var b := t.block;
    var blk := st.blocks[b];
    var q := FoundAt(st.blocks, t);
    SitePlain(blk.insts[q], false);
    var e := SetupEdit(ti, cfg, blk, q, st.nextId);
    Replaced(st.blocks, b, Block(e.insts, blk.liveOuts), {}, st.nextId, e.nextId);
    MFState(st.blocks[b := Block(e.insts, blk.liveOuts)], e.nextId, st.csi)
  }

  /** The push loop of runOnMachineFunction over the pushes ts. */
  function SetupAll(ti: TargetInfo, cfg: Config, st: MFState, ts: seq<Site>): (r: MFState)
    requires AllOk(st.blocks, st.nextId) && forall t :: t in ts ==> PushAt(st.blocks, t)
    ensures AllOk(r.blocks, r.nextId) && st.nextId <= r.nextId && r.csi == st.csi
    ensures |r.blocks| == |st.blocks|
    ensures forall c :: 0 <= c < |st.blocks| ==> Kept(st.blocks[c].insts, {}, r.blocks[c].insts)
    ensures forall t :: PopAt(st.blocks, t) ==> PopAt(r.blocks, t)
    decreases |ts|
  {
    if ts == [] then st
    else
      var st1 := SetupAt(ti, cfg, st, ts[0]);
      PushesStay(st.blocks, st1.blocks, ts[0].block, st1.nextId);
      PopsStay(st.blocks, st1.blocks, ts[0].block, {}, st1.nextId);
      EvolvesKept(st.blocks, st1.blocks, ts[0].block, {});
      var r := SetupAll(ti, cfg, st1, ts[1..]);
      KeptAllTrans(st.blocks, st1.blocks, r.blocks, ts[0].block, {}, {}, {});
      r
  }

  /** Kept composes block by block. */
  lemma KeptAllTrans(A: seq<Block>, B: seq<Block>, C: seq<Block>, b: nat, gone: set<nat>, later: set<nat>, all: set<nat>)
    requires |B| == |A| && |C| == |A| && gone + later <= all
    requires forall c :: 0 <= c < |A| ==> Kept(A[c].insts, if c == b then gone else {}, B[c].insts)
    requires forall c :: 0 <= c < |A| ==> Kept(B[c].insts, later, C[c].insts)
    ensures forall c :: 0 <= c < |A| ==> Kept(A[c].insts, all, C[c].insts)
  {
    forall c | 0 <= c < |A| ensures Kept(A[c].insts, all, C[c].insts) {
      KeptTrans(A[c].insts, B[c].insts, C[c].insts, if c == b then gone else {}, later, all);
    }
  }

  /** popFromShadowStack on the pop t names; csiValid says whether the
      frame's callee-saved information is valid. */
  function PopAtSite(ti: TargetInfo, cfg: Config, st: MFState, t: Site, csiValid: bool): (r: MFState)
    requires AllOk(st.blocks, st.nextId) && PopAt(st.blocks, t)
    ensures AllOk(r.blocks, r.nextId) && st.nextId <= r.nextId
    ensures r.csi == st.csi || (csiValid && r.csi == MarkedLR(st.csi))
    ensures Evolves(st.blocks, r.blocks, t.block, {t.id})
  {
    var b := t.block;
    var blk := st.blocks[b];
    var q := FoundAt(st.blocks, t);
    var e := PopEdit(ti, cfg, blk, q, t.opnd, st.nextId);
    Replaced(st.blocks, b, Block(e.insts, blk.liveOuts), {t.id}, st.nextId, e.nextId);
    var csi := if PopReturns(ti, cfg, blk, q, t.opnd) && csiValid then MarkedLR(st.csi) else st.csi;
    MFState(st.blocks[b := Block(e.insts, blk.liveOuts)], e.nextId, csi)
  }

  /** The sites after the first are distinct and name other instructions
      than the first. */
  lemma DistinctRest(ts: seq<Site>)
    requires ts != [] && DistinctSites(ts)
    ensures DistinctSites(ts[1..])
    ensures forall t :: t in ts[1..] && t.block == ts[0].block ==> t.id != ts[0].id
  {
    forall t | t in ts[1..] && t.block == ts[0].block ensures t.id != ts[0].id {
      var j :| 0 <= j < |ts[1..]| && ts[1..][j] == t;
      assert ts[j + 1] == t;
    }
  }

  /** What one pop edit and the pops after it keep, block by block. */
  lemma PopKeptAll(A: seq<Block>, B: seq<Block>, C: seq<Block>, ts: seq<Site>)
    requires ts != [] && |B| == |A| && |C| == |A|
    requires forall c :: 0 <= c < |A| ==> Kept(A[c].insts, if c == ts[0].block then {ts[0].id} else {}, B[c].insts)
    requires forall c :: 0 <= c < |A| ==> Kept(B[c].insts, SiteIds(ts[1..], c), C[c].insts)
    ensures forall c :: 0 <= c < |A| ==> Kept(A[c].insts, SiteIds(ts, c), C[c].insts)
  {
    forall c | 0 <= c < |A| ensures Kept(A[c].insts, SiteIds(ts, c), C[c].insts) {
      KeptTrans(A[c].insts, B[c].insts, C[c].insts, if c == ts[0].block then {ts[0].id} else {}, SiteIds(ts[1..], c), SiteIds(ts, c));
    }
  }

  /** The pop loop of runOnMachineFunction over the pops ts. */
  function PopAll(ti: TargetInfo, cfg: Config, st: MFState, ts: seq<Site>, csiValid: bool): (r: MFState)
    requires AllOk(st.blocks, st.nextId) && DistinctSites(ts) && forall t :: t in ts ==> PopAt(st.blocks, t)
    ensures AllOk(r.blocks, r.nextId) && st.nextId <= r.nextId && |r.blocks| == |st.blocks|
    ensures r.csi == st.csi || (csiValid && r.csi == MarkedLR(st.csi))
    ensures forall c :: 0 <= c < |st.blocks| ==> Kept(st.blocks[c].insts, SiteIds(ts, c), r.blocks[c].insts)
    decreases |ts|
  {
    if ts == [] then st
    else
      var st1 := PopAtSite(ti, cfg, st, ts[0], csiValid);
      PopNext(st, st1, ts);
      var r := PopAll(ti, cfg, st1, ts[1..], csiValid);
      PopKeptAll(st.blocks, st1.blocks, r.blocks, ts);
      MarkedLRIdempotent(st.csi);
      r
  }

  /** One turn of the pop loop: the first pop is edited, and the rest are
      then the pops of the new state. */
  lemma PopAllStep(ti: TargetInfo, cfg: Config, st: MFState, ts: seq<Site>, csiValid: bool, st1: MFState)
    requires AllOk(st.blocks, st.nextId) && DistinctSites(ts) && forall t :: t in ts ==> PopAt(st.blocks, t)
    requires ts != [] && st1 == PopAtSite(ti, cfg, st, ts[0], csiValid)
    ensures AllOk(st1.blocks, st1.nextId) && DistinctSites(ts[1..])
    ensures forall t :: t in ts[1..] ==> PopAt(st1.blocks, t)
    ensures PopAll(ti, cfg, st, ts, csiValid) == PopAll(ti, cfg, st1, ts[1..], csiValid)
  {
    PopNext(st, st1, ts);
  }

  /** After the first pop's edit, the other pops are pops of the new
      blocks, and the edit kept all but the first pop's instruction. */
  lemma PopNext(st: MFState, st1: MFState, ts: seq<Site>)
    requires DistinctSites(ts) && forall t :: t in ts ==> PopAt(st.blocks, t)
    requires ts != [] && AllOk(st1.blocks, st1.nextId) && Evolves(st.blocks, st1.blocks, ts[0].block, {ts[0].id})
    ensures DistinctSites(ts[1..]) && forall t :: t in ts[1..] ==> PopAt(st1.blocks, t)
    ensures forall c :: 0 <= c < |st.blocks| ==> Kept(st.blocks[c].insts, if c == ts[0].block then {ts[0].id} else {}, st1.blocks[c].insts)
  {
    DistinctRest(ts);
    PopsStay(st.blocks, st1.blocks, ts[0].block, {ts[0].id}, st1.nextId);
    EvolvesKept(st.blocks, st1.blocks, ts[0].block, {ts[0].id});
  }

  /** The sites the pass records are found again by their ids as pushes and
      pops, and no two pops name the same instruction. */
  lemma Classified(blocks: seq<Block>, n: nat)
    requires AllOk(blocks, n) && PopsShaped(blocks)
    ensures forall t :: t in Sites(blocks, false) ==> PushAt(blocks, t)
    ensures forall t :: t in Sites(blocks, true) ==> PopAt(blocks, t)
    ensures DistinctSites(Sites(blocks, true))
  {
    assert AllUnique(blocks);
    SitesAt(blocks, false);
    SitesAt(blocks, true);
    SitesDistinct(blocks, true);
    forall t | t in Sites(blocks, false) ensures PushAt(blocks, t) {
      assert SiteAt(blocks, t, false);
    }
    forall t | t in Sites(blocks, true) ensures PopAt(blocks, t) {
      assert SiteAt(blocks, t, true);
      var q := IndexOf(blocks[t.block].insts, t.id).value;
      assert PopOperand(blocks[t.block].insts[q]).Some?;
    }
  }

  /** What the push loop and then the pop loop keep, block by block. */
  lemma KeptThen(A: seq<Block>, B: seq<Block>, C: seq<Block>, ts: seq<Site>)
    requires |B| == |A| && |C| == |A|
    requires forall c :: 0 <= c < |A| ==> Kept(A[c].insts, {}, B[c].insts)
    requires forall c :: 0 <= c < |A| ==> Kept(B[c].insts, SiteIds(ts, c), C[c].insts)
    ensures forall c :: 0 <= c < |A| ==> Kept(A[c].insts, SiteIds(ts, c), C[c].insts)
  {
    forall c | 0 <= c < |A| ensures Kept(A[c].insts, SiteIds(ts, c), C[c].insts) {
      KeptTrans(A[c].insts, B[c].insts, C[c].insts, {}, SiteIds(ts, c), SiteIds(ts, c));
    }
  }

  /** runOnMachineFunction outside the privileged section: every push the
      pass records gets its store, then every pop its load. */
  function Instrumented(ti: TargetInfo, cfg: Config, st: MFState, csiValid: bool): (r: MFState)
    requires AllOk(st.blocks, st.nextId) && PopsShaped(st.blocks)
    ensures AllOk(r.blocks, r.nextId) && st.nextId <= r.nextId && |r.blocks| == |st.blocks|
    ensures r.csi == st.csi || (csiValid && r.csi == MarkedLR(st.csi))
    ensures forall c :: 0 <= c < |st.blocks| ==>
              Kept(st.blocks[c].insts, SiteIds(Sites(st.blocks, true), c), r.blocks[c].insts)
  {
    Classified(st.blocks, st.nextId);
    var st1 := SetupAll(ti, cfg, st, Sites(st.blocks, false));
    var r := PopAll(ti, cfg, st1, Sites(st.blocks, true), csiValid);
    KeptThen(st.blocks, st1.blocks, r.blocks, Sites(st.blocks, true));
    r
  }
}
