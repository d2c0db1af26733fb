/**
 * What the two edits of the shadow-stack pass do to the block that holds
 * the instrumented instruction, as functions on the block: setupShadowStack
 * puts the store of LR before a push; popFromShadowStack puts the load of
 * the saved return address after a pop and then takes PC/LR out of the pop
 * (dropping the operand, turning a two-register LDMIA into an LDR, or
 * removing the pop). Each function carries the block invariant through and
 * says which instructions the edited block holds.
 */
module ShadowStackSpec {
  import opened MachineIR
  import opened ITEditSpec
  import opened InstrIds
  import opened ITBlocks
  import opened Liveness
  import opened ShadowInsts
  import opened BlockInvariant

  /** Instructions fit to be inserted with counter n: unique ids from n
      on, each emitting code, no IT. */
  predicate Insertable(news: seq<Instr>, n: nat)
  {
    UniqueIds(news) && IdsIn(news, n, n + |news|) && NoIT(news) && forall i :: 0 <= i < |news| ==> !IsMeta(news[i])
  }

  /** New instructions numbered from n are insertable. */
  lemma FreshInsertable(s: seq<Instr>, n: nat, pi: PredInfo)
    requires Fresh(s, n, pi)
    ensures Insertable(s, n)
  {
  }

  /** r holds every instruction of s that is not an IT and whose id is not
      in ids. */
  predicate Kept(s: seq<Instr>, ids: set<nat>, r: seq<Instr>)
  {
    forall x {:trigger x in s} :: x in s && !IsIT(x) && x.id !in ids ==> x in r
  }

  /** r holds no instruction with the given id. */
  predicate Gone(id: nat, r: seq<Instr>)
  {
    forall y {:trigger y in r} :: y in r ==> y.id != id
  }

  lemma KeptTrans(a: seq<Instr>, b: seq<Instr>, c: seq<Instr>, A: set<nat>, B: set<nat>, C: set<nat>)
    requires Kept(a, A, b) && Kept(b, B, c) && A + B <= C
    ensures Kept(a, C, c)
  {
    forall x | x in a && !IsIT(x) && x.id !in C ensures x in c {
      assert x in b;
    }
  }

  /** An id that s does not hold need not be excepted. */
  lemma KeptMissing(s: seq<Instr>, A: set<nat>, id: nat, r: seq<Instr>)
    requires Kept(s, A + {id}, r) && Gone(id, s)
    ensures Kept(s, A, r)
  {
    forall x | x in s && !IsIT(x) && x.id !in A ensures x in r {
      assert x.id != id;
    }
  }

  /** A block holds no id at or above its counter. */
  lemma GoneAbove(s: seq<Instr>, n: nat, id: nat)
    requires IdsBelow(s, n) && n <= id
    ensures Gone(id, s)
  {
    forall y | y in s ensures y.id != id {
      var i :| 0 <= i < |s| && s[i] == y;
    }
  }

  /** The function's counter once news, numbered from n, are built. */
  function Counter(n: nat, news: seq<Instr>): nat
  {
    n + |news|
  }

  /** What the editor needs to insert news at q of s, with counter n. */
  predicate InsertPre(s: seq<Instr>, q: nat, news: seq<Instr>, after: bool, n: nat)
  {
    InsertReady(s, q, news, after) && BlockOk(s, n) && Insertable(news, n)
  }

  lemma InsertedOk(s: seq<Instr>, q: nat, news: seq<Instr>, after: bool, n: nat)
    requires InsertPre(s, q, news, after, n)
    ensures var e := InsertSpec(s, q, news, after, Counter(n, news));
      Counter(n, news) <= e.nextId && BlockOk(e.insts, e.nextId)
  {
    InsertKeepsOk(s, q, news, after, n, Counter(n, news));
  }

  lemma InsertedKeeps(s: seq<Instr>, q: nat, news: seq<Instr>, after: bool, n: nat)
    requires InsertReady(s, q, news, after) && NoIT(news)
    ensures var r := InsertSpec(s, q, news, after, Counter(n, news)).insts;
      Kept(s, {}, r) && Kept(news, {}, r)
  {
    InsertKeeps(s, q, news, after, Counter(n, news));
    var r := InsertSpec(s, q, news, after, Counter(n, news)).insts;
    forall x | x in s && !IsIT(x) ensures x in r {
      var i :| 0 <= i < |s| && s[i] == x;
    }
    forall x | x in news && !IsIT(x) ensures x in r {
      var i :| 0 <= i < |news| && news[i] == x;
    }
  }

  /** What a pass needs to insert news at q of s, with counter n: the
      block invariant, an instruction that emits code at q, insertable
      instructions and, after q, at least one of them. */
  predicate InsertOk(s: seq<Instr>, q: nat, news: seq<Instr>, after: bool, n: nat)
  {
    BlockOk(s, n) && q < |s| && !IsMeta(s[q]) && Insertable(news, n) && (after ==> news != [])
  }

  lemma InsertedFacts(s: seq<Instr>, q: nat, news: seq<Instr>, after: bool, n: nat)
    requires InsertOk(s, q, news, after, n)
    ensures InsertReady(s, q, news, after)
    ensures var e := InsertSpec(s, q, news, after, Counter(n, news));
      && Counter(n, news) <= e.nextId && BlockOk(e.insts, e.nextId)
      && Kept(s, {}, e.insts) && Kept(news, {}, e.insts)
  {
    ReadyFromWF(s, q, news, after);
    InsertedOk(s, q, news, after, n);
    InsertedKeeps(s, q, news, after, n);
  }

  /** insertInstsBefore/After at q of news, built with counter n: the block keeps its invariant, every old non-IT
      instruction and gains every new one. */
  function Inserted(s: seq<Instr>, q: nat, news: seq<Instr>, after: bool, n: nat): (e: Edit)
    requires InsertOk(s, q, news, after, n)
    ensures Counter(n, news) <= e.nextId && BlockOk(e.insts, e.nextId)
    ensures Kept(s, {}, e.insts) && Kept(news, {}, e.insts)
  {
    InsertedFacts(s, q, news, after, n);
    InsertSpec(s, q, news, after, Counter(n, news))
  }

  lemma RemovedFacts(s: seq<Instr>, j: nat, n: nat)
    requires RemoveReady(s, j) && BlockOk(s, n)
    ensures var r := RemoveSpec(s, j);
      BlockOk(r, n) && Kept(s, {s[j].id}, r) && Gone(s[j].id, r)
  {
    RemoveKeepsOk(s, j, n);
    RemoveKeeps(s, j);
    RemoveDrops(s, j);
    var r := RemoveSpec(s, j);
    forall x | x in s && !IsIT(x) && x.id !in {s[j].id} ensures x in r {
      var i :| 0 <= i < |s| && s[i] == x;
    }
  }

  /** removeInst at j: the block keeps its invariant and every other non-IT
      instruction, and no instruction with the removed one's id is left. */
  function Removed(s: seq<Instr>, j: nat, n: nat): (r: seq<Instr>)
    requires BlockOk(s, n) && j < |s| && !IsMeta(s[j]) && !IsIT(s[j])
    ensures BlockOk(r, n) && Kept(s, {s[j].id}, r) && Gone(s[j].id, r)
  {
    RemovedFacts(s, j, n);
    RemoveSpec(s, j)
  }

  /** An in-place change of the instruction at j to x with the same id: the
      block keeps its invariant and every other instruction. */
  function Updated(s: seq<Instr>, j: nat, x: Instr, n: nat): (r: seq<Instr>)
    requires BlockOk(s, n) && j < |s| && x.id == s[j].id && !IsIT(x) && !IsIT(s[j]) && IsMeta(x) == IsMeta(s[j])
    ensures BlockOk(r, n) && x in r && Kept(s, {x.id}, r)
  {
    UpdateKeepsOk(s, j, x, n);
    forall y | y in s && !IsIT(y) && y.id !in {x.id} ensures y in s[j := x] {
      var i :| 0 <= i < |s| && s[i] == y;
    }
    assert s[j := x][j] == x;
    s[j := x]
  }

  /** The free registers setupShadowStack asks for: none for the single
      store, else those free just before the push. */
  function SetupFree(ti: TargetInfo, cfg: Config, blk: Block, q: nat): seq<Reg>
    requires q < |blk.insts|
  {
    if ShortStore(cfg) then [] else FreeAmong(Candidates(cfg.thumb), ti.reserved, LiveAt(ti, blk.insts, blk.liveOuts, q))
  }

  /** The instructions setupShadowStack builds for the push at q, numbered
      from n. */
  function SetupNews(ti: TargetInfo, cfg: Config, blk: Block, q: nat, n: nat): seq<Instr>
    requires q < |blk.insts|
  {
    SetupInsts(cfg, InstrPredicate(blk.insts[q]), SetupFree(ti, cfg, blk, q), n)
  }

  /** setupShadowStack on the push at index q of blk, when the function's
      counter is n: the new instructions go before the push. The block
      keeps its invariant, every old instruction but an IT the editor
      re-creates, and gains all the new instructions. */
  function SetupEdit(ti: TargetInfo, cfg: Config, blk: Block, q: nat, n: nat): (e: Edit)
    requires q < |blk.insts| && !IsMeta(blk.insts[q]) && BlockOk(blk.insts, n)
    ensures Counter(n, SetupNews(ti, cfg, blk, q, n)) <= e.nextId && BlockOk(e.insts, e.nextId)
    ensures Kept(blk.insts, {}, e.insts) && Kept(SetupNews(ti, cfg, blk, q, n), {}, e.insts)
  {
    var news := SetupNews(ti, cfg, blk, q, n);
    SetupFresh(cfg, InstrPredicate(blk.insts[q]), SetupFree(ti, cfg, blk, q), n);
    FreshInsertable(news, n, InstrPredicate(blk.insts[q]));
    Inserted(blk.insts, q, news, false, n)
  }

  /** The index of the register other than PC/LR in a two-register LDMIA
      (base, write-back, predicate, then the two registers). */
  function OtherIndex(k: nat): nat
  {
    if k == 4 then 5 else 4
  }

  /** What popFromShadowStack relies on: operand k is PC or LR; the pop is
      neither meta nor an IT; an LDMIA has at least two registers besides
      its base, write-back and predicate, and a register at the other index
      when it has exactly two; a POP has at least one register besides its
      predicate. */
  predicate PopShaped(mi: Instr, k: nat)
  {
    && k < |mi.ops| && (mi.ops[k] == RegOp(LR) || mi.ops[k] == RegOp(PC))
    && !IsMeta(mi) && !IsIT(mi)
    && ((mi.op.T2LDMIA_UPD? || mi.op.T2LDMIA_RET?) ==>
          |mi.ops| >= 6 && (|mi.ops| == 6 ==> mi.ops[OtherIndex(k)].RegOp?))
    && ((mi.op.TPOP? || mi.op.TPOP_RET?) ==> |mi.ops| >= 3)
  }

  /** The pop at q of s is one popFromShadowStack can edit, with counter n. */
  predicate PopReady(s: seq<Instr>, q: nat, k: nat, n: nat)
  {
    BlockOk(s, n) && q < |s| && PopShaped(s[q], k)
  }

  /** The free registers popFromShadowStack asks for: none for the single
      load, else those free just after the pop. */
  function PopFree(ti: TargetInfo, cfg: Config, blk: Block, q: nat): seq<Reg>
    requires q < |blk.insts|
  {
    if ShortLoad(cfg) then [] else FreeAmong(Candidates(cfg.thumb), ti.reserved, LiveAt(ti, blk.insts, blk.liveOuts, q + 1))
  }

  /** The epilogue returns with its own BX: the pop's PC operand is then
      switched to LR and LR is marked restored. */
  predicate PopReturns(ti: TargetInfo, cfg: Config, blk: Block, q: nat, k: nat)
    requires q < |blk.insts| && k < |blk.insts[q].ops| && blk.insts[q].ops[k].RegOp?
  {
    NeedReturn(cfg, blk.insts[q].ops[k].reg, PopFree(ti, cfg, blk, q))
  }

  /** The instructions popFromShadowStack builds for the pop at q, numbered
      from n. */
  function PopNews(ti: TargetInfo, cfg: Config, blk: Block, q: nat, k: nat, n: nat): seq<Instr>
    requires q < |blk.insts| && k < |blk.insts[q].ops| && blk.insts[q].ops[k].RegOp?
  {
    var mi := blk.insts[q];
    PopInsts(cfg, InstrPredicate(mi), mi.ops[k].reg, PopFree(ti, cfg, blk, q), n)
  }

  /** The pop with operand k switched to LR when ret holds. */
  function Retarget(mi: Instr, k: nat, ret: bool): Instr
    requires k < |mi.ops|
  {
    if ret then mi.(ops := mi.ops[k := RegOp(LR)]) else mi
  }

  /** ops without operand k (MachineInstr::RemoveOperand). */
  function Without(ops: seq<Operand>, k: nat): (r: seq<Operand>)
    requires k < |ops|
    ensures |r| == |ops| - 1
    ensures forall i :: 0 <= i < |r| ==> r[i] == if i < k then ops[i] else ops[i + 1]
  {
    ops[..k] + ops[k + 1..]
  }

  /** Switching operand k is never seen once operand k is dropped. */
  lemma RetargetHidden(mi: Instr, k: nat, ret: bool)
    requires k < |mi.ops|
    ensures Without(Retarget(mi, k, ret).ops, k) == Without(mi.ops, k)
  {
  }

  /** The last of a non-empty list of instructions. */
  function Last(s: seq<Instr>): Instr
    requires s != []
  {
    s[|s| - 1]
  }

  /** The first two steps of popFromShadowStack: the pop switched to LR
      when it has to return itself, and the new instructions inserted after
      it. The block keeps its invariant, every old instruction but the pop
      and an IT the editor re-creates, the switched pop and every new
      instruction. */
  function PopInserted(ti: TargetInfo, cfg: Config, blk: Block, q: nat, k: nat, n: nat): (e: Edit)
    requires PopReady(blk.insts, q, k, n)
    ensures Counter(n, PopNews(ti, cfg, blk, q, k, n)) <= e.nextId && BlockOk(e.insts, e.nextId)
    ensures Kept(blk.insts, {blk.insts[q].id}, e.insts)
    ensures Retarget(blk.insts[q], k, PopReturns(ti, cfg, blk, q, k)) in e.insts
    ensures Kept(PopNews(ti, cfg, blk, q, k, n), {}, e.insts)
  {
    var s := blk.insts;
    var mi := s[q];
    var pi := InstrPredicate(mi);
    var mi1 := Retarget(mi, k, PopReturns(ti, cfg, blk, q, k));
    var s1 := Updated(s, q, mi1, n);
    var news := PopNews(ti, cfg, blk, q, k, n);
    PopFresh(cfg, pi, mi.ops[k].reg, PopFree(ti, cfg, blk, q), n);
    FreshInsertable(news, n, pi);
    var e := Inserted(s1, q, news, true, n);
    KeptTrans(s, s1, e.insts, {mi.id}, {}, {mi.id});
    e
  }

  /** The pop returned through PC or LR and is demoted to its plain form,
      without implicit operands (those move to the last new instruction). */
  predicate Returning(mi: Instr)
  {
    mi.op.T2LDMIA_RET? || mi.op.TPOP_RET?
  }

  function Stripped(mi: Instr): Instr
  {
    if Returning(mi) then mi.(op := if mi.op.T2LDMIA_RET? then T2LDMIA_UPD else TPOP, implicitOps := [])
    else mi
  }

  /** The last new instruction, given the implicit operands of a returning
      pop. */
  function Inherited(last: Instr, mi: Instr): Instr
  {
    if Returning(mi) then last.(implicitOps := last.implicitOps + mi.implicitOps) else last
  }

  /** The pop keeps its id and loses PC/LR when it has registers to spare;
      otherwise it is removed. */
  predicate Shrinks(mi: Instr)
  {
    ((mi.op.T2LDMIA_UPD? || mi.op.T2LDMIA_RET?) && |mi.ops| > 6) || ((mi.op.TPOP? || mi.op.TPOP_RET?) && |mi.ops| > 3)
  }

  /** A two-register LDMIA, replaced by an LDR of its other register. */
  predicate Narrows(mi: Instr)
  {
    (mi.op.T2LDMIA_UPD? || mi.op.T2LDMIA_RET?) && |mi.ops| == 6
  }

  /** What stands in the block under the pop's id once it is demoted, or
      None when it is removed. */
  function Demoted(mi: Instr, k: nat): Option<Instr>
    requires k < |mi.ops|
  {
    if Shrinks(mi) then Some(Stripped(mi).(ops := Without(mi.ops, k))) else None
  }

  /** The demotion switch's first half: a returning pop becomes the plain
      one and hands its implicit operands to the last new instruction. */
  function Unreturn(s: seq<Instr>, n: nat, x: Instr, k: nat, last: Instr): (r: seq<Instr>)
    requires BlockOk(s, n) && x in s && last in s && x.id != last.id && PopShaped(x, k)
    requires !IsMeta(last) && !IsIT(last)
    ensures BlockOk(r, n) && Kept(s, {x.id, last.id}, r)
    ensures Stripped(x) in r && Inherited(last, x) in r
  {
    if Returning(x) then
      var s' := Updated(s, Position(s, last), Inherited(last, x), n);
      assert x in s';
      var r := Updated(s', Position(s', x), Stripped(x), n);
      KeptTrans(s, s', r, {last.id}, {x.id}, {x.id, last.id});
      r
    else
      assert Kept(s, {x.id, last.id}, s);
      s
  }

  /** The demotion switch's second half on the plain pop x: drop operand k,
      or replace a two-register LDMIA by an LDR of the other register, or
      remove the pop. The LDR is numbered n and copies the pop's predicate
      and flags. */
  function Shrink(s: seq<Instr>, n: nat, x: Instr, k: nat, pi: PredInfo): (e: Edit)
    requires BlockOk(s, n) && x in s && PopShaped(x, k) && !Returning(x)
    ensures n <= e.nextId && BlockOk(e.insts, e.nextId) && Kept(s, {x.id}, e.insts)
    ensures Demoted(x, k).Some? ==> Demoted(x, k).value in e.insts
    ensures Demoted(x, k).None? ==> Gone(x.id, e.insts)
    ensures Narrows(x) ==> LdrPost(n, x.ops[OtherIndex(k)].reg, pi, x.flags) in e.insts
  {
    var j := Position(s, x);
    if Shrinks(x) then
      Edit(Updated(s, j, x.(ops := Without(x.ops, k)), n), n)
    else if x.op.T2LDMIA_UPD? then
      var ldr := LdrPost(n, x.ops[OtherIndex(k)].reg, pi, x.flags);
      assert ldr in [ldr];
      var e := Inserted(s, j, [ldr], true, n);
      assert x.id < n by {
        assert s[j] == x;
      }
      var j' := Position(e.insts, x);
      var r := Removed(e.insts, j', e.nextId);
      KeptTrans(s, e.insts, r, {}, {x.id}, {x.id});
      Edit(r, e.nextId)
    else
      Edit(Removed(s, j, n), n)
  }

  /** The plain form of a pop ends as the pop does. */
  lemma StrippedSame(x: Instr, k: nat)
    requires PopShaped(x, k)
    ensures var y := Stripped(x);
      && y.id == x.id && PopShaped(y, k) && !Returning(y) && Demoted(y, k) == Demoted(x, k)
      && Narrows(y) == Narrows(x) && y.flags == x.flags && y.ops == x.ops
  {
  }

  /** The demotion switch on the switched pop x, once the new instructions
      stand after it with last the last one: the pop ends as Demoted says,
      last carries its implicit operands when it returned, and a
      two-register LDMIA leaves an LDR of its other register numbered n. */
  function PopDemote(s: seq<Instr>, n: nat, x: Instr, k: nat, last: Instr, pi: PredInfo): (e: Edit)
    requires BlockOk(s, n) && x in s && last in s && x.id != last.id && PopShaped(x, k)
    requires !IsMeta(last) && !IsIT(last)
    ensures n <= e.nextId && BlockOk(e.insts, e.nextId) && Kept(s, {x.id, last.id}, e.insts)
    ensures Inherited(last, x) in e.insts
    ensures Demoted(x, k).Some? ==> Demoted(x, k).value in e.insts
    ensures Demoted(x, k).None? ==> Gone(x.id, e.insts)
    ensures Narrows(x) ==> LdrPost(n, x.ops[OtherIndex(k)].reg, pi, x.flags) in e.insts
  {
    var s2 := Unreturn(s, n, x, k, last);
    var y := Stripped(x);
    StrippedSame(x, k);
    var e := Shrink(s2, n, y, k, pi);
    KeptTrans(s, s2, e.insts, {x.id, last.id}, {x.id}, {x.id, last.id});
    e
  }

  /** The last of new instructions numbered from n emits code, is not an
      IT and has an id of at least n; none of them has an id below n. */
  lemma FreshLast(news: seq<Instr>, n: nat, pi: PredInfo, id: nat)
    requires Fresh(news, n, pi) && news != [] && id < n
    ensures Last(news) in news && !IsMeta(Last(news)) && !IsIT(Last(news)) && n <= Last(news).id
    ensures Gone(id, news)
  {
    forall y | y in news ensures y.id != id {
      var i :| 0 <= i < |news| && news[i] == y;
    }
  }

  /** What the two stages of popFromShadowStack keep, put together: the
      first keeps all of s but a and all of news, the second all of the
      first's result but a and b, where b is not an id of s and a not one
      of news. */
  lemma PopKept(s: seq<Instr>, news: seq<Instr>, r1: seq<Instr>, r: seq<Instr>, a: nat, b: nat, n: nat)
    requires Kept(s, {a}, r1) && Kept(news, {}, r1) && Kept(r1, {a, b}, r)
    requires IdsBelow(s, n) && n <= b && Gone(a, news)
    ensures Kept(s, {a}, r) && Kept(news, {b}, r)
  {
    KeptTrans(s, r1, r, {a}, {a, b}, {a} + {b});
    GoneAbove(s, n, b);
    KeptMissing(s, {a}, b, r);
    KeptTrans(news, r1, r, {}, {a, b}, {b} + {a});
    KeptMissing(news, {b}, a, r);
  }

  /** The pop switched to LR ends as the pop itself would, and hands on the
      same implicit operands. */
  lemma RetargetSame(mi: Instr, k: nat, ret: bool, last: Instr)
    requires PopShaped(mi, k)
    ensures var x := Retarget(mi, k, ret);
      && x.id == mi.id && PopShaped(x, k)
      && Demoted(x, k) == Demoted(mi, k) && Inherited(last, x) == Inherited(last, mi)
      && Narrows(x) == Narrows(mi) && x.flags == mi.flags
      && (Narrows(mi) ==> x.ops[OtherIndex(k)] == mi.ops[OtherIndex(k)])
  {
    RetargetHidden(mi, k, ret);
  }

  /** popFromShadowStack on the pop at index q of blk with PC/LR operand k,
      when the function's counter is n. The block keeps its invariant and
      every old instruction but the pop and an IT the editor re-creates; it
      holds every new instruction, the last one with the pop's implicit
      operands when the pop returned; the pop is demoted or removed as
      Demoted says; a two-register LDMIA leaves an LDR of its other
      register with the pop's predicate and flags. */
  function PopEdit(ti: TargetInfo, cfg: Config, blk: Block, q: nat, k: nat, n: nat): (e: Edit)
    requires PopReady(blk.insts, q, k, n)
    ensures var news := PopNews(ti, cfg, blk, q, k, n);
      && news != []
      && Counter(n, news) <= e.nextId && BlockOk(e.insts, e.nextId)
      && Kept(blk.insts, {blk.insts[q].id}, e.insts)
      && Kept(news, {Last(news).id}, e.insts)
      && Inherited(Last(news), blk.insts[q]) in e.insts
    ensures var mi := blk.insts[q];
      && (Demoted(mi, k).Some? ==> Demoted(mi, k).value in e.insts)
      && (Demoted(mi, k).None? ==> Gone(mi.id, e.insts))
      && (Narrows(mi) ==> exists id :: LdrPost(id, mi.ops[OtherIndex(k)].reg, InstrPredicate(mi), mi.flags) in e.insts)
  {
    var s := blk.insts;
    var mi := s[q];
    var pi := InstrPredicate(mi);
    var ret := PopReturns(ti, cfg, blk, q, k);
    var mi1 := Retarget(mi, k, ret);
    var news := PopNews(ti, cfg, blk, q, k, n);
    PopFresh(cfg, pi, mi.ops[k].reg, PopFree(ti, cfg, blk, q), n);
    var e1 := PopInserted(ti, cfg, blk, q, k, n);
    assert mi.id < n by {
      assert s[q] == mi;
    }
    FreshLast(news, n, pi, mi.id);
    var last := Last(news);
    RetargetSame(mi, k, ret, last);
    var e := PopDemote(e1.insts, e1.nextId, mi1, k, last, pi);
    PopKept(s, news, e1.insts, e.insts, mi.id, last.id, n);
    e
  }

  /** The callee-saved list with its first entry for LR marked restored. */
  function MarkedLR(csi: seq<CalleeSaved>): (r: seq<CalleeSaved>)
    ensures |r| == |csi|
    ensures forall i :: 0 <= i < |csi| ==> r[i].reg == csi[i].reg
    ensures forall i :: 0 <= i < |csi| ==>
              r[i].restored == (csi[i].restored || (csi[i].reg == LR && forall j :: 0 <= j < i ==> csi[j].reg != LR))
  {
    if csi == [] then []
    else if csi[0].reg == LR then [csi[0].(restored := true)] + csi[1..]
    else [csi[0]] + MarkedLR(csi[1..])
  }

  /** Marking LR restored twice is marking it once. */
  lemma {:induction false} MarkedLRIdempotent(csi: seq<CalleeSaved>)
    ensures MarkedLR(MarkedLR(csi)) == MarkedLR(csi)
  {
    if csi != [] && csi[0].reg != LR {
      MarkedLRIdempotent(csi[1..]);
      assert MarkedLR(csi)[1..] == MarkedLR(csi[1..]);
    }
  }

  /** A list without LR is left as it is. */
  lemma {:induction false} MarkedLRWithout(csi: seq<CalleeSaved>)
    requires forall i :: 0 <= i < |csi| ==> csi[i].reg != LR
    ensures MarkedLR(csi) == csi
  {
    if csi != [] {
      MarkedLRWithout(csi[1..]);
    }
  }
}
