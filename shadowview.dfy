/**
 * What the two edits of the shadow-stack pass do to the view of the block
 * (its instructions in order, each with the condition it runs under, ITs
 * left out): setupShadowStack puts the new instructions immediately before
 * the push, under the push's condition; popFromShadowStack replaces the
 * pop by what remains of it followed by the new instructions, all under the
 * pop's condition. Every other instruction keeps its place and its
 * condition.
 */
module ShadowStackView {
  import opened MachineIR
  import opened ITEditSpec
  import opened InstrIds
  import opened ITBlocks
  import opened Liveness
  import opened ShadowInsts
  import opened BlockInvariant
  import opened ShadowStackSpec
  import opened ITState
  import opened EditView
  import opened IdView

  /** The view from instruction q on, q emitting code: its entry, then the
      rest. */
  lemma ViewFromAt(s: seq<Instr>, q: nat)
    requires q < |s| && !IsIT(s[q]) && !IsMeta(s[q])
    ensures ViewFrom(s[q..], StateAfter(s[..q], []))
            == [Guarded(s[q], CondAt(s, q))] + ViewFrom(s[q + 1..], StateAfter(s[..q + 1], []))
  {
    assert s[q..][0] == s[q] && s[q..][1..] == s[q + 1..];
    assert s[..q + 1] == s[..q] + [s[q]];
    StateSnoc(s[..q], s[q], []);
  }

  /** setupShadowStack on the push at q: the view of the block is the one
      before the push, the push under its condition c and the rest; after
      the edit the new instructions stand between the first part and the
      push, under c, and nothing else changes. */
  lemma SetupEditView(ti: TargetInfo, cfg: Config, blk: Block, q: nat, n: nat)
    requires q < |blk.insts| && !IsMeta(blk.insts[q]) && !IsIT(blk.insts[q]) && BlockOk(blk.insts, n)
    ensures var s := blk.insts;
      var c := CondAt(s, q);
      var P, R := View(s[..q]), ViewFrom(s[q + 1..], StateAfter(s[..q + 1], []));
      && View(s) == P + [Guarded(s[q], c)] + R
      && View(SetupEdit(ti, cfg, blk, q, n).insts) == P + Under(SetupNews(ti, cfg, blk, q, n), c) + [Guarded(s[q], c)] + R
  {
    var s := blk.insts;
    var news := SetupNews(ti, cfg, blk, q, n);
    var c := CondAt(s, q);
    var R := ViewFrom(s[q + 1..], StateAfter(s[..q + 1], []));
    SetupFresh(cfg, InstrPredicate(s[q]), SetupFree(ti, cfg, blk, q), n);
    FreshInsertable(news, n, InstrPredicate(s[q]));
    InsertedFacts(s, q, news, false, n);
    InsertView(s, q, news, false, Counter(n, news));
    ViewAt(s, q);
    ViewFromAt(s, q);
    Assoc(View(s[..q]) + Under(news, c), [Guarded(s[q], c)], R);
  }

  /** No entry of the view around instruction q is of an id at or above
      the block's counter. */
  lemma AboveAbsent(s: seq<Instr>, q: nat, n: nat, id: nat)
    requires BlockOk(s, n) && q < |s| && n <= id
    ensures Absent(View(s[..q]), id) && Absent(ViewFrom(s[q + 1..], StateAfter(s[..q + 1], [])), id)
  {
    ViewFromAbsent(s[..q], [], id);
    ViewFromAbsent(s[q + 1..], StateAfter(s[..q + 1], []), id);
  }

  /** The first two steps of popFromShadowStack in the view: the pop's
      entry becomes the switched pop followed by the new instructions, all
      under the pop's condition. */
  lemma PopInsertedView(ti: TargetInfo, cfg: Config, blk: Block, q: nat, k: nat, n: nat)
    requires PopReady(blk.insts, q, k, n)
    ensures var s := blk.insts;
      var c := CondAt(s, q);
      var P, R := View(s[..q]), ViewFrom(s[q + 1..], StateAfter(s[..q + 1], []));
      var mi1 := Retarget(s[q], k, PopReturns(ti, cfg, blk, q, k));
      && View(s) == P + [Guarded(s[q], c)] + R
      && View(PopInserted(ti, cfg, blk, q, k, n).insts) == P + Under([mi1] + PopNews(ti, cfg, blk, q, k, n), c) + R
      && Absent(P, s[q].id) && Absent(R, s[q].id)
  {
    var s := blk.insts;
    var mi := s[q];
    var pi := InstrPredicate(mi);
    var c := CondAt(s, q);
    var P, R := View(s[..q]), ViewFrom(s[q + 1..], StateAfter(s[..q + 1], []));
    var mi1 := Retarget(mi, k, PopReturns(ti, cfg, blk, q, k));
    var news := PopNews(ti, cfg, blk, q, k, n);
    PopFresh(cfg, pi, mi.ops[k].reg, PopFree(ti, cfg, blk, q), n);
    FreshInsertable(news, n, pi);
    var s1 := Updated(s, q, mi1, n);
    assert s1 == s[q := mi1] && s1[q] == mi1;
    SplitAt(s, q);
    UpdateView(s, q, mi1);
    ReplaceMid(P, Guarded(mi, c), R, mi.id, [mi1]);
    UnderOne(mi1, c);
    assert View(s1) == P + [Guarded(mi1, c)] + R;
    InsertedFacts(s1, q, news, true, n);
    InsertAfterViewId(s1, q, news, Counter(n, news));
    ReplaceMid(P, Guarded(mi1, c), R, mi.id, [mi1] + news);
  }

  /** The demotion switch's first half in the view: the pop x and the last
      new instruction are changed in place. */
  lemma UnreturnView(s: seq<Instr>, n: nat, x: Instr, k: nat, last: Instr,
                     P: seq<Guarded>, c: Option<Cond>, W: seq<Guarded>, R: seq<Guarded>)
    requires BlockOk(s, n) && x in s && last in s && x.id != last.id && PopShaped(x, k)
    requires !IsMeta(last) && !IsIT(last)
    requires View(s) == P + [Guarded(x, c)] + W + [Guarded(last, c)] + R
    requires Absent(P, x.id) && Absent(W, x.id) && Absent(R, x.id)
    requires Absent(P, last.id) && Absent(W, last.id) && Absent(R, last.id)
    ensures View(Unreturn(s, n, x, k, last)) == P + [Guarded(Stripped(x), c)] + W + [Guarded(Inherited(last, x), c)] + R
  {
    if Returning(x) {
      var inh := Inherited(last, x);
      var j1 := Position(s, last);
      var s' := Updated(s, j1, inh, n);
      assert s' == s[j1 := inh];
      UpdateView(s, j1, inh);
      AbsentAppend(P, [Guarded(x, c)], last.id);
      AbsentAppend(P + [Guarded(x, c)], W, last.id);
      ReplaceMid(P + [Guarded(x, c)] + W, Guarded(last, c), R, last.id, [inh]);
      UnderOne(inh, c);
      assert View(s') == P + [Guarded(x, c)] + W + [Guarded(inh, c)] + R;
      assert x in s';
      var y := Stripped(x);
      var j2 := Position(s', x);
      UpdateView(s', j2, y);
      Regroup5(P, Guarded(x, c), W, Guarded(inh, c), R);
      AbsentAppend(W, [Guarded(inh, c)], x.id);
      AbsentAppend(W + [Guarded(inh, c)], R, x.id);
      ReplaceMid(P, Guarded(x, c), W + [Guarded(inh, c)] + R, x.id, [y]);
      UnderOne(y, c);
      Regroup5(P, Guarded(y, c), W, Guarded(inh, c), R);
    }
  }

  /** What stands in the block in place of the pop x once it is demoted:
      the pop without PC/LR, an LDR of the other register of a
      two-register LDMIA (numbered n, with predicate pi and the pop's
      flags), or nothing. */
  function Remains(x: Instr, k: nat, n: nat, pi: PredInfo): (r: seq<Instr>)
    requires PopShaped(x, k)
    ensures |r| <= 1
    ensures Demoted(x, k).Some? ==> r == [Demoted(x, k).value]
  {
    if Demoted(x, k).Some? then [Demoted(x, k).value]
    else if Narrows(x) then [LdrPost(n, x.ops[OtherIndex(k)].reg, pi, x.flags)]
    else []
  }

  /** The demotion switch's second half in the view: the plain pop's entry
      becomes Remains, under its condition. */
  lemma ShrinkView(s: seq<Instr>, n: nat, x: Instr, k: nat, pi: PredInfo,
                   P: seq<Guarded>, c: Option<Cond>, S: seq<Guarded>)
    requires BlockOk(s, n) && x in s && PopShaped(x, k) && !Returning(x)
    requires View(s) == P + [Guarded(x, c)] + S && Absent(P, x.id) && Absent(S, x.id)
    ensures View(Shrink(s, n, x, k, pi).insts) == P + Under(Remains(x, k, n, pi), c) + S
  {
    var j := Position(s, x);
    if Shrinks(x) {
      var x' := x.(ops := Without(x.ops, k));
      UpdateView(s, j, x');
      ReplaceMid(P, Guarded(x, c), S, x.id, [x']);
    } else if x.op.T2LDMIA_UPD? {
      NarrowView(s, n, x, k, pi, P, c, S, j);
    } else {
      RemoveViewId(s, j);
      ReplaceMid(P, Guarded(x, c), S, x.id, []);
    }
  }

  /** A two-register LDMIA at j: an LDR of the other register is inserted
      after it, then the LDMIA is removed. */
  lemma NarrowView(s: seq<Instr>, n: nat, x: Instr, k: nat, pi: PredInfo,
                   P: seq<Guarded>, c: Option<Cond>, S: seq<Guarded>, j: nat)
    requires BlockOk(s, n) && j < |s| && s[j] == x && PopShaped(x, k) && !Returning(x)
    requires x.op.T2LDMIA_UPD? && !Shrinks(x)
    requires View(s) == P + [Guarded(x, c)] + S && Absent(P, x.id) && Absent(S, x.id)
    ensures var ldr := LdrPost(n, x.ops[OtherIndex(k)].reg, pi, x.flags);
      var e := Inserted(s, j, [ldr], true, n);
      && x in e.insts && UniqueIds(e.insts)
      && View(Removed(e.insts, Position(e.insts, x), e.nextId)) == P + Under([ldr], c) + S
  {
    var ldr := LdrPost(n, x.ops[OtherIndex(k)].reg, pi, x.flags);
    var e := Inserted(s, j, [ldr], true, n);
    NarrowInserted(s, n, x, k, pi, P, c, S, j);
    var S' := [Guarded(ldr, c)] + S;
    var j' := Position(e.insts, x);
    var r := Removed(e.insts, j', e.nextId);
    assert r == RemoveSpec(e.insts, j');
    RemoveViewId(e.insts, j');
    ReplaceMid(P, Guarded(x, c), S', x.id, []);
    NarrowTail(P, ldr, c, S);
  }

  /** The LDR inserted after the two-register LDMIA at j, in the view. */
  lemma NarrowInserted(s: seq<Instr>, n: nat, x: Instr, k: nat, pi: PredInfo,
                       P: seq<Guarded>, c: Option<Cond>, S: seq<Guarded>, j: nat)
    requires BlockOk(s, n) && j < |s| && s[j] == x && PopShaped(x, k) && !Returning(x)
    requires x.op.T2LDMIA_UPD? && !Shrinks(x)
    requires View(s) == P + [Guarded(x, c)] + S && Absent(P, x.id) && Absent(S, x.id)
    ensures var ldr := LdrPost(n, x.ops[OtherIndex(k)].reg, pi, x.flags);
      var e := Inserted(s, j, [ldr], true, n);
      && x in e.insts && BlockOk(e.insts, e.nextId)
      && View(e.insts) == P + [Guarded(x, c)] + ([Guarded(ldr, c)] + S)
      && Absent([Guarded(ldr, c)] + S, x.id)
  {
    var ldr := LdrPost(n, x.ops[OtherIndex(k)].reg, pi, x.flags);
    assert ldr in [ldr];
    InsertedFacts(s, j, [ldr], true, n);
    var e := Inserted(s, j, [ldr], true, n);
    assert x in s;
    assert x in e.insts;
    InsertAfterViewId(s, j, [ldr], Counter(n, [ldr]));
    ReplaceMid(P, Guarded(x, c), S, x.id, [x] + [ldr]);
    PairUnder(x, ldr, c);
    LdrAbove(s, n, j, ldr, c, S);
    Regroup3(P, Guarded(x, c), Guarded(ldr, c), S);
  }

  /** Removing the LDMIA's entry before the LDR's. */
  lemma NarrowTail(P: seq<Guarded>, ldr: Instr, c: Option<Cond>, S: seq<Guarded>)
    requires !IsIT(ldr) && !IsMeta(ldr)
    ensures P + Under([], c) + ([Guarded(ldr, c)] + S) == P + Under([ldr], c) + S
  {
    UnderOne(ldr, c);
    assert Under([], c) == [];
  }

  lemma PairUnder(x: Instr, y: Instr, c: Option<Cond>)
    requires !IsIT(x) && !IsMeta(x) && !IsIT(y) && !IsMeta(y)
    ensures Under([x] + [y], c) == [Guarded(x, c)] + [Guarded(y, c)]
  {
    UnderAppend([x], [y], c);
    UnderOne(x, c);
    UnderOne(y, c);
  }

  lemma Regroup3(P: seq<Guarded>, g: Guarded, h: Guarded, S: seq<Guarded>)
    ensures P + ([g] + [h]) + S == P + [g] + ([h] + S)
  {
  }

  /** The new LDR, numbered at the block's counter, is not the LDMIA. */
  lemma LdrAbove(s: seq<Instr>, n: nat, j: nat, ldr: Instr, c: Option<Cond>, S: seq<Guarded>)
    requires BlockOk(s, n) && j < |s| && ldr.id == n && Absent(S, s[j].id)
    ensures Absent([Guarded(ldr, c)] + S, s[j].id)
  {
  }

  /** The new instructions of popFromShadowStack under c: those before the
      last, which carry neither the pop's id nor the last one's, then the
      last. */
  lemma PopSplitNews(news: seq<Instr>, n: nat, pi: PredInfo, id: nat, c: Option<Cond>)
    requires Fresh(news, n, pi) && news != [] && id < n
    ensures var W := Under(news[..|news| - 1], c);
      && Under(news, c) == W + [Guarded(Last(news), c)]
      && Absent(W, id) && Absent(W, Last(news).id)
      && !IsMeta(Last(news)) && !IsIT(Last(news)) && n <= Last(news).id
  {
    var front := news[..|news| - 1];
    assert news == front + [Last(news)];
    UnderAppend(front, [Last(news)], c);
    UnderOne(Last(news), c);
    assert FreshAt(news[|news| - 1], n + |news| - 1, pi);
    assert forall i :: 0 <= i < |front| ==> FreshAt(front[i], n + i, pi) by {
      forall i | 0 <= i < |front| ensures FreshAt(front[i], n + i, pi) {
        assert front[i] == news[i];
      }
    }
    UnderAbsent(front, c, id);
    UnderAbsent(front, c, Last(news).id);
  }

  lemma Regroup4(P: seq<Guarded>, g: Guarded, W: seq<Guarded>, h: Guarded, R: seq<Guarded>)
    ensures P + ([g] + (W + [h])) + R == P + [g] + W + [h] + R
  {
  }

  /** The first two steps of popFromShadowStack, in the form the demotion
      switch works on: the switched pop, the new instructions before the
      last, the last, each part free of the ids edited next. */
  lemma PopFirstView(ti: TargetInfo, cfg: Config, blk: Block, q: nat, k: nat, n: nat)
    requires PopReady(blk.insts, q, k, n)
    ensures var s := blk.insts;
      var c := CondAt(s, q);
      var P, R := View(s[..q]), ViewFrom(s[q + 1..], StateAfter(s[..q + 1], []));
      var mi1 := Retarget(s[q], k, PopReturns(ti, cfg, blk, q, k));
      var news := PopNews(ti, cfg, blk, q, k, n);
      && news != []
      && var W := Under(news[..|news| - 1], c);
      && View(s) == P + [Guarded(s[q], c)] + R
      && View(PopInserted(ti, cfg, blk, q, k, n).insts) == P + [Guarded(mi1, c)] + W + [Guarded(Last(news), c)] + R
      && Absent(P, s[q].id) && Absent(W, s[q].id) && Absent(R, s[q].id)
      && Absent(P, Last(news).id) && Absent(W, Last(news).id) && Absent(R, Last(news).id)
  {
    var s := blk.insts;
    var mi := s[q];
    var pi := InstrPredicate(mi);
    var c := CondAt(s, q);
    var P, R := View(s[..q]), ViewFrom(s[q + 1..], StateAfter(s[..q + 1], []));
    var mi1 := Retarget(mi, k, PopReturns(ti, cfg, blk, q, k));
    var news := PopNews(ti, cfg, blk, q, k, n);
    PopFresh(cfg, pi, mi.ops[k].reg, PopFree(ti, cfg, blk, q), n);
    PopInsertedView(ti, cfg, blk, q, k, n);
    assert mi.id < n;
    PopSplitNews(news, n, pi, mi.id, c);
    var W := Under(news[..|news| - 1], c);
    UnderAppend([mi1], news, c);
    UnderOne(mi1, c);
    AboveAbsent(s, q, n, Last(news).id);
    Regroup4(P, Guarded(mi1, c), W, Guarded(Last(news), c), R);
  }

  /** The end of popFromShadowStack in the view, regrouped. */
  lemma PopTail(P: seq<Guarded>, rem: seq<Instr>, front: seq<Instr>, inh: Instr, c: Option<Cond>, R: seq<Guarded>)
    requires !IsIT(inh) && !IsMeta(inh)
    ensures P + Under(rem, c) + (Under(front, c) + [Guarded(inh, c)] + R) == P + Under(rem + front + [inh], c) + R
  {
    UnderAppend(rem + front, [inh], c);
    UnderAppend(rem, front, c);
    UnderOne(inh, c);
  }

  /** popFromShadowStack on the pop at q with PC/LR operand k: the view of
      the block is the one before the pop, the pop under its condition c
      and the rest; after the edit the pop's entry is replaced by what
      remains of the pop (Remains, the LDR numbered with the counter after
      the insertion), the new instructions but the last, and the last one
      with the pop's implicit operands when the pop returned, all under c;
      nothing else changes. */
  lemma PopEditView(ti: TargetInfo, cfg: Config, blk: Block, q: nat, k: nat, n: nat)
    requires PopReady(blk.insts, q, k, n)
    ensures var s := blk.insts;
      var mi := s[q];
      var c := CondAt(s, q);
      var P, R := View(s[..q]), ViewFrom(s[q + 1..], StateAfter(s[..q + 1], []));
      var news := PopNews(ti, cfg, blk, q, k, n);
      && news != []
      && View(s) == P + [Guarded(mi, c)] + R
      && View(PopEdit(ti, cfg, blk, q, k, n).insts)
         == P + Under(Remains(mi, k, PopInserted(ti, cfg, blk, q, k, n).nextId, InstrPredicate(mi))
                      + news[..|news| - 1] + [Inherited(Last(news), mi)], c) + R
  {
    var s := blk.insts;
    var mi := s[q];
    var pi := InstrPredicate(mi);
    var c := CondAt(s, q);
    var P, R := View(s[..q]), ViewFrom(s[q + 1..], StateAfter(s[..q + 1], []));
    var mi1 := Retarget(mi, k, PopReturns(ti, cfg, blk, q, k));
    var news := PopNews(ti, cfg, blk, q, k, n);
    var e1 := PopInserted(ti, cfg, blk, q, k, n);
    PopFirstView(ti, cfg, blk, q, k, n);
    PopDemoteReady(ti, cfg, blk, q, k, n);
    var last := Last(news);
    var W := Under(news[..|news| - 1], c);
    DemoteView(e1.insts, e1.nextId, mi1, k, last, pi, P, c, W, R);
    var rem := Remains(mi, k, e1.nextId, pi);
    var inh := Inherited(last, mi);
    assert PopEdit(ti, cfg, blk, q, k, n) == PopDemote(e1.insts, e1.nextId, mi1, k, last, pi);
    PopTail(P, rem, news[..|news| - 1], inh, c, R);
  }

  /** What the demotion switch needs of the block after the first two
      steps of popFromShadowStack, and what the switched pop shares with
      the pop. */
  lemma PopDemoteReady(ti: TargetInfo, cfg: Config, blk: Block, q: nat, k: nat, n: nat)
    requires PopReady(blk.insts, q, k, n)
    ensures var mi := blk.insts[q];
      var mi1 := Retarget(mi, k, PopReturns(ti, cfg, blk, q, k));
      var news := PopNews(ti, cfg, blk, q, k, n);
      var e1 := PopInserted(ti, cfg, blk, q, k, n);
      && news != []
      && var last := Last(news);
      && BlockOk(e1.insts, e1.nextId) && mi1 in e1.insts && last in e1.insts
      && mi1.id != last.id && PopShaped(mi1, k) && !IsMeta(last) && !IsIT(last)
      && Remains(mi1, k, e1.nextId, InstrPredicate(mi)) == Remains(mi, k, e1.nextId, InstrPredicate(mi))
      && Inherited(last, mi1) == Inherited(last, mi)
  {
    var s := blk.insts;
    var mi := s[q];
    var pi := InstrPredicate(mi);
    var ret := PopReturns(ti, cfg, blk, q, k);
    var news := PopNews(ti, cfg, blk, q, k, n);
    PopFresh(cfg, pi, mi.ops[k].reg, PopFree(ti, cfg, blk, q), n);
    var e1 := PopInserted(ti, cfg, blk, q, k, n);
    assert mi.id < n by {
      assert s[q] == mi;
    }
    FreshLast(news, n, pi, mi.id);
    RetargetSame(mi, k, ret, Last(news));
  }

  /** The demotion switch in the view: the switched pop's entry becomes
      Remains and the last new instruction takes the pop's implicit
      operands. */
  lemma DemoteView(s: seq<Instr>, n: nat, x: Instr, k: nat, last: Instr, pi: PredInfo,
                   P: seq<Guarded>, c: Option<Cond>, W: seq<Guarded>, R: seq<Guarded>)
    requires BlockOk(s, n) && x in s && last in s && x.id != last.id && PopShaped(x, k)
    requires !IsMeta(last) && !IsIT(last)
    requires View(s) == P + [Guarded(x, c)] + W + [Guarded(last, c)] + R
    requires Absent(P, x.id) && Absent(W, x.id) && Absent(R, x.id)
    requires Absent(P, last.id) && Absent(W, last.id) && Absent(R, last.id)
    ensures View(PopDemote(s, n, x, k, last, pi).insts)
            == P + Under(Remains(x, k, n, pi), c) + (W + [Guarded(Inherited(last, x), c)] + R)
  {
    UnreturnView(s, n, x, k, last, P, c, W, R);
    var s2 := Unreturn(s, n, x, k, last);
    var y := Stripped(x);
    var inh := Inherited(last, x);
    StrippedSame(x, k);
    Regroup5(P, Guarded(y, c), W, Guarded(inh, c), R);
    AbsentAppend(W, [Guarded(inh, c)], x.id);
    AbsentAppend(W + [Guarded(inh, c)], R, x.id);
    ShrinkView(s2, n, y, k, pi, P, c, W + [Guarded(inh, c)] + R);
    assert Remains(y, k, n, pi) == Remains(x, k, n, pi);
  }
}
