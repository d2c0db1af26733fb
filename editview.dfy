/**
 * What the IT-block-safe editor promises, stated on the view of a block
 * (its instructions other than ITs, in order, each with the condition it
 * runs under; see ITState):
 *
 *  - insertInstsBefore/After at an instruction MI that is not an IT puts the
 *    new instructions right before/after MI's entry, each running under MI's
 *    condition, and keeps every other entry, in order, with its condition;
 *  - at an IT (distance 0) the new instructions are spliced in with no IT
 *    touched, so they join the IT's block;
 *  - removeInst takes MI's entry out and keeps every other entry, in order,
 *    with its condition.
 */
module EditView {
  import opened ITMask
  import opened MachineIR
  import opened ITBlocks
  import opened ITEditSpec
  import opened ITState

  /** The pieces of the block around an insertion inside an IT block: the
      block is pre, the IT, A, B and post, MI being the last of A (after)
      or the first of B (before), and the range re-covered in the spliced
      block is A, news and B. */
  /** The rest of MI's IT block, k code instructions covered after MI,
      ends at e'. */
  lemma BlockRest(s: seq<Instr>, q: nat, k: nat) returns (e': nat)
    requires q < |s| && CoversSeq(s[q + 1..], k)
    ensures e' == q + 1 + Span(s[q + 1..], k) <= |s|
    ensures NoIT(s[q + 1..e']) && CountCode(s[q + 1..e']) == k
  {
    var t := s[q + 1..];
    SpanCovers(t, k);
    e' := q + 1 + Span(t, k);
    assert t[..Span(t, k)] == s[q + 1..e'];
  }

  lemma InsertPieces(s: seq<Instr>, q: nat, news: seq<Instr>, after: bool, p: nat, d: nat,
                     size: nat, s1: seq<Instr>, e: nat) returns (k: nat, e': nat)
    requires InsertReady(s, q, news, after)
    requires FindIT(s, q) == Some(ITRef(p, d)) && d > 0
    requires size == ITBlockSize(s[p].op.mask)
    requires s1 == Spliced(s, q, news, after)
    requires e == RangeEnd(s, q, |news|, size - d)
    ensures k == if after then q + 1 else q
    ensures p < q && p + 1 <= k <= e' <= |s| && e == e' + |news| && e <= |s1|
      && s1[..p] == s[..p] && s1[e..] == s[e'..]
      && s1[p + 1..e] == s[p + 1..k] + news + s[k..e']
      && NoIT(s[p + 1..k]) && NoIT(s[k..e'])
      && CountCode(s[p + 1..k]) == (if after then d else d - 1)
      && CountCode(s[k..e']) == size - (if after then d else d - 1)
  {
    ReadyFacts(s, q, news, after, p, d, size);
    FindITSound(s, q);
    e' := BlockRest(s, q, size - d);
    k := if after then q + 1 else q;
    if after {
      PiecesAfter(s, q, news, p, e', s1, e);
    } else {
      PiecesBefore(s, q, news, p, d, e', s1, e);
    }
  }

  lemma PiecesAfter(s: seq<Instr>, q: nat, news: seq<Instr>, p: nat, e': nat, s1: seq<Instr>, e: nat)
    requires p < q < e' <= |s| && s1 == s[..q + 1] + news + s[q + 1..] && e == e' + |news|
    ensures e <= |s1| && s1[..p] == s[..p] && s1[e..] == s[e'..]
    ensures s1[p + 1..e] == s[p + 1..q + 1] + news + s[q + 1..e']
  {
    SplicePieces(s, q + 1, news, p, e');
  }

  lemma PiecesBefore(s: seq<Instr>, q: nat, news: seq<Instr>, p: nat, d: nat, e': nat, s1: seq<Instr>, e: nat)
    requires p < q < e' <= |s| && s1 == s[..q] + news + s[q..] && e == e' + |news|
    requires NoIT(s[p + 1..q + 1]) && NoIT(s[q + 1..e']) && !IsMeta(s[q])
    requires CountCode(s[p + 1..q]) == d - 1
    ensures e <= |s1| && s1[..p] == s[..p] && s1[e..] == s[e'..]
    ensures s1[p + 1..e] == s[p + 1..q] + news + s[q..e']
    ensures NoIT(s[p + 1..q]) && NoIT(s[q..e'])
    ensures CountCode(s[q..e']) == 1 + CountCode(s[q + 1..e'])
  {
    assert s[p + 1..q] == s[p + 1..q + 1][..q - p - 1];
    assert s[q..e'] == [s[q]] + s[q + 1..e'];
    assert s[q] == s[p + 1..q + 1][q - p - 1];
    CountCodeCons(s[q], s[q + 1..e']);
    SplicePieces(s, q, news, p, e');
  }

  /** The splice of news at q, cut around p + 1 .. e'. */
  lemma SplicePieces(s: seq<Instr>, q: nat, news: seq<Instr>, p: nat, e': nat)
    requires p < q <= e' <= |s|
    ensures var s1 := s[..q] + news + s[q..];
      && s1[..p] == s[..p] && s1[e' + |news|..] == s[e'..]
      && s1[p + 1..e' + |news|] == s[p + 1..q] + news + s[q..e']
  {
    SpliceSlices(s[..q], news, s[q..], p, e' - q);
    SpliceSlices(s[..q], news, s[q..], p + 1, e' - q);
    assert s[..q][..p] == s[..p] && s[q..][e' - q..] == s[e'..];
    assert s[..q][p + 1..] == s[p + 1..q] && s[q..][..e' - q] == s[q..e'];
  }

  /** Slices across a splice: before it, across it, and after it. */
  lemma SpliceSlices<T>(a: seq<T>, n: seq<T>, b: seq<T>, i: nat, j: nat)
    requires i <= |a| && j <= |b|
    ensures (a + n + b)[..i] == a[..i]
    ensures (a + n + b)[i..|a| + |n| + j] == a[i..] + n + b[..j]
    ensures (a + n + b)[|a| + |n| + j..] == b[j..]
  {
  }

  /** The conditions the old IT loads are those of its decoded tags. */
  lemma PendingTags(op: Opcode)
    requires op.T2IT? && ValidMask(op.mask)
    ensures Pending(op) == Conds(TagsOf(op.mask), op.cond)
    ensures |Pending(op)| == ITBlockSize(op.mask)
  {
  }

  /** The range A, news, B re-covered with tags whose conditions are the
      old IT's C with copies of cm for news: the block runs as the old one
      through A, then news under cm, then B and the rest as before. */
  lemma RecoverPieces(pre: seq<Instr>, it: Instr, A: seq<Instr>, news: seq<Instr>, B: seq<Instr>, post: seq<Instr>,
                      C: seq<Cond>, j: nat, cm: Cond, seg: seq<Instr>, tags: seq<bool>, c: Cond, nextId: nat)
    requires IsIT(it) && Pending(it.op) == C && NoIT(A) && NoIT(news) && NoIT(B)
    requires CountCode(A) == j <= |C| && CountCode(B) == |C| - j
    requires seg == A + news + B && |tags| == CountCode(seg) && seg != [] && !IsMeta(seg[|seg| - 1])
    requires Conds(tags, c) == C[..j] + Copies(cm, CountCode(news)) + C[j..]
    ensures StateAfter(pre + [it] + A, []) == C[j..]
    ensures View(pre + Rechunk(seg, tags, c, nextId).insts + post)
            == View(pre + [it] + A) + Under(news, Some(cm)) + ViewFrom(B + post, C[j..])
  {
    NoITConcat3(A, news, B);
    RechunkView(seg, tags, c, nextId, StateAfter(pre, []));
    RecoveredView(pre, it, A, news, B, post, C, j, cm, Rechunk(seg, tags, c, nextId).insts);
  }

  /** MI, covered at distance d by the IT at p, runs under the d-th
      condition that IT loads. */
  lemma CondAtCovered(s: seq<Instr>, q: nat, p: nat, d: nat)
    requires q < |s| && MasksValid(s) && !IsMeta(s[q]) && !IsIT(s[q])
    requires FindIT(s, q) == Some(ITRef(p, d))
    ensures 1 <= d <= |Pending(s[p].op)|
    ensures CondAt(s, q) == Some(Pending(s[p].op)[d - 1])
  {
    StateCovered(s, q, p, d);
  }

  lemma SliceAround(s: seq<Instr>, p: nat, k: nat, e: nat)
    requires p + 1 <= k <= e <= |s|
    ensures s[..k] == s[..p] + [s[p]] + s[p + 1..k]
    ensures s[k..] == s[k..e] + s[e..]
  {
  }

  lemma NoITConcat3(a: seq<Instr>, b: seq<Instr>, c: seq<Instr>)
    requires NoIT(a) && NoIT(b) && NoIT(c)
    ensures NoIT(a + b + c)
  {
    assert forall i :: 0 <= i < |a + b + c| ==> (a + b + c)[i] in a || (a + b + c)[i] in b || (a + b + c)[i] in c;
  }

  /** InsertSpec inside an IT block, in the spliced block's terms: the old
      IT and its range replaced by the range re-covered. */
  lemma InsertInITSpliced(s: seq<Instr>, q: nat, news: seq<Instr>, after: bool, nextId: nat, p: nat, d: nat,
                          s1: seq<Instr>, e: nat, tags: seq<bool>)
    requires InsertReady(s, q, news, after)
    requires FindIT(s, q) == Some(ITRef(p, d)) && d > 0
    requires s1 == Spliced(s, q, news, after)
    requires e == RangeEnd(s, q, |news|, ITBlockSize(s[p].op.mask) - d)
    requires tags == InsertedTags(TagsOf(s[p].op.mask), d, after, CountCode(news))
    requires p < e <= |s1| && |tags| == CountCode(s1[p + 1..e]) && !IsMeta(s1[e - 1])
    ensures InsertSpec(s, q, news, after, nextId).insts
            == s1[..p] + Rechunk(s1[p + 1..e], tags, s[p].op.cond, nextId).insts + s1[e..]
  {
    InsertSpecInIT(s, q, news, after, nextId, p, d);
    InsertInITUnfold(s, q, news, after, nextId, p, d, s1, e, tags);
  }

  /** InsertSpec inside an IT block, as the old IT's range re-covered. */
  lemma InsertInITShape(s: seq<Instr>, q: nat, news: seq<Instr>, after: bool, nextId: nat, p: nat, d: nat)
    returns (k: nat, e': nat, tags: seq<bool>)
    requires InsertReady(s, q, news, after)
    requires FindIT(s, q) == Some(ITRef(p, d)) && d > 0
    ensures k == if after then q + 1 else q
    ensures p < q && p + 1 <= k <= e' <= |s|
    ensures NoIT(s[p + 1..k]) && NoIT(s[k..e'])
    ensures CountCode(s[p + 1..k]) == (if after then d else d - 1)
    ensures CountCode(s[k..e']) == ITBlockSize(s[p].op.mask) - (if after then d else d - 1)
    ensures var seg := s[p + 1..k] + news + s[k..e'];
      && |tags| == CountCode(seg) && seg != [] && !IsMeta(seg[|seg| - 1])
      && InsertSpec(s, q, news, after, nextId).insts
         == s[..p] + Rechunk(seg, tags, s[p].op.cond, nextId).insts + s[e'..]
    ensures tags == InsertedTags(TagsOf(s[p].op.mask), d, after, CountCode(news))
  {
    var size := ITBlockSize(s[p].op.mask);
    var s1 := Spliced(s, q, news, after);
    var e := RangeEnd(s, q, |news|, size - d);
    InsertRangeFacts(s, q, news, after, p, d, size, s1, e);
    k, e' := InsertPieces(s, q, news, after, p, d, size, s1, e);
    TagsOfSize(s[p].op.mask);
    tags := InsertedTags(TagsOf(s[p].op.mask), d, after, CountCode(news));
    InsertInITSpliced(s, q, news, after, nextId, p, d, s1, e, tags);
    RebaseShape(s, s1, p, k, e, e', news, tags, s[p].op.cond, nextId);
  }

  /** The spliced block's pieces in terms of the original block's. */
  lemma RebaseShape(s: seq<Instr>, s1: seq<Instr>, p: nat, k: nat, e: nat, e': nat, news: seq<Instr>,
                    tags: seq<bool>, c: Cond, nextId: nat)
    requires p + 1 <= k <= e' <= |s| && p < e <= |s1|
    requires s1[..p] == s[..p] && s1[e..] == s[e'..] && s1[p + 1..e] == s[p + 1..k] + news + s[k..e']
    requires |tags| == CountCode(s1[p + 1..e]) > 0 && !IsMeta(s1[e - 1])
    ensures var seg := s[p + 1..k] + news + s[k..e'];
      && |tags| == CountCode(seg) && seg != [] && !IsMeta(seg[|seg| - 1])
      && s1[..p] + Rechunk(s1[p + 1..e], tags, c, nextId).insts + s1[e..]
         == s[..p] + Rechunk(seg, tags, c, nextId).insts + s[e'..]
  {
    var seg := s1[p + 1..e];
    assert seg[|seg| - 1] == s1[e - 1];
  }

  /** The range of the IT at p, A = s[p + 1..k] and B = s[k..e'], re-covered
      with news between A and B: the view up to k, news under cm, and the
      view from k on as before. */
  lemma InsertedRangeView(s: seq<Instr>, p: nat, k: nat, e': nat, news: seq<Instr>, tags: seq<bool>, c: Cond,
                          C: seq<Cond>, j: nat, cm: Cond, nextId: nat, X: seq<Instr>)
    requires p + 1 <= k <= e' <= |s| && IsIT(s[p]) && Pending(s[p].op) == C
    requires NoIT(s[p + 1..k]) && NoIT(news) && NoIT(s[k..e'])
    requires CountCode(s[p + 1..k]) == j <= |C| && CountCode(s[k..e']) == |C| - j
    requires var seg := s[p + 1..k] + news + s[k..e'];
      |tags| == CountCode(seg) && seg != [] && !IsMeta(seg[|seg| - 1])
    requires Conds(tags, c) == C[..j] + Copies(cm, CountCode(news)) + C[j..]
    requires X == s[..p] + Rechunk(s[p + 1..k] + news + s[k..e'], tags, c, nextId).insts + s[e'..]
    ensures View(X) == View(s[..k]) + Under(news, Some(cm)) + ViewFrom(s[k..], StateAfter(s[..k], []))
  {
    var A, B := s[p + 1..k], s[k..e'];
    RecoverPieces(s[..p], s[p], A, news, B, s[e'..], C, j, cm, A + news + B, tags, c, nextId);
    SliceAround(s, p, k, e');
  }

  /** Insertion at MI inside an IT block, at distance d >= 1. */
  lemma InsertInITView(s: seq<Instr>, q: nat, news: seq<Instr>, after: bool, nextId: nat, p: nat, d: nat)
    requires InsertReady(s, q, news, after) && NoIT(news)
    requires FindIT(s, q) == Some(ITRef(p, d)) && d > 0
    ensures var k := if after then q + 1 else q;
      View(InsertSpec(s, q, news, after, nextId).insts)
        == View(s[..k]) + Under(news, CondAt(s, q)) + ViewFrom(s[k..], StateAfter(s[..k], []))
  {
    var k, e', tags := InsertInITShape(s, q, news, after, nextId, p, d);
    var j := if after then d else d - 1;
    var C := Pending(s[p].op);
    PendingTags(s[p].op);
    InsertedConds(TagsOf(s[p].op.mask), d, after, CountCode(news), s[p].op.cond);
    CondAtCovered(s, q, p, d);
    InsertedRangeView(s, p, k, e', news, tags, s[p].op.cond, C, j, C[d - 1], nextId,
                      InsertSpec(s, q, news, after, nextId).insts);
  }

  /** insertInstsBefore (after == false) and insertInstsAfter
      (after == true) at an instruction MI that is not an IT: the view of
      the block before MI's insertion point, then the new instructions, all
      under MI's condition, then the rest of the view as it was. */
  lemma InsertView(s: seq<Instr>, q: nat, news: seq<Instr>, after: bool, nextId: nat)
    requires InsertReady(s, q, news, after) && NoIT(news) && !IsIT(s[q])
    ensures var k := if after then q + 1 else q;
      && View(s) == View(s[..k]) + ViewFrom(s[k..], StateAfter(s[..k], []))
      && View(InsertSpec(s, q, news, after, nextId).insts)
         == View(s[..k]) + Under(news, CondAt(s, q)) + ViewFrom(s[k..], StateAfter(s[..k], []))
  {
    var k := if after then q + 1 else q;
    ViewSplit(s, k);
    match FindIT(s, q)
    case None =>
      InsertUncoveredView(s, q, news, after);
      CondAtFindIT(s, q);
    case Some(r) =>
      CoveredDistance(s, q);
      InsertInITView(s, q, news, after, nextId, r.pos, r.distance);
  }

  /** insertInstsBefore/After at an IT (distance 0): the block is the plain
      splice, and no IT is touched. */
  lemma InsertAtITView(s: seq<Instr>, q: nat, news: seq<Instr>, after: bool, nextId: nat)
    requires InsertReady(s, q, news, after) && IsIT(s[q])
    ensures InsertSpec(s, q, news, after, nextId) == Edit(Spliced(s, q, news, after), nextId)
  {
    FindITSelf(s, q);
  }

  /** The conditions of the tags left once tag d - 1 is dropped. */
  lemma DroppedConds(tags0: seq<bool>, d: nat, c: Cond)
    requires 1 <= d <= |tags0|
    ensures var C := Conds(tags0, c);
      Conds(tags0[..d - 1] + tags0[d..], c) == C[..d - 1] + C[d..]
  {
  }

  /** An IT re-encoded from tags, flipped together with its base condition
      when the first tag is "opposite", loads the tags' own conditions. */
  lemma ReencodedPending(tags: seq<bool>, c: Cond, id: nat)
    requires 1 <= |tags| <= 4
    ensures var flip := !tags[0];
      var t := if flip then Flipped(tags) else tags;
      Pending(T2IT(if flip then Opposite(c) else c, EncodedMask(t))) == Conds(tags, c)
  {
    ChunkPending(tags, c, id);
  }

  /** The IT that loaded C, followed by A, dropped when C holds one
      condition and A emits no code, in a block outside any IT block at the
      IT. */
  lemma DroppedITView(pre: seq<Instr>, it: Instr, A: seq<Instr>, post: seq<Instr>, C: seq<Cond>)
    requires IsIT(it) && Pending(it.op) == C && |C| == 1 && NoIT(A) && CountCode(A) == 0
    requires StateAfter(pre, []) == []
    ensures View(pre + A + post) == View(pre + [it] + A) + ViewFrom(post, C[1..])
  {
    var none: seq<Cond> := [];
    var X, Y, Z := View(pre), ViewFrom(A, none), ViewFrom(post, none);
    OldRun(pre, it, A, C, 0);
    assert C[..0] == none;
    assert View(pre + [it] + A) == X + Y;
    assert C[1..] == none;
    RunPrefix(A, none, none);
    ViewAppend(A, post, none);
    assert ViewFrom(A + post, none) == Y + Z;
    ViewAppendRest(pre, A, post, none);
    Assoc(X, Y, Z);
  }

  /** ViewAppend with the second part itself a concatenation. */
  lemma ViewAppendRest(a: seq<Instr>, b: seq<Instr>, c: seq<Instr>, st: seq<Cond>)
    ensures ViewFrom(a + b + c, st) == ViewFrom(a, st) + ViewFrom(b + c, StateAfter(a, st))
  {
    ViewAppend(a, b + c, st);
    assert a + b + c == a + (b + c);
  }

  /** A run of A that emits j instructions from conditions C1 + C2, |C1| == j. */
  lemma RunPrefix(A: seq<Instr>, C1: seq<Cond>, C2: seq<Cond>)
    requires NoIT(A) && CountCode(A) == |C1|
    ensures ViewFrom(A, C1 + C2) == ViewFrom(A, C1)
    ensures StateAfter(A, C1 + C2) == C2
  {
    RunSplit(A, [], C1, C2);
    assert A + [] == A;
  }

  /** The IT that loaded C replaced by one that loads C without its
      condition j, A covering the first j: the view of what follows A is
      unchanged. */
  lemma ShrunkITView(pre: seq<Instr>, it: Instr, it': Instr, A: seq<Instr>, post: seq<Instr>, C: seq<Cond>, j: nat)
    requires IsIT(it) && IsIT(it') && Pending(it.op) == C && NoIT(A) && CountCode(A) == j < |C|
    requires Pending(it'.op) == C[..j] + C[j + 1..]
    ensures View(pre + [it'] + A + post) == View(pre + [it] + A) + ViewFrom(post, C[j + 1..])
  {
    var X, Y, Z := View(pre), ViewFrom(A, C[..j]), ViewFrom(post, C[j + 1..]);
    ITRun(it', A, post, StateAfter(pre, []));
    RunPrefix(A, C[..j], C[j + 1..]);
    assert ViewFrom([it'] + A + post, StateAfter(pre, [])) == Y + Z;
    ViewAppendAt(pre, it', A, post, []);
    assert View(pre + [it'] + A + post) == X + (Y + Z);
    OldRun(pre, it, A, C, j);
    Assoc(X, Y, Z);
  }

  /** ViewAppend at an instruction x. */
  lemma ViewAppendAt(a: seq<Instr>, x: Instr, b: seq<Instr>, c: seq<Instr>, st: seq<Cond>)
    ensures ViewFrom(a + [x] + b + c, st) == ViewFrom(a, st) + ViewFrom([x] + b + c, StateAfter(a, st))
  {
    ViewAppend(a, [x] + b + c, st);
    assert a + [x] + b + c == a + ([x] + b + c);
  }

  /** Removing q from s, then dropping or replacing p < q. */
  lemma RemovedSlices(s: seq<Instr>, p: nat, q: nat, x: Instr)
    requires p < q < |s|
    ensures var s1 := s[..q] + s[q + 1..];
      && s1[..p] + s1[p + 1..] == s[..p] + s[p + 1..q] + s[q + 1..]
      && s1[p := x] == s[..p] + [x] + s[p + 1..q] + s[q + 1..]
      && s[..q] == s[..p] + [s[p]] + s[p + 1..q]
  {
  }

  /** The facts about the IT block around MI that removal needs. */
  lemma RemoveFacts(s: seq<Instr>, q: nat, p: nat, d: nat)
    requires RemoveReady(s, q) && FindIT(s, q) == Some(ITRef(p, d))
    ensures p < q && 1 <= d <= ITBlockSize(s[p].op.mask) && IsIT(s[p])
    ensures NoIT(s[p + 1..q]) && CountCode(s[p + 1..q]) == d - 1
    ensures |Pending(s[p].op)| == ITBlockSize(s[p].op.mask)
    ensures StateAfter(s[..q + 1], []) == Pending(s[p].op)[d..]
  {
    StateCovered(s, q, p, d);
    DistanceFacts(s, q, p, d);
    FindITSound(s, q);
    PendingTags(s[p].op);
    NoITBefore(s, p, q);
  }

  lemma NoITBefore(s: seq<Instr>, p: nat, q: nat)
    requires p < q < |s| && NoIT(s[p + 1..q + 1])
    ensures NoIT(s[p + 1..q])
  {
    assert s[p + 1..q] == s[p + 1..q + 1][..q - p - 1];
  }

  /** removeInst when MI is the only instruction of its IT block: the IT
      goes too. */
  lemma RemoveLastView(s: seq<Instr>, q: nat, p: nat)
    requires RemoveReady(s, q) && WellFormedITs(s) && FindIT(s, q) == Some(ITRef(p, 1))
    requires ITBlockSize(s[p].op.mask) == 1
    ensures View(RemoveSpec(s, q)) == View(s[..q]) + ViewFrom(s[q + 1..], StateAfter(s[..q + 1], []))
  {
    RemoveFacts(s, q, p, 1);
    TagsOfSize(s[p].op.mask);
    RemovedSlices(s, p, q, s[p]);
    assert RemoveSpec(s, q) == s[..p] + s[p + 1..q] + s[q + 1..];
    StateBeforeIT(s, p);
    DroppedITView(s[..p], s[p], s[p + 1..q], s[q + 1..], Pending(s[p].op));
  }

  /** The IT of a block that keeps other instructions, re-encoded without
      the tag of distance d. */
  lemma RemoveShrinkShape(s: seq<Instr>, q: nat, p: nat, d: nat) returns (it': Instr)
    requires RemoveReady(s, q) && FindIT(s, q) == Some(ITRef(p, d))
    requires ITBlockSize(s[p].op.mask) > 1
    ensures IsIT(it')
    ensures var C := Pending(s[p].op); 1 <= d <= |C| && Pending(it'.op) == C[..d - 1] + C[d..]
    ensures RemoveSpec(s, q) == s[..p] + [it'] + s[p + 1..q] + s[q + 1..]
  {
    RemoveFacts(s, q, p, d);
    var it := s[p];
    var tags0 := TagsOf(it.op.mask);
    TagsOfSize(it.op.mask);
    var tags := tags0[..d - 1] + tags0[d..];
    var flip := !tags[0];
    var t := if flip then Flipped(tags) else tags;
    it' := it.(op := T2IT(if flip then Opposite(it.op.cond) else it.op.cond, EncodedMask(t)));
    RemovedSlices(s, p, q, it');
    PendingTags(it.op);
    DroppedConds(tags0, d, it.op.cond);
    ReencodedPending(tags, it.op.cond, it.id);
  }

  /** removeInst when MI's IT block keeps other instructions: the IT is
      re-encoded without MI's tag. */
  lemma RemoveShrinkView(s: seq<Instr>, q: nat, p: nat, d: nat)
    requires RemoveReady(s, q) && FindIT(s, q) == Some(ITRef(p, d))
    requires ITBlockSize(s[p].op.mask) > 1
    ensures View(RemoveSpec(s, q)) == View(s[..q]) + ViewFrom(s[q + 1..], StateAfter(s[..q + 1], []))
  {
    RemoveFacts(s, q, p, d);
    var it' := RemoveShrinkShape(s, q, p, d);
    RemovedSlices(s, p, q, it');
    ShrunkITView(s[..p], s[p], it', s[p + 1..q], s[q + 1..], Pending(s[p].op), d - 1);
  }

  /** removeInst at an instruction MI that is neither meta nor an IT, in a
      well-formed block: the view of the block is the one before MI, MI's
      entry with the condition it ran under, and the rest; the view after
      removal is the same without MI's entry. */
  /** removeInst outside any IT block: MI is simply erased. */
  lemma RemoveUncoveredView(s: seq<Instr>, q: nat)
    requires RemoveReady(s, q) && FindIT(s, q).None?
    ensures View(RemoveSpec(s, q)) == View(s[..q]) + ViewFrom(s[q + 1..], StateAfter(s[..q + 1], []))
  {
    StateUncovered(s, q);
    assert RemoveSpec(s, q) == s[..q] + s[q + 1..];
    ViewAppend(s[..q], s[q + 1..], []);
  }

  lemma RemoveView(s: seq<Instr>, q: nat)
    requires RemoveReady(s, q) && WellFormedITs(s)
    ensures View(s) == View(s[..q]) + [Guarded(s[q], CondAt(s, q))] + ViewFrom(s[q + 1..], StateAfter(s[..q + 1], []))
    ensures View(RemoveSpec(s, q)) == View(s[..q]) + ViewFrom(s[q + 1..], StateAfter(s[..q + 1], []))
  {
    ViewAt(s, q);
    match FindIT(s, q)
    case None =>
      RemoveUncoveredView(s, q);
    case Some(r) =>
      RemoveCoveredView(s, q, r.pos, r.distance);
  }

  /** removeInst inside an IT block: the IT is erased with its last
      instruction, or shrunk. */
  lemma RemoveCoveredView(s: seq<Instr>, q: nat, p: nat, d: nat)
    requires RemoveReady(s, q) && WellFormedITs(s) && FindIT(s, q) == Some(ITRef(p, d))
    ensures View(RemoveSpec(s, q)) == View(s[..q]) + ViewFrom(s[q + 1..], StateAfter(s[..q + 1], []))
  {
    CoveredDistance(s, q);
    if ITBlockSize(s[p].op.mask) == 1 {
      RemoveLastView(s, q, p);
    } else {
      RemoveShrinkView(s, q, p, d);
    }
  }
}
