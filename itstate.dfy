/**
 * The condition each instruction of a block runs under, worked out the way
 * the processor does it with its IT state (ITSTATE of the ARMv7-M
 * architecture): an IT instruction loads one condition for each instruction
 * of its block (its base condition for a "same" tag, the opposite one for an
 * "opposite" tag), and every instruction that emits code consumes the first
 * of them.
 *
 * The view of a block lists its instructions other than ITs, in order, each
 * with the condition it runs under (None when it runs unconditionally or is
 * meta). The editor's purpose is stated on the view: inserting keeps the
 * view and adds the new instructions at MI's place under MI's condition;
 * removing takes MI's entry out and keeps the rest.
 */
module ITState {
  import opened ITMask
  import opened MachineIR
  import opened ITBlocks
  import opened ITEditSpec

  /** The conditions of an IT block with the given tags and base condition. */
  function Conds(tags: seq<bool>, c: Cond): (r: seq<Cond>)
    ensures |r| == |tags|
    ensures forall i :: 0 <= i < |tags| ==> r[i] == if tags[i] then c else Opposite(c)
  {
    seq(|tags|, i requires 0 <= i < |tags| => if tags[i] then c else Opposite(c))
  }

  /** n copies of condition c. */
  function Copies(c: Cond, n: nat): (r: seq<Cond>)
    ensures |r| == n && forall i :: 0 <= i < n ==> r[i] == c
  {
    seq(n, i => c)
  }

  /** The conditions an IT instruction loads into the IT state. */
  function Pending(op: Opcode): (r: seq<Cond>)
    requires op.T2IT?
    ensures ValidMask(op.mask) ==> |r| == ITBlockSize(op.mask)
  {
    if ValidMask(op.mask) then
      TagsOfSize(op.mask);
      Conds(TagsOf(op.mask), op.cond)
    else []
  }

  /** The IT state after instruction x, from state st. */
  function Step(st: seq<Cond>, x: Instr): seq<Cond>
  {
    if IsIT(x) then Pending(x.op) else if IsMeta(x) || st == [] then st else st[1..]
  }

  /** The condition the next instruction that emits code runs under. */
  function Current(st: seq<Cond>): Option<Cond>
  {
    if st == [] then None else Some(st[0])
  }

  /** An instruction and the condition it runs under. */
  datatype Guarded = Guarded(inst: Instr, cond: Option<Cond>)

  /** The view of instruction x in state st: none for an IT. */
  function Entry(x: Instr, st: seq<Cond>): seq<Guarded>
  {
    if IsIT(x) then [] else [Guarded(x, if IsMeta(x) then None else Current(st))]
  }

  /** The view of s, run from IT state st. */
  function ViewFrom(s: seq<Instr>, st: seq<Cond>): seq<Guarded>
    decreases |s|
  {
    if s == [] then [] else Entry(s[0], st) + ViewFrom(s[1..], Step(st, s[0]))
  }

  /** The IT state once s has run from state st. */
  function StateAfter(s: seq<Instr>, st: seq<Cond>): seq<Cond>
    decreases |s|
  {
    if s == [] then st else StateAfter(s[1..], Step(st, s[0]))
  }

  /** The view of a block: a block starts outside any IT block. */
  function View(s: seq<Instr>): seq<Guarded>
  {
    ViewFrom(s, [])
  }

  /** The condition instruction j of s runs under when it emits code. */
  function CondAt(s: seq<Instr>, j: nat): Option<Cond>
    requires j <= |s|
  {
    Current(StateAfter(s[..j], []))
  }

  /** Instructions that all run under condition c. */
  function Under(s: seq<Instr>, c: Option<Cond>): seq<Guarded>
    decreases |s|
  {
    if s == [] then []
    else (if IsIT(s[0]) then [] else [Guarded(s[0], if IsMeta(s[0]) then None else c)]) + Under(s[1..], c)
  }

  /** Running a concatenation runs its parts one after the other. */
  lemma {:induction false} ViewAppend(a: seq<Instr>, b: seq<Instr>, st: seq<Cond>)
    ensures ViewFrom(a + b, st) == ViewFrom(a, st) + ViewFrom(b, StateAfter(a, st))
    ensures StateAfter(a + b, st) == StateAfter(b, StateAfter(a, st))
    decreases |a|
  {
    if a == [] {
      assert a + b == b;
    } else {
      assert (a + b)[0] == a[0] && (a + b)[1..] == a[1..] + b;
      ViewAppend(a[1..], b, Step(st, a[0]));
    }
  }

  /** The state once one more instruction has run. */
  lemma StateSnoc(a: seq<Instr>, x: Instr, st: seq<Cond>)
    ensures StateAfter(a + [x], st) == Step(StateAfter(a, st), x)
  {
    ViewAppend(a, [x], st);
  }

  lemma NoITTail(x: seq<Instr>)
    requires x != [] && NoIT(x)
    ensures !IsIT(x[0]) && NoIT(x[1..])
  {
    assert forall i :: 0 <= i < |x[1..]| ==> x[1..][i] == x[i + 1];
  }

  /** Instructions without an IT that emit j code instructions take the
      first j pending conditions and leave the rest. */
  lemma {:induction false} Consume(x: seq<Instr>, P: seq<Cond>, Q: seq<Cond>)
    requires NoIT(x) && CountCode(x) <= |P|
    ensures ViewFrom(x, P + Q) == ViewFrom(x, P)
    ensures StateAfter(x, P + Q) == P[CountCode(x)..] + Q
    ensures StateAfter(x, P) == P[CountCode(x)..]
    decreases |x|
  {
    if x == [] {
      assert P[0..] == P;
    } else {
      CountCodeFront(x);
      NoITTail(x);
      if IsMeta(x[0]) {
        Consume(x[1..], P, Q);
      } else {
        assert (P + Q)[1..] == P[1..] + Q;
        Consume(x[1..], P[1..], Q);
        assert P[1..][CountCode(x[1..])..] == P[CountCode(x)..];
      }
    }
  }

  /** Instructions without an IT run under n copies of c (n their code
      count) all run under c, and leave what comes after. */
  lemma {:induction false} UnderCopies(x: seq<Instr>, c: Cond, Q: seq<Cond>)
    requires NoIT(x)
    ensures ViewFrom(x, Copies(c, CountCode(x)) + Q) == Under(x, Some(c))
    ensures StateAfter(x, Copies(c, CountCode(x)) + Q) == Q
    decreases |x|
  {
    if x != [] {
      CountCodeFront(x);
      NoITTail(x);
      if IsMeta(x[0]) {
        UnderCopies(x[1..], c, Q);
      } else {
        assert (Copies(c, CountCode(x)) + Q)[1..] == Copies(c, CountCode(x[1..])) + Q;
        UnderCopies(x[1..], c, Q);
      }
    }
  }

  /** Instructions without an IT run from the empty state run
      unconditionally and leave the empty state. */
  lemma {:induction false} UnderNone(x: seq<Instr>)
    requires NoIT(x)
    ensures ViewFrom(x, []) == Under(x, None)
    ensures StateAfter(x, []) == []
    decreases |x|
  {
    if x != [] {
      NoITTail(x);
      UnderNone(x[1..]);
    }
  }

  lemma CondsSplit(a: seq<bool>, b: seq<bool>, c: Cond)
    ensures Conds(a + b, c) == Conds(a, c) + Conds(b, c)
  {
  }

  /** A fresh IT built for a chunk, flipped or not, loads the chunk's own
      conditions. */
  lemma ChunkPending(chunk: seq<bool>, c: Cond, id: nat)
    requires 1 <= |chunk| <= 4
    ensures Pending(ChunkIT(chunk, c, id).op) == Conds(chunk, c)
  {
    var flip := !chunk[0];
    var t := if flip then Flipped(chunk) else chunk;
    DecodeEncode(t);
    OppositeInvolution(c);
    var it := ChunkIT(chunk, c, id).op;
    assert Pending(it) == Conds(t, it.cond);
  }

  /** An IT followed by its block: the block runs under the IT's
      conditions. */
  lemma ITRun(it: Instr, A: seq<Instr>, rest: seq<Instr>, st: seq<Cond>)
    requires IsIT(it)
    ensures ViewFrom([it] + A + rest, st) == ViewFrom(A, Pending(it.op)) + ViewFrom(rest, StateAfter(A, Pending(it.op)))
    ensures StateAfter([it] + A + rest, st) == StateAfter(rest, StateAfter(A, Pending(it.op)))
  {
    Assoc([it], A, rest);
    ConsView(it, A + rest, st);
    ViewAppend(A, rest, Pending(it.op));
    Unit(ViewFrom(A + rest, Pending(it.op)));
  }

  /** Running x then A. */
  lemma ConsView(x: Instr, A: seq<Instr>, st: seq<Cond>)
    ensures ViewFrom([x] + A, st) == Entry(x, st) + ViewFrom(A, Step(st, x))
    ensures StateAfter([x] + A, st) == StateAfter(A, Step(st, x))
  {
    assert ([x] + A)[0] == x && ([x] + A)[1..] == A;
  }

  lemma Halves<T>(a: seq<T>, i: nat)
    requires i <= |a|
    ensures a[..i] + a[i..] == a
  {
  }

  lemma Unit<T>(a: seq<T>)
    ensures [] + a == a
  {
  }

  /** Instructions without an IT that emit exactly |C1| code instructions
      use up C1 and hand C2 on to what follows. */
  lemma RunSplit(A: seq<Instr>, B: seq<Instr>, C1: seq<Cond>, C2: seq<Cond>)
    requires NoIT(A) && CountCode(A) == |C1|
    ensures ViewFrom(A + B, C1 + C2) == ViewFrom(A, C1) + ViewFrom(B, C2)
    ensures StateAfter(A + B, C1 + C2) == StateAfter(B, C2)
    ensures StateAfter(A, C1) == []
  {
    ViewAppend(A, B, C1 + C2);
    Consume(A, C1, C2);
    assert C1[CountCode(A)..] == [];
    assert C1[CountCode(A)..] + C2 == C2;
  }

  /** Running a range under its tags' conditions, split after its first
      chunk L holding n code instructions. */
  lemma ChunkSplit(seg: seq<Instr>, tags: seq<bool>, c: Cond, L: nat, n: nat)
    requires NoIT(seg) && L <= |seg| && n <= |tags| && CountCode(seg[..L]) == n
    ensures ViewFrom(seg, Conds(tags, c)) == ViewFrom(seg[..L], Conds(tags[..n], c)) + ViewFrom(seg[L..], Conds(tags[n..], c))
    ensures StateAfter(seg, Conds(tags, c)) == StateAfter(seg[L..], Conds(tags[n..], c))
    ensures StateAfter(seg[..L], Conds(tags[..n], c)) == []
    ensures NoIT(seg[L..])
  {
    NoITSplit(seg, L);
    CondsSplit(tags[..n], tags[n..], c);
    Halves(tags, n);
    Halves(seg, L);
    RunSplit(seg[..L], seg[L..], Conds(tags[..n], c), Conds(tags[n..], c));
  }

  /** A range re-covered by fresh ITs runs as it ran under the conditions
      of the tags it was given, and ends outside any IT block. */
  lemma {:induction false} RechunkView(seg: seq<Instr>, tags: seq<bool>, c: Cond, nextId: nat, st: seq<Cond>)
    requires |tags| == CountCode(seg) && seg != [] && !IsMeta(seg[|seg| - 1]) && NoIT(seg)
    ensures ViewFrom(Rechunk(seg, tags, c, nextId).insts, st) == ViewFrom(seg, Conds(tags, c))
    ensures StateAfter(Rechunk(seg, tags, c, nextId).insts, st) == []
    ensures StateAfter(seg, Conds(tags, c)) == []
    decreases |seg|
  {
    RechunkStep(seg, tags, c, nextId);
    var L := ChunkLen(seg);
    var n := CountCode(seg[..L]);
    var it := ChunkIT(tags[..n], c, nextId);
    var rest := Rechunk(seg[L..], tags[n..], c, nextId + 1).insts;
    var A, B := seg[..L], seg[L..];
    ChunkPending(tags[..n], c, nextId);
    ITRun(it, A, rest, st);
    ChunkSplit(seg, tags, c, L, n);
    if B != [] {
      RechunkView(B, tags[n..], c, nextId + 1, []);
    } else {
      assert rest == [];
    }
  }

  lemma NoITSplit(s: seq<Instr>, i: nat)
    requires NoIT(s) && i <= |s|
    ensures NoIT(s[..i]) && NoIT(s[i..])
  {
    assert forall j :: 0 <= j < |s[i..]| ==> s[i..][j] == s[i + j];
  }

  /** findIT's walk with one more instruction counted finds the same IT one
      step further, unless that step leaves the IT's block. */
  lemma {:induction false} WalkBackShift(s: seq<Instr>, j: int, dist: nat)
    requires -1 <= j < |s| && MasksValid(s)
    ensures WalkBack(s, j, dist + 1) == match WalkBack(s, j, dist)
      case None => None
      case Some(r) => if r.distance < ITBlockSize(s[r.pos].op.mask) then Some(ITRef(r.pos, r.distance + 1)) else None
    decreases j + 1
  {
    if j >= 0 && dist < 5 && !IsIT(s[j]) {
      WalkBackShift(s, j - 1, if IsMeta(s[j]) then dist else dist + 1);
    }
  }

  /** The state findIT's walk back from j - 1 describes: the unconsumed
      conditions of the IT it finds. */
  function WalkState(s: seq<Instr>, j: nat): seq<Cond>
    requires j <= |s| && MasksValid(s)
  {
    match WalkBack(s, j - 1, 0)
    case None => []
    case Some(r) => Pending(s[r.pos].op)[r.distance..]
  }

  /** The forward IT state before instruction j is the one findIT's
      backward walk describes. */
  lemma {:induction false} StateIsWalk(s: seq<Instr>, j: nat)
    requires j <= |s| && MasksValid(s)
    ensures StateAfter(s[..j], []) == WalkState(s, j)
    decreases j
  {
    if j > 0 {
      StateIsWalk(s, j - 1);
      assert s[..j] == s[..j - 1] + [s[j - 1]];
      StateSnoc(s[..j - 1], s[j - 1], []);
      WalkStateStep(s, j);
    }
  }

  /** The walk's state moves on by one instruction as the IT state does. */
  lemma WalkStateStep(s: seq<Instr>, j: nat)
    requires 0 < j <= |s| && MasksValid(s)
    ensures WalkState(s, j) == Step(WalkState(s, j - 1), s[j - 1])
  {
    var i := j - 1;
    if IsIT(s[i]) {
      WalkStepIT(s, i);
    } else if IsMeta(s[i]) {
      WalkStepMeta(s, i);
    } else {
      WalkStepCode(s, i);
    }
  }

  lemma WalkStepIT(s: seq<Instr>, i: nat)
    requires i < |s| && MasksValid(s) && IsIT(s[i])
    ensures WalkState(s, i + 1) == Pending(s[i].op)
  {
    assert WalkBack(s, i, 0) == Some(ITRef(i, 0));
    assert Pending(s[i].op)[0..] == Pending(s[i].op);
  }

  lemma WalkStepMeta(s: seq<Instr>, i: nat)
    requires i < |s| && MasksValid(s) && !IsIT(s[i]) && IsMeta(s[i])
    ensures WalkState(s, i + 1) == WalkState(s, i)
  {
    assert WalkBack(s, i, 0) == WalkBack(s, i - 1, 0);
  }

  lemma WalkStepCode(s: seq<Instr>, i: nat)
    requires i < |s| && MasksValid(s) && !IsIT(s[i]) && !IsMeta(s[i])
    ensures var st := WalkState(s, i); WalkState(s, i + 1) == if st == [] then st else st[1..]
  {
    assert WalkBack(s, i, 0) == WalkBack(s, i - 1, 1);
    WalkBackShift(s, i - 1, 0);
    match WalkBack(s, i - 1, 0)
    case None =>
    case Some(r) =>
      var P := Pending(s[r.pos].op);
      if r.distance < ITBlockSize(s[r.pos].op.mask) {
        assert P[r.distance..][1..] == P[r.distance + 1..];
      }
  }

  /** The condition the processor's IT state gives an instruction that
      emits code is the one findIT and its IT's decoded mask give it: none
      outside an IT block, else the IT's base condition or its opposite as
      the tag at MI's distance says. */
  lemma CondAtFindIT(s: seq<Instr>, j: nat)
    requires j < |s| && MasksValid(s) && !IsMeta(s[j]) && !IsIT(s[j])
    ensures FindIT(s, j).None? ==> CondAt(s, j) == None
    ensures FindIT(s, j).Some? ==>
      var r := FindIT(s, j).value;
      var m := s[r.pos].op.mask;
      && 1 <= r.distance && |TagsOf(m)| == ITBlockSize(m)
      && CondAt(s, j) == Some(if TagsOf(m)[r.distance - 1] then s[r.pos].op.cond else Opposite(s[r.pos].op.cond))
  {
    StateIsWalk(s, j);
    WalkBackShift(s, j - 1, 0);
    if FindIT(s, j).Some? {
      CoveredDistance(s, j);
      TagsOfSize(s[FindIT(s, j).value.pos].op.mask);
    }
  }

  /** Within the span of an IT block no IT stands: an IT at i comes after
      all k code instructions of the span. */
  lemma {:induction false} CoversITAt(t: seq<Instr>, k: nat, i: nat)
    requires CoversSeq(t, k) && i < |t| && IsIT(t[i])
    ensures CountCode(t[..i]) >= k
    decreases i
  {
    if i > 0 && k > 0 {
      assert t[..i] == [t[0]] + t[1..][..i - 1];
      CountCodeCons(t[0], t[1..][..i - 1]);
      CoversITAt(t[1..], if IsMeta(t[0]) then k else k - 1, i - 1);
    }
  }

  /** In a well-formed block every IT block has ended before the next IT:
      the state before an IT is empty. */
  lemma StateBeforeIT(s: seq<Instr>, j: nat)
    requires j < |s| && WellFormedITs(s) && IsIT(s[j])
    ensures StateAfter(s[..j], []) == []
  {
    StateIsWalk(s, j);
    if j > 0 && WalkBack(s, j - 1, 0).Some? {
      var r := WalkBack(s, j - 1, 0).value;
      WalkEndsBeforeIT(s, j, r.pos, r.distance);
      var P := Pending(s[r.pos].op);
      assert P[r.distance..] == [];
    }
  }

  /** The walk back from just before an IT has counted the whole block of
      the IT it finds. */
  lemma WalkEndsBeforeIT(s: seq<Instr>, j: nat, p: nat, d: nat)
    requires 0 < j < |s| && WellFormedITs(s) && IsIT(s[j])
    requires WalkBack(s, j - 1, 0) == Some(ITRef(p, d))
    ensures d == ITBlockSize(s[p].op.mask)
  {
    WalkBackSound(s, j - 1, 0);
    var t := s[p + 1..];
    assert IsIT(s[p]);
    assert t[..j - p - 1] == s[p + 1..j];
    assert t[j - p - 1] == s[j];
    CoversITAt(t, ITBlockSize(s[p].op.mask), j - p - 1);
  }

  /** Outside any IT block the state is empty. */
  lemma StateUncovered(s: seq<Instr>, q: nat)
    requires q < |s| && MasksValid(s) && !IsMeta(s[q]) && !IsIT(s[q]) && FindIT(s, q).None?
    ensures StateAfter(s[..q], []) == [] && StateAfter(s[..q + 1], []) == []
  {
    StateIsWalk(s, q);
    WalkBackShift(s, q - 1, 0);
    assert s[..q + 1] == s[..q] + [s[q]];
    StateSnoc(s[..q], s[q], []);
  }

  /** MI, emitting code at distance d from its IT, is preceded by
      instructions at distance d - 1. */
  lemma WalkBefore(s: seq<Instr>, q: nat, p: nat, d: nat)
    requires q < |s| && MasksValid(s) && !IsMeta(s[q]) && !IsIT(s[q])
    requires FindIT(s, q) == Some(ITRef(p, d))
    ensures 1 <= d <= ITBlockSize(s[p].op.mask)
    ensures WalkBack(s, q - 1, 0) == Some(ITRef(p, d - 1))
  {
    CoveredDistance(s, q);
    WalkBackShift(s, q - 1, 0);
  }

  /** Inside an IT block, at distance d from the IT at p, MI finds the
      conditions from the d-th on. */
  lemma StateCovered(s: seq<Instr>, q: nat, p: nat, d: nat)
    requires q < |s| && MasksValid(s) && !IsMeta(s[q]) && !IsIT(s[q])
    requires FindIT(s, q) == Some(ITRef(p, d))
    ensures 1 <= d <= ITBlockSize(s[p].op.mask)
    ensures StateAfter(s[..q], []) == Pending(s[p].op)[d - 1..]
    ensures StateAfter(s[..q + 1], []) == Pending(s[p].op)[d..]
  {
    WalkBefore(s, q, p, d);
    StateIsWalk(s, q);
    assert s[..q + 1] == s[..q] + [s[q]];
    StateSnoc(s[..q], s[q], []);
    var P := Pending(s[p].op);
    assert P[d - 1..][1..] == P[d..];
  }

  /** The view of s split at k. */
  lemma ViewSplit(s: seq<Instr>, k: nat)
    requires k <= |s|
    ensures View(s) == View(s[..k]) + ViewFrom(s[k..], StateAfter(s[..k], []))
  {
    assert s == s[..k] + s[k..];
    ViewAppend(s[..k], s[k..], []);
  }

  /** The view of s around an instruction q that is not an IT: its entry,
      with the condition it runs under, between the views before and after
      it. */
  lemma ViewAt(s: seq<Instr>, q: nat)
    requires q < |s| && !IsIT(s[q])
    ensures View(s) == View(s[..q]) + [Guarded(s[q], if IsMeta(s[q]) then None else CondAt(s, q))]
                       + ViewFrom(s[q + 1..], StateAfter(s[..q + 1], []))
  {
    ViewSplit(s, q);
    var st := StateAfter(s[..q], []);
    assert s[q..] == [s[q]] + s[q + 1..];
    ConsView(s[q], s[q + 1..], st);
    assert s[..q + 1] == s[..q] + [s[q]];
    StateSnoc(s[..q], s[q], []);
    Assoc(View(s[..q]), Entry(s[q], st), ViewFrom(s[q + 1..], Step(st, s[q])));
  }

  /** news spliced in at k, where no IT block is open, run
      unconditionally. */
  lemma SplicedView(s: seq<Instr>, k: nat, news: seq<Instr>)
    requires k <= |s| && NoIT(news) && StateAfter(s[..k], []) == []
    ensures View(s[..k] + news + s[k..]) == View(s[..k]) + Under(news, None) + ViewFrom(s[k..], StateAfter(s[..k], []))
  {
    ViewAppend(s[..k] + news, s[k..], []);
    ViewAppend(s[..k], news, []);
    UnderNone(news);
  }

  /** insertInstsBefore/After outside any IT block. */
  lemma InsertUncoveredView(s: seq<Instr>, q: nat, news: seq<Instr>, after: bool)
    requires q < |s| && MasksValid(s) && !IsMeta(s[q]) && !IsIT(s[q]) && FindIT(s, q).None? && NoIT(news)
    ensures var k := if after then q + 1 else q;
      View(Spliced(s, q, news, after)) == View(s[..k]) + Under(news, CondAt(s, q)) + ViewFrom(s[k..], StateAfter(s[..k], []))
  {
    StateUncovered(s, q);
    SplicedView(s, if after then q + 1 else q, news);
  }

  /** The conditions of the re-covering tags: those of the old IT with n
      copies of MI's inserted at MI's place. */
  lemma InsertedConds(tags0: seq<bool>, d: nat, after: bool, n: nat, c: Cond)
    requires 1 <= d <= |tags0|
    ensures var j := if after then d else d - 1;
      var C := Conds(tags0, c);
      Conds(InsertedTags(tags0, d, after, n), c) == C[..j] + Copies(C[d - 1], n) + C[j..]
  {
  }

  /** A, news and B under the old conditions C with copies of cm for
      news: A and B run as before, news under cm. */
  lemma MiddleRun(A: seq<Instr>, news: seq<Instr>, B: seq<Instr>, C: seq<Cond>, j: nat, cm: Cond)
    requires NoIT(A) && NoIT(news) && NoIT(B)
    requires CountCode(A) == j <= |C| && CountCode(B) == |C| - j
    ensures ViewFrom(A + news + B, C[..j] + Copies(cm, CountCode(news)) + C[j..])
            == ViewFrom(A, C[..j]) + Under(news, Some(cm)) + ViewFrom(B, C[j..])
  {
    var K := Copies(cm, CountCode(news));
    RunSplit(A, news + B, C[..j], K + C[j..]);
    Assoc(A, news, B);
    Assoc(C[..j], K, C[j..]);
    ViewAppend(news, B, K + C[j..]);
    UnderCopies(news, cm, C[j..]);
    Assoc(ViewFrom(A, C[..j]), Under(news, Some(cm)), ViewFrom(B, C[j..]));
  }

  lemma Assoc<T>(a: seq<T>, b: seq<T>, c: seq<T>)
    ensures a + (b + c) == a + b + c
  {
  }

  /** The block up to and through A, run under the IT it and its
      conditions C split after j. */
  lemma OldRun(pre: seq<Instr>, it: Instr, A: seq<Instr>, C: seq<Cond>, j: nat)
    requires IsIT(it) && Pending(it.op) == C && NoIT(A) && CountCode(A) == j <= |C|
    ensures StateAfter(pre + [it] + A, []) == C[j..]
    ensures View(pre + [it] + A) == View(pre) + ViewFrom(A, C[..j])
  {
    ViewAppend(pre, [it] + A, []);
    Assoc(pre, [it], A);
    ConsView(it, A, StateAfter(pre, []));
    Unit(ViewFrom(A, C));
    Halves(C, j);
    Consume(A, C[..j], C[j..]);
    assert C[..j][j..] == [];
    Unit(C[j..]);
  }

  /** The re-covered range, abstractly: a prefix, the range R that runs as
      A, news and B ran under the old IT's conditions C with copies of cm
      for news, and the rest. */
  lemma RecoveredView(pre: seq<Instr>, it: Instr, A: seq<Instr>, news: seq<Instr>, B: seq<Instr>, post: seq<Instr>,
                      C: seq<Cond>, j: nat, cm: Cond, R: seq<Instr>)
    requires IsIT(it) && Pending(it.op) == C && NoIT(A) && NoIT(news) && NoIT(B)
    requires CountCode(A) == j <= |C| && CountCode(B) == |C| - j
    requires ViewFrom(R, StateAfter(pre, [])) == ViewFrom(A + news + B, C[..j] + Copies(cm, CountCode(news)) + C[j..])
    requires StateAfter(R, StateAfter(pre, [])) == []
    ensures StateAfter(pre + [it] + A, []) == C[j..]
    ensures View(pre + R + post) == View(pre + [it] + A) + Under(news, Some(cm)) + ViewFrom(B + post, C[j..])
  {
    ViewAppend(pre + R, post, []);
    ViewAppend(pre, R, []);
    MiddleRun(A, news, B, C, j, cm);
    RunSplit(B, post, C[j..], []);
    assert C[j..] + [] == C[j..];
    OldRun(pre, it, A, C, j);
    var v0, va, vn, vb, vp := View(pre), ViewFrom(A, C[..j]), Under(news, Some(cm)), ViewFrom(B, C[j..]), ViewFrom(post, []);
    assert View(pre + R + post) == v0 + (va + vn + vb) + vp;
    assert ViewFrom(B + post, C[j..]) == vb + vp;
    Regroup(v0, va, vn, vb, vp);
  }

  lemma Regroup(v0: seq<Guarded>, va: seq<Guarded>, vn: seq<Guarded>, vb: seq<Guarded>, vp: seq<Guarded>)
    ensures v0 + (va + vn + vb) + vp == (v0 + va) + vn + (vb + vp)
  {
  }
}
