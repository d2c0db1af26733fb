/**
 * What the IT-block-safe editor does to a basic block, as functions on the
 * block's instruction sequence: splicing new instructions before or after an
 * instruction MI, re-covering the affected IT block with fresh ITs, and
 * removing MI while repairing or deleting its IT.
 */
module ITEditSpec {
  import opened ITMask
  import opened MachineIR
  import opened ITBlocks

  function Flipped(tags: seq<bool>): (r: seq<bool>)
    ensures |r| == |tags| && forall i :: 0 <= i < |tags| ==> r[i] == !tags[i]
  {
    seq(|tags|, i requires 0 <= i < |tags| => !tags[i])
  }

  function Repeat(x: bool, n: nat): (r: seq<bool>)
    ensures |r| == n && forall i :: 0 <= i < n ==> r[i] == x
  {
    seq(n, i => x)
  }

  /** A fresh IT instruction as BuildMI creates it. */
  function NewIT(id: nat, c: Cond, mask: nat): Instr
  {
    Instr(id, T2IT(c, mask), [], [], NoFlags)
  }

  lemma CodeAtEnd(s: seq<Instr>)
    requires s != [] && !IsMeta(s[|s| - 1])
    ensures CountCode(s) >= 1
  {
  }

  /** The fresh IT BuildMI emits for a chunk with the given tags: when the
      first tag is "opposite", all tags flip and the base condition becomes
      the opposite one. */
  function ChunkIT(chunk: seq<bool>, c: Cond, id: nat): Instr
    requires 1 <= |chunk| <= 4
  {
    var flip := !chunk[0];
    NewIT(id, if flip then Opposite(c) else c, EncodedMask(if flip then Flipped(chunk) else chunk))
  }

  /** The chunk of seg the next fresh IT covers: up to 4 non-meta
      instructions, ending right after the 4th. */
  function ChunkLen(seg: seq<Instr>): nat
  {
    Span(seg, 4)
  }

  /** The block (or range) after an edit, and the id counter after it. */
  datatype Edit = Edit(insts: seq<Instr>, nextId: nat)

  /** The re-covering loop of insertInstsBefore/After: consume seg chunk by
      chunk; before each chunk emit an IT whose tags are the chunk's share of
      tags, flipped together with the base condition when the first one is
      "opposite". Fresh ITs take ids nextId, nextId + 1, ... */
  function Rechunk(seg: seq<Instr>, tags: seq<bool>, c: Cond, nextId: nat): Edit
    requires |tags| == CountCode(seg)
    requires seg != [] ==> !IsMeta(seg[|seg| - 1])
    decreases |seg|
  {
    if seg == [] then Edit([], nextId)
    else
      var L := ChunkLen(seg);
      ChunkFacts(seg);
      var n := CountCode(seg[..L]);
      var rest := Rechunk(seg[L..], tags[n..], c, nextId + 1);
      Edit([ChunkIT(tags[..n], c, nextId)] + seg[..L] + rest.insts, rest.nextId)
  }

  /** The first chunk of a non-empty range that ends in a non-meta
      instruction is non-empty, holds 1 to 4 non-meta instructions, and leaves
      a rest that again ends in a non-meta instruction. */
  lemma ChunkFacts(seg: seq<Instr>)
    requires seg != [] && !IsMeta(seg[|seg| - 1])
    ensures 0 < ChunkLen(seg) <= |seg|
    ensures 1 <= CountCode(seg[..ChunkLen(seg)]) <= 4
    ensures CountCode(seg[ChunkLen(seg)..]) == CountCode(seg) - CountCode(seg[..ChunkLen(seg)])
    ensures seg[ChunkLen(seg)..] != [] ==> !IsMeta(seg[ChunkLen(seg)..][|seg[ChunkLen(seg)..]| - 1])
  {
    var L := ChunkLen(seg);
    SpanCount(seg, 4);
    SpanLast(seg, 4);
    CountCodeSplit(seg, L);
    CodeAtEnd(seg);
    assert seg[L..] != [] ==> seg[L..][|seg[L..]| - 1] == seg[|seg| - 1];
  }

  /** One step of Rechunk: the first chunk, its fresh IT, and the rest. */
  lemma RechunkStep(seg: seq<Instr>, tags: seq<bool>, c: Cond, nextId: nat)
    requires |tags| == CountCode(seg)
    requires seg != [] && !IsMeta(seg[|seg| - 1])
    ensures var L := ChunkLen(seg);
      var n := CountCode(seg[..L]);
      && 0 < L <= |seg| && 1 <= n <= 4 && n <= |tags|
      && |tags[n..]| == CountCode(seg[L..])
      && (seg[L..] != [] ==> !IsMeta(seg[L..][|seg[L..]| - 1]))
      && Rechunk(seg, tags, c, nextId).insts
         == [ChunkIT(tags[..n], c, nextId)] + seg[..L] + Rechunk(seg[L..], tags[n..], c, nextId + 1).insts
      && Rechunk(seg, tags, c, nextId).nextId == Rechunk(seg[L..], tags[n..], c, nextId + 1).nextId
  {
    ChunkFacts(seg);
  }

  /** What insertInstsBefore (after == false) and insertInstsAfter
      (after == true) demand: MI is not meta; when MI is inside an IT block
      the rest of that block is present in the block, and the "after" form
      is given at least one instruction, the last of which is not meta when
      MI closes its IT block (it reads Insts.back() and closes the range with
      it). */
  predicate InsertReady(s: seq<Instr>, q: nat, news: seq<Instr>, after: bool)
  {
    && q < |s| && MasksValid(s) && !IsMeta(s[q])
    && match FindIT(s, q)
       case None => true
       case Some(r) =>
         r.distance > 0 ==>
           var size := ITBlockSize(s[r.pos].op.mask);
           && CoversSeq(s[q + 1..], size - r.distance)
           && (after ==> news != [])
           && (after && r.distance == size ==> !IsMeta(news[|news| - 1]))
  }

  /** The block with news spliced in before (after == false) or after MI at
      index q. */
  function Spliced(s: seq<Instr>, q: nat, news: seq<Instr>, after: bool): seq<Instr>
    requires q < |s|
  {
    if after then s[..q + 1] + news + s[q + 1..] else s[..q] + news + s[q..]
  }

  /** The facts that make the re-covered range and its tag sequence fit. */
  lemma InsertRangeFacts(s: seq<Instr>, q: nat, news: seq<Instr>, after: bool, p: nat, d: nat, size: nat,
                         s1: seq<Instr>, e: nat)
    requires InsertReady(s, q, news, after)
    requires FindIT(s, q) == Some(ITRef(p, d)) && d > 0
    requires size == ITBlockSize(s[p].op.mask)
    requires s1 == Spliced(s, q, news, after)
    requires e == RangeEnd(s, q, |news|, size - d)
    ensures p < q && e <= |s1|
    ensures CountCode(s1[p + 1..e]) == size + CountCode(news)
    ensures !IsMeta(s1[e - 1])
  {
    ReadyFacts(s, q, news, after, p, d, size);
    RangeFacts(s, q, news, after, p, size, d, s1, e);
  }

  lemma ReadyFacts(s: seq<Instr>, q: nat, news: seq<Instr>, after: bool, p: nat, d: nat, size: nat)
    requires InsertReady(s, q, news, after)
    requires FindIT(s, q) == Some(ITRef(p, d)) && d > 0
    requires size == ITBlockSize(s[p].op.mask)
    ensures p < q < |s| && 1 <= d <= size && !IsMeta(s[q])
    ensures CoversSeq(s[q + 1..], size - d)
    ensures after ==> news != []
    ensures after && d == size ==> !IsMeta(news[|news| - 1])
    ensures CountCode(s[p + 1..q + 1]) == d && CountCode(s[p + 1..q]) == d - 1
  {
    DistanceFacts(s, q, p, d);
  }

  lemma RangeFacts(s: seq<Instr>, q: nat, news: seq<Instr>, after: bool, p: nat, size: nat, d: nat,
                   s1: seq<Instr>, e: nat)
    requires p < q < |s| && 1 <= d <= size && !IsMeta(s[q])
    requires CoversSeq(s[q + 1..], size - d)
    requires after ==> news != []
    requires after && d == size ==> !IsMeta(news[|news| - 1])
    requires CountCode(s[p + 1..q + 1]) == d && CountCode(s[p + 1..q]) == d - 1
    requires s1 == Spliced(s, q, news, after)
    requires e == RangeEnd(s, q, |news|, size - d)
    ensures e <= |s1|
    ensures CountCode(s1[p + 1..e]) == size + CountCode(news)
    ensures !IsMeta(s1[e - 1])
  {
    SpanCovers(s[q + 1..], size - d);
    if after {
      InsertRangeAfter(s, q, news, p, size, d, s1, e);
    } else {
      InsertRangeBefore(s, q, news, p, size, d, s1, e);
    }
  }

  /** MI, not meta, at distance d >= 1 from its IT at p: p < q and the
      instructions strictly between them hold d - 1 non-meta ones. */
  lemma DistanceFacts(s: seq<Instr>, q: nat, p: nat, d: nat)
    requires q < |s| && MasksValid(s) && !IsMeta(s[q])
    requires FindIT(s, q) == Some(ITRef(p, d)) && d > 0
    ensures p < q
    ensures CountCode(s[p + 1..q + 1]) == d && CountCode(s[p + 1..q]) == d - 1
  {
    FindITSound(s, q);
    assert s[p + 1..q + 1] == s[p + 1..q] + [s[q]];
    CountCodeAppend(s[p + 1..q], [s[q]]);
    assert [s[q]][..0] == [];
  }

  lemma InsertRangeAfter(s: seq<Instr>, q: nat, news: seq<Instr>, p: nat, size: nat, d: nat,
                         s1: seq<Instr>, e: nat)
    requires p < q < |s| && d <= size
    requires CountCode(s[p + 1..q + 1]) == d
    requires CountCode(s[q + 1..][..Span(s[q + 1..], size - d)]) == size - d
    requires size - d > 0 ==> Span(s[q + 1..], size - d) > 0 && !IsMeta(s[q + 1..][Span(s[q + 1..], size - d) - 1])
    requires size - d == 0 ==> news != [] && !IsMeta(news[|news| - 1])
    requires s1 == s[..q + 1] + news + s[q + 1..]
    requires e == q + |news| + 1 + Span(s[q + 1..], size - d)
    ensures e <= |s1|
    ensures CountCode(s1[p + 1..e]) == size + CountCode(news)
    ensures !IsMeta(s1[e - 1])
  {
    var t := s[q + 1..];
    var sp := Span(t, size - d);
    assert s1[p + 1..e] == s[p + 1..q + 1] + news + t[..sp];
    CountCodeAppend(s[p + 1..q + 1] + news, t[..sp]);
    CountCodeAppend(s[p + 1..q + 1], news);
    if sp == 0 {
      assert s1[e - 1] == news[|news| - 1];
    } else {
      assert s1[e - 1] == t[sp - 1];
    }
  }

  lemma InsertRangeBefore(s: seq<Instr>, q: nat, news: seq<Instr>, p: nat, size: nat, d: nat,
                         s1: seq<Instr>, e: nat)
    requires p < q < |s| && 1 <= d <= size && !IsMeta(s[q])
    requires CountCode(s[p + 1..q]) == d - 1
    requires CountCode(s[q + 1..][..Span(s[q + 1..], size - d)]) == size - d
    requires size - d > 0 ==> Span(s[q + 1..], size - d) > 0 && !IsMeta(s[q + 1..][Span(s[q + 1..], size - d) - 1])
    requires s1 == s[..q] + news + s[q..]
    requires e == q + |news| + 1 + Span(s[q + 1..], size - d)
    ensures e <= |s1|
    ensures CountCode(s1[p + 1..e]) == size + CountCode(news)
    ensures !IsMeta(s1[e - 1])
  {
    var t := s[q + 1..];
    var sp := Span(t, size - d);
    assert s1[p + 1..e] == s[p + 1..q] + news + ([s[q]] + t[..sp]);
    CountCodeAppend(s[p + 1..q] + news, [s[q]] + t[..sp]);
    CountCodeAppend(s[p + 1..q], news);
    CountCodeCons(s[q], t[..sp]);
    if sp == 0 {
      assert s1[e - 1] == s[q];
    } else {
      assert s1[e - 1] == t[sp - 1];
    }
  }

  /** insertInstsBefore / insertInstsAfter. */
  function InsertSpec(s: seq<Instr>, q: nat, news: seq<Instr>, after: bool, nextId: nat): Edit
    requires InsertReady(s, q, news, after)
  {
    var s1 := Spliced(s, q, news, after);
    match FindIT(s, q)
    case None => Edit(s1, nextId)
    case Some(r) =>
      if r.distance == 0 then Edit(s1, nextId)
      else InsertInIT(s, q, news, after, nextId, r.pos, r.distance)
  }

  /** The IT case of InsertSpec: MI is at distance d >= 1 from its IT at p. */
  function InsertInIT(s: seq<Instr>, q: nat, news: seq<Instr>, after: bool, nextId: nat, p: nat, d: nat): Edit
    requires InsertReady(s, q, news, after)
    requires FindIT(s, q) == Some(ITRef(p, d)) && d > 0
  {
    var s1 := Spliced(s, q, news, after);
    var mask := s[p].op.mask;
    var e := RangeEnd(s, q, |news|, ITBlockSize(mask) - d);
    InsertRangeFacts(s, q, news, after, p, d, ITBlockSize(mask), s1, e);
    TagsOfSize(mask);
    Recover(s1, p, e, InsertedTags(TagsOf(mask), d, after, CountCode(news)), s[p].op.cond, nextId)
  }

  /** InsertSpec in the IT case is InsertInIT. */
  lemma InsertSpecInIT(s: seq<Instr>, q: nat, news: seq<Instr>, after: bool, nextId: nat, p: nat, d: nat)
    requires InsertReady(s, q, news, after)
    requires FindIT(s, q) == Some(ITRef(p, d)) && d > 0
    ensures InsertSpec(s, q, news, after, nextId) == InsertInIT(s, q, news, after, nextId, p, d)
  {
  }

  /** InsertInIT is Recover on the spliced block, the range up to RangeEnd
      and the old tags with MI's tag repeated. */
  lemma InsertInITUnfold(s: seq<Instr>, q: nat, news: seq<Instr>, after: bool, nextId: nat, p: nat, d: nat,
                         s1: seq<Instr>, e: nat, tags: seq<bool>)
    requires InsertReady(s, q, news, after)
    requires FindIT(s, q) == Some(ITRef(p, d)) && d > 0
    requires s1 == Spliced(s, q, news, after)
    requires e == RangeEnd(s, q, |news|, ITBlockSize(s[p].op.mask) - d)
    requires tags == InsertedTags(TagsOf(s[p].op.mask), d, after, CountCode(news))
    requires p < e <= |s1| && |tags| == CountCode(s1[p + 1..e]) && !IsMeta(s1[e - 1])
    ensures InsertInIT(s, q, news, after, nextId, p, d) == Recover(s1, p, e, tags, s[p].op.cond, nextId)
  {
  }

  /** Index one past the re-covered range: MI (or the last new instruction)
      sits at q + n, followed by what remains of the IT block in s. */
  function RangeEnd(s: seq<Instr>, q: nat, n: nat, remaining: nat): nat
    requires q < |s|
  {
    q + n + 1 + Span(s[q + 1..], remaining)
  }

  /** The tags of the old IT with n copies of MI's tag inserted before MI's
      own (k = d - 1) or after it (k = d). */
  function InsertedTags(tags0: seq<bool>, d: nat, after: bool, n: nat): (t: seq<bool>)
    requires 1 <= d <= |tags0|
    ensures |t| == |tags0| + n
  {
    var k := if after then d else d - 1;
    tags0[..k] + Repeat(tags0[d - 1], n) + tags0[k..]
  }

  /** The block with the old IT at p dropped and the range (p, e) replaced
      by its re-covered form. */
  function Recover(s1: seq<Instr>, p: nat, e: nat, tags: seq<bool>, c: Cond, nextId: nat): Edit
    requires p < e <= |s1| && |tags| == CountCode(s1[p + 1..e]) && !IsMeta(s1[e - 1])
  {
    var seg := s1[p + 1..e];
    assert seg != [] ==> seg[|seg| - 1] == s1[e - 1];
    var r := Rechunk(seg, tags, c, nextId);
    Edit(s1[..p] + r.insts + s1[e..], r.nextId)
  }

  /** An instruction that is neither meta nor an IT sits at distance >= 1
      from the IT that covers it. */
  lemma CoveredDistance(s: seq<Instr>, q: nat)
    requires q < |s| && MasksValid(s) && !IsMeta(s[q]) && !IsIT(s[q])
    requires FindIT(s, q).Some?
    ensures FindIT(s, q).value.pos < q
    ensures FindIT(s, q).value.distance >= 1
  {
    FindITSound(s, q);
    var p := FindIT(s, q).value.pos;
    assert s[p + 1..q + 1][q - p - 1] == s[q];
    CodeAtEnd(s[p + 1..q + 1]);
  }

  /** What removeInst demands: MI is neither meta nor an IT. */
  predicate RemoveReady(s: seq<Instr>, q: nat)
  {
    q < |s| && MasksValid(s) && !IsMeta(s[q]) && !IsIT(s[q])
  }

  /** removeInst. */
  function RemoveSpec(s: seq<Instr>, q: nat): seq<Instr>
    requires RemoveReady(s, q)
  {
    var s1 := s[..q] + s[q + 1..];
    match FindIT(s, q)
    case None => s1
    case Some(r) =>
      CoveredDistance(s, q);
      TagsOfSize(s[r.pos].op.mask);
      var p, d := r.pos, r.distance;
      var it := s[p].op;
      var tags0 := TagsOf(it.mask);
      var tags := tags0[..d - 1] + tags0[d..];
      if tags == [] then s1[..p] + s1[p + 1..]
      else
        var flip := !tags[0];
        var t := if flip then Flipped(tags) else tags;
        s1[p := s[p].(op := T2IT(if flip then Opposite(it.cond) else it.cond, EncodedMask(t)))]
  }
}
