/**
 * The IT-block-safe editor of the Silhouette instrumentor, as methods that
 * change a machine function in place: insertInstsBefore / insertInstsAfter
 * (and their one-instruction wrappers) and removeInst, each proved to leave
 * the function in the state the functions of ITEditSpec describe.
 */
module Instrumentor {
  import opened ITMask
  import opened MachineIR
  import opened ITBlocks
  import opened ITEditSpec
  import opened MachineFunctions

  /** Every tag negated, in place (the flip loops of insertInsts* and
      removeInst). */
  method FlipAll(tags: seq<bool>) returns (r: seq<bool>)
    ensures r == Flipped(tags)
  {
    r := tags;
    var k := 0;
    while k < |r|
      invariant 0 <= k <= |r| == |tags|
      invariant forall l :: 0 <= l < k ==> r[l] == !tags[l]
      invariant forall l :: k <= l < |r| ==> r[l] == tags[l]
    {
      r := r[k := !r[k]];
      k := k + 1;
    }
  }

  /** The number of non-meta instructions in news (NumRealInsts). */
  method CountRealInsts(news: seq<Instr>) returns (n: nat)
    ensures n == CountCode(news)
  {
    var num: int := |news|;
    var j := 0;
    while j < |news|
      invariant 0 <= j <= |news|
      invariant num == |news| - j + CountCode(news[..j])
    {
      assert news[..j + 1][..j] == news[..j];
      if IsMeta(news[j]) {
        num := num - 1;
      }
      j := j + 1;
    }
    assert news[..|news|] == news;
    n := num;
  }

  /** The forward walk that finds lastMI: starting at position from (MI, or
      the last new instruction), step over the size - d instructions still
      to come in the IT block, skipping meta instructions, and one more. */
  method FindRangeEnd(cur: seq<Instr>, from: nat, size: nat, d: nat) returns (last: nat)
    requires d <= size && from < |cur|
    requires CoversSeq(cur[from + 1..], size - d)
    requires from + 1 + Span(cur[from + 1..], size - d) <= |cur|
    ensures last == from + 1 + Span(cur[from + 1..], size - d)
  {
    ghost var e := from + 1 + Span(cur[from + 1..], size - d);
    last := from;
    var i := d;
    while i <= size
      invariant d <= i <= size + 1
      invariant from <= last < |cur| + 1
      invariant i <= size ==> last < |cur| && CoversSeq(cur[last + 1..], size - i)
                              && last + 1 + Span(cur[last + 1..], size - i) == e
      invariant i == size + 1 ==> last == e
      decreases size + 1 - i, |cur| - last
    {
      if i < size {
        assert cur[last + 1..][1..] == cur[last + 2..];
      }
      last := last + 1;
      if i == size || !IsMeta(cur[last]) {
        i := i + 1;
      }
    }
  }

  /** The inner loop of the re-covering loop, on the instructions t from i
      up to lastMI: take the tags of up to 4 non-meta instructions off the
      front of dq; len ends one past the 4th of them, or at the end of t. */
  method TakeChunk(t: seq<Instr>, dq: seq<bool>) returns (chunk: seq<bool>, rest: seq<bool>, len: nat)
    requires |dq| == CountCode(t)
    ensures len == ChunkLen(t) && CountCode(t[..len]) <= |dq|
    ensures chunk == dq[..CountCode(t[..len])] && rest == dq[CountCode(t[..len])..]
  {
    chunk := [];
    rest := dq;
    var j := 0;
    var k := 0;
    while k < 4 && j != |t|
      invariant 0 <= j <= |t| && 0 <= k <= 4
      invariant k == CountCode(t[..j])
      invariant k == 4 ==> j > 0 && !IsMeta(t[j - 1])
      invariant k + |rest| == |dq|
      invariant chunk == dq[..k] && rest == dq[k..]
    {
      ChunkStep(t, j);
      if !IsMeta(t[j]) {
        assert dq[..k + 1] == dq[..k] + [rest[0]] && dq[k + 1..] == rest[1..];
        chunk := chunk + [rest[0]];
        rest := rest[1..];
        k := k + 1;
      }
      j := j + 1;
    }
    if k == 4 {
      SpanAtLast(t, j, 4);
    } else {
      assert t[..j] == t;
      SpanAll(t, 4);
    }
    len := j;
  }

  /** One step of TakeChunk's walk over t. */
  lemma ChunkStep(t: seq<Instr>, j: nat)
    requires j < |t|
    ensures CountCode(t[..j + 1]) == CountCode(t[..j]) + (if IsMeta(t[j]) then 0 else 1)
    ensures !IsMeta(t[j]) ==> CountCode(t[..j]) < CountCode(t)
  {
    assert t[..j + 1][..j] == t[..j];
    CountCodeSplit(t, j + 1);
    CountCodeSplit(t, j);
  }

  /** The span of the first n non-meta instructions ends right after the
      n-th of them. */
  lemma {:induction false} SpanAtLast(t: seq<Instr>, j: nat, n: nat)
    requires 0 < j <= |t| && n > 0
    requires CountCode(t[..j]) == n && !IsMeta(t[j - 1])
    ensures Span(t, n) == j
    decreases j
  {
    var n' := if IsMeta(t[0]) then n else n - 1;
    assert t[..j] == [t[0]] + t[1..][..j - 1];
    CountCodeCons(t[0], t[1..][..j - 1]);
    if j == 1 {
      assert n' == 0;
    } else {
      assert t[1..][j - 2] == t[j - 1];
      if n' > 0 {
        SpanAtLast(t[1..], j - 1, n');
      } else {
        assert false;
      }
    }
  }

  /** With fewer than n non-meta instructions, the span is all of t. */
  lemma {:induction false} SpanAll(t: seq<Instr>, n: nat)
    requires CountCode(t) < n
    ensures Span(t, n) == |t|
    decreases |t|
  {
    if t != [] {
      assert t == [t[0]] + t[1..];
      CountCodeCons(t[0], t[1..]);
      SpanAll(t[1..], if IsMeta(t[0]) then n else n - 1);
    }
  }

  /** The re-covering loop of insertInstsBefore/After over the range
      [firstMI, lastMI), given as seg: walk it chunk by chunk and put a fresh
      IT in front of each chunk, built from the chunk's tags and the base
      condition c. The new range is returned; the caller splices it back. */
  method CoverRange(seg: seq<Instr>, dq0: seq<bool>, c: Cond, nid0: nat)
      returns (out: seq<Instr>, nid: nat)
    requires |dq0| == CountCode(seg)
    requires seg != [] ==> !IsMeta(seg[|seg| - 1])
    ensures Edit(out, nid) == Rechunk(seg, dq0, c, nid0)
  {
    ghost var target := Rechunk(seg, dq0, c, nid0);
    out := [];
    nid := nid0;
    var dq := dq0;
    var w := seg;
    while w != []
      invariant CoverInv(out, w, dq, c, nid, target)
      decreases |w|
    {
      var it, len, rest := BuildChunkIT(w, dq, c, nid);
      CoverStep(out, w, dq, c, nid, it, len, rest, target);
      out := out + [it] + w[..len];
      w := w[len..];
      nid := nid + 1;
      dq := rest;
    }
    assert Rechunk(w, dq, c, nid) == Edit([], nid);
    assert out + [] == out;
  }

  /** The invariant of the re-covering loop: out followed by the re-covering
      of what is left, w, is the whole result target. */
  predicate CoverInv(out: seq<Instr>, w: seq<Instr>, dq: seq<bool>, c: Cond, nid: nat, target: Edit)
  {
    && |dq| == CountCode(w) && (w != [] ==> !IsMeta(w[|w| - 1]))
    && out + Rechunk(w, dq, c, nid).insts == target.insts
    && Rechunk(w, dq, c, nid).nextId == target.nextId
  }

  /** One round of the re-covering loop keeps its invariant. */
  lemma CoverStep(out: seq<Instr>, w: seq<Instr>, dq: seq<bool>, c: Cond, nid: nat, it: Instr, len: nat,
                  rest: seq<bool>, target: Edit)
    requires CoverInv(out, w, dq, c, nid, target) && w != []
    requires 0 < len <= |w| && |rest| == CountCode(w[len..])
    requires w[len..] != [] ==> !IsMeta(w[len..][|w[len..]| - 1])
    requires Rechunk(w, dq, c, nid).insts == [it] + w[..len] + Rechunk(w[len..], rest, c, nid + 1).insts
    requires Rechunk(w, dq, c, nid).nextId == Rechunk(w[len..], rest, c, nid + 1).nextId
    ensures CoverInv(out + [it] + w[..len], w[len..], rest, c, nid + 1, target)
  {
    var left := Rechunk(w, dq, c, nid);
    var more := Rechunk(w[len..], rest, c, nid + 1);
    CoverSplice(out, it, w[..len], more.insts, left.insts, target.insts);
  }

  /** The output so far, followed by what is left to build, is the whole. */
  lemma CoverSplice(out: seq<Instr>, it: Instr, chunk: seq<Instr>, more: seq<Instr>, left: seq<Instr>,
                    whole: seq<Instr>)
    requires left == [it] + chunk + more && out + left == whole
    ensures (out + [it] + chunk) + more == whole
  {
  }

  /** One round of the re-covering loop: cut the next chunk off w, flip its
      tags when the first is "opposite", and build the IT for it; the result
      is the IT Rechunk puts in front of w's first chunk. */
  method BuildChunkIT(w: seq<Instr>, dq: seq<bool>, c: Cond, nid: nat)
      returns (it: Instr, len: nat, rest: seq<bool>)
    requires |dq| == CountCode(w) && w != [] && !IsMeta(w[|w| - 1])
    ensures 0 < len <= |w| && |rest| == CountCode(w[len..])
    ensures w[len..] != [] ==> !IsMeta(w[len..][|w[len..]| - 1])
    ensures Rechunk(w, dq, c, nid).insts == [it] + w[..len] + Rechunk(w[len..], rest, c, nid + 1).insts
    ensures Rechunk(w, dq, c, nid).nextId == Rechunk(w[len..], rest, c, nid + 1).nextId
  {
    var chunk;
    chunk, rest, len := TakeChunk(w, dq);
    RechunkStep(w, dq, c, nid);
    var flip := !chunk[0];
    var tags := chunk;
    if flip {
      tags := FlipAll(chunk);
    }
    var mask := EncodeITMask(tags);
    it := NewIT(nid, if flip then Opposite(c) else c, mask);
  }


  /** The splice loop: the new instructions, in order, at index at. */
  method Splice(s: seq<Instr>, at: nat, news: seq<Instr>) returns (cur: seq<Instr>)
    requires at <= |s|
    ensures cur == s[..at] + news + s[at..]
  {
    cur := s;
    var i := 0;
    while i < |news|
      invariant 0 <= i <= |news|
      invariant cur == s[..at] + news[..i] + s[at..]
    {
      assert cur[..at + i] == s[..at] + news[..i];
      assert cur[at + i..] == s[at..];
      assert news[..i + 1] == news[..i] + [news[i]];
      cur := cur[..at + i] + [news[i]] + cur[at + i..];
      i := i + 1;
    }
    assert news[..|news|] == news;
  }

  /** insertInstsBefore (after == false) and insertInstsAfter (after ==
      true): splice news in before or after MI, the instruction at index q of
      block b; when MI is inside an IT block, re-cover the block's range with
      fresh ITs and erase the old IT. */
  method InsertInsts(mf: MachineFunction, b: nat, q: nat, news: seq<Instr>, after: bool)
    requires b < |mf.blocks| && InsertReady(mf.blocks[b].insts, q, news, after)
    modifies mf
    ensures var e := InsertSpec(old(mf.blocks[b].insts), q, news, after, old(mf.nextId));
      && mf.blocks == old(mf.blocks)[b := Block(e.insts, old(mf.blocks[b].liveOuts))]
      && mf.nextId == e.nextId
    ensures mf.csi == old(mf.csi)
  {
    var s := mf.blocks[b].insts;
    var nid := mf.nextId;
    var found := FindIT(s, q);
    var cur := Splice(s, if after then q + 1 else q, news);
    assert cur == Spliced(s, q, news, after);
    if found.Some? && found.value.distance != 0 {
      InsertSpecInIT(s, q, news, after, nid, found.value.pos, found.value.distance);
      cur, nid := InsertInITBlock(s, q, news, after, nid, found.value.pos, found.value.distance, cur);
    }
    mf.blocks := mf.blocks[b := Block(cur, mf.blocks[b].liveOuts)];
    mf.nextId := nid;
  }

  /** The IT case of insertInstsBefore/After on the spliced block s1: find
      the end of MI's IT block, extend the old IT's tags with MI's tag once
      per new non-meta instruction, re-cover the range and erase the old IT. */
  method InsertInITBlock(s: seq<Instr>, q: nat, news: seq<Instr>, after: bool, nid0: nat, p: nat, d: nat,
                         s1: seq<Instr>)
    returns (cur: seq<Instr>, nid: nat)
    requires InsertReady(s, q, news, after)
    requires FindIT(s, q) == Some(ITRef(p, d)) && d > 0
    requires s1 == Spliced(s, q, news, after)
    ensures Edit(cur, nid) == InsertInIT(s, q, news, after, nid0, p, d)
  {
    var size := ITBlockSize(s[p].op.mask);
    ghost var e := RangeEnd(s, q, |news|, size - d);
    InsertInITPlan(s, q, news, after, p, d, size, s1, e);
    ghost var tags := InsertedTags(TagsOf(s[p].op.mask), d, after, CountCode(news));
    cur, nid := RebuildRange(s1, p, q + |news|, d, e, s[p].op.mask, news, after, s[p].op.cond, nid0);
    InsertInITUnfold(s, q, news, after, nid0, p, d, s1, e, tags);
  }

  /** What InsertInITBlock needs of the spliced block: the rest of MI's IT
      block follows the last new instruction and ends at e, and the range
      (p, e) holds the old tags' instructions and the new ones. */
  lemma InsertInITPlan(s: seq<Instr>, q: nat, news: seq<Instr>, after: bool, p: nat, d: nat, size: nat,
                       s1: seq<Instr>, e: nat)
    requires InsertReady(s, q, news, after)
    requires FindIT(s, q) == Some(ITRef(p, d)) && d > 0
    requires size == ITBlockSize(s[p].op.mask)
    requires s1 == Spliced(s, q, news, after)
    requires e == RangeEnd(s, q, |news|, size - d)
    ensures RebuildReady(s1, p, q + |news|, d, e, s[p].op.mask, news)
  {
    InsertReadyCovers(s, q, news, after, p, d, size, s1, e);
    InsertRangeFacts(s, q, news, after, p, d, size, s1, e);
    TagsOfSize(s[p].op.mask);
  }

  /** The range (p, e) of s1 is ready to be re-covered: the rest of an IT
      block with mask `mask` follows index m, MI being at distance d, and ends
      at e; the range holds the old tags' instructions and the new ones. */
  predicate RebuildReady(s1: seq<Instr>, p: nat, m: nat, d: nat, e: nat, mask: nat, news: seq<Instr>)
  {
    && ValidMask(mask) && 1 <= d <= ITBlockSize(mask) == |TagsOf(mask)|
    && p < m < |s1| && e <= |s1|
    && CoversSeq(s1[m + 1..], ITBlockSize(mask) - d)
    && m + 1 + Span(s1[m + 1..], ITBlockSize(mask) - d) == e
    && RangeFits(s1, p, e, |TagsOf(mask)| + CountCode(news))
  }

  /** (p, e) is a range of s1 holding n instructions that emit code, the
      last of them at e - 1: what Recover needs of it. */
  predicate RangeFits(s1: seq<Instr>, p: nat, e: nat, n: nat)
  {
    p < e <= |s1| && n == CountCode(s1[p + 1..e]) && !IsMeta(s1[e - 1])
  }

  /** The computing part of the IT case: find the end of the range after the
      last new instruction at index m, extend the tags and re-cover. */
  method RebuildRange(s1: seq<Instr>, p: nat, m: nat, d: nat, ghost e: nat, mask: nat, news: seq<Instr>, after: bool,
                      c: Cond, nid0: nat)
    returns (cur: seq<Instr>, nid: nat)
    requires RebuildReady(s1, p, m, d, e, mask, news)
    ensures Edit(cur, nid) == Recover(s1, p, e, InsertedTags(TagsOf(mask), d, after, CountCode(news)), c, nid0)
  {
    var last := FindRangeEnd(s1, m, ITBlockSize(mask), d);
    var dqMask := DecodeITMask(mask);
    var numReal := CountRealInsts(news);
    var tags := ExtendTags(dqMask, d, after, numReal);
    cur, nid := RecoverIT(s1, p, last, tags, c, nid0);
  }

  /** Insert n copies of MI's tag (tag d - 1) into the decoded mask, before
      MI's own tag or right after it. */
  method ExtendTags(dq: seq<bool>, d: nat, after: bool, n: nat) returns (tags: seq<bool>)
    requires 1 <= d <= |dq|
    ensures tags == InsertedTags(dq, d, after, n)
    ensures |tags| == |dq| + n
  {
    var k := if after then d else d - 1;
    tags := dq[..k] + Repeat(dq[d - 1], n) + dq[k..];
  }

  /** Re-cover the range (p, e) of the spliced block s1 with fresh ITs, then
      erase the old IT at p. */
  method RecoverIT(s1: seq<Instr>, p: nat, e: nat, tags: seq<bool>, c: Cond, nid0: nat)
    returns (cur: seq<Instr>, nid: nat)
    requires p < e <= |s1| && |tags| == CountCode(s1[p + 1..e]) && !IsMeta(s1[e - 1])
    ensures Edit(cur, nid) == Recover(s1, p, e, tags, c, nid0)
  {
    var seg := s1[p + 1..e];
    assert seg != [] ==> seg[|seg| - 1] == s1[e - 1];
    var out;
    out, nid := CoverRange(seg, tags, c, nid0);
    EraseIT(s1, p, e, out);
    cur := s1[..p + 1] + out + s1[e..];
    cur := cur[..p] + cur[p + 1..];
  }

  /** The rest of MI's IT block, as InsertReady demands it, is found after
      the last new instruction in the spliced block, and ends at RangeEnd. */
  lemma InsertReadyCovers(s: seq<Instr>, q: nat, news: seq<Instr>, after: bool, p: nat, d: nat, size: nat,
                          s1: seq<Instr>, e: nat)
    requires InsertReady(s, q, news, after)
    requires FindIT(s, q) == Some(ITRef(p, d)) && d > 0
    requires size == ITBlockSize(s[p].op.mask)
    requires s1 == Spliced(s, q, news, after)
    requires e == RangeEnd(s, q, |news|, size - d)
    ensures d <= size && q + |news| < |s1| && e <= |s1|
    ensures CoversSeq(s1[q + |news| + 1..], size - d)
    ensures q + |news| + 1 + Span(s1[q + |news| + 1..], size - d) == e
  {
    InsertRangeFacts(s, q, news, after, p, d, size, s1, e);
    ReadyFacts(s, q, news, after, p, d, size);
    if after {
      assert s1[q + |news| + 1..] == s[q + 1..];
    } else {
      assert s1[q + |news|..] == s[q..];
      assert s1[q + |news| + 1..] == s[q..][1..];
    }
  }

  /** Erasing the old IT at p after the range past it was rebuilt. */
  lemma EraseIT(cur: seq<Instr>, p: nat, last: nat, out: seq<Instr>)
    requires p < last <= |cur|
    ensures var c2 := cur[..p + 1] + out + cur[last..];
      c2[..p] + c2[p + 1..] == cur[..p] + out + cur[last..]
  {
    var c2 := cur[..p + 1] + out + cur[last..];
    assert c2[..p] == cur[..p];
    assert c2[p + 1..] == out + cur[last..];
  }

  /** insertInstsBefore. */
  method InsertInstsBefore(mf: MachineFunction, b: nat, q: nat, news: seq<Instr>)
    requires b < |mf.blocks| && InsertReady(mf.blocks[b].insts, q, news, false)
    modifies mf
    ensures var e := InsertSpec(old(mf.blocks[b].insts), q, news, false, old(mf.nextId));
      && mf.blocks == old(mf.blocks)[b := Block(e.insts, old(mf.blocks[b].liveOuts))]
      && mf.nextId == e.nextId
    ensures mf.csi == old(mf.csi)
  {
    InsertInsts(mf, b, q, news, false);
  }

  /** insertInstsAfter. */
  method InsertInstsAfter(mf: MachineFunction, b: nat, q: nat, news: seq<Instr>)
    requires b < |mf.blocks| && InsertReady(mf.blocks[b].insts, q, news, true)
    modifies mf
    ensures var e := InsertSpec(old(mf.blocks[b].insts), q, news, true, old(mf.nextId));
      && mf.blocks == old(mf.blocks)[b := Block(e.insts, old(mf.blocks[b].liveOuts))]
      && mf.nextId == e.nextId
    ensures mf.csi == old(mf.csi)
  {
    InsertInsts(mf, b, q, news, true);
  }

  /** insertInstBefore: insertInstsBefore with the one instruction inst. */
  method InsertInstBefore(mf: MachineFunction, b: nat, q: nat, inst: Instr)
    requires b < |mf.blocks| && InsertReady(mf.blocks[b].insts, q, [inst], false)
    modifies mf
    ensures var e := InsertSpec(old(mf.blocks[b].insts), q, [inst], false, old(mf.nextId));
      && mf.blocks == old(mf.blocks)[b := Block(e.insts, old(mf.blocks[b].liveOuts))]
      && mf.nextId == e.nextId
    ensures mf.csi == old(mf.csi)
  {
    InsertInsts(mf, b, q, [inst], false);
  }

  /** insertInstAfter: insertInstsAfter with the one instruction inst. */
  method InsertInstAfter(mf: MachineFunction, b: nat, q: nat, inst: Instr)
    requires b < |mf.blocks| && InsertReady(mf.blocks[b].insts, q, [inst], true)
    modifies mf
    ensures var e := InsertSpec(old(mf.blocks[b].insts), q, [inst], true, old(mf.nextId));
      && mf.blocks == old(mf.blocks)[b := Block(e.insts, old(mf.blocks[b].liveOuts))]
      && mf.nextId == e.nextId
    ensures mf.csi == old(mf.csi)
  {
    InsertInsts(mf, b, q, [inst], true);
  }

  /** removeInst: erase MI, the instruction at index q of block b, after
      repairing or erasing the IT whose block it is in. */
  method RemoveInst(mf: MachineFunction, b: nat, q: nat)
    requires b < |mf.blocks| && RemoveReady(mf.blocks[b].insts, q)
    modifies mf
    ensures mf.blocks == old(mf.blocks)[b := Block(RemoveSpec(old(mf.blocks[b].insts), q), old(mf.blocks[b].liveOuts))]
    ensures mf.nextId == old(mf.nextId) && mf.csi == old(mf.csi)
  {
    var cur := RemoveFromBlock(mf.blocks[b].insts, q);
    mf.blocks := mf.blocks[b := Block(cur, mf.blocks[b].liveOuts)];
  }

  /** The body of removeInst on the block's instructions. */
  method RemoveFromBlock(s: seq<Instr>, q: nat) returns (cur: seq<Instr>)
    requires RemoveReady(s, q)
    ensures cur == RemoveSpec(s, q)
  {
    var found := FindIT(s, q);
    if found.Some? {
      cur := RemoveInIT(s, q, found.value.pos, found.value.distance);
    } else {
      cur := s[..q] + s[q + 1..];   // MI.eraseFromParent()
    }
  }

  /** removeInst when MI is in the IT block of the IT at p, at distance d:
      drop MI's tag from the IT's mask, erase the IT when no tag is left and
      otherwise re-encode it (flipping the condition when the new first tag
      is an "else"), then erase MI. */
  method RemoveInIT(s: seq<Instr>, q: nat, p: nat, d: nat) returns (cur: seq<Instr>)
    requires RemoveReady(s, q) && FindIT(s, q) == Some(ITRef(p, d))
    ensures cur == RemoveSpec(s, q)
  {
    CoveredDistance(s, q);
    var firstCond := s[p].op.cond;
    var dq := DecodeITMask(s[p].op.mask);
    TagsOfSize(s[p].op.mask);
    dq := dq[..d - 1] + dq[d..];   // DQMask.erase at MI's entry
    if dq == [] {
      cur := s[..p] + s[p + 1..];   // IT->eraseFromParent()
      RemoveTwo(s, p, q);
      cur := cur[..q - 1] + cur[q..];   // MI.eraseFromParent()
    } else {
      var c := firstCond;
      if !dq[0] {
        dq := FlipAll(dq);
        c := Opposite(firstCond);
      }
      var m := EncodeITMask(dq);
      cur := s[p := s[p].(op := T2IT(c, m))];
      UpdateThenRemove(s, p, q, cur[p]);
      cur := cur[..q] + cur[q + 1..];   // MI.eraseFromParent()
    }
  }

  /** Erasing the IT at p and then MI (now at q - 1) is erasing MI and then
      the IT. */
  lemma RemoveTwo(s: seq<Instr>, p: nat, q: nat)
    requires p < q < |s|
    ensures var c := s[..p] + s[p + 1..];
      var s1 := s[..q] + s[q + 1..];
      c[..q - 1] + c[q..] == s1[..p] + s1[p + 1..]
  {
    var c := s[..p] + s[p + 1..];
    var s1 := s[..q] + s[q + 1..];
    assert c[..q - 1] + c[q..] == s[..p] + s[p + 1..q] + s[q + 1..];
    assert s1[..p] + s1[p + 1..] == s[..p] + s[p + 1..q] + s[q + 1..];
  }

  /** Rewriting the IT at p and then erasing MI at q is erasing MI and then
      rewriting the IT. */
  lemma UpdateThenRemove(s: seq<Instr>, p: nat, q: nat, it: Instr)
    requires p < q < |s|
    ensures var c := s[p := it];
      c[..q] + c[q + 1..] == (s[..q] + s[q + 1..])[p := it]
  {
  }
}
