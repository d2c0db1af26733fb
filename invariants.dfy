/**
 * What the IT-block-safe editor preserves: every IT of the block keeps a
 * valid mask and a complete block free of other ITs (WellFormedITs), and no
 * instruction other than an IT is created, lost or changed except as the
 * edit says.
 */
module Invariants {
  import opened ITMask
  import opened MachineIR
  import opened ITBlocks
  import opened ITEditSpec

  // ----- Coverage of sequences built by concatenation -----

  /** Coverage only looks at the front: what follows a covered span does not
      matter. */
  lemma {:induction false} CoversExtend(t: seq<Instr>, u: seq<Instr>, k: nat)
    requires CoversSeq(t, k)
    ensures CoversSeq(t + u, k)
    decreases |t|
  {
    if k > 0 {
      assert (t + u)[1..] == t[1..] + u;
      CoversExtend(t[1..], u, if IsMeta(t[0]) then k else k - 1);
    }
  }

  /** Covering k instructions of t + u either stays inside t, or uses up t,
      which then holds no IT and fewer than k non-meta instructions, and goes
      on into u. */
  lemma {:induction false} CoversSplit(t: seq<Instr>, u: seq<Instr>, k: nat)
    requires CoversSeq(t + u, k)
    ensures CoversSeq(t, k) || (NoIT(t) && CountCode(t) < k && CoversSeq(u, k - CountCode(t)))
    decreases |t|
  {
    if t == [] {
      assert t + u == u;
    } else if k > 0 {
      assert (t + u)[1..] == t[1..] + u;
      var k' := if IsMeta(t[0]) then k else k - 1;
      CoversSplit(t[1..], u, k');
      CountCodeCons(t[0], t[1..]);
      assert t == [t[0]] + t[1..];
      if !CoversSeq(t, k) {
        assert NoIT(t) by {
          forall i | 0 <= i < |t| ensures !IsIT(t[i]) {
            if i > 0 { assert t[i] == t[1..][i - 1]; }
          }
        }
      }
    }
  }

  /** A front part without ITs and with at most k non-meta instructions,
      followed by a sequence covering the rest: k are covered. */
  lemma {:induction false} CoversConcat(x: seq<Instr>, t: seq<Instr>, k: nat)
    requires NoIT(x) && CountCode(x) <= k
    requires CoversSeq(t, k - CountCode(x))
    ensures CoversSeq(x + t, k)
    decreases |x|
  {
    if x == [] {
      assert x + t == t;
    } else {
      CountCodeCons(x[0], x[1..]);
      assert x == [x[0]] + x[1..];
      assert (x + t)[1..] == x[1..] + t;
      assert NoIT(x[1..]) by {
        forall i | 0 <= i < |x[1..]| ensures !IsIT(x[1..][i]) {
          assert x[1..][i] == x[i + 1];
        }
      }
      CoversConcat(x[1..], t, if IsMeta(x[0]) then k else k - 1);
    }
  }

  /** A sequence without ITs covers all its non-meta instructions, whatever
      follows. */
  lemma CoversAll(x: seq<Instr>, u: seq<Instr>)
    requires NoIT(x)
    ensures CoversSeq(x + u, CountCode(x))
  {
    assert x + u == x + u[..0] + u by { assert u[..0] == []; }
    CoversConcat(x, u, CountCode(x));
  }

  // ----- WellFormedITs of concatenations and parts -----

  /** Two well-formed sequences make a well-formed one. */
  lemma WFAppend(a: seq<Instr>, b: seq<Instr>)
    requires WellFormedITs(a) && WellFormedITs(b)
    ensures WellFormedITs(a + b)
  {
    var s := a + b;
    forall i | 0 <= i < |s| && IsIT(s[i])
      ensures ValidMask(s[i].op.mask) && CoversSeq(s[i + 1..], ITBlockSize(s[i].op.mask))
    {
      if i < |a| {
        assert s[i] == a[i];
        assert s[i + 1..] == a[i + 1..] + b;
        CoversExtend(a[i + 1..], b, ITBlockSize(a[i].op.mask));
      } else {
        assert s[i] == b[i - |a|];
        assert s[i + 1..] == b[i - |a| + 1..];
      }
    }
  }

  lemma WFSuffix(s: seq<Instr>, i: nat)
    requires WellFormedITs(s) && i <= |s|
    ensures WellFormedITs(s[i..])
  {
    var t := s[i..];
    forall j | 0 <= j < |t| && IsIT(t[j])
      ensures ValidMask(t[j].op.mask) && CoversSeq(t[j + 1..], ITBlockSize(t[j].op.mask))
    {
      assert t[j] == s[i + j];
      assert t[j + 1..] == s[i + j + 1..];
    }
  }

  /** The part of a well-formed block before an IT is well formed: no IT
      block runs into another IT. */
  lemma WFBeforeIT(s: seq<Instr>, p: nat)
    requires WellFormedITs(s) && p < |s| && IsIT(s[p])
    ensures WellFormedITs(s[..p])
  {
    var a := s[..p];
    forall i | 0 <= i < |a| && IsIT(a[i])
      ensures ValidMask(a[i].op.mask) && CoversSeq(a[i + 1..], ITBlockSize(a[i].op.mask))
    {
      assert a[i] == s[i];
      assert s[i + 1..] == a[i + 1..] + s[p..];
      CoversSplit(a[i + 1..], s[p..], ITBlockSize(s[i].op.mask));
      assert s[p..][0] == s[p];
    }
  }

  /** The part of a well-formed block before an instruction that is in no
      IT block, up to and including it, is well formed. */
  lemma WFUncovered(s: seq<Instr>, q: nat)
    requires WellFormedITs(s) && q < |s| && !IsMeta(s[q]) && !IsIT(s[q])
    requires FindIT(s, q).None?
    ensures WellFormedITs(s[..q + 1])
  {
    WFUncoveredBefore(s, q);
    var a := s[..q + 1];
    forall i | 0 <= i < |a| && IsIT(a[i])
      ensures ValidMask(a[i].op.mask) && CoversSeq(a[i + 1..], ITBlockSize(a[i].op.mask))
    {
      assert a[i] == s[i];
      var k := ITBlockSize(s[i].op.mask);
      assert s[i + 1..] == a[i + 1..] + s[q + 1..];
      CoversSplit(a[i + 1..], s[q + 1..], k);
      if !CoversSeq(a[i + 1..], k) {
        assert a[i + 1..] == s[i + 1..q + 1];
        assert s[i + 1..q + 1][q - i - 1] == s[q];
        CodeAtEnd(s[i + 1..q + 1]);
        FindITComplete(s, q, i);
        assert false;
      }
    }
  }

  /** The same, up to but excluding that instruction. */
  lemma WFUncoveredBefore(s: seq<Instr>, q: nat)
    requires WellFormedITs(s) && q < |s| && !IsMeta(s[q]) && !IsIT(s[q])
    requires FindIT(s, q).None?
    ensures WellFormedITs(s[..q])
  {
    var a := s[..q];
    forall i | 0 <= i < |a| && IsIT(a[i])
      ensures ValidMask(a[i].op.mask) && CoversSeq(a[i + 1..], ITBlockSize(a[i].op.mask))
    {
      assert a[i] == s[i];
      var k := ITBlockSize(s[i].op.mask);
      assert s[i + 1..] == a[i + 1..] + s[q..];
      CoversSplit(a[i + 1..], s[q..], k);
      if !CoversSeq(a[i + 1..], k) {
        assert a[i + 1..] == s[i + 1..q];
        NoITSliceSnoc(s, i + 1, q);
        CountCodeSliceSnoc(s, i + 1, q);
        FindITComplete(s, q, i);
        assert false;
      }
    }
  }

  lemma NoITWF(x: seq<Instr>)
    requires NoIT(x)
    ensures WellFormedITs(x)
  {
  }

  /** An IT with a valid mask in front of a well-formed sequence that covers
      its block. */
  lemma WFITHead(it: Instr, t: seq<Instr>)
    requires IsIT(it) && ValidMask(it.op.mask)
    requires CoversSeq(t, ITBlockSize(it.op.mask)) && WellFormedITs(t)
    ensures WellFormedITs([it] + t)
  {
    var s := [it] + t;
    assert s[1..] == t;
    forall i | 0 <= i < |s| && IsIT(s[i])
      ensures ValidMask(s[i].op.mask) && CoversSeq(s[i + 1..], ITBlockSize(s[i].op.mask))
    {
      if i > 0 {
        assert s[i] == t[i - 1];
        assert s[i + 1..] == t[i..];
      }
    }
  }

  /** Coverage of k instructions implies coverage of fewer. */
  lemma {:induction false} CoversMono(t: seq<Instr>, k: nat, k': nat)
    requires CoversSeq(t, k) && k' <= k
    ensures CoversSeq(t, k')
    decreases |t|
  {
    if k' > 0 {
      CoversMono(t[1..], if IsMeta(t[0]) then k else k - 1, if IsMeta(t[0]) then k' else k' - 1);
    }
  }

  /** Instructions without ITs put in front of a covering sequence keep the
      coverage. */
  lemma {:induction false} CoversPrepend(x: seq<Instr>, t: seq<Instr>, k: nat)
    requires NoIT(x) && CoversSeq(t, k)
    ensures CoversSeq(x + t, k)
    decreases |x|
  {
    if x == [] {
      assert x + t == t;
    } else if k > 0 {
      var k' := if IsMeta(x[0]) then k else k - 1;
      assert (x + t)[1..] == x[1..] + t;
      assert NoIT(x[1..]) by {
        forall i | 0 <= i < |x[1..]| ensures !IsIT(x[1..][i]) {
          assert x[1..][i] == x[i + 1];
        }
      }
      CoversMono(t, k, k');
      CoversPrepend(x[1..], t, k');
    }
  }

  lemma NoITConcat(a: seq<Instr>, b: seq<Instr>)
    requires NoIT(a) && NoIT(b)
    ensures NoIT(a + b)
  {
    forall i | 0 <= i < |a + b| ensures !IsIT((a + b)[i]) {
      if i < |a| { assert (a + b)[i] == a[i]; } else { assert (a + b)[i] == b[i - |a|]; }
    }
  }

  lemma NoITSlice(s: seq<Instr>, i: nat, j: nat)
    requires NoIT(s) && i <= j <= |s|
    ensures NoIT(s[i..j])
  {
    forall k | 0 <= k < j - i ensures !IsIT(s[i..j][k]) {
      assert s[i..j][k] == s[i + k];
    }
  }

  /** The fresh IT of a chunk has a valid mask whose block size is the
      chunk's number of tags. */
  lemma ChunkITFacts(chunk: seq<bool>, c: Cond, id: nat)
    requires 1 <= |chunk| <= 4
    ensures IsIT(ChunkIT(chunk, c, id))
    ensures ValidMask(ChunkIT(chunk, c, id).op.mask)
    ensures ITBlockSize(ChunkIT(chunk, c, id).op.mask) == |chunk|
  {
    var t := if !chunk[0] then Flipped(chunk) else chunk;
    DecodeEncode(t);
    TagsOfValid(EncodedMask(t));
  }

  /** The re-covered range is well formed: each fresh IT covers its chunk. */
  lemma {:induction false} RechunkWF(seg: seq<Instr>, tags: seq<bool>, c: Cond, n: nat)
    requires |tags| == CountCode(seg)
    requires seg != [] ==> !IsMeta(seg[|seg| - 1])
    requires NoIT(seg)
    ensures WellFormedITs(Rechunk(seg, tags, c, n).insts)
    decreases |seg|
  {
    if seg != [] {
      RechunkStep(seg, tags, c, n);
      var L := ChunkLen(seg);
      var m := CountCode(seg[..L]);
      NoITSlice(seg, 0, L);
      NoITSlice(seg, L, |seg|);
      assert seg[0..L] == seg[..L] && seg[L..|seg|] == seg[L..];
      RechunkWF(seg[L..], tags[m..], c, n + 1);
      ChunkITFacts(tags[..m], c, n);
      ChunkWF(ChunkIT(tags[..m], c, n), seg[..L], Rechunk(seg[L..], tags[m..], c, n + 1).insts);
    }
  }

  /** One chunk of the re-covered range with its fresh IT in front of a
      well-formed rest. */
  lemma ChunkWF(it: Instr, chunk: seq<Instr>, rest: seq<Instr>)
    requires IsIT(it) && ValidMask(it.op.mask) && ITBlockSize(it.op.mask) == CountCode(chunk)
    requires NoIT(chunk) && WellFormedITs(rest)
    ensures WellFormedITs([it] + chunk + rest)
  {
    CoversAll(chunk, rest);
    NoITWF(chunk);
    WFAppend(chunk, rest);
    WFITHead(it, chunk + rest);
    assert [it] + chunk + rest == [it] + (chunk + rest);
  }

  // ----- insertInstsBefore / insertInstsAfter keep IT blocks well formed -----

  /** The re-covered range holds no IT: it is MI's old IT block and the new
      instructions. */
  lemma SegNoIT(s: seq<Instr>, q: nat, news: seq<Instr>, after: bool, p: nat, d: nat, size: nat,
                s1: seq<Instr>, e: nat)
    requires p < q < |s| && d <= size
    requires NoIT(s[p + 1..q + 1]) && NoIT(news) && CoversSeq(s[q + 1..], size - d)
    requires s1 == Spliced(s, q, news, after) && e == RangeEnd(s, q, |news|, size - d) && e <= |s1|
    ensures NoIT(s1[p + 1..e])
  {
    var t := s[q + 1..];
    var sp := Span(t, size - d);
    SpanCovers(t, size - d);
    if after {
      SegNoITAfter(s, q, news, p, t[..sp], s1, e);
    } else {
      SegNoITBefore(s, q, news, p, t[..sp], s1, e);
    }
  }

  lemma SegNoITAfter(s: seq<Instr>, q: nat, news: seq<Instr>, p: nat, tail: seq<Instr>, s1: seq<Instr>, e: nat)
    requires p < q < |s| && q + 1 + |tail| <= |s| && tail == s[q + 1..q + 1 + |tail|]
    requires NoIT(s[p + 1..q + 1]) && NoIT(news) && NoIT(tail)
    requires s1 == s[..q + 1] + news + s[q + 1..] && e == q + |news| + 1 + |tail|
    ensures NoIT(s1[p + 1..e])
  {
    assert s1[p + 1..e] == s[p + 1..q + 1] + news + tail;
    NoITConcat(s[p + 1..q + 1], news);
    NoITConcat(s[p + 1..q + 1] + news, tail);
  }

  lemma SegNoITBefore(s: seq<Instr>, q: nat, news: seq<Instr>, p: nat, tail: seq<Instr>, s1: seq<Instr>, e: nat)
    requires p < q < |s| && q + 1 + |tail| <= |s| && tail == s[q + 1..q + 1 + |tail|]
    requires NoIT(s[p + 1..q + 1]) && NoIT(news) && NoIT(tail)
    requires s1 == s[..q] + news + s[q..] && e == q + |news| + 1 + |tail|
    ensures NoIT(s1[p + 1..e])
  {
    var mid := s[p + 1..q + 1];
    assert s[p + 1..q] == mid[0..q - p - 1];
    NoITSlice(mid, 0, q - p - 1);
    assert mid[q - p - 1] == s[q];
    assert s[q..q + 1 + |tail|] == [s[q]] + tail;
    assert s1[p + 1..e] == s[p + 1..q] + news + s[q..q + 1 + |tail|] by {
      assert s1[..q] == s[..q];
      assert s1[q..q + |news|] == news;
      assert s1[q + |news|..] == s[q..];
    }
    NoITConcat([s[q]], tail);
    NoITConcat(s[p + 1..q], news);
    NoITConcat(s[p + 1..q] + news, [s[q]] + tail);
  }

  /** Re-covering a range without ITs between two well-formed parts gives
      a well-formed block. */
  lemma RecoverWF(s1: seq<Instr>, p: nat, e: nat, tags: seq<bool>, c: Cond, nid: nat)
    requires p < e <= |s1| && |tags| == CountCode(s1[p + 1..e]) && !IsMeta(s1[e - 1])
    requires WellFormedITs(s1[..p]) && NoIT(s1[p + 1..e]) && WellFormedITs(s1[e..])
    ensures WellFormedITs(Recover(s1, p, e, tags, c, nid).insts)
  {
    var seg := s1[p + 1..e];
    assert seg != [] ==> seg[|seg| - 1] == s1[e - 1];
    RechunkWF(seg, tags, c, nid);
    WFAppend(s1[..p], Rechunk(seg, tags, c, nid).insts);
    WFAppend(s1[..p] + Rechunk(seg, tags, c, nid).insts, s1[e..]);
  }

  /** The parts of the spliced block outside the re-covered range are parts
      of the old block. */
  lemma OutsideWF(s: seq<Instr>, q: nat, news: seq<Instr>, after: bool, p: nat, e: nat, s1: seq<Instr>)
    requires WellFormedITs(s) && p < q < |s| && IsIT(s[p])
    requires s1 == Spliced(s, q, news, after) && q + |news| < e <= |s1|
    ensures WellFormedITs(s1[..p]) && WellFormedITs(s1[e..])
  {
    WFBeforeIT(s, p);
    assert s1[..p] == s[..p];
    WFSuffix(s, e - |news|);
    assert s1[e..] == s[e - |news|..];
  }

  /** The IT case: the prefix before the old IT, the re-covered range and
      the rest of the block are each well formed. */
  lemma InsertInITWF(s: seq<Instr>, q: nat, news: seq<Instr>, after: bool, nid: nat, p: nat, d: nat)
    requires InsertReady(s, q, news, after) && WellFormedITs(s) && NoIT(news)
    requires FindIT(s, q) == Some(ITRef(p, d)) && d > 0
    ensures WellFormedITs(InsertInIT(s, q, news, after, nid, p, d).insts)
  {
    var size := ITBlockSize(s[p].op.mask);
    var s1 := Spliced(s, q, news, after);
    var e := RangeEnd(s, q, |news|, size - d);
    InsertRangeFacts(s, q, news, after, p, d, size, s1, e);
    TagsOfSize(s[p].op.mask);
    var tags := InsertedTags(TagsOf(s[p].op.mask), d, after, CountCode(news));
    InsertInITUnfold(s, q, news, after, nid, p, d, s1, e, tags);
    InsertInITParts(s, q, news, after, p, d, s1, e);
    RecoverWF(s1, p, e, tags, s[p].op.cond, nid);
  }

  /** Around the widened IT block the spliced block is well formed, and
      inside it there is no IT. */
  lemma InsertInITParts(s: seq<Instr>, q: nat, news: seq<Instr>, after: bool, p: nat, d: nat, s1: seq<Instr>, e: nat)
    requires InsertReady(s, q, news, after) && WellFormedITs(s) && NoIT(news)
    requires FindIT(s, q) == Some(ITRef(p, d)) && d > 0
    requires s1 == Spliced(s, q, news, after) && e == RangeEnd(s, q, |news|, ITBlockSize(s[p].op.mask) - d)
    ensures p < e <= |s1| && WellFormedITs(s1[..p]) && NoIT(s1[p + 1..e]) && WellFormedITs(s1[e..])
  {
    var size := ITBlockSize(s[p].op.mask);
    InsertRangeFacts(s, q, news, after, p, d, size, s1, e);
    ReadyFacts(s, q, news, after, p, d, size);
    FindITSound(s, q);
    SegNoIT(s, q, news, after, p, d, size, s1, e);
    OutsideWF(s, q, news, after, p, e, s1);
  }

  /** MI is in no IT block: the new instructions go where no IT block is. */
  lemma InsertUncoveredWF(s: seq<Instr>, q: nat, news: seq<Instr>, after: bool)
    requires InsertReady(s, q, news, after) && WellFormedITs(s) && NoIT(news)
    requires FindIT(s, q).None?
    ensures WellFormedITs(Spliced(s, q, news, after))
  {
    if IsIT(s[q]) {
      FindITSelf(s, q);
    }
    var k := if after then q + 1 else q;
    if after {
      WFUncovered(s, q);
    } else {
      WFUncoveredBefore(s, q);
    }
    NoITWF(news);
    WFSuffix(s, k);
    WFAppend(s[..k], news);
    WFAppend(s[..k] + news, s[k..]);
  }

  /** MI is an IT itself (distance 0): the new instructions go just before
      it, or at the front of its block, which they do not disturb. */
  lemma InsertAtITWF(s: seq<Instr>, q: nat, news: seq<Instr>, after: bool)
    requires InsertReady(s, q, news, after) && WellFormedITs(s) && NoIT(news)
    requires FindIT(s, q).Some? && FindIT(s, q).value.distance == 0
    ensures WellFormedITs(Spliced(s, q, news, after))
  {
    FindITSound(s, q);
    WFBeforeIT(s, q);
    NoITWF(news);
    if after {
      var size := ITBlockSize(s[q].op.mask);
      CoversPrepend(news, s[q + 1..], size);
      WFSuffix(s, q + 1);
      WFAppend(news, s[q + 1..]);
      WFITHead(s[q], news + s[q + 1..]);
      WFAppend(s[..q], [s[q]] + (news + s[q + 1..]));
      assert s[..q + 1] + news + s[q + 1..] == s[..q] + ([s[q]] + (news + s[q + 1..]));
    } else {
      WFSuffix(s, q);
      WFAppend(s[..q], news);
      WFAppend(s[..q] + news, s[q..]);
    }
  }

  /** insertInstsBefore / insertInstsAfter keep every IT block of the block
      well formed, provided the new instructions hold no IT. */
  lemma InsertKeepsWF(s: seq<Instr>, q: nat, news: seq<Instr>, after: bool, nid: nat)
    requires InsertReady(s, q, news, after) && WellFormedITs(s) && NoIT(news)
    ensures WellFormedITs(InsertSpec(s, q, news, after, nid).insts)
  {
    match FindIT(s, q)
    case None =>
      InsertUncoveredWF(s, q, news, after);
    case Some(r) =>
      if r.distance == 0 {
        InsertAtITWF(s, q, news, after);
      } else {
        InsertSpecInIT(s, q, news, after, nid, r.pos, r.distance);
        InsertInITWF(s, q, news, after, nid, r.pos, r.distance);
      }
  }

  // ----- removeInst keeps IT blocks well formed -----

  /** An IT re-encoded from a tag sequence covers as many instructions as
      there are tags. */
  lemma ShrunkITFacts(it: Instr, tags: seq<bool>, c: Cond)
    requires 1 <= |tags| <= 4
    ensures var t := if !tags[0] then Flipped(tags) else tags;
      var it' := it.(op := T2IT(c, EncodedMask(t)));
      && IsIT(it') && ValidMask(it'.op.mask) && ITBlockSize(it'.op.mask) == |tags|
  {
    var t := if !tags[0] then Flipped(tags) else tags;
    DecodeEncode(t);
    TagsOfValid(EncodedMask(t));
  }

  /** The pieces of a block around an instruction q at distance d inside
      the IT block at p of the given size: what lies before p is well
      formed, p + 1 to q holds no IT and d - 1 instructions that emit code,
      and what follows q is well formed and covers the rest of the block. */
  predicate InITParts(s: seq<Instr>, p: nat, q: nat, d: nat, size: nat)
  {
    && p < q < |s| && 1 <= d <= size
    && WellFormedITs(s[..p]) && NoIT(s[p + 1..q]) && CountCode(s[p + 1..q]) == d - 1
    && WellFormedITs(s[q + 1..]) && CoversSeq(s[q + 1..], size - d)
  }

  /** The pieces around an instruction that removeInst finds in an IT
      block. */
  lemma CoveredParts(s: seq<Instr>, q: nat)
    requires RemoveReady(s, q) && WellFormedITs(s) && FindIT(s, q).Some?
    ensures var r := FindIT(s, q).value;
      IsIT(s[r.pos]) && InITParts(s, r.pos, q, r.distance, ITBlockSize(s[r.pos].op.mask))
  {
    CoveredDistance(s, q);
    FindITSound(s, q);
    var r := FindIT(s, q).value;
    DistanceFacts(s, q, r.pos, r.distance);
    InsideCovers(s, q);
    assert s[r.pos + 1..q] == s[r.pos + 1..q + 1][0..q - r.pos - 1];
    NoITSlice(s[r.pos + 1..q + 1], 0, q - r.pos - 1);
    WFBeforeIT(s, r.pos);
    WFSuffix(s, q + 1);
  }

  /** Erasing MI and its one-instruction IT block. */
  lemma RemoveEraseWF(s: seq<Instr>, p: nat, q: nat, d: nat, size: nat)
    requires InITParts(s, p, q, d, size)
    ensures var s1 := s[..q] + s[q + 1..]; WellFormedITs(s1[..p] + s1[p + 1..])
  {
    var s1 := s[..q] + s[q + 1..];
    assert s1[..p] + s1[p + 1..] == s[..p] + s[p + 1..q] + s[q + 1..];
    NoITWF(s[p + 1..q]);
    WFAppend(s[..p], s[p + 1..q]);
    WFAppend(s[..p] + s[p + 1..q], s[q + 1..]);
  }

  /** Removing MI from an IT block of size + 1 instructions and giving the
      IT the mask of size instructions. */
  lemma RemoveShrinkWF(s: seq<Instr>, p: nat, q: nat, it': Instr, size: nat, d: nat)
    requires InITParts(s, p, q, d, size + 1)
    requires IsIT(it') && ValidMask(it'.op.mask) && ITBlockSize(it'.op.mask) == size
    ensures var s1 := s[..q] + s[q + 1..]; WellFormedITs(s1[p := it'])
  {
    var mid := s[p + 1..q];
    CoversConcat(mid, s[q + 1..], size);
    NoITWF(mid);
    WFAppend(mid, s[q + 1..]);
    WFITHead(it', mid + s[q + 1..]);
    WFAppend(s[..p], [it'] + (mid + s[q + 1..]));
    var s1 := s[..q] + s[q + 1..];
    assert s1[p := it'] == s[..p] + ([it'] + (mid + s[q + 1..]));
  }

  /** removeInst inside an IT block. */
  lemma RemoveInITWF(s: seq<Instr>, q: nat)
    requires RemoveReady(s, q) && WellFormedITs(s) && FindIT(s, q).Some?
    ensures WellFormedITs(RemoveSpec(s, q))
  {
    CoveredParts(s, q);
    var r := FindIT(s, q).value;
    var p, d := r.pos, r.distance;
    var it := s[p].op;
    var size := ITBlockSize(it.mask);
    TagsOfValid(it.mask);
    var tags0 := TagsOf(it.mask);
    var tags := tags0[..d - 1] + tags0[d..];
    if tags == [] {
      RemoveEraseWF(s, p, q, d, size);
    } else {
      var c := if !tags[0] then Opposite(it.cond) else it.cond;
      ShrunkITFacts(s[p], tags, c);
      var t := if !tags[0] then Flipped(tags) else tags;
      RemoveShrinkWF(s, p, q, s[p].(op := T2IT(c, EncodedMask(t))), |tags|, d);
    }
  }

  /** removeInst keeps every IT block of the block well formed. */
  lemma RemoveKeepsWF(s: seq<Instr>, q: nat)
    requires RemoveReady(s, q) && WellFormedITs(s)
    ensures WellFormedITs(RemoveSpec(s, q))
  {
    if FindIT(s, q).None? {
      WFUncoveredBefore(s, q);
      WFSuffix(s, q + 1);
      WFAppend(s[..q], s[q + 1..]);
    } else {
      RemoveInITWF(s, q);
    }
  }
}
