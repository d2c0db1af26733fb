/**
 * Instruction identity. The passes hold pointers to instructions across
 * edits; the model gives every instruction an id and keeps, per block, two
 * facts: no two instructions share an id, and every id is below the
 * function's counter. This module proves that the editor keeps both and
 * keeps every instruction it does not own (the ITs it re-creates, the one
 * it removes) in the block.
 */
module InstrIds {
  import opened ITMask
  import opened MachineIR
  import opened ITBlocks
  import opened ITEditSpec

  /** No two instructions of s share an id. */
  predicate UniqueIds(s: seq<Instr>)
  {
    forall i, j :: 0 <= i < j < |s| ==> s[i].id != s[j].id
  }

  /** Every id of s is below n. */
  predicate IdsBelow(s: seq<Instr>, n: nat)
  {
    forall i :: 0 <= i < |s| ==> s[i].id < n
  }

  /** Every id of s is at least n and below m. */
  predicate IdsIn(s: seq<Instr>, n: nat, m: nat)
  {
    forall i :: 0 <= i < |s| ==> n <= s[i].id < m
  }

  /** No id of a is an id of b. */
  predicate Disjoint(a: seq<Instr>, b: seq<Instr>)
  {
    forall i, j :: 0 <= i < |a| && 0 <= j < |b| ==> a[i].id != b[j].id
  }

  lemma UniqueConcat(a: seq<Instr>, b: seq<Instr>)
    requires UniqueIds(a) && UniqueIds(b) && Disjoint(a, b)
    ensures UniqueIds(a + b)
  {
    forall i, j | 0 <= i < j < |a + b| ensures (a + b)[i].id != (a + b)[j].id {
      if j < |a| {
        assert (a + b)[i] == a[i] && (a + b)[j] == a[j];
      } else if i >= |a| {
        assert (a + b)[i] == b[i - |a|] && (a + b)[j] == b[j - |a|];
      } else {
        assert (a + b)[i] == a[i] && (a + b)[j] == b[j - |a|];
      }
    }
  }

  lemma UniqueSlice(s: seq<Instr>, i: nat, j: nat)
    requires UniqueIds(s) && i <= j <= |s|
    ensures UniqueIds(s[i..j])
  {
    forall a, b | 0 <= a < b < j - i ensures s[i..j][a].id != s[i..j][b].id {
      assert s[i..j][a] == s[i + a] && s[i..j][b] == s[i + b];
    }
  }

  /** Two non-overlapping slices of a sequence with unique ids share none. */
  lemma DisjointSlices(s: seq<Instr>, i: nat, j: nat, k: nat, l: nat)
    requires UniqueIds(s) && i <= j <= k <= l <= |s|
    ensures Disjoint(s[i..j], s[k..l])
  {
    forall a, b | 0 <= a < j - i && 0 <= b < l - k ensures s[i..j][a].id != s[k..l][b].id {
      assert s[i..j][a] == s[i + a] && s[k..l][b] == s[k + b];
    }
  }

  lemma IdsBelowSlice(s: seq<Instr>, n: nat, i: nat, j: nat)
    requires IdsBelow(s, n) && i <= j <= |s|
    ensures IdsBelow(s[i..j], n)
  {
    forall a | 0 <= a < j - i ensures s[i..j][a].id < n {
      assert s[i..j][a] == s[i + a];
    }
  }

  lemma IdsBelowConcat(a: seq<Instr>, b: seq<Instr>, n: nat)
    requires IdsBelow(a, n) && IdsBelow(b, n)
    ensures IdsBelow(a + b, n)
  {
    forall i | 0 <= i < |a + b| ensures (a + b)[i].id < n {
      if i < |a| {
        assert (a + b)[i] == a[i];
      } else {
        assert (a + b)[i] == b[i - |a|];
      }
    }
  }

  lemma IdsBelowMono(s: seq<Instr>, n: nat, m: nat)
    requires IdsBelow(s, n) && n <= m
    ensures IdsBelow(s, m)
  {
  }

  // ----- the re-covering loop -----

  /** The IT in front of the first chunk and the chunk: unique, below n + 1. */
  lemma ChunkHeadIds(it: Instr, chunk: seq<Instr>, n: nat)
    requires it.id == n && UniqueIds(chunk) && IdsBelow(chunk, n)
    ensures UniqueIds([it] + chunk) && IdsBelow([it] + chunk, n + 1)
  {
    UniqueConcat([it], chunk);
    IdsBelowConcat([it], chunk, n + 1);
  }

  /** The elements of rest are elements of tail or fresh (at least n + 1),
      so none shares an id with the head: the IT with id n and a chunk that
      precedes tail in a sequence with unique ids below n. */
  lemma ChunkRestDisjoint(seg: seq<Instr>, L: nat, it: Instr, n: nat, rest: seq<Instr>)
    requires L <= |seg| && UniqueIds(seg) && IdsBelow(seg, n) && it.id == n
    requires forall i :: 0 <= i < |rest| ==> rest[i] in seg[L..] || n + 1 <= rest[i].id
    ensures Disjoint([it] + seg[..L], rest)
  {
    var head := [it] + seg[..L];
    forall a, b | 0 <= a < |head| && 0 <= b < |rest| ensures head[a].id != rest[b].id {
      if rest[b] in seg[L..] {
        var m :| 0 <= m < |seg[L..]| && seg[L..][m] == rest[b];
        assert seg[L + m] == rest[b];
        if a > 0 {
          assert head[a] == seg[a - 1];
        }
      } else if a > 0 {
        assert head[a] == seg[a - 1];
      }
    }
  }

  /** One step of Rechunk keeps the chunk and what the rest of the loop
      keeps. */
  lemma ChunkKeeps(seg: seq<Instr>, L: nat, it: Instr, rest: seq<Instr>)
    requires L <= |seg|
    requires forall i :: 0 <= i < |seg[L..]| ==> seg[L..][i] in rest
    ensures forall i :: 0 <= i < |seg| ==> seg[i] in [it] + seg[..L] + rest
  {
    var r := [it] + seg[..L] + rest;
    forall i | 0 <= i < |seg| ensures seg[i] in r {
      if i < L {
        assert r[i + 1] == seg[i];
      } else {
        assert seg[L..][i - L] == seg[i];
      }
    }
  }

  /** Every instruction one step of Rechunk emits is the fresh IT, part of
      the chunk, or emitted by the rest of the loop. */
  lemma ChunkOrigins(seg: seq<Instr>, L: nat, it: Instr, n: nat, rest: seq<Instr>)
    requires L <= |seg| && it.id == n
    requires forall i :: 0 <= i < |rest| ==> rest[i] in seg[L..] || n + 1 <= rest[i].id
    ensures var r := [it] + seg[..L] + rest;
      forall i :: 0 <= i < |r| ==> r[i] in seg || n <= r[i].id
  {
    var r := [it] + seg[..L] + rest;
    forall i | 0 <= i < |r| ensures r[i] in seg || n <= r[i].id {
      if 0 < i <= L {
        assert r[i] == seg[i - 1];
      } else if i > L {
        assert r[i] == rest[i - L - 1];
        if rest[i - L - 1] in seg[L..] {
          var m :| 0 <= m < |seg[L..]| && seg[L..][m] == rest[i - L - 1];
          assert seg[L + m] == r[i];
        }
      }
    }
  }

  /** Unique ids and the bound for one step of Rechunk. */
  lemma ChunkUnique(seg: seq<Instr>, L: nat, it: Instr, n: nat, rest: seq<Instr>, m: nat)
    requires L <= |seg| && it.id == n && UniqueIds(seg) && IdsBelow(seg, n)
    requires UniqueIds(rest) && IdsBelow(rest, m) && n + 1 <= m
    requires forall i :: 0 <= i < |rest| ==> rest[i] in seg[L..] || n + 1 <= rest[i].id
    ensures UniqueIds([it] + seg[..L] + rest) && IdsBelow([it] + seg[..L] + rest, m)
  {
    UniqueSlice(seg, 0, L);
    IdsBelowSlice(seg, n, 0, L);
    assert seg[0..L] == seg[..L];
    ChunkHeadIds(it, seg[..L], n);
    ChunkRestDisjoint(seg, L, it, n, rest);
    UniqueConcat([it] + seg[..L], rest);
    IdsBelowMono([it] + seg[..L], n + 1, m);
    IdsBelowConcat([it] + seg[..L], rest, m);
  }

  /** What RechunkIds states about the output r and counter m of the loop
      on seg from counter n. */
  predicate FreshRechunk(seg: seq<Instr>, n: nat, r: seq<Instr>, m: nat)
  {
    && n <= m && UniqueIds(r) && IdsBelow(r, m)
    && (forall i :: 0 <= i < |r| ==> r[i] in seg || n <= r[i].id)
  }

  lemma ChunkFresh(seg: seq<Instr>, L: nat, it: Instr, n: nat, rest: seq<Instr>, m: nat)
    requires L <= |seg| && it.id == n && UniqueIds(seg) && IdsBelow(seg, n)
    requires FreshRechunk(seg[L..], n + 1, rest, m)
    ensures FreshRechunk(seg, n, [it] + seg[..L] + rest, m)
  {
    ChunkUnique(seg, L, it, n, rest, m);
    ChunkOrigins(seg, L, it, n, rest);
  }

  /** Rechunk adds only ITs with fresh ids from nextId on, and keeps ids
      unique and below its new counter. */
  lemma {:induction false} RechunkIds(seg: seq<Instr>, tags: seq<bool>, c: Cond, n: nat)
    requires |tags| == CountCode(seg)
    requires seg != [] ==> !IsMeta(seg[|seg| - 1])
    requires UniqueIds(seg) && IdsBelow(seg, n)
    ensures FreshRechunk(seg, n, Rechunk(seg, tags, c, n).insts, Rechunk(seg, tags, c, n).nextId)
    decreases |seg|
  {
    if seg != [] {
      var L, k := RestIds(seg, tags, c, n);
      RechunkIds(seg[L..], tags[k..], c, n + 1);
      RechunkIdsStep(seg, tags, c, n);
    }
  }

  /** The first chunk's length and tag count, and the facts the rest needs. */
  lemma RestIds(seg: seq<Instr>, tags: seq<bool>, c: Cond, n: nat) returns (L: nat, k: nat)
    requires |tags| == CountCode(seg) && seg != [] && !IsMeta(seg[|seg| - 1])
    requires UniqueIds(seg) && IdsBelow(seg, n)
    ensures L == ChunkLen(seg) && k == CountCode(seg[..L]) && k <= |tags|
    ensures |tags[k..]| == CountCode(seg[L..]) && (seg[L..] != [] ==> !IsMeta(seg[L..][|seg[L..]| - 1]))
    ensures UniqueIds(seg[L..]) && IdsBelow(seg[L..], n + 1)
  {
    RechunkStep(seg, tags, c, n);
    L := ChunkLen(seg);
    k := CountCode(seg[..L]);
    assert seg[L..] == seg[L..|seg|];
    UniqueSlice(seg, L, |seg|);
    IdsBelowSlice(seg, n, L, |seg|);
    IdsBelowMono(seg[L..], n, n + 1);
  }

  lemma RechunkIdsStep(seg: seq<Instr>, tags: seq<bool>, c: Cond, n: nat)
    requires |tags| == CountCode(seg) && seg != [] && !IsMeta(seg[|seg| - 1])
    requires UniqueIds(seg) && IdsBelow(seg, n)
    requires var L := ChunkLen(seg); var k := CountCode(seg[..L]);
      k <= |tags| && |tags[k..]| == CountCode(seg[L..]) && (seg[L..] != [] ==> !IsMeta(seg[L..][|seg[L..]| - 1])) &&
      FreshRechunk(seg[L..], n + 1, Rechunk(seg[L..], tags[k..], c, n + 1).insts, Rechunk(seg[L..], tags[k..], c, n + 1).nextId)
    ensures FreshRechunk(seg, n, Rechunk(seg, tags, c, n).insts, Rechunk(seg, tags, c, n).nextId)
  {
    RechunkStep(seg, tags, c, n);
    var L := ChunkLen(seg);
    var k := CountCode(seg[..L]);
    var rest := Rechunk(seg[L..], tags[k..], c, n + 1);
    ChunkFresh(seg, L, ChunkIT(tags[..k], c, n), n, rest.insts, rest.nextId);
  }

  /** Rechunk keeps every instruction of the range. */
  lemma {:induction false} RechunkKeeps(seg: seq<Instr>, tags: seq<bool>, c: Cond, n: nat)
    requires |tags| == CountCode(seg)
    requires seg != [] ==> !IsMeta(seg[|seg| - 1])
    ensures forall i :: 0 <= i < |seg| ==> seg[i] in Rechunk(seg, tags, c, n).insts
    decreases |seg|
  {
    if seg != [] {
      RechunkStep(seg, tags, c, n);
      var L := ChunkLen(seg);
      var k := CountCode(seg[..L]);
      RechunkKeeps(seg[L..], tags[k..], c, n + 1);
      ChunkKeeps(seg, L, ChunkIT(tags[..k], c, n), Rechunk(seg[L..], tags[k..], c, n + 1).insts);
    }
  }

  // ----- splicing, re-covering and removing -----

  /** Dropping the element at k keeps ids unique and below n. */
  lemma DropIds(s: seq<Instr>, k: nat, n: nat)
    requires k < |s| && UniqueIds(s) && IdsBelow(s, n)
    ensures UniqueIds(s[..k] + s[k + 1..]) && IdsBelow(s[..k] + s[k + 1..], n)
  {
    UniqueSlice(s, 0, k);
    UniqueSlice(s, k + 1, |s|);
    DisjointSlices(s, 0, k, k + 1, |s|);
    assert s[0..k] == s[..k] && s[k + 1..|s|] == s[k + 1..];
    UniqueConcat(s[..k], s[k + 1..]);
    IdsBelowSlice(s, n, 0, k);
    IdsBelowSlice(s, n, k + 1, |s|);
    IdsBelowConcat(s[..k], s[k + 1..], n);
  }

  /** Dropping the element at k keeps every other one. */
  lemma DropKeeps(s: seq<Instr>, k: nat)
    requires k < |s|
    ensures forall i :: 0 <= i < |s| && i != k ==> s[i] in s[..k] + s[k + 1..]
  {
    forall i | 0 <= i < |s| && i != k ensures s[i] in s[..k] + s[k + 1..] {
      if i < k {
        assert (s[..k] + s[k + 1..])[i] == s[i];
      } else {
        assert (s[..k] + s[k + 1..])[i - 1] == s[i];
      }
    }
  }

  /** Splicing in fresh instructions, with ids from n0 on, keeps ids unique
      and below the counter n1 that follows them. */
  lemma SpliceIds(s: seq<Instr>, k: nat, news: seq<Instr>, n0: nat, n1: nat)
    requires k <= |s| && UniqueIds(s) && IdsBelow(s, n0)
    requires UniqueIds(news) && IdsIn(news, n0, n1) && n0 <= n1
    ensures UniqueIds(s[..k] + news + s[k..]) && IdsBelow(s[..k] + news + s[k..], n1)
  {
    UniqueSlice(s, 0, k);
    UniqueSlice(s, k, |s|);
    DisjointSlices(s, 0, k, k, |s|);
    assert s[0..k] == s[..k] && s[k..|s|] == s[k..];
    IdsBelowSlice(s, n0, 0, k);
    IdsBelowSlice(s, n0, k, |s|);
    UniqueConcat(s[..k], news);
    assert Disjoint(s[..k] + news, s[k..]) by {
      forall a, b | 0 <= a < |s[..k] + news| && 0 <= b < |s[k..]|
        ensures (s[..k] + news)[a].id != s[k..][b].id
      {
        if a < k {
          assert (s[..k] + news)[a] == s[..k][a];
        } else {
          assert (s[..k] + news)[a] == news[a - k];
        }
      }
    }
    UniqueConcat(s[..k] + news, s[k..]);
    IdsBelowMono(s[..k], n0, n1);
    IdsBelowMono(s[k..], n0, n1);
    IdsBelowConcat(s[..k], news, n1);
    IdsBelowConcat(s[..k] + news, s[k..], n1);
  }

  /** The ids of a slice of s, outside the index range [lo, hi), differ
      from those of r, whose elements come from s[lo..hi] or are fresh. */
  lemma OutsideDisjoint(s: seq<Instr>, lo: nat, hi: nat, a0: nat, a1: nat, r: seq<Instr>, n: nat)
    requires lo <= hi <= |s| && a0 <= a1 <= |s| && (a1 <= lo || hi <= a0)
    requires UniqueIds(s) && IdsBelow(s, n)
    requires forall i :: 0 <= i < |r| ==> r[i] in s[lo..hi] || n <= r[i].id
    ensures Disjoint(s[a0..a1], r)
  {
    forall a, b | 0 <= a < a1 - a0 && 0 <= b < |r| ensures s[a0..a1][a].id != r[b].id {
      assert s[a0..a1][a] == s[a0 + a];
      if r[b] in s[lo..hi] {
        var m :| 0 <= m < hi - lo && s[lo..hi][m] == r[b];
        assert s[lo + m] == r[b];
      }
    }
  }

  /** Three parts with unique ids, pairwise disjoint, all below m. */
  lemma Concat3Ids(a: seq<Instr>, r: seq<Instr>, c: seq<Instr>, m: nat)
    requires UniqueIds(a) && UniqueIds(r) && UniqueIds(c)
    requires Disjoint(a, r) && Disjoint(a, c) && Disjoint(r, c)
    requires IdsBelow(a, m) && IdsBelow(r, m) && IdsBelow(c, m)
    ensures UniqueIds(a + r + c) && IdsBelow(a + r + c, m)
  {
    UniqueConcat(a, r);
    assert Disjoint(a + r, c) by {
      forall i, j | 0 <= i < |a + r| && 0 <= j < |c| ensures (a + r)[i].id != c[j].id {
        if i < |a| {
          assert (a + r)[i] == a[i];
        } else {
          assert (a + r)[i] == r[i - |a|];
        }
      }
    }
    UniqueConcat(a + r, c);
    IdsBelowConcat(a, r, m);
    IdsBelowConcat(a + r, c, m);
  }

  /** The parts of the block around a re-covered range: unique, disjoint
      from each other and from the range's fresh output r, below m. */
  lemma AroundIds(s1: seq<Instr>, p: nat, e: nat, r: seq<Instr>, n: nat, m: nat)
    requires p < e <= |s1| && UniqueIds(s1) && IdsBelow(s1, n) && n <= m
    requires forall i :: 0 <= i < |r| ==> r[i] in s1[p + 1..e] || n <= r[i].id
    ensures UniqueIds(s1[..p]) && UniqueIds(s1[e..])
    ensures Disjoint(s1[..p], r) && Disjoint(s1[..p], s1[e..]) && Disjoint(r, s1[e..])
    ensures IdsBelow(s1[..p], m) && IdsBelow(s1[e..], m)
  {
    UniqueSlice(s1, 0, p);
    UniqueSlice(s1, e, |s1|);
    assert s1[0..p] == s1[..p] && s1[e..|s1|] == s1[e..];
    OutsideDisjoint(s1, p + 1, e, 0, p, r, n);
    OutsideDisjoint(s1, p + 1, e, e, |s1|, r, n);
    DisjointSlices(s1, 0, p, e, |s1|);
    IdsBelowSlice(s1, n, 0, p);
    IdsBelowSlice(s1, n, e, |s1|);
  }

  /** Recover keeps ids unique and below its new counter. */
  lemma RecoverIds(s1: seq<Instr>, p: nat, e: nat, tags: seq<bool>, c: Cond, n: nat)
    requires p < e <= |s1| && |tags| == CountCode(s1[p + 1..e]) && !IsMeta(s1[e - 1])
    requires UniqueIds(s1) && IdsBelow(s1, n)
    ensures var r := Recover(s1, p, e, tags, c, n);
      n <= r.nextId && UniqueIds(r.insts) && IdsBelow(r.insts, r.nextId)
  {
    var seg := s1[p + 1..e];
    assert seg != [] ==> seg[|seg| - 1] == s1[e - 1];
    UniqueSlice(s1, p + 1, e);
    IdsBelowSlice(s1, n, p + 1, e);
    RechunkIds(seg, tags, c, n);
    var R := Rechunk(seg, tags, c, n);
    AroundIds(s1, p, e, R.insts, n, R.nextId);
    Concat3Ids(s1[..p], R.insts, s1[e..], R.nextId);
  }

  /** Recover keeps every instruction but the old IT at p. */
  lemma RecoverKeeps(s1: seq<Instr>, p: nat, e: nat, tags: seq<bool>, c: Cond, n: nat)
    requires p < e <= |s1| && |tags| == CountCode(s1[p + 1..e]) && !IsMeta(s1[e - 1])
    ensures forall i :: 0 <= i < |s1| && i != p ==> s1[i] in Recover(s1, p, e, tags, c, n).insts
  {
    var seg := s1[p + 1..e];
    assert seg != [] ==> seg[|seg| - 1] == s1[e - 1];
    RechunkKeeps(seg, tags, c, n);
    KeptAround(s1, p, e, seg, Rechunk(seg, tags, c, n).insts);
  }

  /** Replacing s1[p..e] by R keeps every instruction but s1[p] when R
      holds every instruction of seg, which is s1[p + 1..e]. */
  lemma KeptAround(s1: seq<Instr>, p: nat, e: nat, seg: seq<Instr>, R: seq<Instr>)
    requires p < e <= |s1| && seg == s1[p + 1..e]
    requires forall i :: 0 <= i < |seg| ==> seg[i] in R
    ensures forall i :: 0 <= i < |s1| && i != p ==> s1[i] in s1[..p] + R + s1[e..]
  {
    var out := s1[..p] + R + s1[e..];
    forall i | 0 <= i < |s1| && i != p ensures s1[i] in out {
      if i < p {
        assert out[i] == s1[i];
      } else if i < e {
        assert seg[i - p - 1] == s1[i];
      } else {
        assert out[p + |R| + (i - e)] == s1[i];
      }
    }
  }

  // ----- insertInstsBefore / insertInstsAfter and removeInst -----

  /** The IT case of insertion keeps ids unique and below the counter. */
  lemma InsertInITIds(s: seq<Instr>, q: nat, news: seq<Instr>, after: bool, n: nat, p: nat, d: nat)
    requires InsertReady(s, q, news, after)
    requires FindIT(s, q) == Some(ITRef(p, d)) && d > 0
    requires UniqueIds(Spliced(s, q, news, after)) && IdsBelow(Spliced(s, q, news, after), n)
    ensures var r := InsertInIT(s, q, news, after, n, p, d);
      n <= r.nextId && UniqueIds(r.insts) && IdsBelow(r.insts, r.nextId)
  {
    var size := ITBlockSize(s[p].op.mask);
    var s1 := Spliced(s, q, news, after);
    var e := RangeEnd(s, q, |news|, size - d);
    InsertRangeFacts(s, q, news, after, p, d, size, s1, e);
    TagsOfSize(s[p].op.mask);
    var tags := InsertedTags(TagsOf(s[p].op.mask), d, after, CountCode(news));
    InsertInITUnfold(s, q, news, after, n, p, d, s1, e, tags);
    RecoverIds(s1, p, e, tags, s[p].op.cond, n);
  }

  /** The IT case of insertion keeps every instruction of the spliced
      block but the old IT. */
  lemma InsertInITKeeps(s: seq<Instr>, q: nat, news: seq<Instr>, after: bool, n: nat, p: nat, d: nat)
    requires InsertReady(s, q, news, after)
    requires FindIT(s, q) == Some(ITRef(p, d)) && d > 0
    ensures var s1 := Spliced(s, q, news, after);
      && p < |s1| && IsIT(s1[p])
      && forall i :: 0 <= i < |s1| && i != p ==> s1[i] in InsertInIT(s, q, news, after, n, p, d).insts
  {
    var size := ITBlockSize(s[p].op.mask);
    var s1 := Spliced(s, q, news, after);
    var e := RangeEnd(s, q, |news|, size - d);
    InsertRangeFacts(s, q, news, after, p, d, size, s1, e);
    TagsOfSize(s[p].op.mask);
    var tags := InsertedTags(TagsOf(s[p].op.mask), d, after, CountCode(news));
    InsertInITUnfold(s, q, news, after, n, p, d, s1, e, tags);
    RecoverKeeps(s1, p, e, tags, s[p].op.cond, n);
    FindITSound(s, q);
    assert s1[p] == s[p];
  }

  /** insertInstsBefore / insertInstsAfter keep ids unique and below the
      counter, given new instructions with fresh ids from n0 to n1. */
  lemma InsertIds(s: seq<Instr>, q: nat, news: seq<Instr>, after: bool, n0: nat, n1: nat)
    requires InsertReady(s, q, news, after)
    requires UniqueIds(s) && IdsBelow(s, n0) && UniqueIds(news) && IdsIn(news, n0, n1) && n0 <= n1
    ensures var r := InsertSpec(s, q, news, after, n1);
      n1 <= r.nextId && UniqueIds(r.insts) && IdsBelow(r.insts, r.nextId)
  {
    SpliceIds(s, if after then q + 1 else q, news, n0, n1);
    match FindIT(s, q)
    case None =>
    case Some(r) =>
      if r.distance > 0 {
        InsertSpecInIT(s, q, news, after, n1, r.pos, r.distance);
        InsertInITIds(s, q, news, after, n1, r.pos, r.distance);
      }
  }

  /** The spliced block holds the old instructions and the new ones. */
  lemma SplicedHolds(s: seq<Instr>, q: nat, news: seq<Instr>, after: bool)
    requires q < |s|
    ensures var k := if after then q + 1 else q;
      var s1 := Spliced(s, q, news, after);
      && (forall i :: 0 <= i < k ==> s1[i] == s[i])
      && (forall i :: k <= i < |s| ==> s1[i + |news|] == s[i])
      && (forall i :: 0 <= i < |news| ==> s1[k + i] == news[i])
  {
  }

  /** insertInstsBefore / insertInstsAfter keep every old instruction but
      the IT they re-create, and add the new ones that are not ITs. */
  lemma InsertKeeps(s: seq<Instr>, q: nat, news: seq<Instr>, after: bool, n: nat)
    requires InsertReady(s, q, news, after)
    ensures var r := InsertSpec(s, q, news, after, n).insts;
      && (forall i :: 0 <= i < |s| && !IsIT(s[i]) ==> s[i] in r)
      && (forall i :: 0 <= i < |news| && !IsIT(news[i]) ==> news[i] in r)
  {
    var k := if after then q + 1 else q;
    var s1 := Spliced(s, q, news, after);
    var out := InsertSpec(s, q, news, after, n).insts;
    match FindIT(s, q)
    case None =>
      KeptFromSplice(s, news, k, s1, out, |s1|);
    case Some(r) =>
      if r.distance == 0 {
        KeptFromSplice(s, news, k, s1, out, |s1|);
      } else {
        InsertSpecInIT(s, q, news, after, n, r.pos, r.distance);
        InsertInITKeeps(s, q, news, after, n, r.pos, r.distance);
        KeptFromSplice(s, news, k, s1, out, r.pos);
      }
  }

  /** Whatever out keeps of s1 (every element but the IT at index skip, or
      all of them when skip is |s1|) it keeps of s and news. */
  lemma KeptFromSplice(s: seq<Instr>, news: seq<Instr>, k: nat, s1: seq<Instr>, out: seq<Instr>, skip: nat)
    requires k <= |s| && s1 == s[..k] + news + s[k..] && skip <= |s1|
    requires skip < |s1| ==> IsIT(s1[skip])
    requires forall i :: 0 <= i < |s1| && i != skip ==> s1[i] in out
    ensures forall i :: 0 <= i < |s| && !IsIT(s[i]) ==> s[i] in out
    ensures forall i :: 0 <= i < |news| && !IsIT(news[i]) ==> news[i] in out
  {
    forall i | 0 <= i < |s| && !IsIT(s[i]) ensures s[i] in out {
      if i < k {
        assert s1[i] == s[i];
      } else {
        assert s1[i + |news|] == s[i];
      }
    }
    forall i | 0 <= i < |news| && !IsIT(news[i]) ensures news[i] in out {
      assert s1[k + i] == news[i];
    }
  }

  /** removeInst keeps ids unique and below the counter. */
  lemma RemoveIds(s: seq<Instr>, q: nat, n: nat)
    requires RemoveReady(s, q) && UniqueIds(s) && IdsBelow(s, n)
    ensures UniqueIds(RemoveSpec(s, q)) && IdsBelow(RemoveSpec(s, q), n)
  {
    DropIds(s, q, n);
    var s1 := s[..q] + s[q + 1..];
    match FindIT(s, q)
    case None =>
    case Some(r) =>
      CoveredDistance(s, q);
      var p := r.pos;
      assert s1[p] == s[p];
      DropIds(s1, p, n);
      forall it: Instr | it.id == s1[p].id ensures UniqueIds(s1[p := it]) && IdsBelow(s1[p := it], n) {
        assert forall i :: 0 <= i < |s1| ==> s1[p := it][i].id == s1[i].id;
      }
  }

  /** removeInst keeps every instruction but MI and the IT it edits. */
  lemma RemoveKeeps(s: seq<Instr>, q: nat)
    requires RemoveReady(s, q)
    ensures forall i :: 0 <= i < |s| && i != q && !IsIT(s[i]) ==> s[i] in RemoveSpec(s, q)
  {
    DropKeeps(s, q);
    var s1 := s[..q] + s[q + 1..];
    match FindIT(s, q)
    case None =>
    case Some(r) =>
      CoveredDistance(s, q);
      FindITSound(s, q);
      var p := r.pos;
      assert s1[p] == s[p];
      var out := RemoveSpec(s, q);
      assert forall j :: 0 <= j < |s1| && j != p ==> s1[j] in out by {
        DropKeeps(s1, p);
        forall j | 0 <= j < |s1| && j != p ensures s1[j] in out {
          if out != s1[..p] + s1[p + 1..] {
            assert out[j] == s1[j];
          }
        }
      }
      forall i | 0 <= i < |s| && i != q && !IsIT(s[i]) ensures s[i] in out {
        if i < q {
          assert s1[i] == s[i];
        } else {
          assert s1[i - 1] == s[i];
        }
      }
  }
}
