/**
 * IT blocks as a derived view of a basic block: locating the IT that covers
 * an instruction (findIT), the coverage of an IT, the well-formedness of all
 * IT blocks of a block, and the condition under which an instruction runs.
 */
module ITBlocks {
  import opened ITMask
  import opened MachineIR

  /** An IT found for an instruction: its index and its distance, the number
      of non-meta instructions from just after the IT up to the instruction
      (0 when the instruction is the IT itself). */
  datatype ITRef = ITRef(pos: nat, distance: nat)

  /** One step of findIT's backward walk from index j, having counted dist
      non-meta instructions; j == -1 is the null predecessor. */
  function WalkBack(s: seq<Instr>, j: int, dist: nat): (r: Option<ITRef>)
    requires -1 <= j < |s|
    requires MasksValid(s)
    ensures r.Some? ==> r.value.pos <= j && IsIT(s[r.value.pos])
    ensures r.Some? ==> dist <= r.value.distance < 5 && r.value.distance <= ITBlockSize(s[r.value.pos].op.mask)
    decreases j + 1
  {
    if j < 0 || dist >= 5 then None
    else if IsIT(s[j]) then
      (if ITBlockSize(s[j].op.mask) >= dist then Some(ITRef(j, dist)) else None)
    else WalkBack(s, j - 1, if IsMeta(s[j]) then dist else dist + 1)
  }

  /** findIT: the IT whose block contains instruction j, if any. */
  function FindIT(s: seq<Instr>, j: nat): (r: Option<ITRef>)
    requires j < |s|
    requires MasksValid(s)
    ensures r.Some? ==> r.value.pos <= j && IsIT(s[r.value.pos])
    ensures r.Some? ==> r.value.distance <= 4 && r.value.distance <= ITBlockSize(s[r.value.pos].op.mask)
  {
    WalkBack(s, j, 0)
  }

  /** An IT is found by itself, at distance 0. */
  lemma FindITSelf(s: seq<Instr>, j: nat)
    requires j < |s| && MasksValid(s)
    requires IsIT(s[j])
    ensures FindIT(s, j) == Some(ITRef(j, 0))
  {
    TagsOfValid(s[j].op.mask);
  }

  lemma {:induction false} WalkBackSound(s: seq<Instr>, j: int, dist: nat)
    requires -1 <= j < |s| && MasksValid(s)
    requires WalkBack(s, j, dist).Some?
    ensures var r := WalkBack(s, j, dist).value;
      && NoIT(s[r.pos + 1..j + 1])
      && r.distance == dist + CountCode(s[r.pos + 1..j + 1])
    decreases j + 1
  {
    if IsIT(s[j]) {
      WalkBackAtIT(s, j, dist);
    } else {
      var d' := if IsMeta(s[j]) then dist else dist + 1;
      WalkBackPast(s, j, dist);
      WalkBackSound(s, j - 1, d');
      var r := WalkBack(s, j - 1, d').value;
      WalkBackExtend(s, r.pos, j, dist, r.distance);
    }
  }

  /** The walk stops at an IT. */
  lemma WalkBackAtIT(s: seq<Instr>, j: nat, dist: nat)
    requires j < |s| && MasksValid(s) && IsIT(s[j])
    requires WalkBack(s, j, dist).Some?
    ensures WalkBack(s, j, dist).value == ITRef(j, dist)
    ensures NoIT(s[j + 1..j + 1]) && CountCode(s[j + 1..j + 1]) == 0
  {
    assert s[j + 1..j + 1] == [];
  }

  /** The walk passes over an instruction that is not an IT. */
  lemma WalkBackPast(s: seq<Instr>, j: nat, dist: nat)
    requires j < |s| && MasksValid(s) && !IsIT(s[j])
    requires WalkBack(s, j, dist).Some?
    ensures WalkBack(s, j, dist) == WalkBack(s, j - 1, if IsMeta(s[j]) then dist else dist + 1)
  {
  }

  /** One step of the walk: an instruction j that is not an IT joins the
      stretch after the IT at p, and counts when it emits code. */
  lemma WalkBackExtend(s: seq<Instr>, p: nat, j: nat, dist: nat, rd: nat)
    requires p < j < |s| && !IsIT(s[j]) && NoIT(s[p + 1..j])
    requires rd == (if IsMeta(s[j]) then dist else dist + 1) + CountCode(s[p + 1..j])
    ensures NoIT(s[p + 1..j + 1]) && rd == dist + CountCode(s[p + 1..j + 1])
  {
    CountCodeSliceSnoc(s, p + 1, j);
    NoITSliceSnoc(s, p + 1, j);
  }

  lemma NoITSliceSnoc(s: seq<Instr>, a: nat, b: nat)
    requires a <= b < |s| && NoIT(s[a..b]) && !IsIT(s[b])
    ensures NoIT(s[a..b + 1])
  {
    assert s[a..b + 1] == s[a..b] + [s[b]];
  }

  lemma {:induction false} WalkBackComplete(s: seq<Instr>, j: int, dist: nat, p: nat)
    requires -1 <= j < |s| && MasksValid(s)
    requires p <= j && IsIT(s[p]) && NoIT(s[p + 1..j + 1])
    requires dist + CountCode(s[p + 1..j + 1]) < 5
    requires dist + CountCode(s[p + 1..j + 1]) <= ITBlockSize(s[p].op.mask)
    ensures WalkBack(s, j, dist) == Some(ITRef(p, dist + CountCode(s[p + 1..j + 1])))
    decreases j + 1
  {
    if p < j {
      assert s[j] == s[p + 1..j + 1][j - p - 1];
      CountCodeSliceSnoc(s, p + 1, j);
      NoITSlicePrefix(s, p + 1, j);
      WalkBackComplete(s, j - 1, if IsMeta(s[j]) then dist else dist + 1, p);
    }
  }

  lemma NoITSlicePrefix(s: seq<Instr>, a: nat, b: nat)
    requires a <= b < |s| && NoIT(s[a..b + 1])
    ensures NoIT(s[a..b])
  {
    assert s[a..b] == s[a..b + 1][..b - a];
  }

  /** findIT, characterised: it finds the IT at p for instruction j exactly
      when p is the last IT at or before j and the distance (non-meta
      instructions after p up to j) is below 5 and within p's block size. */
  lemma FindITSound(s: seq<Instr>, j: nat)
    requires j < |s| && MasksValid(s)
    requires FindIT(s, j).Some?
    ensures var r := FindIT(s, j).value;
      && r.pos <= j && IsIT(s[r.pos])
      && NoIT(s[r.pos + 1..j + 1])
      && r.distance == CountCode(s[r.pos + 1..j + 1])
      && r.distance <= 4
      && r.distance <= ITBlockSize(s[r.pos].op.mask)
  {
    WalkBackSound(s, j, 0);
  }

  lemma FindITComplete(s: seq<Instr>, j: nat, p: nat)
    requires j < |s| && MasksValid(s)
    requires p <= j && IsIT(s[p]) && NoIT(s[p + 1..j + 1])
    requires CountCode(s[p + 1..j + 1]) <= 4
    requires CountCode(s[p + 1..j + 1]) <= ITBlockSize(s[p].op.mask)
    ensures FindIT(s, j) == Some(ITRef(p, CountCode(s[p + 1..j + 1])))
  {
    WalkBackComplete(s, j, 0, p);
  }

  /** findIT only looks backwards: instructions after j do not matter. */
  lemma {:induction false} WalkBackPrefix(s: seq<Instr>, t: seq<Instr>, j: int, dist: nat)
    requires -1 <= j < |s| && MasksValid(s) && MasksValid(s + t)
    ensures WalkBack(s + t, j, dist) == WalkBack(s, j, dist)
    decreases j + 1
  {
    if j >= 0 && dist < 5 {
      assert (s + t)[j] == s[j];
      if !IsIT(s[j]) {
        WalkBackPrefix(s, t, j - 1, if IsMeta(s[j]) then dist else dist + 1);
      }
    }
  }

  /** The first k non-meta instructions of t exist and, together with the meta
      instructions among them, contain no IT: an IT of size k at t's front
      is complete and does not overlap another IT block. */
  predicate CoversSeq(t: seq<Instr>, k: nat)
    decreases |t|
  {
    k == 0 || (t != [] && !t[0].op.T2IT? && CoversSeq(t[1..], if IsMeta(t[0]) then k else k - 1))
  }

  /** Length of the shortest prefix of t holding k non-meta instructions (all
      of t when it has fewer). */
  function Span(t: seq<Instr>, k: nat): (n: nat)
    ensures n <= |t|
    decreases |t|
  {
    if k == 0 || t == [] then 0 else 1 + Span(t[1..], if IsMeta(t[0]) then k else k - 1)
  }

  function Min(a: nat, b: nat): nat { if a <= b then a else b }

  lemma {:induction false} SpanCount(t: seq<Instr>, k: nat)
    ensures CountCode(t[..Span(t, k)]) == Min(k, CountCode(t))
    decreases |t|
  {
    if k == 0 || t == [] {
      assert t[..0] == [];
    } else {
      var k' := if IsMeta(t[0]) then k else k - 1;
      SpanCount(t[1..], k');
      CountCodePrefixFront(t, Span(t[1..], k'));
      CountCodeFront(t);
    }
  }

  /** A non-empty span ends with a non-meta instruction when t holds enough
      of them, and a span is non-empty when t ends with one. */
  lemma {:induction false} SpanLast(t: seq<Instr>, k: nat)
    ensures Span(t, k) > 0 ==> (k > 0 && t != [] && (CountCode(t) >= k ==> !IsMeta(t[Span(t, k) - 1])))
    ensures 0 < k && 0 < |t| && !IsMeta(t[|t| - 1]) ==> Span(t, k) > 0
    decreases |t|
  {
    if k != 0 && t != [] {
      var k' := if IsMeta(t[0]) then k else k - 1;
      SpanLast(t[1..], k');
      var n := Span(t[1..], k');
      CountCodeCons(t[0], t[1..]);
      assert t == [t[0]] + t[1..];
      if CountCode(t) >= k && n > 0 {
        assert t[Span(t, k) - 1] == t[1..][n - 1];
      }
      if !IsMeta(t[|t| - 1]) && |t| > 1 {
        assert t[1..][|t[1..]| - 1] == t[|t| - 1];
      }
    }
  }

  /** When an IT of size k is complete at t's front, its span holds exactly k
      non-meta instructions, ends with one (if k > 0), and holds no IT. */
  lemma SpanCovers(t: seq<Instr>, k: nat)
    requires CoversSeq(t, k)
    ensures CountCode(t) >= k
    ensures CountCode(t[..Span(t, k)]) == k
    ensures NoIT(t[..Span(t, k)])
    ensures k > 0 ==> Span(t, k) > 0 && !IsMeta(t[Span(t, k) - 1])
  {
    CoversCount(t, k);
    SpanCount(t, k);
    SpanLast(t, k);
    SpanNoIT(t, k);
  }

  /** A covered front holds at least k non-meta instructions. */
  lemma {:induction false} CoversCount(t: seq<Instr>, k: nat)
    requires CoversSeq(t, k)
    ensures CountCode(t) >= k
    decreases |t|
  {
    if k > 0 {
      CoversCount(t[1..], if IsMeta(t[0]) then k else k - 1);
      CountCodeCons(t[0], t[1..]);
      assert t == [t[0]] + t[1..];
    }
  }

  /** The span of a covered front holds no IT. */
  lemma {:induction false} SpanNoIT(t: seq<Instr>, k: nat)
    requires CoversSeq(t, k)
    ensures NoIT(t[..Span(t, k)])
    decreases |t|
  {
    if k > 0 {
      var k' := if IsMeta(t[0]) then k else k - 1;
      SpanNoIT(t[1..], k');
      var n := Span(t[1..], k');
      var u := t[..1 + n];
      forall i | 0 <= i < |u| ensures !IsIT(u[i]) {
        if i > 0 {
          assert u[i] == t[1..][..n][i - 1];
        }
      }
    }
  }

  /** Coverage is kept when the front of t is consumed: after i instructions
      holding c <= k code instructions, k - c remain covered. */
  lemma {:induction false} CoversAdvance(t: seq<Instr>, k: nat, i: nat)
    requires CoversSeq(t, k) && i <= |t|
    requires CountCode(t[..i]) <= k
    ensures CoversSeq(t[i..], k - CountCode(t[..i]))
    decreases i
  {
    if i == 0 {
      assert t[..0] == [] && t[0..] == t;
    } else if k - CountCode(t[..i]) != 0 {
      var k' := if IsMeta(t[0]) then k else k - 1;
      assert t[..i] == [t[0]] + t[1..][..i - 1];
      CountCodeCons(t[0], t[1..][..i - 1]);
      CoversAdvance(t[1..], k', i - 1);
      assert t[1..][i - 1..] == t[i..];
    }
  }

  /** Every IT of s has a valid mask and a complete, non-overlapping block. */
  predicate WellFormedITs(s: seq<Instr>)
  {
    && MasksValid(s)
    && forall p {:trigger IsIT(s[p])} :: 0 <= p < |s| && IsIT(s[p]) ==> CoversSeq(s[p + 1..], ITBlockSize(s[p].op.mask))
  }

  /** In a well-formed block, the instructions of MI's IT block after MI are
      all present: the forward walks of insertInstsBefore/After stay inside
      the block. */
  lemma InsideCovers(s: seq<Instr>, q: nat)
    requires q < |s| && WellFormedITs(s)
    requires FindIT(s, q).Some?
    ensures var r := FindIT(s, q).value;
      CoversSeq(s[q + 1..], ITBlockSize(s[r.pos].op.mask) - r.distance)
  {
    FindITSound(s, q);
    var r := FindIT(s, q).value;
    var t := s[r.pos + 1..];
    assert t[..q - r.pos] == s[r.pos + 1..q + 1];
    CoversAdvance(t, ITBlockSize(s[r.pos].op.mask), q - r.pos);
    assert t[q - r.pos..] == s[q + 1..];
  }
}
