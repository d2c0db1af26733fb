/**
 * The invariant a block keeps under every edit of the passes: its IT blocks
 * are well formed, its ids are unique and below the function's counter.
 * Together with the facts that the editor keeps every instruction it does
 * not own, this lets a pass find an instruction again, by its id, after
 * editing the block around it.
 */
module BlockInvariant {
  import opened ITMask
  import opened MachineIR
  import opened ITBlocks
  import opened ITEditSpec
  import opened Invariants
  import opened InstrIds
  import opened MachineFunctions

  /** The block invariant, with n the function's id counter. */
  predicate BlockOk(s: seq<Instr>, n: nat)
  {
    WellFormedITs(s) && UniqueIds(s) && IdsBelow(s, n)
  }

  /** In a block whose ids are unique, an instruction is found again by its
      id. */
  lemma FindById(s: seq<Instr>, x: Instr)
    requires x in s && UniqueIds(s)
    ensures IndexOf(s, x.id).Some? && s[IndexOf(s, x.id).value] == x
  {
    var i :| 0 <= i < |s| && s[i] == x;
    assert IndexOf(s, x.id).Some?;
  }

  /** Where x sits in s. */
  function Position(s: seq<Instr>, x: Instr): (j: nat)
    requires x in s && UniqueIds(s)
    ensures j < |s| && s[j] == x
  {
    FindById(s, x);
    IndexOf(s, x.id).value
  }

  /** A well-formed block lets the editor insert at any instruction that
      emits code: the rest of its IT block is present; the "after" form
      needs a non-empty list ending with an instruction that emits code. */
  lemma ReadyFromWF(s: seq<Instr>, q: nat, news: seq<Instr>, after: bool)
    requires WellFormedITs(s) && q < |s| && !IsMeta(s[q])
    requires after ==> news != [] && !IsMeta(news[|news| - 1])
    ensures InsertReady(s, q, news, after)
  {
    if FindIT(s, q).Some? {
      InsideCovers(s, q);
    }
  }

  /** Insertion keeps the invariant when the new instructions hold no IT
      and have unique ids from n0 to n1. */
  lemma InsertKeepsOk(s: seq<Instr>, q: nat, news: seq<Instr>, after: bool, n0: nat, n1: nat)
    requires InsertReady(s, q, news, after) && BlockOk(s, n0)
    requires NoIT(news) && UniqueIds(news) && IdsIn(news, n0, n1) && n0 <= n1
    ensures var r := InsertSpec(s, q, news, after, n1);
      n1 <= r.nextId && BlockOk(r.insts, r.nextId)
  {
    InsertKeepsWF(s, q, news, after, n1);
    InsertIds(s, q, news, after, n0, n1);
  }

  /** Removal keeps the invariant. */
  lemma RemoveKeepsOk(s: seq<Instr>, q: nat, n: nat)
    requires RemoveReady(s, q) && BlockOk(s, n)
    ensures BlockOk(RemoveSpec(s, q), n)
  {
    RemoveKeepsWF(s, q);
    RemoveIds(s, q, n);
  }

  /** Coverage looks only at which instructions are ITs and which emit code. */
  lemma {:induction false} CoversSame(t: seq<Instr>, u: seq<Instr>, k: nat)
    requires |t| == |u|
    requires forall i :: 0 <= i < |t| ==> IsIT(t[i]) == IsIT(u[i]) && IsMeta(t[i]) == IsMeta(u[i])
    ensures CoversSeq(t, k) == CoversSeq(u, k)
    decreases |t|
  {
    if k > 0 && t != [] {
      assert forall i :: 0 <= i < |t[1..]| ==> t[1..][i] == t[i + 1] && u[1..][i] == u[i + 1];
      CoversSame(t[1..], u[1..], if IsMeta(t[0]) then k else k - 1);
    }
  }

  /** Changing an instruction that is not an IT into another one with the
      same id that is not an IT either, and emits code exactly when the old
      one did, keeps the invariant and every other instruction. */
  lemma UpdateKeepsOk(s: seq<Instr>, j: nat, x: Instr, n: nat)
    requires j < |s| && BlockOk(s, n)
    requires x.id == s[j].id && !IsIT(x) && !IsIT(s[j]) && IsMeta(x) == IsMeta(s[j])
    ensures BlockOk(s[j := x], n)
    ensures forall i :: 0 <= i < |s| && i != j ==> s[i] in s[j := x]
  {
    var s' := s[j := x];
    forall p | 0 <= p < |s'| && IsIT(s'[p])
      ensures ValidMask(s'[p].op.mask) && CoversSeq(s'[p + 1..], ITBlockSize(s'[p].op.mask))
    {
      assert s'[p] == s[p];
      CoversSame(s[p + 1..], s'[p + 1..], ITBlockSize(s[p].op.mask));
    }
    forall i | 0 <= i < |s| && i != j ensures s[i] in s' {
      assert s'[i] == s[i];
    }
  }

  /** removeInst leaves no instruction with MI's id: what it keeps of the
      block, and the IT it re-encodes, carry the ids of other instructions. */
  lemma RemoveDrops(s: seq<Instr>, q: nat)
    requires RemoveReady(s, q) && UniqueIds(s)
    ensures forall x :: x in RemoveSpec(s, q) ==> x.id != s[q].id
  {
    var s1 := s[..q] + s[q + 1..];
    assert forall x :: x in s1 ==> x.id != s[q].id by {
      forall x | x in s1 ensures x.id != s[q].id {
        var i :| 0 <= i < |s1| && s1[i] == x;
        if i < q {
          assert s1[i] == s[i];
        } else {
          assert s1[i] == s[i + 1];
        }
      }
    }
    match FindIT(s, q)
    case None =>
    case Some(r) =>
      CoveredDistance(s, q);
      var p := r.pos;
      assert s1[p] == s[p];
      forall x | x in RemoveSpec(s, q) ensures x.id != s[q].id {
        if x !in s1 {
          var i :| 0 <= i < |RemoveSpec(s, q)| && RemoveSpec(s, q)[i] == x;
          assert x.id == s[p].id;
        }
      }
  }
}
