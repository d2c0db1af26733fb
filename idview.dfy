/**
 * The editor's operations seen through the view of a block (what each
 * instruction runs under, in order), when the instruction edited is named
 * by its id, as the passes name it after earlier edits have moved it: an
 * in-place change, insertion after it and removal each replace its one
 * entry of the view by a list of instructions under the same condition,
 * and leave every other entry where it was.
 */
module IdView {
  import opened MachineIR
  import opened ITBlocks
  import opened ITEditSpec
  import opened InstrIds
  import opened ITState
  import opened EditView

  /** The view v with each entry of instruction id replaced by ys, under
      that entry's condition. */
  function Replace(v: seq<Guarded>, id: nat, ys: seq<Instr>): seq<Guarded>
    decreases |v|
  {
    if v == [] then []
    else (if v[0].inst.id == id then Under(ys, v[0].cond) else [v[0]]) + Replace(v[1..], id, ys)
  }

  /** No entry of v is of instruction id. */
  predicate Absent(v: seq<Guarded>, id: nat)
  {
    forall i :: 0 <= i < |v| ==> v[i].inst.id != id
  }

  /** No instruction of u has id. */
  predicate IdFree(u: seq<Instr>, id: nat)
  {
    forall i :: 0 <= i < |u| ==> u[i].id != id
  }

  lemma {:induction false} ReplaceAppend(a: seq<Guarded>, b: seq<Guarded>, id: nat, ys: seq<Instr>)
    ensures Replace(a + b, id, ys) == Replace(a, id, ys) + Replace(b, id, ys)
    decreases |a|
  {
    if a == [] {
      assert a + b == b;
    } else {
      assert (a + b)[0] == a[0] && (a + b)[1..] == a[1..] + b;
      ReplaceAppend(a[1..], b, id, ys);
    }
  }

  /** Replacing an id the view does not hold changes nothing. */
  lemma {:induction false} ReplaceAbsent(v: seq<Guarded>, id: nat, ys: seq<Instr>)
    requires Absent(v, id)
    ensures Replace(v, id, ys) == v
    decreases |v|
  {
    if v != [] {
      assert v[0].inst.id != id;
      ReplaceAbsent(v[1..], id, ys);
      assert [v[0]] + v[1..] == v;
    }
  }

  /** The entries of a view are instructions of the code viewed. */
  lemma {:induction false} ViewFromAbsent(u: seq<Instr>, st: seq<Cond>, id: nat)
    requires IdFree(u, id)
    ensures Absent(ViewFrom(u, st), id)
    decreases |u|
  {
    if u != [] {
      assert u[0].id != id;
      ViewFromAbsent(u[1..], Step(st, u[0]), id);
    }
  }

  lemma {:induction false} UnderAbsent(u: seq<Instr>, c: Option<Cond>, id: nat)
    requires IdFree(u, id)
    ensures Absent(Under(u, c), id)
    decreases |u|
  {
    if u != [] {
      assert u[0].id != id;
      UnderAbsent(u[1..], c, id);
    }
  }

  lemma {:induction false} UnderAppend(a: seq<Instr>, b: seq<Instr>, c: Option<Cond>)
    ensures Under(a + b, c) == Under(a, c) + Under(b, c)
    decreases |a|
  {
    if a == [] {
      assert a + b == b;
    } else {
      assert (a + b)[0] == a[0] && (a + b)[1..] == a[1..] + b;
      UnderAppend(a[1..], b, c);
    }
  }

  /** One instruction that emits code, under c. */
  lemma UnderOne(x: Instr, c: Option<Cond>)
    requires !IsIT(x) && !IsMeta(x)
    ensures Under([x], c) == [Guarded(x, c)]
  {
    assert [x][1..] == [];
  }

  lemma AbsentAppend(a: seq<Guarded>, b: seq<Guarded>, id: nat)
    requires Absent(a, id) && Absent(b, id)
    ensures Absent(a + b, id)
  {
  }

  lemma ReplaceOne(g: Guarded, id: nat, ys: seq<Instr>)
    requires g.inst.id == id
    ensures Replace([g], id, ys) == Under(ys, g.cond)
  {
    assert [g][1..] == [];
  }

  /** Replacing an id held only between two parts that do not hold it. */
  lemma ReplaceIn(P: seq<Guarded>, M: seq<Guarded>, S: seq<Guarded>, id: nat, ys: seq<Instr>)
    requires Absent(P, id) && Absent(S, id)
    ensures Replace(P + M + S, id, ys) == P + Replace(M, id, ys) + S
  {
    ReplaceAppend(P + M, S, id, ys);
    ReplaceAppend(P, M, id, ys);
    ReplaceAbsent(P, id, ys);
    ReplaceAbsent(S, id, ys);
  }

  /** Replacing the one entry of id between two parts that do not hold it. */
  lemma ReplaceMid(X: seq<Guarded>, g: Guarded, Y: seq<Guarded>, id: nat, ys: seq<Instr>)
    requires Absent(X, id) && Absent(Y, id) && g.inst.id == id
    ensures Replace(X + [g] + Y, id, ys) == X + Under(ys, g.cond) + Y
  {
    ReplaceIn(X, [g], Y, id, ys);
    ReplaceOne(g, id, ys);
  }

  lemma Regroup5(P: seq<Guarded>, g: Guarded, W: seq<Guarded>, h: Guarded, R: seq<Guarded>)
    ensures P + [g] + W + [h] + R == P + [g] + (W + [h] + R)
  {
  }

  /** The instructions of a block with unique ids, other than the one at j,
      do not carry its id. */
  lemma OthersFree(t: seq<Instr>, j: nat)
    requires j < |t| && UniqueIds(t)
    ensures IdFree(t[..j], t[j].id) && IdFree(t[j + 1..], t[j].id)
  {
  }

  /** The view of t split at the instruction j, and its entry's
      condition. */
  lemma SplitAt(t: seq<Instr>, j: nat)
    requires j < |t| && UniqueIds(t) && !IsIT(t[j])
    ensures var g := Guarded(t[j], if IsMeta(t[j]) then None else CondAt(t, j));
      var R := ViewFrom(t[j + 1..], StateAfter(t[..j + 1], []));
      && View(t) == View(t[..j]) + [g] + R
      && Absent(View(t[..j]), t[j].id) && Absent(R, t[j].id)
  {
    ViewAt(t, j);
    OthersFree(t, j);
    ViewFromAbsent(t[..j], [], t[j].id);
    ViewFromAbsent(t[j + 1..], StateAfter(t[..j + 1], []), t[j].id);
  }

  /** The block around an instruction changed in place to one of the same
      kind runs as before. */
  lemma UpdatedPieces(t: seq<Instr>, j: nat, y: Instr)
    requires j < |t| && !IsIT(y) && !IsIT(t[j]) && IsMeta(y) == IsMeta(t[j])
    ensures var t' := t[j := y];
      && t'[..j] == t[..j] && t'[j + 1..] == t[j + 1..] && t'[j] == y
      && CondAt(t', j) == CondAt(t, j)
      && StateAfter(t'[..j + 1], []) == StateAfter(t[..j + 1], [])
  {
    var t' := t[j := y];
    assert t'[..j] == t[..j];
    assert t[..j + 1] == t[..j] + [t[j]] && t'[..j + 1] == t[..j] + [y];
    StateSnoc(t[..j], t[j], []);
    StateSnoc(t[..j], y, []);
  }

  /** An in-place change of the instruction at j to y with the same id and
      kind replaces its entry by y, under the same condition. */
  lemma UpdateView(t: seq<Instr>, j: nat, y: Instr)
    requires j < |t| && UniqueIds(t) && y.id == t[j].id
    requires !IsIT(y) && !IsIT(t[j]) && IsMeta(y) == IsMeta(t[j])
    ensures View(t[j := y]) == Replace(View(t), t[j].id, [y])
  {
    var cj := if IsMeta(t[j]) then None else CondAt(t, j);
    var X, R := View(t[..j]), ViewFrom(t[j + 1..], StateAfter(t[..j + 1], []));
    SplitAt(t, j);
    UpdatedPieces(t, j, y);
    ViewAt(t[j := y], j);
    assert View(t[j := y]) == X + [Guarded(y, cj)] + R;
    ReplaceMid(X, Guarded(t[j], cj), R, t[j].id, [y]);
    UnderSingle(y, cj);
  }

  /** One instruction under c: a meta instruction runs under none. */
  lemma UnderSingle(y: Instr, c: Option<Cond>)
    requires !IsIT(y) && (IsMeta(y) ==> c == None)
    ensures Under([y], c) == [Guarded(y, c)]
  {
    assert [y][1..] == [];
  }

  /** removeInst at j replaces MI's entry by nothing. */
  lemma RemoveViewId(t: seq<Instr>, j: nat)
    requires RemoveReady(t, j) && WellFormedITs(t) && UniqueIds(t)
    ensures View(RemoveSpec(t, j)) == Replace(View(t), t[j].id, [])
  {
    SplitAt(t, j);
    RemoveView(t, j);
    ReplaceMid(View(t[..j]), Guarded(t[j], CondAt(t, j)), ViewFrom(t[j + 1..], StateAfter(t[..j + 1], [])), t[j].id, []);
  }

  /** The view up to and including the instruction j, which emits code. */
  lemma ViewThrough(t: seq<Instr>, j: nat)
    requires j < |t| && !IsIT(t[j]) && !IsMeta(t[j])
    ensures View(t[..j + 1]) == View(t[..j]) + [Guarded(t[j], CondAt(t, j))]
  {
    ViewAppend(t[..j], [t[j]], []);
    assert t[..j + 1] == t[..j] + [t[j]];
    assert [t[j]][1..] == [];
  }

  /** insertInstsAfter at j replaces MI's entry by MI and the new
      instructions, all under MI's condition. */
  lemma InsertAfterViewId(t: seq<Instr>, j: nat, news: seq<Instr>, nextId: nat)
    requires InsertReady(t, j, news, true) && NoIT(news) && !IsIT(t[j]) && UniqueIds(t)
    ensures View(InsertSpec(t, j, news, true, nextId).insts) == Replace(View(t), t[j].id, [t[j]] + news)
  {
    InsertView(t, j, news, true, nextId);
    SplitAt(t, j);
    var c := CondAt(t, j);
    ViewThrough(t, j);
    UnderAppend([t[j]], news, c);
    UnderOne(t[j], c);
    var X, R := View(t[..j]), ViewFrom(t[j + 1..], StateAfter(t[..j + 1], []));
    ReplaceMid(X, Guarded(t[j], c), R, t[j].id, [t[j]] + news);
    Assoc(X, [Guarded(t[j], c)], Under(news, c));
  }
}
