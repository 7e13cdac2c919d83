/** Removal of duplicate and redundant operands, as a function on trees. */
module Dedup {
  import opened Wrappers
  import opened Exprs
  import opened Equality
  import opened Joins
  import opened Leaves

  /** The operands of a level after some comparisons, and how many were joined. */
  datatype Scan = Scan(ls: seq<Expr>, n: nat)

  datatype Counted = Counted(e: Expr, n: nat)

  /** Compares operand i with operand j; i is first simplified at its own level. */
  function Cell(c: Conn, ls: seq<Expr>, i: nat, j: nat): (r: Scan)
    requires i < |ls| && j < |ls| && AllLeaves(c, ls)
    ensures |r.ls| == |ls| && AllLeaves(c, r.ls) && SumSize(r.ls) <= SumSize(ls)
    decreases SumSize(ls), 2, 0
  {
    if i == j then Scan(ls, 0)
    else
      TwoSizes(ls, i, j);
      var x := Pass(ls[i]);
      var ls1 := ls[i := x.e];
      SumSizeUpdate(ls, i, x.e);
      match Join(c, x.e, ls[j])
      case None => Scan(ls1, x.n)
      case Some(t) =>
        JoinShape(c, x.e, ls[j]);
        SumSizeUpdate(ls1, i, Neutral(c));
        SumSizeUpdate(ls1[i := Neutral(c)], j, t);
        SizePositive(x.e);
        SizePositive(ls[j]);
        Scan(ls1[i := Neutral(c)][j := t], x.n + 1)
  }

  /** Compares operand i with the operands lo..hi, in order. */
  function Row(c: Conn, ls: seq<Expr>, i: nat, lo: nat, hi: nat): (r: Scan)
    requires i < |ls| && lo <= hi <= |ls| && AllLeaves(c, ls)
    ensures |r.ls| == |ls| && AllLeaves(c, r.ls) && SumSize(r.ls) <= SumSize(ls)
    decreases SumSize(ls), 3, hi - lo
  {
    if lo == hi then Scan(ls, 0)
    else
      var a := Cell(c, ls, i, lo);
      var b := Row(c, a.ls, i, lo + 1, hi);
      Scan(b.ls, a.n + b.n)
  }

  /** Compares each of the operands lo1..hi1 with each of the operands lo2..hi2. */
  function Rows(c: Conn, ls: seq<Expr>, lo1: nat, hi1: nat, lo2: nat, hi2: nat): (r: Scan)
    requires lo1 <= hi1 <= |ls| && lo2 <= hi2 <= |ls| && AllLeaves(c, ls)
    ensures |r.ls| == |ls| && AllLeaves(c, r.ls) && SumSize(r.ls) <= SumSize(ls)
    decreases SumSize(ls), 4, hi1 - lo1
  {
    if lo1 == hi1 then Scan(ls, 0)
    else
      var a := Row(c, ls, lo1, lo2, hi2);
      var b := Rows(c, a.ls, lo1 + 1, hi1, lo2, hi2);
      Scan(b.ls, a.n + b.n)
  }

  function PassAt(c: Conn, e: Expr): (r: Counted)
    requires IsConn(c, e)
    ensures IsConn(c, r.e) && Size(r.e) <= Size(e)
    decreases Size(e), 0, 0
  {
    LeavesSize(c, e);
    var n := |LeavesOf(c, e)|;
    var s := Rows(c, LeavesOf(c, e), 0, n, 0, n);
    RebuildSize(c, e, s.ls);
    LeavesRebuild(c, e, s.ls);
    Counted(Rebuild(c, e, s.ls), s.n)
  }

  /** One pass over a tree: every operand of its top level against every other. */
  function Pass(e: Expr): (r: Counted)
    ensures Size(r.e) <= Size(e)
    ensures SameConstructor(e, r.e)
    decreases Size(e), 1, 0
  {
    if e.And? then PassAt(CAnd, e) else if e.Or? then PassAt(COr, e) else Counted(e, 0)
  }

  // ----- a pass keeps the value and the shape -----

  /** What a pass is asked to keep besides clean constants: negation on symbols only, and
      comparisons that can be decided at a valuation. */
  datatype Shape = Shape(nnf: bool, ordered: Option<Env>)

  ghost predicate Shaped(e: Expr, sh: Shape) {
    Clean(e) && (sh.nnf ==> NotOnSymbols(e)) && (sh.ordered.Some? ==> Ordered(e, sh.ordered.value))
  }

  ghost predicate AllShaped(ls: seq<Expr>, sh: Shape) {
    forall k :: 0 <= k < |ls| ==> Shaped(ls[k], sh)
  }

  lemma AllShapedConcat(a: seq<Expr>, b: seq<Expr>, sh: Shape)
    ensures AllShaped(a + b, sh) <==> AllShaped(a, sh) && AllShaped(b, sh)
  {
    assert forall k :: 0 <= k < |a| ==> (a + b)[k] == a[k];
    assert forall k :: 0 <= k < |b| ==> (a + b)[|a| + k] == b[k];
  }

  lemma {:induction false} ShapedLeaves(c: Conn, e: Expr, sh: Shape)
    ensures Shaped(e, sh) <==> AllShaped(LeavesOf(c, e), sh)
  {
    if IsConn(c, e) {
      ShapedLeaves(c, e.left, sh);
      ShapedLeaves(c, e.right, sh);
      AllShapedConcat(LeavesOf(c, e.left), LeavesOf(c, e.right), sh);
      assert Shaped(e, sh) <==> Shaped(e.left, sh) && Shaped(e.right, sh);
    } else {
      assert LeavesOf(c, e)[0] == e;
    }
  }

  lemma {:induction false} CellSound(c: Conn, ls: seq<Expr>, i: nat, j: nat, sh: Shape, env: Env)
    requires i < |ls| && j < |ls| && AllLeaves(c, ls) && AllShaped(ls, sh) && Produced(env)
    ensures Fold(c, Cell(c, ls, i, j).ls, env) == Fold(c, ls, env)
    ensures AllShaped(Cell(c, ls, i, j).ls, sh)
    decreases SumSize(ls), 2, 0
  {
    if i != j {
      TwoSizes(ls, i, j);
      var x := Pass(ls[i]);
      PassSound(ls[i], sh, env);
      var ls1 := ls[i := x.e];
      FoldReplace(c, ls, i, x.e, env);
      match Join(c, x.e, ls[j])
      case None =>
      case Some(t) =>
        JoinShape(c, x.e, ls[j]);
        JoinSound(c, x.e, ls[j], env);
        FoldMerge(c, ls1, i, j, t, env);
    }
  }

  lemma {:induction false} RowSound(c: Conn, ls: seq<Expr>, i: nat, lo: nat, hi: nat, sh: Shape, env: Env)
    requires i < |ls| && lo <= hi <= |ls| && AllLeaves(c, ls) && AllShaped(ls, sh) && Produced(env)
    ensures Fold(c, Row(c, ls, i, lo, hi).ls, env) == Fold(c, ls, env)
    ensures AllShaped(Row(c, ls, i, lo, hi).ls, sh)
    decreases SumSize(ls), 3, hi - lo
  {
    if lo < hi {
      CellSound(c, ls, i, lo, sh, env);
      RowSound(c, Cell(c, ls, i, lo).ls, i, lo + 1, hi, sh, env);
    }
  }

  lemma {:induction false} RowsSound(c: Conn, ls: seq<Expr>, lo1: nat, hi1: nat, lo2: nat, hi2: nat, sh: Shape, env: Env)
    requires lo1 <= hi1 <= |ls| && lo2 <= hi2 <= |ls| && AllLeaves(c, ls) && AllShaped(ls, sh) && Produced(env)
    ensures Fold(c, Rows(c, ls, lo1, hi1, lo2, hi2).ls, env) == Fold(c, ls, env)
    ensures AllShaped(Rows(c, ls, lo1, hi1, lo2, hi2).ls, sh)
    decreases SumSize(ls), 4, hi1 - lo1
  {
    if lo1 < hi1 {
      RowSound(c, ls, lo1, lo2, hi2, sh, env);
      RowsSound(c, Row(c, ls, lo1, lo2, hi2).ls, lo1 + 1, hi1, lo2, hi2, sh, env);
    }
  }

  lemma {:induction false} PassAtSound(c: Conn, e: Expr, sh: Shape, env: Env)
    requires IsConn(c, e) && Shaped(e, sh) && Produced(env)
    ensures Value(PassAt(c, e).e, env) == Value(e, env)
    ensures Shaped(PassAt(c, e).e, sh)
    decreases Size(e), 0, 0
  {
    LeavesSize(c, e);
    var ls := LeavesOf(c, e);
    ShapedLeaves(c, e, sh);
    LeavesValue(c, e, env);
    RowsSound(c, ls, 0, |ls|, 0, |ls|, sh, env);
    var s := Rows(c, ls, 0, |ls|, 0, |ls|);
    RebuildValue(c, e, s.ls, env);
    LeavesRebuild(c, e, s.ls);
    ShapedLeaves(c, Rebuild(c, e, s.ls), sh);
  }

  lemma {:induction false} PassSound(e: Expr, sh: Shape, env: Env)
    requires Shaped(e, sh) && Produced(env)
    ensures Value(Pass(e).e, env) == Value(e, env)
    ensures Shaped(Pass(e).e, sh)
    decreases Size(e), 1, 0
  {
    if e.And? {
      PassAtSound(CAnd, e, sh, env);
    } else if e.Or? {
      PassAtSound(COr, e, sh, env);
    }
  }

  // ----- a pass that joins something leaves a y or n operand behind -----

  /** A y or n, or a tree with such an operand in it. */
  predicate Marked(e: Expr) { e == E_YES || e == E_NO || HasYn(e) }

  ghost predicate SomeMarked(ls: seq<Expr>) {
    exists k :: 0 <= k < |ls| && Marked(ls[k])
  }

  lemma SomeMarkedConcat(a: seq<Expr>, b: seq<Expr>)
    ensures SomeMarked(a + b) <==> SomeMarked(a) || SomeMarked(b)
  {
    assert forall k :: 0 <= k < |a| ==> (a + b)[k] == a[k];
    assert forall k :: 0 <= k < |b| ==> (a + b)[|a| + k] == b[k];
  }

  lemma {:induction false} MarkedLeaves(c: Conn, e: Expr)
    ensures Marked(e) <==> SomeMarked(LeavesOf(c, e))
  {
    var ls := LeavesOf(c, e);
    if IsConn(c, e) {
      MarkedLeaves(c, e.left);
      MarkedLeaves(c, e.right);
      var a, b := LeavesOf(c, e.left), LeavesOf(c, e.right);
      SomeMarkedConcat(a, b);
    } else {
      assert ls[0] == e;
    }
  }

  lemma {:induction false} CellMarks(c: Conn, ls: seq<Expr>, i: nat, j: nat)
    requires i < |ls| && j < |ls| && AllLeaves(c, ls)
    ensures SomeMarked(ls) || Cell(c, ls, i, j).n > 0 ==> SomeMarked(Cell(c, ls, i, j).ls)
    decreases SumSize(ls), 2, 0
  {
    if i != j {
      TwoSizes(ls, i, j);
      PassMarks(ls[i]);
      var r := Cell(c, ls, i, j).ls;
      if Join(c, Pass(ls[i]).e, ls[j]).Some? {
        assert r[i] == Neutral(c);
      } else if Pass(ls[i]).n > 0 {
        assert Marked(r[i]);
      } else if SomeMarked(ls) {
        var k :| 0 <= k < |ls| && Marked(ls[k]);
        assert Marked(r[k]);
      }
    }
  }

  lemma {:induction false} RowMarks(c: Conn, ls: seq<Expr>, i: nat, lo: nat, hi: nat)
    requires i < |ls| && lo <= hi <= |ls| && AllLeaves(c, ls)
    ensures SomeMarked(ls) || Row(c, ls, i, lo, hi).n > 0 ==> SomeMarked(Row(c, ls, i, lo, hi).ls)
    decreases SumSize(ls), 3, hi - lo
  {
    if lo < hi {
      CellMarks(c, ls, i, lo);
      RowMarks(c, Cell(c, ls, i, lo).ls, i, lo + 1, hi);
    }
  }

  lemma {:induction false} RowsMarks(c: Conn, ls: seq<Expr>, lo1: nat, hi1: nat, lo2: nat, hi2: nat)
    requires lo1 <= hi1 <= |ls| && lo2 <= hi2 <= |ls| && AllLeaves(c, ls)
    ensures SomeMarked(ls) || Rows(c, ls, lo1, hi1, lo2, hi2).n > 0
            ==> SomeMarked(Rows(c, ls, lo1, hi1, lo2, hi2).ls)
    decreases SumSize(ls), 4, hi1 - lo1
  {
    if lo1 < hi1 {
      RowMarks(c, ls, lo1, lo2, hi2);
      RowsMarks(c, Row(c, ls, lo1, lo2, hi2).ls, lo1 + 1, hi1, lo2, hi2);
    }
  }

  lemma {:induction false} PassAtMarks(c: Conn, e: Expr)
    requires IsConn(c, e)
    ensures Marked(e) || PassAt(c, e).n > 0 ==> Marked(PassAt(c, e).e)
    decreases Size(e), 0, 0
  {
    LeavesSize(c, e);
    var ls := LeavesOf(c, e);
    MarkedLeaves(c, e);
    RowsMarks(c, ls, 0, |ls|, 0, |ls|);
    var s := Rows(c, ls, 0, |ls|, 0, |ls|);
    LeavesRebuild(c, e, s.ls);
    MarkedLeaves(c, Rebuild(c, e, s.ls));
  }

  /** A pass that joined something leaves a y or n operand for EliminateYn to drop. */
  lemma {:induction false} PassMarks(e: Expr)
    ensures Marked(e) || Pass(e).n > 0 ==> Marked(Pass(e).e)
    ensures Pass(e).n > 0 ==> HasYn(Pass(e).e)
    decreases Size(e), 1, 0
  {
    if e.And? {
      PassAtMarks(CAnd, e);
    } else if e.Or? {
      PassAtMarks(COr, e);
    }
  }

  // ----- a pass that joins nothing found nothing to join -----

  /** No two different operands of the level can be joined, in either order. */
  ghost predicate NothingToJoin(c: Conn, ls: seq<Expr>) {
    forall i, j :: 0 <= i < |ls| && 0 <= j < |ls| && i != j ==> Join(c, ls[i], ls[j]).None?
  }

  /** Nothing can be joined at the top level or at any level below it that is reached
      through && and || nodes. */
  ghost predicate Settled(e: Expr)
    decreases Size(e), 1
  {
    (e.And? || e.Or?) ==>
      var c := if e.And? then CAnd else COr;
      NothingToJoin(c, LeavesOf(c, e)) && OperandsSettled(c, e)
  }

  ghost predicate OperandsSettled(c: Conn, e: Expr)
    decreases Size(e), if IsConn(c, e) then 0 else 2
  {
    if IsConn(c, e) then OperandsSettled(c, e.left) && OperandsSettled(c, e.right) else Settled(e)
  }

  ghost predicate AllSettled(ls: seq<Expr>) { forall k :: 0 <= k < |ls| ==> Settled(ls[k]) }

  lemma AllSettledParts(a: seq<Expr>, b: seq<Expr>)
    requires AllSettled(a + b)
    ensures AllSettled(a) && AllSettled(b)
  {
    hide Settled;
    assert forall k :: 0 <= k < |a| ==> a[k] == (a + b)[k];
    assert forall k :: 0 <= k < |b| ==> b[k] == (a + b)[|a| + k];
  }

  lemma {:induction false} OperandsSettledLeaves(c: Conn, e: Expr)
    requires AllSettled(LeavesOf(c, e))
    ensures OperandsSettled(c, e)
  {
    hide Settled;
    if IsConn(c, e) {
      AllSettledParts(LeavesOf(c, e.left), LeavesOf(c, e.right));
      hide AllSettled;
      OperandsSettledLeaves(c, e.left);
      OperandsSettledLeaves(c, e.right);
    } else {
      assert LeavesOf(c, e)[0] == e;
    }
  }

  lemma {:induction false} CellQuiet(c: Conn, ls: seq<Expr>, i: nat, j: nat)
    requires i < |ls| && j < |ls| && AllLeaves(c, ls)
    requires Cell(c, ls, i, j).n == 0
    ensures Cell(c, ls, i, j).ls == ls
    ensures i != j ==> Join(c, ls[i], ls[j]).None? && Settled(ls[i])
    decreases SumSize(ls), 2, 0
  {
    if i != j {
      TwoSizes(ls, i, j);
      PassQuiet(ls[i]);
    }
  }

  lemma {:induction false} RowQuiet(c: Conn, ls: seq<Expr>, i: nat, lo: nat, hi: nat)
    requires i < |ls| && lo <= hi <= |ls| && AllLeaves(c, ls)
    requires Row(c, ls, i, lo, hi).n == 0
    ensures Row(c, ls, i, lo, hi).ls == ls
    ensures forall j :: lo <= j < hi && i != j ==> Join(c, ls[i], ls[j]).None? && Settled(ls[i])
    decreases SumSize(ls), 3, hi - lo
  {
    if lo < hi {
      CellQuiet(c, ls, i, lo);
      RowQuiet(c, ls, i, lo + 1, hi);
    }
  }

  lemma {:induction false} RowsQuiet(c: Conn, ls: seq<Expr>, lo: nat, hi: nat)
    requires lo <= hi <= |ls| && AllLeaves(c, ls)
    requires Rows(c, ls, lo, hi, 0, |ls|).n == 0
    ensures Rows(c, ls, lo, hi, 0, |ls|).ls == ls
    ensures forall i, j :: lo <= i < hi && 0 <= j < |ls| && i != j ==> Join(c, ls[i], ls[j]).None? && Settled(ls[i])
    decreases SumSize(ls), 4, hi - lo
  {
    if lo < hi {
      RowQuiet(c, ls, lo, 0, |ls|);
      RowsQuiet(c, ls, lo + 1, hi);
      forall i, j | lo <= i < hi && 0 <= j < |ls| && i != j
        ensures Join(c, ls[i], ls[j]).None? && Settled(ls[i])
      {
        if i == lo {
          assert Join(c, ls[lo], ls[j]).None? && Settled(ls[lo]);
        }
      }
    }
  }

  lemma {:induction false} PassAtQuiet(c: Conn, e: Expr)
    requires IsConn(c, e) && PassAt(c, e).n == 0
    ensures PassAt(c, e).e == e
    ensures Settled(e)
    decreases Size(e), 0, 0
  {
    LeavesSize(c, e);
    RebuildLeaves(c, e);
    var ls := LeavesOf(c, e);
    RowsQuiet(c, ls, 0, |ls|);
    forall k | 0 <= k < |ls| ensures Settled(ls[k]) {
      var j := if k == 0 then 1 else 0;
      assert Join(c, ls[k], ls[j]).None? && Settled(ls[k]);
    }
    OperandsSettledLeaves(c, e);
  }

  /** A pass that joined nothing changed nothing, and nothing is left to join. */
  lemma {:induction false} PassQuiet(e: Expr)
    requires Pass(e).n == 0
    ensures Pass(e).e == e
    ensures Settled(e)
    decreases Size(e), 1, 0
  {
    if e.And? {
      PassAtQuiet(CAnd, e);
    } else if e.Or? {
      PassAtQuiet(COr, e);
    }
  }

  // ----- passes until nothing changes -----

  function EliminateDups(e: Expr): Expr
    decreases Size(e)
  {
    var p := Pass(e);
    if p.n == 0 then p.e
    else
      PassMarks(e);
      EliminateYnSize(p.e);
      EliminateDups(EliminateYn(p.e))
  }

  lemma {:induction false} EliminateYnShaped(e: Expr, sh: Shape)
    requires Shaped(e, sh)
    ensures Shaped(EliminateYn(e), sh)
  {
    match e {
      case And(a, b) =>
        EliminateYnShaped(a, sh);
        EliminateYnShaped(b, sh);
      case Or(a, b) =>
        EliminateYnShaped(a, sh);
        EliminateYnShaped(b, sh);
      case _ =>
    }
  }

  /** Removing duplicates keeps the value of every clean expression at every valuation
      the evaluator can produce, and keeps its shape. */
  lemma {:induction false} EliminateDupsSound(e: Expr, sh: Shape, env: Env)
    requires Shaped(e, sh) && Produced(env)
    ensures Value(EliminateDups(e), env) == Value(e, env)
    ensures Shaped(EliminateDups(e), sh)
    decreases Size(e)
  {
    var p := Pass(e);
    PassSound(e, sh, env);
    if p.n != 0 {
      PassMarks(e);
      EliminateYnSize(p.e);
      EliminateYnSound(p.e, env);
      EliminateYnShaped(p.e, sh);
      EliminateDupsSound(EliminateYn(p.e), sh, env);
    }
  }

  /** The result is a true fixpoint: at no level are two operands left that could be
      joined, and another run changes nothing. */
  lemma {:induction false} EliminateDupsSettles(e: Expr)
    ensures Settled(EliminateDups(e))
    ensures EliminateDups(EliminateDups(e)) == EliminateDups(e)
    ensures Size(EliminateDups(e)) <= Size(e)
    decreases Size(e)
  {
    var p := Pass(e);
    if p.n == 0 {
      PassQuiet(e);
    } else {
      PassMarks(e);
      EliminateYnSize(p.e);
      EliminateDupsSettles(EliminateYn(p.e));
    }
  }

  /** Comparing two operands that join into t, in both orders, leaves y and t. */
  lemma TwoOperandRows(a: Expr, b: Expr, t: Expr)
    requires !a.And? && !a.Or? && !b.And? && !b.Or? && !t.And? && !t.Or?
    requires Join(CAnd, a, b) == Some(t) && Join(CAnd, t, E_YES).None?
    ensures Rows(CAnd, [a, b], 0, 2, 0, 2) == Scan([E_YES, t], 1)
  {
    var ls, ls1 := [a, b], [E_YES, t];
    assert Cell(CAnd, ls, 0, 1) == Scan(ls1, 1) by {
      assert Pass(a) == Counted(a, 0);
      assert ls[0 := a][0 := E_YES][1 := t] == ls1;
    }
    assert Row(CAnd, ls, 0, 1, 2) == Scan(ls1, 1);
    assert Row(CAnd, ls, 0, 0, 2) == Scan(ls1, 1);
    assert Cell(CAnd, ls1, 1, 0) == Scan(ls1, 0) by {
      assert Pass(t) == Counted(t, 0);
      assert ls1[1 := t] == ls1;
    }
    assert Row(CAnd, ls1, 1, 1, 2) == Scan(ls1, 0);
    assert Row(CAnd, ls1, 1, 0, 2) == Scan(ls1, 0);
    assert Rows(CAnd, ls1, 1, 2, 0, 2) == Scan(ls1, 0);
  }

  lemma TwoOperandPass(a: Expr, b: Expr, t: Expr)
    requires !a.And? && !a.Or? && !b.And? && !b.Or? && !t.And? && !t.Or?
    requires Join(CAnd, a, b) == Some(t) && Join(CAnd, t, E_YES).None?
    ensures Pass(And(a, b)) == Counted(And(E_YES, t), 1)
  {
    TwoOperandRows(a, b, t);
    var ls1 := [E_YES, t];
    assert LeavesOf(CAnd, a) == [a] && LeavesOf(CAnd, b) == [b];
    assert LeavesOf(CAnd, And(a, b)) == [a, b];
    assert ls1[..1] == [E_YES] && ls1[1..] == [t];
    assert Rebuild(CAnd, And(a, b), ls1) == And(E_YES, t);
  }

  /** The numeral constant that breaks the join rule breaks the whole function:
      A='0' && A!='n' is n for a tristate A that is n, its reduced form is y. */
  lemma EliminateDupsNumeralCounterexample()
    ensures var a := Symbol(7, "A", Tristate, false);
            var e := And(Cmp(Eq, a, Symbol(8, "0", Unknown, true)), Cmp(Ne, a, SYM_NO));
            && Produced(Pin(a, NO))
            && Value(e, Pin(a, NO)) == NO
            && Value(EliminateDups(e), Pin(a, NO)) == YES
  {
    JoinNumeralCounterexample();
    var a := Symbol(7, "A", Tristate, false);
    var zero := Cmp(Eq, a, Symbol(8, "0", Unknown, true));
    TwoOperandPass(zero, Cmp(Ne, a, SYM_NO), zero);
    assert EliminateDups(zero) == zero;
  }
}
