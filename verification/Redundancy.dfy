/** Which operands duplicate removal takes away, and which it leaves. */
module Redundancy {
  import opened Wrappers
  import opened Exprs
  import opened Equality
  import opened Leaves
  import opened Joins
  import opened Dedup
  import opened Slots

  predicate Either(x: Expr, y: Expr, p: Expr, q: Expr) { (x == p && y == q) || (x == q && y == p) }

  /** The operands of || that a single condition on a replaces: two of a='y', a='m',
      a='n' for a tristate, a and !a for a bool. */
  predicate RedundantOr(a: Symbol, x: Expr, y: Expr) {
    || (a.typ.Tristate? && (Either(x, y, Cmp(Eq, a, SYM_YES), Cmp(Eq, a, SYM_MOD))
                            || Either(x, y, Cmp(Eq, a, SYM_YES), Cmp(Eq, a, SYM_NO))
                            || Either(x, y, Cmp(Eq, a, SYM_MOD), Cmp(Eq, a, SYM_NO))))
    || (a.typ.Boolean? && Either(x, y, Sym(a), Not(Sym(a))))
  }

  /** The operands of && that a single condition on a replaces: a with a='y', a!='n' or
      a!='m'; for a tristate an equality and an inequality with constants, and two of
      a!='y', a!='m', a!='n'. */
  predicate RedundantAnd(a: Symbol, x: Expr, y: Expr) {
    || ((a.typ.Boolean? || a.typ.Tristate?)
        && (Either(x, y, Sym(a), Cmp(Eq, a, SYM_YES)) || Either(x, y, Sym(a), Cmp(Ne, a, SYM_NO))
            || Either(x, y, Sym(a), Cmp(Ne, a, SYM_MOD))))
    || (a.typ.Tristate? && (EqualAndNot(a, x, y) || EqualAndNot(a, y, x)
                            || Either(x, y, Cmp(Ne, a, SYM_YES), Cmp(Ne, a, SYM_NO))
                            || Either(x, y, Cmp(Ne, a, SYM_YES), Cmp(Ne, a, SYM_MOD))
                            || Either(x, y, Cmp(Ne, a, SYM_MOD), Cmp(Ne, a, SYM_NO))))
  }

  predicate EqualAndNot(a: Symbol, x: Expr, y: Expr) {
    x.Cmp? && y.Cmp? && x == Cmp(Eq, a, x.r) && y == Cmp(Ne, a, y.r) && x.r.isConst && y.r.isConst
  }

  predicate Redundant(c: Conn, a: Symbol, x: Expr, y: Expr) {
    if c == CAnd then RedundantAnd(a, x, y) else RedundantOr(a, x, y)
  }

  /** One of two operands is superfluous: they are equal, or say too much about a symbol. */
  ghost predicate Superfluous(c: Conn, x: Expr, y: Expr) {
    ExprEq(x, y) || exists a: Symbol :: Redundant(c, a, x, y)
  }

  /** At no level reached through && and || is one of two operands superfluous. */
  ghost predicate Tidy(e: Expr) {
    forall p: Path, c: Conn :: Valid(e, p) && IsConn(c, At(e, p)) ==> TidyLevel(c, LeavesOf(c, At(e, p)))
  }

  ghost predicate TidyLevel(c: Conn, ls: seq<Expr>) {
    forall i, j :: 0 <= i < |ls| && 0 <= j < |ls| && i != j ==> !Superfluous(c, ls[i], ls[j])
  }

  // ----- what is joined -----

  lemma RedundantJoined(c: Conn, a: Symbol, x: Expr, y: Expr)
    requires Redundant(c, a, x, y)
    ensures Join(c, x, y).Some?
  {
    hide ExprEq;
  }

  lemma JoinedOr(x: Expr, y: Expr)
    requires JoinOr(x, y).Some? && !ExprEq(x, y)
    ensures exists a: Symbol :: RedundantOr(a, x, y)
  {
    hide ExprEq;
    var a := CommonSymbol(x, y).value;
    assert RedundantOr(a, x, y);
  }

  lemma JoinedAnd(x: Expr, y: Expr)
    requires JoinAnd(x, y).Some? && !ExprEq(x, y)
    ensures exists a: Symbol :: RedundantAnd(a, x, y)
  {
    hide ExprEq;
    var a := CommonSymbol(x, y).value;
    assert RedundantAnd(a, x, y);
  }

  /** Two operands are joined if and only if one of them is superfluous. */
  lemma JoinedExactly(c: Conn, x: Expr, y: Expr)
    ensures Join(c, x, y).Some? <==> Superfluous(c, x, y)
  {
    hide ExprEq; hide RedundantOr; hide RedundantAnd; hide JoinOr; hide JoinAnd;
    if Join(c, x, y).Some? && !ExprEq(x, y) {
      if c == CAnd {
        JoinedAnd(x, y);
        var a: Symbol :| RedundantAnd(a, x, y);
        assert Redundant(c, a, x, y);
      } else {
        JoinedOr(x, y);
        var a: Symbol :| RedundantOr(a, x, y);
        assert Redundant(c, a, x, y);
      }
    }
    if Superfluous(c, x, y) {
      if ExprEq(x, y) {
        EqualJoined(c, x, y);
      } else {
        var a: Symbol :| Redundant(c, a, x, y);
        RedundantJoined(c, a, x, y);
      }
    }
  }

  lemma EqualJoined(c: Conn, x: Expr, y: Expr)
    requires ExprEq(x, y)
    ensures Join(c, x, y) == Some(x)
  {
    hide ExprEq;
  }

  lemma LevelExactly(c: Conn, ls: seq<Expr>)
    ensures NothingToJoin(c, ls) <==> TidyLevel(c, ls)
  {
    hide Superfluous; hide Join;
    forall x: Expr, y: Expr ensures Join(c, x, y).Some? <==> Superfluous(c, x, y) {
      JoinedExactly(c, x, y);
    }
  }

  // ----- settled is tidy -----

  lemma PartsOfLevel(c: Conn, a: seq<Expr>, b: seq<Expr>)
    requires NothingToJoin(c, a + b)
    ensures NothingToJoin(c, a) && NothingToJoin(c, b)
  {
    hide Join;
    assert forall k :: 0 <= k < |a| ==> a[k] == (a + b)[k];
    assert forall k :: 0 <= k < |b| ==> b[k] == (a + b)[|a| + k];
  }

  lemma SettledIs(c: Conn, e: Expr)
    ensures IsConn(c, e) ==> (Settled(e) <==> NothingToJoin(c, LeavesOf(c, e)) && OperandsSettled(c, e))
    ensures IsConn(c, e) ==> (OperandsSettled(c, e) <==> OperandsSettled(c, e.left) && OperandsSettled(c, e.right))
    ensures !IsConn(c, e) ==> (OperandsSettled(c, e) <==> Settled(e))
    ensures !e.And? && !e.Or? ==> Settled(e)
  {
    hide NothingToJoin; hide LeavesOf;
  }

  lemma ChildSettled(e: Expr, b: bool)
    requires Settled(e) && (e.And? || e.Or?)
    ensures Settled(Child(e, b))
  {
    hide NothingToJoin; hide Settled; hide OperandsSettled;
    var c := if e.And? then CAnd else COr;
    SettledIs(c, e);
    LeavesMk(c, e.left, e.right);
    PartsOfLevel(c, LeavesOf(c, e.left), LeavesOf(c, e.right));
    SettledIs(c, e.left);
    SettledIs(c, e.right);
  }

  lemma {:induction false} SettledAt(e: Expr, p: Path, c: Conn)
    requires Settled(e) && Valid(e, p) && IsConn(c, At(e, p))
    ensures TidyLevel(c, LeavesOf(c, At(e, p)))
  {
    hide TidyLevel;
    if p == [] {
      LevelExactly(c, LeavesOf(c, e));
    } else {
      ChildSettled(e, p[0]);
      SettledAt(Child(e, p[0]), p[1..], c);
    }
  }

  /** Duplicate removal leaves nothing superfluous: at no level of its result are two
      operands equal, or one of the pairs that a single condition replaces. */
  lemma EliminateDupsTidies(e: Expr)
    ensures Tidy(EliminateDups(e))
  {
    EliminateDupsSettles(e);
    var r := EliminateDups(e);
    hide EliminateDups; hide Settled; hide TidyLevel;
    forall p: Path, c: Conn | Valid(r, p) && IsConn(c, At(r, p)) ensures TidyLevel(c, LeavesOf(c, At(r, p))) {
      SettledAt(r, p, c);
    }
  }

  /** A tree is tidy if its top level and both its halves are. */
  lemma TidyBuild(c: Conn, e: Expr)
    requires IsConn(c, e) && TidyLevel(c, LeavesOf(c, e)) && Tidy(e.left) && Tidy(e.right)
    ensures Tidy(e)
  {
    hide TidyLevel; hide LeavesOf;
    forall p: Path, d: Conn | Valid(e, p) && IsConn(d, At(e, p)) ensures TidyLevel(d, LeavesOf(d, At(e, p))) {
      if p != [] {
        assert At(e, p) == At(Child(e, p[0]), p[1..]) && Valid(Child(e, p[0]), p[1..]);
      }
    }
  }

  lemma TidyAtom(e: Expr)
    requires !e.And? && !e.Or?
    ensures Tidy(e)
  {
    hide TidyLevel;
  }

  lemma TidyTwo(c: Conn, x: Expr, y: Expr)
    requires !Superfluous(c, x, y) && !Superfluous(c, y, x)
    ensures TidyLevel(c, [x, y])
  {
    hide Superfluous;
  }

  // ----- tidy is settled -----

  lemma {:induction false} TidyChild(e: Expr, b: bool)
    requires Tidy(e) && (e.And? || e.Or?)
    ensures Tidy(Child(e, b))
  {
    hide TidyLevel; hide LeavesOf;
    forall p: Path, c: Conn | Valid(Child(e, b), p) && IsConn(c, At(Child(e, b), p))
      ensures TidyLevel(c, LeavesOf(c, At(Child(e, b), p)))
    {
      assert ([b] + p)[1..] == p;
      assert Valid(e, [b] + p) && At(e, [b] + p) == At(Child(e, b), p);
    }
  }

  lemma {:induction false} TidySettled(e: Expr)
    requires Tidy(e)
    ensures Settled(e)
    decreases Size(e), 1
  {
    hide Settled; hide OperandsSettled; hide TidyLevel; hide NothingToJoin;
    var c := if e.And? then CAnd else COr;
    SettledIs(c, e);
    if e.And? || e.Or? {
      assert Valid(e, []) && At(e, []) == e;
      LevelExactly(c, LeavesOf(c, e));
      hide Tidy;
      TidyOperands(c, e);
    }
  }

  lemma {:induction false} TidyOperands(c: Conn, e: Expr)
    requires Tidy(e)
    ensures OperandsSettled(c, e)
    decreases Size(e), if IsConn(c, e) then 0 else 2
  {
    hide Settled; hide OperandsSettled; hide Tidy;
    SettledIs(c, e);
    if IsConn(c, e) {
      TidyChild(e, false);
      TidyChild(e, true);
      TidyOperands(c, e.left);
      TidyOperands(c, e.right);
    } else {
      TidySettled(e);
    }
  }

  // ----- a settled tree is left alone -----

  lemma {:induction false} SettledLeaves(c: Conn, e: Expr)
    requires OperandsSettled(c, e)
    ensures AllSettled(LeavesOf(c, e))
  {
    hide Settled;
    if IsConn(c, e) {
      SettledLeaves(c, e.left);
      SettledLeaves(c, e.right);
    } else {
      assert LeavesOf(c, e) == [e];
    }
  }

  lemma {:induction false} CellStill(c: Conn, ls: seq<Expr>, i: nat, j: nat)
    requires i < |ls| && j < |ls| && AllLeaves(c, ls) && NothingToJoin(c, ls) && AllSettled(ls)
    ensures Cell(c, ls, i, j) == Scan(ls, 0)
    decreases SumSize(ls), 2, 0
  {
    hide Settled;
    if i != j {
      TwoSizes(ls, i, j);
      PassStill(ls[i]);
      assert ls[i := ls[i]] == ls;
    }
  }

  lemma {:induction false} RowStill(c: Conn, ls: seq<Expr>, i: nat, lo: nat, hi: nat)
    requires i < |ls| && lo <= hi <= |ls| && AllLeaves(c, ls) && NothingToJoin(c, ls) && AllSettled(ls)
    ensures Row(c, ls, i, lo, hi) == Scan(ls, 0)
    decreases SumSize(ls), 3, hi - lo
  {
    hide NothingToJoin; hide AllSettled;
    if lo < hi {
      CellStill(c, ls, i, lo);
      RowStill(c, ls, i, lo + 1, hi);
    }
  }

  lemma {:induction false} RowsStill(c: Conn, ls: seq<Expr>, lo1: nat, hi1: nat, lo2: nat, hi2: nat)
    requires lo1 <= hi1 <= |ls| && lo2 <= hi2 <= |ls| && AllLeaves(c, ls) && NothingToJoin(c, ls) && AllSettled(ls)
    ensures Rows(c, ls, lo1, hi1, lo2, hi2) == Scan(ls, 0)
    decreases SumSize(ls), 4, hi1 - lo1
  {
    hide NothingToJoin; hide AllSettled;
    if lo1 < hi1 {
      RowStill(c, ls, lo1, lo2, hi2);
      RowsStill(c, ls, lo1 + 1, hi1, lo2, hi2);
    }
  }

  lemma {:induction false} PassStill(e: Expr)
    requires Settled(e)
    ensures Pass(e) == Counted(e, 0)
    decreases Size(e), 1, 0
  {
    hide Settled; hide OperandsSettled; hide NothingToJoin; hide AllSettled; hide Rows;
    if e.And? || e.Or? {
      var c := if e.And? then CAnd else COr;
      var ls := LeavesOf(c, e);
      SettledIs(c, e);
      LeavesSize(c, e);
      SettledLeaves(c, e);
      RebuildLeaves(c, e);
      RowsStill(c, ls, 0, |ls|, 0, |ls|);
    }
  }

  /** It changes exactly the trees in which something is superfluous. */
  lemma EliminateDupsExactly(e: Expr)
    ensures EliminateDups(e) == e <==> Tidy(e)
  {
    EliminateDupsTidies(e);
    hide Tidy; hide Pass;
    if Tidy(e) {
      TidySettled(e);
      PassStill(e);
    }
  }

  // ----- what that means for two operands -----

  lemma AtomEqual(x: Expr)
    requires x.Sym? || x.Cmp? || (x.Not? && (x.e.Sym? || x.e.Cmp?))
    ensures ExprEq(x, x)
  {
  }

  /** In the result no level reached through && and || has the same condition twice, nor
      two conditions on a symbol that one replaces, whatever their order. */
  lemma NoTwins(e: Expr, p: Path, c: Conn, i: nat, j: nat)
    requires Valid(EliminateDups(e), p) && IsConn(c, At(EliminateDups(e), p))
    requires i < j < |LeavesOf(c, At(EliminateDups(e), p))|
    ensures var x, y := LeavesOf(c, At(EliminateDups(e), p))[i], LeavesOf(c, At(EliminateDups(e), p))[j];
            && (x.Sym? || x.Cmp? || (x.Not? && (x.e.Sym? || x.e.Cmp?)) ==> x != y)
            && (forall a: Symbol :: !Redundant(c, a, x, y) && !Redundant(c, a, y, x))
  {
    EliminateDupsTidies(e);
    var ls := LeavesOf(c, At(EliminateDups(e), p));
    assert TidyLevel(c, ls);
    hide ExprEq; hide EliminateDups; hide Redundant; hide Tidy;
    assert !Superfluous(c, ls[i], ls[j]) && !Superfluous(c, ls[j], ls[i]);
    if ls[i].Sym? || ls[i].Cmp? || (ls[i].Not? && (ls[i].e.Sym? || ls[i].e.Cmp?)) {
      AtomEqual(ls[i]);
    }
  }
}
