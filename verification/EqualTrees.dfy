/** Which trees the equality test finds equal: those with the same operands, each as often,
    in any order and grouping. */
module EqualTrees {
  import opened Exprs
  import opened Equality
  import opened Leaves

  /** No operand y or n anywhere in the tree. */
  predicate Plain(e: Expr) {
    match e
    case Sym(s) => s != SYM_YES && s != SYM_NO
    case Cmp(_, _, _) => true
    case Not(x) => Plain(x)
    case And(a, b) => Plain(a) && Plain(b)
    case Or(a, b) => Plain(a) && Plain(b)
  }

  /** How many of the operands equal x. */
  function Matches(ls: seq<Expr>, x: Expr): nat {
    if ls == [] then 0 else (if ExprEq(ls[0], x) then 1 else 0) + Matches(ls[1..], x)
  }

  /** Each operand of either occurs as often in the one as in the other. */
  ghost predicate SameOperands(c: Conn, e1: Expr, e2: Expr) {
    forall x :: x in LeavesOf(c, e1) || x in LeavesOf(c, e2) ==> Matches(LeavesOf(c, e1), x) == Matches(LeavesOf(c, e2), x)
  }

  lemma {:induction false} MatchesConcat(a: seq<Expr>, b: seq<Expr>, x: Expr)
    ensures Matches(a + b, x) == Matches(a, x) + Matches(b, x)
  {
    hide ExprEq;
    if a == [] {
      assert a + b == b;
    } else {
      assert (a + b)[1..] == a[1..] + b;
      MatchesConcat(a[1..], b, x);
    }
  }

  lemma {:induction false} MatchesSome(ls: seq<Expr>, x: Expr)
    ensures Matches(ls, x) > 0 <==> exists k :: 0 <= k < |ls| && ExprEq(ls[k], x)
  {
    hide ExprEq;
    if ls != [] {
      MatchesSome(ls[1..], x);
      if Matches(ls[1..], x) > 0 {
        var k :| 0 <= k < |ls[1..]| && ExprEq(ls[1..][k], x);
        assert ls[k + 1] == ls[1..][k];
      }
      if exists k :: 0 <= k < |ls| && ExprEq(ls[k], x) {
        var k :| 0 <= k < |ls| && ExprEq(ls[k], x);
        assert k > 0 ==> ls[1..][k - 1] == ls[k];
      }
    }
  }

  // ----- equality of smaller trees is an equivalence -----

  /** On trees without y and n, of at most the given size. */
  ghost predicate Equivalence(n: nat) {
    && (forall x: Expr :: Plain(x) && Size(x) <= n ==> ExprEq(x, x))
    && (forall x: Expr, y: Expr :: Plain(x) && Plain(y) && Size(x) <= n && Size(y) <= n && ExprEq(x, y) ==> ExprEq(y, x))
    && (forall x: Expr, y: Expr, z: Expr ::
          (Plain(x) && Plain(y) && Plain(z) && Size(x) <= n && Size(y) <= n && Size(z) <= n && ExprEq(x, y) && ExprEq(y, z))
          ==> ExprEq(x, z))
  }

  /** An operand of a level: part of a tree without y and n, or what elimination left. */
  predicate Operand(c: Conn, x: Expr, n: nat) { !IsConn(c, x) && (x == Neutral(c) || (Plain(x) && Size(x) <= n)) }

  predicate Operands(c: Conn, ls: seq<Expr>, n: nat) { forall k :: 0 <= k < |ls| ==> Operand(c, ls[k], n) }

  /** No operand left on one side equals one left on the other. */
  predicate Apart(c: Conn, ls: seq<Expr>, ms: seq<Expr>) {
    forall i, j :: 0 <= i < |ls| && 0 <= j < |ms| ==> ls[i] == Neutral(c) || ms[j] == Neutral(c) || !ExprEq(ls[i], ms[j])
  }

  /** The operands are those of before, but for some that were dropped. */
  predicate Thinned(c: Conn, ls: seq<Expr>, ms: seq<Expr>) {
    |ls| == |ms| && forall k :: 0 <= k < |ls| ==> ms[k] == ls[k] || ms[k] == Neutral(c)
  }

  lemma NeutralApart(c: Conn, x: Expr)
    requires Plain(x)
    ensures !ExprEq(Neutral(c), x) && !ExprEq(x, Neutral(c))
  {
  }

  /** Equal operands match the same trees. */
  lemma EqualMatch(x: Expr, y: Expr, z: Expr, n: nat)
    requires Equivalence(n) && Plain(x) && Plain(y) && Plain(z) && Size(x) <= n && Size(y) <= n && Size(z) <= n
    requires ExprEq(x, y)
    ensures ExprEq(x, z) <==> ExprEq(y, z)
  {
    hide ExprEq; hide Plain; hide Size;
    assert ExprEq(y, x);
  }

  /** The two sides match every tree as often more or less than before. */
  ghost predicate Kept(ls: seq<Expr>, ms: seq<Expr>, ls1: seq<Expr>, ms1: seq<Expr>, n: nat) {
    forall x: Expr :: Plain(x) && Size(x) <= n ==>
      Matches(ls1, x) + Matches(ms, x) == Matches(ms1, x) + Matches(ls, x)
  }

  lemma OneMatch(x: Expr, y: Expr)
    ensures Matches([x], y) == if ExprEq(x, y) then 1 else 0
  {
    assert [x][1..] == [];
  }

  lemma PlainNotYn(x: Expr)
    ensures Plain(x) ==> x != E_YES && x != E_NO && !HasYn(x) && EliminateYn(x) == x
  {
    if Plain(x) {
      PlainHasNone(x);
      EliminateYnSize(x);
    }
  }

  lemma {:induction false} PlainHasNone(x: Expr)
    requires Plain(x)
    ensures x != E_YES && x != E_NO && !HasYn(x)
  {
    match x {
      case And(a, b) =>
        PlainHasNone(a);
        PlainHasNone(b);
      case Or(a, b) =>
        PlainHasNone(a);
        PlainHasNone(b);
      case _ =>
    }
  }

  lemma TwoLeaves(c: Conn, x: Expr, y: Expr, n: nat)
    requires Equivalence(n) && Operand(c, x, n) && Operand(c, y, n)
    ensures var p := EliminateLeaves(c, x, y);
            && !IsConn(c, p.e1) && !IsConn(c, p.e2)
            && Thinned(c, [x], [p.e1]) && Thinned(c, [y], [p.e2])
            && Apart(c, [p.e1], [p.e2]) && Kept([x], [y], [p.e1], [p.e2], n)
  {
    PlainNotYn(x);
    hide ExprEq; hide Plain; hide Size;
    var p := EliminateLeaves(c, x, y);
    forall z: Expr | Plain(z) && Size(z) <= n
      ensures Matches([p.e1], z) + Matches([y], z) == Matches([p.e2], z) + Matches([x], z)
    {
      OneMatch(x, z);
      OneMatch(y, z);
      OneMatch(p.e1, z);
      OneMatch(p.e2, z);
      NeutralApart(c, z);
      if ExprEq(x, y) {
        if x != Neutral(c) { NeutralApart(c, x); }
        if y != Neutral(c) { NeutralApart(c, y); }
        if x != Neutral(c) && y != Neutral(c) {
          EqualMatch(x, y, z, n);
        }
      }
    }
  }

  lemma ThinnedParts(c: Conn, a: seq<Expr>, b: seq<Expr>, a1: seq<Expr>, b1: seq<Expr>)
    requires Thinned(c, a, a1) && Thinned(c, b, b1)
    ensures Thinned(c, a + b, a1 + b1)
  {
  }

  lemma ThinnedOperands(c: Conn, a: seq<Expr>, a1: seq<Expr>, n: nat)
    requires Thinned(c, a, a1) && Operands(c, a, n)
    ensures Operands(c, a1, n)
  {
    hide Plain; hide Size;
  }

  lemma OperandsParts(c: Conn, a: seq<Expr>, b: seq<Expr>, n: nat)
    ensures Operands(c, a + b, n) <==> Operands(c, a, n) && Operands(c, b, n)
  {
    hide Operand;
    assert forall k :: 0 <= k < |a| ==> (a + b)[k] == a[k];
    assert forall k :: 0 <= k < |b| ==> (a + b)[|a| + k] == b[k];
  }

  lemma ApartParts(c: Conn, a: seq<Expr>, b: seq<Expr>, m: seq<Expr>, m1: seq<Expr>)
    requires Apart(c, a, m) && Thinned(c, m, m1) && Apart(c, b, m1)
    ensures Apart(c, a + b, m1)
  {
    hide ExprEq;
  }

  lemma ApartSwap(c: Conn, ls: seq<Expr>, ms: seq<Expr>, n: nat)
    requires Equivalence(n) && Operands(c, ls, n) && Operands(c, ms, n) && Apart(c, ls, ms)
    ensures Apart(c, ms, ls)
  {
    hide ExprEq; hide Plain; hide Size;
    forall i, j | 0 <= i < |ls| && 0 <= j < |ms| ensures ls[i] == Neutral(c) || ms[j] == Neutral(c) || !ExprEq(ms[j], ls[i]) {
      assert Operand(c, ls[i], n) && Operand(c, ms[j], n);
    }
  }

  lemma KeptParts(a: seq<Expr>, b: seq<Expr>, m: seq<Expr>, a1: seq<Expr>, m1: seq<Expr>, b1: seq<Expr>, m2: seq<Expr>, n: nat)
    requires Kept(a, m, a1, m1, n) && Kept(b, m1, b1, m2, n)
    ensures Kept(a + b, m, a1 + b1, m2, n) && Kept(m, a + b, m2, a1 + b1, n)
  {
    hide Plain; hide Size;
    forall x: Expr | Plain(x) && Size(x) <= n
      ensures Matches(a1 + b1, x) + Matches(m, x) == Matches(m2, x) + Matches(a + b, x)
    {
      MatchesConcat(a, b, x);
      MatchesConcat(a1, b1, x);
    }
  }

  lemma KeptSwap(ls: seq<Expr>, ms: seq<Expr>, ls1: seq<Expr>, ms1: seq<Expr>, n: nat)
    requires Kept(ls, ms, ls1, ms1, n)
    ensures Kept(ms, ls, ms1, ls1, n)
  {
    hide Plain; hide Size; hide Matches;
  }

  /** Elimination drops operands from both sides in equal pairs, until no pair is left. */
  lemma {:induction false} Eliminated(c: Conn, e1: Expr, e2: Expr, n: nat)
    requires Equivalence(n) && Operands(c, LeavesOf(c, e1), n) && Operands(c, LeavesOf(c, e2), n)
    ensures var p := EliminateEq1(c, e1, e2);
            && Thinned(c, LeavesOf(c, e1), LeavesOf(c, p.e1)) && Thinned(c, LeavesOf(c, e2), LeavesOf(c, p.e2))
            && Operands(c, LeavesOf(c, p.e1), n) && Operands(c, LeavesOf(c, p.e2), n)
            && Apart(c, LeavesOf(c, p.e1), LeavesOf(c, p.e2))
            && Kept(LeavesOf(c, e1), LeavesOf(c, e2), LeavesOf(c, p.e1), LeavesOf(c, p.e2), n)
            && (IsConn(c, e1) <==> IsConn(c, p.e1)) && (IsConn(c, e2) <==> IsConn(c, p.e2))
    decreases Size(e1) + Size(e2)
  {
    hide Equivalence; hide Thinned; hide Apart; hide Kept; hide Operands; hide ExprEq; hide LeavesOf;
    if IsConn(c, e1) {
      var a, b, m := LeavesOf(c, e1.left), LeavesOf(c, e1.right), LeavesOf(c, e2);
      LeavesMk(c, e1.left, e1.right);
      OperandsParts(c, a, b, n);
      Eliminated(c, e1.left, e2, n);
      var p := EliminateEq1(c, e1.left, e2);
      Eliminated(c, e1.right, p.e2, n);
      var q := EliminateEq1(c, e1.right, p.e2);
      LeavesMk(c, p.e1, q.e1);
      var a1, b1, m1, m2 := LeavesOf(c, p.e1), LeavesOf(c, q.e1), LeavesOf(c, p.e2), LeavesOf(c, q.e2);
      ThinnedParts(c, a, b, a1, b1);
      OperandsParts(c, a1, b1, n);
      ThinnedTwice(c, m, m1, m2);
      ApartParts(c, a1, b1, m1, m2);
      KeptParts(a, b, m, a1, m1, b1, m2, n);
    } else if IsConn(c, e2) {
      var a, b, m := LeavesOf(c, e2.left), LeavesOf(c, e2.right), LeavesOf(c, e1);
      LeavesMk(c, e2.left, e2.right);
      OperandsParts(c, a, b, n);
      Eliminated(c, e1, e2.left, n);
      var p := EliminateEq1(c, e1, e2.left);
      Eliminated(c, p.e1, e2.right, n);
      var q := EliminateEq1(c, p.e1, e2.right);
      LeavesMk(c, p.e2, q.e2);
      var a1, b1, m1, m2 := LeavesOf(c, p.e2), LeavesOf(c, q.e2), LeavesOf(c, p.e1), LeavesOf(c, q.e1);
      ThinnedParts(c, a, b, a1, b1);
      OperandsParts(c, a1, b1, n);
      ThinnedTwice(c, m, m1, m2);
      ApartSwap(c, m1, a1, n);
      ApartSwap(c, m2, b1, n);
      ApartParts(c, a1, b1, m1, m2);
      ApartSwap(c, a1 + b1, m2, n);
      KeptSwap(m, a, m1, a1, n);
      KeptSwap(m1, b, m2, b1, n);
      KeptParts(a, b, m, a1, m1, b1, m2, n);
    } else {
      LeafOnly(c, e1);
      LeafOnly(c, e2);
      OperandAt(c, e1, n);
      OperandAt(c, e2, n);
      TwoLeaves(c, e1, e2, n);
      var p := EliminateLeaves(c, e1, e2);
      LeafOnly(c, p.e1);
      LeafOnly(c, p.e2);
      ThinnedOperands(c, [e1], [p.e1], n);
      ThinnedOperands(c, [e2], [p.e2], n);
    }
  }

  lemma LeafOnly(c: Conn, e: Expr)
    ensures !IsConn(c, e) ==> LeavesOf(c, e) == [e]
  {
  }

  lemma OperandAt(c: Conn, e: Expr, n: nat)
    requires Operands(c, [e], n)
    ensures Operand(c, e, n)
  {
    assert [e][0] == e;
  }

  lemma ThinnedTwice(c: Conn, a: seq<Expr>, b: seq<Expr>, d: seq<Expr>)
    requires Thinned(c, a, b) && Thinned(c, b, d)
    ensures Thinned(c, a, d)
  {
  }

  // ----- what is left after dropping y and n -----

  predicate AllNeutral(c: Conn, ls: seq<Expr>) { forall k :: 0 <= k < |ls| ==> ls[k] == Neutral(c) }

  /** Nothing is left of a level whose operands were all dropped; else what is left is
      one of its operands, or a level again. */
  lemma {:induction false} Remains(c: Conn, e: Expr, n: nat)
    requires Operands(c, LeavesOf(c, e), n)
    ensures AllNeutral(c, LeavesOf(c, e)) ==> EliminateYn(e) == Neutral(c)
    ensures !AllNeutral(c, LeavesOf(c, e)) ==>
              && EliminateYn(e) != E_YES && EliminateYn(e) != E_NO
              && (IsConn(c, EliminateYn(e)) || (EliminateYn(e) in LeavesOf(c, e) && Plain(EliminateYn(e))))
  {
    if IsConn(c, e) {
      var a, b := LeavesOf(c, e.left), LeavesOf(c, e.right);
      OperandsParts(c, a, b, n);
      NeutralParts(c, a, b);
      hide Operands; hide AllNeutral; hide LeavesOf; hide Plain;
      LeavesMk(c, e.left, e.right);
      Remains(c, e.left, n);
      Remains(c, e.right, n);
    } else {
      LeafOnly(c, e);
      assert LeavesOf(c, e)[0] == e;
      PlainNotYn(e);
    }
  }

  lemma NeutralParts(c: Conn, a: seq<Expr>, b: seq<Expr>)
    ensures AllNeutral(c, a + b) <==> AllNeutral(c, a) && AllNeutral(c, b)
  {
    assert forall k :: 0 <= k < |a| ==> (a + b)[k] == a[k];
    assert forall k :: 0 <= k < |b| ==> (a + b)[|a| + k] == b[k];
  }

  lemma {:induction false} NeutralMatches(c: Conn, ls: seq<Expr>, x: Expr)
    requires AllNeutral(c, ls) && Plain(x)
    ensures Matches(ls, x) == 0
  {
    hide ExprEq;
    if ls != [] {
      NeutralApart(c, x);
      assert ls[0] == Neutral(c);
      NeutralMatches(c, ls[1..], x);
    }
  }

  // ----- the test -----

  lemma {:induction false} PlainLeaves(c: Conn, e: Expr, n: nat)
    requires Plain(e) && Size(e) <= if IsConn(c, e) then n + 1 else n
    ensures Operands(c, LeavesOf(c, e), n)
  {
    if IsConn(c, e) {
      PlainLeaves(c, e.left, n);
      PlainLeaves(c, e.right, n);
      OperandsParts(c, LeavesOf(c, e.left), LeavesOf(c, e.right), n);
    }
  }

  /** Both sides match every tree of at most the given size as often. */
  ghost predicate Balanced(c: Conn, e1: Expr, e2: Expr, n: nat) {
    forall x: Expr :: Plain(x) && Size(x) <= n ==> Matches(LeavesOf(c, e1), x) == Matches(LeavesOf(c, e2), x)
  }

  /** What elimination makes of two levels of the same connective. */
  lemma LevelsEliminated(c: Conn, e1: Expr, e2: Expr, n: nat)
    requires Equivalence(n) && IsConn(c, e1) && IsConn(c, e2)
    requires Plain(e1) && Plain(e2) && Size(e1) <= n + 1 && Size(e2) <= n + 1
    ensures var p := EliminateEq1(c, e1, e2);
            var ls, ms := LeavesOf(c, p.e1), LeavesOf(c, p.e2);
            && (ExprEq(e1, e2) ==> AllNeutral(c, ls) && AllNeutral(c, ms))
            && (AllNeutral(c, ls) && AllNeutral(c, ms) ==> ExprEq(e1, e2))
            && Operands(c, ls, n) && Operands(c, ms, n) && Apart(c, ls, ms)
            && Thinned(c, LeavesOf(c, e1), ls) && Thinned(c, LeavesOf(c, e2), ms)
            && Kept(LeavesOf(c, e1), LeavesOf(c, e2), ls, ms, n)
  {
    hide ExprEq; hide EliminateYn; hide Plain; hide Size; hide EliminateEq1; hide LeavesOf; hide AllNeutral; hide Operands;
    hide Apart; hide Thinned; hide Kept; hide Equivalence;
    PlainLeaves(c, e1, n);
    PlainLeaves(c, e2, n);
    Eliminated(c, e1, e2, n);
    var p := EliminateEq1(c, e1, e2);
    Remains(c, p.e1, n);
    Remains(c, p.e2, n);
    EqByElimination(c, e1, e2);
    if ExprEq(e1, e2) {
      BothNeutral(c, p.e1, p.e2, n);
    }
  }

  /** For two levels of the same connective the test compares the operands: it holds if
      and only if each side's operands occur as often on the other. */
  lemma LevelsEqual(c: Conn, e1: Expr, e2: Expr, n: nat)
    requires Equivalence(n) && IsConn(c, e1) && IsConn(c, e2)
    requires Plain(e1) && Plain(e2) && Size(e1) <= n + 1 && Size(e2) <= n + 1
    ensures ExprEq(e1, e2) ==> Balanced(c, e1, e2, n)
    ensures SameOperands(c, e1, e2) ==> ExprEq(e1, e2)
  {
    hide ExprEq; hide Plain; hide Size; hide Matches; hide EliminateEq1; hide LeavesOf; hide AllNeutral; hide Operands;
    hide Apart; hide Thinned; hide Equivalence;
    LevelsEliminated(c, e1, e2, n);
    var p := EliminateEq1(c, e1, e2);
    var ls, ms := LeavesOf(c, p.e1), LeavesOf(c, p.e2);
    if ExprEq(e1, e2) {
      forall x: Expr | Plain(x) && Size(x) <= n ensures Matches(LeavesOf(c, e1), x) == Matches(LeavesOf(c, e2), x) {
        NeutralMatches(c, ls, x);
        NeutralMatches(c, ms, x);
      }
    }
    if SameOperands(c, e1, e2) {
      NoneLeft(c, LeavesOf(c, e1), LeavesOf(c, e2), ls, ms, n);
    }
  }

  lemma EqByElimination(c: Conn, e1: Expr, e2: Expr)
    requires IsConn(c, e1) && IsConn(c, e2)
    ensures var p := EliminateEq1(c, e1, e2);
            ExprEq(e1, e2) <==> EliminateYn(p.e1).Sym? && EliminateYn(p.e1) == EliminateYn(p.e2)
  {
    hide EliminateYn; hide EliminateEq1;
    EliminatedConn(c, e1, e2);
    var p := EliminateEq1(c, e1, e2);
    assert EliminateEqFirst(e1, e2) == p && SameConstructor(p.e1, p.e2) && EliminateEqSecond(p) == p;
    assert EliminateEq(e1, e2) == Pair(EliminateYn(p.e1), EliminateYn(p.e2));
    assert SameConstructor(e1, e2);
  }

  lemma {:induction false} EliminatedConn(c: Conn, e1: Expr, e2: Expr)
    ensures IsConn(c, e1) ==> IsConn(c, EliminateEq1(c, e1, e2).e1)
    ensures IsConn(c, e2) ==> IsConn(c, EliminateEq1(c, e1, e2).e2)
    decreases Size(e1) + Size(e2)
  {
    hide ExprEq;
    if IsConn(c, e1) {
      EliminatedConn(c, e1.left, e2);
      EliminatedConn(c, e1.right, EliminateEq1(c, e1.left, e2).e2);
    }
  }

  /** Nothing that is left on one side equals something left on the other. */
  lemma MatchApart(c: Conn, ls: seq<Expr>, ms: seq<Expr>, x: Expr, n: nat)
    requires Equivalence(n) && Operands(c, ls, n) && Operands(c, ms, n) && Apart(c, ls, ms)
    requires x in ls && x != Neutral(c)
    ensures Plain(x) && Size(x) <= n && ExprEq(x, x) && Matches(ms, x) == 0 && Matches(ls, x) > 0
  {
    hide ExprEq; hide Plain; hide Size;
    var i :| 0 <= i < |ls| && ls[i] == x;
    assert Operand(c, x, n) && ExprEq(x, x);
    MatchesSome(ls, x);
    forall j | 0 <= j < |ms| ensures !ExprEq(ms[j], x) {
      assert Operand(c, ms[j], n);
      NeutralApart(c, x);
    }
    MatchesSome(ms, x);
  }

  lemma NoneShared(c: Conn, ls: seq<Expr>, ms: seq<Expr>, x: Expr, n: nat)
    requires Equivalence(n) && Operands(c, ls, n) && Operands(c, ms, n) && Apart(c, ls, ms)
    ensures x == Neutral(c) || x !in ls || x !in ms
  {
    hide ExprEq; hide Plain; hide Size; hide Apart; hide Operands; hide Equivalence;
    if x != Neutral(c) && x in ls {
      MatchApart(c, ls, ms, x, n);
      MatchesSome(ms, x);
      assert forall j :: 0 <= j < |ms| ==> !ExprEq(ms[j], x);
    }
  }

  /** If one symbol is left on both sides, every operand was dropped. */
  lemma BothNeutral(c: Conn, f1: Expr, f2: Expr, n: nat)
    requires Equivalence(n) && Operands(c, LeavesOf(c, f1), n) && Operands(c, LeavesOf(c, f2), n)
    requires Apart(c, LeavesOf(c, f1), LeavesOf(c, f2))
    requires EliminateYn(f1).Sym? && EliminateYn(f1) == EliminateYn(f2)
    ensures AllNeutral(c, LeavesOf(c, f1)) && AllNeutral(c, LeavesOf(c, f2))
  {
    Remains(c, f1, n);
    Remains(c, f2, n);
    hide EliminateYn; hide LeavesOf; hide ExprEq; hide Equivalence; hide Apart; hide Operands; hide Plain;
    var ls, ms, s := LeavesOf(c, f1), LeavesOf(c, f2), EliminateYn(f1);
    NoneShared(c, ls, ms, s, n);
  }

  /** With the same operands on both sides nothing can be left on either. */
  lemma NoneLeft(c: Conn, ls: seq<Expr>, ms: seq<Expr>, ls1: seq<Expr>, ms1: seq<Expr>, n: nat)
    requires Equivalence(n) && Operands(c, ls1, n) && Operands(c, ms1, n)
    requires Thinned(c, ls, ls1) && Thinned(c, ms, ms1) && Apart(c, ls1, ms1) && Kept(ls, ms, ls1, ms1, n)
    requires forall x :: x in ls || x in ms ==> Matches(ls, x) == Matches(ms, x)
    ensures AllNeutral(c, ls1) && AllNeutral(c, ms1)
  {
    ApartSwap(c, ls1, ms1, n);
    hide Equivalence; hide Apart; hide Operands; hide Plain; hide Size; hide Matches;
    forall i | 0 <= i < |ls1| ensures ls1[i] == Neutral(c) {
      if ls1[i] != Neutral(c) {
        assert ls1[i] == ls[i];
        MatchApart(c, ls1, ms1, ls1[i], n);
      }
    }
    forall j | 0 <= j < |ms1| ensures ms1[j] == Neutral(c) {
      if ms1[j] != Neutral(c) {
        assert ms1[j] == ms[j];
        MatchApart(c, ms1, ls1, ms1[j], n);
      }
    }
  }

  // ----- the test is an equivalence -----

  lemma {:induction false} LeafIn(c: Conn, e: Expr, x: Expr, n: nat)
    requires Plain(e) && Size(e) <= if IsConn(c, e) then n + 1 else n
    requires x in LeavesOf(c, e)
    ensures Plain(x) && Size(x) <= n
  {
    if IsConn(c, e) {
      if x in LeavesOf(c, e.left) {
        LeafIn(c, e.left, x, n);
      } else {
        LeafIn(c, e.right, x, n);
      }
    }
  }

  lemma BalancedOperands(c: Conn, e1: Expr, e2: Expr, n: nat)
    requires IsConn(c, e1) && IsConn(c, e2) && Balanced(c, e1, e2, n)
    requires Plain(e1) && Plain(e2) && Size(e1) <= n + 1 && Size(e2) <= n + 1
    ensures SameOperands(c, e1, e2) && SameOperands(c, e2, e1)
  {
    forall x | x in LeavesOf(c, e1) || x in LeavesOf(c, e2) ensures Matches(LeavesOf(c, e1), x) == Matches(LeavesOf(c, e2), x) {
      if x in LeavesOf(c, e1) {
        LeafIn(c, e1, x, n);
      } else {
        LeafIn(c, e2, x, n);
      }
    }
  }

  lemma Reflexive(x: Expr, n: nat)
    requires Equivalence(n) && Plain(x) && Size(x) <= n + 1
    ensures ExprEq(x, x)
  {
    if x.And? {
      LevelsEqual(CAnd, x, x, n);
    } else if x.Or? {
      LevelsEqual(COr, x, x, n);
    }
  }

  lemma Symmetric(x: Expr, y: Expr, n: nat)
    requires Equivalence(n) && Plain(x) && Plain(y) && Size(x) <= n + 1 && Size(y) <= n + 1
    requires ExprEq(x, y)
    ensures ExprEq(y, x)
  {
    if x.And? || x.Or? {
      var c := if x.And? then CAnd else COr;
      LevelsEqual(c, x, y, n);
      BalancedOperands(c, x, y, n);
      LevelsEqual(c, y, x, n);
    }
  }

  lemma Transitive(x: Expr, y: Expr, z: Expr, n: nat)
    requires Equivalence(n) && Plain(x) && Plain(y) && Plain(z) && Size(x) <= n + 1 && Size(y) <= n + 1 && Size(z) <= n + 1
    requires ExprEq(x, y) && ExprEq(y, z)
    ensures ExprEq(x, z)
  {
    if x.And? || x.Or? {
      var c := if x.And? then CAnd else COr;
      LevelsEqual(c, x, y, n);
      LevelsEqual(c, y, z, n);
      assert Balanced(c, x, z, n);
      BalancedOperands(c, x, z, n);
      LevelsEqual(c, x, z, n);
    }
  }

  lemma {:induction false} EquivalenceUpTo(n: nat)
    ensures Equivalence(n)
  {
    if n == 0 {
      forall x: Expr ensures Size(x) > 0 {
        SizePositive(x);
      }
    } else {
      EquivalenceUpTo(n - 1);
      hide ExprEq; hide Plain; hide Size;
      forall x: Expr | Plain(x) && Size(x) <= n ensures ExprEq(x, x) {
        Reflexive(x, n - 1);
      }
      forall x: Expr, y: Expr | Plain(x) && Plain(y) && Size(x) <= n && Size(y) <= n && ExprEq(x, y) ensures ExprEq(y, x) {
        Symmetric(x, y, n - 1);
      }
      forall x: Expr, y: Expr, z: Expr
        | Plain(x) && Plain(y) && Plain(z) && Size(x) <= n && Size(y) <= n && Size(z) <= n && ExprEq(x, y) && ExprEq(y, z)
        ensures ExprEq(x, z)
      {
        Transitive(x, y, z, n - 1);
      }
    }
  }

  /** The equality test is an equivalence on trees without y and n.  Atoms are equal to
      themselves only, negations if what they negate is, and two levels of the same
      connective exactly if every operand occurs as often in the one as in the other. */
  lemma EqualExactly(e1: Expr, e2: Expr)
    requires Plain(e1) && Plain(e2)
    ensures ExprEq(e1, e1)
    ensures ExprEq(e1, e2) <==> ExprEq(e2, e1)
    ensures e1.Sym? || e1.Cmp? ==> (ExprEq(e1, e2) <==> e1 == e2)
    ensures e1.Not? ==> (ExprEq(e1, e2) <==> e2.Not? && ExprEq(e1.e, e2.e))
    ensures e1.And? ==> (ExprEq(e1, e2) <==> e2.And? && SameOperands(CAnd, e1, e2))
    ensures e1.Or? ==> (ExprEq(e1, e2) <==> e2.Or? && SameOperands(COr, e1, e2))
  {
    var n := Size(e1) + Size(e2);
    EquivalenceUpTo(n);
    SizePositive(e1);
    SizePositive(e2);
    if (e1.And? && e2.And?) || (e1.Or? && e2.Or?) {
      var c := if e1.And? then CAnd else COr;
      LevelsEqual(c, e1, e2, n - 1);
      if ExprEq(e1, e2) {
        BalancedOperands(c, e1, e2, n - 1);
      }
    }
  }

  /** Two levels with the same operands, each as often, are equal whatever their order
      and grouping. */
  lemma PermutedEqual(c: Conn, e1: Expr, e2: Expr)
    requires Plain(e1) && Plain(e2) && IsConn(c, e1) && IsConn(c, e2)
    requires multiset(LeavesOf(c, e1)) == multiset(LeavesOf(c, e2))
    ensures ExprEq(e1, e2)
  {
    forall x: Expr ensures Matches(LeavesOf(c, e1), x) == Matches(LeavesOf(c, e2), x) {
      MatchesPermuted(LeavesOf(c, e1), LeavesOf(c, e2), x);
    }
    EqualExactly(e1, e2);
  }

  function Without(s: seq<Expr>, j: nat): seq<Expr>
    requires j < |s|
  {
    s[..j] + s[j + 1..]
  }

  lemma CutOne<T>(s: seq<T>, j: nat)
    requires j < |s|
    ensures multiset(s[..j] + s[j + 1..]) == multiset(s) - multiset{s[j]}
  {
    assert s == s[..j] + [s[j]] + s[j + 1..];
    assert multiset(s) == multiset(s[..j]) + multiset{s[j]} + multiset(s[j + 1..]);
  }

  lemma WithoutSame(a: seq<Expr>, b: seq<Expr>, j: nat)
    requires a != [] && j < |b| && b[j] == a[0] && multiset(a) == multiset(b)
    ensures multiset(a[1..]) == multiset(Without(b, j))
  {
    CutOne(a, 0);
    CutOne(b, j);
    assert a[..0] + a[1..] == a[1..];
  }

  lemma WithoutMatches(b: seq<Expr>, j: nat, x: Expr)
    requires j < |b|
    ensures Matches(b, x) == Matches(Without(b, j), x) + Matches([b[j]], x)
  {
    hide ExprEq; hide Matches;
    assert b == b[..j] + ([b[j]] + b[j + 1..]);
    MatchesConcat(b[..j], b[j + 1..], x);
    MatchesConcat([b[j]], b[j + 1..], x);
    MatchesConcat(b[..j], [b[j]] + b[j + 1..], x);
  }

  lemma {:induction false} MatchesPermuted(a: seq<Expr>, b: seq<Expr>, x: Expr)
    requires multiset(a) == multiset(b)
    ensures Matches(a, x) == Matches(b, x)
  {
    hide ExprEq; hide Without;
    assert |a| == |multiset(a)| && |b| == |multiset(b)|;
    if a == [] {
      assert b == [];
    } else {
      assert a[0] in multiset(b);
      var j :| 0 <= j < |b| && b[j] == a[0];
      WithoutSame(a, b, j);
      MatchesPermuted(a[1..], Without(b, j), x);
      WithoutMatches(b, j, x);
      assert a == [a[0]] + a[1..];
      MatchesConcat([a[0]], a[1..], x);
    }
  }

  /** Swapping the operands of && or ||. */
  lemma SwappedEqual(c: Conn, a: Expr, b: Expr)
    requires Plain(a) && Plain(b)
    ensures ExprEq(Mk(c, a, b), Mk(c, b, a))
  {
    LeavesMk(c, a, b);
    LeavesMk(c, b, a);
    assert multiset(LeavesOf(c, a) + LeavesOf(c, b)) == multiset(LeavesOf(c, b) + LeavesOf(c, a));
    PermutedEqual(c, Mk(c, a, b), Mk(c, b, a));
  }

  /** A && A && B and A && B && B: every operand of either stands in the other, but not as
      often, and they are not found equal. */
  lemma RepeatedNotEqual(a: Symbol, b: Symbol)
    requires a != b && Plain(Sym(a)) && Plain(Sym(b))
    ensures var e1, e2 := And(And(Sym(a), Sym(a)), Sym(b)), And(And(Sym(a), Sym(b)), Sym(b));
            && (forall x :: x in LeavesOf(CAnd, e1) <==> x in LeavesOf(CAnd, e2))
            && !ExprEq(e1, e2)
  {
    var x, y := Sym(a), Sym(b);
    LeavesMk(CAnd, x, x);
    LeavesMk(CAnd, x, y);
    LeavesMk(CAnd, Mk(CAnd, x, x), y);
    LeavesMk(CAnd, Mk(CAnd, x, y), y);
    assert LeavesOf(CAnd, And(And(x, x), y)) == [x, x] + [y];
    assert LeavesOf(CAnd, And(And(x, y), y)) == [x, y] + [y];
    MatchesConcat([x], [x], x);
    MatchesConcat([x, x], [y], x);
    MatchesConcat([x], [y], x);
    MatchesConcat([x, y], [y], x);
    OneMatch(x, x);
    OneMatch(y, x);
    EqualExactly(x, x);
    EqualExactly(y, x);
    assert [x] + [x] == [x, x] && [x] + [y] == [x, y];
    EqualExactly(And(And(x, x), y), And(And(x, y), y));
    hide ExprEq;
    assert x in LeavesOf(CAnd, And(And(x, x), y));
  }
}
