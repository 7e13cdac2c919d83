/** Operand elimination: dropping y/n operands, and the mutually recursive pair
    that decides equality of two trees by removing the operands they share. */
module Equality {
  import opened Exprs

  // ----- dropping y and n operands -----

  function YnNode(c: Conn, a: Expr, b: Expr): Expr {
    var absorbing := if c == CAnd then E_NO else E_YES;
    if a == absorbing then absorbing
    else if a == Neutral(c) then b
    else if b == absorbing then absorbing
    else if b == Neutral(c) then a
    else Mk(c, a, b)
  }

  function EliminateYn(e: Expr): Expr {
    match e
    case And(a, b) => YnNode(CAnd, EliminateYn(a), EliminateYn(b))
    case Or(a, b) => YnNode(COr, EliminateYn(a), EliminateYn(b))
    case _ => e
  }

  /** Some && or || node reached through && and || nodes has a y or n operand. */
  predicate HasYn(e: Expr) {
    match e
    case And(a, b) => a == E_YES || a == E_NO || b == E_YES || b == E_NO || HasYn(a) || HasYn(b)
    case Or(a, b) => a == E_YES || a == E_NO || b == E_YES || b == E_NO || HasYn(a) || HasYn(b)
    case _ => false
  }

  lemma YnNodeFacts(c: Conn, a: Expr, b: Expr)
    ensures Size(YnNode(c, a, b)) <= 1 + Size(a) + Size(b)
    ensures !HasYn(a) && !HasYn(b) ==> !HasYn(YnNode(c, a, b))
    ensures a == E_YES || a == E_NO || b == E_YES || b == E_NO ==> Size(YnNode(c, a, b)) <= Size(a) + Size(b)
    ensures !(a == E_YES || a == E_NO || b == E_YES || b == E_NO) ==> YnNode(c, a, b) == Mk(c, a, b)
  {
  }

  lemma MkValue(c: Conn, a: Expr, b: Expr, env: Env)
    ensures Value(Mk(c, a, b), env) == Combine(c, Value(a, env), Value(b, env))
  {
  }

  lemma YnNodeValue(c: Conn, a: Expr, b: Expr, env: Env)
    requires Value(E_YES, env) == YES && Value(E_NO, env) == NO
    ensures Value(YnNode(c, a, b), env) == Combine(c, Value(a, env), Value(b, env))
  {
    hide Value;
    MkValue(c, a, b, env);
  }

  /** Dropping y and n operands keeps the value at every valuation. */
  lemma {:induction false} EliminateYnSound(e: Expr, env: Env)
    requires Produced(env)
    ensures Value(EliminateYn(e), env) == Value(e, env)
  {
    assert ProducedAt(env, SYM_YES) && ProducedAt(env, SYM_NO);
    match e {
      case And(a, b) =>
        EliminateYnSound(a, env);
        EliminateYnSound(b, env);
        YnNodeValue(CAnd, EliminateYn(a), EliminateYn(b), env);
      case Or(a, b) =>
        EliminateYnSound(a, env);
        EliminateYnSound(b, env);
        YnNodeValue(COr, EliminateYn(a), EliminateYn(b), env);
      case _ =>
    }
  }

  /** It never grows the tree, leaves no such operand behind, and changes (and then
      strictly shrinks) the tree exactly when there was one. */
  lemma {:induction false} EliminateYnSize(e: Expr)
    ensures Size(EliminateYn(e)) <= Size(e)
    ensures HasYn(e) ==> Size(EliminateYn(e)) < Size(e)
    ensures !HasYn(e) ==> EliminateYn(e) == e
    ensures !HasYn(EliminateYn(e))
  {
    match e {
      case And(a, b) =>
        EliminateYnSize(a);
        EliminateYnSize(b);
        YnNodeFacts(CAnd, EliminateYn(a), EliminateYn(b));
      case Or(a, b) =>
        EliminateYnSize(a);
        EliminateYnSize(b);
        YnNodeFacts(COr, EliminateYn(a), EliminateYn(b));
      case _ =>
    }
  }

  // ----- expression equality -----

  datatype Pair = Pair(e1: Expr, e2: Expr)

  /** A pair of leaves of a level: equal leaves become the neutral operand on both
      sides, except that y and y, or n and n, are left alone. */
  function EliminateLeaves(c: Conn, e1: Expr, e2: Expr): (p: Pair)
    requires !IsConn(c, e1) && !IsConn(c, e2)
    ensures Size(p.e1) <= Size(e1) && Size(p.e2) <= Size(e2)
    decreases Size(e1) + Size(e2), 3
  {
    if e1 == e2 && (e1 == E_YES || e1 == E_NO) then Pair(e1, e2)
    else if !ExprEq(e1, e2) then Pair(e1, e2)
    else Pair(Neutral(c), Neutral(c))
  }

  /** Compares every operand of e1 at the level of c with every such operand of e2. */
  function EliminateEq1(c: Conn, e1: Expr, e2: Expr): (p: Pair)
    ensures Size(p.e1) <= Size(e1) && Size(p.e2) <= Size(e2)
    decreases Size(e1) + Size(e2), if IsConn(c, e1) || IsConn(c, e2) then 0 else 4
  {
    if IsConn(c, e1) then
      var p := EliminateEq1(c, e1.left, e2);
      var q := EliminateEq1(c, e1.right, p.e2);
      Pair(Mk(c, p.e1, q.e1), q.e2)
    else if IsConn(c, e2) then
      var p := EliminateEq1(c, e1, e2.left);
      var q := EliminateEq1(c, p.e1, e2.right);
      Pair(q.e1, Mk(c, p.e2, q.e2))
    else
      EliminateLeaves(c, e1, e2)
  }

  predicate SameConstructor(e1: Expr, e2: Expr) {
    match (e1, e2)
    case (Sym(_), Sym(_)) => true
    case (Cmp(o1, _, _), Cmp(o2, _, _)) => o1 == o2
    case (Not(_), Not(_)) => true
    case (And(_, _), And(_, _)) => true
    case (Or(_, _), Or(_, _)) => true
    case _ => false
  }

  /** Both trees after the first phase, at the level of e1's own connective. */
  function EliminateEqFirst(e1: Expr, e2: Expr): (p: Pair)
    ensures Size(p.e1) <= Size(e1) && Size(p.e2) <= Size(e2)
    decreases Size(e1) + Size(e2), 1
  {
    if e1.And? then EliminateEq1(CAnd, e1, e2)
    else if e1.Or? then EliminateEq1(COr, e1, e2)
    else Pair(e1, e2)
  }

  /** Both trees after the second phase, at the level of e2's connective. */
  function EliminateEqSecond(p: Pair): (q: Pair)
    ensures Size(q.e1) <= Size(p.e1) && Size(q.e2) <= Size(p.e2)
    decreases Size(p.e1) + Size(p.e2), 1
  {
    if SameConstructor(p.e1, p.e2) then p
    else if p.e2.And? then EliminateEq1(CAnd, p.e1, p.e2)
    else if p.e2.Or? then EliminateEq1(COr, p.e1, p.e2)
    else p
  }

  /** Removes from both trees the operands they share. */
  function EliminateEq(e1: Expr, e2: Expr): (p: Pair)
    ensures Size(p.e1) <= Size(e1) && Size(p.e2) <= Size(e2)
    decreases Size(e1) + Size(e2), 2
  {
    var q := EliminateEqSecond(EliminateEqFirst(e1, e2));
    EliminateYnSize(q.e1);
    EliminateYnSize(q.e2);
    Pair(EliminateYn(q.e1), EliminateYn(q.e2))
  }

  predicate ExprEq(e1: Expr, e2: Expr)
    decreases Size(e1) + Size(e2), 3, 0
  {
    if !SameConstructor(e1, e2) then false
    else match e1
      case Cmp(_, _, _) => e1.l == e2.l && e1.r == e2.r
      case Sym(_) => e1.s == e2.s
      case Not(_) => ExprEq(e1.e, e2.e)
      case _ =>
        var p := EliminateEq(e1, e2);
        p.e1.Sym? && p.e1 == p.e2
  }

  // ----- what elimination means -----

  /** Every ordering of the reduced pair was already an ordering of the original. */
  ghost predicate Reflects(orig: Pair, red: Pair, env: Env) {
    && (Value(red.e1, env) <= Value(red.e2, env) ==> Value(orig.e1, env) <= Value(orig.e2, env))
    && (Value(red.e2, env) <= Value(red.e1, env) ==> Value(orig.e2, env) <= Value(orig.e1, env))
  }

  /** The stronger invariant of one phase: both sides gave up operands of the same
      value k, so the original values are k combined with the reduced ones. */
  ghost predicate Factored(c: Conn, orig: Pair, red: Pair, env: Env) {
    exists k: Tri ::
      && Value(orig.e1, env) == Combine(c, k, Value(red.e1, env))
      && Value(orig.e2, env) == Combine(c, k, Value(red.e2, env))
  }

  lemma SameFactors(c: Conn, p: Pair, env: Env)
    ensures Factored(c, p, p, env)
  {
    var k: Tri := if c == CAnd then YES else NO;
    assert Value(p.e1, env) == Combine(c, k, Value(p.e1, env));
  }

  lemma LeavesFactor(c: Conn, e1: Expr, e2: Expr, env: Env)
    requires Produced(env)
    requires !IsConn(c, e1) && !IsConn(c, e2)
    requires ExprEq(e1, e2) ==> Value(e1, env) == Value(e2, env)
    ensures Factored(c, Pair(e1, e2), EliminateLeaves(c, e1, e2), env)
  {
    hide ExprEq;
    assert ProducedAt(env, SYM_YES) && ProducedAt(env, SYM_NO);
    SameFactors(c, Pair(e1, e2), env);
    var k := Value(e1, env);
    assert k == Combine(c, k, Value(Neutral(c), env));
  }

  lemma {:induction false} EliminateEq1Factors(c: Conn, e1: Expr, e2: Expr, env: Env)
    requires Produced(env)
    ensures Factored(c, Pair(e1, e2), EliminateEq1(c, e1, e2), env)
    decreases Size(e1) + Size(e2), if IsConn(c, e1) || IsConn(c, e2) then 0 else 4
  {
    hide Factored;
    if IsConn(c, e1) {
      var p := EliminateEq1(c, e1.left, e2);
      EliminateEq1Factors(c, e1.left, e2, env);
      EliminateEq1Factors(c, e1.right, p.e2, env);
      FactorsCompose(c, e1.left, e1.right, e2, p, EliminateEq1(c, e1.right, p.e2), env);
    } else if IsConn(c, e2) {
      var p := EliminateEq1(c, e1, e2.left);
      EliminateEq1Factors(c, e1, e2.left, env);
      EliminateEq1Factors(c, p.e1, e2.right, env);
      var q := EliminateEq1(c, p.e1, e2.right);
      FactoredSwap(c, Pair(e1, e2.left), p, env);
      FactoredSwap(c, Pair(p.e1, e2.right), q, env);
      FactorsCompose(c, e2.left, e2.right, e1, Pair(p.e2, p.e1), Pair(q.e2, q.e1), env);
      FactoredSwap(c, Pair(e2, e1), Pair(Mk(c, p.e2, q.e2), q.e1), env);
    } else {
      if ExprEq(e1, e2) {
        ExprEqSound(e1, e2, env);
      }
      LeavesFactor(c, e1, e2, env);
    }
  }

  /** The algebra of two successive steps: a shared k, then a shared m. */
  lemma CombineChain(c: Conn, k: Tri, m: Tri, a: Tri, b: Tri, x: Tri)
    ensures Combine(c, Combine(c, k, a), Combine(c, m, b)) == Combine(c, Combine(c, k, m), Combine(c, a, b))
    ensures Combine(c, k, Combine(c, m, x)) == Combine(c, Combine(c, k, m), x)
  {
  }

  ghost function Factor(c: Conn, orig: Pair, red: Pair, env: Env): (k: Tri)
    requires Factored(c, orig, red, env)
    ensures Value(orig.e1, env) == Combine(c, k, Value(red.e1, env))
    ensures Value(orig.e2, env) == Combine(c, k, Value(red.e2, env))
  {
    var k: Tri :|
      && Value(orig.e1, env) == Combine(c, k, Value(red.e1, env))
      && Value(orig.e2, env) == Combine(c, k, Value(red.e2, env));
    k
  }

  /** Two steps with the same connective, one on each operand of the left tree. */
  lemma FactorsCompose(c: Conn, a: Expr, b: Expr, e2: Expr, p: Pair, q: Pair, env: Env)
    requires Factored(c, Pair(a, e2), p, env)
    requires Factored(c, Pair(b, p.e2), q, env)
    ensures Factored(c, Pair(Mk(c, a, b), e2), Pair(Mk(c, p.e1, q.e1), q.e2), env)
  {
    var k := Factor(c, Pair(a, e2), p, env);
    var m := Factor(c, Pair(b, p.e2), q, env);
    CombineChain(c, k, m, Value(p.e1, env), Value(q.e1, env), Value(q.e2, env));
    var n: Tri := Combine(c, k, m);
    assert Value(Mk(c, a, b), env) == Combine(c, n, Value(Mk(c, p.e1, q.e1), env));
  }

  lemma FactoredSwap(c: Conn, orig: Pair, red: Pair, env: Env)
    requires Factored(c, orig, red, env)
    ensures Factored(c, Pair(orig.e2, orig.e1), Pair(red.e2, red.e1), env)
  {
  }

  lemma FactoredReflects(c: Conn, orig: Pair, red: Pair, env: Env)
    requires Factored(c, orig, red, env)
    ensures Reflects(orig, red, env)
  {
  }

  /** Removing shared operands reflects order: whatever ordering holds between the
      reduced trees at a valuation held between the originals. */
  lemma {:induction false} EliminateEqReflects(e1: Expr, e2: Expr, env: Env)
    requires Produced(env)
    ensures Reflects(Pair(e1, e2), EliminateEq(e1, e2), env)
    decreases Size(e1) + Size(e2), 2
  {
    var p := EliminateEqFirst(e1, e2);
    var q := EliminateEqSecond(p);
    if e1.And? || e1.Or? {
      var c := if e1.And? then CAnd else COr;
      EliminateEq1Factors(c, e1, e2, env);
      FactoredReflects(c, Pair(e1, e2), p, env);
    }
    if !SameConstructor(p.e1, p.e2) && (p.e2.And? || p.e2.Or?) {
      var c := if p.e2.And? then CAnd else COr;
      EliminateEq1Factors(c, p.e1, p.e2, env);
      FactoredReflects(c, p, q, env);
    }
    EliminateYnSound(q.e1, env);
    EliminateYnSound(q.e2, env);
  }

  /** Trees that compare equal have equal values. */
  lemma {:induction false} ExprEqSound(e1: Expr, e2: Expr, env: Env)
    requires Produced(env)
    requires ExprEq(e1, e2)
    ensures Value(e1, env) == Value(e2, env)
    decreases Size(e1) + Size(e2), 3, 0
  {
    match e1
    case Not(_) => ExprEqSound(e1.e, e2.e, env);
    case And(_, _) => EliminateEqReflects(e1, e2, env);
    case Or(_, _) => EliminateEqReflects(e1, e2, env);
    case _ =>
  }

  /** When elimination reduces e2 to y, e1 implies e2 at every valuation. */
  lemma ReducedToYesImplies(e1: Expr, e2: Expr, env: Env)
    requires Produced(env)
    requires EliminateEq(e1, e2).e2 == E_YES
    ensures Value(e1, env) <= Value(e2, env)
  {
    assert ProducedAt(env, SYM_YES);
    EliminateEqReflects(e1, e2, env);
  }
}
