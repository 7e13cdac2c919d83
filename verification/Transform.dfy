/** Rewriting of logical operators and comparisons: normal form, rounding of
    comparisons for bool users, and comparison insertion. */
module Transform {
  import opened Wrappers
  import opened Exprs
  import opened Joins

  // ----- the rewriter, in its own order -----

  function Negated(op: CmpOp): CmpOp {
    match op
    case Eq => Ne
    case Ne => Eq
    case Le => Gt
    case Ge => Lt
    case Lt => Ge
    case Gt => Le
  }

  /** A bool compared for = or != with y, m or n becomes the bool, its negation or a
      constant. */
  function TransformCmp(op: CmpOp, l: Symbol, r: Symbol): Expr {
    if !l.typ.Boolean? then Cmp(op, l, r)
    else if op == Eq then
      if r == SYM_NO then Not(Sym(l))
      else if r == SYM_MOD then E_NO
      else if r == SYM_YES then Sym(l)
      else Cmp(op, l, r)
    else if op == Ne then
      if r == SYM_NO then Sym(l)
      else if r == SYM_MOD then E_YES
      else if r == SYM_YES then Not(Sym(l))
      else Cmp(op, l, r)
    else Cmp(op, l, r)
  }

  function NegateSym(s: Symbol): Expr {
    if s == SYM_YES then E_NO
    else if s == SYM_MOD then Sym(SYM_MOD)
    else if s == SYM_NO then E_YES
    else Not(Sym(s))
  }

  /** Decreases with every rewriting step. */
  function Weight(e: Expr): nat {
    match e
    case Sym(_) => 2
    case Cmp(_, _, _) => 5
    case Not(x) => Weight(x) * Weight(x)
    case And(a, b) => Weight(a) + Weight(b) + 1
    case Or(a, b) => Weight(a) + Weight(b) + 1
  }

  lemma Squares(a: nat, b: nat)
    requires 2 <= a <= b
    ensures a < a * a <= b * b
  {
  }

  lemma DeMorganWeight(a: nat, b: nat)
    requires 2 <= a && 2 <= b
    ensures a * a + b * b + 1 < (a + b + 1) * (a + b + 1)
  {
    assert (a + b + 1) * (a + b + 1) == a * a + b * b + 1 + 2 * a * b + 2 * a + 2 * b;
  }

  lemma {:induction false} WeightPositive(e: Expr)
    ensures Weight(e) >= 2
  {
    match e {
      case Not(x) =>
        WeightPositive(x);
        Squares(Weight(x), Weight(x));
      case And(a, b) =>
        WeightPositive(a);
        WeightPositive(b);
      case Or(a, b) =>
        WeightPositive(a);
        WeightPositive(b);
      case _ =>
    }
  }

  /** An operand weighs less than its node. */
  lemma OperandWeight(e: Expr)
    ensures e.Not? ==> Weight(e.e) < Weight(e)
    ensures e.And? || e.Or? ==> Weight(e.left) < Weight(e) && Weight(e.right) < Weight(e)
  {
    match e {
      case Not(x) =>
        WeightPositive(x);
        Squares(Weight(x), Weight(x));
      case And(a, b) =>
        WeightPositive(a);
        WeightPositive(b);
      case Or(a, b) =>
        WeightPositive(a);
        WeightPositive(b);
      case _ =>
    }
  }

  /** What a negation is rewritten to weighs less than the negation. */
  lemma NotWeight(y: Expr)
    ensures Weight(y) < Weight(Not(y))
    ensures y.Not? ==> Weight(y.e) < Weight(Not(y))
    ensures y.Or? ==> Weight(And(Not(y.left), Not(y.right))) < Weight(Not(y))
    ensures y.And? ==> Weight(Or(Not(y.left), Not(y.right))) < Weight(Not(y))
    ensures 4 <= Weight(Not(y)) && (y.Cmp? ==> 5 <= Weight(Not(y)))
  {
    NotWeighsMore(y);
    OperandWeight(y);
    if y.And? || y.Or? {
      DeMorganNot(y.left, y.right);
    }
  }

  lemma NotWeighsMore(y: Expr)
    ensures Weight(y) < Weight(Not(y)) && 4 <= Weight(Not(y))
  {
    WeightPositive(y);
    Squares(2, Weight(y));
    Squares(Weight(y), Weight(y));
  }

  lemma DeMorganNot(a: Expr, b: Expr)
    ensures Weight(Not(a)) + Weight(Not(b)) + 1 < Weight(Not(And(a, b)))
    ensures Weight(Not(And(a, b))) == Weight(Not(Or(a, b)))
  {
    WeightPositive(a);
    WeightPositive(b);
    DeMorganWeight(Weight(a), Weight(b));
  }

  lemma NotMonotone(y: Expr, x: Expr)
    requires Weight(y) <= Weight(x)
    ensures Weight(Not(y)) <= Weight(Not(x))
  {
    WeightPositive(y);
    Squares(Weight(y), Weight(x));
  }

  function Rewrite(e: Expr): (r: Expr)
    ensures Weight(r) <= Weight(e)
    decreases Weight(e), 1
  {
    OperandWeight(e);
    match e
    case Sym(_) => e
    case Cmp(op, l, r) => TransformCmp(op, l, r)
    case And(a, b) => And(Rewrite(a), Rewrite(b))
    case Or(a, b) => Or(Rewrite(a), Rewrite(b))
    case Not(x) =>
      var y := Rewrite(x);
      NotMonotone(y, x);
      RewriteNot(y)
  }

  /** The rules for a negation whose operand is already rewritten. */
  function RewriteNot(y: Expr): (r: Expr)
    ensures Weight(r) <= Weight(Not(y))
    decreases Weight(Not(y)), 0
  {
    NotWeight(y);
    match y
    case Not(z) => Rewrite(z)
    case Cmp(op, l, r) => Cmp(Negated(op), l, r)
    case Or(a, b) => Rewrite(And(Not(a), Not(b)))
    case And(a, b) => Rewrite(Or(Not(a), Not(b)))
    case Sym(s) => NegateSym(s)
  }

  // ----- the reference: one structural walk that carries the polarity -----

  function Nnf(e: Expr, pos: bool): Expr {
    match e
    case Sym(s) => if pos then e else NegateSym(s)
    case Cmp(op, l, r) => TransformCmp(if pos then op else Negated(op), l, r)
    case Not(x) => Nnf(x, !pos)
    case And(a, b) => if pos then And(Nnf(a, true), Nnf(b, true)) else Or(Nnf(a, false), Nnf(b, false))
    case Or(a, b) => if pos then Or(Nnf(a, true), Nnf(b, true)) else And(Nnf(a, false), Nnf(b, false))
  }

  /** Negation only on a symbol other than y, m, n; no bool compared for = or != with
      one of them. */
  predicate Normal(e: Expr) {
    match e
    case Sym(_) => true
    case Cmp(op, l, r) => !(l.typ.Boolean? && (op == Eq || op == Ne) && IsTriConst(r))
    case Not(x) => x.Sym? && !IsTriConst(x.s)
    case And(a, b) => Normal(a) && Normal(b)
    case Or(a, b) => Normal(a) && Normal(b)
  }

  lemma {:induction false} NnfNormal(e: Expr, pos: bool)
    ensures Normal(Nnf(e, pos))
  {
    match e {
      case Not(x) => NnfNormal(x, !pos);
      case And(a, b) =>
        NnfNormal(a, pos);
        NnfNormal(b, pos);
      case Or(a, b) =>
        NnfNormal(a, pos);
        NnfNormal(b, pos);
      case _ =>
    }
  }

  /** Walking twice multiplies the polarities. */
  lemma {:induction false} NnfTwice(e: Expr, pos: bool, again: bool)
    ensures Nnf(Nnf(e, pos), again) == Nnf(e, pos == again)
  {
    match e {
      case Not(x) => NnfTwice(x, !pos, again);
      case And(a, b) =>
        NnfTwice(a, pos, again);
        NnfTwice(b, pos, again);
      case Or(a, b) =>
        NnfTwice(a, pos, again);
        NnfTwice(b, pos, again);
      case _ =>
    }
  }

  /** The rewriter, which re-runs itself on its own De Morgan output, computes exactly
      the structural walk. */
  lemma {:induction false} RewriteIsNnf(e: Expr)
    ensures Rewrite(e) == Nnf(e, true)
    decreases Weight(e), 1
  {
    OperandWeight(e);
    match e {
      case Not(x) =>
        RewriteIsNnf(x);
        NnfTwice(x, true, true);
        NnfTwice(x, true, false);
        NotMonotone(Rewrite(x), x);
        RewriteNotIsNnf(Rewrite(x));
      case And(a, b) =>
        RewriteIsNnf(a);
        RewriteIsNnf(b);
      case Or(a, b) =>
        RewriteIsNnf(a);
        RewriteIsNnf(b);
      case _ =>
    }
  }

  lemma {:induction false} RewriteNotIsNnf(y: Expr)
    requires y == Nnf(y, true)
    ensures RewriteNot(y) == Nnf(y, false)
    decreases Weight(Not(y)), 0
  {
    NotWeight(y);
    match y {
      case Not(z) => RewriteIsNnf(z);
      case Or(a, b) => RewriteIsNnf(And(Not(a), Not(b)));
      case And(a, b) => RewriteIsNnf(Or(Not(a), Not(b)));
      case _ =>
    }
  }

  /** The result is in normal form, and rewriting it again changes nothing. */
  lemma RewriteNormalIdempotent(e: Expr)
    ensures Normal(Rewrite(e))
    ensures Rewrite(Rewrite(e)) == Rewrite(e)
  {
    RewriteIsNnf(e);
    NnfNormal(e, true);
    RewriteIsNnf(Rewrite(e));
    NnfTwice(e, true, true);
  }

  // ----- what rewriting means -----

  /** Negating the operator negates the comparison if and only if the two symbols can
      be ordered, or only equality is asked for. */
  lemma NegatedCmpExact(env: Env, op: CmpOp, l: Symbol, r: Symbol)
    ensures CmpValue(env, Negated(op), l, r) == TriNot(CmpValue(env, op, l, r))
            <==> (op == Eq || op == Ne || Compare(env, l, r).Some?)
  {
    hide Compare;
    hide StrCmp;
  }

  const TRISTATE_A := Symbol(7, "A", Tristate, false)

  /** A symbol of a type that cannot be ordered: !(V < V) is y, its rewritten form n. */
  lemma NegatedCmpCounterexample()
    ensures var v, env := Symbol(9, "V", Other, false), Pin(TRISTATE_A, NO);
            && Produced(env) && Compare(env, v, v).None?
            && Rewrite(Not(Cmp(Lt, v, v))) == Cmp(Ge, v, v)
            && Value(Not(Cmp(Lt, v, v)), env) == YES && Value(Cmp(Ge, v, v), env) == NO
  {
    PinProduced(TRISTATE_A, NO);
    var v := Symbol(9, "V", Other, false);
    RewriteIsNnf(Not(Cmp(Lt, v, v)));
  }

  lemma TransformCmpSound(env: Env, op: CmpOp, l: Symbol, r: Symbol)
    requires Produced(env)
    ensures Value(TransformCmp(op, l, r), env) == CmpValue(env, op, l, r)
  {
    hide CmpValue;
    if l.typ.Boolean? {
      assert ProducedAt(env, l) && ProducedAt(env, SYM_YES) && ProducedAt(env, SYM_NO);
      EqualityWithTri(env, l, NO);
      EqualityWithTri(env, l, MOD);
      EqualityWithTri(env, l, YES);
    }
  }

  lemma {:induction false} NnfSound(e: Expr, pos: bool, env: Env)
    requires Produced(env) && Ordered(e, env)
    ensures Value(Nnf(e, pos), env) == if pos then Value(e, env) else TriNot(Value(e, env))
  {
    match e {
      case Sym(s) =>
        assert ProducedAt(env, SYM_YES) && ProducedAt(env, SYM_MOD) && ProducedAt(env, SYM_NO);
      case Cmp(op, l, r) =>
        hide CmpValue;
        TransformCmpSound(env, if pos then op else Negated(op), l, r);
        NegatedCmpExact(env, op, l, r);
      case Not(x) =>
        NnfSound(x, !pos, env);
      case And(a, b) =>
        NnfSound(a, pos, env);
        NnfSound(b, pos, env);
      case Or(a, b) =>
        NnfSound(a, pos, env);
        NnfSound(b, pos, env);
    }
  }

  /** Rewriting keeps the value at every valuation the evaluator can produce at which
      the ordered comparisons of the expression can be decided. */
  lemma RewriteSound(e: Expr, env: Env)
    requires Produced(env) && Ordered(e, env)
    ensures Value(Rewrite(e), env) == Value(e, env)
  {
    RewriteIsNnf(e);
    NnfSound(e, true, env);
  }

  /** What a rewritten expression still satisfies. */
  lemma {:induction false} NnfShape(e: Expr, pos: bool, env: Env)
    ensures Clean(e) ==> Clean(Nnf(e, pos))
    ensures Ordered(e, env) ==> Ordered(Nnf(e, pos), env)
    ensures NotOnSymbols(Nnf(e, pos))
  {
    hide CleanConst;
    match e {
      case Not(x) =>
        NnfShape(x, !pos, env);
      case And(a, b) =>
        NnfShape(a, pos, env);
        NnfShape(b, pos, env);
      case Or(a, b) =>
        NnfShape(a, pos, env);
        NnfShape(b, pos, env);
      case _ =>
    }
  }

  // ----- FOO!=n -> FOO -----

  function TransBool(e: Expr): Expr {
    match e
    case And(a, b) => And(TransBool(a), TransBool(b))
    case Or(a, b) => Or(TransBool(a), TransBool(b))
    case Not(x) => Not(TransBool(x))
    case Cmp(op, l, r) => if op == Ne && l.typ.Tristate? && r == SYM_NO then Sym(l) else e
    case Sym(_) => e
  }

  /** What a symbol that is not a tristate makes of a value: m counts as y. */
  function Round(t: Tri): Tri { if t == MOD then YES else t }

  lemma RoundCombine(a: Tri, b: Tri)
    ensures Round(TriMin(a, b)) == TriMin(Round(a), Round(b))
    ensures Round(TriMax(a, b)) == TriMax(Round(a), Round(b))
  {
  }

  /** Up to rounding, the replacement keeps the value of every expression whose
      negations stand on symbols only. */
  lemma {:induction false} TransBoolSound(e: Expr, env: Env)
    requires Produced(env) && NotOnSymbols(e)
    ensures Round(Value(TransBool(e), env)) == Round(Value(e, env))
  {
    match e {
      case And(a, b) =>
        TransBoolSound(a, env);
        TransBoolSound(b, env);
        RoundCombine(Value(a, env), Value(b, env));
        RoundCombine(Value(TransBool(a), env), Value(TransBool(b), env));
      case Or(a, b) =>
        TransBoolSound(a, env);
        TransBoolSound(b, env);
        RoundCombine(Value(a, env), Value(b, env));
        RoundCombine(Value(TransBool(a), env), Value(TransBool(b), env));
      case Cmp(op, l, r) =>
        hide CmpValue;
        if l.typ.Tristate? {
          EqualityWithTri(env, l, NO);
        }
      case _ =>
    }
  }

  /** No comparison of a tristate with n by != is left below the logical operators. */
  predicate NoneUnequal(e: Expr) {
    match e
    case And(a, b) => NoneUnequal(a) && NoneUnequal(b)
    case Or(a, b) => NoneUnequal(a) && NoneUnequal(b)
    case Not(x) => NoneUnequal(x)
    case Cmp(op, l, r) => !(op == Ne && l.typ.Tristate? && r == SYM_NO)
    case Sym(_) => true
  }

  /** Every such comparison is replaced, and nothing is changed where there is none. */
  lemma {:induction false} TransBoolSettles(e: Expr)
    ensures NoneUnequal(TransBool(e))
    ensures TransBool(e) == e <==> NoneUnequal(e)
  {
    match e {
      case And(a, b) =>
        TransBoolSettles(a);
        TransBoolSettles(b);
      case Or(a, b) =>
        TransBoolSettles(a);
        TransBoolSettles(b);
      case Not(x) => TransBoolSettles(x);
      case _ =>
    }
  }

  /** Below a negation the replacement is right if and only if the tristate is not m. */
  lemma TransBoolNotExact(a: Symbol, env: Env)
    requires Produced(env) && a.typ.Tristate?
    ensures Round(Value(TransBool(Not(Cmp(Ne, a, SYM_NO))), env)) == Round(Value(Not(Cmp(Ne, a, SYM_NO)), env))
            <==> env.tri(a) != MOD
  {
    hide CmpValue;
    EqualityWithTri(env, a, NO);
  }

  /** A tristate A at m: !(A!=n) is n, the rewritten !A rounds to y. */
  lemma TransBoolCounterexample()
    ensures var e, env := Not(Cmp(Ne, TRISTATE_A, SYM_NO)), Pin(TRISTATE_A, MOD);
            Produced(env) && Value(e, env) == NO && Round(Value(TransBool(e), env)) == YES
  {
    PinProduced(TRISTATE_A, MOD);
    hide CmpValue;
    EqualityWithTri(Pin(TRISTATE_A, MOD), TRISTATE_A, NO);
  }

  // ----- 'm' -> 'm' && MODULES -----

  function RewriteM(e: Expr, modules: Symbol): Expr {
    match e
    case Not(x) => Not(RewriteM(x, modules))
    case And(a, b) => And(RewriteM(a, modules), RewriteM(b, modules))
    case Or(a, b) => Or(RewriteM(a, modules), RewriteM(b, modules))
    case Sym(s) => if s == SYM_MOD then And(e, Sym(modules)) else e
    case Cmp(_, _, _) => e
  }

  /** The valuation that reads the constant m as t. */
  function ReadingM(env: Env, t: Tri): Env {
    env.(tri := (s: Symbol) => ReadTri(env, t, s))
  }

  function ReadTri(env: Env, t: Tri, s: Symbol): Tri { if s == SYM_MOD then t else env.tri(s) }

  /** The rewritten expression reads the constant m as n without modules, and exactly
      as before with them. */
  lemma {:induction false} RewriteMMeaning(e: Expr, modules: Symbol, env: Env)
    requires Produced(env)
    ensures Value(RewriteM(e, modules), env) == Value(e, ReadingM(env, TriMin(MOD, env.tri(modules))))
    ensures env.tri(modules) != NO ==> Value(RewriteM(e, modules), env) == Value(e, env)
  {
    assert ProducedAt(env, SYM_MOD);
    match e {
      case Not(x) =>
        RewriteMMeaning(x, modules, env);
      case And(a, b) =>
        RewriteMMeaning(a, modules, env);
        RewriteMMeaning(b, modules, env);
      case Or(a, b) =>
        RewriteMMeaning(a, modules, env);
        RewriteMMeaning(b, modules, env);
      case Cmp(op, l, r) =>
        SameStrings(env, TriMin(MOD, env.tri(modules)), l, r);
      case Sym(s) =>
    }
  }

  lemma SameStrings(env: Env, t: Tri, l: Symbol, r: Symbol)
    ensures Compare(ReadingM(env, t), l, r) == Compare(env, l, r)
    ensures StringValue(ReadingM(env, t), l) == StringValue(env, l)
    ensures StringValue(ReadingM(env, t), r) == StringValue(env, r)
  {
  }

  lemma {:induction false} RewriteMShape(e: Expr, modules: Symbol, env: Env)
    ensures Clean(e) ==> Clean(RewriteM(e, modules))
    ensures Ordered(e, env) ==> Ordered(RewriteM(e, modules), env)
  {
    match e {
      case Not(x) =>
        RewriteMShape(x, modules, env);
      case And(a, b) =>
        RewriteMShape(a, modules, env);
        RewriteMShape(b, modules, env);
      case Or(a, b) =>
        RewriteMShape(a, modules, env);
        RewriteMShape(b, modules, env);
      case _ =>
    }
  }

  // ----- inserting comparisons -----

  /** The expression that compares e with the constant t, for = or for !=. */
  function TransCompare(e: Expr, eq: bool, t: Tri): Expr {
    match e
    case And(a, b) =>
      var both := if t == YES then And(TransCompare(a, true, t), TransCompare(b, true, t))
                  else if t == NO then Or(TransCompare(a, true, t), TransCompare(b, true, t))
                  else e;
      if eq then both else Not(both)
    case Or(a, b) =>
      var both := if t == YES then Or(TransCompare(a, true, t), TransCompare(b, true, t))
                  else if t == NO then And(TransCompare(a, true, t), TransCompare(b, true, t))
                  else e;
      if eq then both else Not(both)
    case Not(x) => TransCompare(x, !eq, t)
    case Cmp(_, _, _) =>
      if t == MOD then (if eq then E_NO else E_YES)
      else if eq == (t == YES) then e
      else Not(e)
    case Sym(s) => Cmp(if eq then Eq else Ne, s, ConstSym(t))
  }

  function TransCompareOpt(e: Option<Expr>, eq: bool, t: Tri): Expr {
    match e
    case None => if eq then Sym(ConstSym(t)) else Not(Sym(ConstSym(t)))
    case Some(x) => TransCompare(x, eq, t)
  }

  /** The symbol has its tristate value as string: it is a bool, a tristate or one of
      y, m, n. */
  predicate Typed(s: Symbol) { s.typ.Boolean? || s.typ.Tristate? || IsTriConst(s) }

  /** No negated operand is m at this valuation, and all operands are typed. */
  predicate Crisp(e: Expr, env: Env) {
    match e
    case Sym(s) => Typed(s)
    case Cmp(_, _, _) => true
    case Not(x) => Crisp(x, env) && Value(x, env) != MOD
    case And(a, b) => Crisp(a, env) && Crisp(b, env)
    case Or(a, b) => Crisp(a, env) && Crisp(b, env)
  }

  lemma TypedCompare(env: Env, s: Symbol, t: Tri)
    requires Produced(env) && Typed(s)
    ensures CmpValue(env, Eq, s, ConstSym(t)) == TriBool(env.tri(s) == t)
    ensures CmpValue(env, Ne, s, ConstSym(t)) == TriBool(env.tri(s) != t)
  {
    if IsTriConst(s) {
      assert ProducedAt(env, s) && ProducedAt(env, ConstSym(t));
      LetterNames(NO);
      LetterNames(MOD);
      LetterNames(YES);
      hide ParseLong;
      assert StringValue(env, s) == s.name && StringValue(env, ConstSym(t)) == Letter(t);
      assert s.name == Letter(env.tri(s));
      assert Compare(env, s, ConstSym(t)) == Some(StrCmp(s.name, Letter(t)));
    } else {
      EqualityWithTri(env, s, t);
    }
  }

  lemma CompareBoth(a: Tri, b: Tri, t: Tri)
    requires t != MOD
    ensures TriBool(TriMin(a, b) == t)
         == if t == YES then TriMin(TriBool(a == t), TriBool(b == t)) else TriMax(TriBool(a == t), TriBool(b == t))
    ensures TriBool(TriMax(a, b) == t)
         == if t == YES then TriMax(TriBool(a == t), TriBool(b == t)) else TriMin(TriBool(a == t), TriBool(b == t))
  {
  }

  lemma BoolNot(p: bool)
    ensures TriNot(TriBool(p)) == TriBool(!p)
  {
  }

  /** For n and y, the inserted comparisons decide whether e has that value. */
  lemma {:induction false} TransCompareSound(e: Expr, eq: bool, t: Tri, env: Env)
    requires Produced(env) && Crisp(e, env) && t != MOD
    ensures Value(TransCompare(e, eq, t), env) == TriBool((Value(e, env) == t) == eq)
  {
    match e {
      case Sym(s) =>
        hide CmpValue;
        TypedCompare(env, s, t);
      case Cmp(op, l, r) =>
        hide Compare;
      case Not(x) =>
        TransCompareSound(x, !eq, t, env);
      case And(a, b) =>
        TransCompareSound(a, true, t, env);
        TransCompareSound(b, true, t, env);
        CompareJunction(e, eq, t, env);
      case Or(a, b) =>
        TransCompareSound(a, true, t, env);
        TransCompareSound(b, true, t, env);
        CompareJunction(e, eq, t, env);
    }
  }

  lemma CompareJunction(e: Expr, eq: bool, t: Tri, env: Env)
    requires (e.And? || e.Or?) && t != MOD
    requires Value(TransCompare(e.left, true, t), env) == TriBool(Value(e.left, env) == t)
    requires Value(TransCompare(e.right, true, t), env) == TriBool(Value(e.right, env) == t)
    ensures Value(TransCompare(e, eq, t), env) == TriBool((Value(e, env) == t) == eq)
  {
    hide TriMin; hide TriMax; hide TriNot; hide TriBool;
    CompareBoth(Value(e.left, env), Value(e.right, env), t);
    BoolNot(Value(e, env) == t);
  }

  /** Below a negation this holds if and only if the negated operand is not m. */
  lemma TransCompareNotExact(x: Expr, eq: bool, t: Tri, env: Env)
    requires Produced(env) && Crisp(x, env) && t != MOD
    ensures Value(TransCompare(Not(x), eq, t), env) == TriBool((Value(Not(x), env) == t) == eq)
            <==> Value(x, env) != MOD
  {
    TransCompareSound(x, !eq, t, env);
  }

  /** A tristate A at m: !A is m and so not n, the inserted comparison A=n says n. */
  lemma TransCompareCounterexample()
    ensures var e, env := Not(Sym(TRISTATE_A)), Pin(TRISTATE_A, MOD);
            && Produced(env) && Value(e, env) != NO
            && TransCompare(e, false, NO) == Cmp(Eq, TRISTATE_A, SYM_NO) && Value(TransCompare(e, false, NO), env) == NO
  {
    PinProduced(TRISTATE_A, MOD);
    hide CmpValue;
    EqualityWithTri(Pin(TRISTATE_A, MOD), TRISTATE_A, NO);
  }

  lemma {:induction false} TransCompareShape(e: Expr, eq: bool, t: Tri, env: Env)
    ensures Clean(e) ==> Clean(TransCompare(e, eq, t))
    ensures Ordered(e, env) ==> Ordered(TransCompare(e, eq, t), env)
  {
    match e {
      case Not(x) =>
        TransCompareShape(x, !eq, t, env);
      case And(a, b) =>
        TransCompareShape(a, true, t, env);
        TransCompareShape(b, true, t, env);
      case Or(a, b) =>
        TransCompareShape(a, true, t, env);
        TransCompareShape(b, true, t, env);
      case Sym(s) =>
        TriConstsClean(t);
      case _ =>
    }
  }
}
