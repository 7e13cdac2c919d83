/** Joining two operands of one && or || level into a single operand. */
module Joins {
  import opened Wrappers
  import opened Exprs
  import opened Equality

  predicate Joinable(e: Expr) {
    match e
    case Cmp(op, _, _) => op == Eq || op == Ne
    case Sym(_) => true
    case Not(_) => true
    case _ => false
  }

  predicate IsCmp(e: Expr, op: CmpOp) { e.Cmp? && e.op == op }

  predicate IsCmpWith(e: Expr, op: CmpOp, r: Symbol) { IsCmp(e, op) && e.r == r }

  /** The symbol the first operand is about; a negation may hide a symbol or an
      equality. */
  function FirstSymbol(e: Expr): Option<Symbol> {
    match e
    case Sym(s) => Some(s)
    case Cmp(op, l, _) => if op == Eq || op == Ne then Some(l) else None
    case Not(Sym(s)) => Some(s)
    case Not(Cmp(op, l, _)) => if op == Eq || op == Ne then Some(l) else None
    case _ => None
  }

  /** The symbol the second operand is about; a negation may only hide a symbol. */
  function SecondSymbol(e: Expr): Option<Symbol> {
    match e
    case Not(Cmp(_, _, _)) => None
    case _ => FirstSymbol(e)
  }

  /** {a,b} are the two right-hand sides, in either order. */
  predicate RightSides(e1: Expr, e2: Expr, op: CmpOp, a: Symbol, b: Symbol) {
    && IsCmp(e1, op) && IsCmp(e2, op)
    && ((e1.r == a && e2.r == b) || (e1.r == b && e2.r == a))
  }

  predicate SymbolAndCmp(e1: Expr, e2: Expr, op: CmpOp, r: Symbol) {
    (e1.Sym? && IsCmpWith(e2, op, r)) || (e2.Sym? && IsCmpWith(e1, op, r))
  }

  predicate SymbolAndNegation(e1: Expr, e2: Expr) {
    (e1.Not? && e1.e.Sym? && e2.Sym?) || (e2.Not? && e2.e.Sym? && e1.Sym?)
  }

  function CommonSymbol(e1: Expr, e2: Expr): Option<Symbol> {
    var s1, s2 := FirstSymbol(e1), SecondSymbol(e2);
    if s1.Some? && s1 == s2 && (s1.value.typ.Boolean? || s1.value.typ.Tristate?) then s1 else None
  }

  function JoinOr(e1: Expr, e2: Expr): Option<Expr> {
    if ExprEq(e1, e2) then Some(e1)
    else if !Joinable(e1) || !Joinable(e2) then None
    else match CommonSymbol(e1, e2)
      case None => None
      case Some(a) =>
        if a.typ.Tristate? && RightSides(e1, e2, Eq, SYM_YES, SYM_MOD) then Some(Cmp(Ne, a, SYM_NO))
        else if a.typ.Tristate? && RightSides(e1, e2, Eq, SYM_YES, SYM_NO) then Some(Cmp(Ne, a, SYM_MOD))
        else if a.typ.Tristate? && RightSides(e1, e2, Eq, SYM_MOD, SYM_NO) then Some(Cmp(Ne, a, SYM_YES))
        else if a.typ.Boolean? && SymbolAndNegation(e1, e2) then Some(E_YES)
        else None
  }

  /** a='b' && a!='c' with constant b and c. */
  function JoinConsts(a: Symbol, b: Symbol, c: Symbol): Expr {
    if b != c then Cmp(Eq, a, b) else E_NO
  }

  function JoinAndTristate(a: Symbol, e1: Expr, e2: Expr): Option<Expr> {
    if IsCmp(e1, Eq) && IsCmp(e2, Ne) && e2.r.isConst && e1.r.isConst then Some(JoinConsts(a, e1.r, e2.r))
    else if IsCmp(e1, Ne) && IsCmp(e2, Eq) && e1.r.isConst && e2.r.isConst then Some(JoinConsts(a, e2.r, e1.r))
    else if RightSides(e1, e2, Ne, SYM_YES, SYM_NO) then Some(Cmp(Eq, a, SYM_MOD))
    else if RightSides(e1, e2, Ne, SYM_YES, SYM_MOD) then Some(Cmp(Eq, a, SYM_NO))
    else if RightSides(e1, e2, Ne, SYM_MOD, SYM_NO) then Some(Cmp(Eq, a, SYM_YES))
    else None
  }

  function JoinAnd(e1: Expr, e2: Expr): Option<Expr> {
    if ExprEq(e1, e2) then Some(e1)
    else if !Joinable(e1) || !Joinable(e2) then None
    else match CommonSymbol(e1, e2)
      case None => None
      case Some(a) =>
        if SymbolAndCmp(e1, e2, Eq, SYM_YES) then Some(Cmp(Eq, a, SYM_YES))
        else if SymbolAndCmp(e1, e2, Ne, SYM_NO) then Some(Sym(a))
        else if SymbolAndCmp(e1, e2, Ne, SYM_MOD) then Some(Cmp(Eq, a, SYM_YES))
        else if a.typ.Tristate? then JoinAndTristate(a, e1, e2)
        else None
  }

  function Join(c: Conn, e1: Expr, e2: Expr): Option<Expr> {
    if c == CAnd then JoinAnd(e1, e2) else JoinOr(e1, e2)
  }

  // ----- when the joining rules are sound -----

  /** A constant compared with a tristate is one of y, m, n, or means no tristate
      value at all (so it is not a numeral such as "0"). */
  predicate CleanConst(c: Symbol) {
    c.isConst ==> c.typ.Unknown? && (IsTriConst(c) || ConstMeaning(c.name) !in {0, 1, 2})
  }

  predicate Clean(e: Expr) {
    match e
    case Sym(_) => true
    case Cmp(_, l, r) => l.typ.Tristate? ==> CleanConst(r)
    case Not(x) => Clean(x)
    case And(a, b) => Clean(a) && Clean(b)
    case Or(a, b) => Clean(a) && Clean(b)
  }

  /** Every ordered comparison in e can be decided at this valuation. */
  predicate Ordered(e: Expr, env: Env) {
    match e
    case Sym(_) => true
    case Cmp(op, l, r) => op == Eq || op == Ne || Compare(env, l, r).Some?
    case Not(x) => Ordered(x, env)
    case And(a, b) => Ordered(a, env) && Ordered(b, env)
    case Or(a, b) => Ordered(a, env) && Ordered(b, env)
  }

  /** Negation only stands directly on a symbol. */
  predicate NotOnSymbols(e: Expr) {
    match e
    case Sym(_) => true
    case Cmp(_, _, _) => true
    case Not(x) => x.Sym?
    case And(a, b) => NotOnSymbols(a) && NotOnSymbols(b)
    case Or(a, b) => NotOnSymbols(a) && NotOnSymbols(b)
  }

  lemma TwoEqual(a: Symbol, t: Tri, u: Tri, v: Tri, env: Env)
    requires Produced(env) && a.typ.Tristate?
    requires {t, u, v} == {NO, MOD, YES}
    ensures CmpValue(env, Ne, a, ConstSym(v)) == TriMax(CmpValue(env, Eq, a, ConstSym(t)), CmpValue(env, Eq, a, ConstSym(u)))
    ensures CmpValue(env, Eq, a, ConstSym(v)) == TriMin(CmpValue(env, Ne, a, ConstSym(t)), CmpValue(env, Ne, a, ConstSym(u)))
  {
    EqualityWithTri(env, a, t);
    EqualityWithTri(env, a, u);
    EqualityWithTri(env, a, v);
    assert env.tri(a) in {t, u, v};
  }

  lemma JoinOrSound(e1: Expr, e2: Expr, env: Env)
    requires Produced(env)
    requires JoinOr(e1, e2).Some?
    ensures Value(JoinOr(e1, e2).value, env) == TriMax(Value(e1, env), Value(e2, env))
  {
    hide ExprEq; hide CmpValue;
    if ExprEq(e1, e2) {
      ExprEqSound(e1, e2, env);
    } else {
      var a := CommonSymbol(e1, e2).value;
      if a.typ.Tristate? {
        TwoEqual(a, YES, MOD, NO, env);
        TwoEqual(a, YES, NO, MOD, env);
        TwoEqual(a, MOD, NO, YES, env);
      } else {
        assert ProducedAt(env, a) && ProducedAt(env, SYM_YES);
      }
    }
  }

  lemma JoinConstsSound(a: Symbol, b: Symbol, c: Symbol, env: Env)
    requires Produced(env) && a.typ.Tristate?
    requires b.typ.Unknown? && c.typ.Unknown?
    requires b != c ==> ConstMeaning(b.name) !in {0, 1, 2} || ConstMeaning(b.name) != ConstMeaning(c.name)
    ensures Value(JoinConsts(a, b, c), env) == TriMin(CmpValue(env, Eq, a, b), CmpValue(env, Ne, a, c))
  {
    assert ProducedAt(env, SYM_NO);
    EqualityByMeaning(env, a, b);
    EqualityByMeaning(env, a, c);
  }

  lemma JoinConstsClean(a: Symbol, b: Symbol, c: Symbol, env: Env)
    requires Produced(env) && a.typ.Tristate?
    requires b.isConst && c.isConst && CleanConst(b) && CleanConst(c)
    ensures Value(JoinConsts(a, b, c), env) == TriMin(CmpValue(env, Eq, a, b), CmpValue(env, Ne, a, c))
  {
    LetterNames(NO);
    LetterNames(MOD);
    LetterNames(YES);
    JoinConstsSound(a, b, c, env);
  }

  lemma JoinAndTristateSound(a: Symbol, e1: Expr, e2: Expr, env: Env)
    requires Produced(env) && Clean(e1) && Clean(e2)
    requires a.typ.Tristate? && CommonSymbol(e1, e2) == Some(a)
    requires JoinAndTristate(a, e1, e2).Some?
    ensures Value(JoinAndTristate(a, e1, e2).value, env) == TriMin(Value(e1, env), Value(e2, env))
  {
    assert e1 == Cmp(e1.op, a, e1.r) && e2 == Cmp(e2.op, a, e2.r);
    if e1.op == Eq {
      JoinConstsClean(a, e1.r, e2.r, env);
    } else if e2.op == Eq {
      JoinConstsClean(a, e2.r, e1.r, env);
    } else {
      JoinTwoUnequal(a, e1.r, e2.r, env);
    }
  }

  /** Excluding two of the three values of a tristate leaves the third. */
  lemma JoinTwoUnequal(a: Symbol, b: Symbol, c: Symbol, env: Env)
    requires Produced(env) && a.typ.Tristate?
    requires JoinAndTristate(a, Cmp(Ne, a, b), Cmp(Ne, a, c)).Some?
    ensures Value(JoinAndTristate(a, Cmp(Ne, a, b), Cmp(Ne, a, c)).value, env)
         == TriMin(CmpValue(env, Ne, a, b), CmpValue(env, Ne, a, c))
  {
    hide CmpValue;
    TwoEqual(a, YES, NO, MOD, env);
    TwoEqual(a, YES, MOD, NO, env);
    TwoEqual(a, MOD, NO, YES, env);
  }

  lemma JoinAndSound(e1: Expr, e2: Expr, env: Env)
    requires Produced(env) && Clean(e1) && Clean(e2)
    requires JoinAnd(e1, e2).Some?
    ensures Value(JoinAnd(e1, e2).value, env) == TriMin(Value(e1, env), Value(e2, env))
  {
    if ExprEq(e1, e2) {
      ExprEqSound(e1, e2, env);
    } else {
      var a := CommonSymbol(e1, e2).value;
      assert ProducedAt(env, a);
      if SymbolAndCmp(e1, e2, Eq, SYM_YES) || SymbolAndCmp(e1, e2, Ne, SYM_MOD) {
        EqualityWithTri(env, a, YES);
        EqualityWithTri(env, a, MOD);
      } else if SymbolAndCmp(e1, e2, Ne, SYM_NO) {
        EqualityWithTri(env, a, NO);
      } else {
        JoinAndTristateSound(a, e1, e2, env);
      }
    }
  }

  /** A join keeps the value of the two operands taken together. */
  lemma JoinSound(c: Conn, e1: Expr, e2: Expr, env: Env)
    requires Produced(env) && Clean(e1) && Clean(e2)
    requires Join(c, e1, e2).Some?
    ensures Value(Join(c, e1, e2).value, env) == Combine(c, Value(e1, env), Value(e2, env))
  {
    if c == CAnd {
      JoinAndSound(e1, e2, env);
    } else {
      JoinOrSound(e1, e2, env);
    }
  }

  lemma TriConstsClean(t: Tri)
    ensures CleanConst(ConstSym(t))
  {
  }

  /** What a join may return: a copy of the first operand, or an atom that keeps
      cleanliness and adds no negation. */
  lemma JoinShape(c: Conn, e1: Expr, e2: Expr)
    requires Join(c, e1, e2).Some?
    ensures var j := Join(c, e1, e2).value;
            && (j == e1 || j.Sym? || (j.Cmp? && (j.op == Eq || j.op == Ne)))
            && (Clean(e1) && Clean(e2) ==> Clean(j))
  {
    hide ExprEq; hide CleanConst;
    TriConstsClean(NO);
    TriConstsClean(MOD);
    TriConstsClean(YES);
  }

  // ----- exactly when the rule for two constants is sound -----

  /** A valuation in which tristate a has value t. */
  function Pin(a: Symbol, t: Tri): (env: Env)
    requires a.typ.Tristate?
  {
    Env((s: Symbol) => if s == a then t else if s == SYM_YES then YES else if s == SYM_MOD then MOD else NO,
        (s: Symbol) => s.name,
        YES)
  }

  lemma PinProduced(a: Symbol, t: Tri)
    requires a.typ.Tristate?
    ensures Produced(Pin(a, t))
  {
    forall s: Symbol ensures ProducedAt(Pin(a, t), s) {
    }
  }

  /** Rewriting a='b' && a!='c' for distinct constants keeps the value at every
      valuation if and only if b and c do not mean the same tristate value. */
  lemma JoinConstsExact(a: Symbol, b: Symbol, c: Symbol)
    requires a.typ.Tristate? && b.typ.Unknown? && c.typ.Unknown? && b != c
    ensures (forall env: Env :: Produced(env) ==>
               Value(JoinConsts(a, b, c), env) == Value(And(Cmp(Eq, a, b), Cmp(Ne, a, c)), env))
            <==> !(ConstMeaning(b.name) in {0, 1, 2} && ConstMeaning(b.name) == ConstMeaning(c.name))
  {
    var t := ConstMeaning(b.name);
    if t in {0, 1, 2} && t == ConstMeaning(c.name) {
      var env := Pin(a, t);
      PinProduced(a, t);
      EqualityByMeaning(env, a, b);
      EqualityByMeaning(env, a, c);
      assert Value(JoinConsts(a, b, c), env) != Value(And(Cmp(Eq, a, b), Cmp(Ne, a, c)), env);
    } else {
      forall env: Env | Produced(env)
        ensures Value(JoinConsts(a, b, c), env) == Value(And(Cmp(Eq, a, b), Cmp(Ne, a, c)), env)
      {
        JoinConstsSound(a, b, c, env);
      }
    }
  }

  /** The concrete failure: for a tristate A that is n, A='0' && A!='n' is n, and the
      joined form A='0' is y. */
  lemma JoinNumeralCounterexample()
    ensures var a := Symbol(7, "A", Tristate, false);
            var zero := Symbol(8, "0", Unknown, true);
            var env := Pin(a, NO);
            && Produced(env)
            && JoinAnd(Cmp(Eq, a, zero), Cmp(Ne, a, SYM_NO)) == Some(Cmp(Eq, a, zero))
            && Value(And(Cmp(Eq, a, zero), Cmp(Ne, a, SYM_NO)), env) == NO
            && Value(Cmp(Eq, a, zero), env) == YES
  {
    var a := Symbol(7, "A", Tristate, false);
    var zero := Symbol(8, "0", Unknown, true);
    var env := Pin(a, NO);
    PinProduced(a, NO);
    var s := "0";
    assert s[1..] == [];
    assert Digits(s, 8, 0) == Digits(s[1..], 8, 0) == Some(0);
    assert StrToNumber(s, 0) == SignedPart(s, 0) == Some(0);
    assert ConstMeaning("0") == 0;
    EqualityByMeaning(env, a, zero);
    EqualityWithTri(env, a, NO);
  }
}
