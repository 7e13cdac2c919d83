/** Dependency propagation through the whole optimiser, as the menu code runs it. */
module Pipeline {
  import opened Wrappers
  import opened Exprs
  import opened Equality
  import opened Joins
  import opened Dedup
  import opened Redundancy
  import opened Transform

  function RewriteOpt(e: Option<Expr>, modules: Symbol): Option<Expr> {
    if e.None? then None else Some(Rewrite(RewriteM(e.value, modules)))
  }

  function DedupOpt(e: Option<Expr>): Option<Expr> {
    if e.None? then None else Some(EliminateDups(e.value))
  }

  /** The dependency of a menu node or property once its parent's is added. */
  function Propagate(parent: Option<Expr>, dep: Option<Expr>, modules: Symbol): Option<Expr> {
    DedupOpt(OptAnd(parent, RewriteOpt(dep, modules)))
  }

  /** The same for a property of a symbol that is not a tristate. */
  function PropagateBool(base: Option<Expr>, cond: Option<Expr>, modules: Symbol): Option<Expr> {
    var dep := Propagate(base, cond, modules);
    if dep.None? then None else Some(TransBool(dep.value))
  }

  /** What the pipeline needs of an expression: clean constants and comparisons that
      can be decided at the valuation. */
  ghost predicate Fit(e: Option<Expr>, env: Env) {
    e.Some? ==> Clean(e.value) && Ordered(e.value, env)
  }

  ghost predicate Nnfed(e: Option<Expr>) { e.Some? ==> NotOnSymbols(e.value) }

  /** Propagation is conjunction: the result has the value of the parent dependency and
      the dependency (with m read as m && MODULES) taken together.  If the parent's
      negations stand on symbols, so do the result's. */
  lemma PropagateSound(parent: Option<Expr>, dep: Option<Expr>, modules: Symbol, env: Env)
    requires Produced(env) && Fit(parent, env) && Fit(dep, env)
    ensures OptValue(Propagate(parent, dep, modules), env)
         == TriMin(OptValue(parent, env), if dep.None? then YES else Value(RewriteM(dep.value, modules), env))
    ensures Fit(Propagate(parent, dep, modules), env)
    ensures Nnfed(parent) ==> Nnfed(Propagate(parent, dep, modules))
  {
    hide EliminateDups; hide Rewrite; hide RewriteM; hide Produced;
    if dep.Some? {
      var m := RewriteM(dep.value, modules);
      RewriteMShape(dep.value, modules, env);
      RewriteSound(m, env);
      RewriteIsNnf(m);
      NnfShape(m, true, env);
    }
    var both := OptAnd(parent, RewriteOpt(dep, modules));
    if both.Some? {
      EliminateDupsSound(both.value, Shape(parent.None? || NotOnSymbols(parent.value), Some(env)), env);
    }
  }

  /** What is propagated holds nothing superfluous. */
  lemma PropagatedTidy(parent: Option<Expr>, dep: Option<Expr>, modules: Symbol)
    ensures Propagate(parent, dep, modules).Some? <==> parent.Some? || dep.Some?
    ensures Propagate(parent, dep, modules).Some? ==> Tidy(Propagate(parent, dep, modules).value)
  {
    hide EliminateDups; hide Tidy; hide Rewrite; hide RewriteM;
    var both := OptAnd(parent, RewriteOpt(dep, modules));
    if both.Some? {
      EliminateDupsTidies(both.value);
    }
  }

  /** For a symbol that is not a tristate, the simplified condition of a prompt gives
      the same visibility, after rounding m to y, as the unsimplified conjunction. */
  lemma PropagateBoolSound(base: Option<Expr>, cond: Option<Expr>, modules: Symbol, env: Env)
    requires Produced(env) && Fit(base, env) && Fit(cond, env) && Nnfed(base)
    ensures Round(OptValue(PropagateBool(base, cond, modules), env))
         == Round(TriMin(OptValue(base, env), if cond.None? then YES else Value(RewriteM(cond.value, modules), env)))
  {
    PropagateSound(base, cond, modules, env);
    var dep := Propagate(base, cond, modules);
    if dep.Some? {
      TransBoolSound(dep.value, env);
    }
  }

  // ----- visibility: the maximum over the prompts, rounded -----

  function MaxValue(es: seq<Option<Expr>>, env: Env): Tri {
    if es == [] then NO else TriMax(OptValue(es[0], env), MaxValue(es[1..], env))
  }

  /** The unsimplified conditions of a list of prompts, as values. */
  function MaxConj(base: Option<Expr>, conds: seq<Option<Expr>>, modules: Symbol, env: Env): Tri {
    if conds == [] then NO
    else TriMax(TriMin(OptValue(base, env),
                       if conds[0].None? then YES else Value(RewriteM(conds[0].value, modules), env)),
                MaxConj(base, conds[1..], modules, env))
  }

  function PropagateAll(base: Option<Expr>, conds: seq<Option<Expr>>, modules: Symbol): seq<Option<Expr>> {
    if conds == [] then []
    else [PropagateBool(base, conds[0], modules)] + PropagateAll(base, conds[1..], modules)
  }

  /** End to end: the visibility of a non-tristate symbol computed from the simplified
      prompts is the one computed from what was written. */
  lemma {:induction false} VisibilitySound(base: Option<Expr>, conds: seq<Option<Expr>>, modules: Symbol, env: Env)
    requires Produced(env) && Fit(base, env) && Nnfed(base)
    requires forall k :: 0 <= k < |conds| ==> Fit(conds[k], env)
    ensures Round(MaxValue(PropagateAll(base, conds, modules), env)) == Round(MaxConj(base, conds, modules, env))
  {
    if conds != [] {
      hide PropagateBool;
      PropagateBoolSound(base, conds[0], modules, env);
      VisibilitySound(base, conds[1..], modules, env);
      var p, rest := PropagateBool(base, conds[0], modules), PropagateAll(base, conds[1..], modules);
      assert ([p] + rest)[1..] == rest;
      RoundCombine(OptValue(p, env), MaxValue(rest, env));
    }
  }

  // ----- the superset test for automatic submenus -----

  function IsNotNo(e: Option<Expr>): Expr {
    EliminateDups(Rewrite(TransCompareOpt(e, false, NO)))
  }

  /** dep may be moved below a symbol with condition base: what is left of base after
      removing what dep already demands is y. */
  predicate Superset(dep: Option<Expr>, base: Option<Expr>) {
    EliminateEq(IsNotNo(dep), IsNotNo(base)).e2 == E_YES
  }

  ghost predicate Crisped(e: Option<Expr>, env: Env) { e.Some? ==> Crisp(e.value, env) }

  lemma IsNotNoSound(e: Option<Expr>, env: Env)
    requires Produced(env) && Fit(e, env) && Crisped(e, env)
    ensures Value(IsNotNo(e), env) == TriBool(OptValue(e, env) != NO)
  {
    hide EliminateDups; hide Rewrite;
    var c := TransCompareOpt(e, false, NO);
    if e.Some? {
      TransCompareSound(e.value, false, NO, env);
      TransCompareShape(e.value, false, NO, env);
    } else {
      assert ProducedAt(env, SYM_NO);
    }
    RewriteSound(c, env);
    RewriteIsNnf(c);
    NnfShape(c, true, env);
    EliminateDupsSound(Rewrite(c), Shape(false, None), env);
  }

  /** The test is right: wherever dep is not n, base is not n. */
  lemma SupersetImplies(dep: Option<Expr>, base: Option<Expr>, env: Env)
    requires Produced(env)
    requires Fit(dep, env) && Crisped(dep, env) && Fit(base, env) && Crisped(base, env)
    requires Superset(dep, base)
    ensures OptValue(dep, env) != NO ==> OptValue(base, env) != NO
  {
    hide IsNotNo;
    ReducedToYesImplies(IsNotNo(dep), IsNotNo(base), env);
    IsNotNoSound(dep, env);
    IsNotNoSound(base, env);
  }

  // ----- the cheap test for an absolute dependency -----

  predicate ContainsSymbol(e: Expr, s: Symbol) { s in Syms(e) }

  predicate DependsOn(e: Expr, s: Symbol) {
    match e
    case And(a, b) => DependsOn(a, s) || DependsOn(b, s)
    case Sym(t) => t == s
    case Cmp(op, l, r) =>
      || (op == Eq && l == s && (r == SYM_YES || r == SYM_MOD))
      || (op == Ne && l == s && r == SYM_NO)
    case _ => false
  }

  /** An expression that depends on a symbol is n wherever the symbol is n. */
  lemma {:induction false} DependsOnSound(e: Expr, s: Symbol, env: Env)
    requires Produced(env) && Typed(s) && DependsOn(e, s) && env.tri(s) == NO
    ensures Value(e, env) == NO
  {
    match e
    case And(a, b) =>
      if DependsOn(a, s) {
        DependsOnSound(a, s, env);
      } else {
        DependsOnSound(b, s, env);
      }
    case Sym(_) =>
    case Cmp(op, l, r) =>
      hide CmpValue;
      TypedCompare(env, s, NO);
      TypedCompare(env, s, MOD);
      TypedCompare(env, s, YES);
  }
}
