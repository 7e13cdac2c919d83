/** Facts about the equations of the symbol table: they have exactly one solution on
    an acyclic table, and what that solution says. */
module Solutions {
  import opened Wrappers
  import opened Exprs
  import opened SymTable

  // ----- the equations only look at what a symbol reads -----

  /** Two valuations agree on the computed symbols of e. */
  ghost predicate Agree(a: Symbol -> Tri, b: Symbol -> Tri, e: Option<Expr>) {
    forall t :: t in OptSyms(e) ==> a(t) == b(t)
  }

  lemma {:induction false} ValueAgrees(table: Table, a: Symbol -> Tri, b: Symbol -> Tri, e: Expr)
    requires forall t :: t in Syms(e) ==> a(t) == b(t)
    ensures Value(e, EnvOf(table, a)) == Value(e, EnvOf(table, b))
  {
    match e
    case Sym(s) =>
    case Cmp(op, l, r) =>
      var ea, eb := EnvOf(table, a), EnvOf(table, b);
      assert StringValue(ea, l) == StringValue(eb, l);
      assert StringValue(ea, r) == StringValue(eb, r);
      hide ParseString; hide StrCmp;
    case Not(x) => ValueAgrees(table, a, b, x);
    case And(x, y) =>
      ValueAgrees(table, a, b, x);
      ValueAgrees(table, a, b, y);
    case Or(x, y) =>
      ValueAgrees(table, a, b, x);
      ValueAgrees(table, a, b, y);
  }

  lemma OptValueAgrees(table: Table, a: Symbol -> Tri, b: Symbol -> Tri, e: Option<Expr>)
    requires Agree(a, b, e)
    ensures OptValue(e, EnvOf(table, a)) == OptValue(e, EnvOf(table, b))
  {
    if e.Some? {
      ValueAgrees(table, a, b, e.value);
    }
  }

  lemma {:induction false} PromptsAgree(table: Table, a: Symbol -> Tri, b: Symbol -> Tri, s: Symbol, props: seq<Property>)
    requires s in table.info
    requires forall p :: p in props && p.hasText ==> Agree(a, b, p.cond)
    requires table.info[s].choice.Some? ==>
               a(table.info[s].choice.value) == b(table.info[s].choice.value)
               || forall p :: p in props ==> !p.hasText
    ensures PromptMax(table, EnvOf(table, a), s, props) == PromptMax(table, EnvOf(table, b), s, props)
  {
    if props != [] {
      assert props[0] in props;
      PromptsAgree(table, a, b, s, props[1..]);
      if props[0].hasText {
        OptValueAgrees(table, a, b, props[0].cond);
      }
    }
  }

  lemma {:induction false} DefaultsAgree(table: Table, a: Symbol -> Tri, b: Symbol -> Tri, props: seq<Property>)
    requires forall p :: p in props && p.kind.Default? ==> Agree(a, b, p.cond) && Agree(a, b, p.value)
    ensures DefaultTri(EnvOf(table, a), props) == DefaultTri(EnvOf(table, b), props)
  {
    if props != [] {
      assert props[0] in props;
      DefaultsAgree(table, a, b, props[1..]);
      if props[0].kind.Default? {
        OptValueAgrees(table, a, b, props[0].cond);
        OptValueAgrees(table, a, b, props[0].value);
      }
    }
  }

  /** The valuations agree on everything ranked below n. */
  ghost predicate AgreeBelow(table: Table, rank: Symbol -> nat, a: Symbol -> Tri, b: Symbol -> Tri, n: nat) {
    && (forall t :: t in table.info && rank(t) < n ==> a(t) == b(t))
    && (forall t: Symbol :: t !in table.info ==> a(t) == b(t))
  }

  lemma BelowAgrees(table: Table, rank: Symbol -> nat, a: Symbol -> Tri, b: Symbol -> Tri, n: nat, e: Option<Expr>, m: nat, except: Option<Symbol>)
    requires AgreeBelow(table, rank, a, b, n) && m <= n
    requires Below(table, rank, e, m, except)
    requires except.Some? ==> a(except.value) == b(except.value)
    requires forall s :: s in table.info ==> Live(s)
    ensures Agree(a, b, e)
  {
    forall t | t in OptSyms(e) ensures a(t) == b(t) {
      if Live(t) && Some(t) != except {
      } else if t in table.info {
        assert Some(t) == except;
      }
    }
  }

  lemma VisibleAgrees(table: Table, u: User, rank: Symbol -> nat, a: Symbol -> Tri, b: Symbol -> Tri, s: Symbol)
    requires WellFormed(table, u) && s in table.info && RankedAt(table, u, rank, s)
    requires AgreeBelow(table, rank, a, b, if table.info[s].choice.Some? then rank(table.info[s].choice.value) else rank(s))
    requires table.info[s].choice.Some? ==> a(table.info[s].choice.value) == b(table.info[s].choice.value)
    ensures Visible(table, EnvOf(table, a), s) == Visible(table, EnvOf(table, b), s)
  {
    var i := table.info[s];
    var n := if i.choice.Some? then rank(i.choice.value) else rank(s);
    forall p | p in i.props && p.hasText ensures Agree(a, b, p.cond) {
      BelowAgrees(table, rank, a, b, n, p.cond, n, i.choice);
    }
    PromptsAgree(table, a, b, s, i.props);
  }

  lemma DepsAgree(table: Table, u: User, rank: Symbol -> nat, a: Symbol -> Tri, b: Symbol -> Tri, s: Symbol)
    requires WellFormed(table, u) && s in table.info && RankedAt(table, u, rank, s)
    requires AgreeBelow(table, rank, a, b, rank(s))
    ensures DirDep(table, EnvOf(table, a), s) == DirDep(table, EnvOf(table, b), s)
    ensures RevDep(table, EnvOf(table, a), s) == RevDep(table, EnvOf(table, b), s)
    ensures Implied(table, EnvOf(table, a), s) == Implied(table, EnvOf(table, b), s)
  {
    var i := table.info[s];
    if i.choice.None? {
      BelowAgrees(table, rank, a, b, rank(s), i.dirDep, rank(s), None);
      BelowAgrees(table, rank, a, b, rank(s), i.revDep, rank(s), None);
      BelowAgrees(table, rank, a, b, rank(s), i.implied, rank(s), None);
      OptValueAgrees(table, a, b, i.dirDep);
      OptValueAgrees(table, a, b, i.revDep);
      OptValueAgrees(table, a, b, i.implied);
    }
  }

  /** The new value of a symbol is fixed by the values ranked below it and, for a
      member, by the pick of its choice. */
  lemma NewTriAgrees(table: Table, u: User, rank: Symbol -> nat, a: Sol, b: Sol, s: Symbol)
    requires WellFormed(table, u) && s in table.info && RankedAt(table, u, rank, s)
    requires AgreeBelow(table, rank, a.tri, b.tri, rank(s))
    requires table.info[s].choice.Some? ==> a.pick(table.info[s].choice.value) == b.pick(table.info[s].choice.value)
    ensures NewTri(table, u, EnvOf(table, a.tri), a.pick, s) == NewTri(table, u, EnvOf(table, b.tri), b.pick, s)
  {
    hide Visible; hide DirDep; hide RevDep; hide Implied; hide DefaultTri;
    var i := table.info[s];
    assert EntryOk(table, u, s);
    VisibleAgrees(table, u, rank, a.tri, b.tri, s);
    DepsAgree(table, u, rank, a.tri, b.tri, s);
    if !i.isChoice {
      forall p | p in i.props && p.kind.Default? ensures Agree(a.tri, b.tri, p.cond) && Agree(a.tri, b.tri, p.value) {
        BelowAgrees(table, rank, a.tri, b.tri, rank(s), p.cond, rank(s), None);
        BelowAgrees(table, rank, a.tri, b.tri, rank(s), p.value, rank(s), None);
      }
      DefaultsAgree(table, a.tri, b.tri, i.props);
    }
  }

  lemma {:induction false} FirstVisibleAgrees(table: Table, a: Symbol -> Tri, b: Symbol -> Tri, members: seq<Symbol>)
    requires forall m :: m in members ==> m in table.info
    requires forall m :: m in members ==> Visible(table, EnvOf(table, a), m) == Visible(table, EnvOf(table, b), m)
    ensures FirstVisible(table, EnvOf(table, a), members) == FirstVisible(table, EnvOf(table, b), members)
  {
    if members != [] {
      assert members[0] in members;
      FirstVisibleAgrees(table, a, b, members[1..]);
    }
  }

  lemma {:induction false} VisibleDefaultAgrees(table: Table, a: Symbol -> Tri, b: Symbol -> Tri, props: seq<Property>)
    requires forall p :: p in props ==> DefaultIn(p, table.info.Keys)
    requires forall p :: p in props && DefaultIn(p, table.info.Keys) && p.kind.Default? ==>
               Agree(a, b, p.cond) && Visible(table, EnvOf(table, a), Named(p)) == Visible(table, EnvOf(table, b), Named(p))
    ensures VisibleDefault(table, EnvOf(table, a), props) == VisibleDefault(table, EnvOf(table, b), props)
  {
    if props != [] {
      assert props[0] in props && DefaultIn(props[0], table.info.Keys);
      VisibleDefaultAgrees(table, a, b, props[1..]);
      if props[0].kind.Default? {
        OptValueAgrees(table, a, b, props[0].cond);
      }
    }
  }

  /** The member a choice picks is fixed by the values ranked below the choice. */
  lemma ChooseAgrees(table: Table, u: User, rank: Symbol -> nat, a: Symbol -> Tri, b: Symbol -> Tri, c: Symbol)
    requires WellFormed(table, u) && Ranked(table, u, rank) && ChoiceOk(table, u, c)
    requires AgreeBelow(table, rank, a, b, rank(c)) && a(c) == b(c)
    ensures ChooseMember(table, u, EnvOf(table, a), c) == ChooseMember(table, u, EnvOf(table, b), c)
  {
    hide Visible;
    assert RankedAt(table, u, rank, c);
    forall m | m in table.info[c].members
      ensures Visible(table, EnvOf(table, a), m) == Visible(table, EnvOf(table, b), m)
    {
      assert RankedAt(table, u, rank, m);
      VisibleAgrees(table, u, rank, a, b, m);
    }
    forall p | p in table.info[c].props && p.kind.Default?
      ensures Agree(a, b, p.cond) && Visible(table, EnvOf(table, a), Named(p)) == Visible(table, EnvOf(table, b), Named(p))
    {
      assert DefaultIn(p, set m | m in table.info[c].members);
      BelowAgrees(table, rank, a, b, rank(c), p.cond, rank(c), None);
    }
    VisibleDefaultAgrees(table, a, b, table.info[c].props);
    FirstVisibleAgrees(table, a, b, table.info[c].members);
  }

  // ----- uniqueness -----

  /** On an acyclic table the equations have at most one solution. */
  lemma {:induction false} SolutionUnique(table: Table, u: User, rank: Symbol -> nat, a: Sol, b: Sol, n: nat)
    requires WellFormed(table, u) && Ranked(table, u, rank)
    requires Solution(table, u, a) && Solution(table, u, b)
    ensures AgreeBelow(table, rank, a.tri, b.tri, n)
    ensures forall s :: s in table.info && rank(s) < n ==> a.pick(s) == b.pick(s)
  {
    if n > 0 {
      SolutionUnique(table, u, rank, a, b, n - 1);
      forall s | s in table.info && rank(s) < n
        ensures a.tri(s) == b.tri(s) && a.pick(s) == b.pick(s)
      {
        if rank(s) == n - 1 {
          EquationFixes(table, u, rank, a, b, s);
        }
      }
    }
  }

  lemma EquationFixes(table: Table, u: User, rank: Symbol -> nat, a: Sol, b: Sol, s: Symbol)
    requires WellFormed(table, u) && Ranked(table, u, rank) && s in table.info
    requires Equation(table, u, a, s) && Equation(table, u, b, s)
    requires AgreeBelow(table, rank, a.tri, b.tri, rank(s))
    requires forall t :: t in table.info && rank(t) < rank(s) ==> a.pick(t) == b.pick(t)
    ensures a.tri(s) == b.tri(s) && a.pick(s) == b.pick(s)
  {
    hide NewTri; hide ChooseMember; hide Below; hide DefaultIn; hide Conditioned;
    assert RankedAt(table, u, rank, s) && EntryOk(table, u, s);
    hide Ranked;
    NewTriAgrees(table, u, rank, a, b, s);
    if table.info[s].isChoice {
      ChooseAgrees(table, u, rank, Overlay(a.tri, s, YES), Overlay(b.tri, s, YES), s);
    }
  }

  // ----- existence -----

  /** The right-hand side of a symbol's equation. */
  function Solve(table: Table, u: User, sol: Sol, s: Symbol): (Tri, Option<Symbol>)
    requires s in table.info && (table.info[s].isChoice ==> ChoiceOk(table, u, s))
  {
    var t := NewTri(table, u, EnvOf(table, sol.tri), sol.pick, s);
    if table.info[s].isChoice && t == YES then
      var p := ChooseMember(table, u, EnvOf(table, Overlay(sol.tri, s, YES)), s);
      (TriBool(p.Some?), p)
    else (t, None)
  }

  /** Solves the equations rank by rank. */
  ghost function SolveBelow(table: Table, u: User, rank: Symbol -> nat, n: nat): Sol
    requires WellFormed(table, u)
  {
    if n == 0 then Sol((s: Symbol) => ConstTri(s), (s: Symbol) => None)
    else
      var prev := SolveBelow(table, u, rank, n - 1);
      Sol((s: Symbol) => if s in table.info && rank(s) == n - 1 && SolveOk(table, u, s)
                         then Solve(table, u, prev, s).0 else prev.tri(s),
          (s: Symbol) => if s in table.info && rank(s) == n - 1 && SolveOk(table, u, s)
                         then Solve(table, u, prev, s).1 else prev.pick(s))
  }

  predicate SolveOk(table: Table, u: User, s: Symbol) {
    s in table.info && (table.info[s].isChoice ==> ChoiceOk(table, u, s))
  }

  lemma {:induction false} SolveBelowSolves(table: Table, u: User, rank: Symbol -> nat, n: nat)
    requires WellFormed(table, u) && Ranked(table, u, rank)
    ensures forall s :: s in table.info && rank(s) < n ==> Equation(table, u, SolveBelow(table, u, rank, n), s)
    ensures forall s: Symbol :: s !in table.info ==> SolveBelow(table, u, rank, n).tri(s) == ConstTri(s)
  {
    hide Solve; hide Equation; hide WellFormed; hide Ranked;
    if n > 0 {
      SolveBelowSolves(table, u, rank, n - 1);
      var prev, sol := SolveBelow(table, u, rank, n - 1), SolveBelow(table, u, rank, n);
      assert AgreeBelow(table, rank, prev.tri, sol.tri, n - 1);
      forall s | s in table.info && rank(s) < n ensures Equation(table, u, sol, s) {
        EntrySolves(table, u, s);
        SolveStep(table, u, rank, prev, sol, s);
      }
    }
  }

  lemma EntrySolves(table: Table, u: User, s: Symbol)
    requires WellFormed(table, u) && s in table.info
    ensures SolveOk(table, u, s)
  {
    assert EntryOk(table, u, s);
  }

  /** Moving from one rank to the next keeps the lower equations and adds one. */
  lemma SolveStep(table: Table, u: User, rank: Symbol -> nat, prev: Sol, sol: Sol, s: Symbol)
    requires WellFormed(table, u) && Ranked(table, u, rank) && s in table.info
    requires AgreeBelow(table, rank, prev.tri, sol.tri, rank(s))
    requires forall t :: t in table.info && rank(t) < rank(s) ==> prev.pick(t) == sol.pick(t)
    requires SolveOk(table, u, s) ==> (sol.tri(s), sol.pick(s)) == Solve(table, u, prev, s) || (Equation(table, u, prev, s) && sol.tri(s) == prev.tri(s) && sol.pick(s) == prev.pick(s))
    ensures Equation(table, u, sol, s)
  {
    hide NewTri; hide ChooseMember; hide Below; hide DefaultIn; hide Conditioned;
    assert RankedAt(table, u, rank, s) && EntryOk(table, u, s);
    hide Ranked;
    NewTriAgrees(table, u, rank, prev, sol, s);
    if table.info[s].isChoice {
      ChooseAgrees(table, u, rank, Overlay(prev.tri, s, YES), Overlay(sol.tri, s, YES), s);
    }
  }

  ghost function MaxRank(symbols: set<Symbol>, rank: Symbol -> nat): (n: nat)
    ensures forall s :: s in symbols ==> rank(s) < n
  {
    if symbols == {} then 0
    else
      var s :| s in symbols;
      var n := MaxRank(symbols - {s}, rank);
      if rank(s) < n then n else rank(s) + 1
  }

  /** The solution of an acyclic table. */
  ghost function TheSolution(table: Table, u: User, rank: Symbol -> nat): (sol: Sol)
    requires WellFormed(table, u) && Ranked(table, u, rank)
    ensures Solution(table, u, sol)
  {
    var n := MaxRank(table.info.Keys, rank);
    SolveBelowSolves(table, u, rank, n);
    SolveBelow(table, u, rank, n)
  }

  /** There is exactly one solution: any two agree on every symbol and every choice. */
  lemma ExactlyOneSolution(table: Table, u: User, rank: Symbol -> nat)
    requires WellFormed(table, u) && Ranked(table, u, rank)
    ensures exists sol :: Solution(table, u, sol)
    ensures forall a, b :: Solution(table, u, a) && Solution(table, u, b) ==>
              (forall s: Symbol :: a.tri(s) == b.tri(s)) && (forall s :: s in table.info ==> a.pick(s) == b.pick(s))
  {
    var sol := TheSolution(table, u, rank);
    assert Solution(table, u, sol);
    var n := MaxRank(table.info.Keys, rank);
    forall a, b | Solution(table, u, a) && Solution(table, u, b)
      ensures (forall s: Symbol :: a.tri(s) == b.tri(s)) && (forall s :: s in table.info ==> a.pick(s) == b.pick(s))
    {
      SolutionUnique(table, u, rank, a, b, n);
    }
  }
}
