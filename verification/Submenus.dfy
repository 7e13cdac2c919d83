/** Which siblings move below a symbol when menus are finalised. */
module Submenus {
  import opened Wrappers
  import opened Exprs
  import opened Equality
  import opened EqualTrees
  import opened Leaves
  import opened Dedup
  import opened Redundancy
  import opened Transform
  import opened Pipeline
  import opened MenuTree

  // ----- the absolute dependency -----

  /** s itself, or s='y', s='m', s!='n'. */
  predicate OnSymbol(e: Expr, s: Symbol) {
    e == Sym(s) || e == Cmp(Eq, s, SYM_YES) || e == Cmp(Eq, s, SYM_MOD) || e == Cmp(Ne, s, SYM_NO)
  }

  /** One of the operands of the conjunction is a condition on s. */
  predicate Demands(e: Expr, s: Symbol) {
    exists k :: 0 <= k < |LeavesOf(CAnd, e)| && OnSymbol(LeavesOf(CAnd, e)[k], s)
  }

  lemma DemandsParts(a: Expr, b: Expr, s: Symbol)
    ensures Demands(And(a, b), s) <==> Demands(a, s) || Demands(b, s)
  {
    hide LeavesOf; hide OnSymbol;
    LeavesMk(CAnd, a, b);
    var x, y, z := LeavesOf(CAnd, a), LeavesOf(CAnd, b), LeavesOf(CAnd, And(a, b));
    assert z == x + y;
    assert forall k :: 0 <= k < |x| ==> z[k] == x[k];
    assert forall k :: 0 <= k < |y| ==> z[|x| + k] == y[k];
  }

  /** The cheap test finds exactly such an operand. */
  lemma {:induction false} DemandsExactly(e: Expr, s: Symbol)
    ensures DependsOn(e, s) <==> Demands(e, s)
  {
    if e.And? {
      DemandsExactly(e.left, s);
      DemandsExactly(e.right, s);
      DemandsParts(e.left, e.right, s);
    } else {
      assert LeavesOf(CAnd, e) == [e];
      if OnSymbol(e, s) {
        assert OnSymbol(LeavesOf(CAnd, e)[0], s);
      }
    }
  }

  // ----- the superset rule -----

  lemma {:induction false} NothingFromYes(c: Conn, e: Expr)
    ensures EliminateEq1(c, e, E_YES).e2 == E_YES
  {
    if IsConn(c, e) {
      NothingFromYes(c, e.left);
      NothingFromYes(c, e.right);
      hide ExprEq;
    } else {
      assert EliminateEq1(c, e, E_YES) == EliminateLeaves(c, e, E_YES);
      assert ExprEq(e, E_YES) ==> e == E_YES;
    }
  }

  /** Nothing is a superset of no condition: the test succeeds. */
  lemma SupersetOfNone(dep: Option<Expr>)
    ensures Superset(dep, None)
  {
    NoneIsYes();
    NothingFromYes(CAnd, IsNotNo(dep));
    NothingFromYes(COr, IsNotNo(dep));
    hide IsNotNo; hide EliminateEq1;
    var d := IsNotNo(dep);
    var p := EliminateEqFirst(d, E_YES);
    assert p.e2 == E_YES && EliminateEqSecond(p) == p;
    assert EliminateYn(E_YES) == E_YES;
    assert EliminateEq(d, E_YES).e2 == E_YES;
  }

  lemma NoneIsYes()
    ensures IsNotNo(None) == E_YES
  {
    RewriteIsNnf(Not(E_NO));
    assert Nnf(Not(E_NO), true) == Nnf(E_NO, false) == E_YES;
    hide Rewrite;
    assert Pass(E_YES) == Counted(E_YES, 0);
  }

  /** Operands of the right side that all stand on the left are all dropped. */
  lemma OperandsDropped(d: Expr, b: Expr)
    requires d.And? && EqualTrees.Plain(d) && EqualTrees.Plain(b)
    requires forall x :: x in LeavesOf(CAnd, b) ==> x in LeavesOf(CAnd, d)
    requires TidyLevel(CAnd, LeavesOf(CAnd, b))
    ensures EliminateEq(d, b).e2 == E_YES
  {
    var n := Size(d) + Size(b);
    EquivalenceUpTo(n);
    PlainLeaves(CAnd, d, n);
    PlainLeaves(CAnd, b, n);
    Eliminated(CAnd, d, b, n);
    var p := EliminateEq1(CAnd, d, b);
    AllDropped(d, b, LeavesOf(CAnd, p.e1), LeavesOf(CAnd, p.e2), n);
    Remains(CAnd, p.e2, n);
    OneSided(d, b);
  }

  /** When the first phase has dropped all of the right side, the second does nothing. */
  lemma OneSided(d: Expr, b: Expr)
    requires d.And? && EliminateYn(EliminateEq1(CAnd, d, b).e2) == E_YES
    requires IsConn(CAnd, EliminateEq1(CAnd, d, b).e1)
    requires AllNeutral(CAnd, LeavesOf(CAnd, EliminateEq1(CAnd, d, b).e2))
    ensures EliminateEq(d, b).e2 == E_YES
  {
    hide EliminateEq1; hide EliminateYn;
    var p := EliminateEq1(CAnd, d, b);
    if !p.e2.And? {
      assert LeavesOf(CAnd, p.e2)[0] == p.e2;
    }
    assert EliminateEqFirst(d, b) == p && EliminateEqSecond(p) == p;
  }

  lemma AllDropped(d: Expr, b: Expr, ls: seq<Expr>, ms: seq<Expr>, n: nat)
    requires Equivalence(n) && Operands(CAnd, LeavesOf(CAnd, d), n) && Operands(CAnd, LeavesOf(CAnd, b), n)
    requires Operands(CAnd, ls, n) && Operands(CAnd, ms, n) && Apart(CAnd, ls, ms)
    requires Thinned(CAnd, LeavesOf(CAnd, b), ms) && Kept(LeavesOf(CAnd, d), LeavesOf(CAnd, b), ls, ms, n)
    requires forall x :: x in LeavesOf(CAnd, b) ==> x in LeavesOf(CAnd, d)
    requires TidyLevel(CAnd, LeavesOf(CAnd, b))
    ensures AllNeutral(CAnd, ms)
  {
    ApartSwap(CAnd, ls, ms, n);
    hide Equivalence; hide Apart; hide Operands; hide Size; hide Matches; hide LeavesOf; hide TidyLevel;
    var ds, bs := LeavesOf(CAnd, d), LeavesOf(CAnd, b);
    forall j | 0 <= j < |ms| ensures ms[j] == Neutral(CAnd) {
      if ms[j] != Neutral(CAnd) {
        assert ms[j] == bs[j] && ms[j] in ms;
        MatchApart(CAnd, ms, ls, ms[j], n);
        SelfMatch(ds, ms[j]);
        MatchesOnce(bs, j);
      }
    }
  }

  lemma SelfMatch(ls: seq<Expr>, x: Expr)
    requires ExprEq(x, x)
    ensures x in ls ==> Matches(ls, x) > 0
  {
    hide ExprEq;
    MatchesSome(ls, x);
  }

  lemma TidyApart(ls: seq<Expr>, i: nat, j: nat)
    requires TidyLevel(CAnd, ls) && i < |ls| && j < |ls| && i != j
    ensures !ExprEq(ls[i], ls[j])
  {
    hide ExprEq;
    assert !Superfluous(CAnd, ls[i], ls[j]);
  }

  lemma {:induction false} NoMatch(ls: seq<Expr>, x: Expr)
    requires forall k :: 0 <= k < |ls| ==> !ExprEq(ls[k], x)
    ensures Matches(ls, x) == 0
  {
    hide ExprEq;
    MatchesSome(ls, x);
  }

  /** Where no two operands are equal, each matches at most itself. */
  lemma MatchesOnce(ls: seq<Expr>, j: nat)
    requires TidyLevel(CAnd, ls) && j < |ls|
    ensures Matches(ls, ls[j]) <= 1
  {
    hide ExprEq; hide TidyLevel; hide Matches;
    var a, b := ls[..j], ls[j + 1..];
    forall k | 0 <= k < |a| ensures !ExprEq(a[k], ls[j]) {
      TidyApart(ls, k, j);
    }
    forall k | 0 <= k < |b| ensures !ExprEq(b[k], ls[j]) {
      TidyApart(ls, j + 1 + k, j);
    }
    NoMatch(a, ls[j]);
    NoMatch(b, ls[j]);
    assert ls == a + ([ls[j]] + b);
    MatchesConcat(a, [ls[j]] + b, ls[j]);
    MatchesConcat([ls[j]], b, ls[j]);
    OneMatch(ls[j], ls[j]);
  }

  // ----- the condition as the test sees it -----

  /** That e is not n, in normal form. */
  function NotNo(e: Expr): Expr { Nnf(TransCompare(e, false, NO), true) }

  /** Asking for n, negated, is asking for something else than n. */
  lemma {:induction false} AskedNegated(e: Expr, pos: bool)
    ensures Nnf(TransCompare(e, true, NO), pos) == Nnf(TransCompare(e, false, NO), !pos)
  {
    if e.Not? {
      AskedNegated(e.e, !pos);
    }
  }

  lemma NotNoAnd(a: Expr, b: Expr)
    ensures NotNo(And(a, b)) == And(NotNo(a), NotNo(b))
  {
    AskedNegated(a, false);
    AskedNegated(b, false);
    var x, y := TransCompare(a, true, NO), TransCompare(b, true, NO);
    assert TransCompare(And(a, b), false, NO) == Not(Or(x, y));
    assert Nnf(Not(Or(x, y)), true) == Nnf(Or(x, y), false) == And(Nnf(x, false), Nnf(y, false));
  }

  /** The operands of a conjunction stay operands. */
  lemma {:induction false} NotNoOperands(e: Expr, x: Expr, y: Expr)
    requires x in LeavesOf(CAnd, e) && y in LeavesOf(CAnd, NotNo(x))
    ensures y in LeavesOf(CAnd, NotNo(e))
  {
    if e.And? {
      hide NotNo;
      NotNoAnd(e.left, e.right);
      if x in LeavesOf(CAnd, e.left) {
        NotNoOperands(e.left, x, y);
      } else {
        NotNoOperands(e.right, x, y);
      }
    }
  }

  lemma {:induction false} NotNoFrom(e: Expr, y: Expr) returns (x: Expr)
    requires y in LeavesOf(CAnd, NotNo(e))
    ensures x in LeavesOf(CAnd, e) && y in LeavesOf(CAnd, NotNo(x))
  {
    if e.And? {
      hide NotNo;
      NotNoAnd(e.left, e.right);
      if y in LeavesOf(CAnd, NotNo(e.left)) {
        x := NotNoFrom(e.left, y);
      } else {
        x := NotNoFrom(e.right, y);
      }
    } else {
      x := e;
    }
  }

  /** What the rule sees of a condition in which nothing is superfluous. */
  predicate AsWritten(e: Expr) { EqualTrees.Plain(NotNo(e)) }

  lemma SeenAsWritten(e: Expr)
    requires Tidy(NotNo(e))
    ensures IsNotNo(Some(e)) == NotNo(e)
  {
    RewriteIsNnf(TransCompare(e, false, NO));
    EliminateDupsExactly(NotNo(e));
    hide Tidy; hide Pass; hide Nnf; hide TransCompare;
    assert Rewrite(TransCompareOpt(Some(e), false, NO)) == NotNo(e);
  }

  /** The superset rule: a conjunction that has all operands of the other condition among
      its own is a superset of it.  Both are taken without superfluous operands, as the
      menus hold them. */
  lemma SupersetByOperands(dep: Expr, base: Expr)
    requires dep.And? && Tidy(NotNo(dep)) && Tidy(NotNo(base)) && AsWritten(dep) && AsWritten(base)
    requires forall x :: x in LeavesOf(CAnd, base) ==> x in LeavesOf(CAnd, dep)
    ensures Superset(Some(dep), Some(base))
  {
    SeenAsWritten(dep);
    SeenAsWritten(base);
    NotNoAnd(dep.left, dep.right);
    hide NotNo; hide IsNotNo; hide EliminateEq; hide EqualTrees.Plain; hide LeavesOf;
    var d, b := NotNo(dep), NotNo(base);
    forall y | y in LeavesOf(CAnd, b) ensures y in LeavesOf(CAnd, d) {
      var x := NotNoFrom(base, y);
      NotNoOperands(dep, x, y);
    }
    TidyTop(b);
    OperandsDropped(d, b);
  }

  lemma TidyTop(b: Expr)
    requires Tidy(b)
    ensures TidyLevel(CAnd, LeavesOf(CAnd, b))
  {
    hide TidyLevel;
    if b.And? {
      assert Slots.Valid(b, []) && Slots.At(b, []) == b;
    } else {
      OneIsTidy(b);
    }
  }

  lemma OneIsTidy(b: Expr)
    ensures TidyLevel(CAnd, [b])
  {
  }

  // ----- what moves -----

  /** The sibling m may move below a node with the given prompt condition for s: its own
      condition demands s, or contains s and is a superset, of no condition or by its
      operands. */
  ghost predicate Follows(vis: Option<Expr>, dep: Option<Expr>, s: Symbol) {
    && dep.Some? && s in Syms(dep.value)
    && (|| Demands(dep.value, s)
        || vis.None?
        || (&& dep.value.And? && Tidy(NotNo(dep.value)) && Tidy(NotNo(vis.value)) && AsWritten(dep.value) && AsWritten(vis.value)
            && forall x :: x in LeavesOf(CAnd, vis.value) ==> x in LeavesOf(CAnd, dep.value)))
  }

  function PromptCond(n: Menu, a: Attr): Option<Expr> { if n.hasPrompt then a.vis else None }

  lemma FollowsBelongs(n: Menu, a: Attr, s: Symbol, m: Menu, b: Attr)
    requires Follows(PromptCond(n, a), Cond(m, b), s)
    ensures Belongs(n, a, s, m, b)
  {
    hide Superset; hide Demands; hide Tidy; hide DependsOn;
    var dep := Cond(m, b);
    DemandsExactly(dep.value, s);
    if PromptCond(n, a).None? {
      SupersetOfNone(dep);
    } else if !Demands(dep.value, s) {
      SupersetByOperands(dep.value, a.vis.value);
    }
  }

  lemma BelongsContains(n: Menu, a: Attr, s: Symbol, m: Menu, b: Attr)
    requires Belongs(n, a, s, m, b)
    ensures Cond(m, b).Some? && s in Syms(Cond(m, b).value)
  {
  }

  /** The next sibling of a symbol without children moves below it if its condition
      follows from the rules above, as the first node there. */
  lemma NextMoves(n: Menu, a: Attr, s: Symbol, m: Menu, b: Attr, k: Forest, r: Forest, modules: Symbol)
    requires n.sym == Some(s) && Follows(PromptCond(n, a), Cond(m, b), s)
    ensures var f := Fin(n, a, Nil, Cons(m, b, k, r), modules); f.kids.Cons? && f.kids.node == m && f.kids.attr == b
  {
    FollowsBelongs(n, a, s, m, b);
    hide Belongs; hide Follows;
    FinLeaf(n, a, s, Cons(m, b, k, r), modules);
  }

  lemma FinLeaf(n: Menu, a: Attr, s: Symbol, f: Forest, modules: Symbol)
    requires n.sym == Some(s)
    ensures var t := Absorb(n, a, s, f, modules); Fin(n, a, Nil, f, modules) == Split(Flatten(t.kids), t.rest, [n] + t.log)
  {
    hide Absorb; hide Flatten;
  }

  /** The case the rule is for: a sibling that depends on (s || q) && r moves below s when
      the prompt of s depends on r. */
  lemma AlternativeMoves(s: Symbol, q: Symbol, r: Symbol)
    requires s != q && q != r && r != s && s.typ.Boolean? && q.typ.Boolean? && r.typ.Boolean?
    ensures Follows(Some(Sym(r)), Some(And(Or(Sym(s), Sym(q)), Sym(r))), s)
  {
    var choice := Or(Sym(s), Sym(q));
    var dep := And(choice, Sym(r));
    AlternativeShape(s, q, r);
    AlternativeSeen(s, q, r);
    TidyAtom(Sym(s));
    TidyAtom(Sym(q));
    TidyAtom(Sym(r));
    TidyTwo(COr, Sym(s), Sym(q));
    TidyTwo(CAnd, choice, Sym(r));
    hide TidyLevel; hide Tidy; hide NotNo; hide LeavesOf; hide ExprEq; hide Demands; hide EqualTrees.Plain; hide Syms;
    TidyBuild(COr, choice);
    TidyBuild(CAnd, dep);
    assert [choice, Sym(r)][1] == Sym(r);
  }

  lemma AlternativeShape(s: Symbol, q: Symbol, r: Symbol)
    requires s.typ.Boolean? && q.typ.Boolean? && r.typ.Boolean?
    ensures var choice := Or(Sym(s), Sym(q));
            var dep := And(choice, Sym(r));
            && LeavesOf(COr, choice) == [Sym(s), Sym(q)] && LeavesOf(CAnd, dep) == [choice, Sym(r)]
            && LeavesOf(CAnd, Sym(r)) == [Sym(r)]
            && s in Syms(dep) && EqualTrees.Plain(dep) && EqualTrees.Plain(Sym(r))
  {
    var choice := Or(Sym(s), Sym(q));
    var dep := And(choice, Sym(r));
    LeafOnly(COr, Sym(s));
    LeafOnly(COr, Sym(q));
    LeafOnly(CAnd, choice);
    LeafOnly(CAnd, Sym(r));
    LeavesMk(COr, Sym(s), Sym(q));
    LeavesMk(CAnd, choice, Sym(r));
    hide LeavesOf;
    assert s in Syms(choice) && EqualTrees.Plain(choice);
  }

  lemma AlternativeSeen(s: Symbol, q: Symbol, r: Symbol)
    requires s.typ.Boolean? && q.typ.Boolean? && r.typ.Boolean?
    ensures NotNo(Sym(r)) == Sym(r)
    ensures NotNo(And(Or(Sym(s), Sym(q)), Sym(r))) == And(Or(Sym(s), Sym(q)), Sym(r))
  {
    NotNoAnd(Or(Sym(s), Sym(q)), Sym(r));
    var x, y := TransCompare(Sym(s), true, NO), TransCompare(Sym(q), true, NO);
    assert TransCompare(Or(Sym(s), Sym(q)), false, NO) == Not(And(x, y));
    assert x == Cmp(Eq, s, SYM_NO) && y == Cmp(Eq, q, SYM_NO);
    assert Nnf(x, false) == Sym(s) && Nnf(y, false) == Sym(q);
    assert Nnf(Not(And(x, y)), true) == Nnf(And(x, y), false) == Or(Nnf(x, false), Nnf(y, false));
    assert NotNo(Or(Sym(s), Sym(q))) == Or(Sym(s), Sym(q));
    assert TransCompare(Sym(r), false, NO) == Cmp(Ne, r, SYM_NO) && Nnf(Cmp(Ne, r, SYM_NO), true) == Sym(r);
    assert NotNo(Sym(r)) == Sym(r);
  }

  /** A sibling whose condition does not name the symbol stays, and all after it. */
  lemma NextStays(n: Menu, a: Attr, s: Symbol, f: Forest, modules: Symbol)
    requires n.sym == Some(s)
    requires f.Cons? ==> Cond(f.node, f.attr).None? || s !in Syms(Cond(f.node, f.attr).value)
    ensures Fin(n, a, Nil, f, modules) == Split(Nil, f, [n])
  {
    FinLeaf(n, a, s, f, modules);
    assert [n] + [] == [n];
  }

  /** Where a submenu ends: the sibling that follows it satisfies none of the rules. */
  lemma StopsWhereItMust(n: Menu, a: Attr, s: Symbol, f: Forest, modules: Symbol)
    requires n.sym == Some(s)
    ensures var t := Fin(n, a, Nil, f, modules);
            t.rest.Cons? ==> !Follows(PromptCond(n, a), Cond(t.rest.node, t.rest.attr), s)
  {
    hide Belongs; hide Follows;
    FinLeaf(n, a, s, f, modules);
    AbsorbTakesExactly(n, a, s, f, modules);
    var t := Absorb(n, a, s, f, modules);
    hide Absorb;
    if t.rest.Cons? && Follows(PromptCond(n, a), Cond(t.rest.node, t.rest.attr), s) {
      FollowsBelongs(n, a, s, t.rest.node, t.rest.attr);
    }
  }

  /** Everything that was taken names the symbol. */
  predicate AllName(s: Symbol, f: Forest) {
    f.Cons? ==> Cond(f.node, f.attr).Some? && s in Syms(Cond(f.node, f.attr).value) && AllName(s, f.rest)
  }

  lemma {:induction false} TakenName(n: Menu, a: Attr, s: Symbol, f: Forest)
    requires AllBelong(n, a, s, f)
    ensures AllName(s, f)
  {
    hide Superset; hide DependsOn;
    if f.Cons? {
      BelongsContains(n, a, s, f.node, f.attr);
      TakenName(n, a, s, f.rest);
    }
  }

  lemma AbsorbedName(n: Menu, a: Attr, s: Symbol, f: Forest, modules: Symbol)
    ensures AllName(s, Absorb(n, a, s, f, modules).kids)
  {
    AbsorbTakesExactly(n, a, s, f, modules);
    TakenName(n, a, s, Absorb(n, a, s, f, modules).kids);
  }
}
