/** The memoising evaluator of the symbol table: recursive calculation that caches each
    symbol's value, visibility and dependencies behind a `valid` mark. */
module Evaluator {
  import opened Wrappers
  import opened Exprs
  import opened SymTable
  import opened Solutions
  import opened Consequences
  import opened EvalState

  class Evaluator {
    const table: Table
    var valid: set<Symbol>
    var tri: map<Symbol, Tri>
    var pick: map<Symbol, Option<Symbol>>
    var visible: map<Symbol, Tri>
    var dirDep: map<Symbol, Tri>
    var revDep: map<Symbol, Tri>
    var implied: map<Symbol, Tri>
    var user: User
    ghost var busy: set<Symbol>

    constructor (t: Table, u: User)
      ensures table == t && user == u && valid == {} && busy == {}
      ensures visible == map[] && revDep == map[] && implied == map[] && MembersAtRest(t, Snap())
    {
      table := t;
      user := u;
      valid, busy, tri, pick := {}, {}, map[], map[];
      visible, dirDep, revDep, implied := map[], map[], map[], map[];
    }

    ghost function Snap(): State
      reads this
    {
      State(valid, busy, tri, pick, visible, dirDep, revDep, implied, user)
    }

    /** Between two calculations: another one may start from here. */
    ghost predicate Ready(rank: Symbol -> nat)
      reads this
    {
      busy == {} && WellFormed(table, user) && Ranked(table, user, rank) && MembersAtRest(table, Snap())
    }

    // ----- expressions -----

    method CalcExpr(e: Expr, ghost k: Context, ghost view: Symbol -> Tri, ghost n: nat) returns (t: Tri)
      requires k.table == table && Inv(k, Snap()) && ViewOk(k, view) && BusyAbove(k, Snap(), n)
      requires Readable(k, Snap(), view, n, Some(e))
      modifies this
      ensures Inv(k, Snap()) && Progress(k, old(Snap()), Snap(), n, NOTHING)
      ensures t == Value(e, EnvOf(table, view)) && AllValid(Snap(), Some(e))
      decreases table.info.Keys - valid, 2, e, 1
    {
      hide Inv; hide Progress; hide Readable; hide AllValid; hide BusyAbove; hide ViewOk; hide CmpValue; hide Callable;
      ghost var a := Snap();
      ReadableParts(k, a, view, n, e);
      match e
      case Sym(s) =>
        ReadableCallable(k, a, view, n, e, s);
        CalcValue(s, k, n);
        AllValidParts(Snap(), e);
        ReadableKept(k, a, Snap(), view, n, n, NOTHING, Some(e));
        ReadNow(k, Snap(), view, n, e);
        t := Cached(table, tri, s);
      case Not(x) =>
        var v := CalcExpr(x, k, view, n);
        AllValidParts(Snap(), e);
        t := TriNot(v);
      case And(x, y) =>
        var v, w := CalcTwo(x, y, k, view, n, e);
        AllValidParts(Snap(), e);
        t := TriMin(v, w);
      case Or(x, y) =>
        var v, w := CalcTwo(x, y, k, view, n, e);
        AllValidParts(Snap(), e);
        t := TriMax(v, w);
      case Cmp(op, l, r) =>
        ReadableCallable(k, a, view, n, e, l);
        CalcValue(l, k, n);
        ghost var b := Snap();
        ProgressGrows(k, a, b, n, NOTHING);
        ReadableKept(k, a, b, view, n, n, NOTHING, Some(e));
        ReadableCallable(k, b, view, n, e, r);
        CalcValue(r, k, n);
        ProgressGrows(k, b, Snap(), n, NOTHING);
        ProgressTrans(k, a, b, Snap(), n, n, NOTHING, NOTHING, NOTHING);
        AllValidParts(Snap(), e);
        ReadableKept(k, b, Snap(), view, n, n, NOTHING, Some(e));
        ReadNow(k, Snap(), view, n, e);
        t := CmpValue(CachedEnv(table, tri), op, l, r);
    }

    /** Both operands, left first; there is no short circuit. */
    method CalcTwo(x: Expr, y: Expr, ghost k: Context, ghost view: Symbol -> Tri, ghost n: nat, ghost e: Expr)
      returns (v: Tri, w: Tri)
      requires k.table == table && Inv(k, Snap()) && ViewOk(k, view) && BusyAbove(k, Snap(), n)
      requires Readable(k, Snap(), view, n, Some(x)) && Readable(k, Snap(), view, n, Some(y))
      requires (e.And? || e.Or?) && e.left == x && e.right == y
      modifies this
      ensures Inv(k, Snap()) && Progress(k, old(Snap()), Snap(), n, NOTHING)
      ensures v == Value(x, EnvOf(table, view)) && w == Value(y, EnvOf(table, view))
      ensures AllValid(Snap(), Some(x)) && AllValid(Snap(), Some(y))
      decreases table.info.Keys - valid, 2, e, 0
    {
      hide Inv; hide Progress; hide Readable; hide AllValid; hide BusyAbove; hide ViewOk; hide Value;
      ghost var a := Snap();
      v := CalcExpr(x, k, view, n);
      ghost var b := Snap();
      ProgressGrows(k, a, b, n, NOTHING);
      ReadableKept(k, a, b, view, n, n, NOTHING, Some(y));
      w := CalcExpr(y, k, view, n);
      ProgressGrows(k, b, Snap(), n, NOTHING);
      ProgressTrans(k, a, b, Snap(), n, n, NOTHING, NOTHING, NOTHING);
      AllValidKept(b, Snap(), Some(x));
    }

    /** A missing expression is y. */
    method CalcOpt(e: Option<Expr>, ghost k: Context, ghost view: Symbol -> Tri, ghost n: nat) returns (t: Tri)
      requires k.table == table && Inv(k, Snap()) && ViewOk(k, view) && BusyAbove(k, Snap(), n)
      requires Readable(k, Snap(), view, n, e)
      modifies this
      ensures Inv(k, Snap()) && Progress(k, old(Snap()), Snap(), n, NOTHING)
      ensures t == OptValue(e, EnvOf(table, view)) && AllValid(Snap(), e)
      decreases table.info.Keys - valid, 3
    {
      hide Inv; hide Progress; hide Readable; hide BusyAbove; hide ViewOk; hide Value;
      if e.None? {
        t := YES;
        ProgressSame(k, Snap(), n, NOTHING);
      } else {
        t := CalcExpr(e.value, k, view, n);
      }
    }

    // ----- visibility and dependencies -----

    /** The largest prompt condition of s. */
    method CalcPrompts(s: Symbol, ghost k: Context, ghost view: Symbol -> Tri, ghost n: nat) returns (t: Tri)
      requires k.table == table && Inv(k, Snap()) && ViewOk(k, view) && BusyAbove(k, Snap(), n)
      requires s in table.info && Inputs(k, Snap(), view, n, s)
      modifies this
      ensures Inv(k, Snap()) && Progress(k, old(Snap()), Snap(), n, NOTHING)
      ensures t == PromptMax(table, EnvOf(table, view), s, table.info[s].props)
      ensures table.info[s].choice.Some? && HasPrompt(table, s) ==> table.info[s].choice.value in valid
      decreases table.info.Keys - valid, 4
    {
      hide Inv; hide Progress; hide Readable; hide BusyAbove; hide ViewOk; hide AllValid; hide Value; hide OptValue;
      ghost var a := Snap();
      ghost var env := EnvOf(table, view);
      var props, choice := table.info[s].props, table.info[s].choice;
      t := NO;
      ProgressSame(k, a, n, NOTHING);
      var i := 0;
      while i < |props|
        invariant 0 <= i <= |props|
        invariant Inv(k, Snap()) && Progress(k, a, Snap(), n, NOTHING) && BusyAbove(k, Snap(), n)
        invariant Inputs(k, Snap(), view, n, s) && table.info.Keys - valid <= table.info.Keys - a.valid
        invariant TriMax(t, PromptMax(table, env, s, props[i..])) == PromptMax(table, env, s, props)
        invariant choice.Some? && choice.value !in valid ==> forall p :: p in props[..i] && p.hasText ==> p.cond == Some(E_NO)
      {
        assert props[i..][0] == props[i] && props[i..][1..] == props[i + 1..];
        if props[i].hasText {
          ghost var b := Snap();
          var v := CalcOpt(props[i].cond, k, view, n);
          ghost var c := Snap();
          ProgressTrans(k, a, b, c, n, n, NOTHING, NOTHING, NOTHING);
          ProgressGrows(k, b, c, n, NOTHING);
          InputsKept(k, b, c, view, n, n, NOTHING, s);
          if props[i].cond == Some(E_NO) {
            ConstantNo(k, c, view);
          } else if choice.Some? {
            ChoiceRead(k, c, view, n, s, props[i]);
          }
          if choice.Some? && s.typ.Tristate? && v == MOD && Cached(table, tri, choice.value) == YES {
            v := NO;
          }
          t := TriMax(t, v);
        }
        i := i + 1;
      }
      assert props[i..] == [] && props[..i] == props;
    }

    /** Visibility and dependencies of s; a choice member only gets a visibility. */
    method CalcVisibility(s: Symbol, ghost k: Context, ghost view: Symbol -> Tri, ghost n: nat)
      requires k.table == table && Inv(k, Snap()) && ViewOk(k, view) && BusyAbove(k, Snap(), n)
      requires s in table.info && Inputs(k, Snap(), view, n, s)
      requires UnderWay(table, Snap(), s)
      modifies this
      ensures Inv(k, Snap()) && Progress(k, old(Snap()), Snap(), n, Only(s))
      ensures var env := EnvOf(table, view);
              && Get(visible, s) == Visible(table, env, s)
              && Get(revDep, s) == RevDep(table, env, s)
              && Get(implied, s) == Implied(table, env, s)
      ensures table.info[s].choice.Some? && HasPrompt(table, s) ==> table.info[s].choice.value in valid
      decreases table.info.Keys - valid, 5
    {
      hide Inv; hide Progress; hide Readable; hide BusyAbove; hide ViewOk; hide Value; hide PromptMax; hide Inputs;
      hide RevDep; hide Implied; hide HasPrompt;
      ghost var a := Snap();
      ghost var env := EnvOf(table, view);
      var t := CalcPrompts(s, k, view, n);
      ghost var b := Snap();
      if t == MOD && (!s.typ.Tristate? || table.modules == NO) {
        t := YES;
      }
      visible := visible[s := t];
      ProgressGrows(k, a, b, n, NOTHING);
      SilentUnseen(k, a, view, s);
      StoreVisible(k, a, b, n, s, t);
      if table.info[s].choice.Some? {
        MemberDeps(k, Snap(), s, env);
        return;
      }
      CalcDeps(s, k, view, n, a);
    }

    /** The dependencies of a symbol that is no choice member. */
    method CalcDeps(s: Symbol, ghost k: Context, ghost view: Symbol -> Tri, ghost n: nat, ghost a: State)
      requires k.table == table && Inv(k, Snap()) && ViewOk(k, view)
      requires s in table.info && Inv(k, a) && BusyAbove(k, a, n) && Inputs(k, a, view, n, s)
      requires s in busy && table.info[s].choice.None?
      requires Progress(k, a, Snap(), n, Only(s))
      modifies this
      ensures Inv(k, Snap()) && Progress(k, a, Snap(), n, Only(s))
      ensures var env := EnvOf(table, view);
              && Get(visible, s) == old(Get(visible, s))
              && Get(revDep, s) == RevDep(table, env, s)
              && Get(implied, s) == Implied(table, env, s)
      decreases table.info.Keys - a.valid, 4
    {
      hide Inv; hide Progress; hide Readable; hide BusyAbove; hide ViewOk; hide Value; hide OptValue;
      ghost var env := EnvOf(table, view);
      var info := table.info[s];
      ghost var b := Snap();
      BusyIsValid(k, b);
      ProgressGrows(k, a, b, n, Only(s));
      InputsKept(k, a, b, view, n, n, Only(s), s);
      var direct := CalcOpt(info.dirDep, k, view, n);
      ProgressKeeps(k, b, Snap(), n, s);
      ProgressTrans(k, a, b, Snap(), n, n, Only(s), NOTHING, Only(s));
      ProgressGrows(k, b, Snap(), n, NOTHING);
      direct := RoundFor(table, s, NO, direct);
      ghost var c := Snap();
      dirDep := dirDep[s := direct];
      StoreDep(k, a, c, n, s, Snap());
      ghost var d := Snap();
      ProgressGrows(k, a, d, n, Only(s));
      InputsKept(k, a, d, view, n, n, Only(s), s);
      var t: Tri := NO;
      ProgressSame(k, d, n, NOTHING);
      if info.revDep.Some? {
        t := CalcExpr(info.revDep.value, k, view, n);
      }
      ghost var e := Snap();
      ProgressKeeps(k, d, e, n, s);
      ProgressTrans(k, a, d, e, n, n, Only(s), NOTHING, Only(s));
      ProgressGrows(k, d, e, n, NOTHING);
      t := RoundFor(table, s, NO, t);
      revDep := revDep[s := t];
      StoreDep(k, a, e, n, s, Snap());
      ghost var f := Snap();
      ProgressGrows(k, a, f, n, Only(s));
      InputsKept(k, a, f, view, n, n, Only(s), s);
      t := NO;
      ProgressSame(k, f, n, NOTHING);
      if info.implied.Some? && direct != NO {
        t := CalcExpr(info.implied.value, k, view, n);
      }
      ghost var g := Snap();
      ProgressKeeps(k, f, g, n, s);
      ProgressTrans(k, a, f, g, n, n, Only(s), NOTHING, Only(s));
      ProgressGrows(k, f, g, n, NOTHING);
      t := RoundFor(table, s, NO, t);
      implied := implied[s := t];
      StoreDep(k, a, g, n, s, Snap());
    }

    // ----- defaults -----

    /** The first default whose condition is not n. */
    method CalcDefault(s: Symbol, ghost k: Context, ghost n: nat) returns (t: Tri)
      requires k.table == table && Inv(k, Snap()) && BusyAbove(k, Snap(), n) && ViewOk(k, k.sol.tri)
      requires s in table.info && DefaultsReadable(k, Snap(), k.sol.tri, n, table.info[s].props, true)
      modifies this
      ensures Inv(k, Snap()) && Progress(k, old(Snap()), Snap(), n, NOTHING)
      ensures t == DefaultTri(EnvOf(table, k.sol.tri), table.info[s].props)
      decreases table.info.Keys - valid, 4
    {
      hide Inv; hide Progress; hide Readable; hide BusyAbove; hide ViewOk; hide AllValid; hide Value; hide OptValue;
      ghost var a := Snap();
      ghost var env := EnvOf(table, k.sol.tri);
      var props := table.info[s].props;
      t := NO;
      ProgressSame(k, a, n, NOTHING);
      var i := 0;
      while i < |props|
        invariant 0 <= i <= |props|
        invariant Inv(k, Snap()) && Progress(k, a, Snap(), n, NOTHING) && BusyAbove(k, Snap(), n)
        invariant DefaultsReadable(k, Snap(), k.sol.tri, n, props, true)
        invariant table.info.Keys - valid <= table.info.Keys - a.valid
        invariant t == NO && DefaultTri(env, props[i..]) == DefaultTri(env, props)
      {
        assert props[i..][0] == props[i] && props[i..][1..] == props[i + 1..];
        if props[i].kind.Default? {
          ghost var b := Snap();
          var cond := CalcOpt(props[i].cond, k, k.sol.tri, n);
          ghost var c := Snap();
          ProgressTrans(k, a, b, c, n, n, NOTHING, NOTHING, NOTHING);
          ProgressGrows(k, b, c, n, NOTHING);
          DefaultsKept(k, b, c, k.sol.tri, n, n, NOTHING, props, true);
          if cond != NO {
            t := CalcOpt(props[i].value, k, k.sol.tri, n);
            ProgressTrans(k, a, c, Snap(), n, n, NOTHING, NOTHING, NOTHING);
            t := TriMin(t, cond);
            return;
          }
        }
        i := i + 1;
      }
      assert props[i..] == [];
    }

    // ----- choices -----

    /** The visibilities of all members of c, and whether every visible one has a user
        value. */
    method CalcMembers(c: Symbol, ghost k: Context, ghost view: Symbol -> Tri) returns (all: bool)
      requires k.table == table && Inv(k, Snap()) && Choosing(k, Snap(), view, c)
      modifies this
      ensures Inv(k, Snap()) && Choosing(k, Snap(), view, c)
      ensures Progress(k, old(Snap()), Snap(), k.rank(c), Exempt(MemberSet(table, c), {}, {}))
      ensures MembersSeen(k, Snap(), view, table.info[c].members)
      ensures all <==> VisibleSet(table, k.user, EnvOf(table, view), table.info[c].members)
      decreases table.info.Keys - valid, 6
    {
      hide Inv; hide Progress; hide Visible; hide Choosing; hide ViewOk; hide BusyAbove; hide Inputs; hide RevDep; hide Implied;
      ghost var a := Snap();
      ghost var n := k.rank(c);
      ChoosingView(k, a, view, c);
      ghost var ex := Exempt(MemberSet(table, c), {}, {});
      var members := table.info[c].members;
      all := true;
      ProgressSame(k, a, n, ex);
      var i := 0;
      while i < |members|
        invariant 0 <= i <= |members|
        invariant Inv(k, Snap()) && Choosing(k, Snap(), view, c) && Progress(k, a, Snap(), n, ex)
        invariant table.info.Keys - valid <= table.info.Keys - a.valid
        invariant MembersSeen(k, Snap(), view, members[..i])
        invariant all <==> VisibleSet(table, k.user, EnvOf(table, view), members[..i])
      {
        ghost var b := Snap();
        var m := members[i];
        ChoosingView(k, b, view, c);
        MemberInputs(k, b, view, c, m);
        ChoosingBusy(k, b, view, c);
        CalcVisibility(m, k, view, n);
        ghost var d := Snap();
        ChoosingKept(k, b, d, view, c, Only(m));
        MemberMark(k, d, view, c, m);
        ProgressGrows(k, b, d, n, Only(m));
        ProgressTrans(k, a, b, d, n, n, ex, Only(m), ex);
        assert members[..i + 1] == members[..i] + [m];
        if Get(visible, m) != NO && m !in user.has {
          all := false;
        }
        i := i + 1;
      }
      assert members[..i] == members;
    }

    /** The member a choice selects: the user's pick, else an applicable default, else
        the first visible member.  A choice with a visible member that the user never
        set loses its own user mark. */
    method CalcChoice(c: Symbol, ghost k: Context, ghost view: Symbol -> Tri) returns (p: Option<Symbol>)
      requires k.table == table && Inv(k, Snap()) && Choosing(k, Snap(), view, c)
      modifies this
      ensures Inv(k, Snap()) && Progress(k, old(Snap()), Snap(), k.rank(c), Exempt(MemberSet(table, c), {c}, {}))
      ensures ChoiceOk(table, k.user, c) && p == ChooseMember(table, k.user, EnvOf(table, view), c)
      ensures c in user.has <==> c in old(user.has) && VisibleSet(table, k.user, EnvOf(table, view), table.info[c].members)
      decreases table.info.Keys - valid, 7
    {
      hide Inv; hide Progress; hide Visible; hide Choosing; hide Ranked; hide Readable; hide OptValue; hide ViewOk; hide BusyAbove;
      ghost var a := Snap();
      ghost var env := EnvOf(table, view);
      ghost var n := k.rank(c);
      ChoosingView(k, a, view, c);
      ghost var ex := Exempt(MemberSet(table, c), {c}, {});
      var info := table.info[c];
      var all := CalcMembers(c, k, view);
      ghost var b := Snap();
      ChoosingFacts(k, b, view, c);
      UserOf(k, b);
      ProgressSame(k, b, n, ex);
      ProgressGrows(k, a, b, n, Exempt(MemberSet(table, c), {}, {}));
      ChoosingFacts(k, a, view, c);
      ProgressMark(k, a, b, n, Exempt(MemberSet(table, c), {}, {}), c);
      ChoosingBusy(k, b, view, c);
      if !all {
        user := User(user.has - {c}, user.tri, user.pick);
        StoreMark(k, b, n, c);
        ChoosingKept(k, b, Snap(), view, c, Exempt({}, {c}, {}));
        ProgressTrans(k, b, b, Snap(), n, n, ex, Exempt({}, {c}, {}), ex);
      }
      ghost var d := Snap();
      ProgressTrans(k, a, b, d, n, n, Exempt(MemberSet(table, c), {}, {}), ex, ex);
      if c in user.pick && Get(visible, user.pick[c]) != NO {
        p := Some(user.pick[c]);
        return;
      }
      p := CalcChoiceDefault(c, k, view);
      ProgressTrans(k, a, d, Snap(), n, n, ex, NOTHING, ex);
      ChoosingFacts(k, d, view, c);
      ProgressMark(k, d, Snap(), n, NOTHING, c);
      if p.Some? {
        return;
      }
      p := FindVisible(info.members, k, view);
    }

    /** The first applicable default of c that names a visible member. */
    method CalcChoiceDefault(c: Symbol, ghost k: Context, ghost view: Symbol -> Tri) returns (p: Option<Symbol>)
      requires k.table == table && Inv(k, Snap()) && Choosing(k, Snap(), view, c)
      requires MembersSeen(k, Snap(), view, table.info[c].members)
      modifies this
      ensures Inv(k, Snap()) && Progress(k, old(Snap()), Snap(), k.rank(c), NOTHING)
      ensures MembersSeen(k, Snap(), view, table.info[c].members)
      ensures ChoiceOk(table, k.user, c) && p == VisibleDefault(table, EnvOf(table, view), table.info[c].props)
      decreases table.info.Keys - valid, 6
    {
      hide Inv; hide Progress; hide Visible; hide Choosing; hide Ranked; hide Readable; hide OptValue; hide ViewOk; hide BusyAbove;
      ghost var a := Snap();
      ghost var env := EnvOf(table, view);
      ghost var n := k.rank(c);
      ChoosingFacts(k, a, view, c);
      var props := table.info[c].props;
      ProgressSame(k, a, n, NOTHING);
      p := None;
      var i := 0;
      while i < |props|
        invariant 0 <= i <= |props| && p == None
        invariant Inv(k, Snap()) && Progress(k, a, Snap(), n, NOTHING) && Choosing(k, Snap(), view, c)
        invariant table.info.Keys - valid <= table.info.Keys - a.valid
        invariant MembersSeen(k, Snap(), view, table.info[c].members)
        invariant forall q :: q in props[i..] ==> DefaultIn(q, table.info.Keys)
        invariant VisibleDefault(table, env, props[i..]) == VisibleDefault(table, env, props)
      {
        assert props[i..][0] == props[i] && props[i..][1..] == props[i + 1..];
        var q := props[i];
        assert q in props && DefaultIn(q, table.info.Keys);
        if q.kind.Default? {
          assert DefaultIn(q, MemberSet(table, c));
          ghost var b := Snap();
          ChoosingView(k, b, view, c);
          ChoiceDefaultReadable(k, b, view, c, q);
          var cond := CalcOpt(q.cond, k, view, n);
          ghost var d := Snap();
          ProgressTrans(k, a, b, d, n, n, NOTHING, NOTHING, NOTHING);
          ProgressGrows(k, b, d, n, NOTHING);
          ChoosingKept(k, b, d, view, c, NOTHING);
          if cond != NO && Get(visible, Named(q)) != NO {
            p := Some(Named(q));
            return;
          }
        }
        i := i + 1;
      }
      assert props[i..] == [];
    }

    method FindVisible(members: seq<Symbol>, ghost k: Context, ghost view: Symbol -> Tri) returns (p: Option<Symbol>)
      requires k.table == table && forall m :: m in members ==> m in table.info
      requires MembersSeen(k, Snap(), view, members)
      ensures p == FirstVisible(table, EnvOf(table, view), members)
    {
      hide Visible;
      var i := 0;
      while i < |members|
        invariant 0 <= i <= |members|
        invariant FirstVisible(table, EnvOf(table, view), members[i..]) == FirstVisible(table, EnvOf(table, view), members)
      {
        assert members[i..][0] == members[i] && members[i..][1..] == members[i + 1..];
        if Get(visible, members[i]) != NO {
          return Some(members[i]);
        }
        i := i + 1;
      }
      assert members[i..] == [];
      p := None;
    }

    // ----- values -----

    /** The value of s before a choice looks for its member. */
    method CalcNew(s: Symbol, ghost k: Context) returns (t: Tri)
      requires k.table == table && Inv(k, Snap()) && s in busy && s in table.info && BusyAbove(k, Snap(), k.rank(s))
      requires s in user.has <==> s in k.user.has
      modifies this
      ensures Inv(k, Snap()) && Progress(k, old(Snap()), Snap(), k.rank(s), Exempt({s}, {}, {s}))
      ensures t == NewTri(table, k.user, EnvOf(table, k.sol.tri), k.sol.pick, s)
      ensures Get(visible, s) == Visible(table, EnvOf(table, k.sol.tri), s)
      ensures table.info[s].choice.Some? && HasPrompt(table, s) ==> table.info[s].choice.value in valid
      ensures table.info[s].choice.None? ==>
                && Get(revDep, s) == RevDep(table, EnvOf(table, k.sol.tri), s)
                && Get(implied, s) == Implied(table, EnvOf(table, k.sol.tri), s)
      decreases table.info.Keys - valid, 8
    {
      hide Inv; hide Progress; hide Visible; hide RevDep; hide Implied; hide Inputs; hide DefaultTri; hide BusyAbove; hide ViewOk;
      hide HasPrompt;
      ghost var a := Snap();
      ghost var n := k.rank(s);
      ghost var ex := Exempt({s}, {}, {s});
      var info := table.info[s];
      BusyIsValid(k, a);
      BeginInputs(k, a, s);
      ContextView(k, a);
      CalcVisibility(s, k, k.sol.tri, n);
      ghost var b := Snap();
      ProgressMark(k, a, b, n, Only(s), s);
      ProgressGrows(k, a, b, n, Only(s));
      // the value seen by a recursive calculation
      tri, pick := tri[s := NO], pick[s := None];
      ghost var c := Snap();
      StoreValue(k, b, n, s, c);
      ProgressTrans(k, a, b, c, n, n, Only(s), Exempt({}, {}, {s}), ex);
      UserOf(k, c);
      BusySame(k, b, c, n);
      var seen, rev, imp := Get(visible, s), Get(revDep, s), Get(implied, s);
      if info.choice.Some? && seen == YES {
        SilentUnseen(k, c, k.sol.tri, s);
        ChoiceDone(k, c, s);
        t := if GetPick(pick, info.choice.value) == Some(s) then YES else NO;
      } else if seen != NO && s in user.has {
        t := TriMax(TriMin(UserTri(user, s), seen), rev);
      } else {
        t := NO;
        if !info.isChoice {
          BeginDefaults(k, c, s);
          t := CalcDefault(s, k, n);
          ProgressTrans(k, a, c, Snap(), n, n, ex, NOTHING, ex);
          ProgressKeeps(k, c, Snap(), n, s);
          SeenKept(k, c, Snap(), n, s);
          if imp != NO {
            t := TriMax(t, imp);
          }
        }
        t := TriMax(t, rev);
      }
      if t == MOD && (ActsBool(table, s, seen) || imp == YES) {
        t := YES;
      }
    }

    /** A choice that is y picks its member, or falls back to n without a visible one. */
    method CalcPick(s: Symbol, ghost k: Context, ghost b: State)
      requires k.table == table && Inv(k, Snap()) && s in busy && s in table.info && table.info[s].isChoice
      requires BusyAbove(k, Snap(), k.rank(s)) && Get(tri, s) == YES
      requires Progress(k, b, Snap(), k.rank(s), Own(table, s))
      modifies this
      ensures Inv(k, Snap()) && Progress(k, b, Snap(), k.rank(s), Own(table, s))
      ensures ChoiceOk(table, k.user, s)
      ensures var over := EnvOf(table, Overlay(k.sol.tri, s, YES));
              && GetPick(pick, s) == ChooseMember(table, k.user, over, s)
              && Get(tri, s) == TriBool(GetPick(pick, s).Some?)
              && (s in user.has <==> s in old(user.has) && VisibleSet(table, k.user, over, table.info[s].members))
      ensures Get(visible, s) == old(Get(visible, s)) && Get(revDep, s) == old(Get(revDep, s)) && Get(implied, s) == old(Get(implied, s))
      decreases table.info.Keys - valid, 8
    {
      hide Inv; hide Progress; hide Visible; hide ChooseMember; hide BusyAbove; hide VisibleSet; hide ChoiceOk; hide ViewOk;
      ghost var d := Snap();
      BusyIsValid(k, d);
      BeginChoosing(k, d, s);
      var p := CalcChoice(s, k, Overlay(k.sol.tri, s, YES));
      ghost var e := Snap();
      ProgressTrans(k, b, d, e, k.rank(s), k.rank(s), Own(table, s), Exempt(MemberSet(table, s), {s}, {}), Own(table, s));
      KeptFields(k, d, e, s);
      ProgressGrows(k, d, e, k.rank(s), Exempt(MemberSet(table, s), {s}, {}));
      pick := pick[s := p];
      if p.None? {
        tri := tri[s := NO];
      }
      StoreValue(k, e, k.rank(s), s, Snap());
      ProgressTrans(k, b, e, Snap(), k.rank(s), k.rank(s), Own(table, s), Exempt({}, {}, {s}), Own(table, s));
    }

    method CalcValue(s: Symbol, ghost k: Context, ghost n: nat)
      requires k.table == table && Inv(k, Snap()) && BusyAbove(k, Snap(), n) && Callable(k, Snap(), n, s)
      modifies this
      ensures Inv(k, Snap()) && Progress(k, old(Snap()), Snap(), n, NOTHING)
      ensures Live(s) ==> s in valid
      decreases table.info.Keys - valid, 0
    {
      hide Inv; hide Progress; hide Visible; hide RevDep; hide Implied; hide NewTri; hide ChooseMember; hide BusyAbove; hide VisibleSet;
      ghost var a := Snap();
      if !Live(s) || s in valid {
        ProgressSame(k, a, n, NOTHING);
        return;
      }
      BeginOk(k, a, n, s);
      valid := valid + {s};
      busy := busy + {s};
      ghost var b := Snap();
      var t := CalcNew(s, k);
      ghost var c := Snap();
      ProgressGrows(k, b, c, k.rank(s), Exempt({s}, {}, {s}));
      tri, pick := tri[s := t], pick[s := None];
      StoreValue(k, c, k.rank(s), s, Snap());
      ghost var d := Snap();
      ProgressTrans(k, b, c, d, k.rank(s), k.rank(s), Exempt({s}, {}, {s}), Exempt({}, {}, {s}), Own(table, s));
      ProgressMark(k, b, c, k.rank(s), Exempt({s}, {}, {s}), s);
      EquationOf(k, d, s);
      BusySame(k, b, d, k.rank(s));
      if table.info[s].isChoice && t == YES {
        CalcPick(s, k, b);
      } else if table.info[s].choice.Some? {
        MemberSeen(k, d, s);
      }
      EndOk(k, a, Snap(), n, s);
      ProgressGrows(k, b, Snap(), k.rank(s), Own(table, s));
      busy := busy - {s};
    }

    // ----- whole evaluations and settings -----

    method ClearAllValid()
      modifies this`valid
      ensures valid == {}
    {
      valid := {};
    }

    /** Evaluates the given symbols, in the given order. */
    method EvaluateAll(order: seq<Symbol>, ghost rank: Symbol -> nat) returns (ghost k: Context)
      requires Ready(rank) && valid == {}
      requires forall s :: s in order ==> s in table.info
      modifies this
      ensures k == SolvedContext(table, old(user), rank) && Inv(k, Snap())
      ensures Ready(rank) && forall s :: s in order ==> s in valid
      ensures forall sol, s :: Solution(table, old(user), sol) && s in valid ==> Evaluated(table, old(user), sol, Snap(), s)
    {
      k := SolvedContext(table, user, rank);
      FreshInv(k, Snap());
      CalcList(order, k);
      AllEvaluated(k, Snap());
      Reusable(k, Snap());
    }

    method CalcList(order: seq<Symbol>, ghost k: Context)
      requires k.table == table && Inv(k, Snap()) && busy == {}
      requires forall s :: s in order ==> s in table.info
      modifies this
      ensures Inv(k, Snap()) && busy == {} && forall s :: s in order ==> s in valid
    {
      hide Progress; hide Inv;
      ghost var n := MaxRank(table.info.Keys, k.rank);
      var i := 0;
      while i < |order|
        invariant 0 <= i <= |order|
        invariant Inv(k, Snap()) && busy == {}
        invariant forall s :: s in order[..i] ==> s in valid
      {
        ghost var a := Snap();
        assert order[i] in order;
        CalcValue(order[i], k, n);
        ProgressGrows(k, a, Snap(), n, NOTHING);
        KeysLive(k, Snap(), order[i]);
        assert order[..i + 1] == order[..i] + [order[i]];
        i := i + 1;
      }
      assert order[..i] == order;
    }

    predicate InRange(s: Symbol, val: Tri)
      requires s in table.info
      reads this
    {
      WithinRange(table, s, Get(visible, s), Get(revDep, s), Get(implied, s), val)
    }

    method MarkVisible(members: seq<Symbol>, start: set<Symbol>) returns (has: set<Symbol>)
      ensures has == start + set m | m in members && Get(visible, m) != NO
    {
      has := start;
      var i := 0;
      while i < |members|
        invariant 0 <= i <= |members|
        invariant has == start + set m | m in members[..i] && Get(visible, m) != NO
      {
        assert members[..i + 1] == members[..i] + [members[i]];
        if Get(visible, members[i]) != NO {
          has := has + {members[i]};
        }
        i := i + 1;
      }
      assert members[..i] == members;
    }

    /** Stores the user's value of s; for a member set to y, also the pick of its choice
        and the user marks of the choice and its visible members. */
    method StoreSetting(s: Symbol, val: Tri)
      requires s in table.info && (table.info[s].choice.Some? ==> table.info[s].choice.value in table.info)
      modifies this
      ensures var kept := if old(Get(tri, s)) == val then old(valid) else {};
              Snap() == old(Snap()).(user := WithSetting(table, old(user), old(SeenMembers(table, visible, s)), s, val), valid := kept)
    {
      var choice := table.info[s].choice;
      var has, picks := user.has + {s}, user.pick;
      if choice.Some? && val == YES {
        picks := picks[choice.value := s];
        has := MarkVisible(table.info[choice.value].members, has + {choice.value});
      }
      user := User(has, user.tri[s := val], picks);
      if Get(tri, s) != val {
        ClearAllValid();
      }
    }

    /** Sets the user's value of s if it is the old one or in range.  The first clause
        about solutions says exactly what the setting leads to, whatever marks evaluation
        left; the last one, when an accepted setting is honoured. */
    method SetTristateValue(s: Symbol, val: Tri, ghost k: Context) returns (ok: bool)
      requires k.table == table && Inv(k, Snap()) && busy == {} && s in table.info && s in valid
      modifies this
      ensures ok <==> old(Get(tri, s)) == val || old(InRange(s, val))
      ensures !ok ==> Snap() == old(Snap())
      ensures ok ==> user == WithSetting(table, old(user), old(SeenMembers(table, visible, s)), s, val)
      ensures ok && old(Get(tri, s)) == val ==> Snap() == old(Snap()).(user := user)
      ensures ok && old(Get(tri, s)) != val ==> Snap() == old(Snap()).(user := user, valid := {})
      ensures WellFormed(table, old(user)) && Ready(k.rank)
      ensures ok ==> forall before, after :: Solution(table, old(user), before) && Solution(table, user, after) ==>
                Resulting(table, old(user), user, before, after, s, val)
      ensures ok && old(Get(tri, s)) != val && old(user) == k.user && Takeable(table, old(tri), s, val) ==>
                forall after :: Solution(table, user, after) ==> after.tri(s) == val
    {
      hide Inv; hide Solution; hide WellFormed; hide Ranked; hide Resulting; hide MembersAtRest; hide WithinRange; hide Takeable;
      hide Linked; hide WithSetting; hide SeenMembers; hide Get;
      ghost var before := Snap();
      Reusable(k, before);
      if Get(tri, s) != val && !InRange(s, val) {
        return false;
      }
      ChoiceInTable(k, before, s);
      StoreSetting(s, val);
      SettingResults(k, before, s, val, SeenMembers(table, before.visible, s));
      RestSame(table, before, Snap());
      if Get(before.tri, s) != val && before.user == k.user && Takeable(table, before.tri, s, val) {
        SettingTakesEffect(k, before, s, val, SeenMembers(table, before.visible, s));
      }
      ok := true;
    }

    /** A round of a configurator: evaluate, set s to val, evaluate again.  What the
        cache then holds is the solution for the new settings, which has the accepted
        value as `RoundOk` says. */
    method SetAndEvaluate(s: Symbol, val: Tri, order: seq<Symbol>, ghost rank: Symbol -> nat)
      returns (ok: bool, ghost r: Round)
      requires Ready(rank) && valid == {}
      requires s in order && forall t :: t in order ==> t in table.info
      modifies this
      ensures Ready(rank) && forall t :: t in order ==> t in valid
      ensures r.s == s && r.val == val && r.start == old(user) && r.end == user && r.ok == ok && r.value == Get(tri, s)
      ensures RoundOk(table, rank, order, r)
      ensures ok && TheSolution(table, old(user), rank).tri(s) != val ==>
                forall t :: t in order ==> Evaluated(table, r.given, TheSolution(table, r.given, rank), Snap(), t)
    {
      hide Inv; hide Solution; hide WellFormed; hide Ranked; hide Resulting; hide MembersAtRest;
      hide WithSetting; hide Remaining; hide SeenMembers; hide Get; hide Visible; hide RevDep; hide Implied;
      ghost var start := user;
      ghost var k := EvaluateAll(order, rank);
      ghost var left, before := user, Snap();
      SolvedBy(k, before);
      UserOf(k, before);
      SeenAsSolved(k, before, s);
      MarksAsSolved(k, before, order);
      ok := SetTristateValue(s, val, k);
      ghost var given := user;
      if valid == {} {
        k := EvaluateAll(order, rank);
        SolvedBy(k, Snap());
        UserOf(k, Snap());
        MarksAsSolved(k, Snap(), order);
        assert Evaluated(table, given, k.sol, Snap(), s);
        assert Resulting(table, left, given, TheSolution(table, left, rank), k.sol, s, val);
      }
      r := Round(s, val, start, left, given, user, ok, Get(tri, s));
      assert Usable(table, r.start, rank) && Usable(table, r.left, rank) && Usable(table, r.given, rank) && Usable(table, r.end, rank);
      assert Leaves(table, rank, order, r.start, r.left);
      ghost var was := TheSolution(table, r.start, rank);
      assert ok <==> was.tri(s) == val || Acceptable(table, was, s, val);
      assert ok && left == start && TakeableBy(table, was, s, val) ==> Get(tri, s) == val;
    }

    /** Any number of rounds, each of which starts where the last one ended. */
    method Rounds(changes: seq<Change>, order: seq<Symbol>, ghost rank: Symbol -> nat)
      returns (answers: seq<bool>, ghost log: seq<Round>)
      requires Ready(rank) && forall t :: t in order ==> t in table.info
      requires forall c :: c in changes ==> c.s in order
      modifies this
      ensures Ready(rank) && |answers| == |changes| == |log| && Logged(table, rank, order, old(user), changes, log, user)
      ensures forall i :: 0 <= i < |changes| ==> answers[i] == log[i].ok
    {
      hide RoundOk; hide Ready; hide Logged;
      assert changes[..0] == [];
      LoggedNone(table, rank, order, user);
      answers, log := [], [];
      var i := 0;
      while i < |changes|
        invariant 0 <= i <= |changes| && Ready(rank) && |answers| == i
        invariant Logged(table, rank, order, old(user), changes[..i], log, user) && |log| == i
        invariant forall n :: 0 <= n < i ==> answers[n] == log[n].ok
      {
        Clear(rank);
        ghost var was := user;
        assert changes[i] in changes;
        var ok, r := SetAndEvaluate(changes[i].s, changes[i].val, order, rank);
        LoggedMore(table, rank, order, old(user), changes[..i], log, was, changes[i], r);
        assert changes[..i + 1] == changes[..i] + [changes[i]];
        answers, log := answers + [ok], log + [r];
        i := i + 1;
      }
      assert changes[..i] == changes;
    }

    /** Clearing leaves a state for the next round. */
    method Clear(ghost rank: Symbol -> nat)
      requires Ready(rank)
      modifies this`valid
      ensures Ready(rank) && valid == {}
    {
      ghost var before := Snap();
      ClearAllValid();
      RestSame(table, before, Snap());
    }
  }

  /** A configurator from its start: a new evaluator, and rounds on it. */
  method Configure(table: Table, user: User, changes: seq<Change>, order: seq<Symbol>, ghost rank: Symbol -> nat)
    returns (e: Evaluator, answers: seq<bool>, ghost log: seq<Round>)
    requires WellFormed(table, user) && Ranked(table, user, rank)
    requires (forall t :: t in order ==> t in table.info) && forall c :: c in changes ==> c.s in order
    ensures fresh(e) && e.Ready(rank) && e.table == table && |answers| == |changes| == |log|
    ensures Logged(table, rank, order, user, changes, log, e.user)
    ensures forall i :: 0 <= i < |changes| ==> answers[i] == log[i].ok
  {
    e := new Evaluator(table, user);
    answers, log := e.Rounds(changes, order, rank);
  }

  // ----- rounds -----

  datatype Change = Change(s: Symbol, val: Tri)

  /** One round: s was set to val; start, left, given and end are the settings before it,
      after its first evaluation, after the setting and at its end; ok is the answer and
      value what the cache holds for s at the end. */
  datatype Round = Round(s: Symbol, val: Tri, start: User, left: User, given: User, end: User, ok: bool, value: Tri)

  ghost predicate Usable(table: Table, u: User, rank: Symbol -> nat) { WellFormed(table, u) && Ranked(table, u, rank) }

  /** v is u with the marks that evaluating the listed symbols leaves. */
  ghost predicate Leaves(table: Table, rank: Symbol -> nat, order: seq<Symbol>, u: User, v: User)
    requires Usable(table, u, rank)
  {
    && v.tri == u.tri && v.pick == u.pick
    && forall t :: t in order ==> (t in v.has <==> t in Remaining(table, u, TheSolution(table, u, rank)).has)
  }

  /** What a round does.  Evaluation drops marks; the setting is accepted by the guard on
      the solution; a refused one changes nothing more.  A changed value is then that of
      the solution for the settings given, which results from the solution for those
      left as `Resulting` says, for members as for others; and it is the one set if no
      mark was dropped and it can be taken up. */
  ghost predicate RoundOk(table: Table, rank: Symbol -> nat, order: seq<Symbol>, r: Round) {
    && r.s in table.info
    && Usable(table, r.start, rank) && Usable(table, r.left, rank) && Usable(table, r.given, rank) && Usable(table, r.end, rank)
    && Leaves(table, rank, order, r.start, r.left)
    && var was := TheSolution(table, r.start, rank);
    && (r.ok <==> was.tri(r.s) == r.val || Acceptable(table, was, r.s, r.val))
    && (r.ok ==> exists marks :: r.given == WithSetting(table, r.left, marks, r.s, r.val))
    && (!r.ok ==> r.end == r.given == r.left && r.value == was.tri(r.s))
    && (r.ok && was.tri(r.s) == r.val ==> r.end == r.given && r.value == r.val)
    && (r.ok && was.tri(r.s) != r.val ==>
          var before, after := TheSolution(table, r.left, rank), TheSolution(table, r.given, rank);
          && Resulting(table, r.left, r.given, before, after, r.s, r.val)
          && r.value == after.tri(r.s)
          && Leaves(table, rank, order, r.given, r.end))
    && (r.ok && r.left == r.start && TakeableBy(table, was, r.s, r.val) ==> r.value == r.val)
  }

  /** The settings after the first n rounds. */
  function EndOf(start: User, log: seq<Round>, n: nat): User
    requires n <= |log|
  {
    if n == 0 then start else log[n - 1].end
  }

  /** The log of the rounds that lead from one user's settings to another's. */
  ghost predicate Logged(table: Table, rank: Symbol -> nat, order: seq<Symbol>, start: User, changes: seq<Change>,
                         log: seq<Round>, end: User) {
    && |log| == |changes|
    && (forall i :: 0 <= i < |log| ==> RoundOk(table, rank, order, log[i]) && changes[i] == Change(log[i].s, log[i].val))
    && (forall i :: 0 <= i < |log| ==> log[i].start == EndOf(start, log, i))
    && end == EndOf(start, log, |log|)
  }

  lemma LoggedNone(table: Table, rank: Symbol -> nat, order: seq<Symbol>, u: User)
    ensures Logged(table, rank, order, u, [], [], u)
  {
  }

  lemma LoggedMore(table: Table, rank: Symbol -> nat, order: seq<Symbol>, start: User, changes: seq<Change>,
                   log: seq<Round>, was: User, c: Change, r: Round)
    requires Logged(table, rank, order, start, changes, log, was)
    requires RoundOk(table, rank, order, r) && r.start == was && c == Change(r.s, r.val)
    ensures Logged(table, rank, order, start, changes + [c], log + [r], r.end)
  {
    hide RoundOk;
    var l, cs := log + [r], changes + [c];
    forall i | 0 <= i < |l|
      ensures RoundOk(table, rank, order, l[i]) && cs[i] == Change(l[i].s, l[i].val)
      ensures l[i].start == EndOf(start, l, i)
    {
      assert EndOf(start, l, i) == EndOf(start, log, i);
      if i < |log| {
        assert l[i] == log[i] && cs[i] == changes[i];
      }
    }
  }

  /** The range guard, by a solution. */
  predicate Acceptable(table: Table, sol: Sol, s: Symbol, val: Tri)
    requires s in table.info
  {
    var env := EnvOf(table, sol.tri);
    WithinRange(table, s, Visible(table, env, s), RevDep(table, env, s), Implied(table, env, s), val)
  }

  predicate TakeableBy(table: Table, sol: Sol, s: Symbol, val: Tri)
    requires s in table.info
  {
    && (PicksMember(table, s, val) ==> sol.tri(table.info[s].choice.value) == YES)
    && (table.info[s].isChoice ==> val != YES)
  }

  lemma MarksAsSolved(k: Context, st: State, order: seq<Symbol>)
    requires Inv(k, st) && st.busy == {} && forall t :: t in order ==> t in st.valid
    ensures WellFormed(k.table, k.user)
    ensures forall t :: t in order ==> (t in st.user.has <==> t in Remaining(k.table, k.user, k.sol).has)
  {
    hide NewTri; hide VisibleSet; hide Inv; hide Solution; hide WellFormed;
    SolvedBy(k, st);
    AllEvaluated(k, st);
    forall t | t in order ensures t in st.user.has <==> t in Remaining(k.table, k.user, k.sol).has {
      assert Evaluated(k.table, k.user, k.sol, st, t);
    }
  }

  lemma RestSame(table: Table, a: State, b: State)
    requires MembersAtRest(table, a) && a.visible == b.visible && a.revDep == b.revDep && a.implied == b.implied
    ensures MembersAtRest(table, b)
  {
  }

  /** The members of the choice of s that are visible. */
  function SeenMembers(table: Table, visible: map<Symbol, Tri>, s: Symbol): set<Symbol>
    requires s in table.info
  {
    var c := table.info[s].choice;
    if c.None? || c.value !in table.info then {} else set m | m in table.info[c.value].members && Get(visible, m) != NO
  }

  /** The value can be taken up: for a member set to y its choice is y; a choice is not
      set to y. */
  predicate Takeable(table: Table, tri: map<Symbol, Tri>, s: Symbol, val: Tri)
    requires s in table.info
  {
    && (PicksMember(table, s, val) ==> Get(tri, table.info[s].choice.value) == YES)
    && (table.info[s].isChoice ==> val != YES)
  }

  /** What the settings v, made from u by setting s to val, lead to. */
  ghost predicate Resulting(table: Table, u: User, v: User, before: Sol, after: Sol, s: Symbol, val: Tri)
    requires s in table.info
  {
    if PicksMember(table, s, val) then
      var c, env := table.info[s].choice.value, EnvOf(table, after.tri);
      && c in table.info
      && (after.pick(c) == Some(s) <==> TakesMember(table, v, before, s))
      && (after.tri(s) == YES <==> after.pick(c) == Some(s) || (Visible(table, env, s) == NO && OwnDefault(table, env, s) == YES))
    else
      && (table.info[s].isChoice ==> ChoiceOk(table, u, s))
      && after.tri(s) == ValueAfter(table, u, before, s, val)
  }

  ghost function SolvedContext(table: Table, u: User, rank: Symbol -> nat): (k: Context)
    requires WellFormed(table, u) && Ranked(table, u, rank)
    ensures ContextOk(k) && k == Context(table, u, rank, TheSolution(table, u, rank))
  {
    Context(table, u, rank, TheSolution(table, u, rank))
  }

  lemma FreshInv(k: Context, st: State)
    requires ContextOk(k) && st.valid == {} && st.busy == {} && st.user == k.user
    requires MembersAtRest(k.table, st)
    ensures Inv(k, st)
  {
    hide ContextOk; hide MembersAtRest; hide Done;
  }

  lemma LinkedChoice(k: Context, st: State, s: Symbol)
    requires Inv(k, st) && s in k.table.info && k.table.info[s].choice.Some?
    ensures Linked(k.table, k.table.info[s].choice.value, s, SeenMembers(k.table, st.visible, s))
  {
    assert EntryOk(k.table, k.user, s);
  }

  /** After an evaluation, and whatever marks it dropped, another one may follow. */
  lemma Reusable(k: Context, st: State)
    requires Inv(k, st)
    ensures WellFormed(k.table, st.user) && Ranked(k.table, st.user, k.rank) && MembersAtRest(k.table, st)
  {
    SamePicksWellFormed(k.table, k.user, st.user);
    SameRanked(k.table, k.user, st.user, k.rank);
  }

  lemma KeysLive(k: Context, st: State, s: Symbol)
    requires Inv(k, st) && s in k.table.info
    ensures Live(s)
  {
    assert EntryOk(k.table, k.user, s);
  }

  /** The cached value, pick and user mark of s are those a solution gives. */
  ghost predicate Evaluated(table: Table, u: User, sol: Sol, st: State, s: Symbol) {
    && s in table.info && Get(st.tri, s) == sol.tri(s) && GetPick(st.pick, s) == sol.pick(s)
    && (s in st.user.has <==> if table.info[s].isChoice then MarkKept(table, u, sol, s) else s in u.has)
  }

  /** The cache agrees with any solution, not only with the one it was measured by. */
  lemma OtherSolution(k: Context, st: State, sol: Sol, s: Symbol)
    requires Inv(k, st) && st.busy == {} && s in st.valid && Solution(k.table, k.user, sol)
    ensures Evaluated(k.table, k.user, sol, st, s)
  {
    hide MarkKept;
    assert Done(k, st, s) && EntryOk(k.table, k.user, s);
    SolutionUnique(k.table, k.user, k.rank, k.sol, sol, MaxRank(k.table.info.Keys, k.rank));
    if k.table.info[s].isChoice {
      MarkSame(k, sol, s);
    }
  }

  lemma AllEvaluated(k: Context, st: State)
    requires Inv(k, st) && st.busy == {}
    ensures WellFormed(k.table, k.user)
    ensures forall sol, s :: Solution(k.table, k.user, sol) && s in st.valid ==> Evaluated(k.table, k.user, sol, st, s)
  {
    hide Evaluated; hide Solution; hide Done;
    forall sol, s | Solution(k.table, k.user, sol) && s in st.valid ensures Evaluated(k.table, k.user, sol, st, s) {
      OtherSolution(k, st, sol, s);
    }
  }

  lemma MarkSame(k: Context, sol: Sol, c: Symbol)
    requires ContextOk(k) && c in k.table.info && k.table.info[c].isChoice
    requires forall t: Symbol :: k.sol.tri(t) == sol.tri(t)
    requires forall t :: t in k.table.info ==> k.sol.pick(t) == sol.pick(t)
    ensures MarkKept(k.table, k.user, k.sol, c) <==> MarkKept(k.table, k.user, sol, c)
  {
    hide NewTri; hide Visible;
    assert RankedAt(k.table, k.user, k.rank, c) && EntryOk(k.table, k.user, c);
    NewTriAgrees(k.table, k.user, k.rank, k.sol, sol, c);
    var a, b := Overlay(k.sol.tri, c, YES), Overlay(sol.tri, c, YES);
    forall m | m in k.table.info[c].members && m in k.table.info
      ensures Visible(k.table, EnvOf(k.table, a), m) == Visible(k.table, EnvOf(k.table, b), m)
    {
      VisibleSame(k.table, a, b, m);
    }
  }

  /** What a setting leads to, for the marks that evaluation left. */
  lemma SettingResults(k: Context, st: State, s: Symbol, val: Tri, marks: set<Symbol>)
    requires Inv(k, st) && s in k.table.info && marks == SeenMembers(k.table, st.visible, s)
    ensures WellFormed(k.table, st.user) && WellFormed(k.table, WithSetting(k.table, st.user, marks, s, val))
    ensures Ranked(k.table, WithSetting(k.table, st.user, marks, s, val), k.rank)
    ensures var v := WithSetting(k.table, st.user, marks, s, val);
            forall before, after :: Solution(k.table, st.user, before) && Solution(k.table, v, after) ==>
              Resulting(k.table, st.user, v, before, after, s, val)
  {
    hide Inv; hide Solution; hide WellFormed; hide Ranked; hide Visible; hide OwnDefault; hide TakesMember; hide ValueAfter;
    hide Linked; hide ChoiceOk;
    var u, v := st.user, WithSetting(k.table, st.user, marks, s, val);
    Reusable(k, st);
    SettingWellFormed(k.table, u, marks, s, val);
    SameRanked(k.table, u, v, k.rank);
    if k.table.info[s].choice.Some? {
      LinkedChoice(k, st, s);
      ChoiceInTable(k, st, s);
    }
    forall before, after | Solution(k.table, u, before) && Solution(k.table, v, after)
      ensures Resulting(k.table, u, v, before, after, s, val)
    {
      if PicksMember(k.table, s, val) {
        MemberOutcome(k.table, u, k.rank, before, after, k.table.info[s].choice.value, s, marks);
      } else {
        SettingOutcome(k.table, u, k.rank, before, after, s, val);
      }
    }
  }

  lemma ChoiceInTable(k: Context, st: State, s: Symbol)
    requires Inv(k, st) && s in k.table.info
    ensures k.table.info[s].choice.Some? ==> k.table.info[s].choice.value in k.table.info
  {
    assert EntryOk(k.table, k.user, s);
  }

  /** A valid symbol has the visibility and dependencies of the solution, and so has its
      choice once it is visible. */
  lemma SeenAsSolved(k: Context, st: State, s: Symbol)
    requires Inv(k, st) && st.busy == {} && s in st.valid && s in k.table.info
    ensures var env := EnvOf(k.table, k.sol.tri);
            && Get(st.tri, s) == k.sol.tri(s)
            && Get(st.visible, s) == Visible(k.table, env, s)
            && Get(st.revDep, s) == RevDep(k.table, env, s)
            && Get(st.implied, s) == Implied(k.table, env, s)
    ensures k.table.info[s].choice.Some? && Get(st.visible, s) != NO ==>
              Get(st.tri, k.table.info[s].choice.value) == k.sol.tri(k.table.info[s].choice.value)
  {
    hide Visible; hide HasPrompt; hide MarkKept; hide Ranked;
    assert Done(k, st, s);
    if k.table.info[s].choice.Some? {
      MemberDeps(k, st, s, EnvOf(k.table, k.sol.tri));
      SolView(k);
      SilentUnseen(k, st, k.sol.tri, s);
      if HasPrompt(k.table, s) {
        assert Done(k, st, k.table.info[s].choice.value);
      }
    }
  }

  /** With no user mark lost, the new settings have the accepted value in every
      solution. */
  lemma SettingTakesEffect(k: Context, st: State, s: Symbol, val: Tri, marks: set<Symbol>)
    requires Inv(k, st) && st.busy == {} && s in st.valid && s in k.table.info && marks == SeenMembers(k.table, st.visible, s)
    requires WithinRange(k.table, s, Get(st.visible, s), Get(st.revDep, s), Get(st.implied, s), val)
    requires Takeable(k.table, st.tri, s, val)
    ensures WellFormed(k.table, WithSetting(k.table, k.user, marks, s, val))
    ensures forall after :: Solution(k.table, WithSetting(k.table, k.user, marks, s, val), after) ==> after.tri(s) == val
  {
    hide Inv; hide Solution; hide WellFormed; hide Ranked; hide Visible; hide RevDep; hide Implied; hide Linked; hide ValueAfter;
    SeenAsSolved(k, st, s);
    SolvedBy(k, st);
    SettingWellFormed(k.table, k.user, marks, s, val);
    if k.table.info[s].choice.Some? {
      LinkedChoice(k, st, s);
    }
    forall after | Solution(k.table, WithSetting(k.table, k.user, marks, s, val), after) ensures after.tri(s) == val {
      AcceptedSettingHonoured(k.table, k.user, k.rank, k.sol, after, s, val, marks);
    }
  }

  lemma SolvedBy(k: Context, st: State)
    requires Inv(k, st)
    ensures WellFormed(k.table, k.user) && Ranked(k.table, k.user, k.rank) && Solution(k.table, k.user, k.sol)
  {
  }

  lemma ConstantNo(k: Context, st: State, view: Symbol -> Tri)
    requires Inv(k, st) && ViewOk(k, view)
    ensures view(SYM_NO) == NO && OptValue(Some(E_NO), EnvOf(k.table, view)) == NO
  {
    if SYM_NO in k.table.info {
      KeysLive(k, st, SYM_NO);
    }
  }

  lemma SilentUnseen(k: Context, st: State, view: Symbol -> Tri, s: Symbol)
    requires Inv(k, st) && ViewOk(k, view) && s in k.table.info
    ensures !HasPrompt(k.table, s) ==> Visible(k.table, EnvOf(k.table, view), s) == NO
  {
    hide HasPrompt;
    ConstantNo(k, st, view);
    if !HasPrompt(k.table, s) {
      NoPromptUnseen(k.table, EnvOf(k.table, view), s);
    }
  }

  /** A nested calculation leaves the visibility of a symbol alone once its choice is
      valid, and that of a symbol without a prompt in any case. */
  lemma SeenKept(k: Context, a: State, b: State, n: nat, s: Symbol)
    requires Inv(k, a) && Inv(k, b) && Progress(k, a, b, n, NOTHING) && s in a.valid && s in k.table.info
    requires k.table.info[s].choice.Some? && HasPrompt(k.table, s) ==> k.table.info[s].choice.value in a.valid
    ensures Get(b.visible, s) == Get(a.visible, s) && a.valid <= b.valid
  {
    hide ContextOk; hide Done; hide HasPrompt;
    ProgressKeeps(k, a, b, n, s);
  }

  /** Once the visibility of a member is stored, its choice is done. */
  lemma MemberSeen(k: Context, st: State, s: Symbol)
    requires Inv(k, st) && s in k.table.info && k.table.info[s].choice.Some? && BusyAbove(k, st, k.rank(s))
    ensures k.table.info[s].choice.value !in st.busy
  {
    assert RankedAt(k.table, k.user, k.rank, s);
  }

  lemma BusyIsValid(k: Context, st: State)
    requires Inv(k, st)
    ensures st.busy <= st.valid <= k.table.info.Keys
  {
  }

  /** A member's own user mark never changes during evaluation. */
  lemma MemberMark(k: Context, st: State, view: Symbol -> Tri, c: Symbol, m: Symbol)
    requires Inv(k, st) && Choosing(k, st, view, c) && m in k.table.info[c].members
    ensures m in st.user.has <==> m in k.user.has
  {
    ChoosingFacts(k, st, view, c);
  }

  lemma ChoosingBusy(k: Context, st: State, view: Symbol -> Tri, c: Symbol)
    requires Choosing(k, st, view, c)
    ensures c in st.busy && c in k.table.info && k.table.info[c].isChoice
  {
  }

  lemma BusySame(k: Context, a: State, b: State, n: nat)
    requires BusyAbove(k, a, n) && b.busy == a.busy
    ensures BusyAbove(k, b, n)
  {
  }

  lemma UserOf(k: Context, st: State)
    requires Inv(k, st)
    ensures st.user.tri == k.user.tri && st.user.pick == k.user.pick
  {
  }

  lemma ContextView(k: Context, st: State)
    requires Inv(k, st)
    ensures ViewOk(k, k.sol.tri)
  {
    SolView(k);
  }

  lemma ChoosingView(k: Context, st: State, view: Symbol -> Tri, c: Symbol)
    requires Choosing(k, st, view, c)
    ensures ViewOk(k, view) && BusyAbove(k, st, k.rank(c)) && c in k.table.info
  {
  }

  lemma ProgressMark(k: Context, a: State, b: State, n: nat, ex: Exempt, s: Symbol)
    requires Progress(k, a, b, n, ex) && s in a.valid && s !in ex.marks
    ensures s in b.user.has <==> s in a.user.has
  {
  }

  /** A visible member has read its choice, so the choice is done and ranks below. */
  lemma ChoiceDone(k: Context, st: State, s: Symbol)
    requires Inv(k, st) && s in k.table.info && k.table.info[s].choice.Some? && BusyAbove(k, st, k.rank(s))
    ensures k.table.info[s].choice.value in st.valid ==>
              GetPick(st.pick, k.table.info[s].choice.value) == k.sol.pick(k.table.info[s].choice.value)
  {
    assert RankedAt(k.table, k.user, k.rank, s);
    var c := k.table.info[s].choice.value;
    if c in st.valid {
      assert Done(k, st, c);
    }
  }

  lemma EquationOf(k: Context, st: State, s: Symbol)
    requires Inv(k, st) && s in k.table.info
    ensures Equation(k.table, k.user, k.sol, s) && EntryOk(k.table, k.user, s)
  {
  }

  lemma BeginChoosing(k: Context, st: State, s: Symbol)
    requires Inv(k, st) && s in st.busy && s in k.table.info && k.table.info[s].isChoice && BusyAbove(k, st, k.rank(s))
    requires Get(st.tri, s) == YES
    ensures Choosing(k, st, Overlay(k.sol.tri, s, YES), s)
  {
  }

  lemma KeptFields(k: Context, a: State, b: State, s: Symbol)
    requires Inv(k, a) && s in a.valid && s in k.table.info && k.table.info[s].isChoice
    requires Progress(k, a, b, k.rank(s), Exempt(MemberSet(k.table, s), {s}, {}))
    ensures Get(b.tri, s) == Get(a.tri, s) && Get(b.visible, s) == Get(a.visible, s)
    ensures Get(b.revDep, s) == Get(a.revDep, s) && Get(b.implied, s) == Get(a.implied, s)
  {
    assert EntryOk(k.table, k.user, s);
  }
}
