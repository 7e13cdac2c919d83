/** What every solution of the symbol equations says: which valuations arise, that a
    choice selects one member, and that an accepted setting takes effect. */
module Consequences {
  import opened Wrappers
  import opened Exprs
  import opened SymTable
  import opened Solutions

  // ----- the bridge to the optimiser -----

  lemma NewTriRounded(table: Table, u: User, env: Env, pick: Symbol -> Option<Symbol>, s: Symbol)
    requires s in table.info
    ensures s.typ.Boolean? || table.modules == NO ==> NewTri(table, u, env, pick, s) != MOD
  {
  }

  /** Every solution is a valuation on which the optimiser is sound. */
  lemma SolutionProduced(table: Table, u: User, sol: Sol)
    requires WellFormed(table, u) && Solution(table, u, sol)
    ensures Produced(EnvOf(table, sol.tri))
  {
    hide NewTri; hide ChooseMember;
    forall s: Symbol ensures ProducedAt(EnvOf(table, sol.tri), s) {
      if s in table.info {
        assert Equation(table, u, sol, s);
        NewTriRounded(table, u, EnvOf(table, sol.tri), sol.pick, s);
      }
    }
  }

  /** A symbol with one unconditional prompt. */
  const PLAIN_INFO := Info([Property(Prompt, true, None, None)], None, None, None, false, [], None)

  function PlainTable(symbols: set<Symbol>, env: Env): Table {
    Table(map s | s in symbols :: PLAIN_INFO, env.str, env.modules)
  }

  function PlainUser(symbols: set<Symbol>, env: Env): User {
    User(symbols, map s | s in symbols :: env.tri(s), map[])
  }

  /** Conversely, every valuation of that kind arises: some acyclic table and user
      settings have it as their solution. */
  lemma ProducedArises(symbols: set<Symbol>, env: Env)
    requires Produced(env)
    requires forall s :: s in symbols ==> Live(s)
    requires forall s: Symbol :: s !in symbols ==> env.tri(s) == ConstTri(s)
    ensures var table, u := PlainTable(symbols, env), PlainUser(symbols, env);
            && WellFormed(table, u) && Ranked(table, u, (s: Symbol) => 0)
            && Solution(table, u, Sol(env.tri, (s: Symbol) => None))
  {
    var table, u := PlainTable(symbols, env), PlainUser(symbols, env);
    var sol := Sol(env.tri, (s: Symbol) => None);
    forall s: Symbol | s.typ.Unknown? ensures table.str(s) == s.name {
      assert ProducedAt(env, s);
    }
    assert WellFormed(table, u);
    forall s | s in table.info ensures Equation(table, u, sol, s) {
      assert ProducedAt(env, s);
      PlainVisible(table, EnvOf(table, env.tri), s);
      assert DefaultTri(EnvOf(table, env.tri), PLAIN_INFO.props) == NO;
    }
  }

  lemma PlainVisible(table: Table, env: Env, s: Symbol)
    requires s in table.info && table.info[s] == PLAIN_INFO
    ensures Visible(table, env, s) == YES
  {
    var props := PLAIN_INFO.props;
    assert props[1..] == [];
    assert PromptMax(table, env, s, props) == TriMax(YES, PromptMax(table, env, s, props[1..]));
  }

  // ----- choices -----

  /** While its choice is y a member is fully visible or not at all. */
  lemma {:induction false} PromptsCrisp(table: Table, env: Env, m: Symbol, props: seq<Property>)
    requires m in table.info && table.info[m].choice.Some? && m.typ.Tristate?
    requires env.tri(table.info[m].choice.value) == YES
    ensures PromptMax(table, env, m, props) != MOD
  {
    if props != [] {
      PromptsCrisp(table, env, m, props[1..]);
    }
  }

  lemma MemberVisibleCrisp(table: Table, env: Env, m: Symbol)
    requires m in table.info && table.info[m].choice.Some?
    requires env.tri(table.info[m].choice.value) == YES
    ensures Visible(table, env, m) != MOD
  {
    if m.typ.Tristate? {
      PromptsCrisp(table, env, m, table.info[m].props);
    }
  }

  lemma VisibleSame(table: Table, a: Symbol -> Tri, b: Symbol -> Tri, s: Symbol)
    requires s in table.info && forall t: Symbol :: a(t) == b(t)
    ensures Visible(table, EnvOf(table, a), s) == Visible(table, EnvOf(table, b), s)
  {
    PromptsAgree(table, a, b, s, table.info[s].props);
  }

  lemma {:induction false} FirstVisibleMember(table: Table, env: Env, members: seq<Symbol>)
    requires forall m :: m in members ==> m in table.info
    ensures var p := FirstVisible(table, env, members);
            p.Some? ==> p.value in members && Visible(table, env, p.value) != NO
  {
    if members != [] {
      FirstVisibleMember(table, env, members[1..]);
    }
  }

  lemma {:induction false} VisibleDefaultMember(table: Table, env: Env, props: seq<Property>, members: set<Symbol>)
    requires forall p :: p in props ==> DefaultIn(p, table.info.Keys) && DefaultIn(p, members)
    ensures var p := VisibleDefault(table, env, props);
            p.Some? ==> p.value in members && p.value in table.info && Visible(table, env, p.value) != NO
  {
    if props != [] {
      assert DefaultIn(props[0], members) && DefaultIn(props[0], table.info.Keys);
      VisibleDefaultMember(table, env, props[1..], members);
    }
  }

  /** Whatever a choice picks is one of its members, and visible. */
  lemma PickIsVisibleMember(table: Table, u: User, env: Env, c: Symbol)
    requires ChoiceOk(table, u, c)
    ensures var p := ChooseMember(table, u, env, c);
            p.Some? ==> p.value in table.info[c].members && p.value in table.info && Visible(table, env, p.value) != NO
  {
    hide Visible;
    VisibleDefaultMember(table, env, table.info[c].props, set m | m in table.info[c].members);
    FirstVisibleMember(table, env, table.info[c].members);
  }

  /** A member that is not visible can still be y, but only through a default of its
      own; its selects and implies are never looked at. */
  function OwnDefault(table: Table, env: Env, m: Symbol): Tri
    requires m in table.info
  {
    var d := DefaultTri(env, table.info[m].props);
    if d == MOD && (m.typ.Boolean? || table.modules == NO) then YES else d
  }

  lemma MemberValue(table: Table, u: User, sol: Sol, c: Symbol, m: Symbol)
    requires WellFormed(table, u) && Solution(table, u, sol)
    requires c in table.info && table.info[c].isChoice && m in table.info[c].members
    requires sol.tri(c) == YES
    ensures m in table.info && var env := EnvOf(table, sol.tri);
            && Visible(table, env, m) != MOD
            && sol.tri(m) == if Visible(table, env, m) == YES then TriBool(sol.pick(c) == Some(m)) else OwnDefault(table, env, m)
  {
    hide Visible; hide DefaultTri;
    assert EntryOk(table, u, c) && ChoiceOk(table, u, c);
    assert Equation(table, u, sol, m) && EntryOk(table, u, m);
    MemberVisibleCrisp(table, EnvOf(table, sol.tri), m);
  }

  /** For a choice that is y, the picked member is y and visible, and every other
      visible member is n.  So exactly one member is y if and only if no invisible
      member is made y by a default of its own. */
  lemma ChoiceExclusive(table: Table, u: User, sol: Sol, c: Symbol)
    requires WellFormed(table, u) && Solution(table, u, sol)
    requires c in table.info && table.info[c].isChoice && sol.tri(c) == YES
    ensures sol.pick(c).Some? && sol.pick(c).value in table.info[c].members
    ensures sol.pick(c).value in table.info
            && Visible(table, EnvOf(table, sol.tri), sol.pick(c).value) == YES && sol.tri(sol.pick(c).value) == YES
    ensures (forall m :: m in table.info[c].members && sol.tri(m) == YES ==> m == sol.pick(c).value)
            <==> (forall m :: (m in table.info[c].members && m in table.info
                               && Visible(table, EnvOf(table, sol.tri), m) == NO)
                              ==> OwnDefault(table, EnvOf(table, sol.tri), m) != YES)
  {
    hide NewTri; hide ChooseMember; hide Visible; hide OwnDefault;
    var env := EnvOf(table, sol.tri);
    assert Equation(table, u, sol, c) && EntryOk(table, u, c) && ChoiceOk(table, u, c);
    var over := Overlay(sol.tri, c, YES);
    PickIsVisibleMember(table, u, EnvOf(table, over), c);
    var p := sol.pick(c).value;
    VisibleSame(table, over, sol.tri, p);
    MemberValue(table, u, sol, c, p);
    forall m | m in table.info[c].members
      ensures m in table.info && Visible(table, env, m) != MOD
           && sol.tri(m) == if Visible(table, env, m) == YES then TriBool(sol.pick(c) == Some(m)) else OwnDefault(table, env, m)
    {
      MemberValue(table, u, sol, c, m);
    }
  }

  /** Members free of defaults: exactly one member is y. */
  lemma ChoiceExclusiveWithoutDefaults(table: Table, u: User, sol: Sol, c: Symbol, m: Symbol)
    requires WellFormed(table, u) && Solution(table, u, sol)
    requires c in table.info && table.info[c].isChoice && sol.tri(c) == YES
    requires m in table.info[c].members && m in table.info
    requires forall p :: p in table.info[m].props ==> !p.kind.Default?
    ensures sol.tri(m) == YES <==> sol.pick(c) == Some(m)
    ensures sol.tri(m) == YES || sol.tri(m) == NO
  {
    NoDefaults(EnvOf(table, sol.tri), table.info[m].props);
    hide Visible;
    MemberValue(table, u, sol, c, m);
    ChoiceExclusive(table, u, sol, c);
  }

  lemma {:induction false} NoDefaults(env: Env, props: seq<Property>)
    requires forall p :: p in props ==> !p.kind.Default?
    ensures DefaultTri(env, props) == NO
  {
    if props != [] {
      assert props[0] in props;
      NoDefaults(env, props[1..]);
    }
  }

  // ----- user settings -----

  /** sym_tristate_within_range. */
  predicate WithinRange(table: Table, s: Symbol, visible: Tri, revDep: Tri, implied: Tri, val: Tri)
    requires s in table.info
  {
    && visible != NO
    && !(ActsBool(table, s, visible) && val == MOD)
    && revDep < visible
    && !(implied == YES && val == MOD)
    && if table.info[s].choice.Some? && visible == YES then val == YES else revDep <= val <= visible
  }

  function Setting(u: User, s: Symbol, val: Tri): User {
    User(u.has + {s}, u.tri[s := val], u.pick)
  }

  /** Setting member s of choice c to y: the choice picks it, and the choice and the
      given members are marked too. */
  function MemberSetting(u: User, c: Symbol, s: Symbol, marks: set<Symbol>): User {
    User(u.has + {s, c} + marks, u.tri[s := YES], u.pick[c := s])
  }

  predicate PicksMember(table: Table, s: Symbol, val: Tri)
    requires s in table.info
  {
    table.info[s].choice.Some? && val == YES
  }

  /** The settings after s was set to val. */
  function WithSetting(table: Table, u: User, marks: set<Symbol>, s: Symbol, val: Tri): User
    requires s in table.info
  {
    if PicksMember(table, s, val) then MemberSetting(u, table.info[s].choice.value, s, marks) else Setting(u, s, val)
  }

  /** Whether a table is well formed for a user depends on the picks only. */
  lemma SamePicksWellFormed(table: Table, u: User, v: User)
    requires WellFormed(table, u) && u.pick == v.pick
    ensures WellFormed(table, v)
  {
    forall t | t in table.info ensures EntryOk(table, v, t) {
      assert EntryOk(table, u, t);
    }
  }

  lemma SettingWellFormed(table: Table, u: User, marks: set<Symbol>, s: Symbol, val: Tri)
    requires WellFormed(table, u) && s in table.info
    ensures WellFormed(table, WithSetting(table, u, marks, s, val))
  {
    var v := WithSetting(table, u, marks, s, val);
    assert EntryOk(table, u, s);
    forall t | t in table.info ensures EntryOk(table, v, t) {
      assert EntryOk(table, u, t);
    }
  }

  /** So is the order in which symbols are read. */
  lemma SameRanked(table: Table, u: User, v: User, rank: Symbol -> nat)
    requires WellFormed(table, u) && WellFormed(table, v) && Ranked(table, u, rank)
    ensures Ranked(table, v, rank)
  {
    forall s | s in table.info ensures RankedAt(table, v, rank, s) {
      assert RankedAt(table, u, rank, s);
    }
  }

  /** The users give t the same setting, and the same pick if it is a choice. */
  predicate SameFor(u: User, v: User, t: Symbol) {
    && (t in u.has <==> t in v.has) && UserTri(u, t) == UserTri(v, t)
    && (t in u.pick <==> t in v.pick) && (t in u.pick ==> u.pick[t] == v.pick[t])
  }

  ghost predicate SameBelow(table: Table, rank: Symbol -> nat, u: User, v: User, n: nat) {
    forall t :: t in table.info && rank(t) < n ==> SameFor(u, v, t)
  }

  /** Changing settings ranked at or above n changes nothing ranked below n. */
  lemma {:induction false} SettingIsLocal(table: Table, u: User, v: User, rank: Symbol -> nat, a: Sol, b: Sol, n: nat)
    requires WellFormed(table, u) && WellFormed(table, v) && Ranked(table, u, rank)
    requires Solution(table, u, a) && Solution(table, v, b)
    requires SameBelow(table, rank, u, v, n)
    ensures AgreeBelow(table, rank, a.tri, b.tri, n)
    ensures forall t :: t in table.info && rank(t) < n ==> a.pick(t) == b.pick(t)
  {
    hide Equation; hide WellFormed; hide Ranked; hide SameFor;
    if n > 0 {
      SettingIsLocal(table, u, v, rank, a, b, n - 1);
      forall t | t in table.info && rank(t) < n
        ensures a.tri(t) == b.tri(t) && a.pick(t) == b.pick(t)
      {
        if rank(t) == n - 1 {
          EquationForOtherUser(table, u, v, b, t);
          EquationFixes(table, u, rank, a, b, t);
        }
      }
    }
  }

  lemma EquationForOtherUser(table: Table, u: User, v: User, b: Sol, t: Symbol)
    requires WellFormed(table, u) && WellFormed(table, v)
    requires t in table.info && SameFor(u, v, t) && Equation(table, v, b, t)
    ensures Equation(table, u, b, t)
  {
    hide Visible; hide DefaultTri; hide RevDep; hide Implied; hide DirDep;
    assert EntryOk(table, u, t) && EntryOk(table, v, t);
  }

  /** The value that a setting of a visible symbol leads to. */
  function Settled(table: Table, s: Symbol, visible: Tri, revDep: Tri, implied: Tri, val: Tri): Tri
    requires s in table.info
  {
    var t := TriMax(TriMin(val, visible), revDep);
    if t == MOD && (ActsBool(table, s, visible) || implied == YES) then YES else t
  }

  /** What becomes of s when it is set to val, read off the solution before: a symbol
      that is not visible keeps its value, a member visible as y follows the pick of its
      choice, and a choice is only y if it finds a visible member. */
  function ValueAfter(table: Table, u: User, before: Sol, s: Symbol, val: Tri): Tri
    requires s in table.info && (table.info[s].isChoice ==> ChoiceOk(table, u, s))
  {
    var env := EnvOf(table, before.tri);
    var visible := Visible(table, env, s);
    if visible == NO || (table.info[s].choice.Some? && visible == YES) then before.tri(s)
    else
      var t := Settled(table, s, visible, RevDep(table, env, s), Implied(table, env, s), val);
      if table.info[s].isChoice && t == YES then TriBool(HasMember(table, u, before, s)) else t
  }

  /** Some member of c would be visible with the choice at y. */
  predicate HasMember(table: Table, u: User, before: Sol, c: Symbol)
    requires ChoiceOk(table, u, c)
  {
    ChooseMember(table, u, EnvOf(table, Overlay(before.tri, c, YES)), c).Some?
  }

  /** A solution has the value and pick that its equations give. */
  lemma Solved(table: Table, u: User, sol: Sol, s: Symbol)
    requires WellFormed(table, u) && Solution(table, u, sol) && s in table.info
    ensures SolveOk(table, u, s) && (sol.tri(s), sol.pick(s)) == Solve(table, u, sol, s)
  {
    hide NewTri; hide ChooseMember;
    EntrySolves(table, u, s);
    assert Equation(table, u, sol, s);
  }

  /** What a symbol reads decides what its equation gives. */
  lemma SolveAgrees(table: Table, u: User, rank: Symbol -> nat, a: Sol, b: Sol, s: Symbol)
    requires WellFormed(table, u) && Ranked(table, u, rank) && s in table.info
    requires AgreeBelow(table, rank, a.tri, b.tri, rank(s))
    requires forall t :: t in table.info && rank(t) < rank(s) ==> a.pick(t) == b.pick(t)
    ensures SolveOk(table, u, s) && Solve(table, u, a, s) == Solve(table, u, b, s)
  {
    hide NewTri; hide ChooseMember; hide Below; hide DefaultIn; hide Conditioned;
    assert RankedAt(table, u, rank, s) && EntryOk(table, u, s);
    hide Ranked;
    NewTriAgrees(table, u, rank, a, b, s);
    if table.info[s].isChoice {
      ChooseAgrees(table, u, rank, Overlay(a.tri, s, YES), Overlay(b.tri, s, YES), s);
    }
  }

  /** What a setting does to the equation of its symbol. */
  lemma NewTriAfterSetting(table: Table, u: User, env: Env, pick: Symbol -> Option<Symbol>, s: Symbol, val: Tri)
    requires s in table.info
    ensures var visible := Visible(table, env, s);
            NewTri(table, Setting(u, s, val), env, pick, s)
            == if visible == NO || (table.info[s].choice.Some? && visible == YES) then NewTri(table, u, env, pick, s)
               else Settled(table, s, visible, RevDep(table, env, s), Implied(table, env, s), val)
  {
    hide Visible; hide DefaultTri; hide RevDep; hide Implied;
  }

  /** After a setting, the value of the symbol is exactly its outcome. */
  lemma SettingOutcome(table: Table, u: User, rank: Symbol -> nat, before: Sol, after: Sol, s: Symbol, val: Tri)
    requires WellFormed(table, u) && Ranked(table, u, rank) && s in table.info
    requires WellFormed(table, Setting(u, s, val))
    requires Solution(table, u, before) && Solution(table, Setting(u, s, val), after)
    ensures table.info[s].isChoice ==> ChoiceOk(table, u, s)
    ensures after.tri(s) == ValueAfter(table, u, before, s, val)
  {
    hide *;
    var v := Setting(u, s, val);
    SameBelowSetting(table, rank, u, s, val);
    SettingIsLocal(table, u, v, rank, before, after, rank(s));
    SameRanked(table, u, v, rank);
    SolveAgrees(table, v, rank, before, after, s);
    Solved(table, u, before, s);
    Solved(table, v, after, s);
    ValueAfterSolves(table, u, before, s, val);
  }

  lemma SameBelowSetting(table: Table, rank: Symbol -> nat, u: User, s: Symbol, val: Tri)
    ensures SameBelow(table, rank, u, Setting(u, s, val), rank(s))
  {
  }

  lemma ValueAfterSolves(table: Table, u: User, before: Sol, s: Symbol, val: Tri)
    requires s in table.info && SolveOk(table, u, s) && SolveOk(table, Setting(u, s, val), s)
    requires (before.tri(s), before.pick(s)) == Solve(table, u, before, s)
    ensures table.info[s].isChoice ==> ChoiceOk(table, u, s)
    ensures Solve(table, Setting(u, s, val), before, s).0 == ValueAfter(table, u, before, s, val)
  {
    hide NewTri; hide Visible; hide RevDep; hide Implied; hide Settled; hide ChoiceOk;
    hide VisibleDefault; hide FirstVisible;
    NewTriAfterSetting(table, u, EnvOf(table, before.tri), before.pick, s, val);
  }

  /** Whether a choice takes up the member s that it is told to pick. */
  predicate TakesMember(table: Table, v: User, before: Sol, s: Symbol)
    requires s in table.info && table.info[s].choice.Some? && table.info[s].choice.value in table.info
  {
    var c := table.info[s].choice.value;
    && NewTri(table, v, EnvOf(table, before.tri), before.pick, c) == YES
    && Visible(table, EnvOf(table, Overlay(before.tri, c, YES)), s) != NO
  }

  ghost predicate Linked(table: Table, c: Symbol, s: Symbol, marks: set<Symbol>) {
    && s in table.info && table.info[s].choice == Some(c)
    && c in table.info && table.info[c].isChoice && s in table.info[c].members
    && (forall m :: m in marks ==> m in table.info[c].members)
  }

  /** After setting member s to y, its choice picks s if and only if it is y and s is
      visible then; s is y in that case, and otherwise only by a default of its own
      while it is not visible. */
  lemma MemberOutcome(table: Table, u: User, rank: Symbol -> nat, before: Sol, after: Sol, c: Symbol, s: Symbol, marks: set<Symbol>)
    requires WellFormed(table, u) && Ranked(table, u, rank) && Linked(table, c, s, marks)
    requires WellFormed(table, MemberSetting(u, c, s, marks))
    requires Solution(table, u, before) && Solution(table, MemberSetting(u, c, s, marks), after)
    ensures after.pick(c) == Some(s) <==> TakesMember(table, MemberSetting(u, c, s, marks), before, s)
    ensures var env := EnvOf(table, after.tri);
            after.tri(s) == YES <==> after.pick(c) == Some(s) || (Visible(table, env, s) == NO && OwnDefault(table, env, s) == YES)
  {
    hide WellFormed; hide Ranked; hide Solution; hide Solve; hide SolveOk; hide TakesMember; hide SameBelow; hide AgreeBelow;
    hide Visible; hide OwnDefault;
    var v := MemberSetting(u, c, s, marks);
    SameBelowMember(table, rank, u, c, s, marks);
    SettingIsLocal(table, u, v, rank, before, after, rank(c));
    SameRanked(table, u, v, rank);
    TakenAfter(table, v, rank, before, after, c, s);
    ValueOfMember(table, v, after, c, s);
  }

  lemma SameBelowMember(table: Table, rank: Symbol -> nat, u: User, c: Symbol, s: Symbol, marks: set<Symbol>)
    requires WellFormed(table, u) && Ranked(table, u, rank) && Linked(table, c, s, marks)
    ensures SameBelow(table, rank, u, MemberSetting(u, c, s, marks), rank(c))
  {
    assert EntryOk(table, u, c) && ChoiceOk(table, u, c);
    forall m | m in table.info[c].members ensures rank(c) < rank(m) {
      assert RankedAt(table, u, rank, m);
    }
    hide WellFormed; hide Ranked; hide ChoiceOk;
  }

  lemma TakenAfter(table: Table, v: User, rank: Symbol -> nat, before: Sol, after: Sol, c: Symbol, s: Symbol)
    requires WellFormed(table, v) && Ranked(table, v, rank) && Linked(table, c, s, {})
    requires Solution(table, v, after) && c in v.pick && v.pick[c] == s
    requires AgreeBelow(table, rank, before.tri, after.tri, rank(c))
    requires forall t :: t in table.info && rank(t) < rank(c) ==> before.pick(t) == after.pick(t)
    ensures after.pick(c) == Some(s) <==> TakesMember(table, v, before, s)
  {
    hide WellFormed; hide Ranked; hide Solution; hide Solve; hide SolveOk; hide TakesMember; hide SameBelow; hide AgreeBelow;
    hide Visible; hide OwnDefault;
    SolveAgrees(table, v, rank, before, after, c);
    Solved(table, v, after, c);
    SolvePicks(table, v, before, c, s);
  }

  lemma SolvePicks(table: Table, v: User, before: Sol, c: Symbol, s: Symbol)
    requires Linked(table, c, s, {}) && SolveOk(table, v, c) && c in v.pick && v.pick[c] == s
    ensures Solve(table, v, before, c).1 == Some(s) <==> TakesMember(table, v, before, s)
  {
    hide NewTri; hide Visible; hide DefaultIn;
    var over := EnvOf(table, Overlay(before.tri, c, YES));
    PickIsVisibleMember(table, v, over, c);
  }

  lemma ValueOfMember(table: Table, v: User, sol: Sol, c: Symbol, s: Symbol)
    requires WellFormed(table, v) && Solution(table, v, sol) && Linked(table, c, s, {})
    requires s in v.has && UserTri(v, s) == YES
    ensures var env := EnvOf(table, sol.tri);
            sol.tri(s) == YES <==> sol.pick(c) == Some(s) || (Visible(table, env, s) == NO && OwnDefault(table, env, s) == YES)
  {
    hide Visible; hide DefaultTri; hide ChooseMember; hide DefaultIn; hide Conditioned;
    assert Equation(table, v, sol, s) && EntryOk(table, v, s);
    if sol.pick(c) == Some(s) {
      assert Equation(table, v, sol, c);
      ChoiceExclusive(table, v, sol, c);
    } else {
      VisibleRounded(table, EnvOf(table, sol.tri), s);
    }
  }

  lemma VisibleRounded(table: Table, env: Env, s: Symbol)
    requires s in table.info
    ensures Visible(table, env, s) == MOD ==> s.typ.Tristate? && table.modules != NO
  {
  }

  /** A choice that is y stays y and takes up whichever visible member it is told to. */
  lemma TakenWhileYes(table: Table, u: User, before: Sol, c: Symbol, s: Symbol, marks: set<Symbol>)
    requires WellFormed(table, u) && Solution(table, u, before) && Linked(table, c, s, marks)
    requires before.tri(c) == YES && Visible(table, EnvOf(table, before.tri), s) != NO
    ensures TakesMember(table, MemberSetting(u, c, s, marks), before, s)
  {
    hide ChooseMember; hide Visible; hide RevDep; hide Implied; hide DefaultIn; hide Conditioned;
    VisibleSame(table, before.tri, Overlay(before.tri, c, YES), s);
    assert Equation(table, u, before, c) && EntryOk(table, u, c) && c != s;
  }

  /** An accepted setting is honoured: in the solution for the new settings the symbol
      has exactly the value that was set.  For a member set to y its choice has to be y,
      for a choice set to y some member has to be visible then. */
  lemma AcceptedSettingHonoured(table: Table, u: User, rank: Symbol -> nat, before: Sol, after: Sol,
                                s: Symbol, val: Tri, marks: set<Symbol>)
    requires WellFormed(table, u) && Ranked(table, u, rank) && s in table.info
    requires table.info[s].choice.Some? ==> Linked(table, table.info[s].choice.value, s, marks)
    requires WellFormed(table, WithSetting(table, u, marks, s, val))
    requires Solution(table, u, before) && Solution(table, WithSetting(table, u, marks, s, val), after)
    requires var env := EnvOf(table, before.tri);
             WithinRange(table, s, Visible(table, env, s), RevDep(table, env, s), Implied(table, env, s), val)
    requires PicksMember(table, s, val) ==> before.tri(table.info[s].choice.value) == YES
    requires table.info[s].isChoice && val == YES ==> ChoiceOk(table, u, s) && HasMember(table, u, before, s)
    ensures after.tri(s) == val
  {
    hide Visible; hide RevDep; hide Implied; hide WellFormed; hide Ranked; hide Solution; hide ChoiceOk; hide HasMember; hide Linked;
    hide TakesMember; hide OwnDefault;
    if PicksMember(table, s, val) {
      var c := table.info[s].choice.value;
      MemberOutcome(table, u, rank, before, after, c, s, marks);
      TakenWhileYes(table, u, before, c, s, marks);
    } else {
      SettingOutcome(table, u, rank, before, after, s, val);
    }
  }

  /** The guard against the effect, both ways.  Of a visible symbol above its selects it
      accepts exactly what is kept, with one exception: a tristate that is visible as m and
      implied y refuses y although y is what it would get.  Of a member visible as y it
      accepts y only.  Elsewhere it refuses everything, and exactly the old value or the
      value of the selects is kept. */
  lemma SettingKeptExact(table: Table, u: User, rank: Symbol -> nat, before: Sol, after: Sol, s: Symbol, val: Tri)
    requires WellFormed(table, u) && Ranked(table, u, rank) && s in table.info && !table.info[s].isChoice
    requires WellFormed(table, Setting(u, s, val))
    requires Solution(table, u, before) && Solution(table, Setting(u, s, val), after)
    ensures var env := EnvOf(table, before.tri);
            var visible, revDep, implied := Visible(table, env, s), RevDep(table, env, s), Implied(table, env, s);
            after.tri(s) == val
            <==> if visible == NO || (table.info[s].choice.Some? && visible == YES) then val == before.tri(s)
                 else if visible <= revDep then
                   val == if revDep == MOD && (ActsBool(table, s, visible) || implied == YES) then YES else revDep
                 else WithinRange(table, s, visible, revDep, implied, val) || (visible == MOD && implied == YES && val == YES)
    ensures var env := EnvOf(table, before.tri);
            var visible, revDep, implied := Visible(table, env, s), RevDep(table, env, s), Implied(table, env, s);
            WithinRange(table, s, visible, revDep, implied, val)
            <==> && visible != NO && revDep < visible
                 && if table.info[s].choice.Some? && visible == YES then val == YES
                    else after.tri(s) == val && !(visible == MOD && implied == YES && val == YES)
  {
    SettingOutcome(table, u, rank, before, after, s, val);
    var env := EnvOf(table, before.tri);
    hide PromptMax; hide DirDep; hide Value; hide OptValue; hide WellFormed; hide Ranked; hide Solution;
    var visible, revDep, implied := Visible(table, env, s), RevDep(table, env, s), Implied(table, env, s);
    if visible != NO && !(table.info[s].choice.Some? && visible == YES) {
      SettledExact(table, s, visible, revDep, implied, val);
    }
  }

  lemma SettledExact(table: Table, s: Symbol, visible: Tri, revDep: Tri, implied: Tri, val: Tri)
    requires s in table.info && visible != NO && !(table.info[s].choice.Some? && visible == YES)
    requires ActsBool(table, s, visible) ==> visible != MOD && revDep != MOD
    ensures Settled(table, s, visible, revDep, implied, val) == val
            <==> if visible <= revDep then
                   val == if revDep == MOD && (ActsBool(table, s, visible) || implied == YES) then YES else revDep
                 else WithinRange(table, s, visible, revDep, implied, val) || (visible == MOD && implied == YES && val == YES)
  {
  }

  // ----- a setting that is accepted and still lost -----

  const WRAPPER := Symbol(10, "CHOICE", Boolean, false)
  const MEMBER := Symbol(11, "MEMBER", Boolean, false)
  const INSIDE := Symbol(12, "INSIDE", Boolean, false)

  function PromptIf(cond: Option<Expr>): Property { Property(Prompt, true, cond, None) }

  /** An optional choice with one member, and a bool that depends on the choice. */
  function LossyTable(): Table {
    Table(map[WRAPPER := Info([PromptIf(None)], None, None, None, true, [MEMBER], None),
              MEMBER := Info([PromptIf(Some(Sym(WRAPPER)))], None, None, None, false, [], Some(WRAPPER)),
              INSIDE := Info([PromptIf(Some(Sym(WRAPPER)))], None, None, None, false, [], None)],
          (s: Symbol) => s.name, YES)
  }

  function LossyRank(s: Symbol): nat { if s == WRAPPER then 1 else 2 }

  /** The valuation in which wrapper, member and inside have the given values. */
  function LossySol(wrapper: Tri, member: Tri, inside: Tri): Sol {
    Sol((s: Symbol) => LossyTri(wrapper, member, inside, s),
        (s: Symbol) => if s == WRAPPER && wrapper == YES then Some(MEMBER) else None)
  }

  function LossyTri(wrapper: Tri, member: Tri, inside: Tri, s: Symbol): Tri {
    if s == WRAPPER then wrapper else if s == MEMBER then member else if s == INSIDE then inside else ConstTri(s)
  }

  lemma OnePrompt(table: Table, env: Env, s: Symbol, cond: Option<Expr>)
    requires s in table.info && table.info[s].props == [PromptIf(cond)]
    ensures PromptMax(table, env, s, table.info[s].props) == PromptValue(table, env, s, cond)
    ensures DefaultTri(env, table.info[s].props) == NO
  {
    var props := table.info[s].props;
    assert props[1..] == [];
    assert PromptMax(table, env, s, props[1..]) == NO;
    assert DefaultTri(env, props[1..]) == NO;
  }

  lemma LossyFormed(u: User)
    requires u.pick == map[]
    ensures WellFormed(LossyTable(), u)
  {
    var table := LossyTable();
    forall s | s in table.info ensures Live(s) && EntryOk(table, u, s) {
    }
  }

  lemma LossyOk(u: User)
    requires u.pick == map[]
    ensures WellFormed(LossyTable(), u) && Ranked(LossyTable(), u, (s: Symbol) => LossyRank(s))
  {
    LossyFormed(u);
    hide WellFormed;
  }

  /** The wrapper is always visible; the member and the symbol inside as the wrapper. */
  lemma LossyVisible(tri: Symbol -> Tri)
    requires tri(WRAPPER) != MOD
    ensures var table, env := LossyTable(), EnvOf(LossyTable(), tri);
            && Visible(table, env, WRAPPER) == YES
            && Visible(table, env, MEMBER) == tri(WRAPPER)
            && Visible(table, env, INSIDE) == tri(WRAPPER)
            && (forall s :: s in table.info ==>
                  DefaultTri(env, table.info[s].props) == NO && RevDep(table, env, s) == NO && Implied(table, env, s) == NO)
  {
    var table, env := LossyTable(), EnvOf(LossyTable(), tri);
    OnePrompt(table, env, WRAPPER, None);
    OnePrompt(table, env, MEMBER, Some(Sym(WRAPPER)));
    OnePrompt(table, env, INSIDE, Some(Sym(WRAPPER)));
  }

  lemma LossyPick(u: User, tri: Symbol -> Tri)
    requires u.pick == map[] && tri(WRAPPER) == YES
    ensures ChoiceOk(LossyTable(), u, WRAPPER)
    ensures ChooseMember(LossyTable(), u, EnvOf(LossyTable(), tri), WRAPPER) == Some(MEMBER)
  {
    LossyOk(u);
    LossyVisible(tri);
    var table, env := LossyTable(), EnvOf(LossyTable(), tri);
    assert EntryOk(table, u, WRAPPER);
    hide Visible;
    assert table.info[WRAPPER].props[1..] == [];
    assert VisibleDefault(table, env, table.info[WRAPPER].props) == VisibleDefault(table, env, table.info[WRAPPER].props[1..]) == None;
    assert FirstVisible(table, env, [MEMBER]) == Some(MEMBER);
  }

  lemma LossySolves(u: User, wrapper: Tri, member: Tri, inside: Tri)
    requires u.pick == map[] && u.has <= {WRAPPER, INSIDE}
    requires forall s :: s in u.has ==> UserTri(u, s) == YES
    requires wrapper == member == TriBool(WRAPPER in u.has)
    requires inside == TriBool(WRAPPER in u.has && INSIDE in u.has)
    ensures WellFormed(LossyTable(), u) && Solution(LossyTable(), u, LossySol(wrapper, member, inside))
  {
    LossyOk(u);
    var table, sol := LossyTable(), LossySol(wrapper, member, inside);
    hide Equation; hide WellFormed;
    forall s | s in table.info ensures Equation(table, u, sol, s) {
      if s == WRAPPER {
        LossyWrapper(u, wrapper, member, inside);
      } else {
        LossyOther(u, wrapper, member, inside, s);
      }
    }
  }

  lemma LossyWrapper(u: User, wrapper: Tri, member: Tri, inside: Tri)
    requires WellFormed(LossyTable(), u) && u.pick == map[]
    requires WRAPPER in u.has ==> UserTri(u, WRAPPER) == YES
    requires wrapper == TriBool(WRAPPER in u.has)
    ensures WRAPPER in LossyTable().info && Equation(LossyTable(), u, LossySol(wrapper, member, inside), WRAPPER)
  {
    var sol := LossySol(wrapper, member, inside);
    LossyVisible(sol.tri);
    LossyPick(u, Overlay(sol.tri, WRAPPER, YES));
    hide Visible; hide DefaultTri; hide RevDep; hide Implied; hide ChooseMember; hide WellFormed;
  }

  lemma LossyOther(u: User, wrapper: Tri, member: Tri, inside: Tri, s: Symbol)
    requires WellFormed(LossyTable(), u)
    requires s == MEMBER || s == INSIDE
    requires u.has <= {WRAPPER, INSIDE} && (INSIDE in u.has ==> UserTri(u, INSIDE) == YES)
    requires wrapper == member == TriBool(WRAPPER in u.has)
    requires inside == TriBool(WRAPPER in u.has && INSIDE in u.has)
    ensures s in LossyTable().info && Equation(LossyTable(), u, LossySol(wrapper, member, inside), s)
  {
    LossyVisible(LossySol(wrapper, member, inside).tri);
    hide Visible; hide DefaultTri; hide RevDep; hide Implied; hide ChooseMember; hide WellFormed;
  }

  /** The member is visible and was never set, so the wrapper loses its mark. */
  lemma LossyMark(u: User, sol: Sol)
    requires u == User({WRAPPER}, map[WRAPPER := YES], map[]) && sol == LossySol(YES, YES, NO)
    ensures Remaining(LossyTable(), u, sol) == User({}, map[WRAPPER := YES], map[])
  {
    var table, over := LossyTable(), Overlay(sol.tri, WRAPPER, YES);
    LossyVisible(sol.tri);
    LossyVisible(over);
    hide Visible; hide RevDep; hide Implied; hide DefaultTri;
    assert MEMBER in table.info[WRAPPER].members && Visible(table, EnvOf(table, over), MEMBER) == YES && MEMBER !in u.has;
    assert !MarkKept(table, u, sol, WRAPPER);
  }

  /** Why honouring a setting needs that no choice lost its user mark.  The wrapper is y
      by the user, its member was never set, so evaluation drops the wrapper's mark; the
      accepted setting of the symbol inside then vanishes together with the wrapper. */
  lemma AcceptedSettingLost()
    ensures var table, u := LossyTable(), User({WRAPPER}, map[WRAPPER := YES], map[]);
            var marked := User({}, map[WRAPPER := YES], map[]);
            var before, after := LossySol(YES, YES, NO), LossySol(NO, NO, NO);
            var env := EnvOf(table, before.tri);
            && WellFormed(table, u) && Ranked(table, u, (s: Symbol) => LossyRank(s)) && Solution(table, u, before)
            && Remaining(table, u, before) == marked
            && WellFormed(table, Setting(marked, INSIDE, YES)) && Solution(table, Setting(marked, INSIDE, YES), after)
            && MEMBER in table.info && INSIDE in table.info
            && Visible(table, env, MEMBER) == YES && MEMBER !in u.has
            && WithinRange(table, INSIDE, Visible(table, env, INSIDE), RevDep(table, env, INSIDE), Implied(table, env, INSIDE), YES)
            && after.tri(INSIDE) == NO
  {
    var table := LossyTable();
    var u := User({WRAPPER}, map[WRAPPER := YES], map[]);
    var v := Setting(User({}, map[WRAPPER := YES], map[]), INSIDE, YES);
    LossyOk(u);
    LossySolves(u, YES, YES, NO);
    LossySolves(v, NO, NO, NO);
    LossyMark(u, LossySol(YES, YES, NO));
    LossyVisible(LossySol(YES, YES, NO).tri);
    hide Remaining; hide Visible; hide RevDep; hide Implied; hide Solution; hide WellFormed; hide Ranked;
  }

  // ----- a member that is accepted and not taken up -----

  const MODE := Symbol(13, "MODE", Tristate, false)
  const CHOSEN := Symbol(14, "CHOSEN", Boolean, false)

  /** A tristate choice and a bool member that is defined at two locations: only its
      first prompt demands that the choice is y. */
  function TwiceTable(): Table {
    Table(map[MODE := Info([PromptIf(None)], None, None, None, true, [CHOSEN], None),
              CHOSEN := Info([PromptIf(Some(And(Cmp(Eq, MODE, SYM_YES), Sym(MODE)))), PromptIf(Some(Sym(MODE)))],
                             None, None, None, false, [], Some(MODE))],
          (s: Symbol) => s.name, YES)
  }

  /** The choice at m, its member at n. */
  function TwiceSol(): Sol {
    Sol((s: Symbol) => if s == MODE then MOD else ConstTri(s), (s: Symbol) => None)
  }

  lemma TwiceOk(u: User)
    requires MODE in u.pick ==> u.pick[MODE] == CHOSEN
    ensures WellFormed(TwiceTable(), u)
  {
    var table := TwiceTable();
    forall s | s in table.info ensures Live(s) && EntryOk(table, u, s) {
    }
  }

  function TwiceRank(s: Symbol): nat { if s == MODE then 1 else 2 }

  lemma TwiceRanked(u: User)
    requires WellFormed(TwiceTable(), u)
    ensures Ranked(TwiceTable(), u, (s: Symbol) => TwiceRank(s))
  {
    hide WellFormed;
  }

  lemma TwiceVisible()
    ensures var table, env := TwiceTable(), EnvOf(TwiceTable(), TwiceSol().tri);
            && Visible(table, env, MODE) == YES && Visible(table, env, CHOSEN) == YES
            && RevDep(table, env, MODE) == Implied(table, env, MODE) == NO
            && RevDep(table, env, CHOSEN) == Implied(table, env, CHOSEN) == NO
  {
    var table, env := TwiceTable(), EnvOf(TwiceTable(), TwiceSol().tri);
    OnePrompt(table, env, MODE, None);
    hide CmpValue;
    var props := table.info[CHOSEN].props;
    assert props[1..][1..] == [];
    assert PromptMax(table, env, CHOSEN, props[1..]) == TriMax(MOD, PromptMax(table, env, CHOSEN, props[1..][1..]));
  }

  lemma TwiceSolves(u: User)
    requires MODE in u.has && UserTri(u, MODE) == MOD
    requires MODE in u.pick ==> u.pick[MODE] == CHOSEN
    ensures WellFormed(TwiceTable(), u) && Solution(TwiceTable(), u, TwiceSol())
  {
    TwiceOk(u);
    TwiceVisible();
    var table, sol := TwiceTable(), TwiceSol();
    hide Visible; hide RevDep; hide Implied; hide WellFormed; hide ChooseMember; hide DefaultTri;
    forall s | s in table.info ensures Equation(table, u, sol, s) {
    }
  }

  /** Why honouring a member needs that its choice is y.  The user set the choice to m;
      its bool member is visible through its second prompt, so setting it to y is
      accepted, but the choice stays m and the member n. */
  lemma MemberSettingLost()
    ensures var table, u := TwiceTable(), User({MODE}, map[MODE := MOD], map[]);
            var v, env := MemberSetting(u, MODE, CHOSEN, {CHOSEN}), EnvOf(table, TwiceSol().tri);
            && Linked(table, MODE, CHOSEN, {CHOSEN}) && v == WithSetting(table, u, {CHOSEN}, CHOSEN, YES)
            && WellFormed(table, u) && Ranked(table, u, (s: Symbol) => TwiceRank(s)) && Solution(table, u, TwiceSol())
            && WithinRange(table, CHOSEN, Visible(table, env, CHOSEN), RevDep(table, env, CHOSEN), Implied(table, env, CHOSEN), YES)
            && !TakesMember(table, v, TwiceSol(), CHOSEN)
            && WellFormed(table, v) && Solution(table, v, TwiceSol()) && TwiceSol().tri(CHOSEN) == NO
  {
    var u := User({MODE}, map[MODE := MOD], map[]);
    var v := MemberSetting(u, MODE, CHOSEN, {CHOSEN});
    TwiceSolves(u);
    TwiceSolves(v);
    TwiceRanked(u);
    TwiceVisible();
    assert Equation(TwiceTable(), v, TwiceSol(), MODE);
    hide Visible; hide RevDep; hide Implied; hide WellFormed; hide Solution; hide ChooseMember; hide DefaultTri; hide Ranked;
  }

  // ----- two members of a choice that are both y -----

  const HIDDEN := Symbol(15, "HIDDEN", Boolean, false)

  const HIDDEN_PROMPT := PromptIf(Some(And(Sym(WRAPPER), E_NO)))
  const DEFAULT_YES := Property(Default, false, None, Some(E_YES))

  /** A choice with a visible member, and one that is never visible but has a default. */
  function DefaultedTable(): Table {
    Table(map[WRAPPER := Info([PromptIf(None)], None, None, None, true, [MEMBER, HIDDEN], None),
              MEMBER := Info([PromptIf(Some(Sym(WRAPPER)))], None, None, None, false, [], Some(WRAPPER)),
              HIDDEN := Info([HIDDEN_PROMPT, DEFAULT_YES], None, None, None, false, [], Some(WRAPPER))],
          (s: Symbol) => s.name, YES)
  }

  function DefaultedSol(): Sol {
    Sol((s: Symbol) => if s == WRAPPER || s == MEMBER || s == HIDDEN then YES else ConstTri(s),
        (s: Symbol) => if s == WRAPPER then Some(MEMBER) else None)
  }

  lemma DefaultedOk(u: User)
    requires u.pick == map[]
    ensures WellFormed(DefaultedTable(), u) && ChoiceOk(DefaultedTable(), u, WRAPPER)
  {
    var table := DefaultedTable();
    forall s | s in table.info ensures Live(s) && EntryOk(table, u, s) {
    }
  }

  lemma DefaultedVisible(tri: Symbol -> Tri)
    requires tri(WRAPPER) == YES && forall s: Symbol :: !Live(s) ==> tri(s) == ConstTri(s)
    ensures var table, env := DefaultedTable(), EnvOf(DefaultedTable(), tri);
            && Visible(table, env, WRAPPER) == YES && Visible(table, env, MEMBER) == YES && Visible(table, env, HIDDEN) == NO
            && DefaultTri(env, table.info[HIDDEN].props) == YES
            && (forall s :: s in table.info ==> RevDep(table, env, s) == NO && Implied(table, env, s) == NO)
  {
    var table, env := DefaultedTable(), EnvOf(DefaultedTable(), tri);
    OnePrompt(table, env, WRAPPER, None);
    OnePrompt(table, env, MEMBER, Some(Sym(WRAPPER)));
    var props := table.info[HIDDEN].props;
    assert props[1..] == [DEFAULT_YES] && props[1..][1..] == [];
    assert tri(SYM_NO) == NO && tri(SYM_YES) == YES;
    assert Value(E_NO, env) == NO && Value(And(Sym(WRAPPER), E_NO), env) == NO;
    assert PromptMax(table, env, HIDDEN, props[1..]) == PromptMax(table, env, HIDDEN, props[1..][1..]);
    assert DefaultTri(env, props) == DefaultTri(env, props[1..]);
  }

  lemma DefaultedPick(u: User, tri: Symbol -> Tri)
    requires u.pick == map[] && ChoiceOk(DefaultedTable(), u, WRAPPER)
    requires tri(WRAPPER) == YES && forall s: Symbol :: !Live(s) ==> tri(s) == ConstTri(s)
    ensures ChooseMember(DefaultedTable(), u, EnvOf(DefaultedTable(), tri), WRAPPER) == Some(MEMBER)
  {
    DefaultedVisible(tri);
    var table, env := DefaultedTable(), EnvOf(DefaultedTable(), tri);
    hide Visible; hide ChoiceOk;
    var props := table.info[WRAPPER].props;
    assert props[1..] == [];
    assert VisibleDefault(table, env, props) == VisibleDefault(table, env, props[1..]) == None;
  }

  lemma DefaultedSolves(u: User)
    requires u == User({WRAPPER}, map[WRAPPER := YES], map[])
    ensures WellFormed(DefaultedTable(), u) && Solution(DefaultedTable(), u, DefaultedSol())
  {
    var table, sol := DefaultedTable(), DefaultedSol();
    DefaultedOk(u);
    DefaultedVisible(sol.tri);
    DefaultedPick(u, Overlay(sol.tri, WRAPPER, YES));
    hide Visible; hide RevDep; hide Implied; hide WellFormed; hide ChooseMember; hide DefaultTri; hide ChoiceOk;
    assert Equation(table, u, sol, WRAPPER);
    assert Equation(table, u, sol, MEMBER);
    assert Equation(table, u, sol, HIDDEN);
  }

  /** A choice that is y with two members that are y: the one it picked, and the one
      that is not visible but has a default. */
  lemma ChoiceNotExclusive()
    ensures var table, u, sol := DefaultedTable(), User({WRAPPER}, map[WRAPPER := YES], map[]), DefaultedSol();
            && WellFormed(table, u) && Solution(table, u, sol)
            && WRAPPER in table.info && table.info[WRAPPER].isChoice && sol.tri(WRAPPER) == YES
            && MEMBER in table.info[WRAPPER].members && HIDDEN in table.info[WRAPPER].members
            && sol.pick(WRAPPER) == Some(MEMBER) && sol.tri(MEMBER) == YES && sol.tri(HIDDEN) == YES
  {
    DefaultedSolves(User({WRAPPER}, map[WRAPPER := YES], map[]));
    hide WellFormed; hide Solution;
  }
}
