/** The solutions of the symbol equations, read off the properties of a symbol one by one. */
module SolutionFacts {
  import opened Wrappers
  import opened Exprs
  import opened SymTable
  import opened Solutions
  import opened Consequences

  // ----- defaults by index -----

  predicate Applies(env: Env, p: Property) { p.kind.Default? && OptValue(p.cond, env) != NO }

  /** i is the index of the first default that applies, or the number of properties. */
  predicate FirstDefault(env: Env, props: seq<Property>, i: nat) {
    && i <= |props| && (i < |props| ==> Applies(env, props[i]))
    && forall j :: 0 <= j < i ==> !Applies(env, props[j])
  }

  function DefaultAt(env: Env, props: seq<Property>, i: nat): Tri {
    if i < |props| then TriMin(OptValue(props[i].value, env), OptValue(props[i].cond, env)) else NO
  }

  lemma {:induction false} DefaultByIndex(env: Env, props: seq<Property>, i: nat)
    requires FirstDefault(env, props, i)
    ensures DefaultTri(env, props) == DefaultAt(env, props, i)
  {
    hide OptValue;
    if i > 0 {
      assert !Applies(env, props[0]);
      assert forall j :: 0 <= j < i - 1 ==> props[1..][j] == props[j + 1];
      DefaultByIndex(env, props[1..], i - 1);
    }
  }

  lemma {:induction false} DefaultExists(env: Env, props: seq<Property>) returns (i: nat)
    ensures FirstDefault(env, props, i)
  {
    if props == [] {
      i := 0;
    } else if Applies(env, props[0]) {
      i := 0;
    } else {
      var k := DefaultExists(env, props[1..]);
      i := k + 1;
      assert forall j :: 0 <= j < |props[1..]| ==> props[1..][j] == props[j + 1];
    }
  }

  // ----- the value of a symbol -----

  /** The symbol cannot be m. */
  predicate Crisp(table: Table, s: Symbol) { s.typ.Boolean? || table.modules == NO }

  function Raise(crisp: bool, t: Tri): Tri { if crisp && t == MOD then YES else t }

  /** The value of an expression that may be missing, with n for none. */
  function ValueOrNo(e: Option<Expr>, env: Env): Tri { if e.None? then NO else Value(e.value, env) }

  /** The value of every symbol but choices and members visible as y.  Where it is visible
      and the user set it, it is what the user wants as far as it is visible; elsewhere
      the first default that applies, cut by its condition, or what implies it, if its
      own dependency is not n.  What selects it is a lower bound, and m becomes y for a
      bool, without modules, and where y is implied.  The dependencies of a choice member
      count for nothing. */
  lemma ValueByParts(table: Table, u: User, sol: Sol, s: Symbol, i: nat)
    requires WellFormed(table, u) && Solution(table, u, sol) && s in table.info && !table.info[s].isChoice
    requires table.info[s].choice.Some? ==> Visible(table, EnvOf(table, sol.tri), s) != YES
    requires FirstDefault(EnvOf(table, sol.tri), table.info[s].props, i)
    ensures var env, info, crisp := EnvOf(table, sol.tri), table.info[s], Crisp(table, s);
            var visible := Visible(table, env, s);
            var member := info.choice.Some?;
            var selects := if member then NO else Raise(crisp, ValueOrNo(info.revDep, env));
            var implies := if member || OptValue(info.dirDep, env) == NO then NO else Raise(crisp, ValueOrNo(info.implied, env));
            var own := if visible != NO && s in u.has then TriMin(UserTri(u, s), visible)
                       else TriMax(DefaultAt(env, info.props, i), implies);
            sol.tri(s) == Raise(crisp || implies == YES, TriMax(own, selects))
  {
    DefaultByIndex(EnvOf(table, sol.tri), table.info[s].props, i);
    hide PromptMax; hide Visible; hide DefaultTri; hide DefaultAt; hide OptValue; hide Value; hide FirstDefault;
    assert Equation(table, u, sol, s);
    ActsCrisp(table, s);
  }

  lemma ActsCrisp(table: Table, s: Symbol)
    requires s in table.info
    ensures ActsBool(table, s, NO) == Crisp(table, s)
    ensures forall t: Tri :: table.info[s].choice.None? || t != YES ==> ActsBool(table, s, t) == Crisp(table, s)
  {
  }

  /** A symbol that the user did not set (or that is not visible), and that nothing selects
      or implies, has the value of the first default that applies, cut by its condition,
      and n without one. */
  lemma ValueByDefault(table: Table, u: User, sol: Sol, s: Symbol, i: nat)
    requires WellFormed(table, u) && Solution(table, u, sol) && s in table.info && !table.info[s].isChoice
    requires table.info[s].choice.Some? ==> Visible(table, EnvOf(table, sol.tri), s) != YES
    requires Visible(table, EnvOf(table, sol.tri), s) == NO || s !in u.has
    requires table.info[s].choice.Some? || ValueOrNo(table.info[s].revDep, EnvOf(table, sol.tri)) == NO
    requires table.info[s].choice.Some? || ValueOrNo(table.info[s].implied, EnvOf(table, sol.tri)) == NO
             || OptValue(table.info[s].dirDep, EnvOf(table, sol.tri)) == NO
    requires FirstDefault(EnvOf(table, sol.tri), table.info[s].props, i)
    ensures var env, props := EnvOf(table, sol.tri), table.info[s].props;
            sol.tri(s) == if i < |props|
                          then Raise(Crisp(table, s), TriMin(OptValue(props[i].value, env), OptValue(props[i].cond, env)))
                          else NO
  {
    ValueByParts(table, u, sol, s, i);
    hide Visible; hide OptValue; hide Value; hide Solution; hide WellFormed; hide FirstDefault;
  }

  /** Nothing is below what selects it. */
  lemma SelectsBound(table: Table, u: User, sol: Sol, s: Symbol)
    requires WellFormed(table, u) && Solution(table, u, sol) && s in table.info
    requires !table.info[s].isChoice && table.info[s].choice.None?
    ensures sol.tri(s) >= ValueOrNo(table.info[s].revDep, EnvOf(table, sol.tri))
  {
    var i := DefaultExists(EnvOf(table, sol.tri), table.info[s].props);
    ValueByParts(table, u, sol, s, i);
    hide Visible; hide OptValue; hide Value; hide Solution; hide WellFormed; hide FirstDefault; hide DefaultAt;
  }

  // ----- the value and the member of a choice -----

  /** A choice has what the user wants as far as it is visible, at least what selects it,
      and is y only with a member. */
  lemma ChoiceValue(table: Table, u: User, sol: Sol, c: Symbol)
    requires WellFormed(table, u) && Solution(table, u, sol) && c in table.info && table.info[c].isChoice
    ensures var env, info, crisp := EnvOf(table, sol.tri), table.info[c], Crisp(table, c);
            var visible := Visible(table, env, c);
            var selects := Raise(crisp, ValueOrNo(info.revDep, env));
            var implies := if OptValue(info.dirDep, env) == NO then NO else Raise(crisp, ValueOrNo(info.implied, env));
            var own := if visible != NO && c in u.has then TriMin(UserTri(u, c), visible) else NO;
            var t := Raise(crisp || implies == YES, TriMax(own, selects));
            && (t != YES ==> sol.tri(c) == t && sol.pick(c) == None)
            && (t == YES ==> sol.tri(c) == TriBool(sol.pick(c).Some?))
  {
    hide PromptMax; hide Visible; hide DefaultTri; hide OptValue; hide Value; hide ChooseMember;
    assert Equation(table, u, sol, c) && EntryOk(table, u, c) && ChoiceOk(table, u, c);
    ActsCrisp(table, c);
  }

  /** A default of a choice that applies and names a visible member. */
  predicate Offers(table: Table, env: Env, p: Property) {
    Applies(env, p) && NamesSymbol(p) && Named(p) in table.info && Visible(table, env, Named(p)) != NO
  }

  lemma {:induction false} DefaultOffered(table: Table, env: Env, props: seq<Property>, i: nat)
    requires forall p :: p in props ==> DefaultIn(p, table.info.Keys)
    requires i <= |props| && (i < |props| ==> Offers(table, env, props[i]))
    requires forall j :: 0 <= j < i ==> !Offers(table, env, props[j])
    ensures VisibleDefault(table, env, props) == if i < |props| then Some(Named(props[i])) else None
  {
    hide Visible; hide OptValue;
    if props != [] {
      assert props[0] in props && DefaultIn(props[0], table.info.Keys);
      if i > 0 {
        assert !Offers(table, env, props[0]);
        assert forall j :: 0 <= j < |props[1..]| ==> props[1..][j] == props[j + 1];
        DefaultOffered(table, env, props[1..], i - 1);
      }
    }
  }

  lemma {:induction false} MemberOffered(table: Table, env: Env, members: seq<Symbol>, i: nat)
    requires forall m :: m in members ==> m in table.info
    requires i <= |members| && (i < |members| ==> members[i] in members && Visible(table, env, members[i]) != NO)
    requires forall j :: 0 <= j < i ==> members[j] in members && Visible(table, env, members[j]) == NO
    ensures FirstVisible(table, env, members) == if i < |members| then Some(members[i]) else None
  {
    hide Visible;
    if i > 0 {
      assert members[0] in members && Visible(table, env, members[0]) == NO;
      assert forall j :: 0 <= j < |members[1..]| ==> members[1..][j] == members[j + 1];
      MemberOffered(table, env, members[1..], i - 1);
    }
  }

  /** The member of a choice that is y, by indices: the one the user picked if it is
      visible; else that of the first default that applies and names a visible member;
      else the first visible member. */
  lemma PickByIndex(table: Table, u: User, sol: Sol, c: Symbol, i: nat, j: nat)
    requires WellFormed(table, u) && Solution(table, u, sol)
    requires c in table.info && table.info[c].isChoice && sol.tri(c) == YES
    requires var env, props := EnvOf(table, sol.tri), table.info[c].props;
             && i <= |props| && (i < |props| ==> Offers(table, env, props[i]))
             && forall k :: 0 <= k < i ==> !Offers(table, env, props[k])
    requires forall m :: m in table.info[c].members ==> m in table.info
    requires var env, members := EnvOf(table, sol.tri), table.info[c].members;
             && j <= |members| && (j < |members| ==> members[j] in members && Visible(table, env, members[j]) != NO)
             && forall k :: 0 <= k < j ==> members[k] in members && Visible(table, env, members[k]) == NO
    ensures c in u.pick ==> u.pick[c] in table.info
    ensures var env, props, members := EnvOf(table, sol.tri), table.info[c].props, table.info[c].members;
            sol.pick(c) == if c in u.pick && Visible(table, env, u.pick[c]) != NO then Some(u.pick[c])
                           else if i < |props| then Some(Named(props[i]))
                           else if j < |members| then Some(members[j])
                           else None
  {
    var env := EnvOf(table, sol.tri);
    assert EntryOk(table, u, c) && ChoiceOk(table, u, c) && Equation(table, u, sol, c);
    hide NewTri; hide Visible; hide Offers; hide WellFormed; hide Solution;
    var over := Overlay(sol.tri, c, YES);
    ChooseSame(table, u, over, sol.tri, c);
    DefaultOffered(table, env, table.info[c].props, i);
    MemberOffered(table, env, table.info[c].members, j);
  }

  lemma ChooseSame(table: Table, u: User, a: Symbol -> Tri, b: Symbol -> Tri, c: Symbol)
    requires ChoiceOk(table, u, c) && forall t: Symbol :: a(t) == b(t)
    ensures ChooseMember(table, u, EnvOf(table, a), c) == ChooseMember(table, u, EnvOf(table, b), c)
  {
    hide Visible;
    forall m: Symbol | m in table.info ensures Visible(table, EnvOf(table, a), m) == Visible(table, EnvOf(table, b), m) {
      VisibleSame(table, a, b, m);
    }
    VisibleDefaultAgrees(table, a, b, table.info[c].props);
    FirstVisibleAgrees(table, a, b, table.info[c].members);
  }

  /** Without a visible member there is none to pick, so a choice that is y has one. */
  lemma PickExists(table: Table, u: User, sol: Sol, c: Symbol)
    requires WellFormed(table, u) && Solution(table, u, sol) && c in table.info && table.info[c].isChoice
    ensures sol.pick(c).Some? <==> sol.tri(c) == YES
  {
    ChoiceValue(table, u, sol, c);
    hide Visible; hide OptValue; hide Value; hide Solution; hide WellFormed;
  }

  /** A member that is fully visible follows the pick of its choice. */
  lemma MemberFollows(table: Table, u: User, sol: Sol, s: Symbol)
    requires WellFormed(table, u) && Solution(table, u, sol) && s in table.info && table.info[s].choice.Some?
    requires Visible(table, EnvOf(table, sol.tri), s) == YES
    ensures sol.tri(s) == TriBool(sol.pick(table.info[s].choice.value) == Some(s))
  {
    hide Visible; hide ChooseMember; hide DefaultTri;
    assert Equation(table, u, sol, s) && EntryOk(table, u, s);
    assert EntryOk(table, u, table.info[s].choice.value);
  }

  // ----- the user mark of a choice -----

  /** A choice that is y keeps its mark exactly if each of its visible members has one. */
  lemma MarkByMembers(table: Table, u: User, sol: Sol, c: Symbol)
    requires WellFormed(table, u) && Solution(table, u, sol)
    requires c in table.info && table.info[c].isChoice && sol.tri(c) == YES
    ensures MarkKept(table, u, sol, c)
            <==> c in u.has && forall m :: (m in table.info[c].members && m in table.info
                                            && Visible(table, EnvOf(table, sol.tri), m) != NO) ==> m in u.has
  {
    var over := Overlay(sol.tri, c, YES);
    assert Equation(table, u, sol, c);
    hide NewTri; hide Visible; hide ChooseMember; hide WellFormed; hide Solution;
    forall m: Symbol | m in table.info
      ensures Visible(table, EnvOf(table, over), m) == Visible(table, EnvOf(table, sol.tri), m)
    {
      VisibleSame(table, over, sol.tri, m);
    }
  }

  /** Setting a visible member of a choice that is y to y, with marks for all its visible
      members, leaves nothing to drop: the choice keeps its mark. */
  lemma MemberSettingKeepsMark(table: Table, u: User, rank: Symbol -> nat, before: Sol, after: Sol, c: Symbol, s: Symbol,
                               marks: set<Symbol>)
    requires WellFormed(table, u) && Ranked(table, u, rank) && Linked(table, c, s, marks)
    requires WellFormed(table, MemberSetting(u, c, s, marks))
    requires Solution(table, u, before) && Solution(table, MemberSetting(u, c, s, marks), after)
    requires before.tri(c) == YES && Visible(table, EnvOf(table, before.tri), s) != NO
    requires forall m :: m in table.info[c].members && m in table.info && Visible(table, EnvOf(table, before.tri), m) != NO ==>
               m in marks
    ensures after.tri(c) == YES && MarkKept(table, MemberSetting(u, c, s, marks), after, c)
  {
    hide Visible; hide Solution; hide WellFormed; hide Ranked; hide MarkKept; hide TakesMember; hide OwnDefault;
    var v := MemberSetting(u, c, s, marks);
    MemberOutcome(table, u, rank, before, after, c, s, marks);
    TakenWhileYes(table, u, before, c, s, marks);
    PickExists(table, v, after, c);
    SameBelowMember(table, rank, u, c, s, marks);
    SettingIsLocal(table, u, v, rank, before, after, rank(c));
    forall m | m in table.info[c].members && m in table.info
      ensures Visible(table, EnvOf(table, before.tri), m) == Visible(table, EnvOf(table, after.tri), m)
    {
      MemberVisibleAgrees(table, u, rank, before.tri, after.tri, c, m);
    }
    MarkByMembers(table, v, after, c);
  }

  lemma MemberVisibleAgrees(table: Table, u: User, rank: Symbol -> nat, a: Symbol -> Tri, b: Symbol -> Tri, c: Symbol, m: Symbol)
    requires WellFormed(table, u) && Ranked(table, u, rank) && c in table.info && table.info[c].isChoice
    requires m in table.info[c].members && m in table.info
    requires AgreeBelow(table, rank, a, b, rank(c)) && a(c) == b(c)
    ensures Visible(table, EnvOf(table, a), m) == Visible(table, EnvOf(table, b), m)
  {
    hide Visible;
    assert EntryOk(table, u, c) && ChoiceOk(table, u, c) && RankedAt(table, u, rank, m);
    VisibleAgrees(table, u, rank, a, b, m);
  }
}
