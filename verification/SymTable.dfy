/** The symbol table and, for each symbol, the equation that its value satisfies. */
module SymTable {
  import opened Wrappers
  import opened Exprs

  datatype PropKind =
    Prompt | MenuPrompt | Comment | Default | ChoiceLink | Select | Imply | Range | EnvLink | Definition

  /** hasText marks prompts; cond is the visibility condition, value the property's own
      expression (for a default, what it defaults to). */
  datatype Property = Property(kind: PropKind, hasText: bool, cond: Option<Expr>, value: Option<Expr>)

  /** A choice lists its members; a member names its choice. */
  datatype Info = Info(
    props: seq<Property>,
    dirDep: Option<Expr>,
    revDep: Option<Expr>,
    implied: Option<Expr>,
    isChoice: bool,
    members: seq<Symbol>,
    choice: Option<Symbol>)

  /** str gives the strings of symbols that are neither bool nor tristate, modules the
      fixed value of the modules symbol. */
  datatype Table = Table(info: map<Symbol, Info>, str: Symbol -> string, modules: Tri)

  /** The values set by the user: the symbols that have one, the tristate values, and
      the member picked for a choice. */
  datatype User = User(has: set<Symbol>, tri: map<Symbol, Tri>, pick: map<Symbol, Symbol>)

  /** The symbols whose tristate value is computed. */
  predicate Live(s: Symbol) { s.typ.Boolean? || s.typ.Tristate? }

  function ConstTri(s: Symbol): Tri {
    if s == SYM_YES then YES else if s == SYM_MOD then MOD else NO
  }

  function EnvOf(table: Table, tri: Symbol -> Tri): Env { Env(tri, table.str, table.modules) }

  function Get(m: map<Symbol, Tri>, s: Symbol): Tri { if s in m then m[s] else NO }

  // ----- the type a symbol is treated as -----

  predicate ActsBool(table: Table, s: Symbol, visible: Tri)
    requires s in table.info
  {
    s.typ.Boolean? || (table.info[s].choice.Some? && visible == YES) || table.modules == NO
  }

  function RoundFor(table: Table, s: Symbol, visible: Tri, t: Tri): Tri
    requires s in table.info
  {
    if t == MOD && ActsBool(table, s, visible) then YES else t
  }

  // ----- visibility -----

  /** A tristate member whose prompt is m is not visible while its choice is y. */
  function PromptValue(table: Table, env: Env, s: Symbol, cond: Option<Expr>): Tri
    requires s in table.info
  {
    var v := OptValue(cond, env);
    var choice := table.info[s].choice;
    if choice.Some? && s.typ.Tristate? && v == MOD && env.tri(choice.value) == YES then NO else v
  }

  function PromptMax(table: Table, env: Env, s: Symbol, props: seq<Property>): Tri
    requires s in table.info
  {
    if props == [] then NO
    else if props[0].hasText then
      TriMax(PromptValue(table, env, s, props[0].cond), PromptMax(table, env, s, props[1..]))
    else PromptMax(table, env, s, props[1..])
  }

  function Visible(table: Table, env: Env, s: Symbol): Tri
    requires s in table.info
  {
    var t := PromptMax(table, env, s, table.info[s].props);
    if t == MOD && (!s.typ.Tristate? || table.modules == NO) then YES else t
  }

  // ----- dependencies; a choice member's are never computed and stay n -----

  function DirDep(table: Table, env: Env, s: Symbol): Tri
    requires s in table.info
  {
    if table.info[s].choice.Some? then NO
    else RoundFor(table, s, NO, OptValue(table.info[s].dirDep, env))
  }

  function RevDep(table: Table, env: Env, s: Symbol): Tri
    requires s in table.info
  {
    if table.info[s].choice.Some? || table.info[s].revDep.None? then NO
    else RoundFor(table, s, NO, Value(table.info[s].revDep.value, env))
  }

  function Implied(table: Table, env: Env, s: Symbol): Tri
    requires s in table.info
  {
    if table.info[s].choice.Some? || table.info[s].implied.None? || DirDep(table, env, s) == NO then NO
    else RoundFor(table, s, NO, Value(table.info[s].implied.value, env))
  }

  // ----- defaults -----

  /** The first default whose condition is not n. */
  function DefaultTri(env: Env, props: seq<Property>): Tri {
    if props == [] then NO
    else if props[0].kind.Default? && OptValue(props[0].cond, env) != NO then
      TriMin(OptValue(props[0].value, env), OptValue(props[0].cond, env))
    else DefaultTri(env, props[1..])
  }

  // ----- the value of a symbol -----

  function UserTri(u: User, s: Symbol): Tri { Get(u.tri, s) }

  function Wanted(table: Table, u: User, env: Env, s: Symbol): Tri
    requires s in table.info
  {
    var visible := Visible(table, env, s);
    if visible != NO && s in u.has then TriMin(UserTri(u, s), visible)
    else if table.info[s].isChoice then NO
    else TriMax(DefaultTri(env, table.info[s].props), Implied(table, env, s))
  }

  /** The new value of a symbol, before a choice looks for its member. */
  function NewTri(table: Table, u: User, env: Env, pick: Symbol -> Option<Symbol>, s: Symbol): Tri
    requires s in table.info
  {
    var visible := Visible(table, env, s);
    var choice := table.info[s].choice;
    var t := if choice.Some? && visible == YES then TriBool(pick(choice.value) == Some(s))
             else TriMax(Wanted(table, u, env, s), RevDep(table, env, s));
    if t == MOD && (ActsBool(table, s, visible) || Implied(table, env, s) == YES) then YES else t
  }

  // ----- choices -----

  function FirstVisible(table: Table, env: Env, members: seq<Symbol>): Option<Symbol>
    requires forall m :: m in members ==> m in table.info
  {
    if members == [] then None
    else if Visible(table, env, members[0]) != NO then Some(members[0])
    else FirstVisible(table, env, members[1..])
  }

  /** The first default of a choice that applies and names a visible member. */
  function VisibleDefault(table: Table, env: Env, props: seq<Property>): Option<Symbol>
    requires forall p :: p in props ==> DefaultIn(p, table.info.Keys)
  {
    if props == [] then None
    else
      assert DefaultIn(props[0], table.info.Keys);
      if props[0].kind.Default? && OptValue(props[0].cond, env) != NO && Visible(table, env, Named(props[0])) != NO
      then Some(Named(props[0]))
      else VisibleDefault(table, env, props[1..])
  }

  predicate NamesSymbol(p: Property) { p.value.Some? && p.value.value.Sym? }

  function Named(p: Property): Symbol
    requires NamesSymbol(p)
  {
    p.value.value.s
  }

  /** A default names one of the given symbols. */
  predicate DefaultIn(p: Property, symbols: set<Symbol>) {
    p.kind.Default? ==> NamesSymbol(p) && Named(p) in symbols
  }

  function ChooseMember(table: Table, u: User, env: Env, c: Symbol): Option<Symbol>
    requires ChoiceOk(table, u, c)
  {
    if c in u.pick && Visible(table, env, u.pick[c]) != NO then Some(u.pick[c])
    else
      var d := VisibleDefault(table, env, table.info[c].props);
      if d.Some? then d else FirstVisible(table, env, table.info[c].members)
  }

  /** A choice is not itself a member, its members point back to it, and its defaults
      and the user's pick name members. */
  predicate ChoiceOk(table: Table, u: User, c: Symbol) {
    && c in table.info && table.info[c].isChoice && table.info[c].choice.None?
    && (forall m :: m in table.info[c].members ==>
          m in table.info && table.info[m].choice == Some(c) && !table.info[m].isChoice)
    && (forall p :: p in table.info[c].props ==>
          DefaultIn(p, set m | m in table.info[c].members) && DefaultIn(p, table.info.Keys))
    && (c in u.pick ==> u.pick[c] in table.info[c].members)
  }

  // ----- solutions -----

  /** A candidate valuation: tristate values, and the member of each choice. */
  datatype Sol = Sol(tri: Symbol -> Tri, pick: Symbol -> Option<Symbol>)

  function Overlay(tri: Symbol -> Tri, c: Symbol, t: Tri): Symbol -> Tri {
    (s: Symbol) => OverlayAt(tri, c, t, s)
  }

  function OverlayAt(tri: Symbol -> Tri, c: Symbol, t: Tri, s: Symbol): Tri { if s == c then t else tri(s) }

  ghost predicate Equation(table: Table, u: User, sol: Sol, s: Symbol)
    requires WellFormed(table, u) && s in table.info
  {
    var env := EnvOf(table, sol.tri);
    var t := NewTri(table, u, env, sol.pick, s);
    if table.info[s].isChoice && t == YES then
      && sol.pick(s) == ChooseMember(table, u, EnvOf(table, Overlay(sol.tri, s, YES)), s)
      && sol.tri(s) == TriBool(sol.pick(s).Some?)
    else
      sol.tri(s) == t && sol.pick(s) == None
  }

  /** Every computed symbol satisfies its equation, every other one has its constant. */
  ghost predicate Solution(table: Table, u: User, sol: Sol)
    requires WellFormed(table, u)
  {
    && (forall s :: s in table.info ==> Equation(table, u, sol, s))
    && (forall s: Symbol :: s !in table.info ==> sol.tri(s) == ConstTri(s))
  }

  // ----- the user marks that evaluation leaves -----

  /** Every visible member has a user value. */
  ghost predicate VisibleSet(table: Table, u: User, env: Env, members: seq<Symbol>) {
    forall m :: m in members && m in table.info && Visible(table, env, m) != NO ==> m in u.has
  }

  /** A choice that calculates to y keeps its user mark only if every visible member
      has a user value. */
  ghost predicate MarkKept(table: Table, u: User, sol: Sol, c: Symbol)
    requires c in table.info
  {
    && c in u.has
    && (NewTri(table, u, EnvOf(table, sol.tri), sol.pick, c) == YES ==>
          VisibleSet(table, u, EnvOf(table, Overlay(sol.tri, c, YES)), table.info[c].members))
  }

  /** The settings as evaluating every choice leaves them. */
  ghost function Remaining(table: Table, u: User, sol: Sol): User {
    var has := set s | s in u.has && (s in table.info && table.info[s].isChoice ==> MarkKept(table, u, sol, s));
    User(has, u.tri, u.pick)
  }

  // ----- well-formed tables and acyclic reading -----

  /** A member's prompt reads the choice, unless simplification left n. */
  predicate Conditioned(e: Expr, c: Symbol) { c in Syms(e) || e == E_NO }

  /** Only bools and tristates are in the table; choices are linked consistently; a
      member's prompts are conditioned on its choice; untyped symbols have their name
      as string. */
  ghost predicate WellFormed(table: Table, u: User) {
    && (forall s :: s in table.info ==> Live(s) && EntryOk(table, u, s))
    && (forall s: Symbol :: s.typ.Unknown? ==> table.str(s) == s.name)
  }

  ghost predicate EntryOk(table: Table, u: User, s: Symbol)
    requires s in table.info
  {
    && (table.info[s].isChoice ==> ChoiceOk(table, u, s))
    && (!table.info[s].isChoice ==> table.info[s].members == [])
    && (table.info[s].choice.Some? ==>
          && table.info[s].choice.value in table.info
          && table.info[table.info[s].choice.value].isChoice
          && s in table.info[table.info[s].choice.value].members
          && (forall p :: p in table.info[s].props && p.hasText ==>
                p.cond.Some? && Conditioned(p.cond.value, table.info[s].choice.value)))
  }

  function OptSyms(e: Option<Expr>): set<Symbol> { if e.None? then {} else Syms(e.value) }

  /** The computed symbols of e are all in the table and rank below n. */
  ghost predicate Below(table: Table, rank: Symbol -> nat, e: Option<Expr>, n: nat, except: Option<Symbol>) {
    forall t :: t in OptSyms(e) && Live(t) && Some(t) != except ==> t in table.info && rank(t) < n
  }

  /** rank orders the table: what the evaluator reads for a symbol ranks below it.
      A choice also reads its members' prompts, a member ranks above its choice. */
  ghost predicate Ranked(table: Table, u: User, rank: Symbol -> nat)
    requires WellFormed(table, u)
  {
    forall s :: s in table.info ==> RankedAt(table, u, rank, s)
  }

  ghost predicate RankedAt(table: Table, u: User, rank: Symbol -> nat, s: Symbol)
    requires WellFormed(table, u) && s in table.info
  {
    var i := table.info[s];
    if i.choice.Some? then
      var c := i.choice.value;
      && rank(c) < rank(s)
      && (forall p :: p in i.props && p.hasText ==> Below(table, rank, p.cond, rank(c), Some(c)))
      && (forall p :: p in i.props && p.kind.Default? ==> Below(table, rank, p.cond, rank(s), None) && Below(table, rank, p.value, rank(s), None))
    else
      && (forall p :: p in i.props && p.hasText ==> Below(table, rank, p.cond, rank(s), None))
      && (forall p :: p in i.props && p.kind.Default? ==> Below(table, rank, p.cond, rank(s), None))
      && (forall p :: p in i.props && p.kind.Default? && !i.isChoice ==> Below(table, rank, p.value, rank(s), None))
      && Below(table, rank, i.dirDep, rank(s), None)
      && Below(table, rank, i.revDep, rank(s), None)
      && Below(table, rank, i.implied, rank(s), None)
  }
}
