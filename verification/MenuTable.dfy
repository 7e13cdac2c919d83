/** The symbol table that a finalised menu tree makes: what its prompts come to in the
    evaluator, by what was written. */
module MenuTable {
  import opened Wrappers
  import opened Exprs
  import opened Pipeline
  import opened MenuTree
  import opened MenuMeaning
  import opened SymTable
  import opened Consequences

  /** The condition a prompt ends up with.  Demanding are the nodes at which a symbol that
      is no tristate became a member of a tristate choice: there the choice has to be y
      as well. */
  function FinalCond(i: Item, choice: Option<Symbol>, demanding: set<Menu>): Option<Expr> {
    if choice.Some? && i.node in demanding then OptAnd(Some(Cmp(Eq, choice.value, SYM_YES)), i.attr.vis) else i.attr.vis
  }

  predicate PromptOf(n: Menu, s: Symbol) { n.sym == Some(s) && n.hasPrompt }

  predicate IsPrompt(p: Property, cond: Option<Expr>) { p.hasText && p.cond == cond }

  predicate HasItem(items: seq<Item>, s: Symbol, choice: Option<Symbol>, demanding: set<Menu>, p: Property) {
    exists k :: 0 <= k < |items| && PromptOf(items[k].node, s) && IsPrompt(p, FinalCond(items[k], choice, demanding))
  }

  predicate HasProperty(props: seq<Property>, cond: Option<Expr>) {
    exists p :: p in props && IsPrompt(p, cond)
  }

  /** The prompts of s in the table are those of the finalised nodes, in any order. */
  ghost predicate Tabled(table: Table, s: Symbol, items: seq<Item>, demanding: set<Menu>)
    requires s in table.info
  {
    var i := table.info[s];
    && (forall p :: p in i.props && p.hasText ==> HasItem(items, s, i.choice, demanding, p))
    && (forall k :: 0 <= k < |items| && PromptOf(items[k].node, s) ==>
          HasProperty(i.props, FinalCond(items[k], i.choice, demanding)))
    && (s.typ == Tristate ==> demanding == {})
    && (i.choice.Some? ==> Live(i.choice.value))
  }

  // ----- what was written, as a prompt of a member sees it -----

  /** The value of a prompt whose condition was written with value t. */
  function Shown(s: Symbol, choice: Option<Symbol>, n: Menu, demanding: set<Menu>, t: Tri, env: Env): Tri {
    if choice.None? then t
    else if n in demanding then (if env.tri(choice.value) == YES then t else NO)
    else if s.typ == Tristate && t == MOD && env.tri(choice.value) == YES then NO
    else t
  }

  /** The largest of the prompts of s, by what was written. */
  function LargestShown(ms: seq<Meaning>, s: Symbol, choice: Option<Symbol>, demanding: set<Menu>, env: Env): Tri {
    if ms == [] then NO
    else TriMax(if PromptOf(ms[0].node, s) then Shown(s, choice, ms[0].node, demanding, ms[0].vis, env) else NO,
                LargestShown(ms[1..], s, choice, demanding, env))
  }

  /** The rounding of a visibility. */
  function Rounded(table: Table, s: Symbol, t: Tri): Tri {
    if t == MOD && (s.typ != Tristate || table.modules == NO) then YES else t
  }

  /** The value of a finalised prompt is the value of what was written, up to rounding. */
  lemma PromptShown(table: Table, s: Symbol, i: Item, m: Meaning, demanding: set<Menu>, env: Env)
    requires s in table.info && Produced(env) && Means(i, m, env) && PromptOf(i.node, s)
    requires s.typ == Tristate ==> demanding == {}
    requires table.info[s].choice.Some? ==> Live(table.info[s].choice.value)
    ensures var c := table.info[s].choice;
            var v := PromptValue(table, env, s, FinalCond(i, c, demanding));
            Rounded(table, s, v) == Rounded(table, s, Shown(s, c, i.node, demanding, m.vis, env))
  {
    hide CmpValue;
    var c := table.info[s].choice;
    if c.Some? {
      EqualityWithTri(env, c.value, YES);
      var demand := Cmp(Eq, c.value, SYM_YES);
      assert Value(demand, env) == TriBool(env.tri(c.value) == YES);
      if i.attr.vis.Some? {
        assert Value(And(demand, i.attr.vis.value), env) == TriMin(Value(demand, env), Value(i.attr.vis.value, env));
      }
    }
  }

  // ----- two maxima over the same prompts -----

  lemma {:induction false} PromptMaxIs(table: Table, env: Env, s: Symbol, props: seq<Property>)
    requires s in table.info
    ensures forall p :: p in props && p.hasText ==> PromptValue(table, env, s, p.cond) <= PromptMax(table, env, s, props)
    ensures PromptMax(table, env, s, props) != NO ==>
              exists p :: p in props && p.hasText && PromptValue(table, env, s, p.cond) == PromptMax(table, env, s, props)
  {
    hide PromptValue;
    if props != [] {
      PromptMaxIs(table, env, s, props[1..]);
      assert props[0] in props && forall p :: p in props[1..] ==> p in props;
    }
  }

  lemma {:induction false} LargestIs(ms: seq<Meaning>, s: Symbol, choice: Option<Symbol>, demanding: set<Menu>, env: Env)
    ensures var t := LargestShown(ms, s, choice, demanding, env);
            && (forall k :: 0 <= k < |ms| && PromptOf(ms[k].node, s) ==> Shown(s, choice, ms[k].node, demanding, ms[k].vis, env) <= t)
            && (t != NO ==> exists k :: 0 <= k < |ms| && PromptOf(ms[k].node, s)
                                        && Shown(s, choice, ms[k].node, demanding, ms[k].vis, env) == t)
  {
    hide Shown;
    if ms != [] {
      LargestIs(ms[1..], s, choice, demanding, env);
      assert forall k :: 0 <= k < |ms[1..]| ==> ms[1..][k] == ms[k + 1];
    }
  }

  lemma RoundedUp(table: Table, s: Symbol, a: Tri, b: Tri)
    requires a <= b
    ensures Rounded(table, s, a) <= Rounded(table, s, b)
  {
  }

  /** The visibility of s in the table is the largest of its prompts as written. */
  lemma VisibleIsShown(table: Table, s: Symbol, items: seq<Item>, ms: seq<Meaning>, demanding: set<Menu>, env: Env)
    requires s in table.info && Produced(env) && AllMean(items, ms, env) && Tabled(table, s, items, demanding)
    ensures Visible(table, env, s) == Rounded(table, s, LargestShown(ms, s, table.info[s].choice, demanding, env))
  {
    hide Produced; hide PromptValue; hide Shown; hide FinalCond; hide Means;
    var props, c := table.info[s].props, table.info[s].choice;
    var t, w := PromptMax(table, env, s, props), LargestShown(ms, s, c, demanding, env);
    PromptMaxIs(table, env, s, props);
    LargestIs(ms, s, c, demanding, env);
    if t != NO {
      var p :| p in props && p.hasText && PromptValue(table, env, s, p.cond) == t;
      assert HasItem(items, s, c, demanding, p);
      var k :| 0 <= k < |items| && PromptOf(items[k].node, s) && IsPrompt(p, FinalCond(items[k], c, demanding));
      MeansNode(items, ms, k, env);
      PromptShown(table, s, items[k], ms[k], demanding, env);
      RoundedUp(table, s, Shown(s, c, ms[k].node, demanding, ms[k].vis, env), w);
    }
    if w != NO {
      var k :| 0 <= k < |ms| && PromptOf(ms[k].node, s) && Shown(s, c, ms[k].node, demanding, ms[k].vis, env) == w;
      MeansNode(items, ms, k, env);
      assert HasProperty(props, FinalCond(items[k], c, demanding));
      var p :| p in props && IsPrompt(p, FinalCond(items[k], c, demanding));
      PromptShown(table, s, items[k], ms[k], demanding, env);
      RoundedUp(table, s, PromptValue(table, env, s, p.cond), t);
    }
  }

  lemma MeansNode(items: seq<Item>, ms: seq<Meaning>, k: nat, env: Env)
    requires AllMean(items, ms, env) && k < |items|
    ensures k < |ms| && Means(items[k], ms[k], env) && items[k].node == ms[k].node
  {
  }

  /** From the text to the evaluator: in every solution of the table that the finalised
      menu makes, the visibility of a symbol is the largest of what was written for its
      prompts and for all that encloses them, valued by that solution. */
  lemma SolutionVisibleAsWritten(table: Table, u: User, sol: Sol, root: Menu, a: Attr, kids: Forest, modules: Symbol,
                                 s: Symbol, demanding: set<Menu>)
    requires WellFormed(table, u) && Solution(table, u, sol) && s in table.info
    requires Tabled(table, s, Items(Fin(root, a, kids, Nil, modules).kids), demanding)
    requires var env := EnvOf(table, sol.tri);
             Fit(Base(root, a), env) && Nnfed(Base(root, a)) && Writable(kids, env)
    ensures var env := EnvOf(table, sol.tri);
            var ms := Meanings(OptValue(Base(root, a), env), kids, modules, env);
            Visible(table, env, s) == Rounded(table, s, LargestShown(ms, s, table.info[s].choice, demanding, env))
  {
    hide *;
    var env := EnvOf(table, sol.tri);
    SolutionProduced(table, u, sol);
    FinalizeMeans(root, a, kids, modules, env);
    VisibleIsShown(table, s, Items(Fin(root, a, kids, Nil, modules).kids),
                   Meanings(OptValue(Base(root, a), env), kids, modules, env), demanding, env);
  }
}
