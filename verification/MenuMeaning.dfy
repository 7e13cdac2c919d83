/** What the expressions of a finalised menu tree mean, by what was written in it. */
module MenuMeaning {
  import opened Wrappers
  import opened Exprs
  import opened Joins
  import opened Transform
  import opened Pipeline
  import opened MenuTree

  // ----- what was written -----

  /** The value of an expression as written, with m read as m && MODULES. */
  function WrittenValue(e: Option<Expr>, modules: Symbol, env: Env): Tri {
    if e.None? then YES else Value(RewriteM(e.value, modules), env)
  }

  /** The values that the dependency and the prompt condition of a node stand for. */
  datatype Meaning = Meaning(node: Menu, dep: Tri, vis: Tri)

  /** What a node hands down: a choice its own value, a menu the condition of its prompt,
      an 'if' its dependency. */
  function HandedDown(m: Meaning, env: Env): Tri {
    if m.node.sym.Some? && m.node.isChoice then env.tri(m.node.sym.value)
    else if m.node.hasPrompt then m.vis
    else m.dep
  }

  function Meant(above: Tri, n: Menu, a: Attr, modules: Symbol, env: Env): Meaning {
    var dep := TriMin(above, WrittenValue(a.dep, modules, env));
    Meaning(n, dep, TriMin(dep, WrittenValue(a.vis, modules, env)))
  }

  /** The meanings of all nodes of a parsed forest, in preorder: each takes the minimum of
      what it says itself and what is handed down to it. */
  function Meanings(above: Tri, f: Forest, modules: Symbol, env: Env): seq<Meaning>
    decreases f
  {
    match f
    case Nil => []
    case Cons(n, a, k, r) =>
      var m := Meant(above, n, a, modules, env);
      [m] + Meanings(HandedDown(m, env), k, modules, env) + Meanings(above, r, modules, env)
  }

  // ----- what the tree ends up with -----

  predicate Rounds(n: Menu) { n.sym.Some? && n.sym.value.typ != Tristate }

  /** A finalised node stands for a meaning; a prompt condition of a symbol that is no
      tristate does so after rounding m to y. */
  ghost predicate Means(i: Item, m: Meaning, env: Env) {
    && i.node == m.node
    && OptValue(i.attr.dep, env) == m.dep
    && (i.node.hasPrompt ==>
          if Rounds(i.node) then Round(OptValue(i.attr.vis, env)) == Round(m.vis) else OptValue(i.attr.vis, env) == m.vis)
  }

  ghost predicate AllMean(items: seq<Item>, ms: seq<Meaning>, env: Env) {
    |items| == |ms| && forall k :: 0 <= k < |items| ==> Means(items[k], ms[k], env)
  }

  lemma AllMeanConcat(i: Item, a: seq<Item>, b: seq<Item>, m: Meaning, x: seq<Meaning>, y: seq<Meaning>, env: Env)
    requires Means(i, m, env) && AllMean(a, x, env) && AllMean(b, y, env)
    ensures AllMean([i] + a + b, [m] + x + y, env)
  {
    hide Means;
  }

  /** What the optimiser needs of every expression that was written, and what the parser
      sees to: only menus, 'if's and choices have children. */
  ghost predicate Writable(f: Forest, env: Env) {
    match f
    case Nil => true
    case Cons(n, a, k, r) =>
      && Fit(a.dep, env) && Fit(a.vis, env)
      && (k != Nil && n.sym.Some? ==> n.isChoice)
      && Writable(k, env) && Writable(r, env)
  }

  lemma SymbolFits(n: Menu, env: Env)
    ensures n.sym.Some? ==> Fit(Some(Sym(n.sym.value)), env) && Nnfed(Some(Sym(n.sym.value)))
  {
  }

  /** What one node inherits means what it should, and so does what it hands down. */
  lemma InheritMeans(base: Option<Expr>, n: Menu, a: Attr, modules: Symbol, env: Env)
    requires Produced(env) && Fit(base, env) && Nnfed(base) && Fit(a.dep, env) && Fit(a.vis, env)
    ensures var b, m := Inherit(base, n, a, modules), Meant(OptValue(base, env), n, a, modules, env);
            && Means(Item(n, b), m, env)
            && ((n.sym.Some? ==> n.isChoice) ==>
                  Fit(Base(n, b), env) && Nnfed(Base(n, b)) && OptValue(Base(n, b), env) == HandedDown(m, env))
  {
    SymbolFits(n, env);
    hide Produced; hide Propagate; hide RewriteM; hide Clean; hide Ordered; hide NotOnSymbols;
    PropagateSound(base, a.dep, modules, env);
    var dep := Propagate(base, a.dep, modules);
    if n.hasPrompt {
      PropagateSound(dep, a.vis, modules, env);
      if Rounds(n) {
        PropagateBoolSound(dep, a.vis, modules, env);
      }
    }
  }

  /** Propagation along the parsed tree gives every node its meaning. */
  lemma {:induction false} SettleMeans(base: Option<Expr>, f: Forest, modules: Symbol, env: Env)
    requires Produced(env) && Fit(base, env) && Nnfed(base) && Writable(f, env)
    ensures AllMean(Items(Settle(base, f, modules)), Meanings(OptValue(base, env), f, modules, env), env)
    decreases f
  {
    hide Produced; hide Inherit; hide Fit; hide Nnfed; hide Base; hide Meant; hide HandedDown; hide Means;
    match f
    case Nil =>
    case Cons(n, a, k, r) =>
      var b, above := Inherit(base, n, a, modules), OptValue(base, env);
      var m := Meant(above, n, a, modules, env);
      InheritMeans(base, n, a, modules, env);
      SettleMeans(base, r, modules, env);
      if k != Nil {
        SettleMeans(Base(n, b), k, modules, env);
      }
      AllMeanConcat(Item(n, b), Items(Settle(Base(n, b), k, modules)), Items(Settle(base, r, modules)),
                    m, Meanings(HandedDown(m, env), k, modules, env), Meanings(above, r, modules, env), env);
  }

  /** The whole of menu_finalize: in the tree it builds, wherever nodes ended up, every
      node's dependency has the minimum of what was written for it and for all that
      encloses it, and so has its prompt condition. */
  lemma FinalizeMeans(root: Menu, a: Attr, kids: Forest, modules: Symbol, env: Env)
    requires Produced(env) && Fit(Base(root, a), env) && Nnfed(Base(root, a)) && Writable(kids, env)
    ensures AllMean(Items(Fin(root, a, kids, Nil, modules).kids),
                    Meanings(OptValue(Base(root, a), env), kids, modules, env), env)
  {
    hide *;
    FinalizeTree(root, a, kids, modules);
    SettleMeans(Base(root, a), kids, modules, env);
  }

  // ----- the visibility of a symbol -----

  /** The largest prompt condition of a symbol, as it ended up. */
  function LargestPrompt(items: seq<Item>, s: Symbol, env: Env): Tri {
    if items == [] then NO
    else TriMax(if items[0].node.sym == Some(s) && items[0].node.hasPrompt then OptValue(items[0].attr.vis, env) else NO,
                LargestPrompt(items[1..], s, env))
  }

  /** The same, as it was written. */
  function LargestWritten(ms: seq<Meaning>, s: Symbol): Tri {
    if ms == [] then NO
    else TriMax(if ms[0].node.sym == Some(s) && ms[0].node.hasPrompt then ms[0].vis else NO, LargestWritten(ms[1..], s))
  }

  lemma {:induction false} LargestMeans(items: seq<Item>, ms: seq<Meaning>, s: Symbol, env: Env)
    requires AllMean(items, ms, env)
    ensures s.typ == Tristate ==> LargestPrompt(items, s, env) == LargestWritten(ms, s)
    ensures Round(LargestPrompt(items, s, env)) == Round(LargestWritten(ms, s))
  {
    if items != [] {
      assert Means(items[0], ms[0], env);
      LargestMeans(items[1..], ms[1..], s, env);
    }
  }

  /** End to end: the visibility of a symbol, computed from the prompts as menu_finalize
      leaves them, is the one computed from what was written at all its locations. */
  lemma VisibilityAsWritten(root: Menu, a: Attr, kids: Forest, modules: Symbol, s: Symbol, env: Env)
    requires Produced(env) && Fit(Base(root, a), env) && Nnfed(Base(root, a)) && Writable(kids, env)
    ensures var seen := LargestPrompt(Items(Fin(root, a, kids, Nil, modules).kids), s, env);
            var written := LargestWritten(Meanings(OptValue(Base(root, a), env), kids, modules, env), s);
            if s.typ == Tristate then seen == written else Round(seen) == Round(written)
  {
    FinalizeMeans(root, a, kids, modules, env);
    hide Fin; hide Meanings; hide AllMean; hide LargestPrompt; hide LargestWritten; hide Round;
    LargestMeans(Items(Fin(root, a, kids, Nil, modules).kids), Meanings(OptValue(Base(root, a), env), kids, modules, env), s, env);
  }
}
