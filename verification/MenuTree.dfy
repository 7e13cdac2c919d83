/** The menu tree: its nodes, and what menu_finalize makes of it. */
module MenuTree {
  import opened Wrappers
  import opened Exprs
  import opened Pipeline
  import opened Transform

  /** A menu node.  The symbol, and whether the node has a prompt and the prompt a text,
      are fixed by the parser; the links and the two expressions are rewritten. */
  class Menu {
    const sym: Option<Symbol>
    const isChoice: bool
    const hasPrompt: bool
    const hasText: bool
    var dep: Option<Expr>
    var vis: Option<Expr>
    var next: Menu?
    var parent: Menu?
    var list: Menu?
  }

  /** The expressions of a node: its dependency and the condition of its prompt. */
  datatype Attr = Attr(dep: Option<Expr>, vis: Option<Expr>)

  /** A chain of siblings, each with the chain below it. */
  datatype Forest = Nil | Cons(node: Menu, attr: Attr, kids: Forest, rest: Forest)

  function Count(f: Forest): nat {
    match f
    case Nil => 0
    case Cons(_, _, k, r) => 1 + Count(k) + Count(r)
  }

  function Append(f: Forest, g: Forest): (h: Forest)
    ensures Count(h) == Count(f) + Count(g)
    ensures h == Nil <==> f == Nil && g == Nil
  {
    match f
    case Nil => g
    case Cons(n, a, k, r) => Cons(n, a, k, Append(r, g))
  }

  lemma {:induction false} AppendNil(f: Forest)
    ensures Append(f, Nil) == f
  {
    if f.Cons? {
      AppendNil(f.rest);
    }
  }

  lemma {:induction false} AppendAssoc(f: Forest, g: Forest, h: Forest)
    ensures Append(Append(f, g), h) == Append(f, Append(g, h))
  {
    if f.Cons? {
      AppendAssoc(f.rest, g, h);
    }
  }

  // ----- preorder -----

  datatype Item = Item(node: Menu, attr: Attr)

  function Items(f: Forest): seq<Item> {
    match f
    case Nil => []
    case Cons(n, a, k, r) => [Item(n, a)] + Items(k) + Items(r)
  }

  function Pre(f: Forest): seq<Menu> {
    match f
    case Nil => []
    case Cons(n, _, k, r) => [n] + Pre(k) + Pre(r)
  }

  lemma Assoc<T>(a: seq<T>, b: seq<T>, c: seq<T>, d: seq<T>)
    ensures a + b + (c + d) == a + b + c + d
    ensures b == [] ==> a + b + (c + d) == a + c + d
  {}

  lemma {:induction false} ItemsAppend(f: Forest, g: Forest)
    ensures Items(Append(f, g)) == Items(f) + Items(g)
  {
    match f
    case Nil =>
    case Cons(n, a, k, r) =>
      ItemsAppend(r, g);
      Assoc([Item(n, a)], Items(k), Items(r), Items(g));
  }

  lemma {:induction false} PreAppend(f: Forest, g: Forest)
    ensures Pre(Append(f, g)) == Pre(f) + Pre(g)
  {
    match f
    case Nil =>
    case Cons(n, _, k, r) =>
      PreAppend(r, g);
      Assoc([n], Pre(k), Pre(r), Pre(g));
  }

  // ----- propagation -----

  /** What the children of a node inherit: the choice itself, the visibility of a menu's
      prompt, or the dependency of an 'if'. */
  function Base(n: Menu, a: Attr): Option<Expr> {
    if n.sym.Some? && n.isChoice then Some(Sym(n.sym.value))
    else if n.hasPrompt then a.vis
    else a.dep
  }

  function Inherit(base: Option<Expr>, n: Menu, a: Attr, modules: Symbol): Attr {
    var dep := Propagate(base, a.dep, modules);
    Attr(dep,
         if !n.hasPrompt then a.vis
         else if n.sym.Some? && n.sym.value.typ != Tristate then PropagateBool(dep, a.vis, modules)
         else Propagate(dep, a.vis, modules))
  }

  /** One level: every sibling inherits from the owner of the chain. */
  function InheritAll(base: Option<Expr>, f: Forest, modules: Symbol): (g: Forest)
    ensures Count(g) == Count(f) && Pre(g) == Pre(f) && (g == Nil <==> f == Nil)
  {
    match f
    case Nil => Nil
    case Cons(n, a, k, r) => Cons(n, Inherit(base, n, a, modules), k, InheritAll(base, r, modules))
  }

  // ----- automatic submenus and flattening -----

  function Cond(n: Menu, a: Attr): Option<Expr> { if n.hasPrompt then a.vis else a.dep }

  /** May sibling m move below the symbol s of node n? */
  predicate Belongs(n: Menu, a: Attr, s: Symbol, m: Menu, b: Attr) {
    var dep := Cond(m, b);
    && dep.Some? && ContainsSymbol(dep.value, s)
    && (DependsOn(dep.value, s) || Superset(dep, if n.hasPrompt then a.vis else None))
  }

  predicate Texted(n: Menu) { n.hasPrompt && n.hasText }

  /** Children of a node without a prompt text become its siblings. */
  function Flatten(f: Forest): (g: Forest)
    ensures Count(g) == Count(f)
    decreases Count(f)
  {
    match f
    case Nil => Nil
    case Cons(n, a, k, r) =>
      if k != Nil && !Texted(n) then Cons(n, a, Nil, Flatten(Append(k, r)))
      else Cons(n, a, k, Flatten(r))
  }

  /** A node taken in hand: what hangs below it, what follows it, and the nodes that were
      finalised on the way, in order. */
  datatype Split = Split(kids: Forest, rest: Forest, log: seq<Menu>)

  function Fin(n: Menu, a: Attr, kids: Forest, rest: Forest, modules: Symbol): (s: Split)
    ensures Count(s.kids) + Count(s.rest) == Count(kids) + Count(rest)
    decreases 1 + Count(kids) + Count(rest), 0
  {
    if kids != Nil then
      var s := FinAll(InheritAll(Base(n, a), kids, modules), modules);
      Split(Flatten(s.kids), rest, [n] + s.log)
    else if n.sym.Some? then
      var s := Absorb(n, a, n.sym.value, rest, modules);
      Split(Flatten(s.kids), s.rest, [n] + s.log)
    else Split(Nil, rest, [n])
  }

  function FinAll(f: Forest, modules: Symbol): (s: Split)
    ensures Count(s.kids) == Count(f) && s.rest == Nil
    decreases Count(f), 1
  {
    match f
    case Nil => Split(Nil, Nil, [])
    case Cons(n, a, k, r) =>
      var s := Fin(n, a, k, r, modules);
      var t := FinAll(s.rest, modules);
      Split(Cons(n, a, s.kids, t.kids), Nil, s.log + t.log)
  }

  function Absorb(n: Menu, a: Attr, sym: Symbol, f: Forest, modules: Symbol): (s: Split)
    ensures Count(s.kids) + Count(s.rest) == Count(f)
    decreases Count(f), 1
  {
    match f
    case Nil => Split(Nil, Nil, [])
    case Cons(m, b, k, r) =>
      if !Belongs(n, a, sym, m, b) then Split(Nil, f, [])
      else
        var s := Fin(m, b, k, r, modules);
        var t := Absorb(n, a, sym, s.rest, modules);
        Split(Cons(m, b, s.kids, t.kids), t.rest, s.log + t.log)
  }

  // ----- what finalising keeps -----

  lemma {:induction false} FlattenItems(f: Forest)
    ensures Items(Flatten(f)) == Items(f) && Pre(Flatten(f)) == Pre(f)
    decreases Count(f)
  {
    match f
    case Nil =>
    case Cons(n, a, k, r) =>
      if k != Nil && !Texted(n) {
        FlattenItems(Append(k, r));
        ItemsAppend(k, r);
        PreAppend(k, r);
        Assoc([Item(n, a)], [], Items(k), Items(r));
        Assoc([n], [], Pre(k), Pre(r));
      } else {
        FlattenItems(r);
      }
  }

  lemma Regroup<T>(n: seq<T>, a: seq<T>, b: seq<T>, c: seq<T>, d: seq<T>, x: seq<T>, y: seq<T>)
    requires b + c == d && a + d == x + y
    ensures n + a + b + c == n + x + y
  {
    assert n + a + b + c == n + (a + (b + c));
    assert n + x + y == n + (x + y);
  }

  /** Restructuring does not reorder, and each node is finalised exactly once: the nodes
      finalised while n is in hand are n and all that now hangs below it, in preorder,
      and followed by what still follows they are the nodes there were, in preorder. */
  lemma {:induction false} FinKeepsOrder(n: Menu, a: Attr, kids: Forest, rest: Forest, modules: Symbol)
    ensures var s := Fin(n, a, kids, rest, modules);
            && s.log == [n] + Pre(s.kids)
            && Pre(s.kids) + Pre(s.rest) == Pre(kids) + Pre(rest)
    decreases 1 + Count(kids) + Count(rest), 0
  {
    hide InheritAll; hide Flatten;
    if kids != Nil {
      var below := InheritAll(Base(n, a), kids, modules);
      FinAllKeepsOrder(below, modules);
      FlattenItems(FinAll(below, modules).kids);
    } else if n.sym.Some? {
      AbsorbKeepsOrder(n, a, n.sym.value, rest, modules);
      FlattenItems(Absorb(n, a, n.sym.value, rest, modules).kids);
    }
  }

  lemma {:induction false} FinAllKeepsOrder(f: Forest, modules: Symbol)
    ensures Pre(FinAll(f, modules).kids) == Pre(f) == FinAll(f, modules).log
    decreases Count(f), 1
  {
    hide Fin;
    match f
    case Nil =>
    case Cons(n, a, k, r) =>
      var s := Fin(n, a, k, r, modules);
      FinKeepsOrder(n, a, k, r, modules);
      FinAllKeepsOrder(s.rest, modules);
      assert [n] + (Pre(s.kids) + Pre(s.rest)) == [n] + Pre(s.kids) + Pre(s.rest);
      assert [n] + (Pre(k) + Pre(r)) == [n] + Pre(k) + Pre(r);
  }

  lemma {:induction false} AbsorbKeepsOrder(n: Menu, a: Attr, sym: Symbol, f: Forest, modules: Symbol)
    ensures var s := Absorb(n, a, sym, f, modules);
            s.log == Pre(s.kids) && Pre(s.kids) + Pre(s.rest) == Pre(f)
    decreases Count(f), 1
  {
    hide Fin; hide Belongs;
    if f.Cons? && Belongs(n, a, sym, f.node, f.attr) {
      var m, b, k, r := f.node, f.attr, f.kids, f.rest;
      var s := Fin(m, b, k, r, modules);
      var t := Absorb(n, a, sym, s.rest, modules);
      FinKeepsOrder(m, b, k, r, modules);
      AbsorbKeepsOrder(n, a, sym, s.rest, modules);
      Regroup([m], Pre(s.kids), Pre(t.kids), Pre(t.rest), Pre(s.rest), Pre(k), Pre(r));
    }
  }

  // ----- what the expressions become -----

  /** Propagation through a whole forest, following the tree as the parser built it. */
  function Settle(base: Option<Expr>, f: Forest, modules: Symbol): Forest
    decreases f
  {
    match f
    case Nil => Nil
    case Cons(n, a, k, r) =>
      var b := Inherit(base, n, a, modules);
      Cons(n, b, Settle(Base(n, b), k, modules), Settle(base, r, modules))
  }

  /** The same for a chain that has itself inherited already. */
  function SettleBelow(f: Forest, modules: Symbol): Forest {
    match f
    case Nil => Nil
    case Cons(n, a, k, r) => Cons(n, a, Settle(Base(n, a), k, modules), SettleBelow(r, modules))
  }

  lemma {:induction false} SettleInherited(base: Option<Expr>, f: Forest, modules: Symbol)
    ensures SettleBelow(InheritAll(base, f, modules), modules) == Settle(base, f, modules)
  {
    if f.Cons? {
      SettleInherited(base, f.rest, modules);
    }
  }

  /** However nodes move, each ends with the expressions it inherits along the tree as
      it was parsed: no node is propagated to twice, none is missed. */
  lemma {:induction false} FinSettles(n: Menu, a: Attr, kids: Forest, rest: Forest, modules: Symbol)
    ensures var s := Fin(n, a, kids, rest, modules);
            (Items(s.kids) + Items(SettleBelow(s.rest, modules))
             == Items(Settle(Base(n, a), kids, modules)) + Items(SettleBelow(rest, modules)))
    decreases 1 + Count(kids) + Count(rest), 0
  {
    hide InheritAll; hide Flatten; hide Base; hide SettleBelow;
    if kids != Nil {
      var below := InheritAll(Base(n, a), kids, modules);
      FinAllSettles(below, modules);
      SettleInherited(Base(n, a), kids, modules);
      FlattenItems(FinAll(below, modules).kids);
    } else if n.sym.Some? {
      AbsorbSettles(n, a, n.sym.value, rest, modules);
      FlattenItems(Absorb(n, a, n.sym.value, rest, modules).kids);
    }
  }

  lemma {:induction false} FinAllSettles(f: Forest, modules: Symbol)
    ensures Items(FinAll(f, modules).kids) == Items(SettleBelow(f, modules))
    decreases Count(f), 1
  {
    hide Fin; hide Base;
    match f
    case Nil =>
    case Cons(n, a, k, r) =>
      var s := Fin(n, a, k, r, modules);
      FinSettles(n, a, k, r, modules);
      FinAllSettles(s.rest, modules);
      var i := Item(n, a);
      var under := Items(Settle(Base(n, a), k, modules));
      assert [i] + (Items(s.kids) + Items(SettleBelow(s.rest, modules)))
          == [i] + Items(s.kids) + Items(SettleBelow(s.rest, modules));
      assert [i] + (under + Items(SettleBelow(r, modules))) == [i] + under + Items(SettleBelow(r, modules));
  }

  lemma {:induction false} AbsorbSettles(n: Menu, a: Attr, sym: Symbol, f: Forest, modules: Symbol)
    ensures var s := Absorb(n, a, sym, f, modules);
            Items(s.kids) + Items(SettleBelow(s.rest, modules)) == Items(SettleBelow(f, modules))
    decreases Count(f), 1
  {
    hide Fin; hide Belongs; hide Base;
    if f.Cons? && Belongs(n, a, sym, f.node, f.attr) {
      var m, b, k, r := f.node, f.attr, f.kids, f.rest;
      var s := Fin(m, b, k, r, modules);
      var t := Absorb(n, a, sym, s.rest, modules);
      FinSettles(m, b, k, r, modules);
      AbsorbSettles(n, a, sym, s.rest, modules);
      var i := Item(m, b);
      var under := Items(Settle(Base(m, b), k, modules));
      Regroup([i], Items(s.kids), Items(t.kids), Items(SettleBelow(t.rest, modules)),
              Items(SettleBelow(s.rest, modules)), under, Items(SettleBelow(r, modules)));
    }
  }

  // ----- the shape of the result -----

  /** Only a node whose prompt has a text keeps a list. */
  predicate Flat(f: Forest) {
    f.Cons? ==> (f.kids != Nil ==> Texted(f.node)) && Flat(f.kids) && Flat(f.rest)
  }

  predicate FlatBelow(f: Forest) {
    f.Cons? ==> Flat(f.kids) && FlatBelow(f.rest)
  }

  lemma {:induction false} FlatBelowAppend(f: Forest, g: Forest)
    requires Flat(f) && FlatBelow(g)
    ensures FlatBelow(Append(f, g))
  {
    if f.Cons? {
      FlatBelowAppend(f.rest, g);
    }
  }

  lemma {:induction false} FlattenFlat(f: Forest)
    requires FlatBelow(f)
    ensures Flat(Flatten(f))
    decreases Count(f)
  {
    match f
    case Nil =>
    case Cons(n, a, k, r) =>
      if k != Nil && !Texted(n) {
        FlatBelowAppend(k, r);
        FlattenFlat(Append(k, r));
      } else {
        FlattenFlat(r);
      }
  }

  /** Each node with its parent, in preorder; top is the parent of the chain. */
  function Parents(f: Forest, top: Menu): seq<(Menu, Menu)> {
    match f
    case Nil => []
    case Cons(n, _, k, r) => [(n, top)] + Parents(k, n) + Parents(r, top)
  }

  /** Each node with the nearest node around it whose prompt has a text. */
  function Owners(f: Forest, top: Menu): seq<(Menu, Menu)> {
    match f
    case Nil => []
    case Cons(n, _, k, r) => [(n, top)] + Owners(k, if Texted(n) then n else top) + Owners(r, top)
  }

  lemma {:induction false} OwnersAppend(f: Forest, g: Forest, top: Menu)
    ensures Owners(Append(f, g), top) == Owners(f, top) + Owners(g, top)
  {
    match f
    case Nil =>
    case Cons(n, _, k, r) =>
      OwnersAppend(r, g, top);
      Assoc([(n, top)], Owners(k, if Texted(n) then n else top), Owners(r, top), Owners(g, top));
  }

  lemma {:induction false} FlattenOwners(f: Forest, top: Menu)
    ensures Owners(Flatten(f), top) == Owners(f, top)
    decreases Count(f)
  {
    match f
    case Nil =>
    case Cons(n, a, k, r) =>
      if k != Nil && !Texted(n) {
        FlattenOwners(Append(k, r), top);
        OwnersAppend(k, r, top);
        Assoc([(n, top)], [], Owners(k, top), Owners(r, top));
      } else {
        FlattenOwners(r, top);
      }
  }

  lemma {:induction false} FlatOwners(f: Forest, top: Menu)
    requires Flat(f)
    ensures Parents(f, top) == Owners(f, top)
  {
    match f
    case Nil =>
    case Cons(n, _, k, r) =>
      FlatOwners(k, n);
      FlatOwners(r, top);
  }

  /** Flattening moves each node up to the nearest node around it that has a text, and no
      further: what a menu or a choice with a text holds it keeps. */
  lemma FlattenParents(f: Forest, top: Menu)
    requires FlatBelow(f)
    ensures Parents(Flatten(f), top) == Owners(f, top)
  {
    FlattenFlat(f);
    FlatOwners(Flatten(f), top);
    FlattenOwners(f, top);
  }

  /** After a node is finalised, no 'if' or promptless symbol below it has a list. */
  lemma {:induction false} FinFlat(n: Menu, a: Attr, kids: Forest, rest: Forest, modules: Symbol)
    ensures Flat(Fin(n, a, kids, rest, modules).kids)
    decreases 1 + Count(kids) + Count(rest), 0
  {
    hide InheritAll; hide Flatten;
    if kids != Nil {
      var below := InheritAll(Base(n, a), kids, modules);
      FinAllFlat(below, modules);
      FlattenFlat(FinAll(below, modules).kids);
    } else if n.sym.Some? {
      AbsorbFlat(n, a, n.sym.value, rest, modules);
      FlattenFlat(Absorb(n, a, n.sym.value, rest, modules).kids);
    }
  }

  lemma {:induction false} FinAllFlat(f: Forest, modules: Symbol)
    ensures FlatBelow(FinAll(f, modules).kids)
    decreases Count(f), 1
  {
    hide Fin;
    if f.Cons? {
      FinFlat(f.node, f.attr, f.kids, f.rest, modules);
      FinAllFlat(Fin(f.node, f.attr, f.kids, f.rest, modules).rest, modules);
    }
  }

  lemma {:induction false} AbsorbFlat(n: Menu, a: Attr, sym: Symbol, f: Forest, modules: Symbol)
    ensures FlatBelow(Absorb(n, a, sym, f, modules).kids)
    decreases Count(f), 1
  {
    hide Fin; hide Belongs;
    if f.Cons? && Belongs(n, a, sym, f.node, f.attr) {
      FinFlat(f.node, f.attr, f.kids, f.rest, modules);
      AbsorbFlat(n, a, sym, Fin(f.node, f.attr, f.kids, f.rest, modules).rest, modules);
    }
  }

  /** Every top node of the chain may move below n. */
  predicate AllBelong(n: Menu, a: Attr, s: Symbol, f: Forest) {
    f.Cons? ==> Belongs(n, a, s, f.node, f.attr) && AllBelong(n, a, s, f.rest)
  }

  /** A submenu takes in the siblings that pass the test, and stops at the first that
      does not. */
  lemma {:induction false} AbsorbTakesExactly(n: Menu, a: Attr, sym: Symbol, f: Forest, modules: Symbol)
    ensures var s := Absorb(n, a, sym, f, modules);
            && AllBelong(n, a, sym, s.kids)
            && (s.rest.Cons? ==> !Belongs(n, a, sym, s.rest.node, s.rest.attr))
    decreases Count(f)
  {
    hide Fin; hide Belongs;
    if f.Cons? && Belongs(n, a, sym, f.node, f.attr) {
      AbsorbTakesExactly(n, a, sym, Fin(f.node, f.attr, f.kids, f.rest, modules).rest, modules);
    }
  }

  /** Why a sibling may move: where it is visible at all, the symbol it moves below is
      set, or the prompt of that symbol is visible. */
  lemma BelongsSound(n: Menu, a: Attr, s: Symbol, m: Menu, b: Attr, env: Env)
    requires Belongs(n, a, s, m, b) && Produced(env) && Typed(s)
    requires Fit(Cond(m, b), env) && Crisped(Cond(m, b), env)
    requires n.hasPrompt ==> Fit(a.vis, env) && Crisped(a.vis, env)
    requires OptValue(Cond(m, b), env) != NO
    ensures env.tri(s) != NO || (n.hasPrompt ==> OptValue(a.vis, env) != NO)
  {
    hide Superset; hide Fit; hide Crisped; hide Produced; hide DependsOn;
    var dep := Cond(m, b);
    if DependsOn(dep.value, s) {
      if env.tri(s) == NO {
        DependsOnSound(dep.value, s, env);
      }
    } else if n.hasPrompt {
      SupersetImplies(dep, a.vis, env);
    }
  }

  lemma RestOfLast(n: Menu, a: Attr, kids: Forest, modules: Symbol)
    ensures Fin(n, a, kids, Nil, modules).rest == Nil
  {}

  /** The whole tree, from the root: order kept, every node finalised once, expressions
      inherited along the parsed tree, and no list left below a node without a text. */
  lemma FinalizeTree(root: Menu, a: Attr, kids: Forest, modules: Symbol)
    ensures var s := Fin(root, a, kids, Nil, modules);
            && s.rest == Nil
            && s.log == [root] + Pre(kids) && Pre(s.kids) == Pre(kids)
            && Items(s.kids) == Items(Settle(Base(root, a), kids, modules))
            && Flat(s.kids)
  {
    hide Settle; hide Base; hide Flat;
    var s := Fin(root, a, kids, Nil, modules);
    RestOfLast(root, a, kids, modules);
    hide Fin;
    FinKeepsOrder(root, a, kids, Nil, modules);
    FinSettles(root, a, kids, Nil, modules);
    FinFlat(root, a, kids, Nil, modules);
    assert forall q: seq<Menu> :: q + Pre(Nil) == q;
    assert forall q: seq<Item> :: q + Items(SettleBelow(Nil, modules)) == q;
  }
}
