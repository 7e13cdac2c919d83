/** menu_finalize on linked menu nodes: it relinks the tree in place into what
    MenuTree.Fin says. */
module MenuFinalize {
  import opened Wrappers
  import opened Exprs
  import opened Pipeline
  import opened MenuTree

  ghost function Nodes(f: Forest): set<Menu> { set n | n in Pre(f) }

  ghost predicate NoDup(s: seq<Menu>) {
    forall i, j :: 0 <= i < j < |s| ==> s[i] != s[j]
  }

  lemma NoDupCat(s: seq<Menu>, t: seq<Menu>)
    requires NoDup(s + t)
    ensures NoDup(s) && NoDup(t) && forall n :: n in s ==> n !in t
  {
    forall i, j | 0 <= i < j < |s| ensures s[i] != s[j] {
      assert (s + t)[i] == s[i] && (s + t)[j] == s[j];
    }
    forall i, j | 0 <= i < j < |t| ensures t[i] != t[j] {
      assert (s + t)[|s| + i] == t[i] && (s + t)[|s| + j] == t[j];
    }
    forall n | n in s ensures n !in t {
      var i :| 0 <= i < |s| && s[i] == n;
      assert (s + t)[i] == n;
      assert forall j :: 0 <= j < |t| ==> (s + t)[|s| + j] == t[j];
    }
  }

  /** The nodes from first up to (not including) last are the chain f, with owner par,
      and the lists below them are its subtrees. */
  ghost predicate Linked(f: Forest, first: Menu?, last: Menu?, par: Menu?)
    reads Nodes(f)
    decreases f
  {
    match f
    case Nil => first == last
    case Cons(n, a, k, r) =>
      && first == n && n.parent == par && n.dep == a.dep && n.vis == a.vis
      && Linked(k, n.list, null, n)
      && Linked(r, n.next, last, par)
  }

  /** Linked nodes exist, so a method that does not modify them leaves them linked. */
  lemma {:induction false} Allocated(f: Forest, first: Menu?, last: Menu?, par: Menu?)
    requires Linked(f, first, last, par)
    ensures forall n :: n in Nodes(f) ==> allocated(n)
  {
    if f.Cons? {
      Allocated(f.kids, f.node.list, null, f.node);
      Allocated(f.rest, f.node.next, last, par);
      assert Nodes(f) == {f.node} + Nodes(f.kids) + Nodes(f.rest);
    }
  }

  lemma {:induction false} LinkedAppend(f: Forest, g: Forest, first: Menu?, mid: Menu?, last: Menu?, par: Menu?)
    requires Linked(f, first, mid, par) && Linked(g, mid, last, par)
    ensures Linked(Append(f, g), first, last, par)
  {
    if f.Cons? {
      LinkedAppend(f.rest, g, f.node.next, mid, last, par);
    }
  }

  function One(n: Menu, a: Attr, k: Forest): Forest { Cons(n, a, k, Nil) }

  /** What separates the parts of a chain while a loop stands at the head of todo. */
  lemma Apart(done: Forest, todo: Forest)
    requires todo.Cons? && NoDup(Pre(done) + Pre(todo))
    ensures todo.node !in Nodes(done) + Nodes(todo.kids) + Nodes(todo.rest)
    ensures Nodes(done) !! Nodes(todo.kids) && Nodes(done) !! Nodes(todo.rest) && Nodes(todo.kids) !! Nodes(todo.rest)
    ensures NoDup([todo.node] + Pre(todo.kids) + Pre(todo.rest))
    ensures NoDup([todo.node] + Pre(todo.kids)) && NoDup([todo.node] + Pre(todo.rest))
  {
    NoDupCat(Pre(done), Pre(todo));
    NoDupCat([todo.node] + Pre(todo.kids), Pre(todo.rest));
    NoDupCat([todo.node], Pre(todo.kids));
    var s := [todo.node] + Pre(todo.rest);
    forall i, j | 0 <= i < j < |s| ensures s[i] != s[j] {
      if i == 0 { assert s[0] == todo.node && s[j] in Pre(todo.rest); }
      else { assert s[i] == Pre(todo.rest)[i - 1] && s[j] == Pre(todo.rest)[j - 1]; }
    }
  }

  lemma Member(done: Forest, todo: Forest, all: Forest)
    requires todo.Cons? && Pre(done) + Pre(todo) == Pre(all)
    ensures todo.node in Nodes(all)
  {
    assert todo.node == (Pre(done) + Pre(todo))[|Pre(done)|];
  }

  lemma AppendBefore(f: Forest)
    ensures Append(Nil, f) == f && [] + Pre(f) == Pre(f)
  {}

  /** Moving a finished head from todo to done. */
  lemma Advance(done: Forest, n: Menu, a: Attr, k: Forest, r: Forest)
    ensures Append(Append(done, One(n, a, k)), r) == Append(done, Cons(n, a, k, r))
    ensures Pre(Append(done, One(n, a, k))) == Pre(done) + ([n] + Pre(k))
  {
    AppendAssoc(done, One(n, a, k), r);
    PreAppend(done, One(n, a, k));
    assert [n] + Pre(k) + [] == [n] + Pre(k);
  }

  /** What stands at the head of a chain that is not at its end. */
  lemma Head(f: Forest, n: Menu, par: Menu?)
    requires Linked(f, n, null, par)
    ensures f.Cons? && f.node == n && n.parent == par && n.dep == f.attr.dep && n.vis == f.attr.vis
    ensures Linked(f.kids, n.list, null, n) && Linked(f.rest, n.next, null, par)
  {}

  lemma End(f: Forest, par: Menu?)
    requires Linked(f, null, null, par)
    ensures f == Nil
  {}

  /** A finished node joins the chain before it. */
  lemma Join(done: Forest, n: Menu, a: Attr, k: Forest, first: Menu?, par: Menu?)
    requires Linked(done, first, n, par) && Linked(k, n.list, null, n)
    requires n.parent == par && n.dep == a.dep && n.vis == a.vis
    ensures Linked(Append(done, One(n, a, k)), first, n.next, par)
  {
    LinkedAppend(done, One(n, a, k), first, n, n.next, par);
  }

  /** One child inherits, and joins the chain of those that have. */
  method InheritOne(p: Menu, menu: Menu, base: Option<Expr>, modules: Symbol, ghost done: Forest, ghost todo: Forest)
    requires Linked(done, p.list, menu, p) && Linked(todo, menu, null, p)
    requires todo.Cons? && NoDup(Pre(done) + Pre(todo))
    modifies menu`dep, menu`vis
    ensures var b := Inherit(base, todo.node, todo.attr, modules);
            Linked(Append(done, One(todo.node, b, todo.kids)), p.list, menu.next, p)
    ensures Linked(todo.rest, menu.next, null, p)
  {
    hide Propagate; hide PropagateBool; hide Linked; hide Append; hide Pre; hide NoDup;
    Head(todo, menu, p);
    Apart(done, todo);
    menu.dep := Propagate(base, menu.dep, modules);
    if menu.hasPrompt {
      menu.vis := if menu.sym.Some? && menu.sym.value.typ != Tristate
                  then PropagateBool(menu.dep, menu.vis, modules)
                  else Propagate(menu.dep, menu.vis, modules);
    }
    Join(done, menu, Inherit(base, menu, todo.attr, modules), todo.kids, p.list, p);
  }

  lemma InheritHead(base: Option<Expr>, done: Forest, todo: Forest, modules: Symbol)
    requires todo.Cons?
    ensures var b := Inherit(base, todo.node, todo.attr, modules);
            && Append(Append(done, One(todo.node, b, todo.kids)), InheritAll(base, todo.rest, modules))
            == Append(done, InheritAll(base, todo, modules))
            && Pre(Append(done, One(todo.node, b, todo.kids))) + Pre(todo.rest) == Pre(done) + Pre(todo)
  {
    hide Inherit;
    var b := Inherit(base, todo.node, todo.attr, modules);
    Advance(done, todo.node, b, todo.kids, InheritAll(base, todo.rest, modules));
    assert Pre(done) + ([todo.node] + Pre(todo.kids)) + Pre(todo.rest) == Pre(done) + Pre(todo);
  }

  lemma NilInherits(base: Option<Expr>, modules: Symbol)
    ensures InheritAll(base, Nil, modules) == Nil
  {}

  lemma NilLinked(first: Menu?, par: Menu?)
    ensures Linked(Nil, first, first, par) && Pre(Nil) == []
  {}

  /** The first loop: every child inherits from its owner. */
  method InheritChildren(p: Menu, base: Option<Expr>, modules: Symbol, ghost kids: Forest)
    requires Linked(kids, p.list, null, p) && NoDup([p] + Pre(kids))
    modifies Nodes(kids)
    ensures Linked(InheritAll(base, kids, modules), p.list, null, p)
  {
    NoDupCat([p], Pre(kids));
    assert p in [p];
    NilLinked(p.list, p);
    AppendBefore(InheritAll(base, kids, modules));
    var menu := p.list;
    ghost var done, todo := Nil, kids;
    hide Linked; hide InheritAll; hide Inherit; hide Append; hide Pre; hide NoDup;
    while menu != null
      invariant Linked(done, p.list, menu, p) && Linked(todo, menu, null, p)
      invariant Pre(done) + Pre(todo) == Pre(kids)
      invariant Append(done, InheritAll(base, todo, modules)) == InheritAll(base, kids, modules)
      decreases todo
    {
      Head(todo, menu, p);
      Member(done, todo, kids);
      InheritHead(base, done, todo, modules);
      InheritOne(p, menu, base, modules, done, todo);
      done, todo := Append(done, One(menu, Inherit(base, menu, todo.attr, modules), todo.kids)), todo.rest;
      menu := menu.next;
    }
    End(todo, p);
    NilInherits(base, modules);
    AppendNil(done);
  }

  // ----- flattening -----

  /** One child gets its new parent. */
  method AdoptOne(p: Menu, n: Menu, last: Menu, ghost done: Forest, ghost todo: Forest)
    requires Linked(done, n.list, last, p) && Linked(todo, last, null, n)
    requires todo.Cons? && NoDup(Pre(done) + Pre(todo)) && n !in Pre(done) + Pre(todo)
    modifies last`parent
    ensures last.parent == p && Linked(done, n.list, last, p)
    ensures Linked(todo.kids, last.list, null, last) && Linked(todo.rest, last.next, null, n)
    ensures Linked(Append(done, One(last, todo.attr, todo.kids)), n.list, last.next, p)
  {
    hide Linked; hide Append; hide Pre; hide NoDup;
    Head(todo, last, n);
    Apart(done, todo);
    last.parent := p;
    Join(done, last, todo.attr, todo.kids, n.list, p);
  }

  /** The loop that hands the children of n to p, and finds the last of them. */
  method Adopt(p: Menu, n: Menu, ghost k: Forest) returns (last: Menu, ghost before: Forest, ghost end: Forest)
    requires k.Cons? && Linked(k, n.list, null, n) && NoDup([n] + Pre(k))
    modifies Nodes(k)`parent
    ensures end.Cons? && end.rest == Nil && end.node == last && Append(before, end) == k
    ensures Linked(before, n.list, last, p)
    ensures last.next == null && last.parent == p && last.dep == end.attr.dep && last.vis == end.attr.vis
    ensures Linked(end.kids, last.list, null, last)
  {
    Head(k, n.list, n);
    NoDupCat([n], Pre(k));
    assert n in [n];
    NilLinked(n.list, p);
    AppendBefore(k);
    last := n.list;
    ghost var done, todo := Nil, k;
    hide Linked; hide Append; hide Pre; hide NoDup;
    while true
      invariant todo.Cons? && Linked(done, n.list, last, p) && Linked(todo, last, null, n)
      invariant Pre(done) + Pre(todo) == Pre(k) && Append(done, todo) == k
      decreases todo
    {
      Head(todo, last, n);
      Member(done, todo, k);
      AdoptOne(p, n, last, done, todo);
      if last.next == null {
        End(todo.rest, n);
        break;
      }
      AdoptNext(done, todo);
      Head(todo.rest, last.next, n);
      done, todo := Append(done, One(last, todo.attr, todo.kids)), todo.rest;
      last := last.next;
    }
    before, end := done, todo;
  }

  lemma AdoptNext(done: Forest, todo: Forest)
    requires todo.Cons?
    ensures Append(Append(done, One(todo.node, todo.attr, todo.kids)), todo.rest) == Append(done, todo)
    ensures Pre(Append(done, One(todo.node, todo.attr, todo.kids))) + Pre(todo.rest) == Pre(done) + Pre(todo)
  {
    Advance(done, todo.node, todo.attr, todo.kids, todo.rest);
    assert Pre(done) + ([todo.node] + Pre(todo.kids)) + Pre(todo.rest) == Pre(done) + Pre(todo);
  }

  lemma LastOf(before: Forest, end: Forest, k: Forest)
    requires end.Cons? && end.rest == Nil && Append(before, end) == k && NoDup(Pre(k))
    ensures end.node in Nodes(k) && end.node !in Nodes(before) && end.node !in Nodes(end.kids)
    ensures Nodes(before) <= Nodes(k) && Nodes(end.kids) <= Nodes(k)
  {
    PreAppend(before, end);
    Apart(before, end);
    assert Pre(end) == [end.node] + Pre(end.kids);
  }

  /** The children of n, handed to p, follow n. */
  method Splice(p: Menu, n: Menu, ghost k: Forest, ghost r: Forest)
    requires k.Cons? && Linked(k, n.list, null, n) && Linked(r, n.next, null, p)
    requires n !in Nodes(k) + Nodes(r) && Nodes(k) !! Nodes(r) && NoDup([n] + Pre(k))
    modifies n`next, n`list, Nodes(k)
    ensures Linked(Append(k, r), n.next, null, p) && n.list == null
  {
    hide Linked; hide Pre;
    NoDupCat([n], Pre(k));
    hide NoDup; hide Append;
    Allocated(r, n.next, null, p);
    var last, before, end := Adopt(p, n, k);
    LastOf(before, end, k);
    hide Nodes;
    last.next := n.next;
    n.next := n.list;
    n.list := null;
    Join(before, last, end.attr, end.kids, n.next, p);
    LinkedAppend(k, r, n.next, last.next, null, p);
  }

  /** Where the flattening loop stands after a child: the chain it has passed, and the
      chain still before it. */
  function Passed(done: Forest, todo: Forest): Forest
    requires todo.Cons?
  {
    Append(done, if todo.kids != Nil && !Texted(todo.node) then One(todo.node, todo.attr, Nil)
                 else One(todo.node, todo.attr, todo.kids))
  }

  function Ahead(todo: Forest): Forest
    requires todo.Cons?
  {
    if todo.kids != Nil && !Texted(todo.node) then Append(todo.kids, todo.rest) else todo.rest
  }

  lemma Shift<T>(d: seq<T>, n: seq<T>, k: seq<T>, r: seq<T>)
    ensures d + (n + []) + (k + r) == d + (n + k + r)
    ensures d + (n + k) + r == d + (n + k + r)
  {
    assert n + [] == n;
  }

  lemma FlattenStep(done: Forest, todo: Forest)
    requires todo.Cons?
    ensures Append(Passed(done, todo), Flatten(Ahead(todo))) == Append(done, Flatten(todo))
    ensures Count(Ahead(todo)) < Count(todo)
  {
    var n, a, k, r := todo.node, todo.attr, todo.kids, todo.rest;
    Advance(done, n, a, Nil, Flatten(Append(k, r)));
    Advance(done, n, a, k, Flatten(r));
  }

  lemma FlattenStepOrder(done: Forest, todo: Forest)
    requires todo.Cons?
    ensures Pre(Passed(done, todo)) + Pre(Ahead(todo)) == Pre(done) + Pre(todo)
  {
    var n, a, k, r := todo.node, todo.attr, todo.kids, todo.rest;
    Advance(done, n, a, Nil, Nil);
    Advance(done, n, a, k, Nil);
    PreAppend(k, r);
    assert Pre(Nil) == [] && Pre(todo) == [n] + Pre(k) + Pre(r);
    hide Append; hide Pre;
    Shift(Pre(done), [n], Pre(k), Pre(r));
  }

  lemma FlattenOnly(f: Forest)
    ensures Append(Nil, Flatten(f)) == Flatten(f) && Flatten(Nil) == Nil
  {}

  lemma KidsIn(f: Forest)
    requires f.Cons?
    ensures f.node in Nodes(f) && Nodes(f.kids) <= Nodes(f) && Nodes(f.rest) <= Nodes(f)
  {}

  method FlattenOne(p: Menu, menu: Menu, ghost done: Forest, ghost todo: Forest)
    requires Linked(done, p.list, menu, p) && Linked(todo, menu, null, p)
    requires todo.Cons? && NoDup(Pre(done) + Pre(todo)) && p !in Nodes(done) && p !in Nodes(todo)
    modifies menu`next, menu`list, Nodes(todo.kids)
    ensures Linked(Passed(done, todo), p.list, menu.next, p)
    ensures Linked(Ahead(todo), menu.next, null, p)
  {
    hide Linked; hide Append; hide Pre; hide NoDup; hide Texted;
    Head(todo, menu, p);
    Apart(done, todo);
    KidsIn(todo);
    Empty(todo.kids, menu.list, menu);
    Allocated(done, p.list, menu, p);
    if menu.list != null && !(menu.hasPrompt && menu.hasText) {
      Splice(p, menu, todo.kids, todo.rest);
      Bare(menu);
      Join(done, menu, todo.attr, Nil, p.list, p);
      TextedIs(menu);
    } else {
      Join(done, menu, todo.attr, todo.kids, p.list, p);
      TextedIs(menu);
    }
  }

  lemma TextedIs(n: Menu)
    ensures Texted(n) == (n.hasPrompt && n.hasText)
  {}

  lemma Bare(n: Menu)
    requires n.list == null
    ensures Linked(Nil, n.list, null, n)
  {}

  lemma Empty(f: Forest, first: Menu?, par: Menu?)
    requires Linked(f, first, null, par)
    ensures f == Nil <==> first == null
  {}

  /** The last loop: children of a child without a prompt text move up behind it. */
  method FlattenChildren(p: Menu, ghost f: Forest)
    requires Linked(f, p.list, null, p) && NoDup([p] + Pre(f))
    modifies Nodes(f)
    ensures Linked(Flatten(f), p.list, null, p)
  {
    NoDupCat([p], Pre(f));
    assert p in [p];
    NilLinked(p.list, p);
    AppendBefore(f);
    FlattenOnly(f);
    var menu := p.list;
    ghost var done, todo := Nil, f;
    hide Linked; hide Flatten; hide Append; hide Pre; hide NoDup; hide Passed; hide Ahead; hide Count;
    while menu != null
      invariant Linked(done, p.list, menu, p) && Linked(todo, menu, null, p)
      invariant Pre(done) + Pre(todo) == Pre(f)
      invariant Append(done, Flatten(todo)) == Flatten(f)
      decreases Count(todo)
    {
      Head(todo, menu, p);
      Inside(done, todo, f);
      FlattenStep(done, todo);
      FlattenStepOrder(done, todo);
      FlattenOne(p, menu, done, todo);
      done, todo := Passed(done, todo), Ahead(todo);
      menu := menu.next;
    }
    End(todo, p);
    AppendNil(done);
  }

  lemma Inside(done: Forest, todo: Forest, all: Forest)
    requires todo.Cons? && Pre(done) + Pre(todo) == Pre(all)
    ensures todo.node in Nodes(all) && Nodes(todo.kids) <= Nodes(all)
    ensures Nodes(done) <= Nodes(all) && Nodes(todo) <= Nodes(all)
  {
    KidsIn(todo);
    hide Pre;
    assert forall n :: n in Pre(done) || n in Pre(todo) ==> n in Pre(done) + Pre(todo);
  }

  // ----- finalising -----

  lemma Separate(p: Menu, k: seq<Menu>, r: seq<Menu>)
    requires NoDup([p] + k + r)
    ensures NoDup([p] + k) && NoDup([p] + r) && NoDup(k + r)
    ensures p !in k && p !in r && forall n :: n in k ==> n !in r
  {
    NoDupCat([p] + k, r);
    NoDupCat([p], k);
    assert p in [p] + k;
    assert [p] + k + r == [p] + (k + r);
    NoDupCat([p], k + r);
    var s := [p] + r;
    forall i, j | 0 <= i < j < |s| ensures s[i] != s[j] {
      if i == 0 { assert s[0] == p && s[j] in r; }
      else { assert s[i] == r[i - 1] && s[j] == r[j - 1]; }
    }
  }

  /** The separation of one node's children from its later siblings. */
  lemma Sides(p: Menu, kids: Forest, rest: Forest)
    requires NoDup([p] + Pre(kids) + Pre(rest))
    ensures NoDup([p] + Pre(kids)) && NoDup([p] + Pre(rest)) && NoDup(Pre(kids) + Pre(rest))
    ensures p !in Nodes(kids) && p !in Nodes(rest) && Nodes(kids) !! Nodes(rest)
  {
    hide Pre;
    Separate(p, Pre(kids), Pre(rest));
  }

  /** menu_finalize: what hangs below p and what follows it become what Fin says, and
      the nodes finalised meanwhile are the log of Fin. */
  method Finalize(p: Menu, modules: Symbol, ghost a: Attr, ghost kids: Forest, ghost rest: Forest)
    returns (ghost s: Split)
    requires Linked(kids, p.list, null, p) && Linked(rest, p.next, null, p.parent)
    requires p.dep == a.dep && p.vis == a.vis && NoDup([p] + Pre(kids) + Pre(rest))
    modifies p`next, p`list, Nodes(kids), Nodes(rest)
    ensures s == Fin(p, a, kids, rest, modules)
    ensures Linked(s.kids, p.list, null, p) && Linked(s.rest, p.next, null, p.parent)
    decreases 1 + Count(kids) + Count(rest), 0
  {
    Sides(p, kids, rest);
    Empty(kids, p.list, p);
    if p.list != null {
      s := FinalizeParent(p, modules, a, kids, rest);
    } else if p.sym.Some? {
      s := FinalizeSymbol(p, p.sym.value, modules, a, rest);
    } else {
      s := Split(Nil, rest, [p]);
    }
  }

  /** The case of a node that has children. */
  method FinalizeParent(p: Menu, modules: Symbol, ghost a: Attr, ghost kids: Forest, ghost rest: Forest)
    returns (ghost s: Split)
    requires Linked(kids, p.list, null, p) && Linked(rest, p.next, null, p.parent) && kids != Nil
    requires p.dep == a.dep && p.vis == a.vis
    requires NoDup([p] + Pre(kids)) && p !in Nodes(kids) && p !in Nodes(rest) && Nodes(kids) !! Nodes(rest)
    modifies Nodes(kids)
    ensures s == Fin(p, a, kids, rest, modules)
    ensures Linked(s.kids, p.list, null, p) && Linked(s.rest, p.next, null, p.parent)
    decreases Count(kids), 3
  {
    Allocated(rest, p.next, null, p.parent);
    var base := Base(p, Attr(p.dep, p.vis));
    ghost var below := InheritAll(base, kids, modules);
    InheritChildren(p, base, modules, kids);
    FinAllKeepsOrder(below, modules);
    hide Linked; hide InheritAll; hide FinAll; hide Flatten; hide NoDup;
    ghost var t := FinalizeChildren(p, modules, below);
    FlattenChildren(p, t.kids);
    s := Split(Flatten(t.kids), rest, [p] + t.log);
  }

  /** The loop over the children, some of which take in siblings that follow them. */
  method FinalizeChildren(p: Menu, modules: Symbol, ghost f: Forest) returns (ghost s: Split)
    requires Linked(f, p.list, null, p) && NoDup([p] + Pre(f))
    modifies Nodes(f)
    ensures s == FinAll(f, modules) && Linked(s.kids, p.list, null, p)
    decreases Count(f), 2
  {
    NoDupCat([p], Pre(f));
    assert p in [p];
    NilLinked(p.list, p);
    AppendBefore(f);
    AppendBefore(FinAll(f, modules).kids);
    var menu := p.list;
    ghost var done, todo, log := Nil, f, [];
    hide Linked; hide FinAll; hide Append; hide Pre; hide NoDup; hide Count;
    while menu != null
      invariant Linked(done, p.list, menu, p) && Linked(todo, menu, null, p)
      invariant Pre(done) + Pre(todo) == Pre(f) && Count(todo) <= Count(f)
      invariant Append(done, FinAll(todo, modules).kids) == FinAll(f, modules).kids
      invariant log + FinAll(todo, modules).log == FinAll(f, modules).log
      decreases Count(todo)
    {
      Head(todo, menu, p);
      Inside(done, todo, f);
      ghost var t := FinalizeAt(menu, modules, p.list, p, p, done, todo);
      Join(done, menu, todo.attr, t.kids, p.list, p);
      FinAllStep(done, todo, modules);
      Assoc3(log, t.log, FinAll(t.rest, modules).log);
      done, todo, log := Append(done, One(menu, todo.attr, t.kids)), t.rest, log + t.log;
      menu := menu.next;
    }
    End(todo, p);
    FinAllEnd(modules);
    AppendNil(done);
    s := Split(done, Nil, log);
  }

  lemma Assoc3<T>(a: seq<T>, b: seq<T>, c: seq<T>)
    ensures a + b + c == a + (b + c)
  {}

  lemma Rearrange<T>(d: seq<T>, n: seq<T>, a: seq<T>, b: seq<T>, k: seq<T>, r: seq<T>)
    requires a + b == k + r
    ensures d + (n + a) + b == d + (n + k + r)
  {
    assert d + (n + a) + b == d + (n + (a + b));
    assert n + k + r == n + (k + r);
  }

  lemma FinAllEnd(modules: Symbol)
    ensures FinAll(Nil, modules) == Split(Nil, Nil, [])
  {}

  lemma FinAllStep(done: Forest, todo: Forest, modules: Symbol)
    requires todo.Cons?
    ensures var s := Fin(todo.node, todo.attr, todo.kids, todo.rest, modules);
            && Append(Append(done, One(todo.node, todo.attr, s.kids)), FinAll(s.rest, modules).kids)
            == Append(done, FinAll(todo, modules).kids)
            && Pre(Append(done, One(todo.node, todo.attr, s.kids))) + Pre(s.rest) == Pre(done) + Pre(todo)
            && FinAll(todo, modules).log == s.log + FinAll(s.rest, modules).log
            && Count(s.rest) < Count(todo)
  {
    var n, a, k, r := todo.node, todo.attr, todo.kids, todo.rest;
    var s := Fin(n, a, k, r, modules);
    Advance(done, n, a, s.kids, FinAll(s.rest, modules).kids);
    FinKeepsOrder(n, a, k, r, modules);
    hide Fin; hide Append;
    assert Pre(todo) == [n] + Pre(k) + Pre(r);
    hide Pre;
    Rearrange(Pre(done), [n], Pre(s.kids), Pre(s.rest), Pre(k), Pre(r));
  }

  /** One node of a chain is finalised where it stands; the chain before it is left alone. */
  method FinalizeAt(menu: Menu, modules: Symbol, ghost first: Menu?, ghost owner: Menu?, ghost par: Menu?,
                    ghost done: Forest, ghost todo: Forest)
    returns (ghost s: Split)
    requires Linked(done, first, menu, owner) && Linked(todo, menu, null, par)
    requires todo.Cons? && NoDup(Pre(done) + Pre(todo))
    modifies Nodes(todo)
    ensures todo.node == menu && s == Fin(menu, todo.attr, todo.kids, todo.rest, modules)
    ensures menu.parent == par && menu.dep == todo.attr.dep && menu.vis == todo.attr.vis
    ensures Linked(done, first, menu, owner)
    ensures Linked(s.kids, menu.list, null, menu) && Linked(s.rest, menu.next, null, par)
    decreases Count(todo), 1
  {
    assert Count(todo) == 1 + Count(todo.kids) + Count(todo.rest);
    hide Linked; hide Pre; hide NoDup; hide Count; hide Fin;
    Head(todo, menu, par);
    Apart(done, todo);
    KidsIn(todo);
    Allocated(done, first, menu, owner);
    s := Finalize(menu, modules, todo.attr, todo.kids, todo.rest);
  }

  /** The case of a symbol without children: the siblings that depend on it become its
      submenu, each finalised on the way. */
  method FinalizeSymbol(p: Menu, sym: Symbol, modules: Symbol, ghost a: Attr, ghost rest: Forest)
    returns (ghost s: Split)
    requires p.list == null && p.sym == Some(sym) && Linked(rest, p.next, null, p.parent)
    requires p.dep == a.dep && p.vis == a.vis && NoDup([p] + Pre(rest))
    modifies p`next, p`list, Nodes(rest)
    ensures s == Fin(p, a, Nil, rest, modules)
    ensures Linked(s.kids, p.list, null, p) && Linked(s.rest, p.next, null, p.parent)
    decreases Count(rest), 4
  {
    assert Fin(p, a, Nil, rest, modules) == var t := Absorb(p, a, sym, rest, modules); Split(Flatten(t.kids), t.rest, [p] + t.log);
    hide Linked; hide Absorb; hide Flatten; hide NoDup; hide Pre; hide Fin; hide Nodes;
    ghost var t := AbsorbSiblings(p, sym, modules, a, rest);
    AbsorbedSides(p, a, sym, rest, modules, t);
    Allocated(t.rest, p.next, null, p.parent);
    FlattenChildren(p, t.kids);
    s := Split(Flatten(t.kids), t.rest, [p] + t.log);
  }

  lemma AbsorbedSides(p: Menu, a: Attr, sym: Symbol, rest: Forest, modules: Symbol, t: Split)
    requires t == Absorb(p, a, sym, rest, modules) && NoDup([p] + Pre(rest))
    ensures NoDup([p] + Pre(t.kids)) && p !in Nodes(t.kids) && p !in Nodes(t.rest) && Nodes(t.kids) !! Nodes(t.rest)
    ensures Nodes(t.kids) <= Nodes(rest)
  {
    AbsorbKeepsOrder(p, a, sym, rest, modules);
    hide Absorb; hide Pre; hide NoDup;
    assert [p] + Pre(t.kids) + Pre(t.rest) == [p] + (Pre(t.kids) + Pre(t.rest));
    Sides(p, t.kids, t.rest);
    Within(t.kids, t.rest, rest);
  }

  lemma Within(f: Forest, g: Forest, all: Forest)
    requires Pre(f) + Pre(g) == Pre(all)
    ensures Nodes(f) <= Nodes(all)
  {
    forall n | n in Nodes(f) ensures n in Nodes(all) {
      var i :| 0 <= i < |Pre(f)| && Pre(f)[i] == n;
      assert (Pre(f) + Pre(g))[i] == n;
    }
  }

  // ----- automatic submenus -----

  /** One sibling is finalised and gets p as its parent. */
  method AbsorbOne(p: Menu, menu: Menu, modules: Symbol, ghost par: Menu?, ghost taken: Forest, ghost todo: Forest)
    returns (ghost s: Split)
    requires Linked(taken, p.next, menu, p) && Linked(todo, menu, null, par)
    requires todo.Cons? && NoDup(Pre(taken) + Pre(todo)) && p !in Nodes(todo)
    modifies Nodes(todo)
    ensures todo.node == menu && s == Fin(menu, todo.attr, todo.kids, todo.rest, modules)
    ensures Taken(taken, One(menu, todo.attr, s.kids), p.next, menu, menu.next, p)
    ensures Linked(Append(taken, One(menu, todo.attr, s.kids)), p.next, menu.next, p)
    ensures Linked(s.rest, menu.next, null, par)
    decreases Count(todo), 2
  {
    hide Linked; hide Pre; hide NoDup; hide Fin; hide Append; hide Taken; hide Nodes; hide Count;
    Head(todo, menu, par);
    KidsIn(todo);
    s := FinalizeAt(menu, modules, p.next, p, par, taken, todo);
    FinKeepsOrder(menu, todo.attr, todo.kids, todo.rest, modules);
    StillApart(taken, todo, s);
    menu.parent := p;
    TakenIs(taken, One(menu, todo.attr, s.kids), p.next, menu, p);
    Join(taken, menu, todo.attr, s.kids, p.next, p);
  }

  /** The nodes that follow are the nodes that were there, in another arrangement. */
  lemma StillApart(done: Forest, todo: Forest, s: Split)
    requires todo.Cons? && NoDup(Pre(done) + Pre(todo))
    requires Pre(s.kids) + Pre(s.rest) == Pre(todo.kids) + Pre(todo.rest)
    ensures todo.node !in Nodes(done) && todo.node !in Nodes(s.kids) && todo.node !in Nodes(s.rest)
  {
    Apart(done, todo);
    assert forall n :: n in Pre(s.kids) ==> n in Pre(s.kids) + Pre(s.rest);
    assert forall n :: n in Pre(s.rest) ==> n in Pre(s.kids) + Pre(s.rest);
  }

  lemma AbsorbStep(p: Menu, a: Attr, sym: Symbol, taken: Forest, todo: Forest, modules: Symbol)
    requires todo.Cons? && Belongs(p, a, sym, todo.node, todo.attr)
    ensures var s := Fin(todo.node, todo.attr, todo.kids, todo.rest, modules);
            var t := Absorb(p, a, sym, s.rest, modules);
            var all := Absorb(p, a, sym, todo, modules);
            (&& Append(Append(taken, One(todo.node, todo.attr, s.kids)), t.kids) == Append(taken, all.kids)
             && t.rest == all.rest && s.log + t.log == all.log
             && Pre(Append(taken, One(todo.node, todo.attr, s.kids))) + Pre(s.rest) == Pre(taken) + Pre(todo)
             && Count(s.rest) < Count(todo))
  {
    hide Belongs;
    var n, b, k, r := todo.node, todo.attr, todo.kids, todo.rest;
    var s := Fin(n, b, k, r, modules);
    Advance(taken, n, b, s.kids, Absorb(p, a, sym, s.rest, modules).kids);
    FinKeepsOrder(n, b, k, r, modules);
    hide Fin; hide Append;
    assert Pre(todo) == [n] + Pre(k) + Pre(r);
    hide Pre;
    Rearrange(Pre(taken), [n], Pre(s.kids), Pre(s.rest), Pre(k), Pre(r));
  }

  /** How far the loop over the siblings has come: what it still has to do, added to
      what it has done, is what Absorb says of all of them. */
  ghost predicate Along(p: Menu, a: Attr, sym: Symbol, modules: Symbol, rest: Forest, s: Split) {
    var now, all := Absorb(p, a, sym, s.rest, modules), Absorb(p, a, sym, rest, modules);
    && Pre(s.kids) + Pre(s.rest) == Pre(rest) && Count(s.rest) <= Count(rest)
    && Append(s.kids, now.kids) == all.kids && now.rest == all.rest && s.log + now.log == all.log
  }

  lemma AlongStarts(p: Menu, a: Attr, sym: Symbol, modules: Symbol, rest: Forest)
    ensures Along(p, a, sym, modules, rest, Split(Nil, rest, []))
  {
    AppendBefore(rest);
    AppendBefore(Absorb(p, a, sym, rest, modules).kids);
  }

  lemma AlongGoes(p: Menu, a: Attr, sym: Symbol, modules: Symbol, rest: Forest, s: Split, t: Split)
    requires Along(p, a, sym, modules, rest, s) && s.rest.Cons?
    requires Belongs(p, a, sym, s.rest.node, s.rest.attr)
    requires t == Fin(s.rest.node, s.rest.attr, s.rest.kids, s.rest.rest, modules)
    ensures Along(p, a, sym, modules, rest,
                  Split(Append(s.kids, One(s.rest.node, s.rest.attr, t.kids)), t.rest, s.log + t.log))
    ensures Count(t.rest) < Count(s.rest)
  {
    AbsorbStep(p, a, sym, s.kids, s.rest, modules);
    Assoc3(s.log, t.log, Absorb(p, a, sym, t.rest, modules).log);
    hide Absorb; hide Fin; hide Append; hide Pre; hide Count; hide Belongs;
  }

  /** The submenu stops at the end of the chain, or at a sibling that does not belong. */
  lemma AlongEnds(p: Menu, a: Attr, sym: Symbol, modules: Symbol, rest: Forest, s: Split)
    requires Along(p, a, sym, modules, rest, s)
    requires s.rest.Cons? ==> !Belongs(p, a, sym, s.rest.node, s.rest.attr)
    ensures s == Absorb(p, a, sym, rest, modules)
  {
    AppendNil(s.kids);
  }

  /** The chain taken so far, seen from its last node. */
  ghost predicate Taken(before: Forest, end: Forest, first: Menu?, last: Menu, menu: Menu?, p: Menu)
    reads Nodes(before), Nodes(end), last
  {
    && end.Cons? && end.node == last && end.rest == Nil
    && Linked(before, first, last, p)
    && last.next == menu && last.parent == p && last.dep == end.attr.dep && last.vis == end.attr.vis
    && Linked(end.kids, last.list, null, last)
  }

  /** The loop that looks at the siblings after a symbol, and the relinking after it. */
  method AbsorbSiblings(p: Menu, sym: Symbol, modules: Symbol, ghost a: Attr, ghost rest: Forest)
    returns (ghost s: Split)
    requires p.list == null && Linked(rest, p.next, null, p.parent)
    requires p.dep == a.dep && p.vis == a.vis && NoDup([p] + Pre(rest))
    modifies p`next, p`list, Nodes(rest)
    ensures s == Absorb(p, a, sym, rest, modules)
    ensures Linked(s.kids, p.list, null, p) && Linked(s.rest, p.next, null, p.parent)
    decreases Count(rest), 3
  {
    NoDupCat([p], Pre(rest));
    assert p in [p];
    NilLinked(p.next, p);
    AlongStarts(p, a, sym, modules, rest);
    var menu := p.next;
    var last: Menu? := null;
    s := Split(Nil, rest, []);
    ghost var before, end := Nil, Nil;
    hide Linked; hide Absorb; hide Append; hide Pre; hide NoDup; hide Count; hide Belongs; hide Taken; hide Along;
    while menu != null
      invariant p.next == old(p.next) && p.list == null && p.dep == a.dep && p.vis == a.vis
      invariant Linked(s.kids, p.next, menu, p) && Linked(s.rest, menu, null, p.parent)
      invariant Along(p, a, sym, modules, rest, s)
      invariant last == null ==> s.kids == Nil
      invariant last != null ==> Append(before, end) == s.kids && Taken(before, end, p.next, last, menu, p)
      decreases Count(s.rest)
    {
      Head(s.rest, menu, p.parent);
      AlongInside(p, a, sym, modules, rest, s);
      if !Belongs(p, Attr(p.dep, p.vis), sym, menu, Attr(menu.dep, menu.vis)) {
        break;
      }
      ghost var t := AbsorbOne(p, menu, modules, p.parent, s.kids, s.rest);
      AlongGoes(p, a, sym, modules, rest, s, t);
      before, end := s.kids, One(menu, s.rest.attr, t.kids);
      s := Split(Append(before, end), t.rest, s.log + t.log);
      last := menu;
      menu := menu.next;
    }
    AtEnd(s.rest, menu, p.parent);
    AlongInside(p, a, sym, modules, rest, s);
    AlongEnds(p, a, sym, modules, rest, s);
    if last != null {
      LastInside(before, end, p.next, last, menu, p);
      hide Nodes;
      Relink(p, last, menu, before, end, s.rest, rest);
    } else {
      Bare(p);
      EmptyTaken(s.kids, p.next, menu, p);
    }
  }

  lemma LastInside(before: Forest, end: Forest, first: Menu?, last: Menu, menu: Menu?, p: Menu)
    requires Taken(before, end, first, last, menu, p)
    ensures last in Nodes(Append(before, end))
  {
    hide Linked;
    PreAppend(before, end);
    assert last in Pre(end);
  }

  lemma AlongInside(p: Menu, a: Attr, sym: Symbol, modules: Symbol, rest: Forest, s: Split)
    requires Along(p, a, sym, modules, rest, s)
    ensures Nodes(s.kids) <= Nodes(rest) && Nodes(s.rest) <= Nodes(rest) && Count(s.rest) <= Count(rest)
    ensures Pre(s.kids) + Pre(s.rest) == Pre(rest)
  {
    hide Pre; hide Absorb; hide Append;
    forall n | n in Nodes(s.kids) + Nodes(s.rest) ensures n in Nodes(rest) {
      assert n in Pre(s.kids) + Pre(s.rest);
    }
  }

  lemma AtEnd(todo: Forest, menu: Menu?, par: Menu?)
    requires Linked(todo, menu, null, par)
    ensures menu == null ==> todo == Nil
  {}

  lemma EmptyTaken(taken: Forest, first: Menu?, menu: Menu?, par: Menu?)
    requires Linked(taken, first, menu, par) && taken == Nil
    ensures first == menu
  {}

  lemma TakenIs(taken: Forest, end: Forest, first: Menu?, menu: Menu, p: Menu)
    requires end.Cons? && end.rest == Nil && end.node == menu && Linked(taken, first, menu, p)
    requires menu.parent == p && menu.dep == end.attr.dep && menu.vis == end.attr.vis
    requires Linked(end.kids, menu.list, null, menu)
    ensures Taken(taken, end, first, menu, menu.next, p)
  {}

  lemma RelinkApart(p: Menu, before: Forest, end: Forest, todo: Forest, rest: Forest)
    requires end.Cons? && Pre(Append(before, end)) + Pre(todo) == Pre(rest) && NoDup([p] + Pre(rest))
    ensures p !in Nodes(before) && p !in Nodes(end.kids) && p !in Nodes(todo) && p != end.node
    ensures end.node !in Nodes(before) && end.node !in Nodes(end.kids) && end.node !in Nodes(todo)
  {
    hide NoDup; hide Append;
    PreAppend(before, end);
    NoDupCat([p], Pre(rest));
    NoDupCat(Pre(before) + Pre(end), Pre(todo));
    Apart(before, end);
    assert p in [p] && end.node in Pre(end);
    assert forall n :: n in Pre(end.kids) ==> n in Pre(end);
    hide Pre;
    assert forall n :: n in Pre(before) || n in Pre(end) ==> n in Pre(before) + Pre(end);
    assert forall n :: n in Pre(before) + Pre(end) || n in Pre(todo) ==> n in Pre(rest);
  }

  /** The three assignments that make the siblings taken the list of p. */
  method Relink(p: Menu, last: Menu, ghost menu: Menu?, ghost before: Forest, ghost end: Forest, ghost todo: Forest,
                ghost rest: Forest)
    requires Taken(before, end, p.next, last, menu, p) && Linked(todo, menu, null, p.parent)
    requires Pre(Append(before, end)) + Pre(todo) == Pre(rest) && NoDup([p] + Pre(rest))
    modifies p`next, p`list, last`next
    ensures Linked(Append(before, end), p.list, null, p) && Linked(todo, p.next, null, p.parent)
  {
    hide Pre; hide Linked; hide NoDup; hide Append; hide Nodes;
    RelinkApart(p, before, end, todo, rest);
    p.list := p.next;
    p.next := last.next;
    last.next := null;
    Join(before, last, end.attr, end.kids, p.list, p);
  }

  /** The whole tree, from the root: in place, the same nodes in the same preorder, each
      finalised once and with the expressions it inherits, each in the list of its
      parent, and no list below a node without a prompt text. */
  method FinalizeRoot(root: Menu, modules: Symbol, ghost kids: Forest) returns (ghost out: Forest, ghost log: seq<Menu>)
    requires root.next == null && Linked(kids, root.list, null, root) && NoDup([root] + Pre(kids))
    modifies root`next, root`list, Nodes(kids)
    ensures root.next == null && Linked(out, root.list, null, root)
    ensures Pre(out) == Pre(kids) && log == [root] + Pre(kids)
    ensures Items(out) == Items(Settle(Base(root, Attr(root.dep, root.vis)), kids, modules))
    ensures Flat(out)
  {
    hide *;
    ghost var a := Attr(root.dep, root.vis);
    NoRest(root, kids);
    ghost var s := Finalize(root, modules, a, kids, Nil);
    FinalizeTree(root, a, kids, modules);
    End2(root.next, root.parent);
    out, log := s.kids, s.log;
  }

  lemma NoRest(root: Menu, kids: Forest)
    requires root.next == null && NoDup([root] + Pre(kids))
    ensures NoDup([root] + Pre(kids) + Pre(Nil)) && Nodes(Nil) == {}
    ensures Linked(Nil, root.next, null, root.parent) && root !in Nodes(kids)
  {
    NoDupCat([root], Pre(kids));
    assert root in [root];
    assert [root] + Pre(kids) + Pre(Nil) == [root] + Pre(kids);
  }

  lemma End2(first: Menu?, par: Menu?)
    requires Linked(Nil, first, null, par)
    ensures first == null
  {}
}
