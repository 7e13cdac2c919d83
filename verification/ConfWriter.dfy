/** conf_write: a walk over the menu tree that keeps no stack, and what it prints. */
module ConfWriter {
  import opened Wrappers
  import opened Exprs
  import opened MenuTree
  import opened MenuFinalize
  import opened Conf
  import opened TextLines

  // ----- where the walk stands -----

  /** The chains that wait above the current one: the siblings after each owner, up to
      the root. */
  datatype Pending = Top | Up(owner: Menu, rest: Forest, above: Pending)

  /** owner heads the list the walk is in; climbing from it meets the waiting chains. */
  ghost predicate Waiting(w: Pending, owner: Menu?)
    reads Owners(w), AllRest(w)
    decreases w
  {
    match w
    case Top => owner == null
    case Up(o, rest, above) =>
      owner == o && Linked(rest, o.next, null, o.parent) && Waiting(above, o.parent)
  }

  ghost function Owners(w: Pending): set<Menu> {
    match w
    case Top => {}
    case Up(o, _, above) => {o} + Owners(above)
  }

  ghost function AllRest(w: Pending): set<Menu> {
    match w
    case Top => {}
    case Up(_, rest, above) => Nodes(rest) + AllRest(above)
  }

  ghost function Owner(w: Pending): Menu? { if w.Up? then w.owner else null }

  ghost function After(w: Pending): seq<Menu> {
    match w
    case Top => []
    case Up(_, rest, above) => Pre(rest) + After(above)
  }

  ghost function Left(w: Pending): nat {
    match w
    case Top => 0
    case Up(_, rest, above) => Count(rest) + Left(above)
  }

  // ----- what is printed -----

  /** What the walk needs to know of the evaluator: which menus are visible, their titles,
      and the values of symbols. */
  datatype View = View(visible: Menu -> bool, title: Menu -> string, value: Symbol -> string)

  /** The output for one node, given the symbols still flagged for writing. */
  function Output1(m: Menu, flagged: set<Symbol>, v: View): seq<Output> {
    if m.sym.None? then (if v.visible(m) then [Title(v.title(m))] else [])
    else if m.isChoice || m.sym.value !in flagged then []
    else [Setting(m.sym.value.name, m.sym.value.typ, v.value(m.sym.value))]
  }

  function Flagged(m: Menu, flagged: set<Symbol>): set<Symbol> {
    if m.sym.Some? && !m.isChoice then flagged - {m.sym.value} else flagged
  }

  function Emit(ms: seq<Menu>, flagged: set<Symbol>, v: View): seq<Output> {
    if ms == [] then [] else Output1(ms[0], flagged, v) + Emit(ms[1..], Flagged(ms[0], flagged), v)
  }

  function StillFlagged(ms: seq<Menu>, flagged: set<Symbol>): set<Symbol> {
    if ms == [] then flagged else StillFlagged(ms[1..], Flagged(ms[0], flagged))
  }

  lemma {:induction false} EmitCat(a: seq<Menu>, b: seq<Menu>, flagged: set<Symbol>, v: View)
    ensures Emit(a + b, flagged, v) == Emit(a, flagged, v) + Emit(b, StillFlagged(a, flagged), v)
    ensures StillFlagged(a + b, flagged) == StillFlagged(b, StillFlagged(a, flagged))
  {
    if a == [] {
      assert a + b == b;
    } else {
      assert (a + b)[1..] == a[1..] + b;
      EmitCat(a[1..], b, Flagged(a[0], flagged), v);
      hide Output1; hide Flagged;
      var f := Flagged(a[0], flagged);
      assert Output1(a[0], flagged, v) + (Emit(a[1..], f, v) + Emit(b, StillFlagged(a, flagged), v))
          == Output1(a[0], flagged, v) + Emit(a[1..], f, v) + Emit(b, StillFlagged(a, flagged), v);
    }
  }

  lemma EmitOne(m: Menu, flagged: set<Symbol>, v: View)
    ensures Emit([m], flagged, v) == Output1(m, flagged, v) && StillFlagged([m], flagged) == Flagged(m, flagged)
  {
    assert [m][1..] == [];
  }

  /** The output after one more node. */
  lemma EmitNext(visited: seq<Menu>, m: Menu, flags: set<Symbol>, v: View)
    ensures var f := StillFlagged(visited, flags);
            && Emit(visited + [m], flags, v) == Emit(visited, flags, v) + Output1(m, f, v)
            && StillFlagged(visited + [m], flags) == Flagged(m, f)
  {
    EmitCat(visited, [m], flags, v);
    EmitOne(m, StillFlagged(visited, flags), v);
  }

  // ----- the walk -----

  /** From the end of a list, up to the next chain that still has nodes. */
  method Climb(from: Menu, ghost w: Pending) returns (menu: Menu?, ghost todo: Forest, ghost above: Pending)
    requires Waiting(w, from.parent)
    ensures Linked(todo, menu, null, Owner(above)) && Waiting(above, Owner(above))
    ensures Pre(todo) + After(above) == After(w) && Count(todo) + Left(above) <= Left(w)
    ensures menu == null ==> After(above) == []
  {
    menu := from.parent;
    above := w;
    todo := Nil;
    while menu != null
      invariant Waiting(above, menu) && After(above) == After(w) && Left(above) <= Left(w)
      decreases above
    {
      ghost var rest := above.rest;
      if menu.next != null {
        todo := rest;
        menu := menu.next;
        above := above.above;
        return;
      }
      assert rest == Nil;
      menu := menu.parent;
      above := above.above;
    }
  }

  /** The step of the walk: down, or to the next sibling, or up. */
  method Next(from: Menu, ghost todo: Forest, ghost w: Pending) returns (menu: Menu?, ghost todo': Forest, ghost w': Pending)
    requires Linked(todo, from, null, Owner(w)) && Waiting(w, Owner(w))
    ensures Linked(todo', menu, null, Owner(w')) && Waiting(w', Owner(w'))
    ensures menu == null ==> todo' == Nil && After(w') == []
    ensures Pre(todo) + After(w) == [from] + (Pre(todo') + After(w'))
    ensures Count(todo') + Left(w') < Count(todo) + Left(w)
  {
    if from.list != null {
      menu := from.list;
      todo', w' := todo.kids, Up(from, todo.rest, w);
    } else if from.next != null {
      menu := from.next;
      todo', w' := todo.rest, w;
    } else {
      menu, todo', w' := Climb(from, w);
    }
  }

  /** conf_write: every node below the root is visited once, in preorder, with no stack
      but the parent links, and each flagged symbol is printed at its first node. */
  method ConfWrite(root: Menu, flags: set<Symbol>, v: View, ghost kids: Forest)
    returns (out: seq<Output>, flagged: set<Symbol>, ghost visited: seq<Menu>)
    requires root.next == null && root.parent == null && Linked(kids, root.list, null, root)
    ensures visited == Pre(kids)
    ensures out == Emit(Pre(kids), flags, v) && flagged == StillFlagged(Pre(kids), flags)
  {
    var menu := root.list;
    out, flagged, visited := [], flags, [];
    ghost var todo, w := kids, Up(root, Nil, Top);
    Empty(kids, root.list, root);
    Start(root);
    assert [] + (Pre(kids) + []) == Pre(kids);
    EmitNone(flags, v);
    hide *;
    while menu != null
      invariant Linked(todo, menu, null, Owner(w)) && Waiting(w, Owner(w))
      invariant menu == null ==> todo == Nil && After(w) == []
      invariant visited + (Pre(todo) + After(w)) == Pre(kids)
      invariant out == Emit(visited, flags, v) && flagged == StillFlagged(visited, flags)
      decreases Count(todo) + Left(w)
    {
      EmitNext(visited, menu, flags, v);
      ghost var seen := visited;
      visited := visited + [menu];
      out, flagged := out + Output1(menu, flagged, v), Flagged(menu, flagged);
      menu, todo, w := Next(menu, todo, w);
      Assoc3(seen, [visited[|seen|]], Pre(todo) + After(w));
    }
    EmitNone(flags, v);
  }

  lemma Start(root: Menu)
    requires root.next == null && root.parent == null
    ensures Waiting(Up(root, Nil, Top), root) && After(Up(root, Nil, Top)) == []
  {
    assert After(Top) == [] && Pre(Nil) == [];
  }

  lemma EmitNone(flags: set<Symbol>, v: View)
    ensures Emit([], flags, v) == [] && StillFlagged([], flags) == flags && Pre(Nil) == []
  {}

  // ----- what the file holds -----

  /** Some menu node below the root stands for the symbol. */
  predicate InMenu(ms: seq<Menu>, s: Symbol) {
    exists m :: m in ms && m.sym == Some(s) && !m.isChoice
  }

  predicate NamesDiffer(flags: set<Symbol>) {
    forall s, t :: s in flags && t in flags && s.name == t.name ==> s == t
  }

  function SettingOf(s: Symbol, v: View): Output { Setting(s.name, s.typ, v.value(s)) }

  /** Every setting printed is that of a flagged symbol, and each flagged symbol in the
      menu is printed. */
  lemma {:induction false} EmitExactly(ms: seq<Menu>, flags: set<Symbol>, v: View)
    ensures forall o :: o in Emit(ms, flags, v) ==>
      (o.Title? && exists m :: m in ms && m.sym.None? && o == Title(v.title(m)))
      || exists s :: s in flags && o == SettingOf(s, v) && InMenu(ms, s)
    ensures forall s :: s in flags && InMenu(ms, s) ==> SettingOf(s, v) in Emit(ms, flags, v)
  {
    if ms != [] {
      var m, rest, f := ms[0], ms[1..], Flagged(ms[0], flags);
      assert m in ms && forall x :: x in rest ==> x in ms;
      EmitExactly(rest, f, v);
      var out := Emit(ms, flags, v);
      assert out == Output1(m, flags, v) + Emit(rest, f, v);
      forall o | o in out
        ensures (o.Title? && exists m :: m in ms && m.sym.None? && o == Title(v.title(m)))
             || exists s :: s in flags && o == SettingOf(s, v) && InMenu(ms, s)
      {
        if o in Output1(m, flags, v) {
          if o.Setting? { assert o == SettingOf(m.sym.value, v) && InMenu(ms, m.sym.value); }
        } else {
          assert o in Emit(rest, f, v);
          if o.Setting? {
            var s :| s in f && o == SettingOf(s, v) && InMenu(rest, s);
            assert InMenu(ms, s);
          }
        }
      }
      forall s | s in flags && InMenu(ms, s) ensures SettingOf(s, v) in out {
        var x :| x in ms && x.sym == Some(s) && !x.isChoice;
        assert ms == [m] + rest;
        if x != m {
          assert InMenu(rest, s);
        }
        if s in f {
          if x == m { assert false; }
          assert SettingOf(s, v) in Emit(rest, f, v);
        } else {
          assert SettingOf(s, v) in Output1(m, flags, v);
        }
      }
    }
  }

  /** Each flagged symbol is printed once, though several menu nodes may stand for it. */
  lemma {:induction false} EmitDistinct(ms: seq<Menu>, flags: set<Symbol>, v: View)
    requires NamesDiffer(flags)
    ensures Distinct(Emit(ms, flags, v))
  {
    if ms != [] {
      var f := Flagged(ms[0], flags);
      EmitDistinct(ms[1..], f, v);
      EmitExactly(ms[1..], f, v);
      var head, tail := Output1(ms[0], flags, v), Emit(ms[1..], f, v);
      assert |head| <= 1;
      if head != [] && head[0].Setting? {
        assert forall o :: o in tail && o.Setting? ==> o.name != head[0].name;
      }
      PrependDistinct(head, tail);
    }
  }

  lemma PrependDistinct(head: seq<Output>, tail: seq<Output>)
    requires |head| <= 1 && Distinct(tail)
    requires head != [] && head[0].Setting? ==> forall o :: o in tail && o.Setting? ==> o.name != head[0].name
    ensures Distinct(head + tail)
  {
    if head != [] {
      var os := head + tail;
      assert os[0] == head[0] && forall i :: 0 < i < |os| ==> os[i] == tail[i - 1] && os[i] in tail;
    } else {
      assert head + tail == tail;
    }
  }

  /** The output of the node at i: a title if it has no symbol and is visible; the setting of
      its symbol if that is flagged and no node before it stands for the symbol; else
      nothing. */
  lemma {:induction false} EmitInOrder(ms: seq<Menu>, flags: set<Symbol>, v: View, i: nat)
    requires i < |ms|
    ensures Emit([], flags, v) == []
    ensures Emit(ms[..i + 1], flags, v) == Emit(ms[..i], flags, v) +
              if ms[i].sym.None? then (if v.visible(ms[i]) then [Title(v.title(ms[i]))] else [])
              else if !ms[i].isChoice && ms[i].sym.value in flags && !InMenu(ms[..i], ms[i].sym.value)
              then [SettingOf(ms[i].sym.value, v)]
              else []
  {
    EmitNext(ms[..i], ms[i], flags, v);
    assert ms[..i] + [ms[i]] == ms[..i + 1];
    if ms[i].sym.Some? {
      FlagLeft(ms[..i], flags, ms[i].sym.value);
    }
    hide InMenu; hide StillFlagged;
  }

  lemma {:induction false} FlagLeft(ms: seq<Menu>, flags: set<Symbol>, s: Symbol)
    ensures s in StillFlagged(ms, flags) <==> s in flags && !InMenu(ms, s)
  {
    if ms != [] {
      FlagLeft(ms[1..], Flagged(ms[0], flags), s);
      assert ms == [ms[0]] + ms[1..];
      if InMenu(ms[1..], s) {
        var m :| m in ms[1..] && m.sym == Some(s) && !m.isChoice;
        assert m in ms;
      }
    }
  }

  /** The reader knows every symbol that may be written, under its name and with its type. */
  ghost predicate Fits(st: Store, ms: seq<Menu>, flags: set<Symbol>, v: View) {
    && NamesDiffer(flags)
    && (forall s :: s in flags && InMenu(ms, s) ==> GoodOutput(st, SettingOf(s, v)))
    && (forall m :: m in ms && m.sym.None? ==> '\n' !in v.title(m) && !LooksUnset(v.title(m)))
  }

  /** Writing the configuration and reading it back: every flagged symbol of the menu has
      the value it was written with as its user value, and every other symbol has none. */
  lemma ConfRoundTrip(st: Store, ms: seq<Menu>, flags: set<Symbol>, v: View)
    requires Fits(st, ms, flags, v)
    ensures var back := ReadAll(Reset(st), Lines(Concat(PrintAll(Emit(ms, flags, v)))));
            && (forall s :: s in flags && InMenu(ms, s) ==>
                  s.name in back.syms && back.syms[s.name] == Holding(Reset(st).syms[s.name], v.value(s)))
            && (forall name :: name in st.syms && (forall s :: s in flags && InMenu(ms, s) ==> s.name != name) ==>
                  name in back.syms && !back.syms[name].has)
  {
    var os := Emit(ms, flags, v);
    EmitExactly(ms, flags, v);
    EmitDistinct(ms, flags, v);
    hide Emit; hide Distinct; hide InMenu; hide ReadAll; hide PrintAll; hide Lines; hide Concat; hide Holding; hide NameLike; hide Printable;
    hide LooksUnset;
    forall o | o in os ensures GoodOutput(st, o) {
      if o.Title? {
        assert exists m :: m in ms && m.sym.None? && o == Title(v.title(m));
      }
    }
    forall s | s in flags && InMenu(ms, s)
      ensures var back := ReadAll(Reset(st), Lines(Concat(PrintAll(os))));
              s.name in back.syms && back.syms[s.name] == Holding(Reset(st).syms[s.name], v.value(s))
    {
      assert GoodOutput(st, SettingOf(s, v));
      FileRoundTrip(st, os, s.name);
      assert SettingOf(s, v) in os;
    }
    forall name | name in st.syms && (forall s :: s in flags && InMenu(ms, s) ==> s.name != name)
      ensures var back := ReadAll(Reset(st), Lines(Concat(PrintAll(os)))); name in back.syms && !back.syms[name].has
    {
      FileRoundTrip(st, os, name);
    }
  }
}
