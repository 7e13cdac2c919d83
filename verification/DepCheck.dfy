/** Detection of recursive dependencies: a depth-first search with two marks per symbol
    that unwinds early after a report. */
module DepCheck {
  import opened Wrappers
  import opened Exprs
  import opened SymTable
  import opened Solutions

  type Graph = map<Symbol, Info>

  predicate Followed(p: Property) { !p.kind.ChoiceLink? && !p.kind.Select? }

  /** The symbols the search visits from one property. */
  function PropSyms(p: Property): set<Symbol> {
    if !Followed(p) then {}
    else OptSyms(p.cond) + if p.kind.Default? then OptSyms(p.value) else {}
  }

  function PropsSyms(props: seq<Property>): set<Symbol> {
    if props == [] then {} else PropSyms(props[0]) + PropsSyms(props[1..])
  }

  /** The symbols that s depends on, as far as the search looks. */
  function Explored(g: Graph, s: Symbol): set<Symbol> {
    if s in g then OptSyms(g[s].revDep) + PropsSyms(g[s].props) else {}
  }

  lemma {:induction false} PropsSymsExactly(props: seq<Property>, t: Symbol)
    ensures t in PropsSyms(props) <==> exists i :: 0 <= i < |props| && t in PropSyms(props[i])
  {
    hide PropSyms;
    if props != [] {
      PropsSymsExactly(props[1..], t);
      if exists i :: 0 <= i < |props| && t in PropSyms(props[i]) {
        var i :| 0 <= i < |props| && t in PropSyms(props[i]);
        assert i == 0 || props[1..][i - 1] == props[i];
      }
      if exists i :: 0 <= i < |props[1..]| && t in PropSyms(props[1..][i]) {
        var i :| 0 <= i < |props[1..]| && t in PropSyms(props[1..][i]);
        assert props[i + 1] == props[1..][i];
      }
    }
  }

  /** What the search follows: the expression of the selects, the condition of every
      property but selects and the link to a choice, and the value of defaults. */
  lemma ExploredExactly(g: Graph, s: Symbol, t: Symbol)
    ensures s !in g ==> t !in Explored(g, s)
    ensures s in g ==>
      (t in Explored(g, s) <==>
         (g[s].revDep.Some? && t in Syms(g[s].revDep.value))
         || exists i :: 0 <= i < |g[s].props| && Reached(g[s].props[i], t))
  {
    if s in g {
      PropsSymsExactly(g[s].props, t);
      forall i | 0 <= i < |g[s].props| ensures t in PropSyms(g[s].props[i]) <==> Reached(g[s].props[i], t) {
      }
      hide PropSyms; hide PropsSyms; hide Reached;
    }
  }

  predicate Reached(p: Property, t: Symbol) {
    match p.kind
    case Select => false
    case ChoiceLink => false
    case Default => (p.cond.Some? && t in Syms(p.cond.value)) || (p.value.Some? && t in Syms(p.value.value))
    case _ => p.cond.Some? && t in Syms(p.cond.value)
  }

  ghost predicate ChoiceFree(g: Graph) {
    forall s :: s in g ==> !g[s].isChoice && g[s].choice.None?
  }

  // ----- paths and cycles -----

  /** Each element depends on the next one. */
  predicate Chain(g: Graph, p: seq<Symbol>) {
    forall i :: 0 <= i < |p| - 1 ==> p[i + 1] in Explored(g, p[i])
  }

  predicate Cycle(g: Graph, p: seq<Symbol>) {
    p != [] && Chain(g, p) && p[0] in Explored(g, p[|p| - 1])
  }

  ghost predicate OnCycle(g: Graph, s: Symbol) {
    exists p :: Cycle(g, p) && p[0] == s
  }

  /** A chain that comes back to one of its elements closes a cycle. */
  lemma ClosesCycle(g: Graph, p: seq<Symbol>, t: Symbol)
    requires p != [] && Chain(g, p) && t in p && t in Explored(g, p[|p| - 1])
    ensures OnCycle(g, t)
  {
    hide Explored;
    var i :| 0 <= i < |p| && p[i] == t;
    var q := p[i..];
    forall j | 0 <= j < |q| - 1 ensures q[j + 1] in Explored(g, q[j]) {
      assert p[i + j + 1] in Explored(g, p[i + j]);
    }
    assert Cycle(g, q) && q[0] == t;
  }

  /** Everything a listed symbol depends on is listed before it. */
  ghost predicate Sorted(g: Graph, order: seq<Symbol>) {
    forall i, t :: 0 <= i < |order| && t in Explored(g, order[i]) ==> t in order[..i]
  }

  ghost predicate Acyclic(g: Graph, rank: Symbol -> nat) {
    forall s, t :: s in g && t in Explored(g, s) ==> rank(t) < rank(s)
  }

  // ----- a sorted list gives ranks, and ranks exclude cycles -----

  function IndexIn(order: seq<Symbol>, s: Symbol): (i: nat)
    ensures s in order ==> i < |order| && order[i] == s && s !in order[..i]
    ensures s !in order ==> i == |order|
  {
    if order == [] || order[0] == s then 0
    else
      var i := IndexIn(order[1..], s);
      assert order[..i + 1] == [order[0]] + order[1..][..i];
      i + 1
  }

  lemma SortedRanks(g: Graph, order: seq<Symbol>, s: Symbol, t: Symbol)
    requires Sorted(g, order) && s in order && t in Explored(g, s)
    ensures IndexIn(order, t) < IndexIn(order, s)
  {
    var i := IndexIn(order, s);
    assert t in order[..i];
    var j :| 0 <= j < i && order[j] == t;
    IndexInFirst(order, t, j);
  }

  lemma {:induction false} IndexInFirst(order: seq<Symbol>, t: Symbol, j: nat)
    requires j < |order| && order[j] == t
    ensures IndexIn(order, t) <= j
  {
    if order[0] != t {
      IndexInFirst(order[1..], t, j - 1);
    }
  }

  lemma SortedAppend(g: Graph, order: seq<Symbol>, s: Symbol)
    requires Sorted(g, order) && forall t :: t in Explored(g, s) ==> t in order
    ensures Sorted(g, order + [s])
  {
    forall i, t | 0 <= i < |order + [s]| && t in Explored(g, (order + [s])[i]) ensures t in (order + [s])[..i] {
      assert (order + [s])[..i] == order[..i];
      if i < |order| {
        assert t in Explored(g, order[i]);
      } else {
        assert order[..i] == order;
      }
    }
  }

  lemma {:induction false} ChainRanks(g: Graph, rank: Symbol -> nat, p: seq<Symbol>)
    requires Acyclic(g, rank) && p != [] && Chain(g, p)
    ensures rank(p[|p| - 1]) <= rank(p[0])
  {
    if |p| > 1 {
      assert p[1] in Explored(g, p[0]);
      forall i | 0 <= i < |p[1..]| - 1 ensures p[1..][i + 1] in Explored(g, p[1..][i]) {
        assert p[i + 2] in Explored(g, p[i + 1]);
      }
      ChainRanks(g, rank, p[1..]);
    }
  }

  lemma AcyclicHasNoCycle(g: Graph, rank: Symbol -> nat)
    requires Acyclic(g, rank)
    ensures forall s :: !OnCycle(g, s)
  {
    forall s ensures !OnCycle(g, s) {
      forall p ensures !(Cycle(g, p) && p[0] == s) {
        RanksBreakCycle(g, rank, p);
      }
    }
  }

  lemma RanksBreakCycle(g: Graph, rank: Symbol -> nat, p: seq<Symbol>)
    requires Acyclic(g, rank)
    ensures !Cycle(g, p)
  {
    if p != [] && Chain(g, p) {
      ChainRanks(g, rank, p);
    }
  }

  // ----- the search -----

  /** Marked symbols are those on the path; every report is on a real cycle; as long as
      nothing was reported, finished symbols are sorted by dependency. */
  ghost predicate InvOf(g: Graph, universe: set<Symbol>, check: set<Symbol>, checked: set<Symbol>,
                        reports: seq<Symbol>, stack: seq<Symbol>, order: seq<Symbol>) {
    && ChoiceFree(g)
    && (forall s, t :: s in universe && t in Explored(g, s) ==> t in universe)
    && check <= checked <= universe
    && check == (set s | s in stack) && Chain(g, stack)
    && (forall r :: r in reports ==> OnCycle(g, r))
    && (reports == [] ==> Sorted(g, order) && checked == check + set s | s in order)
  }

  lemma Push(g: Graph, universe: set<Symbol>, check: set<Symbol>, checked: set<Symbol>,
             reports: seq<Symbol>, stack: seq<Symbol>, order: seq<Symbol>, s: Symbol)
    requires InvOf(g, universe, check, checked, reports, stack, order)
    requires s in universe && (stack != [] ==> s in Explored(g, stack[|stack| - 1]))
    ensures InvOf(g, universe, check + {s}, checked + {s}, reports, stack + [s], order)
  {
    hide Explored; hide Sorted; hide OnCycle;
  }

  lemma Pop(g: Graph, universe: set<Symbol>, check: set<Symbol>, checked: set<Symbol>,
            reports: seq<Symbol>, stack: seq<Symbol>, order: seq<Symbol>, s: Symbol)
    requires InvOf(g, universe, check + {s}, checked, reports, stack + [s], order)
    requires s !in check && check == set t | t in stack
    requires reports == [] ==> forall t :: t in Explored(g, s) ==> t in order
    ensures InvOf(g, universe, check, checked, reports, stack, if reports == [] then order + [s] else order)
  {
    hide Explored; hide OnCycle;
    forall i | 0 <= i < |stack| - 1 ensures stack[i + 1] in Explored(g, stack[i]) {
      assert (stack + [s])[i + 1] in Explored(g, (stack + [s])[i]);
    }
    if reports == [] {
      SortedAppend(g, order, s);
    }
  }

  lemma Report(g: Graph, universe: set<Symbol>, check: set<Symbol>, checked: set<Symbol>,
               reports: seq<Symbol>, stack: seq<Symbol>, order: seq<Symbol>, s: Symbol)
    requires InvOf(g, universe, check, checked, reports, stack, order)
    requires s in check && stack != [] && s in Explored(g, stack[|stack| - 1])
    ensures InvOf(g, universe, check, checked, reports + [s], stack, order)
  {
    hide Explored; hide OnCycle;
    ClosesCycle(g, stack, s);
  }

  /** Every symbol of the relation. */
  function Universe(g: Graph): set<Symbol> {
    g.Keys + set s, t | s in g.Keys && t in Explored(g, s) :: t
  }

  lemma InUniverse(g: Graph, s: Symbol)
    requires s in g
    ensures s in Universe(g)
  {
  }

  lemma Begin(g: Graph)
    requires ChoiceFree(g)
    ensures InvOf(g, Universe(g), {}, {}, [], [], [])
  {
    hide ChoiceFree;
    forall s, t | s in Universe(g) && t in Explored(g, s) ensures t in Universe(g) {
      assert s in g;
    }
    hide Universe; hide Explored;
  }

  /** What a search from every symbol has found: a real cycle, or an order. */
  lemma Verdict(g: Graph, universe: set<Symbol>, checked: set<Symbol>, reports: seq<Symbol>, order: seq<Symbol>)
    requires InvOf(g, universe, {}, checked, reports, [], order)
    requires reports == [] ==> forall s :: s in g ==> s in order
    ensures forall r :: r in reports ==> OnCycle(g, r)
    ensures reports == [] <==> forall s :: !OnCycle(g, s)
    ensures reports == [] <==> exists rank :: Acyclic(g, rank)
  {
    hide Explored; hide OnCycle; hide Acyclic;
    if reports == [] {
      var rank := (s: Symbol) => IndexIn(order, s);
      OrderRanks(g, order, rank);
      AcyclicHasNoCycle(g, rank);
    } else {
      assert OnCycle(g, reports[0]);
      forall rank ensures !Acyclic(g, rank) {
        if Acyclic(g, rank) {
          AcyclicHasNoCycle(g, rank);
        }
      }
    }
  }

  lemma OrderRanks(g: Graph, order: seq<Symbol>, rank: Symbol -> nat)
    requires Sorted(g, order) && (forall s :: s in g ==> s in order) && forall s :: rank(s) == IndexIn(order, s)
    ensures Acyclic(g, rank)
  {
    hide Explored; hide Sorted; hide IndexIn;
    forall s, t | s in g && t in Explored(g, s) ensures rank(t) < rank(s) {
      SortedRanks(g, order, s, t);
    }
  }

  lemma MarksOfPath(g: Graph, universe: set<Symbol>, check: set<Symbol>, checked: set<Symbol>,
                    reports: seq<Symbol>, stack: seq<Symbol>, order: seq<Symbol>, s: Symbol)
    requires InvOf(g, universe, check, checked, reports, stack, order)
    ensures check <= checked <= universe && check == set t | t in stack
    ensures reports == [] && s in checked && s !in check ==> s in order
  {
  }

  class Checker {
    const g: Graph
    /** The symbols on the current path, and all symbols ever visited. */
    var check: set<Symbol>
    var checked: set<Symbol>
    /** The symbols for which a recursive dependency was printed. */
    var reports: seq<Symbol>
    ghost var stack: seq<Symbol>
    ghost var order: seq<Symbol>

    constructor (graph: Graph)
      ensures g == graph && check == {} && checked == {} && reports == [] && stack == [] && order == []
    {
      g := graph;
      check, checked, reports := {}, {}, [];
      stack, order := [], [];
    }

    ghost predicate Inv(universe: set<Symbol>)
      reads this
    {
      InvOf(g, universe, check, checked, reports, stack, order)
    }

    /** What every step of the search keeps. */
    twostate predicate Kept()
      reads this
    {
      && check == old(check) && stack == old(stack) && old(checked) <= checked
      && old(reports) <= reports
      && (reports == [] ==> old(order) <= order)
    }

    method CheckExprDeps(e: Expr, ghost universe: set<Symbol>) returns (r: Option<Symbol>)
      requires Inv(universe) && stack != [] && Syms(e) <= Explored(g, stack[|stack| - 1]) && Syms(e) <= universe
      modifies this
      ensures Inv(universe) && Kept()
      ensures r.Some? ==> reports != []
      ensures reports == [] ==> forall t :: t in Syms(e) ==> t in order
      decreases universe - checked, 1, e
    {
      hide InvOf; hide Explored;
      match e
      case Sym(s) =>
        r := CheckDeps(s, universe);
      case Not(x) =>
        r := CheckExprDeps(x, universe);
      case Cmp(_, left, right) =>
        r := CheckDeps(left, universe);
        if r.None? {
          r := CheckDeps(right, universe);
        }
      case And(x, y) =>
        r := CheckExprDeps(x, universe);
        if r.None? {
          r := CheckExprDeps(y, universe);
        }
      case Or(x, y) =>
        r := CheckExprDeps(x, universe);
        if r.None? {
          r := CheckExprDeps(y, universe);
        }
    }

    method CheckOpt(e: Option<Expr>, ghost universe: set<Symbol>) returns (r: Option<Symbol>)
      requires Inv(universe) && stack != [] && OptSyms(e) <= Explored(g, stack[|stack| - 1]) && OptSyms(e) <= universe
      modifies this
      ensures Inv(universe) && Kept()
      ensures r.Some? ==> reports != []
      ensures reports == [] ==> forall t :: t in OptSyms(e) ==> t in order
      decreases universe - checked, 2
    {
      r := None;
      if e.Some? {
        r := CheckExprDeps(e.value, universe);
      }
    }

    /** The condition of a property, and the value of a default. */
    method CheckProp(p: Property, ghost universe: set<Symbol>) returns (r: Option<Symbol>)
      requires Inv(universe) && stack != [] && PropSyms(p) <= Explored(g, stack[|stack| - 1]) && PropSyms(p) <= universe
      modifies this
      ensures Inv(universe) && Kept()
      ensures r.Some? ==> reports != []
      ensures reports == [] ==> forall t :: t in PropSyms(p) ==> t in order
      decreases universe - checked, 3
    {
      hide InvOf; hide Explored;
      r := None;
      if Followed(p) {
        r := CheckOpt(p.cond, universe);
        if r.Some? {
          return;
        }
        if p.kind.Default? {
          r := CheckOpt(p.value, universe);
        }
      }
    }

    /** Reverse dependencies first, then the conditions and defaults of all properties
        but selects and choice links. */
    method CheckSymDeps(s: Symbol, ghost universe: set<Symbol>) returns (r: Option<Symbol>)
      requires Inv(universe) && stack != [] && stack[|stack| - 1] == s && s in universe
      modifies this
      ensures Inv(universe) && Kept()
      ensures r.Some? ==> reports != []
      ensures reports == [] ==> forall t :: t in Explored(g, s) ==> t in order
      decreases universe - checked, 4
    {
      r := None;
      if s !in g {
        return;
      }
      assert Explored(g, s) <= universe;
      hide InvOf; hide OptSyms; hide PropSyms;
      r := CheckOpt(g[s].revDep, universe);
      if r.Some? {
        return;
      }
      var props := g[s].props;
      var i := 0;
      while i < |props|
        invariant 0 <= i <= |props| && r.None?
        invariant Inv(universe) && Kept()
        invariant reports == [] ==> forall t :: t in OptSyms(g[s].revDep) ==> t in order
        invariant reports == [] ==> forall t :: t in PropsSyms(props) ==> t in order || t in PropsSyms(props[i..])
        invariant PropsSyms(props[i..]) <= Explored(g, s)
        invariant universe - checked <= old(universe - checked)
      {
        assert props[i..][0] == props[i] && props[i..][1..] == props[i + 1..];
        r := CheckProp(props[i], universe);
        if r.Some? {
          return;
        }
        i := i + 1;
      }
      assert props[i..] == [];
    }

    method CheckDeps(s: Symbol, ghost universe: set<Symbol>) returns (r: Option<Symbol>)
      requires Inv(universe) && s in universe
      requires stack != [] ==> s in Explored(g, stack[|stack| - 1])
      modifies this
      ensures Inv(universe) && Kept()
      ensures r.Some? ==> reports != []
      ensures reports == [] ==> s in order
      decreases universe - checked, 0
    {
      hide InvOf; hide Explored;
      MarksOfPath(g, universe, check, checked, reports, stack, order, s);
      if s in check {
        Report(g, universe, check, checked, reports, stack, order, s);
        reports := reports + [s];
        return Some(s);
      }
      if s in checked {
        return None;
      }
      ghost var check0, stack0 := check, stack;
      Push(g, universe, check, checked, reports, stack, order, s);
      check := check + {s};
      checked := checked + {s};
      stack := stack + [s];
      assert s in universe - old(checked) && s !in universe - checked;
      r := CheckSymDeps(s, universe);
      Pop(g, universe, check0, checked, reports, stack0, order, s);
      check := check - {s};
      assert check == check0;
      stack := stack[..|stack| - 1];
      assert stack == stack0;
      if reports == [] {
        order := order + [s];
      }
      if r == Some(s) {
        r := None;
      }
    }

    /** Runs the search from every symbol of the table. */
    method CheckAll(symbols: seq<Symbol>)
      requires check == {} && checked == {} && reports == [] && stack == [] && order == []
      requires ChoiceFree(g) && forall s :: s in symbols <==> s in g
      modifies this
      ensures forall r :: r in reports ==> OnCycle(g, r)
      ensures reports == [] <==> forall s :: !OnCycle(g, s)
      ensures reports == [] <==> exists rank :: Acyclic(g, rank)
    {
      ghost var universe := Universe(g);
      Begin(g);
      var i := 0;
      hide InvOf; hide Explored; hide Universe; hide OnCycle; hide Acyclic; hide ChoiceFree;
      while i < |symbols|
        invariant 0 <= i <= |symbols|
        invariant Inv(universe) && stack == []
        invariant reports == [] ==> forall s :: s in symbols[..i] ==> s in order
      {
        assert symbols[i] in symbols && symbols[i] in g;
        assert symbols[..i + 1] == symbols[..i] + [symbols[i]];
        InUniverse(g, symbols[i]);
        var _ := CheckDeps(symbols[i], universe);
        i := i + 1;
      }
      assert symbols[..i] == symbols;
      Verdict(g, universe, checked, reports, order);
    }
  }

  // ----- a relation without cycles can be ranked -----

  lemma UniverseClosed(g: Graph, s: Symbol, t: Symbol)
    requires t in Explored(g, s)
    ensures s in g && t in Universe(g)
  {
  }

  /** Nothing that s depends on is in the set. */
  ghost predicate Stuck(g: Graph, within: set<Symbol>, s: Symbol) {
    forall t :: t in Explored(g, s) ==> t !in within
  }

  /** A chain that can always go on within a finite set comes back. */
  lemma {:induction false} FindCycle(g: Graph, within: set<Symbol>, p: seq<Symbol>, left: set<Symbol>)
    requires p != [] && Chain(g, p) && (forall s :: s in p ==> s in within)
    requires forall s :: s in within ==> !Stuck(g, within, s)
    requires forall s :: s in within && s !in p ==> s in left
    ensures exists s :: OnCycle(g, s)
    decreases left
  {
    hide Explored; hide OnCycle; hide Chain;
    var last := p[|p| - 1];
    assert last in p && !Stuck(g, within, last);
    var t :| t in Explored(g, last) && t in within;
    if t in p {
      ClosesCycle(g, p, t);
    } else {
      ChainMore(g, p, t);
      FindCycle(g, within, p + [t], left - {t});
    }
  }

  lemma ChainMore(g: Graph, p: seq<Symbol>, t: Symbol)
    requires p != [] && Chain(g, p) && t in Explored(g, p[|p| - 1])
    ensures Chain(g, p + [t])
  {
    hide Explored;
  }

  /** Without cycles, the symbols not yet listed include one that can be listed next. */
  lemma {:induction false} SortRest(g: Graph, order: seq<Symbol>, rest: set<Symbol>) returns (all: seq<Symbol>)
    requires forall s :: !OnCycle(g, s)
    requires Sorted(g, order) && forall s :: s in Universe(g) ==> s in order || s in rest
    ensures Sorted(g, all) && forall s :: s in Universe(g) ==> s in all
    decreases rest
  {
    hide Explored; hide Universe; hide Sorted; hide OnCycle;
    if forall s :: s in Universe(g) ==> s in order {
      all := order;
    } else {
      var within := set s | s in Universe(g) && s !in order;
      var s0 :| s0 in Universe(g) && s0 !in order;
      if exists s :: s in within && Stuck(g, within, s) {
        var s :| s in within && Stuck(g, within, s);
        forall t | t in Explored(g, s) ensures t in order {
          UniverseClosed(g, s, t);
        }
        SortedAppend(g, order, s);
        all := SortRest(g, order + [s], rest - {s});
      } else {
        FindCycle(g, within, [s0], within);
        all := order;
      }
    }
  }

  /** A relation can be ranked if and only if it has no cycle. */
  lemma RankedIfNoCycle(g: Graph)
    ensures (exists rank :: Acyclic(g, rank)) <==> forall s :: !OnCycle(g, s)
  {
    if rank :| Acyclic(g, rank) {
      AcyclicHasNoCycle(g, rank);
    }
    if forall s :: !OnCycle(g, s) {
      var all := SortRest(g, [], Universe(g));
      var rank := (s: Symbol) => IndexIn(all, s);
      forall s, t | s in g && t in Explored(g, s) ensures rank(t) < rank(s) {
        SortedRanks(g, all, s, t);
      }
      assert Acyclic(g, rank);
    }
  }

  // ----- what evaluation reads -----

  /** The symbols evaluation reads for one property: prompts and defaults. */
  function ReadProp(p: Property): set<Symbol> {
    if p.kind.Default? then OptSyms(p.cond) + OptSyms(p.value) else if p.hasText then OptSyms(p.cond) else {}
  }

  function ReadProps(props: seq<Property>): set<Symbol> {
    if props == [] then {} else ReadProp(props[0]) + ReadProps(props[1..])
  }

  /** The symbols evaluation reads for s. */
  function Reads(g: Graph, s: Symbol): set<Symbol> {
    if s in g then OptSyms(g[s].dirDep) + OptSyms(g[s].revDep) + OptSyms(g[s].implied) + ReadProps(g[s].props) else {}
  }

  function Both(a: Option<Expr>, b: Option<Expr>): (r: Option<Expr>)
    ensures OptSyms(r) == OptSyms(a) + OptSyms(b)
  {
    OptAnd(a, b)
  }

  function ReadOnly(props: seq<Property>): (r: seq<Property>)
    ensures PropsSyms(r) == ReadProps(props)
  {
    if props == [] then []
    else if props[0].kind.Default? then [props[0]] + ReadOnly(props[1..])
    else if props[0].hasText then [Property(Prompt, true, props[0].cond, None)] + ReadOnly(props[1..])
    else ReadOnly(props[1..])
  }

  /** The relation of evaluation, as a graph to search. */
  function ReadGraph(g: Graph): (r: Graph)
    ensures forall s :: Explored(r, s) == Reads(g, s)
  {
    map s | s in g :: g[s].(props := ReadOnly(g[s].props), revDep := Both(g[s].dirDep, Both(g[s].revDep, g[s].implied)))
  }

  /** The graph for a search that also follows direct dependencies and implies. */
  function Full(g: Graph): (r: Graph)
    ensures forall s :: s in g ==> Explored(r, s) == Explored(g, s) + OptSyms(g[s].dirDep) + OptSyms(g[s].implied)
  {
    map s | s in g :: g[s].(revDep := Both(g[s].dirDep, Both(g[s].revDep, g[s].implied)))
  }

  /** Every computed symbol that is read has an entry. */
  ghost predicate Entered(g: Graph) {
    forall s, t :: s in g && t in Reads(g, s) && Live(t) ==> t in g
  }

  /** rank decreases along everything that is read and computed. */
  ghost predicate ReadBelow(g: Graph, rank: Symbol -> nat, s: Symbol) {
    forall t :: t in Reads(g, s) && Live(t) ==> t in g && rank(t) < rank(s)
  }

  lemma {:induction false} ReadPropIn(props: seq<Property>, p: Property)
    requires p in props
    ensures ReadProp(p) <= ReadProps(props)
  {
    if props[0] != p {
      ReadPropIn(props[1..], p);
    }
  }

  lemma {:induction false} ReadPropsFrom(props: seq<Property>, t: Symbol)
    requires t in ReadProps(props)
    ensures exists p :: p in props && t in ReadProp(p)
  {
    if t in ReadProp(props[0]) {
      assert props[0] in props;
    } else {
      ReadPropsFrom(props[1..], t);
      var p :| p in props[1..] && t in ReadProp(p);
      assert p in props;
    }
  }

  /** The order that evaluation needs is one in which everything it reads ranks below. */
  lemma RankedExactly(table: Table, u: User, rank: Symbol -> nat)
    requires WellFormed(table, u) && ChoiceFree(table.info)
    ensures Ranked(table, u, rank) <==> forall s :: s in table.info ==> ReadBelow(table.info, rank, s)
  {
    hide WellFormed;
    forall s | s in table.info
      ensures RankedAt(table, u, rank, s) <==> ReadBelow(table.info, rank, s)
    {
      RankedAtExactly(table, u, rank, s);
    }
  }

  lemma RankedAtExactly(table: Table, u: User, rank: Symbol -> nat, s: Symbol)
    requires WellFormed(table, u) && ChoiceFree(table.info) && s in table.info
    ensures RankedAt(table, u, rank, s) <==> ReadBelow(table.info, rank, s)
  {
    hide WellFormed; hide OptSyms; hide Live;
    var i := table.info[s];
    if RankedAt(table, u, rank, s) {
      forall t | t in Reads(table.info, s) && Live(t) ensures t in table.info && rank(t) < rank(s) {
        if t in ReadProps(i.props) {
          ReadPropsFrom(i.props, t);
        }
      }
    }
    if ReadBelow(table.info, rank, s) {
      forall p | p in i.props ensures ReadProp(p) <= Reads(table.info, s) {
        ReadPropIn(i.props, p);
      }
    }
  }

  /** Evaluation can be ordered if and only if all it reads has entries and what it
      reads has no cycle. */
  lemma EvaluationOrderExact(table: Table, u: User)
    requires WellFormed(table, u) && ChoiceFree(table.info)
    ensures (exists rank :: Ranked(table, u, rank))
            <==> Entered(table.info) && forall s :: !OnCycle(ReadGraph(table.info), s)
  {
    var g := table.info;
    hide WellFormed; hide OnCycle; hide Ranked; hide Reads; hide ReadGraph;
    RankedIfNoCycle(ReadGraph(g));
    if rank :| Ranked(table, u, rank) {
      RankedExactly(table, u, rank);
      TableLive(table, u);
      Lifted(g, rank);
    }
    if Entered(g) && forall s :: !OnCycle(ReadGraph(g), s) {
      var rank :| Acyclic(ReadGraph(g), rank);
      forall s | s in g ensures ReadBelow(g, rank, s) {
        ReadDown(g, rank, s);
      }
      RankedExactly(table, u, rank);
    }
  }

  lemma TableLive(table: Table, u: User)
    requires WellFormed(table, u)
    ensures forall s :: s in table.info ==> Live(s)
  {
  }

  lemma ReadDown(g: Graph, rank: Symbol -> nat, s: Symbol)
    requires Entered(g) && Acyclic(ReadGraph(g), rank) && s in g
    ensures ReadBelow(g, rank, s)
  {
    hide Reads;
    forall t | t in Reads(g, s) && Live(t) ensures t in g && rank(t) < rank(s) {
      assert s in ReadGraph(g) && t in Explored(ReadGraph(g), s);
    }
  }

  /** Symbols that are not computed read nothing, so they can rank below all others. */
  lemma Lifted(g: Graph, rank: Symbol -> nat)
    requires forall s :: s in g ==> ReadBelow(g, rank, s) && Live(s)
    ensures Entered(g) && exists r :: Acyclic(ReadGraph(g), r)
  {
    hide Reads;
    var r := (s: Symbol) => if Live(s) then rank(s) + 1 else 0;
    forall s, t | s in ReadGraph(g) && t in Explored(ReadGraph(g), s) ensures r(t) < r(s) {
      assert s in g && t in Reads(g, s);
    }
    assert Acyclic(ReadGraph(g), r);
  }

  /** Then the equations of the table have exactly one solution. */
  lemma NoCycleOneSolution(table: Table, u: User)
    requires WellFormed(table, u) && ChoiceFree(table.info)
    requires Entered(table.info) && forall s :: !OnCycle(ReadGraph(table.info), s)
    ensures exists sol :: Solution(table, u, sol)
    ensures forall a, b, s: Symbol :: Solution(table, u, a) && Solution(table, u, b) ==> a.tri(s) == b.tri(s)
  {
    hide WellFormed; hide OnCycle; hide Ranked; hide Entered; hide Solution;
    EvaluationOrderExact(table, u);
    var rank :| Ranked(table, u, rank);
    ExactlyOneSolution(table, u, rank);
  }

  ghost predicate PromptsFollowed(g: Graph) {
    forall s, p :: s in g && p in g[s].props && p.hasText ==> Followed(p)
  }

  lemma {:induction false} ReadIsFollowed(props: seq<Property>)
    requires forall p :: p in props && p.hasText ==> Followed(p)
    ensures ReadProps(props) <= PropsSyms(props)
  {
    if props != [] {
      assert props[0] in props;
      ReadIsFollowed(props[1..]);
    }
  }

  /** A search that followed direct dependencies and implies as well would be enough: if
      it is silent, evaluation is well defined. */
  lemma SilentCheckOneSolution(table: Table, u: User)
    requires WellFormed(table, u) && ChoiceFree(table.info) && PromptsFollowed(table.info) && Entered(table.info)
    requires exists rank :: Acyclic(Full(table.info), rank)
    ensures forall s :: !OnCycle(ReadGraph(table.info), s)
    ensures exists sol :: Solution(table, u, sol)
    ensures forall a, b, s: Symbol :: Solution(table, u, a) && Solution(table, u, b) ==> a.tri(s) == b.tri(s)
  {
    var g := table.info;
    var rank :| Acyclic(Full(g), rank);
    forall s, t | s in ReadGraph(g) && t in Explored(ReadGraph(g), s) ensures rank(t) < rank(s) {
      ReadIsFollowed(g[s].props);
      assert t in Explored(Full(g), s);
    }
    assert Acyclic(ReadGraph(g), rank);
    hide WellFormed; hide OnCycle; hide Acyclic; hide Entered; hide Solution; hide Full; hide ReadGraph;
    RankedIfNoCycle(ReadGraph(g));
    NoCycleOneSolution(table, u);
  }

  // ----- what the search does not see -----

  const FIRST := Symbol(20, "FIRST", Tristate, false)
  const SECOND := Symbol(21, "SECOND", Tristate, false)

  /** Two tristates that imply each other and nothing else. */
  function ImplyLoop(): Table {
    Table(map[FIRST := Info([], None, None, Some(Sym(SECOND)), false, [], None),
              SECOND := Info([], None, None, Some(Sym(FIRST)), false, [], None)],
          (s: Symbol) => s.name, YES)
  }

  function ImplySol(t: Tri): Sol {
    Sol((s: Symbol) => if s == FIRST || s == SECOND then t else ConstTri(s), (s: Symbol) => None)
  }

  /** The search stays silent on them, yet what evaluation reads has a cycle, and their
      equations have more than one solution. */
  lemma ImplyLoopUndetected()
    ensures var table, u := ImplyLoop(), User({}, map[], map[]);
            && (exists rank :: Acyclic(table.info, rank)) && ChoiceFree(table.info) && Entered(table.info)
            && OnCycle(ReadGraph(table.info), FIRST)
            && WellFormed(table, u)
            && Solution(table, u, ImplySol(NO)) && Solution(table, u, ImplySol(YES))
            && ImplySol(NO).tri(FIRST) != ImplySol(YES).tri(FIRST)
  {
    hide *;
    ImplyLoopSilent();
    ImplyLoopCycle();
    ImplyLoopSolved(NO);
    ImplyLoopSolved(YES);
  }

  lemma ImplyLoopSolved(t: Tri)
    requires t == NO || t == YES
    ensures WellFormed(ImplyLoop(), User({}, map[], map[])) && Solution(ImplyLoop(), User({}, map[], map[]), ImplySol(t))
  {
    var table, u := ImplyLoop(), User({}, map[], map[]);
    assert WellFormed(table, u);
    hide WellFormed;
    forall s | s in table.info ensures Equation(table, u, ImplySol(t), s) {
      assert table.info[s].props == [];
    }
  }

  lemma ImplyLoopSilent()
    ensures (exists rank :: Acyclic(ImplyLoop().info, rank)) && ChoiceFree(ImplyLoop().info)
    ensures ImplySol(NO).tri(FIRST) != ImplySol(YES).tri(FIRST)
  {
    assert Acyclic(ImplyLoop().info, (s: Symbol) => 0);
  }

  lemma ImplyLoopCycle()
    ensures Entered(ImplyLoop().info) && OnCycle(ReadGraph(ImplyLoop().info), FIRST)
  {
    var g := ImplyLoop().info;
    assert SECOND in Reads(g, FIRST) && FIRST in Reads(g, SECOND);
    hide Reads; hide Explored; hide ReadGraph;
    assert Cycle(ReadGraph(g), [FIRST, SECOND]);
  }
}
