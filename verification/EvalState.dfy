/** Snapshots of the evaluator, and the two predicates its calculations keep: the cache
    agrees with the solution, and nested calculations only add to it. */
module EvalState {
  import opened Wrappers
  import opened Exprs
  import opened SymTable
  import opened Solutions

  /** All fields of the evaluator; busy are the symbols whose calculation has begun and
      not ended. */
  datatype State = State(
    valid: set<Symbol>,
    busy: set<Symbol>,
    tri: map<Symbol, Tri>,
    pick: map<Symbol, Option<Symbol>>,
    visible: map<Symbol, Tri>,
    dirDep: map<Symbol, Tri>,
    revDep: map<Symbol, Tri>,
    implied: map<Symbol, Tri>,
    user: User)

  function GetPick(m: map<Symbol, Option<Symbol>>, s: Symbol): Option<Symbol> { if s in m then m[s] else None }

  /** The cached value of a computed symbol, the constant of any other. */
  function Cached(table: Table, tri: map<Symbol, Tri>, s: Symbol): Tri {
    if s in table.info then Get(tri, s) else ConstTri(s)
  }

  function CachedEnv(table: Table, tri: map<Symbol, Tri>): Env {
    EnvOf(table, (s: Symbol) => Cached(table, tri, s))
  }

  /** What the evaluation is measured against: the settings it started from, an order
      of the table and the solution of its equations. */
  datatype Context = Context(table: Table, user: User, rank: Symbol -> nat, sol: Sol)

  ghost predicate ContextOk(k: Context) {
    && WellFormed(k.table, k.user)
    && Ranked(k.table, k.user, k.rank)
    && Solution(k.table, k.user, k.sol)
  }

  /** Some prompt of the symbol may be visible. */
  predicate HasPrompt(table: Table, s: Symbol)
    requires s in table.info
  {
    exists p :: p in table.info[s].props && p.hasText && p.cond != Some(E_NO)
  }

  lemma {:induction false} NoPromptMax(table: Table, env: Env, s: Symbol, props: seq<Property>)
    requires s in table.info && env.tri(SYM_NO) == NO
    requires forall p :: p in props && p.hasText ==> p.cond == Some(E_NO)
    ensures PromptMax(table, env, s, props) == NO
  {
    if props != [] {
      assert props[0] in props;
      NoPromptMax(table, env, s, props[1..]);
    }
  }

  lemma NoPromptUnseen(table: Table, env: Env, s: Symbol)
    requires s in table.info && !HasPrompt(table, s) && env.tri(SYM_NO) == NO
    ensures Visible(table, env, s) == NO
  {
    NoPromptMax(table, env, s, table.info[s].props);
  }

  /** What the cache of a choice member has from the start: no dependencies, and no
      visibility without a prompt. */
  ghost predicate MemberAtRest(table: Table, st: State, t: Symbol)
    requires t in table.info
  {
    && Get(st.revDep, t) == NO && Get(st.implied, t) == NO
    && (!HasPrompt(table, t) ==> Get(st.visible, t) == NO)
  }

  ghost predicate MembersAtRest(table: Table, st: State) {
    forall t :: t in table.info && table.info[t].choice.Some? ==> MemberAtRest(table, st, t)
  }

  /** The symbol has its values from the solution. */
  ghost predicate Done(k: Context, st: State, t: Symbol)
    requires t in k.table.info
  {
    var env := EnvOf(k.table, k.sol.tri);
    && Get(st.tri, t) == k.sol.tri(t)
    && GetPick(st.pick, t) == k.sol.pick(t)
    && (k.table.info[t].choice.None? ==>
          && Get(st.visible, t) == Visible(k.table, env, t)
          && Get(st.revDep, t) == RevDep(k.table, env, t)
          && Get(st.implied, t) == Implied(k.table, env, t))
    && (HasPrompt(k.table, t) && k.table.info[t].choice.Some? ==>
          && k.table.info[t].choice.value in st.valid - st.busy
          && Get(st.visible, t) == Visible(k.table, env, t))
    && (k.table.info[t].isChoice ==> (t in st.user.has <==> MarkKept(k.table, k.user, k.sol, t)))
  }

  /** Every valid symbol that is not being calculated is done; a member's dependencies
      are untouched; only an evaluated choice may have lost its user mark. */
  ghost predicate Inv(k: Context, st: State) {
    && ContextOk(k)
    && st.busy <= st.valid <= k.table.info.Keys
    && (forall t :: t in st.valid - st.busy ==> Done(k, st, t))
    && MembersAtRest(k.table, st)
    && (forall t :: t in k.table.info && (t !in st.valid || !k.table.info[t].isChoice) ==> (t in st.user.has <==> t in k.user.has))
    && st.user.tri == k.user.tri && st.user.pick == k.user.pick
  }

  /** t or its choice became valid between a and b. */
  predicate Touched(table: Table, a: State, b: State, t: Symbol)
    requires t in table.info
  {
    || t in b.valid - a.valid
    || (table.info[t].choice.Some? && table.info[t].choice.value in b.valid - a.valid)
  }

  /** The symbols whose visibility and dependencies, user mark, or value a calculation
      may change although it does not validate them. */
  datatype Exempt = Exempt(seen: set<Symbol>, marks: set<Symbol>, vals: set<Symbol>)

  const NOTHING := Exempt({}, {}, {})

  function Only(s: Symbol): Exempt { Exempt({s}, {}, {}) }

  predicate Within(a: Exempt, b: Exempt) { a.seen <= b.seen && a.marks <= b.marks && a.vals <= b.vals }

  /** What a nested calculation may change: it validates symbols ranked below n and
      leaves the values of valid symbols alone; visibilities and dependencies change
      only for the symbols it validates and their members. */
  ghost predicate Progress(k: Context, a: State, b: State, n: nat, ex: Exempt) {
    && a.valid <= b.valid && a.busy == b.busy
    && (forall t :: t in b.valid - a.valid ==> k.rank(t) < n)
    && (forall t :: t in a.valid && t !in ex.vals ==> Get(b.tri, t) == Get(a.tri, t) && GetPick(b.pick, t) == GetPick(a.pick, t))
    && (forall t :: t in a.valid && t !in ex.marks ==> (t in b.user.has <==> t in a.user.has))
    && (forall t :: t in k.table.info && t !in ex.seen && !Touched(k.table, a, b, t) ==> Get(b.visible, t) == Get(a.visible, t))
    && (forall t :: t in k.table.info && k.table.info[t].choice.None? && t !in ex.seen && t !in b.valid - a.valid ==>
          Get(b.revDep, t) == Get(a.revDep, t) && Get(b.implied, t) == Get(a.implied, t))
  }

  lemma ProgressTrans(k: Context, a: State, b: State, c: State, n: nat, m: nat, ex: Exempt, fx: Exempt, gx: Exempt)
    requires Progress(k, a, b, n, ex) && Progress(k, b, c, m, fx) && m <= n
    requires Within(ex, gx) && Within(fx, gx)
    ensures Progress(k, a, c, n, gx)
  {
  }

  lemma ProgressSame(k: Context, a: State, n: nat, ex: Exempt)
    ensures Progress(k, a, a, n, ex)
  {
  }

  lemma ProgressGrows(k: Context, a: State, b: State, n: nat, ex: Exempt)
    requires Progress(k, a, b, n, ex)
    ensures a.valid <= b.valid && a.busy == b.busy
    ensures k.table.info.Keys - b.valid <= k.table.info.Keys - a.valid
    ensures forall m: nat :: BusyAbove(k, a, m) ==> BusyAbove(k, b, m)
  {
  }

  /** A valid symbol outside choices keeps everything through a nested calculation. */
  lemma ProgressKeeps(k: Context, a: State, b: State, n: nat, s: Symbol)
    requires Progress(k, a, b, n, NOTHING) && s in a.valid && s in k.table.info
    ensures Get(b.tri, s) == Get(a.tri, s) && (s in b.user.has <==> s in a.user.has)
    ensures k.table.info[s].choice.None? ==>
      Get(b.visible, s) == Get(a.visible, s) && Get(b.revDep, s) == Get(a.revDep, s) && Get(b.implied, s) == Get(a.implied, s)
    ensures k.table.info[s].choice.Some? && k.table.info[s].choice.value in a.valid ==> Get(b.visible, s) == Get(a.visible, s)
  {
  }

  ghost predicate BusyAbove(k: Context, st: State, n: nat) { forall b :: b in st.busy ==> n <= k.rank(b) }

  // ----- reading -----

  /** Reading t now, or after calculating it, gives view(t). */
  ghost predicate ReadableSym(k: Context, st: State, view: Symbol -> Tri, n: nat, t: Symbol) {
    Live(t) ==>
      && t in k.table.info
      && (t in st.valid ==> Get(st.tri, t) == view(t))
      && (t !in st.valid ==> view(t) == k.sol.tri(t) && k.rank(t) < n)
  }

  ghost predicate Readable(k: Context, st: State, view: Symbol -> Tri, n: nat, e: Option<Expr>) {
    forall t :: t in OptSyms(e) ==> ReadableSym(k, st, view, n, t)
  }

  ghost predicate ViewOk(k: Context, view: Symbol -> Tri) {
    forall t: Symbol :: t !in k.table.info ==> view(t) == ConstTri(t)
  }

  /** The symbol may be evaluated now. */
  ghost predicate Callable(k: Context, st: State, n: nat, s: Symbol) {
    Live(s) ==> s in k.table.info && (s in st.valid || k.rank(s) < n)
  }

  ghost predicate AllValid(st: State, e: Option<Expr>) {
    forall s :: s in OptSyms(e) && Live(s) ==> s in st.valid
  }

  lemma SymKept(k: Context, a: State, b: State, view: Symbol -> Tri, n: nat, m: nat, ex: Exempt, t: Symbol)
    requires Inv(k, a) && Progress(k, a, b, m, ex) && ex.vals == {} && Inv(k, b)
    requires ReadableSym(k, a, view, n, t)
    ensures ReadableSym(k, b, view, n, t)
  {
    hide ContextOk;
    if Live(t) && t in b.valid && t !in a.valid {
      assert t !in b.busy;
      assert Done(k, b, t);
    }
  }

  lemma ReadableKept(k: Context, a: State, b: State, view: Symbol -> Tri, n: nat, m: nat, ex: Exempt, e: Option<Expr>)
    requires Inv(k, a) && Progress(k, a, b, m, ex) && ex.vals == {} && Inv(k, b)
    requires Readable(k, a, view, n, e)
    ensures Readable(k, b, view, n, e)
  {
    hide ContextOk; hide OptSyms; hide Live;
    forall t | t in OptSyms(e) ensures ReadableSym(k, b, view, n, t) {
      assert ReadableSym(k, a, view, n, t);
      SymKept(k, a, b, view, n, m, ex, t);
    }
  }

  lemma ReadableCallable(k: Context, st: State, view: Symbol -> Tri, n: nat, e: Expr, s: Symbol)
    requires Readable(k, st, view, n, Some(e)) && s in Syms(e)
    ensures Callable(k, st, n, s)
  {
    assert s in OptSyms(Some(e));
    assert ReadableSym(k, st, view, n, s);
  }

  lemma ReadableParts(k: Context, st: State, view: Symbol -> Tri, n: nat, e: Expr)
    requires Readable(k, st, view, n, Some(e))
    ensures e.And? || e.Or? ==> Readable(k, st, view, n, Some(e.left)) && Readable(k, st, view, n, Some(e.right))
    ensures e.Not? ==> Readable(k, st, view, n, Some(e.e))
  {
    if e.And? || e.Or? {
      assert forall t :: t in OptSyms(Some(e.left)) ==> t in OptSyms(Some(e));
      assert forall t :: t in OptSyms(Some(e.right)) ==> t in OptSyms(Some(e));
    } else if e.Not? {
      assert forall t :: t in OptSyms(Some(e.e)) ==> t in OptSyms(Some(e));
    }
  }

  lemma AllValidParts(st: State, e: Expr)
    ensures (e.And? || e.Or?) && AllValid(st, Some(e.left)) && AllValid(st, Some(e.right)) ==> AllValid(st, Some(e))
    ensures e.Not? && AllValid(st, Some(e.e)) ==> AllValid(st, Some(e))
    ensures e.Sym? && (Live(e.s) ==> e.s in st.valid) ==> AllValid(st, Some(e))
    ensures e.Cmp? && (Live(e.l) ==> e.l in st.valid) && (Live(e.r) ==> e.r in st.valid) ==> AllValid(st, Some(e))
  {
  }

  lemma AllValidKept(a: State, b: State, e: Option<Expr>)
    requires AllValid(a, e) && a.valid <= b.valid
    ensures AllValid(b, e)
  {
  }

  /** Once the symbols of e are valid, the cache gives them their values in view. */
  lemma ReadNow(k: Context, st: State, view: Symbol -> Tri, n: nat, e: Expr)
    requires Inv(k, st) && ViewOk(k, view) && Readable(k, st, view, n, Some(e)) && AllValid(st, Some(e))
    ensures forall s :: s in Syms(e) ==> Cached(k.table, st.tri, s) == view(s)
    ensures Value(e, CachedEnv(k.table, st.tri)) == Value(e, EnvOf(k.table, view))
  {
    forall s | s in Syms(e) ensures Cached(k.table, st.tri, s) == view(s) {
      assert s in OptSyms(Some(e));
      assert ReadableSym(k, st, view, n, s);
      if s in k.table.info {
        assert EntryOk(k.table, k.user, s);
      }
    }
    var now := st.tri;
    ValueAgrees(k.table, (s: Symbol) => Cached(k.table, now, s), view, e);
  }

  // ----- what the visibility and the default of a symbol read -----

  ghost predicate PromptsReadable(k: Context, st: State, view: Symbol -> Tri, n: nat, props: seq<Property>) {
    forall p :: p in props && p.hasText ==> Readable(k, st, view, n, p.cond)
  }

  ghost predicate Inputs(k: Context, st: State, view: Symbol -> Tri, n: nat, s: Symbol)
    requires s in k.table.info
  {
    && PromptsReadable(k, st, view, n, k.table.info[s].props)
    && (k.table.info[s].choice.None? ==>
          && Readable(k, st, view, n, k.table.info[s].dirDep)
          && Readable(k, st, view, n, k.table.info[s].revDep)
          && Readable(k, st, view, n, k.table.info[s].implied))
  }

  lemma InputsKept(k: Context, a: State, b: State, view: Symbol -> Tri, n: nat, m: nat, ex: Exempt, s: Symbol)
    requires Inv(k, a) && Progress(k, a, b, m, ex) && ex.vals == {} && Inv(k, b) && s in k.table.info && Inputs(k, a, view, n, s)
    ensures Inputs(k, b, view, n, s)
  {
    hide Inv; hide Progress; hide Readable;
    var i := k.table.info[s];
    forall p | p in i.props && p.hasText ensures Readable(k, b, view, n, p.cond) {
      ReadableKept(k, a, b, view, n, m, ex, p.cond);
    }
    if i.choice.None? {
      ReadableKept(k, a, b, view, n, m, ex, i.dirDep);
      ReadableKept(k, a, b, view, n, m, ex, i.revDep);
      ReadableKept(k, a, b, view, n, m, ex, i.implied);
    }
  }

  ghost predicate DefaultsReadable(k: Context, st: State, view: Symbol -> Tri, n: nat, props: seq<Property>, values: bool) {
    forall p :: p in props && p.kind.Default? ==>
      Readable(k, st, view, n, p.cond) && (values ==> Readable(k, st, view, n, p.value))
  }

  lemma DefaultsKept(k: Context, a: State, b: State, view: Symbol -> Tri, n: nat, m: nat, ex: Exempt, props: seq<Property>, values: bool)
    requires Inv(k, a) && Progress(k, a, b, m, ex) && ex.vals == {} && Inv(k, b) && DefaultsReadable(k, a, view, n, props, values)
    ensures DefaultsReadable(k, b, view, n, props, values)
  {
    hide Inv; hide Progress; hide Readable;
    forall p | p in props && p.kind.Default?
      ensures Readable(k, b, view, n, p.cond) && (values ==> Readable(k, b, view, n, p.value))
    {
      ReadableKept(k, a, b, view, n, m, ex, p.cond);
      if values {
        ReadableKept(k, a, b, view, n, m, ex, p.value);
      }
    }
  }

  /** An expression that ranks below n can be read when everything busy ranks at or
      above n. */
  lemma BelowReadable(k: Context, st: State, n: nat, e: Option<Expr>)
    requires Inv(k, st) && BusyAbove(k, st, n) && Below(k.table, k.rank, e, n, None)
    ensures Readable(k, st, k.sol.tri, n, e)
  {
    forall t | t in OptSyms(e) ensures ReadableSym(k, st, k.sol.tri, n, t) {
      if Live(t) && t in st.valid {
        assert t !in st.busy;
        assert Done(k, st, t);
      }
    }
  }

  /** The same for what a member's prompts read: its choice has the value seen in the
      view, everything else ranks below the choice. */
  lemma MemberReadable(k: Context, st: State, view: Symbol -> Tri, n: nat, m: nat, c: Symbol, e: Option<Expr>)
    requires Inv(k, st) && BusyAbove(k, st, m) && Below(k.table, k.rank, e, m, Some(c)) && m <= n
    requires forall t: Symbol :: t != c ==> view(t) == k.sol.tri(t)
    requires c in k.table.info && ReadableSym(k, st, view, n, c)
    ensures Readable(k, st, view, n, e)
  {
    forall t | t in OptSyms(e) ensures ReadableSym(k, st, view, n, t) {
      if Live(t) && t != c && t in st.valid {
        assert t !in st.busy;
        assert Done(k, st, t);
      }
    }
  }

  lemma SolView(k: Context)
    requires ContextOk(k)
    ensures ViewOk(k, k.sol.tri)
  {
  }

  // ----- members and their choice -----

  /** After a member's prompt was read, its choice is valid and read as in the view. */
  lemma ChoiceRead(k: Context, st: State, view: Symbol -> Tri, n: nat, s: Symbol, p: Property)
    requires Inv(k, st) && ViewOk(k, view) && s in k.table.info && k.table.info[s].choice.Some?
    requires p in k.table.info[s].props && p.hasText && p.cond != Some(E_NO)
    requires Readable(k, st, view, n, p.cond) && AllValid(st, p.cond)
    ensures k.table.info[s].choice.value in st.valid
    ensures Cached(k.table, st.tri, k.table.info[s].choice.value) == view(k.table.info[s].choice.value)
  {
    assert EntryOk(k.table, k.user, s);
    var c := k.table.info[s].choice.value;
    assert EntryOk(k.table, k.user, c) && Live(c);
    ReadNow(k, st, view, n, p.cond.value);
  }

  // ----- storing one field -----

  /** The symbol, or the choice it belongs to, is being calculated. */
  predicate UnderWay(table: Table, st: State, s: Symbol)
    requires s in table.info
  {
    s in st.busy || (table.info[s].choice.Some? && table.info[s].choice.value in st.busy)
  }

  /** Storing the visibility of a symbol that is being calculated, or of a member of a
      choice that is. */
  lemma StoreVisible(k: Context, a: State, b: State, n: nat, s: Symbol, t: Tri)
    requires Inv(k, b) && Progress(k, a, b, n, NOTHING)
    requires s in k.table.info && UnderWay(k.table, b, s) && (!HasPrompt(k.table, s) ==> t == NO)
    ensures Inv(k, b.(visible := b.visible[s := t]))
    ensures Progress(k, a, b.(visible := b.visible[s := t]), n, Only(s))
  {
    var c := b.(visible := b.visible[s := t]);
    hide ContextOk; hide MarkKept; hide Visible; hide RevDep; hide Implied; hide HasPrompt;
    forall u | u in c.valid - c.busy ensures Done(k, c, u) {
      assert Done(k, b, u);
    }
  }

  /** Storing a dependency of a symbol that is being calculated. */
  lemma StoreDep(k: Context, a: State, b: State, n: nat, s: Symbol, c: State)
    requires Inv(k, b) && Progress(k, a, b, n, Only(s))
    requires s in k.table.info && s in b.busy && k.table.info[s].choice.None?
    requires c == b.(dirDep := c.dirDep, revDep := c.revDep, implied := c.implied)
    requires forall u :: u != s ==> Get(c.revDep, u) == Get(b.revDep, u) && Get(c.implied, u) == Get(b.implied, u)
    ensures Inv(k, c) && Progress(k, a, c, n, Only(s))
  {
    hide ContextOk; hide MarkKept; hide Visible; hide RevDep; hide Implied;
    forall u | u in c.valid - c.busy ensures Done(k, c, u) {
      assert Done(k, b, u);
    }
  }

  /** Storing the value of a symbol that is being calculated. */
  lemma StoreValue(k: Context, b: State, n: nat, s: Symbol, c: State)
    requires Inv(k, b) && s in b.busy
    requires c == b.(tri := c.tri, pick := c.pick)
    requires forall u :: u != s ==> Get(c.tri, u) == Get(b.tri, u) && GetPick(c.pick, u) == GetPick(b.pick, u)
    ensures Inv(k, c) && Progress(k, b, c, n, Exempt({}, {}, {s}))
  {
    hide ContextOk; hide MarkKept; hide Visible; hide RevDep; hide Implied;
    forall u | u in c.valid - c.busy ensures Done(k, c, u) {
      assert Done(k, b, u);
    }
  }

  lemma MemberDeps(k: Context, st: State, s: Symbol, env: Env)
    requires Inv(k, st) && s in k.table.info && k.table.info[s].choice.Some?
    ensures Get(st.revDep, s) == NO == RevDep(k.table, env, s)
    ensures Get(st.implied, s) == NO == Implied(k.table, env, s)
  {
  }

  // ----- choosing a member -----

  function MemberSet(table: Table, c: Symbol): set<Symbol>
    requires c in table.info
  {
    set m | m in table.info[c].members
  }

  /** Choice c is being calculated, its value is y for now, and the view says so. */
  ghost predicate Choosing(k: Context, st: State, view: Symbol -> Tri, c: Symbol) {
    && c in k.table.info && k.table.info[c].isChoice
    && c in st.busy && BusyAbove(k, st, k.rank(c))
    && ViewOk(k, view) && view(c) == YES && Get(st.tri, c) == YES
    && (forall t: Symbol :: t != c ==> view(t) == k.sol.tri(t))
  }

  ghost predicate MembersSeen(k: Context, st: State, view: Symbol -> Tri, members: seq<Symbol>) {
    forall m :: m in members && m in k.table.info ==> Get(st.visible, m) == Visible(k.table, EnvOf(k.table, view), m)
  }

  lemma ChoosingFacts(k: Context, st: State, view: Symbol -> Tri, c: Symbol)
    requires Inv(k, st) && Choosing(k, st, view, c)
    ensures ChoiceOk(k.table, k.user, c) && c in st.valid && Live(c)
    ensures forall m :: m in k.table.info[c].members ==>
              m in k.table.info && k.table.info[m].choice == Some(c) && !k.table.info[m].isChoice && k.rank(c) < k.rank(m)
  {
    assert EntryOk(k.table, k.user, c) && ChoiceOk(k.table, k.user, c);
    forall m | m in k.table.info[c].members
      ensures m in k.table.info && k.table.info[m].choice == Some(c) && !k.table.info[m].isChoice && k.rank(c) < k.rank(m)
    {
      assert RankedAt(k.table, k.user, k.rank, m);
    }
  }

  lemma MemberInputs(k: Context, st: State, view: Symbol -> Tri, c: Symbol, m: Symbol)
    requires Inv(k, st) && Choosing(k, st, view, c) && m in k.table.info[c].members
    ensures m in k.table.info && k.table.info[m].choice == Some(c) && Inputs(k, st, view, k.rank(c), m)
  {
    hide Inv; hide Choosing; hide Readable;
    ChoosingFacts(k, st, view, c);
    PromptsOfMember(k, st, view, c, m);
  }

  lemma PromptsOfMember(k: Context, st: State, view: Symbol -> Tri, c: Symbol, m: Symbol)
    requires Inv(k, st) && Choosing(k, st, view, c) && m in k.table.info && k.table.info[m].choice == Some(c)
    ensures PromptsReadable(k, st, view, k.rank(c), k.table.info[m].props)
  {
    assert RankedAt(k.table, k.user, k.rank, m);
    forall p | p in k.table.info[m].props && p.hasText ensures Readable(k, st, view, k.rank(c), p.cond) {
      hide Inv; hide Readable;
      assert ReadableSym(k, st, view, k.rank(c), c) by {
        ChoosingFacts(k, st, view, c);
      }
      MemberReadable(k, st, view, k.rank(c), k.rank(c), c, p.cond);
    }
  }

  lemma ChoiceDefaultReadable(k: Context, st: State, view: Symbol -> Tri, c: Symbol, p: Property)
    requires Inv(k, st) && Choosing(k, st, view, c) && p in k.table.info[c].props && p.kind.Default?
    ensures Readable(k, st, view, k.rank(c), p.cond)
  {
    ChoosingFacts(k, st, view, c);
    assert RankedAt(k.table, k.user, k.rank, c);
    hide Inv; hide Readable;
    MemberReadable(k, st, view, k.rank(c), k.rank(c), c, p.cond);
  }

  /** Calculations nested in the choice keep the visibilities of its members, except
      for the member whose visibility is being stored. */
  lemma ChoosingKept(k: Context, b: State, d: State, view: Symbol -> Tri, c: Symbol, ex: Exempt)
    requires Inv(k, b) && Inv(k, d) && Choosing(k, b, view, c)
    requires Progress(k, b, d, k.rank(c), ex) && c !in ex.vals
    ensures Choosing(k, d, view, c)
    ensures forall m :: m in k.table.info[c].members && m !in ex.seen ==> Get(d.visible, m) == Get(b.visible, m)
  {
    ChoosingFacts(k, b, view, c);
    hide ContextOk; hide Done; hide ChoiceOk; hide ViewOk;
    forall m | m in k.table.info[c].members && m !in ex.seen ensures Get(d.visible, m) == Get(b.visible, m) {
      assert !Touched(k.table, b, d, m);
    }
  }

  /** A choice that loses its user mark. */
  lemma StoreMark(k: Context, b: State, n: nat, c: Symbol)
    requires Inv(k, b) && c in b.busy && c in k.table.info && k.table.info[c].isChoice
    ensures var d := b.(user := User(b.user.has - {c}, b.user.tri, b.user.pick));
            Inv(k, d) && Progress(k, b, d, n, Exempt({}, {c}, {}))
  {
    var d := b.(user := User(b.user.has - {c}, b.user.tri, b.user.pick));
    hide ContextOk; hide MarkKept; hide Visible; hide RevDep; hide Implied;
    forall u | u in d.valid - d.busy ensures Done(k, d, u) {
      assert Done(k, b, u);
    }
  }

  // ----- beginning and ending a calculation -----

  function Begin(st: State, s: Symbol): State { st.(valid := st.valid + {s}, busy := st.busy + {s}) }

  lemma BeginOk(k: Context, st: State, n: nat, s: Symbol)
    requires Inv(k, st) && BusyAbove(k, st, n) && s in k.table.info && s !in st.valid && k.rank(s) < n
    ensures Inv(k, Begin(st, s)) && BusyAbove(k, Begin(st, s), k.rank(s))
    ensures k.table.info.Keys - Begin(st, s).valid < k.table.info.Keys - st.valid
    ensures s in st.user.has <==> s in k.user.has
  {
    var b := Begin(st, s);
    assert b.valid - b.busy == st.valid - st.busy;
    assert s in k.table.info.Keys - st.valid;
    forall u | u in b.valid - b.busy ensures Done(k, b, u) {
      assert Done(k, st, u);
    }
  }

  /** Everything a symbol reads can be read once its calculation has begun. */
  lemma BeginInputs(k: Context, st: State, s: Symbol)
    requires Inv(k, st) && s in st.busy && s in k.table.info && BusyAbove(k, st, k.rank(s))
    ensures Inputs(k, st, k.sol.tri, k.rank(s), s)
  {
    var i, n := k.table.info[s], k.rank(s);
    assert RankedAt(k.table, k.user, k.rank, s) && EntryOk(k.table, k.user, s);
    if i.choice.Some? {
      var c := i.choice.value;
      assert EntryOk(k.table, k.user, c);
      assert c in st.valid ==> c !in st.busy && Done(k, st, c);
      hide Inv; hide Readable;
      forall p | p in i.props && p.hasText ensures Readable(k, st, k.sol.tri, n, p.cond) {
        BelowExcept(k, p.cond, k.rank(c), n, c);
        MemberBelow(k, st, n, c, p.cond);
      }
    } else {
      hide Inv; hide Readable;
      forall p | p in i.props && p.hasText ensures Readable(k, st, k.sol.tri, n, p.cond) {
        BelowReadable(k, st, n, p.cond);
      }
      BelowReadable(k, st, n, i.dirDep);
      BelowReadable(k, st, n, i.revDep);
      BelowReadable(k, st, n, i.implied);
    }
  }

  lemma BelowExcept(k: Context, e: Option<Expr>, m: nat, n: nat, c: Symbol)
    requires Below(k.table, k.rank, e, m, Some(c)) && m <= n && c in k.table.info && k.rank(c) < n
    ensures Below(k.table, k.rank, e, n, None)
  {
  }

  lemma MemberBelow(k: Context, st: State, n: nat, c: Symbol, e: Option<Expr>)
    requires Inv(k, st) && BusyAbove(k, st, n) && Below(k.table, k.rank, e, n, None)
    ensures Readable(k, st, k.sol.tri, n, e)
  {
    BelowReadable(k, st, n, e);
  }

  lemma BeginDefaults(k: Context, st: State, s: Symbol)
    requires Inv(k, st) && s in k.table.info && BusyAbove(k, st, k.rank(s)) && !k.table.info[s].isChoice
    ensures DefaultsReadable(k, st, k.sol.tri, k.rank(s), k.table.info[s].props, true)
  {
    var i := k.table.info[s];
    assert RankedAt(k.table, k.user, k.rank, s);
    hide Inv; hide Readable;
    forall p | p in i.props && p.kind.Default?
      ensures Readable(k, st, k.sol.tri, k.rank(s), p.cond) && Readable(k, st, k.sol.tri, k.rank(s), p.value)
    {
      BelowReadable(k, st, k.rank(s), p.cond);
      BelowReadable(k, st, k.rank(s), p.value);
    }
  }

  /** What a calculation of s itself may change. */
  function Own(table: Table, s: Symbol): Exempt
    requires s in table.info
  {
    Exempt({s} + MemberSet(table, s), {s}, {s})
  }

  function End(st: State, s: Symbol): State { st.(busy := st.busy - {s}) }

  /** A calculation that ends with the solution's values for s has done its part. */
  lemma EndOk(k: Context, st: State, e: State, n: nat, s: Symbol)
    requires Inv(k, st) && s in k.table.info && s !in st.valid && k.rank(s) < n
    requires Inv(k, e) && Progress(k, Begin(st, s), e, k.rank(s), Own(k.table, s)) && Done(k, e, s)
    ensures Inv(k, End(e, s)) && Progress(k, st, End(e, s), n, NOTHING)
  {
    ProgressGrows(k, Begin(st, s), e, k.rank(s), Own(k.table, s));
    EndInv(k, st, e, s);
    MembersPointBack(k, s);
    EndProgress(k, st, e, n, s);
  }

  lemma EndInv(k: Context, st: State, e: State, s: Symbol)
    requires Inv(k, st) && s in k.table.info && s !in st.valid
    requires Inv(k, e) && e.busy == st.busy + {s} && Done(k, e, s)
    ensures Inv(k, End(e, s))
  {
    hide ContextOk;
    var d := End(e, s);
    forall u | u in d.valid - d.busy ensures Done(k, d, u) {
      hide Visible; hide RevDep; hide Implied;
      if u != s {
        assert Done(k, e, u);
      }
    }
  }

  lemma EndProgress(k: Context, st: State, e: State, n: nat, s: Symbol)
    requires Inv(k, st) && s in k.table.info && s !in st.valid && k.rank(s) < n
    requires Progress(k, Begin(st, s), e, k.rank(s), Own(k.table, s))
    requires forall m :: m in MemberSet(k.table, s) ==> m in k.table.info && k.table.info[m].choice == Some(s)
    ensures Progress(k, st, End(e, s), n, NOTHING)
  {
    hide ContextOk; hide Done;
  }

  lemma MembersPointBack(k: Context, s: Symbol)
    requires ContextOk(k) && s in k.table.info
    requires k.table.info[s].isChoice || k.table.info[s].members == []
    ensures forall m :: m in MemberSet(k.table, s) ==> m in k.table.info && k.table.info[m].choice == Some(s)
  {
    assert EntryOk(k.table, k.user, s);
  }
}
