/** Dependency expressions of the Kconfig engine: symbols, expression trees, and
    the three-valued evaluation that every rewriter has to respect. */
module Exprs {
  import opened Wrappers

  // ----- three-valued logic: n < m < y -----

  type Tri = t: int | 0 <= t <= 2

  const NO: Tri := 0
  const MOD: Tri := 1
  const YES: Tri := 2

  function TriMin(a: Tri, b: Tri): Tri { if a < b then a else b }

  function TriMax(a: Tri, b: Tri): Tri { if a > b then a else b }

  function TriNot(a: Tri): Tri { 2 - a }

  function TriBool(b: bool): Tri { if b then YES else NO }

  // ----- symbols -----

  datatype SymType = Unknown | Boolean | Tristate | Int | Hex | Str | Other

  /** A node of the symbol table.  Two symbols are the same node exactly when all
      four components agree; `id` keeps nameless choice symbols apart. */
  datatype Symbol = Symbol(id: nat, name: string, typ: SymType, isConst: bool)

  const SYM_YES := Symbol(0, "y", Unknown, true)
  const SYM_MOD := Symbol(1, "m", Unknown, true)
  const SYM_NO := Symbol(2, "n", Unknown, true)

  predicate IsTriConst(s: Symbol) { s == SYM_YES || s == SYM_MOD || s == SYM_NO }

  function ConstSym(t: Tri): Symbol {
    if t == NO then SYM_NO else if t == MOD then SYM_MOD else SYM_YES
  }

  // ----- expressions -----

  datatype CmpOp = Eq | Ne | Lt | Le | Gt | Ge

  datatype Conn = CAnd | COr

  datatype Expr =
    | Sym(s: Symbol)
    | Cmp(op: CmpOp, l: Symbol, r: Symbol)
    | Not(e: Expr)
    | And(left: Expr, right: Expr)
    | Or(left: Expr, right: Expr)

  const E_YES := Sym(SYM_YES)
  const E_NO := Sym(SYM_NO)

  function Size(e: Expr): nat {
    match e
    case Sym(_) => 1
    case Cmp(_, _, _) => 1
    case Not(x) => 1 + Size(x)
    case And(a, b) => 1 + Size(a) + Size(b)
    case Or(a, b) => 1 + Size(a) + Size(b)
  }

  predicate IsConn(c: Conn, e: Expr) { if c == CAnd then e.And? else e.Or? }

  function Mk(c: Conn, a: Expr, b: Expr): Expr { if c == CAnd then And(a, b) else Or(a, b) }

  /** The operand that a connective can drop: y for &&, n for ||. */
  function Neutral(c: Conn): Expr { if c == CAnd then E_YES else E_NO }

  function Combine(c: Conn, a: Tri, b: Tri): Tri { if c == CAnd then TriMin(a, b) else TriMax(a, b) }

  function Syms(e: Expr): set<Symbol> {
    match e
    case Sym(s) => {s}
    case Cmp(_, l, r) => {l, r}
    case Not(x) => Syms(x)
    case And(a, b) => Syms(a) + Syms(b)
    case Or(a, b) => Syms(a) + Syms(b)
  }

  // ----- valuations -----

  /** What evaluation reads from the symbol table: each symbol's tristate value, the
      string value of a symbol that is neither bool nor tristate, and the value of the
      modules symbol. */
  datatype Env = Env(tri: Symbol -> Tri, str: Symbol -> string, modules: Tri)

  function Letter(t: Tri): string { if t == NO then "n" else if t == MOD then "m" else "y" }

  function StringValue(env: Env, s: Symbol): string {
    match s.typ
    case Boolean => TriString(env.tri(s), env.modules)
    case Tristate => TriString(env.tri(s), env.modules)
    case _ => env.str(s)
  }

  /** m reads as "n" while modules are off. */
  function TriString(t: Tri, modules: Tri): string {
    if t == MOD && modules == NO then "n" else Letter(t)
  }

  /** The valuations the evaluator can leave behind: a bool is never m, a tristate is
      m only with modules, an untyped symbol keeps its own name as string and is n
      unless it is one of the constants y and m. */
  ghost predicate Produced(env: Env) {
    forall s: Symbol :: ProducedAt(env, s)
  }

  predicate ProducedAt(env: Env, s: Symbol) {
    && (s.typ.Boolean? ==> env.tri(s) != MOD)
    && (s.typ.Tristate? && env.modules == NO ==> env.tri(s) != MOD)
    && (s.typ.Unknown? ==> env.str(s) == s.name)
    && (s.typ.Unknown? ==> env.tri(s) == if s == SYM_YES then YES else if s == SYM_MOD then MOD else NO)
  }

  // ----- comparisons -----

  datatype Parsed = AsString | AsInvalid | AsSigned(v: int) | AsUnsigned(v: int)

  const TWO63 := 0x8000_0000_0000_0000
  const TWO64 := 0x1_0000_0000_0000_0000

  predicate IsSpace(c: char) { c == ' ' || '\t' <= c <= '\r' }

  function DigitVal(c: char): int {
    if '0' <= c <= '9' then c as int - '0' as int
    else if 'a' <= c <= 'z' then c as int - 'a' as int + 10
    else if 'A' <= c <= 'Z' then c as int - 'A' as int + 10
    else 99
  }

  /** The value of a non-empty run of digits that reaches the end of the string. */
  function Digits(s: string, base: nat, acc: nat): Option<nat> {
    if s == [] then Some(acc)
    else if DigitVal(s[0]) < base then Digits(s[1..], base, acc * base + DigitVal(s[0]))
    else None
  }

  function AllDigits(s: string, base: nat): Option<nat> {
    if s == [] then None else Digits(s, base, 0)
  }

  /** strtoll/strtoull restricted to the case where the whole string is consumed. */
  function UnsignedPart(s: string, base: nat): Option<nat> {
    if (base == 0 || base == 16) && |s| > 2 && s[0] == '0' && (s[1] == 'x' || s[1] == 'X') then
      AllDigits(s[2..], 16)
    else if base == 0 then AllDigits(s, if s != [] && s[0] == '0' then 8 else 10)
    else AllDigits(s, base)
  }

  function SignedPart(s: string, base: nat): Option<int> {
    var neg := s != [] && s[0] == '-';
    var t := if s != [] && (s[0] == '-' || s[0] == '+') then s[1..] else s;
    match UnsignedPart(t, base)
    case None => None
    case Some(n) =>
      var v: int := n;
      Some(if neg then -v else v)
  }

  function StrToNumber(s: string, base: nat): Option<int> {
    if s != [] && IsSpace(s[0]) then StrToNumber(s[1..], base) else SignedPart(s, base)
  }

  function ParseLetter(s: string): int {
    if s == "n" then 0 else if s == "m" then 1 else if s == "y" then 2 else -1
  }

  function ParseLong(s: string, base: nat): Parsed {
    match StrToNumber(s, base)
    case None => AsString
    case Some(v) => if -TWO63 <= v < TWO63 then AsSigned(v) else AsString
  }

  function ParseString(s: string, typ: SymType): Parsed {
    match typ
    case Boolean => AsSigned(ParseLetter(s))
    case Tristate => AsSigned(ParseLetter(s))
    case Int => ParseLong(s, 10)
    case Hex => (match StrToNumber(s, 16)
                 case None => AsString
                 case Some(v) => if -TWO64 < v < TWO64 then AsUnsigned(v % TWO64) else AsString)
    case Str => ParseLong(s, 0)
    case Unknown => ParseLong(s, 0)
    case Other => AsInvalid
  }

  function Sign(a: int, b: int): int { if a < b then -1 else if a > b then 1 else 0 }

  function StrCmp(a: string, b: string): (c: int)
    ensures c == 0 <==> a == b
  {
    if a == [] then (if b == [] then 0 else -1)
    else if b == [] then 1
    else if a[0] != b[0] then Sign(a[0] as int, b[0] as int)
    else assert a == [a[0]] + a[1..] && b == [b[0]] + b[1..]; StrCmp(a[1..], b[1..])
  }

  /** The three-way outcome of comparing two symbols; None when they cannot be ordered. */
  function Compare(env: Env, l: Symbol, r: Symbol): Option<int> {
    var str1, str2 := StringValue(env, l), StringValue(env, r);
    if l.typ.Str? && r.typ.Str? then Some(StrCmp(str1, str2))
    else
      var k1, k2 := ParseString(str1, l.typ), ParseString(str2, r.typ);
      if k1.AsString? || k2.AsString? then Some(StrCmp(str1, str2))
      else if k1.AsInvalid? || k2.AsInvalid? then None
      else if k1.AsUnsigned? || k2.AsUnsigned? then Some(Sign(k1.v % TWO64, k2.v % TWO64))
      else Some(Sign(k1.v, k2.v))
  }

  function Outcome(op: CmpOp, res: int): bool {
    match op
    case Eq => res == 0
    case Ne => res != 0
    case Lt => res < 0
    case Le => res <= 0
    case Gt => res > 0
    case Ge => res >= 0
  }

  function CmpValue(env: Env, op: CmpOp, l: Symbol, r: Symbol): Tri {
    match Compare(env, l, r)
    case Some(res) => TriBool(Outcome(op, res))
    case None =>
      if op == Eq || op == Ne then
        TriBool(Outcome(op, StrCmp(StringValue(env, l), StringValue(env, r))))
      else NO
  }

  /** The value of an expression. */
  function Value(e: Expr, env: Env): Tri {
    match e
    case Sym(s) => env.tri(s)
    case Cmp(op, l, r) => CmpValue(env, op, l, r)
    case Not(x) => TriNot(Value(x, env))
    case And(a, b) => TriMin(Value(a, env), Value(b, env))
    case Or(a, b) => TriMax(Value(a, env), Value(b, env))
  }

  /** A missing expression counts as y. */
  function OptValue(e: Option<Expr>, env: Env): Tri {
    if e.None? then YES else Value(e.value, env)
  }

  /** Conjunction of two optional expressions. */
  function OptAnd(a: Option<Expr>, b: Option<Expr>): Option<Expr> {
    if a.None? then b else if b.None? then a else Some(And(a.value, b.value))
  }

  // ----- what a comparison of a bool or tristate with a constant means -----

  /** The tristate value a constant stands for when it is compared with a bool or
      tristate symbol: its letter, or the number it spells. */
  function ConstMeaning(name: string): int {
    match ParseLong(name, 0)
    case AsSigned(v) => v
    case _ => ParseLetter(name)
  }

  lemma LetterNames(t: Tri)
    ensures ConstMeaning(Letter(t)) == t && ParseLong(Letter(t), 0).AsString?
  {
    var s := Letter(t);
    assert s[1..] == [];
    assert StrToNumber(s, 0) == SignedPart(s, 0);
    assert Digits(s, 10, 0).None?;
  }

  /** Equality of a bool or tristate with an untyped symbol is decided by the meaning
      of that symbol's name, letter or numeral. */
  lemma EqualityByMeaning(env: Env, a: Symbol, c: Symbol)
    requires Produced(env)
    requires a.typ.Boolean? || a.typ.Tristate?
    requires c.typ.Unknown?
    ensures CmpValue(env, Eq, a, c) == TriBool(env.tri(a) == ConstMeaning(c.name))
    ensures CmpValue(env, Ne, a, c) == TriBool(env.tri(a) != ConstMeaning(c.name))
  {
    assert ProducedAt(env, a) && ProducedAt(env, c);
    var str := StringValue(env, a);
    assert str == Letter(env.tri(a));
    LetterNames(env.tri(a));
    assert StringValue(env, c) == c.name;
    var k := ParseLong(c.name, 0);
    if k.AsString? {
      assert Compare(env, a, c) == Some(StrCmp(str, c.name));
      assert str == c.name <==> env.tri(a) == ParseLetter(c.name);
    }
  }

  /** Comparison against y, m or n tests exactly that value. */
  lemma EqualityWithTri(env: Env, a: Symbol, t: Tri)
    requires Produced(env)
    requires a.typ.Boolean? || a.typ.Tristate?
    ensures CmpValue(env, Eq, a, ConstSym(t)) == TriBool(env.tri(a) == t)
    ensures CmpValue(env, Ne, a, ConstSym(t)) == TriBool(env.tri(a) != t)
  {
    EqualityByMeaning(env, a, ConstSym(t));
    LetterNames(t);
  }
}
