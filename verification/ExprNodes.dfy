/** The rewriters that overwrite expression nodes through pointers, on linked nodes. */
module ExprNodes {
  import opened Exprs
  import opened Equality
  import opened Transform

  /** struct expr: what the node is, with its operands. */
  datatype Shape =
    | IsSym(s: Symbol)
    | IsCmp(op: CmpOp, l: Symbol, r: Symbol)
    | IsNot(operand: Node)
    | IsBin(c: Conn, left: Node, right: Node)

  class Node {
    var shape: Shape

    constructor (what: Shape)
      ensures shape == what
    {
      shape := what;
    }
  }

  /** The nodes of an expression, as a tree. */
  datatype Tree = Leaf(node: Node) | Neg(node: Node, a: Tree) | Bin(node: Node, a: Tree, b: Tree)

  ghost function Own(t: Tree): set<Node> {
    match t
    case Leaf(n) => {n}
    case Neg(n, a) => {n} + Own(a)
    case Bin(n, a, b) => {n} + Own(a) + Own(b)
  }

  /** The nodes of t, all different, make up the expression e. */
  ghost predicate Holds(t: Tree, e: Expr)
    reads Own(t)
    decreases t
  {
    match t
    case Leaf(n) => (n.shape.IsSym? && e == Sym(n.shape.s)) || (n.shape.IsCmp? && e == Cmp(n.shape.op, n.shape.l, n.shape.r))
    case Neg(n, a) => n !in Own(a) && n.shape == IsNot(a.node) && e.Not? && Holds(a, e.e)
    case Bin(n, a, b) =>
      && n !in Own(a) && n !in Own(b) && Own(a) !! Own(b)
      && n.shape.IsBin? && n.shape.left == a.node && n.shape.right == b.node
      && IsConn(n.shape.c, e) && (e.And? || e.Or?) && Holds(a, e.left) && Holds(b, e.right)
  }

  /** Nodes of an expression exist, so what does not touch them leaves it as it is. */
  lemma {:induction false} Alive(n: Node, t: Tree, e: Expr)
    requires t.node == n && Holds(t, e)
    ensures forall x :: x in Own(t) ==> allocated(x)
  {
    match t
    case Leaf(_) =>
    case Neg(_, a) =>
      Alive(n.shape.operand, a, e.e);
    case Bin(_, a, b) =>
      Alive(n.shape.left, a, e.left);
      Alive(n.shape.right, b, e.right);
  }

  /** What the fields of the root say. */
  lemma Root(n: Node, t: Tree, e: Expr)
    requires t.node == n && Holds(t, e)
    ensures n in Own(t)
    ensures n.shape.IsSym? <==> e.Sym?
    ensures n.shape.IsSym? ==> e == Sym(n.shape.s)
    ensures n.shape.IsCmp? ==> e == Cmp(n.shape.op, n.shape.l, n.shape.r)
    ensures n.shape.IsCmp? <==> e.Cmp?
    ensures n.shape.IsSym? || n.shape.IsCmp? ==> t == Leaf(n)
    ensures n.shape.IsNot? <==> e.Not?
    ensures n.shape.IsNot? ==> t.Neg? && n.shape.operand == t.a.node && Holds(t.a, e.e) && n !in Own(t.a) && Own(t.a) <= Own(t)
    ensures n.shape.IsBin? <==> e.And? || e.Or?
    ensures n.shape.IsBin? ==>
      && t.Bin? && n.shape.left == t.a.node && n.shape.right == t.b.node && IsConn(n.shape.c, e)
      && Holds(t.a, e.left) && Holds(t.b, e.right)
      && n !in Own(t.a) && n !in Own(t.b) && Own(t.a) !! Own(t.b) && Own(t.a) <= Own(t) && Own(t.b) <= Own(t)
  {}

  /** The tree t with another node as its root. */
  function At(n: Node, t: Tree): Tree {
    match t
    case Leaf(_) => Leaf(n)
    case Neg(_, a) => Neg(n, a)
    case Bin(_, a, b) => Bin(n, a, b)
  }

  /** *e = *f: the node takes over another's fields. */
  method TakeOver(n: Node, from: Node, ghost t: Tree, ghost e: Expr) returns (ghost u: Tree)
    requires t.node == from && Holds(t, e) && n !in Own(t)
    modifies n
    ensures u.node == n && Holds(u, e) && Own(u) <= {n} + Own(t)
  {
    u := At(n, t);
    n.shape := from.shape;
  }

  // ----- expr_eliminate_yn -----

  method EliminateYnAt(n: Node, ghost t: Tree, ghost e: Expr) returns (r: Node, ghost u: Tree)
    requires t.node == n && Holds(t, e)
    modifies Own(t)
    ensures r == n == u.node && Holds(u, EliminateYn(e)) && Own(u) <= Own(t)
    decreases e
  {
    hide Holds; hide Own;
    Root(n, t, e);
    r, u := n, t;
    if n.shape.IsBin? {
      var c := n.shape.c;
      Alive(n.shape.right, t.b, e.right);
      var left, tl := EliminateYnAt(n.shape.left, t.a, e.left);
      n.shape := IsBin(c, left, n.shape.right);
      Alive(left, tl, EliminateYn(e.left));
      var right, tr := EliminateYnAt(n.shape.right, t.b, e.right);
      n.shape := IsBin(c, left, right);
      u := DropYn(n, c, left, right, tl, tr, EliminateYn(e.left), EliminateYn(e.right));
    }
  }

  /** The rules at one node, whose operands are done. */
  method DropYn(n: Node, c: Conn, left: Node, right: Node, ghost tl: Tree, ghost tr: Tree, ghost a: Expr, ghost b: Expr)
    returns (ghost u: Tree)
    requires n.shape == IsBin(c, left, right) && tl.node == left && tr.node == right
    requires Holds(tl, a) && Holds(tr, b) && n !in Own(tl) && n !in Own(tr) && Own(tl) !! Own(tr)
    modifies n
    ensures u.node == n && Holds(u, YnNode(c, a, b)) && Own(u) <= {n} + Own(tl) + Own(tr)
  {
    hide Own; hide Holds;
    var absorbing, neutral := if c == CAnd then SYM_NO else SYM_YES, if c == CAnd then SYM_YES else SYM_NO;
    Root(left, tl, a);
    Root(right, tr, b);
    u := Leaf(n);
    if left.shape == IsSym(absorbing) {
      n.shape := IsSym(absorbing);
      LeafHolds(n);
    } else if left.shape == IsSym(neutral) {
      u := TakeOver(n, right, tr, b);
    } else if right.shape == IsSym(absorbing) {
      n.shape := IsSym(absorbing);
      LeafHolds(n);
    } else if right.shape == IsSym(neutral) {
      u := TakeOver(n, left, tl, a);
    } else {
      u := Bin(n, tl, tr);
      JoinedHolds(n, c, tl, tr, a, b);
    }
  }

  // ----- expr_trans_bool -----

  method TransBoolAt(n: Node, ghost t: Tree, ghost e: Expr) returns (r: Node, ghost u: Tree)
    requires t.node == n && Holds(t, e)
    modifies Own(t)
    ensures r == n == u.node && Holds(u, TransBool(e)) && Own(u) <= Own(t)
    decreases e
  {
    hide Holds; hide Own;
    Root(n, t, e);
    r, u := n, t;
    match n.shape {
      case IsBin(c, l, right) =>
        Alive(right, t.b, e.right);
        var left, tl := TransBoolAt(l, t.a, e.left);
        Alive(left, tl, TransBool(e.left));
        var rr, tr := TransBoolAt(right, t.b, e.right);
        n.shape := IsBin(c, left, rr);
        u := Bin(n, tl, tr);
        JoinedHolds(n, c, tl, tr, TransBool(e.left), TransBool(e.right));
      case IsNot(x) =>
        var y, ty := TransBoolAt(x, t.a, e.e);
        n.shape := IsNot(y);
        u := Neg(n, ty);
        NegatedHolds(n, ty, TransBool(e.e));
      case IsCmp(op, l, right) =>
        if op == Ne && l.typ.Tristate? && right == SYM_NO {
          n.shape := IsSym(l);
        }
        u := Leaf(n);
        LeafHolds(n);
      case IsSym(_) =>
    }
  }

  lemma JoinedHolds(n: Node, c: Conn, tl: Tree, tr: Tree, a: Expr, b: Expr)
    requires n.shape == IsBin(c, tl.node, tr.node) && Holds(tl, a) && Holds(tr, b)
    requires n !in Own(tl) && n !in Own(tr) && Own(tl) !! Own(tr)
    ensures Holds(Bin(n, tl, tr), Mk(c, a, b)) && Own(Bin(n, tl, tr)) == {n} + Own(tl) + Own(tr)
  {}

  lemma NegatedHolds(n: Node, t: Tree, e: Expr)
    requires n.shape == IsNot(t.node) && Holds(t, e) && n !in Own(t)
    ensures Holds(Neg(n, t), Not(e)) && Own(Neg(n, t)) == {n} + Own(t)
  {}

  lemma LeafHolds(n: Node)
    ensures Own(Leaf(n)) == {n}
    ensures n.shape.IsSym? ==> Holds(Leaf(n), Sym(n.shape.s))
    ensures n.shape.IsCmp? ==> Holds(Leaf(n), Cmp(n.shape.op, n.shape.l, n.shape.r))
  {}

  // ----- rewrite_m -----

  method RewriteMAt(n: Node, modules: Symbol, ghost t: Tree, ghost e: Expr) returns (r: Node, ghost u: Tree)
    requires t.node == n && Holds(t, e)
    modifies Own(t)
    ensures u.node == r && Holds(u, RewriteM(e, modules))
    ensures forall x :: x in Own(u) ==> x in Own(t) || fresh(x)
    decreases e
  {
    hide Holds; hide Own;
    Root(n, t, e);
    r, u := n, t;
    match n.shape {
      case IsBin(c, l, right) =>
        Alive(right, t.b, e.right);
        var left, tl := RewriteMAt(l, modules, t.a, e.left);
        Alive(left, tl, RewriteM(e.left, modules));
        var rr, tr := RewriteMAt(right, modules, t.b, e.right);
        n.shape := IsBin(c, left, rr);
        u := Bin(n, tl, tr);
        JoinedHolds(n, c, tl, tr, RewriteM(e.left, modules), RewriteM(e.right, modules));
      case IsNot(x) =>
        var y, ty := RewriteMAt(x, modules, t.a, e.e);
        n.shape := IsNot(y);
        u := Neg(n, ty);
        NegatedHolds(n, ty, RewriteM(e.e, modules));
      case IsSym(s) =>
        if s == SYM_MOD {
          var m := new Node(IsSym(modules));
          r := new Node(IsBin(CAnd, n, m));
          LeafHolds(m);
          LeafHolds(n);
          u := Bin(r, Leaf(n), Leaf(m));
          JoinedHolds(r, CAnd, Leaf(n), Leaf(m), e, Sym(modules));
        }
      case IsCmp(_, _, _) =>
    }
  }

  // ----- expr_transform -----

  method TransformAt(n: Node, ghost t: Tree, ghost e: Expr) returns (r: Node, ghost u: Tree)
    requires t.node == n && Holds(t, e)
    modifies Own(t)
    ensures u.node == r && Holds(u, Rewrite(e))
    ensures forall x :: x in Own(u) ==> x in Own(t) || fresh(x)
    decreases Weight(e), 1
  {
    hide Holds; hide Own; hide RewriteNot; hide TransformCmp; hide Weight;
    Root(n, t, e);
    OperandWeight(e);
    r, u := n, t;
    match n.shape {
      case IsBin(c, l, right) =>
        Alive(right, t.b, e.right);
        var left, tl := TransformAt(l, t.a, e.left);
        Alive(left, tl, Rewrite(e.left));
        var rr, tr := TransformAt(right, t.b, e.right);
        n.shape := IsBin(c, left, rr);
        u := Bin(n, tl, tr);
        JoinedHolds(n, c, tl, tr, Rewrite(e.left), Rewrite(e.right));
      case IsNot(x) =>
        var y, ty := TransformAt(x, t.a, e.e);
        n.shape := IsNot(y);
        NotMonotone(Rewrite(e.e), e.e);
        r, u := TransformNotAt(n, y, ty, Rewrite(e.e));
      case IsCmp(op, l, right) =>
        u := TransformCmpAt(n, op, l, right);
      case IsSym(_) =>
    }
  }

  /** The rules for a comparison. */
  method TransformCmpAt(n: Node, op: CmpOp, l: Symbol, right: Symbol) returns (ghost u: Tree)
    requires n.shape == IsCmp(op, l, right)
    modifies n
    ensures u.node == n && Holds(u, TransformCmp(op, l, right))
    ensures forall x :: x in Own(u) ==> x == n || fresh(x)
  {
    u := Leaf(n);
    LeafHolds(n);
    if !l.typ.Boolean? || (op != Eq && op != Ne) {
      return;
    }
    if right == if op == Eq then SYM_NO else SYM_YES {
      var m := new Node(IsSym(l));
      n.shape := IsNot(m);
      u := Neg(n, Leaf(m));
      LeafHolds(m);
      NegatedHolds(n, Leaf(m), Sym(l));
    } else if right == SYM_MOD {
      n.shape := IsSym(if op == Eq then SYM_NO else SYM_YES);
      LeafHolds(n);
    } else if right == if op == Eq then SYM_YES else SYM_NO {
      n.shape := IsSym(l);
      LeafHolds(n);
    }
  }

  /** The rules for a negation, whose operand is done. */
  method TransformNotAt(n: Node, y: Node, ghost t: Tree, ghost e: Expr) returns (r: Node, ghost u: Tree)
    requires n.shape == IsNot(y) && t.node == y && Holds(t, e) && n !in Own(t)
    modifies n, Own(t)
    ensures u.node == r && Holds(u, RewriteNot(e))
    ensures forall x :: x in Own(u) ==> x == n || x in Own(t) || fresh(x)
    decreases Weight(Not(e)), 0
  {
    hide Holds; hide Own; hide Rewrite; hide Weight;
    Root(y, t, e);
    NotWeight(e);
    match y.shape {
      case IsNot(z) =>
        r, u := TransformAt(z, t.a, e.e);
      case IsCmp(op, l, right) =>
        y.shape := IsCmp(Negated(op), l, right);
        LeafHolds(y);
        r, u := y, Leaf(y);
      case IsBin(c, l, right) =>
        Alive(l, t.a, e.left);
        Alive(right, t.b, e.right);
        var m := new Node(IsNot(right));
        n.shape := IsBin(if c == CAnd then COr else CAnd, y, m);
        y.shape := IsNot(l);
        NegatedHolds(y, t.a, e.left);
        NegatedHolds(m, t.b, e.right);
        ghost var v := Bin(n, Neg(y, t.a), Neg(m, t.b));
        JoinedHolds(n, n.shape.c, Neg(y, t.a), Neg(m, t.b), Not(e.left), Not(e.right));
        r, u := TransformAt(n, v, Mk(n.shape.c, Not(e.left), Not(e.right)));
      case IsSym(s) =>
        LeafHolds(y);
        if s == SYM_YES || s == SYM_MOD || s == SYM_NO {
          y.shape := IsSym(if s == SYM_YES then SYM_NO else if s == SYM_MOD then SYM_MOD else SYM_YES);
          LeafHolds(y);
          r, u := y, Leaf(y);
        } else {
          r, u := n, Neg(n, t);
          NegatedHolds(n, t, e);
        }
    }
  }
}
