/** Slots of an expression tree: paths from the root through && and || nodes.  A slot
    is what a pointer to an operand designates, so two slots may lie in one tree. */
module Slots {
  import opened Exprs
  import opened Leaves

  /** false goes to the left operand, true to the right one. */
  type Path = seq<bool>

  predicate Valid(e: Expr, p: Path) {
    p == [] || ((e.And? || e.Or?) && Valid(Child(e, p[0]), p[1..]))
  }

  function Child(e: Expr, b: bool): Expr
    requires e.And? || e.Or?
  {
    if b then e.right else e.left
  }

  function WithChild(e: Expr, b: bool, x: Expr): Expr
    requires e.And? || e.Or?
  {
    var c := if e.And? then CAnd else COr;
    if b then Mk(c, e.left, x) else Mk(c, x, e.right)
  }

  function At(e: Expr, p: Path): Expr
    requires Valid(e, p)
  {
    if p == [] then e else At(Child(e, p[0]), p[1..])
  }

  function Put(e: Expr, p: Path, x: Expr): Expr
    requires Valid(e, p)
  {
    if p == [] then x else WithChild(e, p[0], Put(Child(e, p[0]), p[1..], x))
  }

  lemma {:induction false} AtPut(e: Expr, p: Path, x: Expr)
    requires Valid(e, p)
    ensures Valid(Put(e, p, x), p) && At(Put(e, p, x), p) == x
    ensures Put(e, p, At(e, p)) == e
    ensures forall y :: Put(Put(e, p, x), p, y) == Put(e, p, y)
  {
    if p != [] {
      AtPut(Child(e, p[0]), p[1..], x);
    }
  }

  /** A path in two stages. */
  lemma {:induction false} Stages(e: Expr, p: Path, q: Path, x: Expr)
    requires Valid(e, p)
    ensures Valid(e, p + q) <==> Valid(At(e, p), q)
    ensures Valid(At(e, p), q) ==> At(e, p + q) == At(At(e, p), q)
    ensures Valid(At(e, p), q) ==> Put(e, p + q, x) == Put(e, p, Put(At(e, p), q, x))
  {
    if p == [] {
      assert p + q == q;
    } else {
      assert (p + q)[1..] == p[1..] + q;
      Stages(Child(e, p[0]), p[1..], q, x);
    }
  }

  // ----- slots within one level -----

  /** Every node above the slot belongs to the level of c. */
  predicate InLevel(c: Conn, e: Expr, q: Path) {
    q == [] || (IsConn(c, e) && InLevel(c, Child(e, q[0]), q[1..]))
  }

  lemma {:induction false} InLevelValid(c: Conn, e: Expr, q: Path)
    requires InLevel(c, e, q)
    ensures Valid(e, q)
  {
    if q != [] {
      InLevelValid(c, Child(e, q[0]), q[1..]);
    }
  }

  /** The number of operands to the left of a slot, and the number below it. */
  function First(c: Conn, e: Expr, q: Path): nat
    requires InLevel(c, e, q)
  {
    if q == [] then 0
    else (if q[0] then |LeavesOf(c, e.left)| else 0) + First(c, Child(e, q[0]), q[1..])
  }

  function Width(c: Conn, e: Expr, q: Path): nat
    requires InLevel(c, e, q)
  {
    InLevelValid(c, e, q);
    |LeavesOf(c, At(e, q))|
  }

  lemma {:induction false} SlotRange(c: Conn, e: Expr, q: Path)
    requires InLevel(c, e, q)
    ensures 1 <= Width(c, e, q)
    ensures First(c, e, q) + Width(c, e, q) <= |LeavesOf(c, e)|
  {
    if q != [] {
      SlotRange(c, Child(e, q[0]), q[1..]);
    }
  }

  lemma {:induction false} SlotChildren(c: Conn, e: Expr, q: Path)
    requires InLevel(c, e, q) && Valid(e, q) && IsConn(c, At(e, q))
    ensures InLevel(c, e, q + [false]) && InLevel(c, e, q + [true])
    ensures First(c, e, q + [false]) == First(c, e, q)
    ensures First(c, e, q + [true]) == First(c, e, q) + Width(c, e, q + [false])
    ensures Width(c, e, q) == Width(c, e, q + [false]) + Width(c, e, q + [true])
  {
    if q == [] {
      assert q + [false] == [false] && q + [true] == [true];
      assert [false][1..] == [] && [true][1..] == [];
      assert At(e, [false]) == At(e.left, []) == e.left;
      assert At(e, [true]) == At(e.right, []) == e.right;
    } else {
      assert (q + [false])[1..] == q[1..] + [false];
      assert (q + [true])[1..] == q[1..] + [true];
      SlotChildren(c, Child(e, q[0]), q[1..]);
    }
  }

  lemma RebuildHalves(c: Conn, e: Expr, ls: seq<Expr>, ms: seq<Expr>)
    requires IsConn(c, e) && |ls| == |LeavesOf(c, e.left)| && |ms| == |LeavesOf(c, e.right)|
    ensures LeavesOf(c, e) == LeavesOf(c, e.left) + LeavesOf(c, e.right)
    ensures Rebuild(c, e, ls + ms) == Mk(c, Rebuild(c, e.left, ls), Rebuild(c, e.right, ms))
  {
    assert (ls + ms)[..|ls|] == ls && (ls + ms)[|ls|..] == ms;
  }

  lemma PrefixWrite(a: seq<Expr>, b: seq<Expr>, i: nat, x: Expr)
    requires i < |a|
    ensures (a + b)[i] == a[i] && (a + b)[i := x] == a[i := x] + b
  {}

  lemma SuffixWrite(a: seq<Expr>, b: seq<Expr>, i: nat, x: Expr)
    requires i < |b|
    ensures (a + b)[|a| + i] == b[i] && (a + b)[|a| + i := x] == a + b[i := x]
  {}

  /** Writing an operand of the left half of a level. */
  lemma WriteLeft(c: Conn, e: Expr, i: nat, x: Expr)
    requires IsConn(c, e) && i < |LeavesOf(c, e.left)|
    ensures i < |LeavesOf(c, e)| && LeavesOf(c, e)[i] == LeavesOf(c, e.left)[i]
    ensures Rebuild(c, e, LeavesOf(c, e)[i := x]) == Mk(c, Rebuild(c, e.left, LeavesOf(c, e.left)[i := x]), e.right)
  {
    hide LeavesOf; hide Rebuild; hide Mk;
    var a, b := LeavesOf(c, e.left), LeavesOf(c, e.right);
    RebuildLeaves(c, e.right);
    RebuildHalves(c, e, a[i := x], b);
    PrefixWrite(a, b, i, x);
  }

  /** Writing an operand of the right half of a level. */
  lemma WriteRight(c: Conn, e: Expr, i: nat, x: Expr)
    requires IsConn(c, e) && i < |LeavesOf(c, e.right)|
    ensures |LeavesOf(c, e.left)| + i < |LeavesOf(c, e)|
    ensures LeavesOf(c, e)[|LeavesOf(c, e.left)| + i] == LeavesOf(c, e.right)[i]
    ensures Rebuild(c, e, LeavesOf(c, e)[|LeavesOf(c, e.left)| + i := x])
         == Mk(c, e.left, Rebuild(c, e.right, LeavesOf(c, e.right)[i := x]))
  {
    hide LeavesOf; hide Rebuild; hide Mk;
    var a, b := LeavesOf(c, e.left), LeavesOf(c, e.right);
    RebuildLeaves(c, e.left);
    RebuildHalves(c, e, a, b[i := x]);
    SuffixWrite(a, b, i, x);
  }

  lemma LoneLeaf(c: Conn, e: Expr, x: Expr)
    requires !IsConn(c, e)
    ensures LeavesOf(c, e) == [e] && LeavesOf(c, e)[0 := x] == [x] && Rebuild(c, e, [x]) == x
  {}

  /** A slot that holds an operand of the level holds the operand at its index, and
      writing it writes that operand. */
  lemma {:induction false} SlotLeaf(c: Conn, e: Expr, q: Path, x: Expr)
    requires InLevel(c, e, q) && Valid(e, q) && !IsConn(c, At(e, q))
    ensures First(c, e, q) < |LeavesOf(c, e)|
    ensures LeavesOf(c, e)[First(c, e, q)] == At(e, q)
    ensures Put(e, q, x) == Rebuild(c, e, LeavesOf(c, e)[First(c, e, q) := x])
  {
    hide LeavesOf; hide Rebuild;
    if q == [] {
      LoneLeaf(c, e, x);
    } else {
      var i := First(c, Child(e, q[0]), q[1..]);
      SlotLeaf(c, Child(e, q[0]), q[1..], x);
      if q[0] {
        WriteRight(c, e, i, x);
      } else {
        WriteLeft(c, e, i, x);
      }
    }
  }

  /** Different operand slots have different indices. */
  lemma {:induction false} SlotsDiffer(c: Conn, e: Expr, q1: Path, q2: Path)
    requires InLevel(c, e, q1) && Valid(e, q1) && !IsConn(c, At(e, q1))
    requires InLevel(c, e, q2) && Valid(e, q2) && !IsConn(c, At(e, q2))
    ensures First(c, e, q1) == First(c, e, q2) <==> q1 == q2
  {
    if q1 != [] && q2 != [] {
      if q1[0] == q2[0] {
        SlotsDiffer(c, Child(e, q1[0]), q1[1..], q2[1..]);
        assert q1 == [q1[0]] + q1[1..] && q2 == [q2[0]] + q2[1..];
      } else {
        SlotRange(c, Child(e, q1[0]), q1[1..]);
        SlotRange(c, Child(e, q2[0]), q2[1..]);
      }
    }
  }

  /** Rebuilding a level with other operands moves no slot of the level. */
  lemma {:induction false} RebuildSlots(c: Conn, e: Expr, ls: seq<Expr>, q: Path)
    requires |ls| == |LeavesOf(c, e)| && AllLeaves(c, ls) && InLevel(c, e, q)
    ensures InLevel(c, Rebuild(c, e, ls), q)
    ensures First(c, Rebuild(c, e, ls), q) == First(c, e, q)
    ensures Width(c, Rebuild(c, e, ls), q) == Width(c, e, q)
  {
    LeavesRebuild(c, e, ls);
    InLevelValid(c, e, q);
    if q != [] {
      var n := |LeavesOf(c, e.left)|;
      LeavesRebuild(c, e.left, ls[..n]);
      LeavesRebuild(c, e.right, ls[n..]);
      if q[0] {
        RebuildSlots(c, e.right, ls[n..], q[1..]);
      } else {
        RebuildSlots(c, e.left, ls[..n], q[1..]);
      }
    }
  }

  lemma {:induction false} RebuildTwice(c: Conn, e: Expr, ls: seq<Expr>, ms: seq<Expr>)
    requires |ls| == |ms| == |LeavesOf(c, e)| && AllLeaves(c, ls)
    ensures |LeavesOf(c, Rebuild(c, e, ls))| == |ms|
    ensures Rebuild(c, Rebuild(c, e, ls), ms) == Rebuild(c, e, ms)
  {
    LeavesRebuild(c, e, ls);
    if IsConn(c, e) {
      var n := |LeavesOf(c, e.left)|;
      RebuildTwice(c, e.left, ls[..n], ms[..n]);
      RebuildTwice(c, e.right, ls[n..], ms[n..]);
    } else {
      assert Rebuild(c, e, ls) == ls[0] && !IsConn(c, ls[0]);
    }
  }
}
