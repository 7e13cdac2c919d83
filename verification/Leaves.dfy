/** The operands of one && or || level as a sequence, and rebuilding the level from
    a new sequence of operands. */
module Leaves {
  import opened Exprs
  import opened Equality

  function LeavesOf(c: Conn, e: Expr): (ls: seq<Expr>)
    ensures |ls| >= 1
    ensures IsConn(c, e) ==> |ls| >= 2
    ensures AllLeaves(c, ls)
    ensures !IsConn(c, e) ==> ls == [e]
  {
    if IsConn(c, e) then LeavesOf(c, e.left) + LeavesOf(c, e.right) else [e]
  }

  ghost predicate AllLeaves(c: Conn, ls: seq<Expr>) {
    forall k :: 0 <= k < |ls| ==> !IsConn(c, ls[k])
  }

  function Rebuild(c: Conn, e: Expr, ls: seq<Expr>): Expr
    requires |ls| == |LeavesOf(c, e)|
  {
    if IsConn(c, e) then
      var n := |LeavesOf(c, e.left)|;
      Mk(c, Rebuild(c, e.left, ls[..n]), Rebuild(c, e.right, ls[n..]))
    else ls[0]
  }

  lemma {:induction false} RebuildLeaves(c: Conn, e: Expr)
    ensures Rebuild(c, e, LeavesOf(c, e)) == e
  {
    if IsConn(c, e) {
      RebuildLeaves(c, e.left);
      RebuildLeaves(c, e.right);
      assert LeavesOf(c, e)[..|LeavesOf(c, e.left)|] == LeavesOf(c, e.left);
      assert LeavesOf(c, e)[|LeavesOf(c, e.left)|..] == LeavesOf(c, e.right);
    }
  }

  lemma LeavesMk(c: Conn, a: Expr, b: Expr)
    ensures LeavesOf(c, Mk(c, a, b)) == LeavesOf(c, a) + LeavesOf(c, b)
  {
  }

  /** Rebuilding puts exactly the given operands at the level. */
  lemma {:induction false} LeavesRebuild(c: Conn, e: Expr, ls: seq<Expr>)
    requires |ls| == |LeavesOf(c, e)| && AllLeaves(c, ls)
    ensures LeavesOf(c, Rebuild(c, e, ls)) == ls
    ensures IsConn(c, e) ==> IsConn(c, Rebuild(c, e, ls))
  {
    if IsConn(c, e) {
      hide LeavesOf;
      LeavesMk(c, e.left, e.right);
      var n := |LeavesOf(c, e.left)|;
      assert ls == ls[..n] + ls[n..];
      LeavesRebuild(c, e.left, ls[..n]);
      LeavesRebuild(c, e.right, ls[n..]);
      LeavesMk(c, Rebuild(c, e.left, ls[..n]), Rebuild(c, e.right, ls[n..]));
    } else {
      assert ls == [ls[0]];
    }
  }

  // ----- sizes -----

  function SumSize(ls: seq<Expr>): nat {
    if ls == [] then 0 else Size(ls[0]) + SumSize(ls[1..])
  }

  lemma {:induction false} SumSizeConcat(a: seq<Expr>, b: seq<Expr>)
    ensures SumSize(a + b) == SumSize(a) + SumSize(b)
  {
    if a == [] {
      assert a + b == b;
    } else {
      assert (a + b)[1..] == a[1..] + b;
      SumSizeConcat(a[1..], b);
    }
  }

  lemma {:induction false} SumSizeUpdate(ls: seq<Expr>, i: nat, x: Expr)
    requires i < |ls|
    ensures SumSize(ls[i := x]) == SumSize(ls) - Size(ls[i]) + Size(x)
    ensures Size(ls[i]) <= SumSize(ls)
  {
    if i == 0 {
      assert ls[i := x][1..] == ls[1..];
    } else {
      assert ls[i := x][1..] == ls[1..][i - 1 := x];
      SumSizeUpdate(ls[1..], i - 1, x);
    }
  }

  lemma {:induction false} SizePositive(e: Expr)
    ensures Size(e) >= 1
  {
  }

  lemma {:induction false} TwoSizes(ls: seq<Expr>, i: nat, j: nat)
    requires i < |ls| && j < |ls| && i != j
    ensures Size(ls[i]) + Size(ls[j]) <= SumSize(ls)
    ensures Size(ls[i]) < SumSize(ls)
  {
    SizePositive(ls[j]);
    var a := E_NO;
    SumSizeUpdate(ls, i, a);
    SumSizeUpdate(ls[i := a], j, a);
    SizePositive(ls[i]);
    SumSizeAtLeast(ls[i := a][j := a], i, j);
  }

  lemma {:induction false} SumSizeAtLeast(ls: seq<Expr>, i: nat, j: nat)
    requires i < |ls| && j < |ls| && i != j
    requires ls[i] == ls[j] == E_NO
    ensures SumSize(ls) >= 2
  {
    if i == 0 {
      SumSizeUpdate(ls[1..], j - 1, E_NO);
    } else if j == 0 {
      SumSizeUpdate(ls[1..], i - 1, E_NO);
    } else {
      SumSizeAtLeast(ls[1..], i - 1, j - 1);
    }
  }

  lemma {:induction false} RebuildSize(c: Conn, e: Expr, ls: seq<Expr>)
    requires |ls| == |LeavesOf(c, e)|
    ensures Size(Rebuild(c, e, ls)) == SumSize(ls) + |ls| - 1
  {
    if IsConn(c, e) {
      var n := |LeavesOf(c, e.left)|;
      RebuildSize(c, e.left, ls[..n]);
      RebuildSize(c, e.right, ls[n..]);
      assert ls == ls[..n] + ls[n..];
      SumSizeConcat(ls[..n], ls[n..]);
    } else {
      assert ls == [ls[0]];
      assert SumSize(ls) == Size(ls[0]) + SumSize(ls[1..]);
    }
  }

  lemma LeavesSize(c: Conn, e: Expr)
    ensures Size(e) == SumSize(LeavesOf(c, e)) + |LeavesOf(c, e)| - 1
  {
    RebuildLeaves(c, e);
    RebuildSize(c, e, LeavesOf(c, e));
  }

  // ----- values -----

  /** The common value of a level of operands. */
  function Fold(c: Conn, ls: seq<Expr>, env: Env): Tri {
    if ls == [] then (if c == CAnd then YES else NO)
    else Combine(c, Value(ls[0], env), Fold(c, ls[1..], env))
  }

  lemma {:induction false} FoldConcat(c: Conn, a: seq<Expr>, b: seq<Expr>, env: Env)
    ensures Fold(c, a + b, env) == Combine(c, Fold(c, a, env), Fold(c, b, env))
  {
    if a == [] {
      assert a + b == b;
    } else {
      assert (a + b)[1..] == a[1..] + b;
      FoldConcat(c, a[1..], b, env);
    }
  }

  lemma {:induction false} RebuildValue(c: Conn, e: Expr, ls: seq<Expr>, env: Env)
    requires |ls| == |LeavesOf(c, e)|
    ensures Value(Rebuild(c, e, ls), env) == Fold(c, ls, env)
  {
    if IsConn(c, e) {
      var n := |LeavesOf(c, e.left)|;
      RebuildValue(c, e.left, ls[..n], env);
      RebuildValue(c, e.right, ls[n..], env);
      assert ls == ls[..n] + ls[n..];
      FoldConcat(c, ls[..n], ls[n..], env);
      MkValue(c, Rebuild(c, e.left, ls[..n]), Rebuild(c, e.right, ls[n..]), env);
    } else {
      assert ls[1..] == [];
      assert Fold(c, ls, env) == Combine(c, Value(ls[0], env), Fold(c, ls[1..], env));
    }
  }

  lemma LeavesValue(c: Conn, e: Expr, env: Env)
    ensures Value(e, env) == Fold(c, LeavesOf(c, e), env)
  {
    RebuildLeaves(c, e);
    RebuildValue(c, e, LeavesOf(c, e), env);
  }

  /** A level's value is its operand i combined with the level where i is neutral. */
  lemma {:induction false} FoldSplit(c: Conn, ls: seq<Expr>, i: nat, x: Expr, env: Env)
    requires Produced(env) && i < |ls|
    ensures Fold(c, ls[i := x], env) == Combine(c, Value(x, env), Fold(c, ls[i := Neutral(c)], env))
  {
    assert ProducedAt(env, SYM_YES) && ProducedAt(env, SYM_NO);
    if i == 0 {
      assert ls[i := x][1..] == ls[1..];
      assert ls[i := Neutral(c)][1..] == ls[1..];
    } else {
      assert ls[i := x][1..] == ls[1..][i - 1 := x];
      assert ls[i := Neutral(c)][1..] == ls[1..][i - 1 := Neutral(c)];
      FoldSplit(c, ls[1..], i - 1, x, env);
    }
  }

  /** Moving the combined value of two operands into one of them keeps the level. */
  lemma FoldMerge(c: Conn, ls: seq<Expr>, i: nat, j: nat, t: Expr, env: Env)
    requires Produced(env) && i < |ls| && j < |ls| && i != j
    requires Value(t, env) == Combine(c, Value(ls[i], env), Value(ls[j], env))
    ensures Fold(c, ls[i := Neutral(c)][j := t], env) == Fold(c, ls, env)
  {
    hide Fold; hide Value;
    var neutral := ls[i := Neutral(c)];
    FoldSplit(c, ls, i, ls[i], env);
    assert ls[i := ls[i]] == ls;
    FoldSplit(c, neutral, j, t, env);
    FoldSplit(c, neutral, j, ls[j], env);
    assert neutral[j := ls[j]] == neutral;
  }

  lemma FoldReplace(c: Conn, ls: seq<Expr>, i: nat, x: Expr, env: Env)
    requires Produced(env) && i < |ls|
    requires Value(x, env) == Value(ls[i], env)
    ensures Fold(c, ls[i := x], env) == Fold(c, ls, env)
  {
    FoldSplit(c, ls, i, x, env);
    FoldSplit(c, ls, i, ls[i], env);
    assert ls[i := ls[i]] == ls;
  }
}
