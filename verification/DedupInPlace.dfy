/** The in-place form of duplicate removal: one tree, updated through two slots that
    may lie in the same level of it. */
module DedupInPlace {
  import opened Exprs
  import opened Equality
  import opened Joins
  import opened Leaves
  import opened Dedup
  import opened Slots

  // ----- ranges of comparisons compose -----

  lemma {:induction false} RowSplit(c: Conn, ls: seq<Expr>, i: nat, lo: nat, mid: nat, hi: nat)
    requires i < |ls| && lo <= mid <= hi <= |ls| && AllLeaves(c, ls)
    ensures var a := Row(c, ls, i, lo, mid);
            var b := Row(c, a.ls, i, mid, hi);
            Row(c, ls, i, lo, hi) == Scan(b.ls, a.n + b.n)
    decreases mid - lo
  {
    if lo < mid {
      RowSplit(c, Cell(c, ls, i, lo).ls, i, lo + 1, mid, hi);
    }
  }

  lemma {:induction false} RowsSplit(c: Conn, ls: seq<Expr>, lo: nat, mid: nat, hi: nat, lo2: nat, hi2: nat)
    requires lo <= mid <= hi <= |ls| && lo2 <= hi2 <= |ls| && AllLeaves(c, ls)
    ensures var a := Rows(c, ls, lo, mid, lo2, hi2);
            var b := Rows(c, a.ls, mid, hi, lo2, hi2);
            Rows(c, ls, lo, hi, lo2, hi2) == Scan(b.ls, a.n + b.n)
    decreases mid - lo
  {
    if lo < mid {
      RowsSplit(c, Row(c, ls, lo, lo2, hi2).ls, lo + 1, mid, hi, lo2, hi2);
    }
  }

  /** One operand against a range, split in two. */
  lemma RowsOneSplit(c: Conn, ls: seq<Expr>, i: nat, lo: nat, mid: nat, hi: nat)
    requires i < |ls| && lo <= mid <= hi <= |ls| && AllLeaves(c, ls)
    ensures var a := Rows(c, ls, i, i + 1, lo, mid);
            var b := Rows(c, a.ls, i, i + 1, mid, hi);
            Rows(c, ls, i, i + 1, lo, hi) == Scan(b.ls, a.n + b.n)
  {
    hide Rows; hide Row;
    RowsOne(c, ls, i, lo, mid);
    RowsOne(c, ls, i, lo, hi);
    RowsOne(c, Row(c, ls, i, lo, mid).ls, i, mid, hi);
    RowSplit(c, ls, i, lo, mid, hi);
  }

  lemma RowsOne(c: Conn, ls: seq<Expr>, i: nat, lo: nat, hi: nat)
    requires i < |ls| && lo <= hi <= |ls| && AllLeaves(c, ls)
    ensures Rows(c, ls, i, i + 1, lo, hi) == Row(c, ls, i, lo, hi)
  {
    var a := Row(c, ls, i, lo, hi);
    assert Rows(c, a.ls, i + 1, i + 1, lo, hi) == Scan(a.ls, 0);
  }

  lemma RowsCell(c: Conn, ls: seq<Expr>, i: nat, j: nat)
    requires i < |ls| && j < |ls| && AllLeaves(c, ls)
    ensures Rows(c, ls, i, i + 1, j, j + 1) == Cell(c, ls, i, j)
  {
    RowsOne(c, ls, i, j, j + 1);
    var a := Cell(c, ls, i, j);
    assert Row(c, a.ls, i, j + 1, j + 1) == Scan(a.ls, 0);
  }

  // ----- the tree after a range of comparisons -----

  /** The level e after comparing the operands below slot q1 with those below q2. */
  function After(c: Conn, e: Expr, q1: Path, q2: Path): (r: Counted)
    requires IsConn(c, e) && InLevel(c, e, q1) && InLevel(c, e, q2)
  {
    SlotRange(c, e, q1);
    SlotRange(c, e, q2);
    var lo1, lo2 := First(c, e, q1), First(c, e, q2);
    var s := Rows(c, LeavesOf(c, e), lo1, lo1 + Width(c, e, q1), lo2, lo2 + Width(c, e, q2));
    Counted(Rebuild(c, e, s.ls), s.n)
  }

  lemma AfterShape(c: Conn, e: Expr, q1: Path, q2: Path, q: Path)
    requires IsConn(c, e) && InLevel(c, e, q1) && InLevel(c, e, q2) && InLevel(c, e, q)
    ensures var r := After(c, e, q1, q2).e;
            && IsConn(c, r) && Size(r) <= Size(e)
            && InLevel(c, r, q) && First(c, r, q) == First(c, e, q) && Width(c, r, q) == Width(c, e, q)
  {
    hide Rows; hide LeavesOf; hide Rebuild; hide First; hide InLevel; hide At; hide Valid; hide Put; hide Size; hide SumSize;
    SlotRange(c, e, q1);
    SlotRange(c, e, q2);
    var lo1, lo2 := First(c, e, q1), First(c, e, q2);
    var s := Rows(c, LeavesOf(c, e), lo1, lo1 + Width(c, e, q1), lo2, lo2 + Width(c, e, q2));
    LeavesRebuild(c, e, s.ls);
    RebuildSize(c, e, s.ls);
    LeavesSize(c, e);
    RebuildSlots(c, e, s.ls, q);
  }

  lemma AfterChain(c: Conn, e: Expr, ls: seq<Expr>, s: Scan)
    requires |ls| == |LeavesOf(c, e)| == |s.ls| && AllLeaves(c, ls)
    ensures LeavesOf(c, Rebuild(c, e, ls)) == ls
    ensures Rebuild(c, Rebuild(c, e, ls), s.ls) == Rebuild(c, e, s.ls)
  {
    LeavesRebuild(c, e, ls);
    RebuildTwice(c, e, ls, s.ls);
  }

  /** Descending into the first slot: left half, then right half. */
  lemma AfterLeft(c: Conn, e: Expr, q1: Path, q2: Path)
    requires IsConn(c, e) && InLevel(c, e, q1) && InLevel(c, e, q2)
    requires Valid(e, q1) && IsConn(c, At(e, q1))
    ensures InLevel(c, e, q1 + [false]) && InLevel(c, e, q1 + [true])
    ensures var a := After(c, e, q1 + [false], q2);
            && IsConn(c, a.e) && InLevel(c, a.e, q1 + [true]) && InLevel(c, a.e, q2)
            && var b := After(c, a.e, q1 + [true], q2);
               After(c, e, q1, q2) == Counted(b.e, a.n + b.n)
  {
    hide Rows; hide LeavesOf; hide Rebuild; hide First; hide InLevel; hide At; hide Valid; hide Put; hide Size; hide SumSize;
    SlotChildren(c, e, q1);
    SlotRange(c, e, q1);
    SlotRange(c, e, q2);
    AfterShape(c, e, q1 + [false], q2, q1 + [true]);
    AfterShape(c, e, q1 + [false], q2, q2);
    var lo1, lo2 := First(c, e, q1), First(c, e, q2);
    var mid := lo1 + Width(c, e, q1 + [false]);
    var hi1, hi2 := lo1 + Width(c, e, q1), lo2 + Width(c, e, q2);
    var ls := LeavesOf(c, e);
    RowsSplit(c, ls, lo1, mid, hi1, lo2, hi2);
    var a := Rows(c, ls, lo1, mid, lo2, hi2);
    AfterChain(c, e, a.ls, Rows(c, a.ls, mid, hi1, lo2, hi2));
  }

  /** Descending into the second slot while the first one holds an operand. */
  lemma AfterRight(c: Conn, e: Expr, q1: Path, q2: Path)
    requires IsConn(c, e) && InLevel(c, e, q1) && InLevel(c, e, q2)
    requires Valid(e, q1) && !IsConn(c, At(e, q1))
    requires Valid(e, q2) && IsConn(c, At(e, q2))
    ensures InLevel(c, e, q2 + [false]) && InLevel(c, e, q2 + [true])
    ensures var a := After(c, e, q1, q2 + [false]);
            && IsConn(c, a.e) && InLevel(c, a.e, q1) && InLevel(c, a.e, q2 + [true])
            && var b := After(c, a.e, q1, q2 + [true]);
               After(c, e, q1, q2) == Counted(b.e, a.n + b.n)
  {
    hide Rows; hide LeavesOf; hide Rebuild; hide First; hide InLevel; hide At; hide Valid; hide Put; hide Size; hide SumSize;
    SlotChildren(c, e, q2);
    SlotRange(c, e, q1);
    SlotRange(c, e, q2);
    AfterShape(c, e, q1, q2 + [false], q2 + [true]);
    AfterShape(c, e, q1, q2 + [false], q1);
    var i, lo := First(c, e, q1), First(c, e, q2);
    assert Width(c, e, q1) == 1;
    var mid, hi := lo + Width(c, e, q2 + [false]), lo + Width(c, e, q2);
    var ls := LeavesOf(c, e);
    RowsOneSplit(c, ls, i, lo, mid, hi);
    var a := Rows(c, ls, i, i + 1, lo, mid);
    AfterChain(c, e, a.ls, Rows(c, a.ls, i, i + 1, mid, hi));
  }

  /** Two slots that both hold operands: one comparison. */
  lemma AfterLeaves(c: Conn, e: Expr, q1: Path, q2: Path)
    requires IsConn(c, e) && InLevel(c, e, q1) && InLevel(c, e, q2)
    requires Valid(e, q1) && !IsConn(c, At(e, q1)) && Valid(e, q2) && !IsConn(c, At(e, q2))
    ensures q1 == q2 ==> After(c, e, q1, q2) == Counted(e, 0)
    ensures q1 != q2 ==>
      var x := Pass(At(e, q1));
      var e1 := Put(e, q1, x.e);
      && Valid(e1, q2) && At(e1, q2) == At(e, q2)
      && Valid(e1, q1) && Valid(Put(e1, q1, Neutral(c)), q2)
      && match Join(c, x.e, At(e, q2)) {
         case None => After(c, e, q1, q2) == Counted(e1, x.n)
         case Some(t) => After(c, e, q1, q2) == Counted(Put(Put(e1, q1, Neutral(c)), q2, t), x.n + 1)
         }
  {
    hide Rows; hide LeavesOf; hide Rebuild; hide First; hide InLevel; hide At; hide Valid; hide Put; hide Size; hide SumSize; hide Pass; hide Join;
    var i, j := First(c, e, q1), First(c, e, q2);
    var ls := LeavesOf(c, e);
    SlotLeaf(c, e, q1, E_NO);
    SlotLeaf(c, e, q2, E_NO);
    SlotsDiffer(c, e, q1, q2);
    RowsCell(c, ls, i, j);
    RebuildLeaves(c, e);
    if q1 != q2 {
      var x := Pass(ls[i]);
      PutSlot(c, e, ls, q1, q1, x.e);
      PutSlot(c, e, ls, q1, q2, x.e);
      var ls1 := ls[i := x.e];
      var e1 := Rebuild(c, e, ls1);
      LeavesRebuild(c, e, ls1);
      PutSlot(c, e1, ls1, q1, q2, Neutral(c));
      match Join(c, x.e, ls[j]) {
        case None =>
        case Some(t) =>
          JoinShape(c, x.e, ls[j]);
          RebuildTwice(c, e, ls1, ls1[i := Neutral(c)]);
          var ls2 := ls1[i := Neutral(c)];
          var e2 := Rebuild(c, e, ls2);
          PutSlot(c, e2, ls2, q2, q2, t);
          RebuildTwice(c, e, ls2, ls2[j := t]);
      }
    }
  }

  /** Writing one operand slot, seen from another operand slot of the same level. */
  lemma PutSlot(c: Conn, e: Expr, ls: seq<Expr>, q: Path, other: Path, x: Expr)
    requires ls == LeavesOf(c, e) && !IsConn(c, x)
    requires InLevel(c, e, q) && Valid(e, q) && !IsConn(c, At(e, q))
    requires InLevel(c, e, other) && Valid(e, other) && !IsConn(c, At(e, other))
    ensures First(c, e, q) < |ls| && First(c, e, other) < |ls|
    ensures var r := Put(e, q, x);
            && r == Rebuild(c, e, ls[First(c, e, q) := x]) && LeavesOf(c, r) == ls[First(c, e, q) := x]
            && Valid(r, q) && InLevel(c, r, other) && Valid(r, other) && First(c, r, other) == First(c, e, other)
            && At(r, other) == ls[First(c, e, q) := x][First(c, e, other)]
            && !IsConn(c, At(r, other))
  {
    SlotLeaf(c, e, q, x);
    SlotLeaf(c, e, other, x);
    SlotsDiffer(c, e, q, other);
    var ms := ls[First(c, e, q) := x];
    LeavesRebuild(c, e, ms);
    RebuildSlots(c, e, ms, other);
    var r := Rebuild(c, e, ms);
    InLevelValid(c, r, other);
    assert Width(c, r, other) == 1;
    SlotLeaf(c, r, other, x);
    AtPut(e, q, x);
  }

  lemma PassAtom(e: Expr)
    requires !e.And? && !e.Or?
    ensures Pass(e) == Counted(e, 0)
  {
  }

  /** The whole level against itself is one pass. */
  lemma AfterWhole(c: Conn, e: Expr)
    requires IsConn(c, e)
    ensures After(c, e, [], []) == PassAt(c, e)
  {
    hide Rows; hide LeavesOf; hide Rebuild; hide Size; hide SumSize;
  }

  // ----- the same steps, seen from the root of the tree -----

  /** An operand of a level is smaller than the level. */
  lemma SlotLeafSmaller(c: Conn, e: Expr, q: Path)
    requires IsConn(c, e) && InLevel(c, e, q) && Valid(e, q) && !IsConn(c, At(e, q))
    ensures Size(At(e, q)) < Size(e)
  {
    SlotLeaf(c, e, q, E_NO);
    LeavesSize(c, e);
    SumSizeUpdate(LeavesOf(c, e), First(c, e, q), E_NO);
  }

  lemma SlotOfRoot(c: Conn, root: Expr, base: Path, q: Path)
    requires Valid(root, base) && InLevel(c, At(root, base), q)
    ensures Valid(At(root, base), q) && Valid(root, base + q)
    ensures At(root, base + q) == At(At(root, base), q)
  {
    InLevelValid(c, At(root, base), q);
    Stages(root, base, q, E_NO);
  }

  /** Reading and writing through a slot of a level that was written as a whole. */
  lemma WrittenLevel(root: Expr, base: Path, level: Expr, q: Path, x: Expr)
    requires Valid(root, base) && Valid(level, q)
    ensures var r := Put(root, base, level);
            && Valid(r, base) && At(r, base) == level
            && Valid(r, base + q) && At(r, base + q) == At(level, q)
            && Put(r, base + q, x) == Put(root, base, Put(level, q, x))
  {
    AtPut(root, base, level);
    Stages(Put(root, base, level), base, q, x);
  }

  lemma LeftStep(c: Conn, root: Expr, base: Path, q1: Path, q2: Path)
    requires Valid(root, base) && IsConn(c, At(root, base))
    requires InLevel(c, At(root, base), q1) && InLevel(c, At(root, base), q2)
    requires Valid(At(root, base), q1) && IsConn(c, At(At(root, base), q1))
    ensures base + q1 + [false] == base + (q1 + [false]) && base + q1 + [true] == base + (q1 + [true])
    ensures var e := At(root, base);
            && InLevel(c, e, q1 + [false]) && Width(c, e, q1 + [false]) < Width(c, e, q1)
            && var a := After(c, e, q1 + [false], q2);
            && var r := Put(root, base, a.e);
            && Valid(r, base) && At(r, base) == a.e && IsConn(c, a.e) && Size(a.e) <= Size(e)
            && InLevel(c, a.e, q1 + [true]) && InLevel(c, a.e, q2)
            && Width(c, a.e, q1 + [true]) < Width(c, e, q1) && Width(c, a.e, q2) == Width(c, e, q2)
            && var b := After(c, a.e, q1 + [true], q2);
            && Put(r, base, b.e) == Put(root, base, b.e)
            && After(c, e, q1, q2) == Counted(b.e, a.n + b.n)
  {
    hide After; hide At; hide Put; hide Valid; hide InLevel; hide LeavesOf; hide First;
    var e := At(root, base);
    AfterLeft(c, e, q1, q2);
    SlotChildren(c, e, q1);
    SlotRange(c, e, q1 + [false]);
    SlotRange(c, e, q1 + [true]);
    AfterShape(c, e, q1 + [false], q2, q1 + [true]);
    AfterShape(c, e, q1 + [false], q2, q2);
    var a := After(c, e, q1 + [false], q2);
    AtPut(root, base, a.e);
  }

  lemma RightStep(c: Conn, root: Expr, base: Path, q1: Path, q2: Path)
    requires Valid(root, base) && IsConn(c, At(root, base))
    requires InLevel(c, At(root, base), q1) && InLevel(c, At(root, base), q2)
    requires Valid(At(root, base), q1) && !IsConn(c, At(At(root, base), q1))
    requires Valid(At(root, base), q2) && IsConn(c, At(At(root, base), q2))
    ensures base + q2 + [false] == base + (q2 + [false]) && base + q2 + [true] == base + (q2 + [true])
    ensures var e := At(root, base);
            && InLevel(c, e, q2 + [false]) && Width(c, e, q2 + [false]) < Width(c, e, q2)
            && var a := After(c, e, q1, q2 + [false]);
            && var r := Put(root, base, a.e);
            && Valid(r, base) && At(r, base) == a.e && IsConn(c, a.e) && Size(a.e) <= Size(e)
            && InLevel(c, a.e, q1) && InLevel(c, a.e, q2 + [true])
            && Width(c, a.e, q2 + [true]) < Width(c, e, q2) && Width(c, a.e, q1) == Width(c, e, q1)
            && var b := After(c, a.e, q1, q2 + [true]);
            && Put(r, base, b.e) == Put(root, base, b.e)
            && After(c, e, q1, q2) == Counted(b.e, a.n + b.n)
  {
    hide After; hide At; hide Put; hide Valid; hide InLevel; hide LeavesOf; hide First;
    var e := At(root, base);
    AfterRight(c, e, q1, q2);
    SlotChildren(c, e, q2);
    SlotRange(c, e, q2 + [false]);
    SlotRange(c, e, q2 + [true]);
    AfterShape(c, e, q1, q2 + [false], q1);
    AfterShape(c, e, q1, q2 + [false], q2 + [true]);
    var a := After(c, e, q1, q2 + [false]);
    AtPut(root, base, a.e);
  }

  lemma LeafStep(c: Conn, root: Expr, base: Path, q1: Path, q2: Path)
    requires Valid(root, base) && IsConn(c, At(root, base))
    requires InLevel(c, At(root, base), q1) && InLevel(c, At(root, base), q2)
    requires Valid(At(root, base), q1) && !IsConn(c, At(At(root, base), q1))
    requires Valid(At(root, base), q2) && !IsConn(c, At(At(root, base), q2))
    ensures base + q1 == base + q2 <==> q1 == q2
    ensures var e := At(root, base);
            && Size(At(e, q1)) < Size(e)
            && (q1 == q2 ==> root == Put(root, base, After(c, e, q1, q2).e) && After(c, e, q1, q2).n == 0)
    ensures q1 != q2 ==>
            var e := At(root, base);
            var after := After(c, e, q1, q2);
            var x := Pass(At(e, q1));
            && Valid(root, base + q1)
            && var r1 := Put(root, base + q1, x.e);
            && Valid(r1, base + q1) && At(r1, base + q1) == x.e
            && Valid(r1, base + q2) && At(r1, base + q2) == At(e, q2)
            && var r2 := Put(r1, base + q1, Neutral(c));
            && Valid(r2, base + q2)
            && match Join(c, x.e, At(e, q2)) {
               case None => r1 == Put(root, base, after.e) && after.n == x.n
               case Some(t) => Put(r2, base + q2, t) == Put(root, base, after.e) && after.n == x.n + 1
               }
  {
    hide After; hide At; hide Put; hide Valid; hide InLevel; hide Pass; hide Join; hide Size;
    var e := At(root, base);
    assert q1 == (base + q1)[|base|..] && q2 == (base + q2)[|base|..];
    AfterLeaves(c, e, q1, q2);
    SlotLeafSmaller(c, e, q1);
    if q1 == q2 {
      AtPut(root, base, e);
    } else {
      var x := Pass(At(e, q1));
      var e1 := Put(e, q1, x.e);
      var e2 := Put(e1, q1, Neutral(c));
      AtPut(e, q1, x.e);
      AtPut(root, base, e);
      WrittenLevel(root, base, e, q1, x.e);
      WrittenLevel(root, base, e1, q1, Neutral(c));
      WrittenLevel(root, base, e1, q2, E_NO);
      var t := Join(c, x.e, At(e, q2));
      WrittenLevel(root, base, e2, q2, if t.Some? then t.value else E_NO);
    }
  }

  // ----- the algorithm -----

  class ExprStore {
    var root: Expr
    var transCount: nat

    constructor (e: Expr)
      ensures root == e && transCount == 0
    {
      root, transCount := e, 0;
    }

    /** Compares all operands of type c below slot p1 with all those below slot p2 and
        rewrites them in place.  Both slots lie in the level of c that starts at slot
        `base`; they may be nested in each other or equal. */
    method EliminateDups1(c: Conn, p1: Path, p2: Path, ghost base: Path, ghost q1: Path, ghost q2: Path)
      requires Valid(root, base) && IsConn(c, At(root, base))
      requires p1 == base + q1 && p2 == base + q2
      requires InLevel(c, At(root, base), q1) && InLevel(c, At(root, base), q2)
      modifies this
      ensures Valid(old(root), base)
      ensures root == Put(old(root), base, After(c, At(old(root), base), q1, q2).e)
      ensures transCount == old(transCount) + After(c, At(old(root), base), q1, q2).n
      decreases Size(At(root, base)), Width(c, At(root, base), q1) + Width(c, At(root, base), q2)
    {
      hide At; hide Put; hide Valid; hide InLevel; hide After; hide Pass; hide Join; hide Size; hide Width;
      ghost var root0, level := root, At(root, base);
      SlotOfRoot(c, root, base, q1);
      SlotOfRoot(c, root, base, q2);
      var e1, e2 := At(root, p1), At(root, p2);
      if IsConn(c, e1) {
        LeftStep(c, root, base, q1, q2);
        EliminateDups1(c, p1 + [false], p2, base, q1 + [false], q2);
        EliminateDups1(c, p1 + [true], p2, base, q1 + [true], q2);
        return;
      }
      if IsConn(c, e2) {
        RightStep(c, root, base, q1, q2);
        EliminateDups1(c, p1, p2 + [false], base, q1, q2 + [false]);
        EliminateDups1(c, p1, p2 + [true], base, q1, q2 + [true]);
        return;
      }
      LeafStep(c, root, base, q1, q2);
      if p1 == p2 {
        return;
      }
      if e1.And? {
        Simplify(CAnd, p1);
      } else if e1.Or? {
        Simplify(COr, p1);
      } else {
        PassAtom(e1);
        AtPut(root, p1, e1);
      }
      e1, e2 := At(root, p1), At(root, p2);
      var tmp := Join(c, e1, e2);
      if tmp.Some? {
        root := Put(root, p1, Neutral(c));
        root := Put(root, p2, tmp.value);
        transCount := transCount + 1;
      }
    }

    /** The level below slot p against itself. */
    method Simplify(c: Conn, p: Path)
      requires Valid(root, p) && IsConn(c, At(root, p))
      modifies this
      ensures Valid(old(root), p)
      ensures root == Put(old(root), p, Pass(At(old(root), p)).e)
      ensures transCount == old(transCount) + Pass(At(old(root), p)).n
      decreases Size(At(root, p)), 2 * |LeavesOf(c, At(root, p))| + 1
    {
      AfterWhole(c, At(root, p));
      assert p == p + [];
      EliminateDups1(c, p, p, p, [], []);
    }

    /** Passes over the whole tree until one of them joins nothing. */
    method EliminateDups()
      modifies this
      ensures root == Dedup.EliminateDups(old(root))
      ensures transCount == old(transCount)
    {
      var oldCount := transCount;
      ghost var goal := Dedup.EliminateDups(root);
      while true
        invariant Dedup.EliminateDups(root) == goal
        decreases Size(root)
      {
        transCount := 0;
        ghost var before := root;
        if root.And? {
          Simplify(CAnd, []);
        } else if root.Or? {
          Simplify(COr, []);
        }
        assert root == Pass(before).e && transCount == Pass(before).n;
        if transCount == 0 {
          break;
        }
        PassMarks(before);
        EliminateYnSize(root);
        root := EliminateYn(root);
      }
      transCount := oldCount;
    }
  }
}
