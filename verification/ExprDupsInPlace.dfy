/** expr_eliminate_dups1 and expr_eliminate_dups on cells: both cursors walk one tree, so a slot may be
    overwritten while the other cursor still has it, or something above it, in hand. */
module ExprDupsInPlace {
  import opened Exprs
  import opened ExprReduce
  import opened ExprJoin
  import opened ExprPaths
  import opened ExprDups
  import opened ExprCells
  import opened ExprInPlace

  /** The part of a layout at a position. */
  function At(y: Layout, p: Path): Layout {
    if p == [] || !y.Two? then y else At(if p[0].L? then y.l else y.r, p[1..])
  }

  function Replaced(y: Layout, p: Path, z: Layout): Layout {
    if p == [] then z
    else if !y.Two? then y
    else if p[0].L? then Two(y.cell, Replaced(y.l, p[1..], z), y.r)
    else Two(y.cell, y.l, Replaced(y.r, p[1..], z))
  }

  /** The cells that are not below the position. */
  function Outside(y: Layout, p: Path): set<Cell> {
    if p == [] || !y.Two? then {}
    else if p[0].L? then {y.cell} + Cells(y.r) + Outside(y.l, p[1..])
    else {y.cell} + Cells(y.l) + Outside(y.r, p[1..])
  }

  /** These cells hold all of the expression but what is at the position. */
  ghost predicate Around(op: Conn, y: Layout, t: Expr, p: Path)
    requires OnSpine(op, t, p)
    reads Outside(y, p)
  {
    p == [] ||
    (y.Two? && y.cell.kind == Connective(op) && y.cell.left == y.l.cell && y.cell.right == y.r.cell
     && if p[0].L? then Around(op, y.l, t.left, p[1..]) && Hold(y.r, t.right)
        else Around(op, y.r, t.right, p[1..]) && Hold(y.l, t.left))
  }

  lemma {:induction false} HoldAt(op: Conn, y: Layout, t: Expr, p: Path)
    requires Hold(y, t) && OnSpine(op, t, p) && Proper(y)
    ensures Hold(At(y, p), Get(op, t, p)) && Proper(At(y, p)) && Around(op, y, t, p)
    ensures Cells(At(y, p)) !! Outside(y, p) && Cells(y) == Cells(At(y, p)) + Outside(y, p)
    ensures IsBin(Get(op, t, p), op) ==>
      At(y, p).Two? && At(y, p + [L]) == At(y, p).l && At(y, p + [R]) == At(y, p).r
  {
    if p != [] {
      assert (p + [L])[1..] == p[1..] + [L] && (p + [R])[1..] == p[1..] + [R];
      HoldAt(op, if p[0].L? then y.l else y.r, Child(t, p[0]), p[1..]);
    } else {
      assert (p + [L])[1..] == [] && (p + [R])[1..] == [];
    }
  }

  lemma {:induction false} OutsideWithin(y: Layout, p: Path)
    ensures Outside(y, p) <= Cells(y) && Cells(At(y, p)) <= Cells(y) && At(y, p).cell in Cells(y)
  {
    if p != [] && y.Two? {
      OutsideWithin(if p[0].L? then y.l else y.r, p[1..]);
    }
  }

  lemma {:induction false} ReplacedHolds(op: Conn, y: Layout, t: Expr, p: Path, z: Layout, x: Expr)
    requires OnSpine(op, t, p) && Around(op, y, t, p) && Proper(y)
    requires Hold(z, x) && Proper(z) && z.cell == At(y, p).cell && Cells(z) !! Outside(y, p)
    ensures Hold(Replaced(y, p, z), Put(op, t, p, x)) && Proper(Replaced(y, p, z))
    ensures Cells(Replaced(y, p, z)) == Outside(y, p) + Cells(z) && Replaced(y, p, z).cell == y.cell
  {
    if p != [] {
      OutsideWithin(if p[0].L? then y.l else y.r, p[1..]);
      ReplacedHolds(op, if p[0].L? then y.l else y.r, Child(t, p[0]), p[1..], z, x);
    }
  }

  /** Every slot on the spine is still the same cell. */
  ghost predicate SameCells(op: Conn, t: Expr, y: Layout, y': Layout) {
    forall q | OnSpine(op, t, q) :: At(y', q).cell == At(y, q).cell
  }

  lemma {:induction false} ReplacedCell(op: Conn, y: Layout, t: Expr, p: Path, z: Layout, q: Path)
    requires IsOperand(op, t, p) && OnSpine(op, t, q) && Around(op, y, t, p) && z.cell == At(y, p).cell
    ensures At(Replaced(y, p, z), q).cell == At(y, q).cell
    ensures q == p ==> At(Replaced(y, p, z), q) == z
    ensures q != p && IsOperand(op, t, q) ==> At(Replaced(y, p, z), q) == At(y, q)
  {
    if p != [] && q != [] {
      if p[0] == q[0] {
        assert p == [p[0]] + p[1..] && q == [q[0]] + q[1..];
        ReplacedCell(op, if p[0].L? then y.l else y.r, Child(t, p[0]), p[1..], z, q[1..]);
      }
    }
  }

  lemma ReplacedCells(op: Conn, y: Layout, t: Expr, p: Path, z: Layout)
    requires IsOperand(op, t, p) && Around(op, y, t, p) && z.cell == At(y, p).cell
    ensures SameCells(op, t, y, Replaced(y, p, z))
  {
    forall q | OnSpine(op, t, q)
      ensures At(Replaced(y, p, z), q).cell == At(y, q).cell
    {
      ReplacedCell(op, y, t, p, z, q);
    }
  }

  lemma SameCellsTrans(op: Conn, t: Expr, t': Expr, a: Layout, b: Layout, c: Layout)
    requires SameSpine(op, t, t') && SameCells(op, t, a, b) && SameCells(op, t', b, c)
    ensures SameCells(op, t, a, c)
  {
    forall q | OnSpine(op, t, q)
      ensures At(c, q).cell == At(a, q).cell
    {
      SameSpineAt(op, t, t', q);
    }
  }

  /** Two positions are the same slot exactly when they are the same position. */
  lemma {:induction false} OperandCells(op: Conn, y: Layout, t: Expr, p: Path, q: Path)
    requires Hold(y, t) && Proper(y) && IsOperand(op, t, p) && IsOperand(op, t, q)
    ensures At(y, p).cell == At(y, q).cell <==> p == q
    ensures p != q ==> Cells(At(y, p)) !! Cells(At(y, q)) && Cells(At(y, q)) <= Outside(y, p)
  {
    if p != [] && q != [] {
      if p[0] == q[0] {
        assert p == [p[0]] + p[1..] && q == [q[0]] + q[1..];
        OperandCells(op, if p[0].L? then y.l else y.r, Child(t, p[0]), p[1..], q[1..]);
      } else {
        OutsideWithin(y.l, if p[0].L? then p[1..] else q[1..]);
        OutsideWithin(y.r, if p[0].L? then q[1..] else p[1..]);
      }
    }
    OutsideWithin(y, p);
    OutsideWithin(y, q);
  }

  /** Overwriting one operand's slot. */
  lemma OperandReplaced(op: Conn, y: Layout, t: Expr, p: Path, z: Layout, x: Expr)
    requires Proper(y) && IsOperand(op, t, p) && !IsBin(x, op) && Around(op, y, t, p)
    requires Hold(z, x) && Proper(z) && z.cell == At(y, p).cell && Cells(z) !! Outside(y, p)
    ensures var y', t' := Replaced(y, p, z), Put(op, t, p, x);
      && Proper(y') && Hold(y', t') && SameSpine(op, t, t') && SameCells(op, t, y, y')
      && Cells(y') == Outside(y, p) + Cells(z)
      && (forall q | q != p && IsOperand(op, t, q) ::
            At(y', q) == At(y, q) && IsOperand(op, t', q) && Get(op, t', q) == Get(op, t, q))
  {
    ReplacedHolds(op, y, t, p, z, x);
    PutAtOperand(op, t, p, x);
    ReplacedCells(op, y, t, p, z);
    forall q | q != p && IsOperand(op, t, q)
      ensures At(Replaced(y, p, z), q) == At(y, q)
      ensures IsOperand(op, Put(op, t, p, x), q) && Get(op, Put(op, t, p, x), q) == Get(op, t, q)
    {
      ReplacedCell(op, y, t, p, z, q);
      PutKeepsOthers(op, t, p, q, x);
    }
  }

  /** A slot gets other contents. */
  method Fill(op: Conn, c: Cell, x: Expr, ghost y: Layout, ghost t: Expr, ghost p: Path) returns (ghost y': Layout)
    requires Proper(y) && Hold(y, t) && IsOperand(op, t, p) && !IsBin(x, op) && At(y, p).cell == c
    modifies c
    ensures Proper(y') && Hold(y', Put(op, t, p, x)) && SameCells(op, t, y, y') && fresh(Cells(y') - Cells(y))
  {
    CellsExist(y);
    HoldAt(op, y, t, p);
    OutsideWithin(y, p);
    ghost var z := Write(c, x);
    assert Around(op, y, t, p) && Cells(z) !! Outside(y, p);
    OperandReplaced(op, y, t, p, z, x);
    y' := Replaced(y, p, z);
  }

  /** The joining of two operands, after the first has become f1. */
  method JoinOperands(g: Rewriter, op: Conn, c1: Cell, c2: Cell,
                      ghost y: Layout, ghost t: Expr, ghost p1: Path, ghost p2: Path, ghost f1: Expr)
    returns (ghost y': Layout)
    requires TwoOperands(op, t, p1, p2) && !IsBin(f1, op)
    requires Proper(y) && Hold(y, Put(op, t, p1, f1)) && At(y, p1).cell == c1 && At(y, p2).cell == c2
    modifies g, Cells(y)
    ensures Proper(y') && Hold(y', JoinStep(op, t, p1, p2, f1).0)
    ensures g.transCount == old(g.transCount) + JoinStep(op, t, p1, p2, f1).1
    ensures SameCells(op, Put(op, t, p1, f1), y, y') && fresh(Cells(y') - Cells(y))
  {
    ghost var t1, e2 := Put(op, t, p1, f1), Get(op, t, p2);
    PutAtOperand(op, t, p1, f1);
    PutKeepsOthers(op, t, p1, p2, f1);
    CellsExist(y);
    HoldAt(op, y, t1, p1);
    HoldAt(op, y, t1, p2);
    OutsideWithin(y, p1);
    OutsideWithin(y, p2);
    var v1 := ReadBack(c1, At(y, p1), f1);
    var v2 := ReadBack(c2, At(y, p2), e2);
    var joined := Join(op, v1, v2);
    if joined.Nothing? {
      y' := y;
      return;
    }
    JoinShape(op, f1, e2);
    y' := MoveInto(op, c1, c2, joined.e, y, t1, p1, p2);
    CellsExist(y');
    g.transCount := g.transCount + 1;
  }

  /** The first operand becomes neutral, the second holds what the two are together. */
  method MoveInto(op: Conn, c1: Cell, c2: Cell, x: Expr, ghost y: Layout, ghost t: Expr, ghost p1: Path, ghost p2: Path)
    returns (ghost y': Layout)
    requires TwoOperands(op, t, p1, p2) && !IsBin(x, op)
    requires Proper(y) && Hold(y, t) && At(y, p1).cell == c1 && At(y, p2).cell == c2
    modifies c1, c2
    ensures OnSpine(op, Put(op, t, p1, Leaf(op.Neutral())), p2)
    ensures Proper(y') && Hold(y', Put(op, Put(op, t, p1, Leaf(op.Neutral())), p2, x))
    ensures SameCells(op, t, y, y') && fresh(Cells(y') - Cells(y))
  {
    ghost var n := Leaf(op.Neutral());
    PutAtOperand(op, t, p1, n);
    PutKeepsOthers(op, t, p1, p2, n);
    CellsExist(y);
    ghost var y2 := Fill(op, c1, Leaf(op.Neutral()), y, t, p1);
    CellsExist(y2);
    assert At(y2, p2).cell == c2;
    y' := Fill(op, c2, x, y2, Put(op, t, p1, n), p2);
    CellsExist(y');
    SameCellsTrans(op, t, Put(op, t, p1, n), y, y2, y');
  }

  /** Two cursors in a tree. */
  ghost predicate Cursors(op: Conn, c1: Cell, c2: Cell, y: Layout, t: Expr, p1: Path, p2: Path)
    reads Cells(y)
  {
    && OnSpine(op, t, p1) && OnSpine(op, t, p2)
    && Proper(y) && Hold(y, t) && At(y, p1).cell == c1 && At(y, p2).cell == c2
  }

  /** expr_eliminate_dups1. The slots on the spine stay where they are, so both cursors stay valid
      while the tree changes under them. */
  method Dups1InPlace(g: Rewriter, op: Conn, c1: Cell, c2: Cell, ghost y: Layout, ghost t: Expr, ghost p1: Path, ghost p2: Path)
    returns (ghost y': Layout)
    requires Cursors(op, c1, c2, y, t, p1, p2)
    modifies g, Cells(y)
    ensures Proper(y') && Hold(y', Dups1(op, t, p1, p2).0)
    ensures g.transCount == old(g.transCount) + Dups1(op, t, p1, p2).1
    ensures SameCells(op, t, y, y') && fresh(Cells(y') - Cells(y))
    decreases Leaves(t), SpineSize(op, Get(op, t, p1)) + SpineSize(op, Get(op, t, p2)), 1
  {
    HoldAt(op, y, t, p1);
    HoldAt(op, y, t, p2);
    if c1.kind == Connective(op) {
      y' := DescendFirst(g, op, c1, c2, y, t, p1, p2);
    } else if c2.kind == Connective(op) {
      y' := DescendSecond(g, op, c1, c2, y, t, p1, p2);
    } else {
      OperandCells(op, y, t, p1, p2);
      if c1 == c2 {
        y' := y;
        return;
      }
      y' := JoinPair(g, op, c1, c2, y, t, p1, p2);
    }
  }

  method DescendFirst(g: Rewriter, op: Conn, c1: Cell, c2: Cell, ghost y: Layout, ghost t: Expr, ghost p1: Path, ghost p2: Path)
    returns (ghost y': Layout)
    requires Cursors(op, c1, c2, y, t, p1, p2) && IsBin(Get(op, t, p1), op)
    modifies g, Cells(y)
    ensures Proper(y') && Hold(y', Dups1(op, t, p1, p2).0)
    ensures g.transCount == old(g.transCount) + Dups1(op, t, p1, p2).1
    ensures SameCells(op, t, y, y') && fresh(Cells(y') - Cells(y))
    decreases Leaves(t), SpineSize(op, Get(op, t, p1)) + SpineSize(op, Get(op, t, p2)), 0
  {
    CellsExist(y);
    HoldAt(op, y, t, p1);
    GetChild(op, t, p1, L);
    GetChild(op, t, p1, R);
    ghost var t1 := Dups1(op, t, p1 + [L], p2).0;
    ghost var y1 := Dups1InPlace(g, op, c1.left, c2, y, t, p1 + [L], p2);
    CellsExist(y1);
    SameSpineAt(op, t, t1, p1);
    SameSpineAt(op, t, t1, p1 + [R]);
    SameSpineAt(op, t, t1, p2);
    HoldAt(op, y1, t1, p1);
    y' := Dups1InPlace(g, op, c1.right, c2, y1, t1, p1 + [R], p2);
    CellsExist(y');
    SameCellsTrans(op, t, t1, y, y1, y');
  }

  method DescendSecond(g: Rewriter, op: Conn, c1: Cell, c2: Cell, ghost y: Layout, ghost t: Expr, ghost p1: Path, ghost p2: Path)
    returns (ghost y': Layout)
    requires Cursors(op, c1, c2, y, t, p1, p2) && !IsBin(Get(op, t, p1), op) && IsBin(Get(op, t, p2), op)
    modifies g, Cells(y)
    ensures Proper(y') && Hold(y', Dups1(op, t, p1, p2).0)
    ensures g.transCount == old(g.transCount) + Dups1(op, t, p1, p2).1
    ensures SameCells(op, t, y, y') && fresh(Cells(y') - Cells(y))
    decreases Leaves(t), SpineSize(op, Get(op, t, p1)) + SpineSize(op, Get(op, t, p2)), 0
  {
    CellsExist(y);
    HoldAt(op, y, t, p2);
    GetChild(op, t, p2, L);
    GetChild(op, t, p2, R);
    ghost var t1 := Dups1(op, t, p1, p2 + [L]).0;
    ghost var y1 := Dups1InPlace(g, op, c1, c2.left, y, t, p1, p2 + [L]);
    CellsExist(y1);
    SameSpineAt(op, t, t1, p2);
    SameSpineAt(op, t, t1, p2 + [R]);
    SameSpineAt(op, t, t1, p1);
    HoldAt(op, y1, t1, p2);
    y' := Dups1InPlace(g, op, c1, c2.right, y1, t1, p1, p2 + [R]);
    CellsExist(y');
    SameCellsTrans(op, t, t1, y, y1, y');
  }

  /** Two different operands: the first is worked on by itself, with both cursors in its own slot, and
      then the two are joined. */
  method JoinPair(g: Rewriter, op: Conn, c1: Cell, c2: Cell, ghost y: Layout, ghost t: Expr, ghost p1: Path, ghost p2: Path)
    returns (ghost y': Layout)
    requires Cursors(op, c1, c2, y, t, p1, p2) && TwoOperands(op, t, p1, p2)
    modifies g, Cells(y)
    ensures Proper(y') && Hold(y', Dups1(op, t, p1, p2).0)
    ensures g.transCount == old(g.transCount) + Dups1(op, t, p1, p2).1
    ensures SameCells(op, t, y, y') && fresh(Cells(y') - Cells(y))
    decreases Leaves(t), SpineSize(op, Get(op, t, p1)) + SpineSize(op, Get(op, t, p2)), 0
  {
    CellsExist(y);
    HoldAt(op, y, t, p1);
    HoldAt(op, y, t, p2);
    ghost var e1, f1, y1 := Get(op, t, p1), Get(op, t, p1), y;
    LeavesAround(op, t, p1, e1);
    PutSame(op, t, p1);
    if c1.kind.Connective? {
      f1 := Dups1(e1.op, e1, [], []).0;
      y1 := WithinOperand(g, op, c1, y, t, p1);
      CellsExist(y1);
    }
    PutAtOperand(op, t, p1, f1);
    y' := JoinOperands(g, op, c1, c2, y1, t, p1, p2, f1);
    CellsExist(y');
    SameCellsTrans(op, t, Put(op, t, p1, f1), y, y1, y');
  }

  method WithinOperand(g: Rewriter, op: Conn, c1: Cell, ghost y: Layout, ghost t: Expr, ghost p1: Path)
    returns (ghost y': Layout)
    requires Proper(y) && Hold(y, t) && IsOperand(op, t, p1) && At(y, p1).cell == c1
    requires p1 != [] && Get(op, t, p1).Bin?
    modifies g, Cells(y)
    ensures var e1 := Get(op, t, p1);
      && !IsBin(Dups1(e1.op, e1, [], []).0, op)
      && Proper(y') && Hold(y', Put(op, t, p1, Dups1(e1.op, e1, [], []).0))
      && g.transCount == old(g.transCount) + Dups1(e1.op, e1, [], []).1
    ensures SameCells(op, t, y, y') && fresh(Cells(y') - Cells(y))
    decreases Leaves(Get(op, t, p1)), 2 * SpineSize(Get(op, t, p1).op, Get(op, t, p1)), 2
  {
    CellsExist(y);
    HoldAt(op, y, t, p1);
    OutsideWithin(y, p1);
    ghost var e1 := Get(op, t, p1);
    ghost var z := Dups1InPlace(g, c1.kind.op, c1, c1, At(y, p1), e1, [], []);
    CellsExist(z);
    assert Around(op, y, t, p1) && z.cell == c1;
    OperandReplaced(op, y, t, p1, z, Dups1(e1.op, e1, [], []).0);
    y' := Replaced(y, p1, z);
  }

  /** expr_eliminate_dups: passes over the tree until one changes nothing. */
  method EliminateDupsInPlace(g: Rewriter, c: Cell, ghost y: Layout, ghost e: Expr) returns (ghost y': Layout)
    requires Proper(y) && Hold(y, e) && y.cell == c
    modifies g, Cells(y)
    ensures y'.cell == c && Proper(y') && Hold(y', EliminateDups(e))
    ensures g.transCount == old(g.transCount) && fresh(Cells(y') - Cells(y))
  {
    var oldCount := g.transCount;
    ghost var t := e;
    y' := y;
    CellsExist(y);
    while true
      invariant y'.cell == c && Proper(y') && Hold(y', t) && fresh(Cells(y') - Cells(y))
      invariant EliminateDups(t) == EliminateDups(e)
      decreases Leaves(t)
    {
      ghost var before := t;
      g.transCount := 0;
      if c.kind.Connective? {
        ghost var op := t.op;
        t := Dups1(op, before, [], []).0;
        y' := Dups1InPlace(g, c.kind.op, c, c, y', before, [], []);
        CellsExist(y');
        Dups1LeavesConstant(op, before, [], []);
      }
      if g.transCount == 0 {
        break;
      }
      EliminateYnShrinks(t);
      y' := EliminateYnInPlace(c, y', t);
      t := EliminateYn(t);
    }
    g.transCount := oldCount;
  }
}
