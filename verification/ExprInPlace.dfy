/** The passes of scripts/config/expr.c that overwrite their trees: each leaves in the cells what the
    function of the same name computes. */
module ExprInPlace {
  import opened Exprs
  import opened ExprReduce
  import opened ExprCells

  /** The same tree below another cell. */
  function Moved(y: Layout, c: Cell): Layout {
    match y
    case One(_) => One(c)
    case Above(_, a) => Above(c, a)
    case Two(_, l, r) => Two(c, l, r)
  }

  /** *c = *d: a node is copied over another. */
  method Overwrite(c: Cell, d: Cell, ghost y: Layout, ghost e: Expr) returns (ghost y': Layout)
    requires y.cell == d && c !in Cells(y) && Proper(y) && Hold(y, e)
    modifies c
    ensures y' == Moved(y, c) && Proper(y') && Hold(y', e) && Cells(y') <= {c} + Cells(y)
  {
    c.kind, c.sym, c.sym2, c.left, c.right := d.kind, d.sym, d.sym2, d.left, d.right;
    y' := Moved(y, c);
    assert match y case One(_) => true
      case Above(_, a) => Hold(a, e.arg)
      case Two(_, l, r) => Hold(l, e.left) && Hold(r, e.right);
  }

  /** A slot gets a new node for one of the two constants. */
  method SetConstant(c: Cell, s: Sym) returns (ghost y: Layout)
    modifies c
    ensures y == One(c) && Proper(y) && Hold(y, Leaf(s))
  {
    c.kind, c.sym := Symbol, s;
    y := One(c);
  }

  predicate IsConstant(kind: Kind, sym: Sym, s: Sym) {
    kind == Symbol && sym == s
  }

  /** expr_eliminate_yn, bottom up, node by node. */
  method EliminateYnInPlace(c: Cell, ghost y: Layout, ghost e: Expr) returns (ghost y': Layout)
    requires Proper(y) && Hold(y, e) && y.cell == c
    modifies Cells(y)
    ensures y'.cell == c && Proper(y') && Hold(y', EliminateYn(e)) && Cells(y') <= Cells(y)
    decreases e
  {
    if c.kind.Connective? {
      CellsExist(y);
      var op := c.kind.op;
      ghost var l := EliminateYnInPlace(c.left, y.l, e.left);
      assert Hold(y.r, e.right);
      ghost var r := EliminateYnInPlace(c.right, y.r, e.right);
      assert Hold(l, EliminateYn(e.left));
      if IsConstant(c.left.kind, c.left.sym, op.Absorbing()) {
        y' := SetConstant(c, op.Absorbing());
      } else if IsConstant(c.left.kind, c.left.sym, op.Neutral()) {
        y' := Overwrite(c, c.right, r, EliminateYn(e.right));
      } else if IsConstant(c.right.kind, c.right.sym, op.Absorbing()) {
        y' := SetConstant(c, op.Absorbing());
      } else if IsConstant(c.right.kind, c.right.sym, op.Neutral()) {
        y' := Overwrite(c, c.left, l, EliminateYn(e.left));
      } else {
        y' := Two(c, l, r);
      }
    } else {
      y' := y;
    }
  }

  class Rewriter {
    var transCount: nat

    constructor ()
      ensures transCount == 0
    {
      transCount := 0;
    }

    /** __expr_eliminate_eq on two slots of different trees. */
    method CancelEqualInPlace(op: Conn, c1: Cell, c2: Cell, ghost y1: Layout, ghost e1: Expr, ghost y2: Layout, ghost e2: Expr)
      returns (ghost y1': Layout, ghost y2': Layout)
      requires Proper(y1) && Hold(y1, e1) && y1.cell == c1
      requires Proper(y2) && Hold(y2, e2) && y2.cell == c2
      requires Cells(y1) !! Cells(y2)
      modifies this, Cells(y1), Cells(y2)
      ensures y1'.cell == c1 && Proper(y1') && Hold(y1', CancelEqual(op, e1, e2).0) && Cells(y1') <= Cells(y1)
      ensures y2'.cell == c2 && Proper(y2') && Hold(y2', CancelEqual(op, e1, e2).1) && Cells(y2') <= Cells(y2)
      decreases Size(e1) + Size(e2), if IsBin(e1, op) || IsBin(e2, op) then 0 else 3, 1
    {
      if c1.kind == Connective(op) {
        y1', y2' := CancelFirst(op, c1, c2, y1, e1, y2, e2);
      } else if c2.kind == Connective(op) {
        y1', y2' := CancelSecond(op, c1, c2, y1, e1, y2, e2);
      } else {
        y1', y2' := CancelOperands(op, c1, c2, y1, e1, y2, e2);
      }
    }

    method CancelFirst(op: Conn, c1: Cell, c2: Cell, ghost y1: Layout, ghost e1: Expr, ghost y2: Layout, ghost e2: Expr)
      returns (ghost y1': Layout, ghost y2': Layout)
      requires Proper(y1) && Hold(y1, e1) && y1.cell == c1 && IsBin(e1, op)
      requires Proper(y2) && Hold(y2, e2) && y2.cell == c2
      requires Cells(y1) !! Cells(y2)
      modifies this, Cells(y1), Cells(y2)
      ensures y1'.cell == c1 && Proper(y1') && Hold(y1', CancelEqual(op, e1, e2).0) && Cells(y1') <= Cells(y1)
      ensures y2'.cell == c2 && Proper(y2') && Hold(y2', CancelEqual(op, e1, e2).1) && Cells(y2') <= Cells(y2)
      decreases Size(e1) + Size(e2), 0, 0
    {
      CellsExist(y1);
      CellsExist(y2);
      ghost var a := CancelEqual(op, e1.left, e2);
      ghost var l, z := CancelEqualInPlace(op, c1.left, c2, y1.l, e1.left, y2, e2);
      assert Hold(y1.r, e1.right);
      ghost var r;
      r, z := CancelEqualInPlace(op, c1.right, c2, y1.r, e1.right, z, a.1);
      assert Hold(l, a.0);
      y1', y2' := Two(c1, l, r), z;
    }

    method CancelSecond(op: Conn, c1: Cell, c2: Cell, ghost y1: Layout, ghost e1: Expr, ghost y2: Layout, ghost e2: Expr)
      returns (ghost y1': Layout, ghost y2': Layout)
      requires Proper(y1) && Hold(y1, e1) && y1.cell == c1 && !IsBin(e1, op)
      requires Proper(y2) && Hold(y2, e2) && y2.cell == c2 && IsBin(e2, op)
      requires Cells(y1) !! Cells(y2)
      modifies this, Cells(y1), Cells(y2)
      ensures y1'.cell == c1 && Proper(y1') && Hold(y1', CancelEqual(op, e1, e2).0) && Cells(y1') <= Cells(y1)
      ensures y2'.cell == c2 && Proper(y2') && Hold(y2', CancelEqual(op, e1, e2).1) && Cells(y2') <= Cells(y2)
      decreases Size(e1) + Size(e2), 0, 0
    {
      CellsExist(y1);
      CellsExist(y2);
      ghost var a := CancelEqual(op, e1, e2.left);
      ghost var z, l := CancelEqualInPlace(op, c1, c2.left, y1, e1, y2.l, e2.left);
      assert Hold(y2.r, e2.right);
      ghost var r;
      z, r := CancelEqualInPlace(op, c1, c2.right, z, a.0, y2.r, e2.right);
      assert Hold(l, a.1);
      y1', y2' := z, Two(c2, l, r);
    }

    /** Two operands: an equal pair is overwritten with the neutral constant. */
    method CancelOperands(op: Conn, c1: Cell, c2: Cell, ghost y1: Layout, ghost e1: Expr, ghost y2: Layout, ghost e2: Expr)
      returns (ghost y1': Layout, ghost y2': Layout)
      requires Proper(y1) && Hold(y1, e1) && y1.cell == c1 && !IsBin(e1, op)
      requires Proper(y2) && Hold(y2, e2) && y2.cell == c2 && !IsBin(e2, op)
      requires Cells(y1) !! Cells(y2)
      modifies this, c1, c2
      ensures y1'.cell == c1 && Proper(y1') && Hold(y1', CancelEqual(op, e1, e2).0) && Cells(y1') <= Cells(y1)
      ensures y2'.cell == c2 && Proper(y2') && Hold(y2', CancelEqual(op, e1, e2).1) && Cells(y2') <= Cells(y2)
      decreases Size(e1) + Size(e2), 2, 1
    {
      CellsExist(y1);
      CellsExist(y2);
      y1', y2' := y1, y2;
      if c1.kind == Symbol && c2.kind == Symbol && c1.sym == c2.sym && (c1.sym == SymYes || c1.sym == SymNo) {
        return;
      }
      var same := ExprEqInPlace(c1, c2, y1, e1, y2, e2);
      if !same {
        return;
      }
      transCount := transCount + 1;
      y1' := SetConstant(c1, op.Neutral());
      y2' := SetConstant(c2, op.Neutral());
    }

    /** expr_eliminate_eq on two slots of different trees. */
    method EliminateEqInPlace(c1: Cell, c2: Cell, ghost y1: Layout, ghost e1: Expr, ghost y2: Layout, ghost e2: Expr)
      returns (ghost y1': Layout, ghost y2': Layout)
      requires Proper(y1) && Hold(y1, e1) && y1.cell == c1
      requires Proper(y2) && Hold(y2, e2) && y2.cell == c2
      requires Cells(y1) !! Cells(y2)
      modifies this, Cells(y1), Cells(y2)
      ensures y1'.cell == c1 && Proper(y1') && Hold(y1', EliminateEq(e1, e2).0) && Cells(y1') <= Cells(y1)
      ensures y2'.cell == c2 && Proper(y2') && Hold(y2', EliminateEq(e1, e2).1) && Cells(y2') <= Cells(y2)
      decreases Size(e1) + Size(e2), 1
    {
      CellsExist(y1);
      CellsExist(y2);
      ghost var a, b := e1, e2;
      y1', y2' := y1, y2;
      if c1.kind.Connective? {
        ghost var r := CancelEqual(e1.op, e1, e2);
        a, b := r.0, r.1;
        y1', y2' := CancelEqualInPlace(c1.kind.op, c1, c2, y1, e1, y2, e2);
      }
      SameKind(a, b);
      if c1.kind != c2.kind && c2.kind.Connective? {
        ghost var r := CancelEqual(b.op, a, b);
        y1', y2' := CancelEqualInPlace(c2.kind.op, c1, c2, y1', a, y2', b);
        a, b := r.0, r.1;
      }
      y1' := EliminateYnInPlace(c1, y1', a);
      y2' := EliminateYnInPlace(c2, y2', b);
    }

    /** expr_eq, which cancels in copies and leaves both trees and trans_count as they were. */
    method ExprEqInPlace(c1: Cell, c2: Cell, ghost y1: Layout, ghost e1: Expr, ghost y2: Layout, ghost e2: Expr)
      returns (equal: bool)
      requires Hold(y1, e1) && y1.cell == c1
      requires Hold(y2, e2) && y2.cell == c2
      modifies this
      ensures equal == ExprEq(e1, e2) && transCount == old(transCount)
      decreases Size(e1) + Size(e2), 2, 0
    {
      SameKind(e1, e2);
      if c1.kind != c2.kind {
        return false;
      }
      match c1.kind
      case Comparison(_) => return c1.sym == c2.sym && c1.sym2 == c2.sym2;
      case Symbol => return c1.sym == c2.sym;
      case Not => equal := ExprEqInPlace(c1.left, c2.left, y1.arg, e1.arg, y2.arg, e2.arg);
      case Connective(_) =>
        CellsExist(y1);
        CellsExist(y2);
        var v1 := ReadBack(c1, y1, e1);
        var v2 := ReadBack(c2, y2, e2);
        var d1, z1 := Copy(v1);
        CellsExist(z1);
        var d2, z2 := Copy(v2);
        CellsExist(z2);
        var oldCount := transCount;
        z1, z2 := EliminateEqInPlace(d1, d2, z1, e1, z2, e2);
        equal := d1.kind == Symbol && d2.kind == Symbol && d1.sym == d2.sym;
        transCount := oldCount;
    }
  }

  /** expr_copy. */
  method Copy(v: Expr) returns (c: Cell, ghost y: Layout)
    ensures y.cell == c && Proper(y) && Hold(y, v) && fresh(Cells(y))
  {
    c := new Cell();
    y := Write(c, v);
    CellsExist(y);
  }
}
