/** expr_transform and expr_trans_bool on cells. */
module ExprTransformInPlace {
  import opened Exprs
  import opened ExprTransform
  import opened ExprCells
  import opened ExprInPlace

  /** expr_transform: the operands first, then the node itself. */
  method TransformInPlace(c: Cell, ghost y: Layout, ghost e: Expr) returns (ghost y': Layout)
    requires Proper(y) && Hold(y, e) && y.cell == c
    modifies Cells(y)
    ensures y'.cell == c && Proper(y') && Hold(y', Transform(e)) && fresh(Cells(y') - Cells(y))
    decreases Weight(e), 1
  {
    CellsExist(y);
    match c.kind
    case Symbol => y' := y;
    case Comparison(rel) => y' := TransformComparison(c, rel, y, e.lhs, e.rhs);
    case Connective(_) =>
      ghost var l := TransformInPlace(c.left, y.l, e.left);
      CellsExist(l);
      assert Hold(y.r, e.right);
      ghost var r := TransformInPlace(c.right, y.r, e.right);
      CellsExist(r);
      assert Hold(l, Transform(e.left));
      y' := Two(c, l, r);
    case Not =>
      WeightPositive(e.arg);
      ghost var a := TransformInPlace(c.left, y.arg, e.arg);
      CellsExist(a);
      ghost var z := Above(c, a);
      y' := TransformNot(c, z, e);
      CellsExist(y');
  }

  /** A comparison of a bool symbol with y, m or n. */
  method TransformComparison(c: Cell, rel: Relation, ghost y: Layout, ghost s1: Sym, ghost s2: Sym) returns (ghost y': Layout)
    requires y == One(c) && Hold(y, Rel(rel, s1, s2))
    modifies c
    ensures y'.cell == c && Proper(y') && Hold(y', TransformRel(rel, s1, s2)) && fresh(Cells(y') - {c})
  {
    y' := y;
    if c.sym.Type() == Boolean && (rel == EQ || rel == NE) {
      if c.sym2 == SymMod {
        y' := SetConstant(c, if rel == EQ then SymNo else SymYes);
      } else if c.sym2 == (if rel == EQ then SymYes else SymNo) {
        c.kind := Symbol;
      } else if c.sym2 == (if rel == EQ then SymNo else SymYes) {
        var d := new Cell();
        ghost var z := SetConstant(d, c.sym);
        c.kind, c.left := Not, d;
        y' := Above(c, z);
      }
    }
  }

  /** A negation whose operand has been transformed. */
  method TransformNot(c: Cell, ghost y: Layout, ghost e: Expr) returns (ghost y': Layout)
    requires e.Neg? && y.Above? && Proper(y) && Hold(y, Neg(Transform(e.arg))) && y.cell == c
    modifies Cells(y)
    ensures y'.cell == c && Proper(y') && Hold(y', Transform(e)) && fresh(Cells(y') - Cells(y))
    decreases Weight(e), 0
  {
    CellsExist(y);
    WeightPositive(e.arg);
    ghost var a := Transform(e.arg);
    var d := c.left;
    match d.kind
    case Not =>
      WeightPositive(a.arg);
      y' := Overwrite(c, d.left, y.arg.arg, a.arg);
      y' := TransformInPlace(c, y', a.arg);
      CellsExist(y');
    case Comparison(rel) =>
      y' := Overwrite(c, d, y.arg, a);
      c.kind := Comparison(Complement(rel));
    case Connective(op) =>
      y' := PushNotInPlace(c, d, op, y, a.left, a.right);
      CellsExist(y');
      y' := TransformInPlace(c, y', PushNot(op, a.left, a.right));
      CellsExist(y');
    case Symbol =>
      if d.sym == SymYes {
        y' := SetConstant(c, SymNo);
      } else if d.sym == SymMod {
        y' := SetConstant(c, SymMod);
      } else if d.sym == SymNo {
        y' := SetConstant(c, SymYes);
      } else {
        y' := y;
      }
  }

  /** De Morgan's rule: the negation becomes the connective, the connective's node the negation of its
      left operand, and a new node negates the right one. */
  method PushNotInPlace(c: Cell, d: Cell, op: Conn, ghost y: Layout, ghost l: Expr, ghost r: Expr) returns (ghost y': Layout)
    requires y.Above? && Proper(y) && Hold(y, Neg(Bin(op, l, r))) && y.cell == c && y.arg.cell == d
    modifies c, d
    ensures y'.cell == c && Proper(y') && Hold(y', PushNot(op, l, r)) && fresh(Cells(y') - Cells(y))
  {
    CellsExist(y);
    ghost var yl, yr := y.arg.l, y.arg.r;
    var n := new Cell();
    n.kind, n.left := Not, d.right;
    c.kind, c.right := Connective(op.Dual()), n;
    d.kind, d.right := Not, null;
    y' := Two(c, Above(d, yl), Above(n, yr));
    assert Hold(yl, l) && Hold(yr, r);
  }

  /** expr_trans_bool. */
  method TransBoolInPlace(c: Cell, ghost y: Layout, ghost e: Expr) returns (ghost y': Layout)
    requires Proper(y) && Hold(y, e) && y.cell == c
    modifies Cells(y)
    ensures y'.cell == c && Proper(y') && Hold(y', TransBool(e)) && Cells(y') <= Cells(y)
    decreases e
  {
    CellsExist(y);
    y' := y;
    match c.kind
    case Connective(_) =>
      ghost var l := TransBoolInPlace(c.left, y.l, e.left);
      assert Hold(y.r, e.right);
      ghost var r := TransBoolInPlace(c.right, y.r, e.right);
      assert Hold(l, TransBool(e.left));
      y' := Two(c, l, r);
    case Not =>
      ghost var a := TransBoolInPlace(c.left, y.arg, e.arg);
      y' := Above(c, a);
    case Comparison(rel) =>
      if rel == NE && c.sym.Type() == Tristate && c.sym2 == SymNo {
        c.kind := Symbol;
      }
    case Symbol =>
  }
}
