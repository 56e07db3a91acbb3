/** Expressions as linked nodes. A cell stands for a slot of the source, a struct expr * in a node or
    a variable, together with the node it points to: writing a new node into the slot overwrites the
    cell, and as every node of a tree is held by one slot, two slots are the same exactly when their
    cells are. */
module ExprCells {
  import opened Exprs
  import opened ExprReduce

  /** enum expr_type. */
  datatype Kind = Symbol | Not | Connective(op: Conn) | Comparison(rel: Relation)

  class Cell {
    var kind: Kind
    var sym: Sym     // left.sym
    var sym2: Sym    // right.sym
    var left: Cell?  // left.expr
    var right: Cell? // right.expr

    constructor ()
    {
      kind, sym, sym2, left, right := Symbol, SymNo, SymNo, null, null;
    }
  }

  /** Which cells make up a tree. */
  datatype Layout = One(cell: Cell) | Above(cell: Cell, arg: Layout) | Two(cell: Cell, l: Layout, r: Layout)

  function Cells(y: Layout): set<Cell> {
    match y
    case One(c) => {c}
    case Above(c, a) => {c} + Cells(a)
    case Two(c, l, r) => {c} + Cells(l) + Cells(r)
  }

  predicate Proper(y: Layout) {
    match y
    case One(_) => true
    case Above(c, a) => c !in Cells(a) && Proper(a)
    case Two(c, l, r) => c !in Cells(l) && c !in Cells(r) && Cells(l) !! Cells(r) && Proper(l) && Proper(r)
  }

  /** The cells hold the expression. */
  ghost predicate Hold(y: Layout, e: Expr)
    reads Cells(y)
  {
    match e
    case Leaf(s) => y.One? && y.cell.kind == Symbol && y.cell.sym == s
    case Rel(rel, s1, s2) => y.One? && y.cell.kind == Comparison(rel) && y.cell.sym == s1 && y.cell.sym2 == s2
    case Neg(a) => y.Above? && y.cell.kind == Not && y.cell.left == y.arg.cell && Hold(y.arg, a)
    case Bin(op, a, b) =>
      y.Two? && y.cell.kind == Connective(op) && y.cell.left == y.l.cell && y.cell.right == y.r.cell
      && Hold(y.l, a) && Hold(y.r, b)
  }

  lemma {:induction false} CellsExist(y: Layout)
    ensures y.cell in Cells(y) && forall c | c in Cells(y) :: allocated(c)
  {
    match y
    case One(_) =>
    case Above(_, a) => CellsExist(a);
    case Two(_, l, r) =>
      CellsExist(l);
      CellsExist(r);
  }

  function KindOf(e: Expr): Kind {
    match e
    case Leaf(_) => Symbol
    case Neg(_) => Not
    case Bin(op, _, _) => Connective(op)
    case Rel(rel, _, _) => Comparison(rel)
  }

  lemma SameKind(a: Expr, b: Expr)
    ensures SameType(a, b) <==> KindOf(a) == KindOf(b)
  {
  }

  /** The tree as a value, as expr_copy goes over it. */
  method ReadBack(c: Cell, ghost y: Layout, ghost e: Expr) returns (v: Expr)
    requires Hold(y, e) && y.cell == c
    ensures v == e
    decreases e
  {
    match c.kind
    case Symbol => v := Leaf(c.sym);
    case Comparison(rel) => v := Rel(rel, c.sym, c.sym2);
    case Not =>
      var a := ReadBack(c.left, y.arg, e.arg);
      v := Neg(a);
    case Connective(op) =>
      CellsExist(y.r);
      var a := ReadBack(c.left, y.l, e.left);
      var b := ReadBack(c.right, y.r, e.right);
      v := Bin(op, a, b);
  }

  /** A tree is written into a slot, with new nodes below it. */
  method Write(c: Cell, v: Expr) returns (ghost y: Layout)
    modifies c
    ensures y.cell == c && Proper(y) && Hold(y, v)
    ensures fresh(Cells(y) - {c})
    decreases v, 1
  {
    match v
    case Leaf(s) =>
      c.kind, c.sym := Symbol, s;
      y := One(c);
    case Rel(rel, s1, s2) =>
      c.kind, c.sym, c.sym2 := Comparison(rel), s1, s2;
      y := One(c);
    case Neg(a) =>
      var d := new Cell();
      ghost var ya := Write(d, a);
      CellsExist(ya);
      c.kind, c.left := Not, d;
      y := Above(c, ya);
    case Bin(op, a, b) =>
      y := WriteTwo(c, op, a, b);
  }

  method WriteTwo(c: Cell, op: Conn, a: Expr, b: Expr) returns (ghost y: Layout)
    modifies c
    ensures y.cell == c && Proper(y) && Hold(y, Bin(op, a, b))
    ensures fresh(Cells(y) - {c})
    decreases Bin(op, a, b), 0
  {
    var d1 := new Cell();
    ghost var y1 := Write(d1, a);
    CellsExist(y1);
    var d2 := new Cell();
    ghost var y2 := Write(d2, b);
    CellsExist(y2);
    y := SetTwo(c, op, d1, d2, y1, a, y2, b);
  }

  method SetTwo(c: Cell, op: Conn, d1: Cell, d2: Cell, ghost y1: Layout, ghost a: Expr, ghost y2: Layout, ghost b: Expr)
    returns (ghost y: Layout)
    requires Proper(y1) && Hold(y1, a) && y1.cell == d1 && c !in Cells(y1)
    requires Proper(y2) && Hold(y2, b) && y2.cell == d2 && c !in Cells(y2)
    requires Cells(y1) !! Cells(y2)
    modifies c
    ensures y == Two(c, y1, y2) && Proper(y) && Hold(y, Bin(op, a, b))
  {
    c.kind, c.left, c.right := Connective(op), d1, d2;
    y := Two(c, y1, y2);
  }
}
