/** Constant elimination and structural equality: expr_eliminate_yn, __expr_eliminate_eq,
    expr_eliminate_eq and expr_eq of scripts/config/expr.c. */
module ExprReduce {
  import opened Tristate
  import opened Exprs

  predicate IsBin(e: Expr, op: Conn) {
    e.Bin? && e.op == op
  }

  predicate IsYn(e: Expr) {
    e == Leaf(SymYes) || e == Leaf(SymNo)
  }

  /** expr_eliminate_yn */
  function EliminateYn(e: Expr): Expr {
    match e
    case Bin(op, l, r) =>
      var l', r' := EliminateYn(l), EliminateYn(r);
      if l' == Leaf(op.Absorbing()) then l'
      else if l' == Leaf(op.Neutral()) then r'
      else if r' == Leaf(op.Absorbing()) then r'
      else if r' == Leaf(op.Neutral()) then l'
      else Bin(op, l', r')
    case _ => e
  }

  lemma {:induction false} EliminateYnKeepsValue(e: Expr, env: Env)
    requires ValidEnv(env)
    ensures Val(EliminateYn(e), env) == Val(e, env)
  {
    assert ValidValue(SymYes, env.curr(SymYes), env.modules);
    assert ValidValue(SymNo, env.curr(SymNo), env.modules);
    if e.Bin? {
      EliminateYnKeepsValue(e.left, env);
      EliminateYnKeepsValue(e.right, env);
    }
  }

  /** No operand of a connective is the constant y or n. */
  predicate YnFree(e: Expr) {
    e.Bin? ==> !IsYn(e.left) && !IsYn(e.right) && YnFree(e.left) && YnFree(e.right)
  }

  lemma {:induction false} EliminateYnLeavesNoConstant(e: Expr)
    ensures YnFree(EliminateYn(e))
    ensures YnFree(e) ==> EliminateYn(e) == e
  {
    if e.Bin? {
      EliminateYnLeavesNoConstant(e.left);
      EliminateYnLeavesNoConstant(e.right);
    }
  }

  /** The number of operands of the and/or structure at the top of an expression. */
  function Leaves(e: Expr): nat {
    if e.Bin? then Leaves(e.left) + Leaves(e.right) else 1
  }

  /** All nodes of an expression. */
  function Size(e: Expr): nat {
    match e
    case Bin(_, l, r) => 1 + Size(l) + Size(r)
    case Neg(a) => 1 + Size(a)
    case _ => 1
  }

  lemma {:induction false} EliminateYnShrinks(e: Expr)
    ensures 1 <= Leaves(EliminateYn(e)) <= Leaves(e)
    ensures 1 <= Size(EliminateYn(e)) <= Size(e)
    ensures !YnFree(e) ==> Leaves(EliminateYn(e)) < Leaves(e)
  {
    if e.Bin? {
      EliminateYnShrinks(e.left);
      EliminateYnShrinks(e.right);
    }
  }

  /** Do the two nodes have the same enum expr_type? */
  predicate SameType(a: Expr, b: Expr) {
    match (a, b)
    case (Leaf(_), Leaf(_)) => true
    case (Neg(_), Neg(_)) => true
    case (Bin(p, _, _), Bin(q, _, _)) => p == q
    case (Rel(p, _, _), Rel(q, _, _)) => p == q
    case _ => false
  }

  /** __expr_eliminate_eq: every operand of one tree is held against every operand of the other, and
      an equal pair is overwritten with the neutral constant on both sides. */
  function CancelEqual(op: Conn, e1: Expr, e2: Expr): (r: (Expr, Expr))
    ensures Size(r.0) <= Size(e1) && Size(r.1) <= Size(e2)
    ensures IsBin(r.0, op) <==> IsBin(e1, op)
    ensures IsBin(r.1, op) <==> IsBin(e2, op)
    decreases Size(e1) + Size(e2), if IsBin(e1, op) || IsBin(e2, op) then 0 else 3
  {
    if IsBin(e1, op) then
      var (l, x) := CancelEqual(op, e1.left, e2);
      var (r, y) := CancelEqual(op, e1.right, x);
      (Bin(op, l, r), y)
    else if IsBin(e2, op) then
      var (x, l) := CancelEqual(op, e1, e2.left);
      var (y, r) := CancelEqual(op, x, e2.right);
      (y, Bin(op, l, r))
    else if IsYn(e1) && e1 == e2 then (e1, e2)
    else if ExprEq(e1, e2) then (Leaf(op.Neutral()), Leaf(op.Neutral()))
    else (e1, e2)
  }

  /** expr_eliminate_eq on two expressions that are present. */
  function EliminateEq(e1: Expr, e2: Expr): (r: (Expr, Expr))
    ensures Size(r.0) <= Size(e1) && Size(r.1) <= Size(e2)
    decreases Size(e1) + Size(e2), 1
  {
    var (a, b) := if e1.Bin? then CancelEqual(e1.op, e1, e2) else (e1, e2);
    var (c, d) := if !SameType(a, b) && b.Bin? then CancelEqual(b.op, a, b) else (a, b);
    EliminateYnShrinks(c);
    EliminateYnShrinks(d);
    (EliminateYn(c), EliminateYn(d))
  }

  /** expr_eq on two expressions that are present. */
  predicate ExprEq(e1: Expr, e2: Expr)
    decreases Size(e1) + Size(e2), 2
  {
    if !SameType(e1, e2) then false
    else match e1
      case Neg(a) => ExprEq(a, e2.arg)
      case Bin(_, _, _) =>
        var (a, b) := EliminateEq(e1, e2);
        a.Leaf? && a == b
      case _ => e1 == e2
  }

  /** expr_eq with its treatment of NULL. */
  predicate ExprEqPtr(p1: ExprPtr, p2: ExprPtr) {
    if p1.Null? || p2.Null? then IsYes(p1) && IsYes(p2) else ExprEq(p1.e, p2.e)
  }

  /** expr_eliminate_eq with its treatment of NULL. */
  function EliminateEqPtr(p1: ExprPtr, p2: ExprPtr): (ExprPtr, ExprPtr) {
    if p1.Null? || p2.Null? then (p1, p2)
    else var (a, b) := EliminateEq(p1.e, p2.e); (Ptr(a), Ptr(b))
  }

  lemma Regroup(op: Conn, a: Tri, y: Tri, b: Tri, z: Tri, c: Tri)
    ensures op.Apply(op.Apply(a, y), op.Apply(b, z)) == op.Apply(op.Apply(a, b), op.Apply(y, z))
    ensures op.Apply(op.Apply(c, z), y) == op.Apply(c, op.Apply(y, z))
  {
  }

  /** Cancelling takes one and the same operand list out of both trees. */
  lemma {:induction false} CancelEqualFactors(op: Conn, e1: Expr, e2: Expr, env: Env) returns (x: Tri)
    requires ValidEnv(env)
    ensures var (a, b) := CancelEqual(op, e1, e2);
      Val(e1, env) == op.Apply(Val(a, env), x) && Val(e2, env) == op.Apply(Val(b, env), x)
    decreases Size(e1) + Size(e2), if IsBin(e1, op) || IsBin(e2, op) then 0 else 3
  {
    assert ValidValue(SymYes, env.curr(SymYes), env.modules);
    assert ValidValue(SymNo, env.curr(SymNo), env.modules);
    if IsBin(e1, op) {
      var (l, b1) := CancelEqual(op, e1.left, e2);
      var (r, b2) := CancelEqual(op, e1.right, b1);
      var y := CancelEqualFactors(op, e1.left, e2, env);
      var z := CancelEqualFactors(op, e1.right, b1, env);
      x := op.Apply(y, z);
      Regroup(op, Val(l, env), y, Val(r, env), z, Val(b2, env));
    } else if IsBin(e2, op) {
      var (a1, l) := CancelEqual(op, e1, e2.left);
      var (a2, r) := CancelEqual(op, a1, e2.right);
      var y := CancelEqualFactors(op, e1, e2.left, env);
      var z := CancelEqualFactors(op, a1, e2.right, env);
      x := op.Apply(y, z);
      Regroup(op, Val(l, env), y, Val(r, env), z, Val(a2, env));
    } else if !(IsYn(e1) && e1 == e2) && ExprEq(e1, e2) {
      ExprEqSound(e1, e2, env);
      x := Val(e1, env);
    } else {
      x := if op.Conj? then YES else NO;
    }
  }

  lemma {:induction false} EliminateEqSameType(e1: Expr, e2: Expr, env: Env)
    requires ValidEnv(env) && e1.Bin? && SameType(e1, e2)
    ensures var (a, b) := EliminateEq(e1, e2);
      Val(a, env) == Val(b, env) ==> Val(e1, env) == Val(e2, env)
    decreases Size(e1) + Size(e2), 1
  {
    var x := CancelEqualFactors(e1.op, e1, e2, env);
    var (a, b) := CancelEqual(e1.op, e1, e2);
    EliminateYnKeepsValue(a, env);
    EliminateYnKeepsValue(b, env);
  }

  /** expr_eq never equates two expressions that differ under some calculation. */
  lemma {:induction false} ExprEqSound(e1: Expr, e2: Expr, env: Env)
    requires ValidEnv(env) && ExprEq(e1, e2)
    ensures Val(e1, env) == Val(e2, env)
    decreases Size(e1) + Size(e2), 2
  {
    match e1
    case Neg(a) => ExprEqSound(a, e2.arg, env);
    case Bin(_, _, _) => EliminateEqSameType(e1, e2, env);
    case _ =>
  }

  lemma ExprEqPtrSound(p1: ExprPtr, p2: ExprPtr, env: Env)
    requires ValidEnv(env) && ExprEqPtr(p1, p2)
    ensures ValPtr(p1, env) == ValPtr(p2, env)
  {
    assert ValidValue(SymYes, env.curr(SymYes), env.modules);
    if p1.Ptr? && p2.Ptr? {
      ExprEqSound(p1.e, p2.e, env);
    }
  }

  /** The superset test of menu_finalize: when expr_eliminate_eq reduces the second expression to y,
      the first implies the second under every calculation. */
  lemma {:induction false} EliminateEqSuperset(p1: ExprPtr, p2: ExprPtr, env: Env)
    requires ValidEnv(env) && IsYes(EliminateEqPtr(p1, p2).1)
    ensures ValPtr(p1, env) <= ValPtr(p2, env)
  {
    assert ValidValue(SymYes, env.curr(SymYes), env.modules);
    if p1.Ptr? && p2.Ptr? {
      var e1, e2 := p1.e, p2.e;
      var x, y := NO, NO;
      var (a, b) := if e1.Bin? then CancelEqual(e1.op, e1, e2) else (e1, e2);
      if e1.Bin? {
        x := CancelEqualFactors(e1.op, e1, e2, env);
      }
      var (c, d) := if !SameType(a, b) && b.Bin? then CancelEqual(b.op, a, b) else (a, b);
      if !SameType(a, b) && b.Bin? {
        y := CancelEqualFactors(b.op, a, b, env);
      }
      EliminateYnKeepsValue(d, env);
    }
  }
}
