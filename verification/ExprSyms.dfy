/** Which symbols the rewritings of scripts/config/expr.c can bring in: y, m and n, and no others. */
module ExprSyms {
  import opened Exprs
  import opened ExprReduce
  import opened ExprJoin
  import opened ExprPaths
  import opened ExprDups
  import opened ExprTransform

  const CONSTANTS: set<Sym> := {SymYes, SymMod, SymNo}

  lemma {:induction false} TransformSyms(e: Expr)
    ensures Syms(Transform(e)) <= Syms(e) + CONSTANTS
    decreases Weight(e)
  {
    match e
    case Leaf(_) =>
    case Rel(_, _, _) =>
    case Bin(_, l, r) =>
      TransformSyms(l);
      TransformSyms(r);
    case Neg(a) =>
      WeightPositive(a);
      TransformSyms(a);
      match Transform(a) {
        case Neg(b) => WeightPositive(b); TransformSyms(b);
        case Rel(_, _, _) =>
        case Bin(op, l, r) => TransformSyms(PushNot(op, l, r));
        case Leaf(_) =>
      }
  }

  lemma {:induction false} EliminateYnSyms(e: Expr)
    ensures Syms(EliminateYn(e)) <= Syms(e)
  {
    if e.Bin? {
      EliminateYnSyms(e.left);
      EliminateYnSyms(e.right);
    }
  }

  lemma JoinSyms(op: Conn, e1: Expr, e2: Expr)
    requires Join(op, e1, e2).Into?
    ensures Syms(Join(op, e1, e2).e) <= Syms(e1) + Syms(e2) + CONSTANTS
  {
  }

  lemma {:induction false} PathSyms(op: Conn, t: Expr, p: Path, x: Expr)
    requires OnSpine(op, t, p)
    ensures Syms(Get(op, t, p)) <= Syms(t) && Syms(Put(op, t, p, x)) <= Syms(t) + Syms(x)
  {
    if p != [] {
      PathSyms(op, Child(t, p[0]), p[1..], x);
    }
  }

  lemma JoinStepSyms(op: Conn, t: Expr, p1: Path, p2: Path, f1: Expr)
    requires TwoOperands(op, t, p1, p2) && !IsBin(f1, op)
    ensures Syms(JoinStep(op, t, p1, p2, f1).0) <= Syms(t) + Syms(f1) + CONSTANTS
  {
    var t1 := Put(op, t, p1, f1);
    PutAtOperand(op, t, p1, f1);
    PutKeepsOthers(op, t, p1, p2, f1);
    PathSyms(op, t, p1, f1);
    var e2 := Get(op, t, p2);
    PathSyms(op, t, p2, e2);
    if Join(op, f1, e2).Into? {
      var e, n := Join(op, f1, e2).e, Leaf(op.Neutral());
      JoinShape(op, f1, e2);
      JoinSyms(op, f1, e2);
      PutAtOperand(op, t1, p1, n);
      PutKeepsOthers(op, t1, p1, p2, n);
      PathSyms(op, t1, p1, n);
      PathSyms(op, Put(op, t1, p1, n), p2, e);
    }
  }

  lemma {:induction false} Dups1Syms(op: Conn, t: Expr, p1: Path, p2: Path)
    requires OnSpine(op, t, p1) && OnSpine(op, t, p2)
    ensures Syms(Dups1(op, t, p1, p2).0) <= Syms(t) + CONSTANTS
    decreases Leaves(t), SpineSize(op, Get(op, t, p1)) + SpineSize(op, Get(op, t, p2))
  {
    if IsBin(Get(op, t, p1), op) {
      GetChild(op, t, p1, L);
      GetChild(op, t, p1, R);
      var t1 := Dups1(op, t, p1 + [L], p2).0;
      Dups1Syms(op, t, p1 + [L], p2);
      SameSpineAt(op, t, t1, p1 + [R]);
      SameSpineAt(op, t, t1, p2);
      Dups1Syms(op, t1, p1 + [R], p2);
    } else if IsBin(Get(op, t, p2), op) {
      GetChild(op, t, p2, L);
      GetChild(op, t, p2, R);
      var t1 := Dups1(op, t, p1, p2 + [L]).0;
      Dups1Syms(op, t, p1, p2 + [L]);
      SameSpineAt(op, t, t1, p2 + [R]);
      SameSpineAt(op, t, t1, p1);
      Dups1Syms(op, t1, p1, p2 + [R]);
    } else if p1 != p2 {
      var e1 := Get(op, t, p1);
      LeavesAround(op, t, p1, e1);
      PathSyms(op, t, p1, e1);
      if e1.Bin? {
        Dups1Syms(e1.op, e1, [], []);
      }
      JoinStepSyms(op, t, p1, p2, if e1.Bin? then Dups1(e1.op, e1, [], []).0 else e1);
    }
  }

  lemma {:induction false} EliminateDupsSyms(e: Expr)
    ensures Syms(EliminateDups(e)) <= Syms(e) + CONSTANTS
    decreases Leaves(e)
  {
    if e.Bin? {
      var (t, count) := Dups1(e.op, e, [], []);
      Dups1Syms(e.op, e, [], []);
      if count > 0 {
        Dups1LeavesConstant(e.op, e, [], []);
        EliminateYnShrinks(t);
        EliminateYnSyms(t);
        EliminateDupsSyms(EliminateYn(t));
      }
    }
  }

  /** Transforming and optimising an expression brings in no symbol but y, m and n. */
  lemma OptimisedSyms(e: Expr)
    ensures Syms(EliminateDups(Transform(e))) <= Syms(e) + CONSTANTS
  {
    TransformSyms(e);
    EliminateDupsSyms(Transform(e));
  }
}
