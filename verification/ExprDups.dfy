/** Removal of duplicate and redundant operands: expr_eliminate_dups1 and expr_eliminate_dups of
    scripts/config/expr.c. The tree is paired with itself in place, so both cursors are positions in
    one tree and an operand may be overwritten while the other cursor still walks. */
module ExprDups {
  import opened Exprs
  import opened ExprReduce
  import opened ExprJoin
  import opened ExprPaths

  predicate TwoOperands(op: Conn, t: Expr, p1: Path, p2: Path) {
    IsOperand(op, t, p1) && IsOperand(op, t, p2) && p1 != p2
  }

  /** The join of two operands after the first has been rewritten to f1; the number counts the
      increment of trans_count. */
  function JoinStep(op: Conn, t: Expr, p1: Path, p2: Path, f1: Expr): (r: (Expr, nat))
    requires TwoOperands(op, t, p1, p2) && !IsBin(f1, op)
    ensures SameSpine(op, t, r.0)
    ensures Leaves(f1) <= Leaves(Get(op, t, p1)) ==> Leaves(r.0) <= Leaves(t)
  {
    var t1 := Put(op, t, p1, f1);
    PutAtOperand(op, t, p1, f1);
    PutKeepsOthers(op, t, p1, p2, f1);
    LeavesAround(op, t, p1, f1);
    var e2 := Get(op, t, p2);
    match Join(op, f1, e2)
    case Nothing => (t1, 0)
    case Into(e) =>
      var n := Leaf(op.Neutral());
      var t2 := Put(op, t1, p1, n);
      JoinShape(op, f1, e2);
      PutAtOperand(op, t1, p1, n);
      PutKeepsOthers(op, t1, p1, p2, n);
      PutAtOperand(op, t2, p2, e);
      SameSpineTrans(op, t, t1, t2);
      SameSpineTrans(op, t, t2, Put(op, t2, p2, e));
      LeavesAround(op, t1, p1, n);
      LeavesAround(op, t2, p2, e);
      LeavesPositive(f1);
      (Put(op, t2, p2, e), 1)
  }

  /** expr_eliminate_dups1 on the tree t with its two cursors at p1 and p2. */
  function Dups1(op: Conn, t: Expr, p1: Path, p2: Path): (r: (Expr, nat))
    requires OnSpine(op, t, p1) && OnSpine(op, t, p2)
    ensures SameSpine(op, t, r.0)
    ensures Leaves(r.0) <= Leaves(t)
    decreases Leaves(t), SpineSize(op, Get(op, t, p1)) + SpineSize(op, Get(op, t, p2))
  {
    if IsBin(Get(op, t, p1), op) then
      GetChild(op, t, p1, L);
      GetChild(op, t, p1, R);
      var (t1, c1) := Dups1(op, t, p1 + [L], p2);
      SameSpineAt(op, t, t1, p1 + [R]);
      SameSpineAt(op, t, t1, p2);
      var (t2, c2) := Dups1(op, t1, p1 + [R], p2);
      SameSpineTrans(op, t, t1, t2);
      (t2, c1 + c2)
    else if IsBin(Get(op, t, p2), op) then
      GetChild(op, t, p2, L);
      GetChild(op, t, p2, R);
      var (t1, c1) := Dups1(op, t, p1, p2 + [L]);
      SameSpineAt(op, t, t1, p2 + [R]);
      SameSpineAt(op, t, t1, p1);
      var (t2, c2) := Dups1(op, t1, p1, p2 + [R]);
      SameSpineTrans(op, t, t1, t2);
      (t2, c1 + c2)
    else if p1 == p2 then
      SameSpineRefl(op, t);
      (t, 0)
    else
      var e1 := Get(op, t, p1);
      LeavesAround(op, t, p1, e1);
      var (f1, c1) := if e1.Bin? then Dups1(e1.op, e1, [], []) else (e1, 0);
      var (t1, c2) := JoinStep(op, t, p1, p2, f1);
      (t1, c1 + c2)
  }

  /** expr_eliminate_dups */
  function EliminateDups(e: Expr): (r: Expr)
    ensures Leaves(r) <= Leaves(e)
    decreases Leaves(e)
  {
    var (t, count) := if e.Bin? then Dups1(e.op, e, [], []) else (e, 0);
    if count == 0 then t
    else
      EliminateYnShrinks(t);
      Dups1LeavesConstant(e.op, e, [], []);
      EliminateDups(EliminateYn(t))
  }

  lemma {:induction false} PutNeutralIsReducible(op: Conn, t: Expr, p: Path)
    requires OnSpine(op, t, p) && p != []
    ensures !YnFree(Put(op, t, p, Leaf(op.Neutral())))
  {
    if |p| > 1 {
      PutNeutralIsReducible(op, Child(t, p[0]), p[1..]);
    }
  }

  /** Overwriting an operand cannot make a reducible tree irreducible unless the operand itself was
      what made it reducible. */
  lemma {:induction false} PutKeepsReducible(op: Conn, t: Expr, p: Path, x: Expr)
    requires OnSpine(op, t, p) && p != []
    requires !YnFree(t)
    requires YnFree(x) ==> YnFree(Get(op, t, p))
    requires IsYn(Get(op, t, p)) ==> IsYn(x)
    ensures !YnFree(Put(op, t, p, x))
  {
    var c := Child(t, p[0]);
    if |p| == 1 {
      PutAtChild(op, t, p, x);
    } else {
      assert !IsYn(Put(op, c, p[1..], x));
      if !YnFree(c) {
        PutKeepsReducible(op, c, p[1..], x);
      }
    }
  }

  lemma PutAtChild(op: Conn, t: Expr, p: Path, x: Expr)
    requires OnSpine(op, t, p) && |p| == 1
    ensures var c := Child(t, p[0]); Get(op, t, p) == c && Put(op, t, p, x) == if p[0].L? then Bin(op, x, t.right) else Bin(op, t.left, x)
  {
    var q := p[1..];
    assert q == [];
    assert Put(op, Child(t, p[0]), q, x) == x && Get(op, Child(t, p[0]), q) == Child(t, p[0]);
  }

  lemma {:induction false} PutOtherKeepsReducible(op: Conn, t: Expr, p: Path, q: Path, x: Expr)
    requires IsOperand(op, t, p) && IsOperand(op, t, q) && p != q
    requires Get(op, t, p) == Leaf(op.Neutral()) && !IsBin(x, op)
    ensures !YnFree(Put(op, t, q, x))
  {
    PutKeepsOthers(op, t, q, p, x);
    PutSame(op, Put(op, t, q, x), p);
    PutNeutralIsReducible(op, Put(op, t, q, x), p);
  }

  lemma OperandIsProper(op: Conn, t: Expr, p1: Path, p2: Path)
    requires TwoOperands(op, t, p1, p2)
    ensures p1 != [] && p2 != []
  {
  }

  /** A pass that counts a change leaves a constant operand behind, and no pass removes one. */
  lemma {:induction false} Dups1LeavesConstant(op: Conn, t: Expr, p1: Path, p2: Path)
    requires OnSpine(op, t, p1) && OnSpine(op, t, p2)
    ensures Dups1(op, t, p1, p2).1 > 0 || !YnFree(t) ==> !YnFree(Dups1(op, t, p1, p2).0)
    decreases Leaves(t), SpineSize(op, Get(op, t, p1)) + SpineSize(op, Get(op, t, p2))
  {
    if IsBin(Get(op, t, p1), op) {
      GetChild(op, t, p1, L);
      GetChild(op, t, p1, R);
      var t1 := Dups1(op, t, p1 + [L], p2).0;
      Dups1LeavesConstant(op, t, p1 + [L], p2);
      SameSpineAt(op, t, t1, p1 + [R]);
      SameSpineAt(op, t, t1, p2);
      Dups1LeavesConstant(op, t1, p1 + [R], p2);
    } else if IsBin(Get(op, t, p2), op) {
      GetChild(op, t, p2, L);
      GetChild(op, t, p2, R);
      var t1 := Dups1(op, t, p1, p2 + [L]).0;
      Dups1LeavesConstant(op, t, p1, p2 + [L]);
      SameSpineAt(op, t, t1, p2 + [R]);
      SameSpineAt(op, t, t1, p1);
      Dups1LeavesConstant(op, t1, p1, p2 + [R]);
    } else if p1 != p2 {
      var e1 := Get(op, t, p1);
      LeavesAround(op, t, p1, e1);
      var (f1, c1) := if e1.Bin? then Dups1(e1.op, e1, [], []) else (e1, 0);
      if e1.Bin? {
        Dups1LeavesConstant(e1.op, e1, [], []);
      }
      OperandIsProper(op, t, p1, p2);
      JoinStepLeavesConstant(op, t, p1, p2, f1);
      if c1 > 0 {
        PutReducible(op, t, p1, f1);
      } else if !YnFree(t) {
        PutKeepsReducible(op, t, p1, f1);
      }
    }
  }

  lemma {:induction false} PutReducible(op: Conn, t: Expr, p: Path, x: Expr)
    requires OnSpine(op, t, p) && !YnFree(x)
    ensures !YnFree(Put(op, t, p, x))
  {
    if p != [] {
      PutReducible(op, Child(t, p[0]), p[1..], x);
    }
  }

  lemma JoinStepLeavesConstant(op: Conn, t: Expr, p1: Path, p2: Path, f1: Expr)
    requires TwoOperands(op, t, p1, p2) && !IsBin(f1, op)
    ensures JoinStep(op, t, p1, p2, f1).1 > 0 ==> !YnFree(JoinStep(op, t, p1, p2, f1).0)
    ensures JoinStep(op, t, p1, p2, f1).1 == 0 ==> JoinStep(op, t, p1, p2, f1).0 == Put(op, t, p1, f1)
  {
    var t1 := Put(op, t, p1, f1);
    PutAtOperand(op, t, p1, f1);
    PutKeepsOthers(op, t, p1, p2, f1);
    var e2 := Get(op, t, p2);
    if Join(op, f1, e2).Into? {
      var n := Leaf(op.Neutral());
      var t2 := Put(op, t1, p1, n);
      JoinShape(op, f1, e2);
      PutAtOperand(op, t1, p1, n);
      PutKeepsOthers(op, t1, p1, p2, n);
      PutOtherKeepsReducible(op, t2, p1, p2, Join(op, f1, e2).e);
    }
  }

  /** The two tree invariants of menu_finalize's expressions. */
  predicate Tidy(e: Expr) {
    PlainConsts(e) && NotOnLeaves(e)
  }

  lemma {:induction false} TidyAt(op: Conn, t: Expr, p: Path, x: Expr)
    requires OnSpine(op, t, p)
    ensures PlainConsts(t) ==> PlainConsts(Get(op, t, p))
    ensures NotOnLeaves(t) ==> NotOnLeaves(Get(op, t, p))
    ensures PlainConsts(t) && PlainConsts(x) ==> PlainConsts(Put(op, t, p, x))
    ensures NotOnLeaves(t) && NotOnLeaves(x) ==> NotOnLeaves(Put(op, t, p, x))
  {
    if p != [] {
      TidyAt(op, Child(t, p[0]), p[1..], x);
    }
  }

  lemma JoinStepKeepsValue(op: Conn, t: Expr, p1: Path, p2: Path, f1: Expr, env: Env)
    requires ValidEnv(env) && TwoOperands(op, t, p1, p2) && !IsBin(f1, op)
    requires PlainConsts(t) && PlainConsts(f1) && Val(f1, env) == Val(Get(op, t, p1), env)
    ensures Val(JoinStep(op, t, p1, p2, f1).0, env) == Val(t, env)
    ensures PlainConsts(JoinStep(op, t, p1, p2, f1).0)
    ensures NotOnLeaves(t) && NotOnLeaves(f1) ==> NotOnLeaves(JoinStep(op, t, p1, p2, f1).0)
  {
    var n := Leaf(op.Neutral());
    assert ValidValue(op.Neutral(), env.curr(op.Neutral()), env.modules);
    var t1 := Put(op, t, p1, f1);
    PutAtOperand(op, t, p1, f1);
    PutKeepsOthers(op, t, p1, p2, f1);
    ReplaceKeepsValue(op, t, p1, f1, env);
    TidyAt(op, t, p1, f1);
    var e2 := Get(op, t, p2);
    TidyAt(op, t, p2, e2);
    if Join(op, f1, e2).Into? {
      var e := Join(op, f1, e2).e;
      JoinShape(op, f1, e2);
      JoinSound(op, f1, e2, env);
      var t2 := Put(op, t1, p1, n);
      PutAtOperand(op, t1, p1, n);
      PutKeepsOthers(op, t1, p1, p2, n);
      TidyAt(op, t1, p1, n);
      TidyAt(op, t2, p2, e);
      MoveKeepsValue(op, t1, p1, p2, e, env);
    }
  }

  lemma ReplaceKeepsValue(op: Conn, t: Expr, p: Path, x: Expr, env: Env)
    requires ValidEnv(env) && OnSpine(op, t, p) && Val(x, env) == Val(Get(op, t, p), env)
    ensures Val(Put(op, t, p, x), env) == Val(t, env)
  {
    ValueAround(op, t, p, x, env);
    ValueAround(op, t, p, Get(op, t, p), env);
    PutSame(op, t, p);
  }

  /** Moving an operand's contribution into another operand keeps the value of the whole. */
  lemma MoveKeepsValue(op: Conn, t: Expr, p: Path, q: Path, x: Expr, env: Env)
    requires ValidEnv(env) && TwoOperands(op, t, p, q)
    requires Val(x, env) == op.Apply(Val(Get(op, t, p), env), Val(Get(op, t, q), env))
    requires OnSpine(op, Put(op, t, p, Leaf(op.Neutral())), q)
    ensures Val(Put(op, Put(op, t, p, Leaf(op.Neutral())), q, x), env) == Val(t, env)
  {
    var n := Leaf(op.Neutral());
    var t1 := Put(op, t, p, n);
    ValueAround(op, t, p, Get(op, t, p), env);
    PutSame(op, t, p);
    PutKeepsOthers(op, t, p, q, n);
    ValueAround(op, t1, q, x, env);
    ValueAround(op, t1, q, Get(op, t, q), env);
    PutSame(op, t1, q);
  }

  /** A pass of expr_eliminate_dups1 keeps the value of the tree it works on, from any pair of
      cursors. */
  lemma {:induction false} Dups1KeepsValue(op: Conn, t: Expr, p1: Path, p2: Path, env: Env)
    requires ValidEnv(env) && PlainConsts(t)
    requires OnSpine(op, t, p1) && OnSpine(op, t, p2)
    ensures Val(Dups1(op, t, p1, p2).0, env) == Val(t, env)
    ensures PlainConsts(Dups1(op, t, p1, p2).0)
    ensures NotOnLeaves(t) ==> NotOnLeaves(Dups1(op, t, p1, p2).0)
    decreases Leaves(t), SpineSize(op, Get(op, t, p1)) + SpineSize(op, Get(op, t, p2))
  {
    if IsBin(Get(op, t, p1), op) {
      GetChild(op, t, p1, L);
      GetChild(op, t, p1, R);
      var t1 := Dups1(op, t, p1 + [L], p2).0;
      Dups1KeepsValue(op, t, p1 + [L], p2, env);
      SameSpineAt(op, t, t1, p1 + [R]);
      SameSpineAt(op, t, t1, p2);
      Dups1KeepsValue(op, t1, p1 + [R], p2, env);
    } else if IsBin(Get(op, t, p2), op) {
      GetChild(op, t, p2, L);
      GetChild(op, t, p2, R);
      var t1 := Dups1(op, t, p1, p2 + [L]).0;
      Dups1KeepsValue(op, t, p1, p2 + [L], env);
      SameSpineAt(op, t, t1, p2 + [R]);
      SameSpineAt(op, t, t1, p1);
      Dups1KeepsValue(op, t1, p1, p2 + [R], env);
    } else if p1 != p2 {
      var e1 := Get(op, t, p1);
      LeavesAround(op, t, p1, e1);
      TidyAt(op, t, p1, e1);
      if e1.Bin? {
        Dups1KeepsValue(e1.op, e1, [], [], env);
      }
      var f1 := if e1.Bin? then Dups1(e1.op, e1, [], []).0 else e1;
      JoinStepKeepsValue(op, t, p1, p2, f1, env);
    }
  }

  lemma {:induction false} EliminateYnKeepsTidy(e: Expr)
    ensures PlainConsts(e) ==> PlainConsts(EliminateYn(e))
    ensures NotOnLeaves(e) ==> NotOnLeaves(EliminateYn(e))
  {
    if e.Bin? {
      EliminateYnKeepsTidy(e.left);
      EliminateYnKeepsTidy(e.right);
    }
  }

  /** expr_eliminate_dups keeps the value under every calculation. */
  lemma {:induction false} EliminateDupsKeepsValue(e: Expr, env: Env)
    requires ValidEnv(env) && PlainConsts(e)
    ensures Val(EliminateDups(e), env) == Val(e, env)
    ensures PlainConsts(EliminateDups(e))
    ensures NotOnLeaves(e) ==> NotOnLeaves(EliminateDups(e))
    decreases Leaves(e)
  {
    if e.Bin? {
      var (t, count) := Dups1(e.op, e, [], []);
      Dups1KeepsValue(e.op, e, [], [], env);
      if count > 0 {
        Dups1LeavesConstant(e.op, e, [], []);
        EliminateYnShrinks(t);
        EliminateYnKeepsValue(t, env);
        EliminateYnKeepsTidy(t);
        EliminateDupsKeepsValue(EliminateYn(t), env);
      }
    }
  }

  /** No two distinct operands of any operand list can be joined, in either order. */
  ghost predicate Settled(e: Expr)
    decreases Leaves(e), 1
  {
    e.Bin? ==> SettledBetween(e.op, e, [], [])
  }

  /** The same for the operands below two positions. */
  ghost predicate SettledBetween(op: Conn, t: Expr, p1: Path, p2: Path)
    requires OnSpine(op, t, p1) && OnSpine(op, t, p2)
    decreases Leaves(t), 0
  {
    forall q1: Path, q2: Path | p1 <= q1 && p2 <= q2 && TwoOperands(op, t, q1, q2) ::
      && Join(op, Get(op, t, q1), Get(op, t, q2)) == Nothing
      && (LeavesAround(op, t, q1, t); Settled(Get(op, t, q1)))
  }

  /** An operand at or below a position is that position or lies in one of its two halves. */
  lemma {:induction false} OperandBelow(op: Conn, t: Expr, p: Path, q: Path)
    requires p <= q && IsOperand(op, t, q) && OnSpine(op, t, p)
    ensures if IsBin(Get(op, t, p), op) then p + [L] <= q || p + [R] <= q else q == p
  {
    if p != [] {
      OperandBelow(op, Child(t, p[0]), p[1..], q[1..]);
      assert p == [p[0]] + p[1..] && q == [q[0]] + q[1..];
    } else if IsBin(t, op) {
      assert q[0] == L || q[0] == R;
    }
  }

  /** A pass that counts nothing changes nothing and has tried every pair. */
  lemma {:induction false} QuietPass(op: Conn, t: Expr, p1: Path, p2: Path)
    requires OnSpine(op, t, p1) && OnSpine(op, t, p2)
    requires Dups1(op, t, p1, p2).1 == 0
    ensures Dups1(op, t, p1, p2).0 == t
    ensures SettledBetween(op, t, p1, p2)
    decreases Leaves(t), SpineSize(op, Get(op, t, p1)) + SpineSize(op, Get(op, t, p2))
  {
    if IsBin(Get(op, t, p1), op) {
      GetChild(op, t, p1, L);
      GetChild(op, t, p1, R);
      QuietPass(op, t, p1 + [L], p2);
      QuietPass(op, t, p1 + [R], p2);
    } else if IsBin(Get(op, t, p2), op) {
      GetChild(op, t, p2, L);
      GetChild(op, t, p2, R);
      QuietPass(op, t, p1, p2 + [L]);
      QuietPass(op, t, p1, p2 + [R]);
    } else if p1 != p2 {
      var e1 := Get(op, t, p1);
      LeavesAround(op, t, p1, e1);
      if e1.Bin? {
        QuietPass(e1.op, e1, [], []);
      }
      JoinStepLeavesConstant(op, t, p1, p2, e1);
      PutSame(op, t, p1);
    }
    forall q1: Path, q2: Path | p1 <= q1 && p2 <= q2 && TwoOperands(op, t, q1, q2)
      ensures Join(op, Get(op, t, q1), Get(op, t, q2)) == Nothing
      ensures Settled(Get(op, t, q1))
    {
      OperandBelow(op, t, p1, q1);
      OperandBelow(op, t, p2, q2);
      LeavesAround(op, t, q1, t);
    }
  }

  /** expr_eliminate_dups stops only when no two operands of any operand list can be joined. */
  lemma {:induction false} EliminateDupsSettles(e: Expr)
    ensures Settled(EliminateDups(e))
    decreases Leaves(e)
  {
    if e.Bin? {
      var (t, count) := Dups1(e.op, e, [], []);
      if count == 0 {
        QuietPass(e.op, e, [], []);
      } else {
        Dups1LeavesConstant(e.op, e, [], []);
        EliminateYnShrinks(t);
        EliminateDupsSettles(EliminateYn(t));
      }
    }
  }
}
