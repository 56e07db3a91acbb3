/** Positions inside an expression. A struct expr ** of the source is a position: the slot it points
    to is read with Get and overwritten with Put, and two slots are the same exactly when the paths
    are equal. Only positions reached through nodes of one connective (a spine) are needed. */
module ExprPaths {
  import opened Exprs
  import opened ExprReduce

  datatype Side = L | R

  type Path = seq<Side>

  function Child(e: Expr, d: Side): Expr
    requires e.Bin?
  {
    if d.L? then e.left else e.right
  }

  predicate OnSpine(op: Conn, e: Expr, p: Path) {
    p == [] || (IsBin(e, op) && OnSpine(op, Child(e, p[0]), p[1..]))
  }

  function Get(op: Conn, e: Expr, p: Path): Expr
    requires OnSpine(op, e, p)
  {
    if p == [] then e else Get(op, Child(e, p[0]), p[1..])
  }

  function Put(op: Conn, e: Expr, p: Path, x: Expr): Expr
    requires OnSpine(op, e, p)
  {
    if p == [] then x
    else if p[0].L? then Bin(op, Put(op, e.left, p[1..], x), e.right)
    else Bin(op, e.left, Put(op, e.right, p[1..], x))
  }

  /** A position below which the connective no longer continues. */
  predicate IsOperand(op: Conn, e: Expr, p: Path) {
    OnSpine(op, e, p) && !IsBin(Get(op, e, p), op)
  }

  /** Both expressions branch with the connective at the same positions. */
  predicate SameSpine(op: Conn, a: Expr, b: Expr) {
    if IsBin(a, op) then IsBin(b, op) && SameSpine(op, a.left, b.left) && SameSpine(op, a.right, b.right)
    else !IsBin(b, op)
  }

  /** The number of nodes of the connective on the spine. */
  function SpineSize(op: Conn, e: Expr): nat {
    if IsBin(e, op) then 1 + SpineSize(op, e.left) + SpineSize(op, e.right) else 0
  }

  lemma {:induction false} SameSpineRefl(op: Conn, a: Expr)
    ensures SameSpine(op, a, a)
  {
    if IsBin(a, op) {
      SameSpineRefl(op, a.left);
      SameSpineRefl(op, a.right);
    }
  }

  lemma {:induction false} SameSpineTrans(op: Conn, a: Expr, b: Expr, c: Expr)
    requires SameSpine(op, a, b) && SameSpine(op, b, c)
    ensures SameSpine(op, a, c)
  {
    if IsBin(a, op) {
      SameSpineTrans(op, a.left, b.left, c.left);
      SameSpineTrans(op, a.right, b.right, c.right);
    }
  }

  lemma {:induction false} SameSpineAt(op: Conn, a: Expr, b: Expr, p: Path)
    requires SameSpine(op, a, b) && OnSpine(op, a, p)
    ensures OnSpine(op, b, p) && SameSpine(op, Get(op, a, p), Get(op, b, p))
    ensures SpineSize(op, Get(op, a, p)) == SpineSize(op, Get(op, b, p))
  {
    if p != [] {
      SameSpineAt(op, Child(a, p[0]), Child(b, p[0]), p[1..]);
    } else {
      SameSpineSize(op, a, b);
    }
  }

  lemma {:induction false} SameSpineSize(op: Conn, a: Expr, b: Expr)
    requires SameSpine(op, a, b)
    ensures SpineSize(op, a) == SpineSize(op, b)
  {
    if IsBin(a, op) {
      SameSpineSize(op, a.left, b.left);
      SameSpineSize(op, a.right, b.right);
    }
  }

  lemma {:induction false} GetChild(op: Conn, e: Expr, p: Path, d: Side)
    requires OnSpine(op, e, p) && IsBin(Get(op, e, p), op)
    ensures OnSpine(op, e, p + [d]) && Get(op, e, p + [d]) == Child(Get(op, e, p), d)
  {
    if p != [] {
      assert (p + [d])[1..] == p[1..] + [d];
      GetChild(op, Child(e, p[0]), p[1..], d);
    } else {
      assert (p + [d])[1..] == [];
    }
  }

  /** Overwriting one operand with another keeps the spine, and the slot reads back. */
  lemma {:induction false} PutAtOperand(op: Conn, e: Expr, p: Path, x: Expr)
    requires IsOperand(op, e, p) && !IsBin(x, op)
    ensures SameSpine(op, e, Put(op, e, p, x))
    ensures OnSpine(op, Put(op, e, p, x), p) && Get(op, Put(op, e, p, x), p) == x
  {
    if p != [] {
      PutAtOperand(op, Child(e, p[0]), p[1..], x);
      SameSpineRefl(op, Child(e, if p[0].L? then R else L));
    }
  }

  /** Two distinct operand slots do not overlap. */
  lemma {:induction false} PutKeepsOthers(op: Conn, e: Expr, p: Path, q: Path, x: Expr)
    requires IsOperand(op, e, p) && IsOperand(op, e, q) && p != q && !IsBin(x, op)
    ensures IsOperand(op, Put(op, e, p, x), q) && Get(op, Put(op, e, p, x), q) == Get(op, e, q)
  {
    assert p != [] && q != [];
    if p[0] == q[0] {
      assert p == [p[0]] + p[1..] && q == [q[0]] + q[1..];
      PutKeepsOthers(op, Child(e, p[0]), p[1..], q[1..], x);
    }
  }

  /** Writing the same contents back changes nothing. */
  lemma {:induction false} PutSame(op: Conn, e: Expr, p: Path)
    requires OnSpine(op, e, p)
    ensures Put(op, e, p, Get(op, e, p)) == e
  {
    if p != [] {
      PutSame(op, Child(e, p[0]), p[1..]);
    }
  }

  /** The value of a tree is that of the rest combined with any one of its slots. */
  lemma {:induction false} ValueAround(op: Conn, e: Expr, p: Path, x: Expr, env: Env)
    requires ValidEnv(env) && OnSpine(op, e, p)
    ensures Val(Put(op, e, p, x), env)
            == op.Apply(Val(Put(op, e, p, Leaf(op.Neutral())), env), Val(x, env))
  {
    assert ValidValue(op.Neutral(), env.curr(op.Neutral()), env.modules);
    if p != [] {
      ValueAround(op, Child(e, p[0]), p[1..], x, env);
    }
  }

  lemma {:induction false} LeavesAround(op: Conn, e: Expr, p: Path, x: Expr)
    requires OnSpine(op, e, p)
    ensures Leaves(Put(op, e, p, x)) + Leaves(Get(op, e, p)) == Leaves(e) + Leaves(x)
    ensures Leaves(Get(op, e, p)) >= 1
    ensures p != [] ==> Leaves(Get(op, e, p)) < Leaves(e)
  {
    LeavesPositive(Get(op, e, p));
    if p != [] {
      LeavesAround(op, Child(e, p[0]), p[1..], x);
      LeavesPositive(Child(e, if p[0].L? then R else L));
    }
  }

  lemma {:induction false} LeavesPositive(e: Expr)
    ensures Leaves(e) >= 1
  {
    if e.Bin? {
      LeavesPositive(e.left);
    }
  }
}
