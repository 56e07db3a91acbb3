/** An entry that joins a submenu though it may be visible without it: why the superset test of
    scripts/config/menu.c needs its premise. */
module MenuSuperset {
  import opened Tristate
  import opened Exprs
  import opened ExprReduce
  import opened ExprJoin
  import opened ExprPaths
  import opened ExprDups
  import opened ExprTransform
  import opened MenuDeps

  /** Nothing to do inside an operand. */
  predicate QuietInside(e: Expr) {
    e.Bin? ==> Dups1(e.op, e, [], []) == (e, 0)
  }

  lemma QuietStep(op: Conn, t: Expr, p1: Path, p2: Path)
    requires TwoOperands(op, t, p1, p2) && QuietInside(Get(op, t, p1))
    requires Join(op, Get(op, t, p1), Get(op, t, p2)) == Nothing
    requires Put(op, t, p1, Get(op, t, p1)) == t
    ensures Dups1(op, t, p1, p2) == (t, 0)
  {
  }

  lemma OneDown(op: Conn, t: Expr, d: Side)
    requires IsBin(t, op) && !IsBin(Child(t, d), op)
    ensures IsOperand(op, t, [d]) && Get(op, t, [d]) == Child(t, d) && Put(op, t, [d], Child(t, d)) == t
  {
    assert [d][1..] == [] && Get(op, Child(t, d), []) == Child(t, d);
  }

  /** One of two operands, held against both. */
  lemma QuietRow(op: Conn, t: Expr, d: Side, other: Side)
    requires IsBin(t, op) && d != other && !IsBin(t.left, op) && !IsBin(t.right, op)
    requires QuietInside(Child(t, d)) && Join(op, Child(t, d), Child(t, other)) == Nothing
    ensures Dups1(op, t, [d], []) == (t, 0)
  {
    OneDown(op, t, d);
    OneDown(op, t, other);
    QuietStep(op, t, [d], [other]);
    assert Dups1(op, t, [d], [d]) == (t, 0);
    assert [] + [L] == [L] && [] + [R] == [R];
    assert Get(op, t, []) == t;
  }

  lemma QuietTop(op: Conn, t: Expr)
    requires IsBin(t, op) && OnSpine(op, t, [L]) && OnSpine(op, t, [R])
    requires Dups1(op, t, [L], []) == (t, 0) && Dups1(op, t, [R], []) == (t, 0)
    ensures Dups1(op, t, [], []) == (t, 0)
  {
    FromEmpty(L);
    FromEmpty(R);
    assert Get(op, t, []) == t;
  }

  lemma FromEmpty(d: Side)
    ensures [] + [d] == [d]
  {
  }

  lemma QuietIsSettled(e: Expr)
    requires QuietInside(e)
    ensures EliminateDups(e) == e
  {
  }

  /** Two operands that cannot be joined stay as they are. */
  lemma TwoQuietOperands(op: Conn, x: Expr, y: Expr)
    requires !IsBin(x, op) && !IsBin(y, op) && QuietInside(x) && QuietInside(y)
    requires Join(op, x, y) == Nothing && Join(op, y, x) == Nothing
    ensures QuietInside(Bin(op, x, y)) && EliminateDups(Bin(op, x, y)) == Bin(op, x, y)
  {
    var t := Bin(op, x, y);
    OneDown(op, t, L);
    OneDown(op, t, R);
    QuietRow(op, t, L, R);
    QuietRow(op, t, R, L);
    QuietTop(op, t);
    QuietIsSettled(t);
  }

  const A := Config("A", Tristate)
  const S := Config("S", Boolean)
  const Q := Config("Q", Boolean)

  /** With dependencies !A && (S || Q), against a symbol S whose prompt depends on A=n. */
  const DEP := Bin(Conj, Neg(Leaf(A)), Bin(Disj, Leaf(S), Leaf(Q)))
  const BASE := Rel(EQ, A, SymNo)

  lemma BothAgainstNo()
    ensures AgainstNo(Ptr(DEP)) == Bin(Conj, BASE, Bin(Disj, Leaf(S), Leaf(Q)))
    ensures AgainstNo(Ptr(BASE)) == BASE
  {
    var some := Bin(Disj, Leaf(S), Leaf(Q));
    var none := Bin(Conj, Rel(EQ, S, SymNo), Rel(EQ, Q, SymNo));
    assert TransCompare(some, EQ, SymNo) == none;
    assert TransCompare(DEP, NE, SymNo) == Neg(Bin(Disj, Rel(NE, A, SymNo), none));
    assert Transform(Neg(Bin(Disj, Rel(NE, A, SymNo), none))) == Bin(Conj, BASE, some);
    TwoQuietOperands(Disj, Leaf(S), Leaf(Q));
    TwoQuietOperands(Conj, BASE, some);
  }

  lemma DepIsSuperset()
    ensures IsSuperset(Ptr(DEP), Ptr(BASE))
  {
    BothAgainstNo();
    var some := Bin(Disj, Leaf(S), Leaf(Q));
    assert CancelEqual(Conj, BASE, BASE) == (Leaf(SymYes), Leaf(SymYes));
    assert CancelEqual(Conj, some, Leaf(SymYes)) == (some, Leaf(SymYes));
    assert CancelEqual(Conj, Bin(Conj, BASE, some), BASE).1 == Leaf(SymYes);
  }

  lemma DepJoins()
    ensures JoinsSubmenu(Ptr(DEP), S, Ptr(BASE)) && OrdinaryPtr(Ptr(DEP)) && OrdinaryPtr(Ptr(BASE))
  {
    DepIsSuperset();
  }

  /** A value for every symbol: A is m, Q is y, all other config symbols are n. */
  function Value(x: Sym): SymVal {
    if x == Q then SymVal("n", YES) else SomeValue(A, MOD, x)
  }

  lemma ValueIsValid()
    ensures ValidEnv(Env(true, Value))
  {
  }

  lemma DepIsOpen(env: Env)
    requires env == Env(true, Value)
    ensures Val(DEP, env) == MOD && env.curr(S).tri == NO && Val(BASE, env) == NO
  {
    ValueIsValid();
    CompareToConst(env, A, SymNo);
    assert Value(A).tri == MOD && Value(S).tri == NO && Value(Q).tri == YES;
    assert Val(Bin(Disj, Leaf(S), Leaf(Q)), env) == YES && Val(Neg(Leaf(A)), env) == MOD;
    assert MOD !in Denotes(SymNo);
  }

  lemma SomewhereOpen()
    ensures exists env :: ValidEnv(env) && Val(DEP, env) == MOD && env.curr(S).tri == NO && Val(BASE, env) == NO
  {
    var env := Env(true, Value);
    DepIsOpen(env);
    ValueIsValid();
    assert ValidEnv(env);
  }

  /** The entry joins the submenu of S, and is visible where neither S nor its prompt is. */
  lemma SupersetFails()
    ensures JoinsSubmenu(Ptr(DEP), S, Ptr(BASE)) && OrdinaryPtr(Ptr(DEP)) && OrdinaryPtr(Ptr(BASE))
    ensures exists env :: ValidEnv(env) && Val(DEP, env) == MOD && env.curr(S).tri == NO && Val(BASE, env) == NO
  {
    DepJoins();
    SomewhereOpen();
  }
}
