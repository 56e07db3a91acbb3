/** What expr_eq decides: equality up to the order and the grouping of operands, with their
    multiplicity; y and n in the operand lists compared are taken into account, deeper ones are not. */
module ExprEquality {
  import opened Exprs
  import opened ExprReduce

  /** An expression up to order and grouping: an operand list is a multiset. */
  datatype Canon = Atom(e: Expr) | Negated(c: Canon) | Operands(op: Conn, list: multiset<Canon>)

  ghost function CanonOf(e: Expr): Canon
    decreases e, 0
  {
    match e
    case Neg(a) => Negated(CanonOf(a))
    case Bin(op, l, r) => Operands(op, OperandsOf(op, l) + OperandsOf(op, r))
    case _ => Atom(e)
  }

  /** The operands of a connective, leaving out y and n. */
  ghost function OperandsOf(op: Conn, e: Expr): multiset<Canon>
    decreases e, 1
  {
    if IsBin(e, op) then OperandsOf(op, e.left) + OperandsOf(op, e.right)
    else if IsYn(e) then multiset{}
    else multiset{CanonOf(e)}
  }

  /** No operand of a connective is y or n, at any depth. */
  predicate NoConstants(e: Expr) {
    match e
    case Neg(a) => NoConstants(a)
    case Bin(_, l, r) => !IsYn(l) && !IsYn(r) && NoConstants(l) && NoConstants(r)
    case _ => true
  }

  /** An operand list that may hold y and n, though its operands do not. */
  predicate ConstantsOnTop(op: Conn, e: Expr) {
    if IsBin(e, op) then ConstantsOnTop(op, e.left) && ConstantsOnTop(op, e.right)
    else NoConstants(e)
  }

  /** The list holds the constant that decides it. */
  predicate Absorbs(op: Conn, e: Expr) {
    if IsBin(e, op) then Absorbs(op, e.left) || Absorbs(op, e.right) else e == Leaf(op.Absorbing())
  }

  lemma {:induction false} NothingOnTop(op: Conn, e: Expr)
    requires NoConstants(e) && !IsYn(e)
    ensures ConstantsOnTop(op, e) && !Absorbs(op, e)
  {
    if IsBin(e, op) {
      NothingOnTop(op, e.left);
      NothingOnTop(op, e.right);
    }
  }

  lemma MultisetSteps<T>(l: multiset<T>, r: multiset<T>, e: multiset<T>)
    ensures (l - e) + (r - (e - l)) == (l + r) - e && (e - l) - r == e - (l + r)
  {
    forall x
      ensures ((l - e) + (r - (e - l)))[x] == ((l + r) - e)[x] && ((e - l) - r)[x] == (e - (l + r))[x]
    {
    }
  }

  lemma SinglesCancel<T>(x: T, y: T)
    ensures multiset{x} - multiset{y} == if x == y then multiset{} else multiset{x}
  {
  }

  lemma EmptyCancels<T>(m: multiset<T>)
    ensures multiset{} - m == multiset{} && m - multiset{} == m
  {
  }

  /** One round of cancelling a pair of operands. */
  lemma CancelPair(op: Conn, e1: Expr, e2: Expr)
    requires ConstantsOnTop(op, e1) && ConstantsOnTop(op, e2) && !IsBin(e1, op) && !IsBin(e2, op)
    requires ExprEq(e1, e2) <==> CanonOf(e1) == CanonOf(e2)
    ensures var (a, b) := CancelEqual(op, e1, e2);
      && ConstantsOnTop(op, a) && ConstantsOnTop(op, b)
      && Absorbs(op, a) == Absorbs(op, e1) && Absorbs(op, b) == Absorbs(op, e2)
      && OperandsOf(op, a) == OperandsOf(op, e1) - OperandsOf(op, e2)
      && OperandsOf(op, b) == OperandsOf(op, e2) - OperandsOf(op, e1)
  {
    EmptyCancels(OperandsOf(op, e1));
    EmptyCancels(OperandsOf(op, e2));
    if !IsYn(e1) && !IsYn(e2) {
      SinglesCancel(CanonOf(e1), CanonOf(e2));
      SinglesCancel(CanonOf(e2), CanonOf(e1));
    }
  }

  /** Cancelling takes each operand list out of the other, as multisets. */
  lemma {:induction false} CancelIsDifference(op: Conn, e1: Expr, e2: Expr)
    requires ConstantsOnTop(op, e1) && ConstantsOnTop(op, e2)
    ensures var (a, b) := CancelEqual(op, e1, e2);
      && ConstantsOnTop(op, a) && ConstantsOnTop(op, b)
      && Absorbs(op, a) == Absorbs(op, e1) && Absorbs(op, b) == Absorbs(op, e2)
      && OperandsOf(op, a) == OperandsOf(op, e1) - OperandsOf(op, e2)
      && OperandsOf(op, b) == OperandsOf(op, e2) - OperandsOf(op, e1)
    decreases Size(e1) + Size(e2), if IsBin(e1, op) || IsBin(e2, op) then 0 else 3
  {
    if IsBin(e1, op) {
      CancelIsDifference(op, e1.left, e2);
      CancelIsDifference(op, e1.right, CancelEqual(op, e1.left, e2).1);
      MultisetSteps(OperandsOf(op, e1.left), OperandsOf(op, e1.right), OperandsOf(op, e2));
    } else if IsBin(e2, op) {
      CancelIsDifference(op, e1, e2.left);
      CancelIsDifference(op, CancelEqual(op, e1, e2.left).0, e2.right);
      MultisetSteps(OperandsOf(op, e2.left), OperandsOf(op, e2.right), OperandsOf(op, e1));
    } else {
      EqIsCanonical(e1, e2);
      CancelPair(op, e1, e2);
    }
  }

  lemma {:induction false} NothingToEliminate(e: Expr)
    requires NoConstants(e)
    ensures EliminateYn(e) == e
  {
    if e.Bin? {
      NothingToEliminate(e.left);
      NothingToEliminate(e.right);
    }
  }

  lemma SumIsEmpty<T>(a: multiset<T>, b: multiset<T>)
    ensures a + b == multiset{} <==> a == multiset{} && b == multiset{}
    ensures multiset{} + b == b && a + multiset{} == a
  {
    assert |a + b| == |a| + |b|;
  }

  /** What is left of a list with the operands m after y and n are dropped: the deciding constant when
      the list holds it, else the neutral one when there are no operands, and a symbol only when it is
      the one operand. */
  ghost predicate Remains(op: Conn, r: Expr, m: multiset<Canon>, absorbs: bool) {
    if absorbs then r == Leaf(op.Absorbing())
    else
      && (r == Leaf(op.Neutral()) <==> m == multiset{})
      && (r != Leaf(op.Neutral()) ==> !IsYn(r))
      && (r.Leaf? && r != Leaf(op.Neutral()) ==> m == multiset{Atom(r)})
  }

  lemma {:induction false} LeftOver(op: Conn, e: Expr)
    requires ConstantsOnTop(op, e)
    ensures Remains(op, EliminateYn(e), OperandsOf(op, e), Absorbs(op, e))
  {
    if IsBin(e, op) {
      LeftOver(op, e.left);
      LeftOver(op, e.right);
      BothRemain(op, e, OperandsOf(op, e.left), OperandsOf(op, e.right), Absorbs(op, e.left), Absorbs(op, e.right));
    } else {
      NothingToEliminate(e);
      assert CanonOf(e) in multiset{CanonOf(e)};
    }
  }

  lemma BothRemain(op: Conn, e: Expr, ml: multiset<Canon>, mr: multiset<Canon>, al: bool, ar: bool)
    requires IsBin(e, op) && Remains(op, EliminateYn(e.left), ml, al) && Remains(op, EliminateYn(e.right), mr, ar)
    ensures Remains(op, EliminateYn(e), ml + mr, al || ar)
  {
    SumIsEmpty(ml, mr);
    assert !al ==> EliminateYn(e.left) != Leaf(op.Absorbing());
    assert !ar ==> EliminateYn(e.right) != Leaf(op.Absorbing());
  }

  lemma DifferencesDecide<T>(m1: multiset<T>, m2: multiset<T>)
    ensures m1 == m2 <==> m1 - m2 == multiset{} && m2 - m1 == multiset{}
    ensures forall x :: m1 - m2 == m2 - m1 ==> m1 - m2 != multiset{x}
  {
    assert m1 == (m1 - m2) + (m1 * m2) && m2 == (m2 - m1) + (m1 * m2);
    forall x | m1 - m2 == m2 - m1
      ensures m1 - m2 != multiset{x}
    {
      assert (m1 - m2)[x] == 0 || (m2 - m1)[x] == 0;
      assert multiset{x}[x] == 1;
    }
  }

  /** Two operand lists of one connective, cancelled against each other. */
  lemma ListsEqual(op: Conn, e1: Expr, e2: Expr)
    requires IsBin(e1, op) && IsBin(e2, op)
    requires var (a, b) := CancelEqual(op, e1, e2);
      && ConstantsOnTop(op, a) && ConstantsOnTop(op, b)
      && Absorbs(op, a) == Absorbs(op, e1) && Absorbs(op, b) == Absorbs(op, e2)
      && OperandsOf(op, a) == OperandsOf(op, e1) - OperandsOf(op, e2)
      && OperandsOf(op, b) == OperandsOf(op, e2) - OperandsOf(op, e1)
    ensures ExprEq(e1, e2) <==>
      if Absorbs(op, e1) || Absorbs(op, e2) then Absorbs(op, e1) && Absorbs(op, e2)
      else OperandsOf(op, e1) == OperandsOf(op, e2)
  {
    var (a, b) := CancelEqual(op, e1, e2);
    LeftOver(op, a);
    LeftOver(op, b);
    DifferencesDecide(OperandsOf(op, e1), OperandsOf(op, e2));
    assert EliminateEq(e1, e2) == (EliminateYn(a), EliminateYn(b));
  }

  /** Two lists that hold y or n are equal if both hold the constant that decides them, or neither does
      and they have the same operands apart from constants. */
  lemma EqWithConstants(op: Conn, e1: Expr, e2: Expr)
    requires IsBin(e1, op) && IsBin(e2, op) && ConstantsOnTop(op, e1) && ConstantsOnTop(op, e2)
    ensures ExprEq(e1, e2) <==>
      if Absorbs(op, e1) || Absorbs(op, e2) then Absorbs(op, e1) && Absorbs(op, e2)
      else OperandsOf(op, e1) == OperandsOf(op, e2)
  {
    CancelIsDifference(op, e1, e2);
    ListsEqual(op, e1, e2);
  }

  /** expr_eq answers yes exactly for trees that differ only in the order and grouping of operands. */
  lemma {:induction false} EqIsCanonical(e1: Expr, e2: Expr)
    requires NoConstants(e1) && NoConstants(e2)
    ensures ExprEq(e1, e2) <==> CanonOf(e1) == CanonOf(e2)
    decreases Size(e1) + Size(e2), 2
  {
    if SameType(e1, e2) {
      match e1
      case Neg(a) => EqIsCanonical(a, e2.arg);
      case Bin(op, _, _) =>
        NothingOnTop(op, e1);
        NothingOnTop(op, e2);
        CancelIsDifference(op, e1, e2);
        ListsEqual(op, e1, e2);
      case _ =>
    }
  }

  /** Deeper constants may or may not be seen: next to the same symbol, (x && y) equals x when x is a
      symbol, and not when it is the negation of one. */
  lemma DeeperConstants(a: Sym, b: Sym)
    requires a != b && a !in {SymYes, SymNo} && b !in {SymYes, SymNo}
    ensures var (x, z) := (Leaf(a), Leaf(b));
      && ExprEq(Bin(Disj, Bin(Conj, x, Leaf(SymYes)), z), Bin(Disj, x, z))
      && !ExprEq(Bin(Disj, Bin(Conj, Neg(x), Leaf(SymYes)), z), Bin(Disj, Neg(x), z))
  {
    DeeperConstant(Leaf(a), Leaf(b));
    DeeperConstant(Neg(Leaf(a)), Leaf(b));
  }

  lemma UnequalStay(x: Expr, y: Expr)
    requires !IsBin(x, Disj) && !IsBin(y, Disj) && !ExprEq(x, y)
    ensures CancelEqual(Disj, x, y) == (x, y)
  {
  }

  lemma DeeperConstant(x: Expr, z: Expr)
    requires (x.Leaf? || (x.Neg? && x.arg.Leaf?)) && !IsYn(x) && z.Leaf? && !IsYn(z) && x != z
    ensures ExprEq(Bin(Disj, Bin(Conj, x, Leaf(SymYes)), z), Bin(Disj, x, z)) <==> x.Leaf?
  {
    var e1, e2 := Bin(Disj, Bin(Conj, x, Leaf(SymYes)), z), Bin(Disj, x, z);
    var c, n := Bin(Conj, x, Leaf(SymYes)), Leaf(SymNo);
    UnequalStay(c, x);
    UnequalStay(c, z);
    UnequalStay(z, x);
    assert CancelEqual(Disj, c, e2) == (c, e2);
    assert CancelEqual(Disj, z, z) == (n, n);
    assert CancelEqual(Disj, z, e2) == (n, Bin(Disj, x, n));
    assert CancelEqual(Disj, e1, e2) == (Bin(Disj, c, n), Bin(Disj, x, n));
    assert EliminateYn(x) == x;
    assert EliminateYn(c) == x;
    assert EliminateYn(Bin(Disj, x, n)) == x;
    assert EliminateEq(e1, e2) == (x, x);
  }

  /** The operands of a list. */
  function OperandSet(op: Conn, e: Expr): set<Expr> {
    if IsBin(e, op) then OperandSet(op, e.left) + OperandSet(op, e.right) else {e}
  }

  /** What the comment above expr_eq asks for: every operand of each list equals some operand of the
      other. */
  predicate MeetsComment(op: Conn, e1: Expr, e2: Expr) {
    && (forall x | x in OperandSet(op, e1) :: exists y :: y in OperandSet(op, e2) && ExprEq(x, y))
    && (forall y | y in OperandSet(op, e2) :: exists x :: x in OperandSet(op, e1) && ExprEq(y, x))
  }

  lemma CountsDiffer(a: Sym, b: Sym)
    requires a != b && a !in {SymYes, SymNo} && b !in {SymYes, SymNo}
    ensures var (x, y) := (Leaf(a), Leaf(b));
      !ExprEq(Bin(Conj, Bin(Conj, x, x), y), Bin(Conj, Bin(Conj, x, y), y))
  {
    var (x, y) := (Leaf(a), Leaf(b));
    var e1, e2 := Bin(Conj, Bin(Conj, x, x), y), Bin(Conj, Bin(Conj, x, y), y);
    EqIsCanonical(e1, e2);
    assert OperandsOf(Conj, x) == multiset{Atom(x)} && OperandsOf(Conj, y) == multiset{Atom(y)};
    TwiceIsNotOnce(Atom(x), Atom(y));
  }

  lemma TwiceIsNotOnce<T>(p: T, q: T)
    requires p != q
    ensures multiset{p} + multiset{p} + multiset{q} != multiset{p} + multiset{q} + multiset{q}
  {
    assert (multiset{p} + multiset{p} + multiset{q})[p] == 2 && (multiset{p} + multiset{q} + multiset{q})[p] == 1;
  }

  lemma BothMeetComment(a: Sym, b: Sym)
    ensures var (x, y) := (Leaf(a), Leaf(b));
      MeetsComment(Conj, Bin(Conj, Bin(Conj, x, x), y), Bin(Conj, Bin(Conj, x, y), y))
  {
    var (x, y) := (Leaf(a), Leaf(b));
    assert OperandSet(Conj, x) == {x} && OperandSet(Conj, y) == {y};
    assert OperandSet(Conj, Bin(Conj, x, x)) == {x} && OperandSet(Conj, Bin(Conj, x, y)) == {x, y};
    assert OperandSet(Conj, Bin(Conj, Bin(Conj, x, x), y)) == {x, y};
    assert OperandSet(Conj, Bin(Conj, Bin(Conj, x, y), y)) == {x, y};
    assert ExprEq(x, x) && ExprEq(y, y);
  }

  /** These two expressions meet that and are not equal, because multiplicity counts. */
  lemma MultiplicityCounts(a: Sym, b: Sym)
    requires a != b && a !in {SymYes, SymNo} && b !in {SymYes, SymNo}
    ensures var (x, y) := (Leaf(a), Leaf(b));
      var e1, e2 := Bin(Conj, Bin(Conj, x, x), y), Bin(Conj, Bin(Conj, x, y), y);
      MeetsComment(Conj, e1, e2) && !ExprEq(e1, e2)
  {
    BothMeetComment(a, b);
    CountsDiffer(a, b);
  }
}
