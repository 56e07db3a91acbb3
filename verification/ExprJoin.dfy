/** The pairwise operand rules expr_join_or and expr_join_and of scripts/config/expr.c. */
module ExprJoin {
  import opened Tristate
  import opened Numbers
  import opened Exprs
  import opened ExprReduce

  datatype Joined = Nothing | Into(e: Expr)

  predicate IsRel(e: Expr, rel: Relation) {
    e.Rel? && e.rel == rel
  }

  predicate IsRelTo(e: Expr, rel: Relation, c: Sym) {
    IsRel(e, rel) && e.rhs == c
  }

  /** A comparison of the given kind, its right side and another right side in either order. */
  predicate BothRelTo(e1: Expr, e2: Expr, rel: Relation, c: Sym, d: Sym) {
    (IsRelTo(e1, rel, c) && IsRelTo(e2, rel, d)) || (IsRelTo(e1, rel, d) && IsRelTo(e2, rel, c))
  }

  /** A bare symbol next to a comparison of the given kind, in either order. */
  predicate LeafAndRelTo(e1: Expr, e2: Expr, rel: Relation, c: Sym) {
    (e1.Leaf? && IsRelTo(e2, rel, c)) || (e2.Leaf? && IsRelTo(e1, rel, c))
  }

  predicate Joinable(e: Expr) {
    e.Leaf? || e.Neg? || IsRel(e, EQ) || IsRel(e, NE)
  }

  datatype Subject = NoSubject | Subject(sym: Sym)

  /** sym1: a negation on the left may stand over a symbol, an equality or an inequality. */
  function LeftSubject(e: Expr): Subject {
    match e
    case Leaf(s) => Subject(s)
    case Rel(_, s, _) => Subject(s)
    case Neg(Leaf(s)) => Subject(s)
    case Neg(Rel(rel, s, _)) => if rel == EQ || rel == NE then Subject(s) else NoSubject
    case _ => NoSubject
  }

  /** sym2: a negation on the right may stand over a symbol only. */
  function RightSubject(e: Expr): Subject {
    match e
    case Leaf(s) => Subject(s)
    case Rel(_, s, _) => Subject(s)
    case Neg(Leaf(s)) => Subject(s)
    case _ => NoSubject
  }

  /** The bool or tristate symbol that both operands speak about, if the guards let it through. */
  function CommonSubject(e1: Expr, e2: Expr): (r: Subject)
    ensures r.Subject? ==> r == LeftSubject(e1) == RightSubject(e2) && r.sym.IsTristateLike()
    ensures r.Subject? ==> Joinable(e1) && Joinable(e2)
  {
    if !Joinable(e1) || !Joinable(e2) then NoSubject
    else
      var s := LeftSubject(e1);
      if s.Subject? && s == RightSubject(e2) && s.sym.IsTristateLike() then s else NoSubject
  }

  /** expr_join_or after its equality test. */
  function JoinOrRules(e1: Expr, e2: Expr): Joined {
    var s := CommonSubject(e1, e2);
    if s.NoSubject? then Nothing
    else if s.sym.Type() == Tristate && BothRelTo(e1, e2, EQ, SymYes, SymMod) then Into(Rel(NE, s.sym, SymNo))
    else if s.sym.Type() == Tristate && BothRelTo(e1, e2, EQ, SymYes, SymNo) then Into(Rel(NE, s.sym, SymMod))
    else if s.sym.Type() == Tristate && BothRelTo(e1, e2, EQ, SymMod, SymNo) then Into(Rel(NE, s.sym, SymYes))
    else if s.sym.Type() == Boolean && ((e1.Neg? && e1.arg.Leaf? && e2.Leaf?) || (e2.Neg? && e2.arg.Leaf? && e1.Leaf?))
    then Into(Leaf(SymYes))
    else Nothing
  }

  /** expr_join_and after its equality test. */
  function JoinAndRules(e1: Expr, e2: Expr): Joined {
    var s := CommonSubject(e1, e2);
    if s.NoSubject? then Nothing
    else if LeafAndRelTo(e1, e2, EQ, SymYes) then Into(Rel(EQ, s.sym, SymYes))
    else if LeafAndRelTo(e1, e2, NE, SymNo) then Into(Leaf(s.sym))
    else if LeafAndRelTo(e1, e2, NE, SymMod) then Into(Rel(EQ, s.sym, SymYes))
    else if s.sym.Type() != Tristate then Nothing
    else if IsRel(e1, EQ) && IsRel(e2, NE) && e2.rhs.IsConst() && e1.rhs.IsConst() then
      ConstRule(s.sym, e1.rhs, e2.rhs)
    else if IsRel(e1, NE) && IsRel(e2, EQ) && e1.rhs.IsConst() && e2.rhs.IsConst() then
      ConstRule(s.sym, e2.rhs, e1.rhs)
    else if BothRelTo(e1, e2, NE, SymYes, SymNo) then Into(Rel(EQ, s.sym, SymMod))
    else if BothRelTo(e1, e2, NE, SymYes, SymMod) then Into(Rel(EQ, s.sym, SymNo))
    else if BothRelTo(e1, e2, NE, SymMod, SymNo) then Into(Rel(EQ, s.sym, SymYes))
    else Nothing
  }

  /** (a='b') && (a!='c') -> 'b'='c' ? 'n' : a='b', by identity of the two constants. */
  function ConstRule(s: Sym, b: Sym, c: Sym): Joined {
    Into(if b != c then Rel(EQ, s, b) else Leaf(SymNo))
  }

  /** expr_join_or and expr_join_and. */
  function Join(op: Conn, e1: Expr, e2: Expr): Joined {
    if ExprEq(e1, e2) then Into(e1)
    else if op.Disj? then JoinOrRules(e1, e2)
    else JoinAndRules(e1, e2)
  }

  /** A right-hand constant is unambiguous when it is y, m or n or never equals a tristate value. */
  predicate Unambiguous(c: Sym) {
    c.Const? ==> Denotes(c) == {}
  }

  /** Every constant that a tristate symbol is compared with is unambiguous. */
  predicate PlainConsts(e: Expr) {
    match e
    case Leaf(_) => true
    case Neg(a) => PlainConsts(a)
    case Bin(_, l, r) => PlainConsts(l) && PlainConsts(r)
    case Rel(_, s, c) => s.Type() == Tristate ==> Unambiguous(c)
  }

  /** The constant rule is right for a pair of distinct constants exactly when no value the tristate
      can have equals both; without modules it cannot be m. */
  lemma ConstRuleExact(s: Sym, b: Sym, c: Sym, modules: bool)
    requires s.Type() == Tristate && b.IsConst() && c.IsConst() && b != c
    ensures (forall env: Env | ValidEnv(env) && env.modules == modules ::
               Val(ConstRule(s, b, c).e, env) == Val(Bin(Conj, Rel(EQ, s, b), Rel(NE, s, c)), env))
            <==> Denotes(b) * Denotes(c) <= if modules then {} else {MOD}
  {
    forall env: Env | ValidEnv(env) && env.modules == modules
      ensures Val(ConstRule(s, b, c).e, env) == Val(Bin(Conj, Rel(EQ, s, b), Rel(NE, s, c)), env)
              <==> env.curr(s).tri !in Denotes(b) * Denotes(c)
    {
      CompareToConst(env, s, b);
      CompareToConst(env, s, c);
      assert ValidValue(s, env.curr(s), env.modules);
    }
    if t :| t in Denotes(b) * Denotes(c) && (t == MOD ==> modules) {
      var env := SomeEnv(s, t, modules);
      assert Val(ConstRule(s, b, c).e, env) != Val(Bin(Conj, Rel(EQ, s, b), Rel(NE, s, c)), env);
    }
  }

  /** A calculation in which one tristate symbol has a chosen value and all others are n. */
  function SomeValue(s: Sym, t: Tri, x: Sym): SymVal {
    match x
    case SymYes => SymVal("y", YES)
    case SymMod => SymVal("m", MOD)
    case SymNo => SymVal("n", NO)
    case Const(text) => SymVal(text, NO)
    case Config(n, Unknown) => SymVal(n, NO)
    case _ => SymVal("n", if x == s then t else NO)
  }

  ghost function SomeEnv(s: Sym, t: Tri, modules: bool): (env: Env)
    requires s.Type() == Tristate && (t == MOD ==> modules)
    ensures ValidEnv(env) && env.modules == modules && env.curr(s).tri == t
  {
    Env(modules, x => SomeValue(s, t, x))
  }

  lemma TwoIsYes()
    ensures ParseSigned("2", 0) == Signed(2)
  {
    assert DigitsValue("2", 10) == DigitsValue([], 10) * 10 + 2 by { assert "2"[..0] == []; }
    assert SkipSpace("2") == "2";
    assert DigitOf("2"[0]) == 2;
  }

  /** A numeric constant is where the rule fails: a='y' && a!="2" is n when a is y, a='y' is y. */
  lemma ConstRuleFailsOnNumbers()
    ensures var a := Config("A", Tristate);
      Join(Conj, Rel(EQ, a, SymYes), Rel(NE, a, Const("2"))) == Into(Rel(EQ, a, SymYes)) &&
      exists env: Env :: ValidEnv(env) &&
        Val(Bin(Conj, Rel(EQ, a, SymYes), Rel(NE, a, Const("2"))), env) == NO &&
        Val(Rel(EQ, a, SymYes), env) == YES
  {
    var a := Config("A", Tristate);
    RelsOfYes(a, SomeEnv(a, YES, true));
  }

  lemma RelsOfYes(a: Sym, env: Env)
    requires ValidEnv(env) && a.Type() == Tristate && env.curr(a).tri == YES
    ensures Val(Rel(EQ, a, SymYes), env) == YES && Val(Rel(NE, a, Const("2")), env) == NO
  {
    TwoIsYes();
    CompareToConst(env, a, SymYes);
    CompareToConst(env, a, Const("2"));
    assert YES in Denotes(SymYes) && YES in Denotes(Const("2"));
  }

  lemma YnValues(env: Env)
    requires ValidEnv(env)
    ensures Val(Leaf(SymYes), env) == YES && Val(Leaf(SymNo), env) == NO
    ensures Val(Leaf(SymMod), env) == MOD
  {
    assert ValidValue(SymYes, env.curr(SymYes), env.modules);
    assert ValidValue(SymMod, env.curr(SymMod), env.modules);
    assert ValidValue(SymNo, env.curr(SymNo), env.modules);
  }

  /** The value of an operand as a function of the one symbol it speaks about. */
  function Local(e: Expr, t: Tri): Tri {
    match e
    case Rel(EQ, _, c) => if c.IsConst() then Truth(t in Denotes(c)) else NO
    case Rel(NE, _, c) => if c.IsConst() then Truth(t !in Denotes(c)) else NO
    case Neg(_) => Not(t)
    case _ => t
  }

  predicate IsLocal(e: Expr, s: Sym) {
    e == Leaf(s) || e == Neg(Leaf(s)) || (e.Rel? && e.rel in {EQ, NE} && e.lhs == s && e.rhs.IsConst())
  }

  lemma LocalValue(e: Expr, s: Sym, env: Env)
    requires ValidEnv(env) && s.IsTristateLike() && IsLocal(e, s)
    ensures Val(e, env) == Local(e, env.curr(s).tri)
  {
    if e.Rel? {
      CompareToConst(env, s, e.rhs);
    }
  }

  lemma JoinOrLocal(e1: Expr, e2: Expr, t: Tri)
    requires JoinOrRules(e1, e2).Into?
    requires CommonSubject(e1, e2).sym.Type() == Boolean ==> t != MOD
    ensures var s, r := CommonSubject(e1, e2).sym, JoinOrRules(e1, e2).e;
      && IsLocal(e1, s) && IsLocal(e2, s)
      && (if r == Leaf(SymYes) then YES == Or(Local(e1, t), Local(e2, t))
          else IsLocal(r, s) && Local(r, t) == Or(Local(e1, t), Local(e2, t)))
  {
  }

  lemma JoinUnlikeRels(e1: Expr, e2: Expr, t: Tri)
    requires JoinAndRules(e1, e2).Into? && PlainConsts(e1) && PlainConsts(e2) && e1.Rel? && e2.Rel? && e1.rel != e2.rel
    ensures var s, r := CommonSubject(e1, e2).sym, JoinAndRules(e1, e2).e;
      && IsLocal(e1, s) && IsLocal(e2, s)
      && (if r == Leaf(SymNo) then NO == And(Local(e1, t), Local(e2, t))
          else IsLocal(r, s) && Local(r, t) == And(Local(e1, t), Local(e2, t)))
  {
  }

  lemma JoinLikeRels(e1: Expr, e2: Expr, t: Tri)
    requires JoinAndRules(e1, e2).Into? && PlainConsts(e1) && PlainConsts(e2) && e1.Rel? && e2.Rel? && e1.rel == e2.rel
    ensures var s, r := CommonSubject(e1, e2).sym, JoinAndRules(e1, e2).e;
      && IsLocal(e1, s) && IsLocal(e2, s)
      && (if r == Leaf(SymNo) then NO == And(Local(e1, t), Local(e2, t))
          else IsLocal(r, s) && Local(r, t) == And(Local(e1, t), Local(e2, t)))
  {
  }

  lemma JoinTwoRels(e1: Expr, e2: Expr, t: Tri)
    requires JoinAndRules(e1, e2).Into? && PlainConsts(e1) && PlainConsts(e2) && e1.Rel? && e2.Rel?
    ensures var s, r := CommonSubject(e1, e2).sym, JoinAndRules(e1, e2).e;
      && IsLocal(e1, s) && IsLocal(e2, s)
      && (if r == Leaf(SymNo) then NO == And(Local(e1, t), Local(e2, t))
          else IsLocal(r, s) && Local(r, t) == And(Local(e1, t), Local(e2, t)))
  {
    if e1.rel == e2.rel {
      JoinLikeRels(e1, e2, t);
    } else {
      JoinUnlikeRels(e1, e2, t);
    }
  }

  lemma JoinWithLeaf(e1: Expr, e2: Expr, t: Tri)
    requires JoinAndRules(e1, e2).Into? && PlainConsts(e1) && PlainConsts(e2) && !(e1.Rel? && e2.Rel?)
    ensures var s, r := CommonSubject(e1, e2).sym, JoinAndRules(e1, e2).e;
      && IsLocal(e1, s) && IsLocal(e2, s)
      && (if r == Leaf(SymNo) then NO == And(Local(e1, t), Local(e2, t))
          else IsLocal(r, s) && Local(r, t) == And(Local(e1, t), Local(e2, t)))
  {
  }

  lemma JoinAndLocal(e1: Expr, e2: Expr, t: Tri)
    requires JoinAndRules(e1, e2).Into? && PlainConsts(e1) && PlainConsts(e2)
    ensures var s, r := CommonSubject(e1, e2).sym, JoinAndRules(e1, e2).e;
      && IsLocal(e1, s) && IsLocal(e2, s)
      && (if r == Leaf(SymNo) then NO == And(Local(e1, t), Local(e2, t))
          else IsLocal(r, s) && Local(r, t) == And(Local(e1, t), Local(e2, t)))
  {
    if e1.Rel? && e2.Rel? {
      JoinTwoRels(e1, e2, t);
    } else {
      JoinWithLeaf(e1, e2, t);
    }
  }

  lemma JoinRulesSound(op: Conn, e1: Expr, e2: Expr, env: Env)
    requires ValidEnv(env) && PlainConsts(e1) && PlainConsts(e2)
    requires !ExprEq(e1, e2) && Join(op, e1, e2).Into?
    ensures Val(Join(op, e1, e2).e, env) == op.Apply(Val(e1, env), Val(e2, env))
  {
    var s, r := CommonSubject(e1, e2).sym, Join(op, e1, e2).e;
    assert ValidValue(s, env.curr(s), env.modules);
    if op.Disj? {
      JoinOrLocal(e1, e2, env.curr(s).tri);
    } else {
      JoinAndLocal(e1, e2, env.curr(s).tri);
    }
    YnValues(env);
    LocalValue(e1, s, env);
    LocalValue(e2, s, env);
    if IsLocal(r, s) {
      LocalValue(r, s, env);
    }
  }

  /** One join step keeps the value of the pair: the first operand becomes neutral and the second
      the joined expression. */
  lemma JoinSound(op: Conn, e1: Expr, e2: Expr, env: Env)
    requires ValidEnv(env) && PlainConsts(e1) && PlainConsts(e2) && Join(op, e1, e2).Into?
    ensures Val(Join(op, e1, e2).e, env) == op.Apply(Val(e1, env), Val(e2, env))
  {
    if ExprEq(e1, e2) {
      ExprEqSound(e1, e2, env);
    } else {
      JoinRulesSound(op, e1, e2, env);
    }
  }

  /** NOT stands only above symbols. */
  predicate NotOnLeaves(e: Expr) {
    match e
    case Leaf(_) => true
    case Rel(_, _, _) => true
    case Neg(a) => a.Leaf?
    case Bin(_, l, r) => NotOnLeaves(l) && NotOnLeaves(r)
  }

  lemma OrShape(e1: Expr, e2: Expr)
    requires JoinOrRules(e1, e2).Into?
    ensures var t := JoinOrRules(e1, e2).e; (t.Leaf? || t.Rel?) && PlainConsts(t) && NotOnLeaves(t)
  {
  }

  lemma AndShape(e1: Expr, e2: Expr)
    requires JoinAndRules(e1, e2).Into?
    ensures var t := JoinAndRules(e1, e2).e;
      (t.Leaf? || t.Rel?) && (PlainConsts(e1) && PlainConsts(e2) ==> PlainConsts(t)) && NotOnLeaves(t)
  {
  }

  lemma JoinShape(op: Conn, e1: Expr, e2: Expr)
    requires Join(op, e1, e2).Into?
    ensures var t := Join(op, e1, e2).e;
      && (t == e1 || t.Leaf? || t.Rel?)
      && (PlainConsts(e1) && PlainConsts(e2) ==> PlainConsts(t))
      && (NotOnLeaves(e1) && NotOnLeaves(e2) ==> NotOnLeaves(t))
  {
    if !ExprEq(e1, e2) {
      if op.Disj? {
        OrShape(e1, e2);
      } else {
        AndShape(e1, e2);
      }
    }
  }
}
