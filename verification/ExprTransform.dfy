/** Negation pushing and comparison rewriting: expr_transform, expr_trans_bool and
    expr_trans_compare of scripts/config/expr.c, and rewrite_m of scripts/config/menu.c. */
module ExprTransform {
  import opened Tristate
  import opened Exprs
  import opened ExprJoin

  /** The weight that every step of expr_transform lowers: De Morgan's rule makes the tree larger
      and is applied again to what it produced. */
  function Weight(e: Expr): nat {
    match e
    case Leaf(_) => 1
    case Rel(_, _, _) => 2
    case Neg(a) => 2 * Weight(a)
    case Bin(_, l, r) => Weight(l) + Weight(r) + 1
  }

  lemma {:induction false} WeightPositive(e: Expr)
    ensures Weight(e) >= 1
  {
    match e
    case Neg(a) => WeightPositive(a);
    case _ =>
  }

  function Complement(rel: Relation): Relation {
    match rel
    case EQ => NE
    case NE => EQ
    case LE => GT
    case GE => LT
    case LT => GE
    case GT => LE
  }

  /** expr_transform on a comparison. */
  function TransformRel(rel: Relation, s: Sym, c: Sym): Expr {
    var same := Rel(rel, s, c);
    if s.Type() != Boolean then same
    else match rel
      case EQ =>
        if c == SymNo then Neg(Leaf(s))
        else if c == SymMod then Leaf(SymNo)
        else if c == SymYes then Leaf(s)
        else same
      case NE =>
        if c == SymNo then Leaf(s)
        else if c == SymMod then Leaf(SymYes)
        else if c == SymYes then Neg(Leaf(s))
        else same
      case _ => same
  }

  /** !(a || b) -> !a && !b and !(a && b) -> !a || !b */
  function PushNot(op: Conn, l: Expr, r: Expr): (e: Expr)
    ensures Weight(e) < 2 * Weight(Bin(op, l, r))
  {
    assert Weight(Neg(l)) == 2 * Weight(l) && Weight(Neg(r)) == 2 * Weight(r);
    Bin(op.Dual(), Neg(l), Neg(r))
  }

  /** expr_transform */
  function Transform(e: Expr): (r: Expr)
    ensures Weight(r) <= Weight(e)
    decreases Weight(e)
  {
    match e
    case Leaf(_) => e
    case Rel(rel, s, c) => TransformRel(rel, s, c)
    case Bin(op, l, r) => Bin(op, Transform(l), Transform(r))
    case Neg(a) =>
      WeightPositive(a);
      match Transform(a)
      case Neg(b) => WeightPositive(b); Transform(b)
      case Rel(rel, s, c) => Rel(Complement(rel), s, c)
      case Bin(op, l, r) => Transform(PushNot(op, l, r))
      case Leaf(s) =>
        if s == SymYes then Leaf(SymNo)
        else if s == SymMod then Leaf(SymMod)
        else if s == SymNo then Leaf(SymYes)
        else Neg(Leaf(s))
  }

  lemma TransformRelKeepsValue(rel: Relation, s: Sym, c: Sym, env: Env)
    requires ValidEnv(env)
    ensures Val(TransformRel(rel, s, c), env) == Val(Rel(rel, s, c), env)
  {
    if s.Type() == Boolean && c in {SymYes, SymMod, SymNo} && rel in {EQ, NE} {
      assert ValidValue(s, env.curr(s), env.modules);
      YnValues(env);
      CompareToConst(env, s, c);
    }
  }

  /** expr_transform keeps the value under every calculation. */
  lemma {:induction false} TransformKeepsValue(e: Expr, env: Env)
    requires ValidEnv(env)
    ensures Val(Transform(e), env) == Val(e, env)
    decreases Weight(e)
  {
    match e
    case Leaf(_) =>
    case Rel(rel, s, c) => TransformRelKeepsValue(rel, s, c, env);
    case Bin(op, l, r) =>
      TransformKeepsValue(l, env);
      TransformKeepsValue(r, env);
    case Neg(a) =>
      WeightPositive(a);
      TransformKeepsValue(a, env);
      match Transform(a) {
        case Neg(b) => WeightPositive(b); TransformKeepsValue(b, env);
        case Rel(_, _, _) =>
        case Bin(op, l, r) => TransformKeepsValue(PushNot(op, l, r), env);
        case Leaf(_) => YnValues(env);
      }
  }

  /** What expr_transform leaves: NOT only above symbols other than y, m and n, and no bool symbol
      compared for equality with y, m or n. */
  predicate Transformed(e: Expr) {
    match e
    case Leaf(_) => true
    case Neg(a) => a.Leaf? && a.sym !in {SymYes, SymMod, SymNo}
    case Bin(_, l, r) => Transformed(l) && Transformed(r)
    case Rel(rel, s, c) => rel in {EQ, NE} && s.Type() == Boolean ==> c !in {SymYes, SymMod, SymNo}
  }

  /** expr_transform reaches that form, and leaves alone what already has it. */
  lemma {:induction false} TransformNormalises(e: Expr)
    ensures Transformed(Transform(e))
    ensures Transformed(e) ==> Transform(e) == e
    decreases Weight(e)
  {
    match e
    case Leaf(_) =>
    case Rel(_, _, _) =>
    case Bin(op, l, r) =>
      TransformNormalises(l);
      TransformNormalises(r);
    case Neg(a) =>
      WeightPositive(a);
      TransformNormalises(a);
      match Transform(a) {
        case Neg(b) => WeightPositive(b); TransformNormalises(b);
        case Rel(_, _, _) =>
        case Bin(op, l, r) => TransformNormalises(PushNot(op, l, r));
        case Leaf(_) =>
      }
  }

  lemma {:induction false} TransformKeepsPlainConsts(e: Expr)
    requires PlainConsts(e)
    ensures PlainConsts(Transform(e))
    decreases Weight(e)
  {
    match e
    case Leaf(_) =>
    case Rel(_, _, _) =>
    case Bin(op, l, r) =>
      TransformKeepsPlainConsts(l);
      TransformKeepsPlainConsts(r);
    case Neg(a) =>
      WeightPositive(a);
      TransformKeepsPlainConsts(a);
      match Transform(a) {
        case Neg(b) => WeightPositive(b); TransformKeepsPlainConsts(b);
        case Rel(_, _, _) =>
        case Bin(op, l, r) => TransformKeepsPlainConsts(PushNot(op, l, r));
        case Leaf(_) =>
      }
  }

  lemma {:induction false} TransformedIsNotOnLeaves(e: Expr)
    requires Transformed(e)
    ensures NotOnLeaves(e)
  {
    if e.Bin? {
      TransformedIsNotOnLeaves(e.left);
      TransformedIsNotOnLeaves(e.right);
    }
  }

  /** expr_trans_bool */
  function TransBool(e: Expr): Expr {
    match e
    case Bin(op, l, r) => Bin(op, TransBool(l), TransBool(r))
    case Neg(a) => Neg(TransBool(a))
    case Rel(NE, s, c) => if s.Type() == Tristate && c == SymNo then Leaf(s) else e
    case _ => e
  }

  /** The rule FOO!=n -> FOO applies somewhere in the expression. */
  predicate Fires(e: Expr) {
    match e
    case Bin(_, l, r) => Fires(l) || Fires(r)
    case Neg(a) => Fires(a)
    case Rel(rel, s, c) => rel == NE && s.Type() == Tristate && c == SymNo
    case Leaf(_) => false
  }

  predicate FiresBelowNot(e: Expr) {
    match e
    case Bin(_, l, r) => FiresBelowNot(l) || FiresBelowNot(r)
    case Neg(a) => Fires(a)
    case _ => false
  }

  lemma {:induction false} QuietBelowLeaves(e: Expr)
    requires NotOnLeaves(e)
    ensures !FiresBelowNot(e)
  {
    if e.Bin? {
      QuietBelowLeaves(e.left);
      QuietBelowLeaves(e.right);
    }
  }

  /** Where the rule does not apply, or no tristate can be m, the value stays as it is. */
  lemma {:induction false} TransBoolKeepsValue(e: Expr, env: Env)
    requires ValidEnv(env) && (Fires(e) ==> !env.modules)
    ensures Val(TransBool(e), env) == Val(e, env)
  {
    match e
    case Bin(_, l, r) =>
      TransBoolKeepsValue(l, env);
      TransBoolKeepsValue(r, env);
    case Neg(a) => TransBoolKeepsValue(a, env);
    case Rel(NE, s, c) =>
      if s.Type() == Tristate && c == SymNo {
        CompareToConst(env, s, SymNo);
        assert ValidValue(s, env.curr(s), env.modules);
      }
    case _ =>
  }

  /** Unless the rule applies below a NOT while modules are on, expr_trans_bool may lower a value to m
      but never to or from n. */
  lemma {:induction false} TransBoolKeepsNo(e: Expr, env: Env)
    requires ValidEnv(env) && (FiresBelowNot(e) ==> !env.modules)
    ensures Val(TransBool(e), env) == NO <==> Val(e, env) == NO
    ensures Val(TransBool(e), env) <= Val(e, env)
  {
    match e
    case Bin(_, l, r) =>
      TransBoolKeepsNo(l, env);
      TransBoolKeepsNo(r, env);
    case Neg(a) => TransBoolKeepsValue(a, env);
    case Rel(NE, s, c) =>
      if s.Type() == Tristate && c == SymNo {
        CompareToConst(env, s, SymNo);
      }
    case _ =>
  }

  /** Under NOT it is wrong exactly when the rule fires and modules allow the symbol to be m. */
  lemma TransBoolUnderNot(rel: Relation, s: Sym, c: Sym, modules: bool)
    ensures (forall env: Env | ValidEnv(env) && env.modules == modules ::
               Val(TransBool(Neg(Rel(rel, s, c))), env) == NO <==> Val(Neg(Rel(rel, s, c)), env) == NO)
            <==> !(rel == NE && s.Type() == Tristate && c == SymNo && modules)
  {
    if rel == NE && s.Type() == Tristate && c == SymNo {
      forall env: Env | ValidEnv(env) && env.modules == modules
        ensures Val(TransBool(Neg(Rel(rel, s, c))), env) == Not(env.curr(s).tri)
        ensures Val(Neg(Rel(rel, s, c)), env) == Truth(env.curr(s).tri == NO)
        ensures env.curr(s).tri == MOD ==> modules
      {
        CompareToConst(env, s, SymNo);
        assert ValidValue(s, env.curr(s), env.modules);
      }
      if modules {
        var env := SomeEnv(s, MOD, true);
        assert Val(TransBool(Neg(Rel(rel, s, c))), env) == MOD;
      }
    }
  }

  /** expr_trans_compare for the comparison kinds E_EQUAL and E_UNEQUAL. */
  function TransCompare(e: Expr, rel: Relation, c: Sym): Expr
    requires rel == EQ || rel == NE
    requires c in {SymYes, SymMod, SymNo}
  {
    match e
    case Bin(op, l, r) =>
      var l', r' := TransCompare(l, EQ, c), TransCompare(r, EQ, c);
      var both := if c == SymYes then Bin(op, l', r') else if c == SymNo then Bin(op.Dual(), l', r') else e;
      if rel == NE then Neg(both) else both
    case Neg(a) => TransCompare(a, if rel == EQ then NE else EQ, c)
    case Rel(_, _, _) =>
      if c == SymMod then Leaf(if rel == EQ then SymNo else SymYes)
      else if (rel == EQ) == (c == SymYes) then e
      else Neg(e)
    case Leaf(s) => Rel(rel, s, c)
  }

  function TransComparePtr(p: ExprPtr, rel: Relation, c: Sym): Expr
    requires rel == EQ || rel == NE
    requires c in {SymYes, SymMod, SymNo}
  {
    if p.Null? then (if rel == NE then Neg(Leaf(c)) else Leaf(c)) else TransCompare(p.e, rel, c)
  }

  function ConstValue(c: Sym): Tri
    requires c in {SymYes, SymMod, SymNo}
  {
    if c == SymYes then YES else if c == SymMod then MOD else NO
  }

  lemma LeafCompare(s: Sym, c: Sym, env: Env)
    requires ValidEnv(env) && c in {SymYes, SymMod, SymNo}
    requires s.IsTristateLike() || s in {SymYes, SymMod, SymNo}
    ensures Compare(env, s, c) == 0 <==> env.curr(s).tri == ConstValue(c)
  {
    if s.IsTristateLike() {
      CompareToConst(env, s, c);
    } else {
      assert ValidValue(s, env.curr(s), env.modules);
      assert ValidValue(c, env.curr(c), env.modules);
      Numbers.YmnAreNotNumbers();
      Numbers.StrCmpZero(s.Name(), c.Name());
    }
  }

  /** The symbols are bools, tristates, y, m or n, whatever their values. */
  predicate TristateLeaves(e: Expr) {
    match e
    case Leaf(s) => s.IsTristateLike() || s in {SymYes, SymMod, SymNo}
    case Rel(_, _, _) => true
    case Bin(_, l, r) => TristateLeaves(l) && TristateLeaves(r)
    case Neg(a) => TristateLeaves(a)
  }

  /** An expression read with two values only: against n a symbol is true when it is not n, against y
      when it is y, and AND, OR, NOT are those of classical logic. */
  predicate Reading(e: Expr, c: Sym, env: Env) {
    match e
    case Leaf(s) => if c == SymNo then env.curr(s).tri != NO else env.curr(s).tri == YES
    case Rel(_, _, _) => Val(e, env) == YES
    case Bin(op, l, r) =>
      if op.Conj? then Reading(l, c, env) && Reading(r, c, env) else Reading(l, c, env) || Reading(r, c, env)
    case Neg(a) => !Reading(a, c, env)
  }

  /** expr_trans_compare against y or n decides the comparison by the two-valued reading. */
  lemma {:induction false} TransCompareReads(e: Expr, rel: Relation, c: Sym, env: Env)
    requires ValidEnv(env) && TristateLeaves(e)
    requires (rel == EQ || rel == NE) && (c == SymYes || c == SymNo)
    ensures Val(TransCompare(e, rel, c), env) == Truth(Reading(e, c, env) == ((rel == NE) == (c == SymNo)))
  {
    match e
    case Leaf(s) => LeafCompare(s, c, env);
    case Rel(_, _, _) =>
    case Neg(a) => TransCompareReads(a, if rel == EQ then NE else EQ, c, env);
    case Bin(_, l, r) =>
      TransCompareReads(l, EQ, c, env);
      TransCompareReads(r, EQ, c, env);
  }

  /** So it is right exactly when the reading agrees with the value. */
  lemma TransCompareExact(e: Expr, rel: Relation, c: Sym, env: Env)
    requires ValidEnv(env) && TristateLeaves(e)
    requires (rel == EQ || rel == NE) && (c == SymYes || c == SymNo)
    ensures Val(TransCompare(e, rel, c), env) == Truth((Val(e, env) == ConstValue(c)) == (rel == EQ))
            <==> (Reading(e, c, env) <==> if c == SymNo then Val(e, env) != NO else Val(e, env) == YES)
  {
    TransCompareReads(e, rel, c, env);
  }

  /** Nothing below a NOT is m. */
  predicate NoModBelowNot(e: Expr, env: Env) {
    match e
    case Bin(_, l, r) => NoModBelowNot(l, env) && NoModBelowNot(r, env)
    case Neg(a) => NoModBelowNot(a, env) && Val(a, env) != MOD
    case _ => true
  }

  lemma {:induction false} ReadingOfClear(e: Expr, c: Sym, env: Env)
    requires (c == SymYes || c == SymNo) && NoModBelowNot(e, env)
    ensures Reading(e, c, env) <==> if c == SymNo then Val(e, env) != NO else Val(e, env) == YES
  {
    match e
    case Bin(_, l, r) =>
      ReadingOfClear(l, c, env);
      ReadingOfClear(r, c, env);
    case Neg(a) => ReadingOfClear(a, c, env);
    case _ =>
  }

  /** In particular it is right wherever nothing below a NOT is m. */
  lemma TransCompareCorrect(e: Expr, rel: Relation, c: Sym, env: Env)
    requires ValidEnv(env) && TristateLeaves(e) && NoModBelowNot(e, env)
    requires (rel == EQ || rel == NE) && (c == SymYes || c == SymNo)
    ensures Val(TransCompare(e, rel, c), env) == Truth((Val(e, env) == ConstValue(c)) == (rel == EQ))
  {
    ReadingOfClear(e, c, env);
    TransCompareExact(e, rel, c, env);
  }

  /** Directly under NOT, the comparison with n is answered wrongly exactly when the operand is m. */
  lemma TransCompareUnderNot(s: Sym, env: Env)
    requires ValidEnv(env) && s.IsTristateLike()
    ensures Val(TransCompare(Neg(Leaf(s)), NE, SymNo), env) == Truth(Val(Neg(Leaf(s)), env) != NO)
            <==> env.curr(s).tri != MOD
  {
    TransCompareExact(Neg(Leaf(s)), NE, SymNo, env);
  }

  /** With NOT above symbols only, the reading against n errs in one direction: where a symbol below NOT
      is m, the expression is taken for n. */
  lemma {:induction false} ReadingIsLow(e: Expr, env: Env)
    requires NotOnLeaves(e) && Reading(e, SymNo, env)
    ensures Val(e, env) != NO
  {
    if e.Bin? {
      if Reading(e.left, SymNo, env) {
        ReadingIsLow(e.left, env);
      }
      if Reading(e.right, SymNo, env) {
        ReadingIsLow(e.right, env);
      }
    }
  }

  /** rewrite_m, with modules_sym as a parameter. */
  function RewriteM(e: Expr, modulesSym: Sym): Expr {
    match e
    case Neg(a) => Neg(RewriteM(a, modulesSym))
    case Bin(op, l, r) => Bin(op, RewriteM(l, modulesSym), RewriteM(r, modulesSym))
    case Leaf(s) => if s == SymMod then Bin(Conj, e, Leaf(modulesSym)) else e
    case Rel(_, _, _) => e
  }

  lemma {:induction false} RewriteMKeepsPlainConsts(e: Expr, modulesSym: Sym)
    requires PlainConsts(e)
    ensures PlainConsts(RewriteM(e, modulesSym))
  {
    match e
    case Neg(a) => RewriteMKeepsPlainConsts(a, modulesSym);
    case Bin(_, l, r) =>
      RewriteMKeepsPlainConsts(l, modulesSym);
      RewriteMKeepsPlainConsts(r, modulesSym);
    case _ =>
  }
}
