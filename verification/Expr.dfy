/** Kconfig condition expressions and the value that expr_calc_value gives them. */
module Exprs {
  import opened Tristate
  import opened Numbers

  datatype SymType = Unknown | Boolean | Tristate | Int | Hex | Str

  /** A symbol as an expression sees it. Equality is the pointer equality of the source:
      sym_lookup maps a quoted or unquoted y, m or n to the three global constants and every other
      quoted word to a constant of unknown type. */
  datatype Sym =
    | SymYes
    | SymMod
    | SymNo
    | Const(text: string)
    | Config(name: string, typ: SymType)
  {
    function Type(): SymType {
      if Config? then typ else Unknown
    }

    predicate IsConst() {
      !Config?
    }

    predicate IsTristateLike() {
      Type() in {Boolean, Tristate}
    }

    function Name(): string {
      match this
      case SymYes => "y"
      case SymMod => "m"
      case SymNo => "n"
      case Const(t) => t
      case Config(n, _) => n
    }
  }

  /** The two connectives E_AND and E_OR. */
  datatype Conn = Conj | Disj {
    function Dual(): Conn { if Conj? then Disj else Conj }

    function Apply(a: Tri, b: Tri): Tri {
      if Conj? then And(a, b) else Or(a, b)
    }

    /** The constant that may be dropped from an operand list. */
    function Neutral(): Sym { if Conj? then SymYes else SymNo }

    /** The constant that decides an operand list. */
    function Absorbing(): Sym { if Conj? then SymNo else SymYes }
  }

  datatype Relation = EQ | NE | LT | LE | GT | GE {
    predicate Holds(res: int) {
      match this
      case EQ => res == 0
      case NE => res != 0
      case LT => res < 0
      case LE => res <= 0
      case GT => res > 0
      case GE => res >= 0
    }
  }

  datatype Expr =
    | Leaf(sym: Sym)
    | Neg(arg: Expr)
    | Bin(op: Conn, left: Expr, right: Expr)
    | Rel(rel: Relation, lhs: Sym, rhs: Sym)

  /** The pair held by struct symbol_value: the string pointer and the tristate. */
  datatype SymVal = SymVal(val: string, tri: Tri)

  /** What a calculation of all symbols leaves behind: modules_val and every symbol's value. */
  datatype Env = Env(modules: bool, curr: Sym -> SymVal)

  /** sym_get_string_value */
  function StringOf(s: Sym, v: SymVal, modules: bool): string {
    if s.IsTristateLike() then
      if v.tri == NO then "n"
      else if v.tri == MOD then (if modules then "m" else "n")
      else "y"
    else
      v.val
  }

  function StringValue(env: Env, s: Sym): string {
    StringOf(s, env.curr(s), env.modules)
  }

  /** expr_parse_string */
  function ParseString(str: string, typ: SymType): Parsed {
    match typ
    case Boolean => Signed(TristateDigit(str))
    case Tristate => Signed(TristateDigit(str))
    case Int => ParseSigned(str, 10)
    case Hex => ParseUnsigned(str, 16)
    case _ => ParseSigned(str, 0)
  }

  function TristateDigit(str: string): int {
    if str == "n" then 0 else if str == "m" then 1 else if str == "y" then 2 else -1
  }

  /** The three-way comparison in the second half of expr_calc_value, on the two string values. */
  function CompareStrings(s1: Sym, str1: string, s2: Sym, str2: string): int {
    if s1.Type() == Str && s2.Type() == Str then StrCmp(str1, str2)
    else CompareParsed(str1, ParseString(str1, s1.Type()), str2, ParseString(str2, s2.Type()))
  }

  function Compare(env: Env, s1: Sym, s2: Sym): int {
    CompareStrings(s1, StringValue(env, s1), s2, StringValue(env, s2))
  }

  /** expr_calc_value */
  function Val(e: Expr, env: Env): Tri {
    match e
    case Leaf(s) => env.curr(s).tri
    case Neg(a) => Not(Val(a, env))
    case Bin(op, l, r) => op.Apply(Val(l, env), Val(r, env))
    case Rel(rel, s1, s2) => Truth(rel.Holds(Compare(env, s1, s2)))
  }

  /** A NULL expression pointer stands for y. */
  datatype ExprPtr = Null | Ptr(e: Expr)

  function ValPtr(p: ExprPtr, env: Env): Tri {
    if p.Null? then YES else Val(p.e, env)
  }

  /** expr_alloc_and */
  function AllocAnd(a: ExprPtr, b: ExprPtr): ExprPtr {
    if a.Null? then b else if b.Null? then a else Ptr(Bin(Conj, a.e, b.e))
  }

  /** expr_alloc_or */
  function AllocOr(a: ExprPtr, b: ExprPtr): ExprPtr {
    if a.Null? then b else if b.Null? then a else Ptr(Bin(Disj, a.e, b.e))
  }

  predicate IsYes(p: ExprPtr) {
    p.Null? || p.e == Leaf(SymYes)
  }

  /** What sym_calc_value guarantees about the value of one symbol: the constants keep theirs, an
      undefined symbol is its own name and n, a bool is never m, and a tristate is m only while
      modules are enabled. */
  predicate ValidValue(s: Sym, v: SymVal, modules: bool) {
    match s
    case SymYes => v == SymVal("y", YES)
    case SymMod => v == SymVal("m", MOD)
    case SymNo => v == SymVal("n", NO)
    case Const(t) => v == SymVal(t, NO)
    case Config(n, t) =>
      match t
      case Unknown => v == SymVal(n, NO)
      case Boolean => v.tri != MOD
      case Tristate => v.tri == MOD ==> modules
      case _ => v.tri == NO
  }

  ghost predicate ValidEnv(env: Env) {
    forall s :: ValidValue(s, env.curr(s), env.modules)
  }

  /** The symbols whose value an expression reads. */
  function Syms(e: Expr): set<Sym> {
    match e
    case Leaf(s) => {s}
    case Neg(a) => Syms(a)
    case Bin(_, l, r) => Syms(l) + Syms(r)
    case Rel(_, s1, s2) => {s1, s2}
  }

  lemma {:induction false} ValReadsOnlySyms(e: Expr, env1: Env, env2: Env)
    requires env1.modules == env2.modules
    requires forall s | s in Syms(e) :: env1.curr(s) == env2.curr(s)
    ensures Val(e, env1) == Val(e, env2)
  {
    match e
    case Leaf(_) =>
    case Neg(a) => ValReadsOnlySyms(a, env1, env2);
    case Bin(_, l, r) => ValReadsOnlySyms(l, env1, env2); ValReadsOnlySyms(r, env1, env2);
    case Rel(_, s1, s2) =>
  }

  /** Which tristate values a constant compares equal to when a bool or tristate symbol stands on
      the left: y, m and n name one value each, a number names the value with that rank, any other
      word names none. */
  function Denotes(c: Sym): set<Tri>
    requires c.IsConst()
  {
    match c
    case SymYes => {YES}
    case SymMod => {MOD}
    case SymNo => {NO}
    case Const(t) =>
      match ParseSigned(t, 0)
      case Signed(v) => if 0 <= v <= 2 then {v} else {}
      case _ => if t == "y" then {YES} else if t == "m" then {MOD} else if t == "n" then {NO} else {}
  }

  function TristateName(t: Tri): string {
    if t == NO then "n" else if t == MOD then "m" else "y"
  }

  lemma TristateNames(t: Tri)
    ensures TristateDigit(TristateName(t)) == t
  {
    assert "n"[0] != "m"[0] && "n"[0] != "y"[0] && "m"[0] != "y"[0];
  }

  lemma DenotesByName(c: Sym, t: Tri)
    requires c.IsConst()
    ensures t in Denotes(c) <==>
      match ParseSigned(c.Name(), 0)
      case Signed(v) => v == t
      case _ => c.Name() == TristateName(t)
  {
    YmnAreNotNumbers();
    TristateNames(t);
    TristateNames(NO);
    TristateNames(MOD);
    TristateNames(YES);
  }

  lemma CompareToConst(env: Env, s: Sym, c: Sym)
    requires ValidEnv(env) && s.IsTristateLike() && c.IsConst()
    ensures Compare(env, s, c) == 0 <==> env.curr(s).tri in Denotes(c)
  {
    assert ValidValue(s, env.curr(s), env.modules);
    assert ValidValue(c, env.curr(c), env.modules);
    var t := env.curr(s).tri;
    assert StringValue(env, s) == TristateName(t) && StringValue(env, c) == c.Name();
    TristateNames(t);
    assert ParseString(TristateName(t), s.Type()) == Signed(t);
    StrCmpZero(TristateName(t), c.Name());
    DenotesByName(c, t);
  }
}
