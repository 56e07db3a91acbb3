/** The two ends of the expression syntax: expr_print of scripts/config/expr.c with its minimal
    parentheses, and the expression rules of scripts/config/parser.y. */
module ExprPrint {
  import opened Options
  import opened Exprs
  import opened ExprReduce

  /** T_WORD, T_WORD_QUOTE, the signs, and all tokens that no expression has. */
  datatype Token = Word(text: string) | Quoted(text: string) | Other | NotSign | AndSign | OrSign | Open | Close | RelSign(rel: Relation)

  /** enum expr_type, as far as printing distinguishes it. */
  datatype ExprType = NoneType | OrType | AndType | NotType | RelType(rel: Relation) | SymbolType

  function TypeOf(e: Expr): ExprType {
    match e
    case Leaf(_) => SymbolType
    case Neg(_) => NotType
    case Bin(op, _, _) => if op.Conj? then AndType else OrType
    case Rel(rel, _, _) => RelType(rel)
  }

  /** expr_compare_type; each group of types also takes the tests of the groups after it. */
  function CompareType(t1: ExprType, t2: ExprType): int {
    var inequality := t1.RelType? && t1.rel !in {EQ, NE};
    if t1 == t2 then 0
    else if inequality && t2.RelType? && t2.rel in {EQ, NE} then 1
    else if t1.RelType? && t2 == NotType then 1
    else if (t1.RelType? || t1 == NotType) && t2 == AndType then 1
    else if (t1.RelType? || t1 in {NotType, AndType}) && t2 == OrType then 1
    else if (t1.RelType? || t1 in {NotType, AndType, OrType}) && t2 == NoneType then 1
    else -1
  }

  function Sign(op: Conn): Token {
    if op.Conj? then AndSign else OrSign
  }

  function TypeOfConn(op: Conn): ExprType {
    if op.Conj? then AndType else OrType
  }

  /** expr_print, as the list of strings handed to the callback. */
  function Print(e: Expr, prev: ExprType): seq<Token> {
    var body := match e
      case Leaf(s) => [Word(s.Name())]
      case Neg(a) => [NotSign] + Print(a, NotType)
      case Rel(rel, s1, s2) => [Word(s1.Name()), RelSign(rel), Word(s2.Name())]
      case Bin(op, l, r) => Print(l, TypeOfConn(op)) + [Sign(op)] + Print(r, TypeOfConn(op));
    if CompareType(prev, TypeOf(e)) > 0 then [Open] + body + [Close] else body
  }

  datatype Parse = Failed | Parsed(e: Expr, rest: seq<Token>)

  /** A quoted constant. */
  function ConstLookup(text: string): Sym {
    if text == "y" then SymYes else if text == "m" then SymMod else if text == "n" then SymNo else Const(text)
  }

  /** symbol: nonconst_symbol | T_WORD_QUOTE */
  function SymbolOf(t: Token, lookup: string -> Sym): Option<Sym> {
    match t
    case Word(w) => Some(lookup(w))
    case Quoted(u) => Some(ConstLookup(u))
    case _ => None
  }

  /** expr: symbol | symbol relation symbol | '(' expr ')' | '!' expr, with '!' binding tightest. */
  function ParseUnary(ts: seq<Token>, lookup: string -> Sym): (r: Parse)
    ensures r.Parsed? ==> |r.rest| < |ts|
    decreases |ts|, 0
  {
    if ts == [] then Failed
    else match ts[0]
      case NotSign =>
        (match ParseUnary(ts[1..], lookup)
         case Failed => Failed
         case Parsed(e, rest) => Parsed(Neg(e), rest))
      case Open =>
        (match ParseExpr(ts[1..], lookup)
         case Failed => Failed
         case Parsed(e, rest) => if rest != [] && rest[0] == Close then Parsed(e, rest[1..]) else Failed)
      case _ =>
        match SymbolOf(ts[0], lookup)
        case None => Failed
        case Some(s) =>
          if |ts| > 1 && ts[1].RelSign? then
            if |ts| > 2 && SymbolOf(ts[2], lookup).Some? then
              Parsed(Rel(ts[1].rel, s, SymbolOf(ts[2], lookup).value), ts[3..])
            else Failed
          else Parsed(Leaf(s), ts[1..])
  }

  /** expr '&&' expr, left associative. */
  function ParseAnd(ts: seq<Token>, lookup: string -> Sym): (r: Parse)
    ensures r.Parsed? ==> |r.rest| < |ts|
    decreases |ts|, 2
  {
    match ParseUnary(ts, lookup)
    case Failed => Failed
    case Parsed(e, rest) => ParseAndTail(e, rest, lookup)
  }

  function ParseAndTail(acc: Expr, ts: seq<Token>, lookup: string -> Sym): (r: Parse)
    ensures r.Parsed? ==> |r.rest| <= |ts|
    decreases |ts|, 1
  {
    if ts != [] && ts[0] == AndSign then
      match ParseUnary(ts[1..], lookup)
      case Failed => Failed
      case Parsed(e, rest) => ParseAndTail(Bin(Conj, acc, e), rest, lookup)
    else Parsed(acc, ts)
  }

  /** expr '||' expr, left associative and loosest. */
  function ParseExpr(ts: seq<Token>, lookup: string -> Sym): (r: Parse)
    ensures r.Parsed? ==> |r.rest| < |ts|
    decreases |ts|, 4
  {
    match ParseAnd(ts, lookup)
    case Failed => Failed
    case Parsed(e, rest) => ParseOrTail(e, rest, lookup)
  }

  function ParseOrTail(acc: Expr, ts: seq<Token>, lookup: string -> Sym): (r: Parse)
    ensures r.Parsed? ==> |r.rest| <= |ts|
    decreases |ts|, 3
  {
    if ts != [] && ts[0] == OrSign then
      match ParseAnd(ts[1..], lookup)
      case Failed => Failed
      case Parsed(e, rest) => ParseOrTail(Bin(Disj, acc, e), rest, lookup)
    else Parsed(acc, ts)
  }

  /** The tree that reading gives back: operand lists associate to the left and every symbol is the
      one its name looks up. */
  function Reread(e: Expr, lookup: string -> Sym): Expr
    decreases e, 0
  {
    match e
    case Leaf(s) => Leaf(lookup(s.Name()))
    case Neg(a) => Neg(Reread(a, lookup))
    case Rel(rel, s1, s2) => Rel(rel, lookup(s1.Name()), lookup(s2.Name()))
    case Bin(op, l, r) => Graft(op, Reread(l, lookup), r, lookup)
  }

  /** Appends the operands of e, one by one, to an operand list already read. */
  function Graft(op: Conn, acc: Expr, e: Expr, lookup: string -> Sym): Expr
    decreases e, 1
  {
    if IsBin(e, op) then Graft(op, Graft(op, acc, e.left, lookup), e.right, lookup)
    else Bin(op, acc, Reread(e, lookup))
  }

  predicate StartsWith(ts: seq<Token>, t: Token) {
    ts != [] && ts[0] == t
  }

  predicate NoRelFirst(ts: seq<Token>) {
    ts != [] ==> !ts[0].RelSign?
  }

  lemma PrintLevels(e: Expr)
    ensures Print(e, NoneType) == Print(e, OrType)
    ensures !IsBin(e, Disj) ==> Print(e, OrType) == Print(e, AndType)
    ensures !e.Bin? ==> Print(e, AndType) == Print(e, NotType)
    ensures IsBin(e, Disj) ==> Print(e, AndType) == Print(e, NotType)
    ensures e.Bin? ==> Print(e, NotType) == [Open] + Print(e, NoneType) + [Close]
  {
  }

  lemma {:induction false} ReadUnary(e: Expr, rest: seq<Token>, lookup: string -> Sym)
    requires NoRelFirst(rest)
    ensures ParseUnary(Print(e, NotType) + rest, lookup) == Parsed(Reread(e, lookup), rest)
    decreases Size(e), 3
  {
    match e
    case Leaf(_) => ReadWords(e, rest, lookup);
    case Rel(_, _, _) => ReadWords(e, rest, lookup);
    case Neg(a) =>
      var ts := Print(e, NotType) + rest;
      assert ts == [NotSign] + (Print(a, NotType) + rest);
      assert ts[1..] == Print(a, NotType) + rest;
      ReadUnary(a, rest, lookup);
    case Bin(_, _, _) =>
      PrintLevels(e);
      var inner := [Close] + rest;
      ReadOr(e, inner, lookup);
      ReadGroup(Print(e, OrType), rest, lookup);
      assert Print(e, NotType) == [Open] + Print(e, OrType) + [Close];
  }

  /** A symbol or a comparison. */
  lemma ReadWords(e: Expr, rest: seq<Token>, lookup: string -> Sym)
    requires (e.Leaf? || e.Rel?) && NoRelFirst(rest)
    ensures ParseUnary(Print(e, NotType) + rest, lookup) == Parsed(Reread(e, lookup), rest)
  {
    var ts := Print(e, NotType) + rest;
    if e.Leaf? {
      assert ts == [Word(e.sym.Name())] + rest && ts[1..] == rest;
    } else {
      assert ts[..3] == [Word(e.lhs.Name()), RelSign(e.rel), Word(e.rhs.Name())] && ts[3..] == rest;
    }
  }

  /** What stands in parentheses. */
  lemma ReadGroup(inner: seq<Token>, rest: seq<Token>, lookup: string -> Sym)
    requires var r := ParseExpr(inner + ([Close] + rest), lookup); r.Parsed? && r.rest == [Close] + rest
    ensures ParseUnary([Open] + inner + [Close] + rest, lookup)
         == Parsed(ParseExpr(inner + ([Close] + rest), lookup).e, rest)
  {
    var ts := [Open] + inner + [Close] + rest;
    assert ts[1..] == inner + ([Close] + rest);
    assert ([Close] + rest)[1..] == rest;
  }

  lemma {:induction false} ReadAnd(e: Expr, rest: seq<Token>, lookup: string -> Sym)
    requires NoRelFirst(rest)
    ensures ParseAnd(Print(e, AndType) + rest, lookup) == ParseAndTail(Reread(e, lookup), rest, lookup)
    decreases Size(e), if IsBin(e, Conj) then 0 else 4
  {
    PrintLevels(e);
    if IsBin(e, Conj) {
      var more := [AndSign] + Print(e.right, AndType) + rest;
      assert Print(e, AndType) + rest == Print(e.left, AndType) + more;
      ReadAnd(e.left, more, lookup);
      ReadAndTail(Reread(e.left, lookup), e.right, rest, lookup);
    } else {
      ReadUnary(e, rest, lookup);
    }
  }

  lemma {:induction false} ReadAndTail(acc: Expr, e: Expr, rest: seq<Token>, lookup: string -> Sym)
    requires NoRelFirst(rest)
    ensures ParseAndTail(acc, [AndSign] + Print(e, AndType) + rest, lookup)
            == ParseAndTail(Graft(Conj, acc, e, lookup), rest, lookup)
    decreases Size(e), if IsBin(e, Conj) then 0 else 4
  {
    PrintLevels(e);
    var ts := [AndSign] + Print(e, AndType) + rest;
    if IsBin(e, Conj) {
      var more := [AndSign] + Print(e.right, AndType) + rest;
      assert ts == [AndSign] + Print(e.left, AndType) + more;
      ReadAndTail(acc, e.left, more, lookup);
      ReadAndTail(Graft(Conj, acc, e.left, lookup), e.right, rest, lookup);
    } else {
      assert ts[1..] == Print(e, NotType) + rest;
      ReadUnary(e, rest, lookup);
    }
  }

  lemma {:induction false} ReadOr(e: Expr, rest: seq<Token>, lookup: string -> Sym)
    requires NoRelFirst(rest) && !StartsWith(rest, AndSign) && !StartsWith(rest, OrSign)
    ensures ParseExpr(Print(e, OrType) + rest, lookup) == Parsed(Reread(e, lookup), rest)
    decreases Size(e), if e.Bin? then 2 else 6
  {
    ReadOrList(e, rest, lookup);
  }

  lemma {:induction false} ReadOrList(e: Expr, rest: seq<Token>, lookup: string -> Sym)
    requires NoRelFirst(rest) && !StartsWith(rest, AndSign)
    ensures ParseExpr(Print(e, OrType) + rest, lookup) == ParseOrTail(Reread(e, lookup), rest, lookup)
    decreases Size(e), if e.Bin? then 1 else 5
  {
    PrintLevels(e);
    if IsBin(e, Disj) {
      var more := [OrSign] + Print(e.right, OrType) + rest;
      assert Print(e, OrType) + rest == Print(e.left, OrType) + more;
      ReadOrList(e.left, more, lookup);
      ReadOrTail(Reread(e.left, lookup), e.right, rest, lookup);
    } else {
      ReadAnd(e, rest, lookup);
    }
  }

  lemma {:induction false} ReadOrTail(acc: Expr, e: Expr, rest: seq<Token>, lookup: string -> Sym)
    requires NoRelFirst(rest) && !StartsWith(rest, AndSign)
    ensures ParseOrTail(acc, [OrSign] + Print(e, OrType) + rest, lookup)
            == ParseOrTail(Graft(Disj, acc, e, lookup), rest, lookup)
    decreases Size(e), if e.Bin? then 1 else 5
  {
    PrintLevels(e);
    var ts := [OrSign] + Print(e, OrType) + rest;
    if IsBin(e, Disj) {
      var more := [OrSign] + Print(e.right, OrType) + rest;
      assert ts == [OrSign] + Print(e.left, OrType) + more;
      ReadOrTail(acc, e.left, more, lookup);
      ReadOrTail(Graft(Disj, acc, e.left, lookup), e.right, rest, lookup);
    } else {
      assert ts[1..] == Print(e, AndType) + rest;
      ReadAnd(e, rest, lookup);
    }
  }

  /** Every symbol of the expression is found again under its printed name. */
  predicate NamesResolve(e: Expr, lookup: string -> Sym) {
    forall s | s in Syms(e) :: lookup(s.Name()) == s
  }

  /** Every name finds a symbol with the type and value of the one it was printed for. */
  predicate NamesAgree(e: Expr, lookup: string -> Sym, env: Env) {
    forall s | s in Syms(e) ::
      env.curr(lookup(s.Name())) == env.curr(s) && lookup(s.Name()).Type() == s.Type()
  }

  /** The expression with its operand lists associated to the left. */
  function LeftAssoc(e: Expr): Expr
    decreases e, 0
  {
    match e
    case Neg(a) => Neg(LeftAssoc(a))
    case Bin(op, l, r) => Gather(op, LeftAssoc(l), r)
    case _ => e
  }

  function Gather(op: Conn, acc: Expr, e: Expr): Expr
    decreases e, 1
  {
    if IsBin(e, op) then Gather(op, Gather(op, acc, e.left), e.right)
    else Bin(op, acc, LeftAssoc(e))
  }

  lemma {:induction false} GraftIsGather(op: Conn, acc1: Expr, acc2: Expr, e: Expr, lookup: string -> Sym)
    ensures Graft(op, acc1, e, lookup) == Gather(op, acc2, e) <==> acc1 == acc2 && NamesResolve(e, lookup)
    decreases Size(e), 1
  {
    if IsBin(e, op) {
      GraftIsGather(op, acc1, acc2, e.left, lookup);
      GraftIsGather(op, Graft(op, acc1, e.left, lookup), Gather(op, acc2, e.left), e.right, lookup);
    } else {
      RereadIsLeftAssoc(e, lookup);
    }
  }

  /** Reading back gives the left-associated tree exactly when every name resolves. */
  lemma {:induction false} RereadIsLeftAssoc(e: Expr, lookup: string -> Sym)
    ensures Reread(e, lookup) == LeftAssoc(e) <==> NamesResolve(e, lookup)
    decreases Size(e), 0
  {
    match e
    case Neg(a) => RereadIsLeftAssoc(a, lookup);
    case Bin(op, l, r) =>
      RereadIsLeftAssoc(l, lookup);
      GraftIsGather(op, Reread(l, lookup), LeftAssoc(l), r, lookup);
    case _ =>
  }

  lemma {:induction false} GraftKeepsValue(op: Conn, acc: Expr, e: Expr, lookup: string -> Sym, env: Env)
    requires NamesAgree(e, lookup, env)
    ensures Val(Graft(op, acc, e, lookup), env) == op.Apply(Val(acc, env), Val(e, env))
    decreases Size(e), 1
  {
    if IsBin(e, op) {
      GraftKeepsValue(op, acc, e.left, lookup, env);
      GraftKeepsValue(op, Graft(op, acc, e.left, lookup), e.right, lookup, env);
    } else {
      RereadKeepsValue(e, lookup, env);
    }
  }

  lemma {:induction false} RereadKeepsValue(e: Expr, lookup: string -> Sym, env: Env)
    requires NamesAgree(e, lookup, env)
    ensures Val(Reread(e, lookup), env) == Val(e, env)
    decreases Size(e), 0
  {
    match e
    case Neg(a) => RereadKeepsValue(a, lookup, env);
    case Bin(op, l, r) =>
      RereadKeepsValue(l, lookup, env);
      GraftKeepsValue(op, Reread(l, lookup), r, lookup, env);
    case _ =>
  }

  lemma {:induction false} RereadSyms(e: Expr, lookup: string -> Sym)
    ensures Syms(Reread(e, lookup)) == set s | s in Syms(e) :: lookup(s.Name())
    decreases Size(e), 0
  {
    match e
    case Neg(a) => RereadSyms(a, lookup);
    case Bin(op, l, r) =>
      RereadSyms(l, lookup);
      GraftSyms(op, Reread(l, lookup), r, lookup);
    case _ =>
  }

  lemma {:induction false} GraftSyms(op: Conn, acc: Expr, e: Expr, lookup: string -> Sym)
    ensures Syms(Graft(op, acc, e, lookup)) == Syms(acc) + set s | s in Syms(e) :: lookup(s.Name())
    decreases Size(e), 1
  {
    if IsBin(e, op) {
      GraftSyms(op, acc, e.left, lookup);
      GraftSyms(op, Graft(op, acc, e.left, lookup), e.right, lookup);
    } else {
      RereadSyms(e, lookup);
    }
  }

  /** Printing and reading back, whatever the symbol table: the whole text is consumed, and the result
      is the printed tree, up to the association of && and ||, exactly when every name resolves. */
  lemma PrintParseRoundTrip(e: Expr, lookup: string -> Sym)
    ensures var r := ParseExpr(Print(e, NoneType), lookup);
      && r == Parsed(Reread(e, lookup), [])
      && (r.e == LeftAssoc(e) <==> NamesResolve(e, lookup))
      && (forall env :: NamesAgree(e, lookup, env) ==> Val(r.e, env) == Val(e, env))
      && Syms(r.e) == set s | s in Syms(e) :: lookup(s.Name())
  {
    PrintLevels(e);
    assert Print(e, OrType) + [] == Print(e, OrType);
    ReadOr(e, [], lookup);
    RereadIsLeftAssoc(e, lookup);
    RereadSyms(e, lookup);
    forall env | NamesAgree(e, lookup, env)
      ensures Val(Reread(e, lookup), env) == Val(e, env)
    {
      RereadKeepsValue(e, lookup, env);
    }
  }

  /** sym_lookup of a word without quotes; types says of which type a name is defined, if at all. */
  function SymLookup(types: string -> SymType): string -> Sym {
    name =>
      if name == "y" then SymYes else if name == "m" then SymMod else if name == "n" then SymNo
      else Config(name, types(name))
  }

  /** A symbol that sym_lookup can have made: y, m and n, quoted or not, are always the constants. */
  predicate Known(s: Sym, types: string -> SymType) {
    match s
    case Config(name, typ) => typ == types(name) && name !in {"y", "m", "n"}
    case Const(text) => text !in {"y", "m", "n"}
    case _ => true
  }

  lemma LookupFinds(s: Sym, types: string -> SymType)
    requires Known(s, types)
    ensures SymLookup(types)(s.Name()) == s <==> !s.Const?
    ensures s.Const? ==> SymLookup(types)(s.Name()) == Config(s.text, types(s.text))
  {
  }

  /** Over the symbols of a configuration the round trip of the strings printed loses nothing exactly
      when no quoted constant other than y, m and n occurs; and the value is kept as long as no such
      constant is also the name of a defined symbol. */
  lemma TokensRoundTrip(e: Expr, types: string -> SymType)
    requires forall s | s in Syms(e) :: Known(s, types)
    ensures ParseExpr(Print(e, NoneType), SymLookup(types)) == Parsed(LeftAssoc(e), [])
            <==> forall s | s in Syms(e) :: !s.Const?
    ensures (forall s | s in Syms(e) && s.Const? :: types(s.text) == Unknown) ==>
      var r := ParseExpr(Print(e, NoneType), SymLookup(types));
      r.Parsed? && forall env | ValidEnv(env) :: Val(r.e, env) == Val(e, env)
  {
    var lookup := SymLookup(types);
    forall s | s in Syms(e)
      ensures lookup(s.Name()) == s <==> !s.Const?
      ensures s.Const? ==> lookup(s.Name()) == Config(s.text, types(s.text))
    {
      LookupFinds(s, types);
    }
    PrintParseRoundTrip(e, lookup);
    if forall s | s in Syms(e) && s.Const? :: types(s.text) == Unknown {
      forall env | ValidEnv(env)
        ensures NamesAgree(e, lookup, env)
      {
        forall s | s in Syms(e)
          ensures env.curr(lookup(s.Name())) == env.curr(s) && lookup(s.Name()).Type() == s.Type()
        {
          assert ValidValue(s, env.curr(s), env.modules);
          assert ValidValue(lookup(s.Name()), env.curr(lookup(s.Name())), env.modules);
        }
      }
    }
  }
}
