/** Printed expressions as characters, and the part of scripts/config/lexer.l that reads them. */
module ExprText {
  import opened Tristate
  import opened Options
  import opened Exprs
  import opened ExprJoin
  import opened ExprReduce
  import opened ExprPrint

  function RelText(rel: Relation): string {
    match rel
    case EQ => "="
    case NE => "!="
    case LT => "<"
    case LE => "<="
    case GT => ">"
    case GE => ">="
  }

  function TokenText(t: Token): string {
    match t
    case Word(w) => w
    case Quoted(u) => "\"" + u + "\""
    case Other => ""
    case NotSign => "!"
    case AndSign => " && "
    case OrSign => " || "
    case Open => "("
    case Close => ")"
    case RelSign(rel) => RelText(rel)
  }

  /** What expr_print hands to its callback, one after the other. */
  function Text(ts: seq<Token>): string {
    if ts == [] then "" else TokenText(ts[0]) + Text(ts[1..])
  }

  predicate WordChar(c: char) {
    'a' <= c <= 'z' || 'A' <= c <= 'Z' || '0' <= c <= '9' || c in "_-/."
  }

  const KEYWORDS := {
    "allnoconfig_y", "bool", "choice", "comment", "config", "def_bool", "def_tristate", "default", "defconfig_list",
    "depends", "endchoice", "endif", "endmenu", "help", "---help---", "hex", "if", "imply", "int", "mainmenu", "menu",
    "menuconfig", "modules", "on", "option", "optional", "prompt", "range", "reset", "select", "source", "string",
    "tristate", "visible"
  }

  /** A text that the lexer takes for a word. */
  predicate IsWord(w: string) {
    w != "" && (forall c | c in w :: WordChar(c)) && w !in KEYWORDS
  }

  /** The length of the longest run of word characters. */
  function Run(text: string): (n: nat)
    ensures n <= |text|
  {
    if text == "" || !WordChar(text[0]) then 0 else 1 + Run(text[1..])
  }

  /** The state STRING: up to the closing quote or the end of the line; a backslash stands before any
      character. The number says how many characters are taken. Macros are not expanded here. */
  function LexString(text: string, quote: char): (r: Option<(string, nat)>)
    ensures r.Some? ==> r.value.1 <= |text|
  {
    if text == "" || text[0] == '\n' then Some(("", 0))
    else if text[0] == quote then Some(("", 1))
    else if text[0] == '$' then None
    else
      var n := Escape(text);
      match LexString(text[n..], quote)
      case None => None
      case Some((u, k)) => Some((text[(if text[0] == '\\' then 1 else 0)..n] + u, n + k))
  }

  /** How many characters stand for one inside quotes. */
  function Escape(text: string): (n: nat)
    requires text != ""
    ensures 0 < n <= |text|
  {
    if text[0] == '\\' && |text| > 1 && text[1] != '\n' then 2 else 1
  }

  function LineLength(text: string): (n: nat)
    ensures n <= |text|
  {
    if text == "" || text[0] == '\n' then 0 else 1 + LineLength(text[1..])
  }

  function Then(t: Token, rest: Option<seq<Token>>): Option<seq<Token>> {
    match rest
    case None => None
    case Some(ts) => Some([t] + ts)
  }

  /** The sign at the head of a text, the longest that fits, with its length. */
  function SignAt(text: string): (r: Option<(Token, nat)>)
    ensures r.Some? ==> 0 < r.value.1 <= |text|
  {
    if text == "" then None
    else
      var c, d := text[0], if |text| > 1 then text[1] else ' ';
      if c == '|' && d == '|' then Some((OrSign, 2))
      else if c == '&' && d == '&' then Some((AndSign, 2))
      else if c == '!' && d == '=' then Some((RelSign(NE), 2))
      else if c == '<' && d == '=' then Some((RelSign(LE), 2))
      else if c == '>' && d == '=' then Some((RelSign(GE), 2))
      else if (c == ':' || c == '+') && d == '=' then Some((Other, 2))
      else if c == '=' then Some((RelSign(EQ), 1))
      else if c == '<' then Some((RelSign(LT), 1))
      else if c == '>' then Some((RelSign(GT), 1))
      else if c == '!' then Some((NotSign, 1))
      else if c == '(' then Some((Open, 1))
      else if c == ')' then Some((Close, 1))
      else if c == '\n' then Some((Other, 1))
      else None
  }

  predicate IsQuote(c: char) {
    c == '"' || c == '\''
  }

  predicate IsBlank(c: char) {
    c == ' ' || c == '\t'
  }

  /** The first piece of a text: a token or something to ignore, with its length; or a macro. */
  datatype Piece = Macro | Ignored(n: nat) | Took(t: Token, n: nat)

  function FirstPiece(text: string): (r: Piece)
    requires text != ""
    ensures !r.Macro? ==> 0 < r.n <= |text|
  {
    var c := text[0];
    if IsBlank(c) then Ignored(1)
    else if c == '#' then Ignored(1 + LineLength(text[1..]))
    else if c == '\\' && |text| > 1 && text[1] == '\n' then Ignored(2)
    else if SignAt(text).Some? then Took(SignAt(text).value.0, SignAt(text).value.1)
    else if IsQuote(c) then
      match LexString(text[1..], c)
      case None => Macro
      case Some((u, k)) => Took(Quoted(u), 1 + k)
    else if WordChar(c) then
      var n := Run(text);
      if n < |text| && text[n] == '$' then Macro
      else Took(if text[..n] in KEYWORDS then Other else Word(text[..n]), n)
    else if c == '$' then Macro
    else Ignored(1)
  }

  /** The tokens of a text; None if it holds a macro. */
  function Lex(text: string): Option<seq<Token>> {
    if text == "" then Some([])
    else
      match FirstPiece(text)
      case Macro => None
      case Ignored(n) => Lex(text[n..])
      case Took(t, n) => Then(t, Lex(text[n..]))
  }

  /** Reading a whole text. */
  function ReadText(text: string, lookup: string -> Sym): Option<Expr> {
    match Lex(text)
    case None => None
    case Some(ts) =>
      var r := ParseExpr(ts, lookup);
      if r.Parsed? && r.rest == [] then Some(r.e) else None
  }

  // ---- The printed tokens are read back as they are ---------------------------------------------

  /** Two tokens that may follow each other without running together. */
  predicate Fits(t: Token, next: Token) {
    match t
    case Word(_) => !next.Word?
    case NotSign => !next.RelSign?
    case RelSign(_) => !next.RelSign?
    case _ => true
  }

  predicate Printable(t: Token) {
    if t.Word? then IsWord(t.text) else !t.Quoted? && !t.Other?
  }

  predicate Spaced(ts: seq<Token>) {
    && (forall t | t in ts :: Printable(t))
    && forall i | 0 <= i < |ts| - 1 :: Fits(ts[i], ts[i + 1])
  }

  lemma SpacedAppend(a: seq<Token>, b: seq<Token>)
    requires Spaced(a) && Spaced(b) && a != [] && b != [] && Fits(a[|a| - 1], b[0])
    ensures Spaced(a + b)
  {
    var ts := a + b;
    forall i | 0 <= i < |ts| - 1
      ensures Fits(ts[i], ts[i + 1])
    {
      if i + 1 < |a| {
        assert ts[i] == a[i] && ts[i + 1] == a[i + 1];
      } else if i + 1 > |a| {
        assert ts[i] == b[i - |a|] && ts[i + 1] == b[i + 1 - |a|];
      }
    }
  }

  /** How printed expressions begin and end. */
  predicate Framed(ts: seq<Token>) {
    && Spaced(ts) && ts != []
    && (ts[0].Word? || ts[0].NotSign? || ts[0].Open?) && (ts[|ts| - 1].Word? || ts[|ts| - 1].Close?)
  }

  lemma OneToken(t: Token)
    requires Printable(t)
    ensures Spaced([t])
  {
  }

  lemma {:induction false} PrintIsFramed(e: Expr, prev: ExprType)
    requires forall s | s in Syms(e) :: IsWord(s.Name())
    ensures Framed(Print(e, prev))
  {
    var body := Print(e, TypeOf(e));
    match e {
      case Leaf(s) => OneToken(Word(s.Name()));
      case Rel(rel, s1, s2) =>
        assert body == [Word(s1.Name()), RelSign(rel), Word(s2.Name())];
      case Neg(a) =>
        PrintIsFramed(a, NotType);
        OneToken(NotSign);
        SpacedAppend([NotSign], Print(a, NotType));
      case Bin(op, l, r) =>
        var t := TypeOfConn(op);
        PrintIsFramed(l, t);
        PrintIsFramed(r, t);
        OneToken(Sign(op));
        SpacedAppend(Print(l, t), [Sign(op)]);
        SpacedAppend(Print(l, t) + [Sign(op)], Print(r, t));
    }
    assert Framed(body);
    OneToken(Open);
    OneToken(Close);
    SpacedAppend([Open], body);
    SpacedAppend([Open] + body, [Close]);
  }

  lemma {:induction false} RunOfWord(w: string, rest: string)
    requires (forall c | c in w :: WordChar(c)) && (rest != "" ==> !WordChar(rest[0]))
    ensures Run(w + rest) == |w|
  {
    if w == "" {
      assert w + rest == rest;
    } else {
      assert (w + rest)[0] == w[0] && w[0] in w && (w + rest)[1..] == w[1..] + rest;
      RunOfWord(w[1..], rest);
    }
  }

  lemma LexWord(w: string, rest: string)
    requires IsWord(w) && (rest != "" ==> !WordChar(rest[0]) && rest[0] != '$')
    ensures Lex(w + rest) == Then(Word(w), Lex(rest))
  {
    var text := w + rest;
    assert text[0] == w[0] && w[0] in w;
    RunOfWord(w, rest);
    assert text[..|w|] == w && text[|w|..] == rest;
    assert SignAt(text).None?;
  }

  lemma LexBlank(rest: string)
    ensures Lex(" " + rest) == Lex(rest)
  {
    assert (" " + rest)[1..] == rest;
  }

  lemma SignIsFound(sign: string, t: Token, rest: string)
    requires (sign == "&&" && t == AndSign) || (sign == "||" && t == OrSign)
    ensures SignAt(sign + rest) == Some((t, 2))
  {
    var text := sign + rest;
    assert text[0] == sign[0] && text[1] == sign[1];
  }

  lemma LexTwo(sign: string, t: Token, rest: string)
    requires (sign == "&&" && t == AndSign) || (sign == "||" && t == OrSign)
    ensures Lex(" " + (sign + (" " + rest))) == Then(t, Lex(rest))
  {
    LexBlank(sign + (" " + rest));
    SignIsFound(sign, t, " " + rest);
    assert (sign + (" " + rest))[2..] == " " + rest;
    assert (sign + (" " + rest))[0] == sign[0];
    LexBlank(rest);
  }

  lemma ShortSign(t: Token, rest: string)
    requires t.NotSign? || t.Open? || t.Close? || t.RelSign?
    requires (t.NotSign? || t.RelSign?) ==> (rest == "" || rest[0] != '=')
    ensures SignAt(TokenText(t) + rest) == Some((t, |TokenText(t)|))
    ensures var c := (TokenText(t) + rest)[0]; !IsBlank(c) && c != '#' && c != '\\'
  {
    var sign, text := TokenText(t), TokenText(t) + rest;
    assert text[0] == sign[0] && (|sign| == 2 ==> text[1] == sign[1]) && (|sign| == 1 && rest != "" ==> text[1] == rest[0]);
  }

  lemma LexAtSign(text: string, t: Token, n: nat)
    requires text != "" && SignAt(text) == Some((t, n)) && !IsBlank(text[0]) && text[0] != '#' && text[0] != '\\'
    ensures Lex(text) == Then(t, Lex(text[n..]))
  {
    assert FirstPiece(text) == Took(t, n);
  }

  lemma LexSign(t: Token, rest: string)
    requires Printable(t) && !t.Word? && ((t.NotSign? || t.RelSign?) ==> (rest == "" || rest[0] != '='))
    ensures Lex(TokenText(t) + rest) == Then(t, Lex(rest))
  {
    if t.AndSign? || t.OrSign? {
      var sign := if t.AndSign? then "&&" else "||";
      LexTwo(sign, t, rest);
      SignText(sign, rest);
      assert " " + sign + " " == TokenText(t);
    } else {
      ShortSign(t, rest);
      LexAtSign(TokenText(t) + rest, t, |TokenText(t)|);
      assert (TokenText(t) + rest)[|TokenText(t)|..] == rest;
    }
  }

  lemma SignText(sign: string, rest: string)
    ensures " " + (sign + (" " + rest)) == " " + sign + " " + rest
  {
  }

  lemma FirstChar(ts: seq<Token>, t: Token)
    requires ts != [] && Printable(ts[0]) && Fits(t, ts[0])
    ensures Text(ts) != "" && Text(ts)[0] == TokenText(ts[0])[0]
    ensures t.Word? ==> !WordChar(Text(ts)[0]) && Text(ts)[0] != '$'
    ensures t.NotSign? || t.RelSign? ==> Text(ts)[0] != '='
  {
    var first := TokenText(ts[0]);
    if ts[0].Word? {
      assert first[0] in first;
    }
  }

  lemma SpacedTail(ts: seq<Token>)
    requires Spaced(ts) && ts != []
    ensures Spaced(ts[1..])
  {
    var rest := ts[1..];
    forall i | 0 <= i < |rest| - 1
      ensures Fits(rest[i], rest[i + 1])
    {
      assert rest[i] == ts[i + 1] && rest[i + 1] == ts[i + 2];
    }
  }

  /** One token in front of what is printed after it. */
  lemma LexOne(t: Token, rest: seq<Token>)
    requires Printable(t) && (rest != [] ==> Printable(rest[0]) && Fits(t, rest[0]))
    ensures Lex(TokenText(t) + Text(rest)) == Then(t, Lex(Text(rest)))
  {
    if rest != [] {
      FirstChar(rest, t);
    }
    if t.Word? {
      LexWord(t.text, Text(rest));
    } else {
      LexSign(t, Text(rest));
    }
  }

  /** The text of printed tokens is read as exactly these tokens. */
  lemma {:induction false} LexPrinted(ts: seq<Token>)
    requires Spaced(ts)
    ensures Lex(Text(ts)) == Some(ts)
  {
    if ts != [] {
      assert ts[0] in ts;
      if |ts| > 1 {
        assert ts[1] in ts && Fits(ts[0], ts[1]);
      }
      SpacedTail(ts);
      LexPrinted(ts[1..]);
      LexOne(ts[0], ts[1..]);
      assert [ts[0]] + ts[1..] == ts;
    }
  }

  // ---- No quoted constant comes back --------------------------------------------------------------

  function Quotes(s: string): nat {
    if s == "" then 0 else (if IsQuote(s[0]) then 1 else 0) + Quotes(s[1..])
  }

  lemma {:induction false} QuotesAppend(a: string, b: string)
    ensures Quotes(a + b) == Quotes(a) + Quotes(b)
  {
    if a == "" {
      assert a + b == b;
    } else {
      assert (a + b)[1..] == a[1..] + b;
      QuotesAppend(a[1..], b);
    }
  }

  lemma QuotesCut(text: string, n: nat)
    requires n <= |text|
    ensures Quotes(text) == Quotes(text[..n]) + Quotes(text[n..])
  {
    assert text == text[..n] + text[n..];
    QuotesAppend(text[..n], text[n..]);
  }

  /** Reading a string does not make quotes. */
  lemma {:induction false} StringQuotes(text: string, quote: char)
    requires LexString(text, quote).Some?
    ensures var (u, k) := LexString(text, quote).value; Quotes(u) + Quotes(text[k..]) <= Quotes(text)
  {
    if text != "" && text[0] != '\n' && text[0] != quote {
      var n := Escape(text);
      var (u, k) := LexString(text[n..], quote).value;
      StringQuotes(text[n..], quote);
      QuotesCut(text, n);
      QuotesCut(text[..n], 1);
      var from := if text[0] == '\\' then 1 else 0;
      assert text[..n][from..] == text[from..n] && text[n..][k..] == text[n + k..];
      QuotesAppend(text[from..n], u);
    }
  }

  function TokenCost(t: Token): nat {
    if t.Quoted? then 1 + Quotes(t.text) else 0
  }

  /** What the quoted tokens cost in quotes: those within and one more for each. */
  function Cost(ts: seq<Token>): nat {
    if ts == [] then 0 else TokenCost(ts[0]) + Cost(ts[1..])
  }

  lemma CostThen(t: Token, rest: Option<seq<Token>>)
    requires rest.Some?
    ensures Cost(Then(t, rest).value) == TokenCost(t) + Cost(rest.value)
  {
    assert ([t] + rest.value)[1..] == rest.value;
  }

  lemma LaterQuotes(text: string, n: nat)
    requires n <= |text|
    ensures Quotes(text[n..]) <= Quotes(text)
  {
    QuotesCut(text, n);
  }

  lemma PieceCost(text: string)
    requires text != "" && !FirstPiece(text).Macro?
    ensures var p := FirstPiece(text); (if p.Took? then TokenCost(p.t) else 0) + Quotes(text[p.n..]) <= Quotes(text)
  {
    var p := FirstPiece(text);
    LaterQuotes(text, p.n);
    if p.Took? && p.t.Quoted? {
      var k := LexString(text[1..], text[0]).value.1;
      StringQuotes(text[1..], text[0]);
      assert text[1..][k..] == text[1 + k..];
    }
  }

  /** A text has the quotes for its quoted tokens. */
  lemma {:induction false} LexCost(text: string)
    requires Lex(text).Some?
    ensures Cost(Lex(text).value) <= Quotes(text)
  {
    if text != "" {
      var p := FirstPiece(text);
      PieceCost(text);
      LexCost(text[p.n..]);
      if p.Took? {
        CostThen(p.t, Lex(text[p.n..]));
      }
    }
  }

  function SymCost(s: Sym): nat {
    if s.Const? then 1 + Quotes(s.text) else 0
  }

  function ExprCost(e: Expr): nat {
    match e
    case Leaf(s) => SymCost(s)
    case Neg(a) => ExprCost(a)
    case Bin(_, l, r) => ExprCost(l) + ExprCost(r)
    case Rel(_, s1, s2) => SymCost(s1) + SymCost(s2)
  }

  /** Words are never read as constants. */
  ghost predicate NamesOnly(lookup: string -> Sym) {
    forall w :: !lookup(w).Const?
  }

  lemma CostOfOne(ts: seq<Token>)
    requires ts != []
    ensures Cost(ts) == TokenCost(ts[0]) + Cost(ts[1..])
  {
  }

  lemma CostOfThree(ts: seq<Token>)
    requires |ts| >= 3
    ensures Cost(ts) == TokenCost(ts[0]) + TokenCost(ts[1]) + TokenCost(ts[2]) + Cost(ts[3..])
  {
    CostOfOne(ts);
    CostOfOne(ts[1..]);
    assert ts[1..][1..] == ts[2..];
    CostOfOne(ts[2..]);
    assert ts[2..][1..] == ts[3..];
  }

  /** What is parsed costs no more than the tokens consumed. */
  lemma {:induction false} UnaryCost(ts: seq<Token>, lookup: string -> Sym)
    requires NamesOnly(lookup)
    ensures var r := ParseUnary(ts, lookup); r.Parsed? ==> ExprCost(r.e) + Cost(r.rest) <= Cost(ts)
    decreases |ts|, 0
  {
    var r := ParseUnary(ts, lookup);
    if r.Parsed? {
      if ts[0].NotSign? {
        UnaryCost(ts[1..], lookup);
      } else if ts[0].Open? {
        ExprsCost(ts[1..], lookup);
        CostOfOne(ParseExpr(ts[1..], lookup).rest);
      } else if |ts| > 1 && ts[1].RelSign? {
        CostOfThree(ts);
      } else {
        CostOfOne(ts);
      }
    }
  }

  lemma {:induction false} AndCost(ts: seq<Token>, lookup: string -> Sym)
    requires NamesOnly(lookup)
    ensures var r := ParseAnd(ts, lookup); r.Parsed? ==> ExprCost(r.e) + Cost(r.rest) <= Cost(ts)
    decreases |ts|, 2
  {
    UnaryCost(ts, lookup);
    var r := ParseUnary(ts, lookup);
    if r.Parsed? {
      AndTailCost(r.e, r.rest, lookup);
    }
  }

  lemma {:induction false} AndTailCost(acc: Expr, ts: seq<Token>, lookup: string -> Sym)
    requires NamesOnly(lookup)
    ensures var r := ParseAndTail(acc, ts, lookup); r.Parsed? ==> ExprCost(r.e) + Cost(r.rest) <= ExprCost(acc) + Cost(ts)
    decreases |ts|, 1
  {
    if ts != [] && ts[0] == AndSign {
      UnaryCost(ts[1..], lookup);
      var r := ParseUnary(ts[1..], lookup);
      if r.Parsed? {
        AndTailCost(Bin(Conj, acc, r.e), r.rest, lookup);
      }
    }
  }

  lemma {:induction false} ExprsCost(ts: seq<Token>, lookup: string -> Sym)
    requires NamesOnly(lookup)
    ensures var r := ParseExpr(ts, lookup); r.Parsed? ==> ExprCost(r.e) + Cost(r.rest) <= Cost(ts)
    decreases |ts|, 4
  {
    AndCost(ts, lookup);
    var r := ParseAnd(ts, lookup);
    if r.Parsed? {
      OrTailCost(r.e, r.rest, lookup);
    }
  }

  lemma {:induction false} OrTailCost(acc: Expr, ts: seq<Token>, lookup: string -> Sym)
    requires NamesOnly(lookup)
    ensures var r := ParseOrTail(acc, ts, lookup); r.Parsed? ==> ExprCost(r.e) + Cost(r.rest) <= ExprCost(acc) + Cost(ts)
    decreases |ts|, 3
  {
    if ts != [] && ts[0] == OrSign {
      AndCost(ts[1..], lookup);
      var r := ParseAnd(ts[1..], lookup);
      if r.Parsed? {
        OrTailCost(Bin(Disj, acc, r.e), r.rest, lookup);
      }
    }
  }

  lemma {:induction false} LeftAssocCost(e: Expr)
    ensures ExprCost(LeftAssoc(e)) == ExprCost(e)
    decreases Size(e), 0
  {
    match e
    case Neg(a) => LeftAssocCost(a);
    case Bin(op, l, r) =>
      LeftAssocCost(l);
      GatherCost(op, LeftAssoc(l), r);
    case _ =>
  }

  lemma {:induction false} GatherCost(op: Conn, acc: Expr, e: Expr)
    ensures ExprCost(Gather(op, acc, e)) == ExprCost(acc) + ExprCost(e)
    decreases Size(e), 1
  {
    if IsBin(e, op) {
      GatherCost(op, acc, e.left);
      GatherCost(op, Gather(op, acc, e.left), e.right);
    } else {
      LeftAssocCost(e);
    }
  }

  lemma {:induction false} TextAppend(a: seq<Token>, b: seq<Token>)
    ensures Text(a + b) == Text(a) + Text(b)
  {
    if a == [] {
      assert a + b == b;
    } else {
      assert (a + b)[1..] == a[1..] + b;
      TextAppend(a[1..], b);
      Associate(TokenText(a[0]), Text(a[1..]), Text(b));
    }
  }

  lemma Associate<T>(a: seq<T>, b: seq<T>, c: seq<T>)
    ensures a + (b + c) == a + b + c
  {
  }

  lemma {:induction false} TextQuotes(ts: seq<Token>)
    requires forall t | t in ts :: !t.Quoted?
    ensures Quotes(Text(ts)) == NameQuotes(ts)
  {
    if ts != [] {
      assert ts[0] in ts && forall t | t in ts[1..] :: t in ts;
      TextQuotes(ts[1..]);
      QuotesAppend(TokenText(ts[0]), Text(ts[1..]));
      if !ts[0].Word? {
        SignsHaveNoQuotes(ts[0]);
      }
    }
  }

  function NameQuotes(ts: seq<Token>): nat {
    if ts == [] then 0 else (if ts[0].Word? then Quotes(ts[0].text) else 0) + NameQuotes(ts[1..])
  }

  lemma {:induction false} NameQuotesAppend(a: seq<Token>, b: seq<Token>)
    ensures NameQuotes(a + b) == NameQuotes(a) + NameQuotes(b)
  {
    if a == [] {
      assert a + b == b;
    } else {
      assert (a + b)[1..] == a[1..] + b;
      NameQuotesAppend(a[1..], b);
    }
  }

  lemma SignsHaveNoQuotes(t: Token)
    requires !t.Word? && !t.Quoted?
    ensures Quotes(TokenText(t)) == 0
  {
    NoQuotes(TokenText(t));
  }

  lemma {:induction false} NoQuotes(s: string)
    requires forall c | c in s :: !IsQuote(c)
    ensures Quotes(s) == 0
  {
    if s != "" {
      assert s[0] in s && forall c | c in s[1..] :: c in s;
      NoQuotes(s[1..]);
    }
  }

  predicate HasConstant(e: Expr) {
    exists s :: s in Syms(e) && s.Const?
  }

  /** Tokens with the names of an expression: a quote less for each constant, at least. */
  predicate Cheaper(ts: seq<Token>, e: Expr) {
    && (forall t | t in ts :: !t.Quoted?)
    && NameQuotes(ts) <= ExprCost(e) && (HasConstant(e) ==> NameQuotes(ts) < ExprCost(e))
  }

  lemma InParentheses(ts: seq<Token>, e: Expr)
    requires Cheaper(ts, e)
    ensures Cheaper([Open] + ts + [Close], e)
  {
    NameQuotesAppend([Open] + ts, [Close]);
    NameQuotesAppend([Open], ts);
    assert [Open][1..] == [] && [Close][1..] == [];
  }

  lemma CheaperRel(rel: Relation, s1: Sym, s2: Sym)
    requires (!s1.Const? ==> IsWord(s1.Name())) && (!s2.Const? ==> IsWord(s2.Name()))
    ensures Cheaper([Word(s1.Name()), RelSign(rel), Word(s2.Name())], Rel(rel, s1, s2))
  {
    NameCost(s1);
    NameCost(s2);
    var ts := [Word(s1.Name())] + ([RelSign(rel)] + [Word(s2.Name())]);
    NameQuotesAppend([Word(s1.Name())], [RelSign(rel)] + [Word(s2.Name())]);
    NameQuotesAppend([RelSign(rel)], [Word(s2.Name())]);
    assert [RelSign(rel)][1..] == [];
    assert ts == [Word(s1.Name()), RelSign(rel), Word(s2.Name())];
  }

  lemma CheaperBin(op: Conn, l: Expr, r: Expr, tl: seq<Token>, tr: seq<Token>)
    requires Cheaper(tl, l) && Cheaper(tr, r)
    ensures Cheaper(tl + [Sign(op)] + tr, Bin(op, l, r))
  {
    NameQuotesAppend(tl + [Sign(op)], tr);
    NameQuotesAppend(tl, [Sign(op)]);
    assert [Sign(op)][1..] == [];
    assert HasConstant(Bin(op, l, r)) ==> HasConstant(l) || HasConstant(r);
  }

  /** Printing costs a quote less for each constant. */
  lemma {:induction false} PrintQuotes(e: Expr, prev: ExprType)
    requires forall s | s in Syms(e) :: !s.Const? ==> IsWord(s.Name())
    ensures Cheaper(Print(e, prev), e)
  {
    var body := Print(e, TypeOf(e));
    match e {
      case Leaf(s) =>
        NameCost(s);
        assert Cheaper(body, e);
      case Rel(rel, s1, s2) => CheaperRel(rel, s1, s2);
      case Neg(a) =>
        PrintQuotes(a, NotType);
        NameQuotesAppend([NotSign], Print(a, NotType));
        assert HasConstant(e) ==> HasConstant(a);
      case Bin(op, l, r) =>
        PrintQuotes(l, TypeOfConn(op));
        PrintQuotes(r, TypeOfConn(op));
        CheaperBin(op, l, r, Print(l, TypeOfConn(op)), Print(r, TypeOfConn(op)));
    }
    InParentheses(body, e);
    PrintOfBody(e, prev);
  }

  lemma PrintOfBody(e: Expr, prev: ExprType)
    ensures var body := Print(e, TypeOf(e)); Print(e, prev) == body || Print(e, prev) == [Open] + body + [Close]
  {
  }

  lemma NameCost(s: Sym)
    requires !s.Const? ==> IsWord(s.Name())
    ensures NameQuotes([Word(s.Name())]) == Quotes(s.Name())
    ensures if s.Const? then Quotes(s.Name()) + 1 == SymCost(s) else Quotes(s.Name()) == SymCost(s)
  {
    assert [Word(s.Name())][1..] == [];
    if !s.Const? {
      NoQuotes(s.Name());
    }
  }

  /** A symbol as the lexer and sym_lookup make them: a constant may have any text. */
  predicate Readable(s: Sym, types: string -> SymType) {
    Known(s, types) && (!s.Const? ==> IsWord(s.Name()))
  }

  lemma ConstantsDoNotReturn(e: Expr, types: string -> SymType)
    requires forall s | s in Syms(e) :: Readable(s, types)
    requires ReadText(Text(Print(e, NoneType)), SymLookup(types)) == Some(LeftAssoc(e))
    ensures forall s | s in Syms(e) :: !s.Const?
  {
    var text, lookup := Text(Print(e, NoneType)), SymLookup(types);
    PrintQuotes(e, NoneType);
    TextQuotes(Print(e, NoneType));
    LexCost(text);
    ExprsCost(Lex(text).value, lookup);
    LeftAssocCost(e);
    assert !HasConstant(e);
  }

  lemma WordsReturn(e: Expr, types: string -> SymType)
    requires forall s | s in Syms(e) :: IsWord(s.Name())
    ensures ReadText(Text(Print(e, NoneType)), SymLookup(types)) == Some(Reread(e, SymLookup(types)))
  {
    PrintIsFramed(e, NoneType);
    LexPrinted(Print(e, NoneType));
    PrintParseRoundTrip(e, SymLookup(types));
  }

  /** Character by character: what is printed is read back as the same expression exactly when no quoted
      constant other than y, m and n occurs, whatever its text. Where the texts of the constants are words
      and no symbol is defined by these names, the value is kept all the same. */
  lemma PrintIsLossless(e: Expr, types: string -> SymType)
    requires forall s | s in Syms(e) :: Readable(s, types)
    ensures ReadText(Text(Print(e, NoneType)), SymLookup(types)) == Some(LeftAssoc(e))
            <==> forall s | s in Syms(e) :: !s.Const?
    ensures (forall s | s in Syms(e) && s.Const? :: IsWord(s.text) && types(s.text) == Unknown) ==>
      var r := ReadText(Text(Print(e, NoneType)), SymLookup(types));
      r.Some? && forall env | ValidEnv(env) :: Val(r.value, env) == Val(e, env)
  {
    TokensRoundTrip(e, types);
    PrintParseRoundTrip(e, SymLookup(types));
    if forall s | s in Syms(e) && s.Const? :: IsWord(s.text) {
      WordsReturn(e, types);
    }
    if ReadText(Text(Print(e, NoneType)), SymLookup(types)) == Some(LeftAssoc(e)) {
      ConstantsDoNotReturn(e, types);
    }
  }

  /** With a symbol of the same name defined, even the value is lost: the constant "X" is n, the bool X
      it is read back as may be y. */
  lemma QuotesAreLost(types: string -> SymType)
    requires types("X") == Boolean
    ensures var e := Leaf(Const("X"));
      var r := ReadText(Text(Print(e, NoneType)), SymLookup(types));
      && Readable(Const("X"), types)
      && r.Some? && exists env :: ValidEnv(env) && Val(e, env) == NO && Val(r.value, env) == YES
  {
    var x := Config("X", Boolean);
    var env := Env(true, s => if s == x then SymVal("n", YES) else SomeValue(x, NO, s));
    assert IsWord("X");
    WordsReturn(Leaf(Const("X")), types);
    assert ValidEnv(env);
  }

  const A := Config("A", Str)
  const UNREADABLE := Rel(EQ, A, Const(""))

  lemma UnreadableText()
    ensures Text(Print(UNREADABLE, NoneType)) == "A="
  {
    var ts := [Word("A"), RelSign(EQ)];
    EmptyWordIsNothing(ts);
    assert ts[1..] == [RelSign(EQ)] && ts[1..][1..] == [];
    assert Text([RelSign(EQ)]) == "=" && Text(ts) == "A" + "=";
    assert Print(UNREADABLE, NoneType) == ts + [Word("")];
  }

  lemma EmptyWordIsNothing(ts: seq<Token>)
    ensures Text(ts + [Word("")]) == Text(ts)
  {
    TextAppend(ts, [Word("")]);
    assert [Word("")][1..] == [] && Text([Word("")]) == "";
  }

  lemma UnreadableTokens()
    ensures Lex("A=") == Some([Word("A"), RelSign(EQ)])
  {
    assert IsWord("A");
    LexWord("A", "=");
    LexSign(RelSign(EQ), "");
    assert "=" + "" == "=" && "A" + "=" == "A=" && Lex("") == Some([]);
    assert [RelSign(EQ)] + [] == [RelSign(EQ)] && [Word("A")] + [RelSign(EQ)] == [Word("A"), RelSign(EQ)];
  }

  /** And where the text is no word, reading may fail altogether: A="" is printed as A=. */
  lemma EmptyConstantIsNotRead(types: string -> SymType)
    requires types("A") == Str
    ensures forall s | s in Syms(UNREADABLE) :: Readable(s, types)
    ensures Text(Print(UNREADABLE, NoneType)) == "A=" && ReadText("A=", SymLookup(types)) == None
  {
    UnreadableText();
    UnreadableTokens();
    NoRightHandSide(SymLookup(types));
  }

  lemma NoRightHandSide(lookup: string -> Sym)
    ensures ParseExpr([Word("A"), RelSign(EQ)], lookup) == Failed
  {
  }
}
