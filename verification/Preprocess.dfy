/** The macro language of scripts/config/preprocess.c: variables, user-defined functions and built-in
    functions, expanded by a set of mutually recursive routines that only counters keep from running
    forever. */
module Preprocess {
  import opened Options
  import Numbers

  datatype Flavor = Simple | Recursive
  datatype Assignment = SetSimple | SetRecursive | Append

  /** struct variable. There is no value from the moment variable_add has freed the old one (or made
      the variable) until the new one is known. */
  datatype Variable = Variable(name: string, value: Option<string>, flavor: Flavor, count: nat)

  datatype Failure =
    | SelfReference
    | TooDeep
    | Unterminated
    | TooManyArguments
    | WrongArguments
    | UserError(text: string)
    | NoValue

  /** pperror never returns. */
  datatype Outcome<T> = Ok(value: T) | Failed(failure: Failure)

  /** What expansion takes from outside: environment variables, the output of commands (already
      trimmed), the current file name and line. */
  datatype World = World(env: map<string, string>, shell: string -> string, file: string, line: string)

  const MAX_ARGUMENTS := 16
  const MAX_DEPTH := 1000

  // ---- What an expansion is -------------------------------------------------------------------

  type Variables = seq<Variable>

  predicate Counted(vars: Variables) {
    forall i | 0 <= i < |vars| :: vars[i].count <= MAX_DEPTH + 1
  }

  /** How many more expansions the counters allow, all variables together. */
  function Budget(vars: Variables): nat
    requires Counted(vars)
  {
    if vars == [] then 0 else MAX_DEPTH + 1 - vars[0].count + Budget(vars[1..])
  }

  function Find(vars: Variables, name: string): (i: nat)
    ensures i <= |vars| && (i < |vars| ==> vars[i].name == name)
    ensures forall j | 0 <= j < i :: vars[j].name != name
  {
    if vars == [] || vars[0].name == name then 0 else 1 + Find(vars[1..], name)
  }

  function Entered(vars: Variables, i: nat): (vars': Variables)
    requires i < |vars|
    ensures |vars'| == |vars|
  {
    vars[i := vars[i].(count := vars[i].count + 1)]
  }

  lemma {:induction false} EnteringCosts(vars: Variables, i: nat)
    requires Counted(vars) && i < |vars| && vars[i].count <= MAX_DEPTH
    ensures Counted(Entered(vars, i)) && Budget(Entered(vars, i)) == Budget(vars) - 1
  {
    var vars' := Entered(vars, i);
    if i > 0 {
      EnteringCosts(vars[1..], i - 1);
      assert vars'[1..] == Entered(vars[1..], i - 1);
    } else {
      assert vars'[1..] == vars[1..];
    }
  }

  /** The position of the parenthesis that closes the reference, after nest more are closed. */
  function Close(text: string, from: nat, nest: nat): (q: nat)
    requires from <= |text|
    ensures from <= q <= |text| && (q < |text| ==> text[q] == ')')
    decreases |text| - from
  {
    if from == |text| then from
    else if text[from] == '(' then Close(text, from + 1, nest + 1)
    else if text[from] == ')' then (if nest == 0 then from else Close(text, from + 1, nest - 1))
    else Close(text, from + 1, nest)
  }

  function Nested(c: char, nest: int): int {
    if c == '(' then nest + 1 else if c == ')' then nest - 1 else nest
  }

  /** A clause cut at the commas outside parentheses. */
  function Pieces(clause: string, nest: int): (ps: seq<string>)
    ensures |ps| > 0
  {
    if clause == "" then [""]
    else
      var c := clause[0];
      if nest == 0 && c == ',' then [""] + Pieces(clause[1..], nest)
      else
        var rest := Pieces(clause[1..], Nested(c, nest));
        [[c] + rest[0]] + rest[1..]
  }

  lemma {:induction false} PiecesAreShort(clause: string, nest: int)
    ensures forall p | p in Pieces(clause, nest) :: |p| <= |clause|
  {
    if clause != "" {
      var c := clause[0];
      PiecesAreShort(clause[1..], if nest == 0 && c == ',' then nest else Nested(c, nest));
    }
  }

  /** An argument of the enclosing call: the clause is a number from 1 to their count. */
  function Argument(clause: string, args: seq<string>): Option<string> {
    match Numbers.ParseUnsigned(clause, 10)
    case Unsigned(n) => if 0 < n <= |args| then Some(args[n - 1]) else None
    case _ => None
  }

  function Builtin(w: World, name: string, args: seq<string>): Outcome<Option<string>> {
    var arity :=
      if name == "error-if" || name == "warning-if" then 2
      else if name == "info" || name == "shell" then 1
      else if name == "filename" || name == "lineno" then 0
      else -1;
    if arity == -1 then Ok(None)
    else if |args| != arity then Failed(WrongArguments)
    else if name == "error-if" then if args[0] == "y" then Failed(UserError(args[1])) else Ok(None)
    else if name == "shell" then Ok(Some(w.shell(args[0])))
    else if name == "filename" then Ok(Some(w.file))
    else if name == "lineno" then Ok(Some(w.line))
    else Ok(Some(""))
  }

  function Environment(w: World, name: string): Option<string> {
    if name != "" && name in w.env then Some(w.env[name]) else None
  }

  /** An expansion of a first part of a text, and the text that is left. */
  type Reading = Outcome<(string, string)>

  function Prepend(s: string, r: Reading): Reading {
    match r
    case Ok(read) => Ok((s + read.0, read.1))
    case Failed(_) => r
  }

  /** Everything up to the end or to a character at which to stop. */
  function Expand(w: World, vars: Variables, text: string, stop: char -> bool, args: seq<string>): (r: Reading)
    requires Counted(vars)
    ensures r.Ok? ==> |r.value.1| <= |text|
    decreases Budget(vars), |text|, 2, 0
  {
    if text == "" || (text[0] != '$' && stop(text[0])) then Ok(("", text))
    else if text[0] == '$' then
      match Dollar(w, vars, text[1..], args)
      case Failed(f) => Failed(f)
      case Ok(read) => Prepend(read.0, Expand(w, vars, read.1, stop, args))
    else Prepend([text[0]], Expand(w, vars, text[1..], stop, args))
  }

  function Never(): char -> bool {
    (c: char) => false
  }

  /** A whole string. */
  function ExpandAll(w: World, vars: Variables, text: string, args: seq<string>): Outcome<string>
    requires Counted(vars)
    decreases Budget(vars), |text|, 3, 0
  {
    match Expand(w, vars, text, Never(), args)
    case Ok(read) => Ok(read.0)
    case Failed(f) => Failed(f)
  }

  /** What follows a dollar sign. */
  function Dollar(w: World, vars: Variables, text: string, args: seq<string>): (r: Reading)
    requires Counted(vars)
    ensures r.Ok? ==> |r.value.1| <= |text|
    decreases Budget(vars), |text|, 1, 0
  {
    if text == "" || text[0] != '(' then Ok(("$", text))
    else
      var q := Close(text, 1, 0);
      if q == |text| then Failed(Unterminated)
      else
        match Clause(w, vars, text[1..q], args)
        case Ok(s) => Ok((s, text[q + 1..]))
        case Failed(f) => Failed(f)
  }

  function Clause(w: World, vars: Variables, clause: string, args: seq<string>): Outcome<string>
    requires Counted(vars)
    decreases Budget(vars), |clause|, 5, 0
  {
    match Argument(clause, args)
    case Some(a) => Ok(a)
    case None =>
      var pieces := Pieces(clause, 0);
      if |pieces| > MAX_ARGUMENTS then Failed(TooManyArguments)
      else
        PiecesAreShort(clause, 0);
        match ExpandEach(w, vars, pieces, |clause|, args)
        case Failed(f) => Failed(f)
        case Ok(words) => Call(w, vars, words[0], words[1..])
  }

  function ExpandEach(w: World, vars: Variables, pieces: seq<string>, bound: nat, args: seq<string>)
    : (r: Outcome<seq<string>>)
    requires Counted(vars) && forall p | p in pieces :: |p| <= bound
    ensures r.Ok? ==> |r.value| == |pieces|
    decreases Budget(vars), bound, 4, |pieces|
  {
    if pieces == [] then Ok([])
    else
      match ExpandAll(w, vars, pieces[0], args)
      case Failed(f) => Failed(f)
      case Ok(s) =>
        match ExpandEach(w, vars, pieces[1..], bound, args)
        case Failed(f) => Failed(f)
        case Ok(rest) => Ok([s] + rest)
  }

  /** A name is a variable, else a built-in function, else (without arguments) an environment
      variable, else empty. */
  function Call(w: World, vars: Variables, name: string, args: seq<string>): Outcome<string>
    requires Counted(vars)
    decreases Budget(vars), 0, 1, 0
  {
    if Find(vars, name) < |vars| then Value(w, vars, Find(vars, name), args)
    else
      match Builtin(w, name, args)
      case Failed(f) => Failed(f)
      case Ok(Some(s)) => Ok(s)
      case Ok(None) =>
        var e := Environment(w, name);
        Ok(if args == [] && e.Some? then e.value else "")
  }

  /** The value of a variable; a recursive one is expanded while its counter is one higher. */
  function Value(w: World, vars: Variables, i: nat, args: seq<string>): Outcome<string>
    requires Counted(vars) && i < |vars|
    decreases Budget(vars), 0, 0, 0
  {
    var v := vars[i];
    if args == [] && v.count > 0 then Failed(SelfReference)
    else if v.count > MAX_DEPTH then Failed(TooDeep)
    else if v.value.None? then Failed(NoValue)
    else if v.flavor.Simple? then Ok(v.value.value)
    else
      EnteringCosts(vars, i);
      ExpandAll(w, Entered(vars, i), v.value.value, args)
  }

  // ---- What the counters do and do not decide ----------------------------------------------------

  /** The same variables, entered less often, and, unless all values are to be there, possibly with a
      value where there was none. */
  ghost predicate Fewer(fewer: Variables, vars: Variables, complete: bool) {
    |fewer| == |vars| && forall i | 0 <= i < |vars| :: Freer(fewer[i], vars[i], complete)
  }

  predicate Freer(f: Variable, v: Variable, complete: bool) {
    && f.name == v.name && f.count <= v.count
    && ((!complete && v.value.None?) || (f.value == v.value && f.flavor == v.flavor))
  }

  lemma FewerFind(fewer: Variables, vars: Variables, complete: bool, name: string)
    requires Fewer(fewer, vars, complete)
    ensures Find(fewer, name) == Find(vars, name)
  {
    var i, j := Find(fewer, name), Find(vars, name);
    assert i < |vars| ==> Freer(fewer[i], vars[i], complete) && vars[i].name == name;
    assert j < |vars| ==> Freer(fewer[j], vars[j], complete) && fewer[j].name == name;
  }

  /** The same outcome, but for the errors of counters and missing values. */
  predicate Stricter<T(==)>(more: Outcome<T>, fewer: Outcome<T>, complete: bool) {
    more == fewer || (more.Failed? && (more.failure in {SelfReference, TooDeep} || (!complete && more.failure == NoValue)))
  }

  /** The counters, and values that are missing, only ever turn an expansion into their own errors:
      apart from these its outcome is the same where the variables have been entered less often. */
  lemma {:induction false} CountersOnlyFail(w: World, fewer: Variables, vars: Variables, complete: bool,
                                            text: string, stop: char -> bool, args: seq<string>)
    requires Fewer(fewer, vars, complete) && Counted(vars) && Counted(fewer)
    ensures Stricter(Expand(w, vars, text, stop, args), Expand(w, fewer, text, stop, args), complete)
    decreases Budget(vars), |text|, 2, 0
  {
    if text == "" || (text[0] != '$' && stop(text[0])) {
    } else if text[0] == '$' {
      DollarFewer(w, fewer, vars, complete, text[1..], args);
      var d := Dollar(w, vars, text[1..], args);
      if d.Ok? {
        CountersOnlyFail(w, fewer, vars, complete, d.value.1, stop, args);
      }
    } else {
      CountersOnlyFail(w, fewer, vars, complete, text[1..], stop, args);
    }
  }

  lemma {:induction false} DollarFewer(w: World, fewer: Variables, vars: Variables, complete: bool, text: string, args: seq<string>)
    requires Fewer(fewer, vars, complete) && Counted(vars) && Counted(fewer)
    ensures Stricter(Dollar(w, vars, text, args), Dollar(w, fewer, text, args), complete)
    decreases Budget(vars), |text|, 1, 0
  {
    if text != "" && text[0] == '(' {
      var q := Close(text, 1, 0);
      if q < |text| {
        ClauseFewer(w, fewer, vars, complete, text[1..q], args);
      }
    }
  }

  lemma {:induction false} ClauseFewer(w: World, fewer: Variables, vars: Variables, complete: bool, clause: string, args: seq<string>)
    requires Fewer(fewer, vars, complete) && Counted(vars) && Counted(fewer)
    ensures Stricter(Clause(w, vars, clause, args), Clause(w, fewer, clause, args), complete)
    decreases Budget(vars), |clause|, 5, 0
  {
    var pieces := Pieces(clause, 0);
    if Argument(clause, args).None? && |pieces| <= MAX_ARGUMENTS {
      PiecesAreShort(clause, 0);
      EachFewer(w, fewer, vars, complete, pieces, |clause|, args);
      var words := ExpandEach(w, vars, pieces, |clause|, args);
      if words.Ok? {
        CallFewer(w, fewer, vars, complete, words.value[0], words.value[1..]);
      }
    }
  }

  lemma {:induction false} EachFewer(w: World, fewer: Variables, vars: Variables, complete: bool,
                                     pieces: seq<string>, bound: nat, args: seq<string>)
    requires Fewer(fewer, vars, complete) && Counted(vars) && Counted(fewer)
    requires forall p | p in pieces :: |p| <= bound
    ensures Stricter(ExpandEach(w, vars, pieces, bound, args), ExpandEach(w, fewer, pieces, bound, args), complete)
    decreases Budget(vars), bound, 4, |pieces|
  {
    if pieces != [] {
      CountersOnlyFail(w, fewer, vars, complete, pieces[0], Never(), args);
      EachFewer(w, fewer, vars, complete, pieces[1..], bound, args);
    }
  }

  lemma {:induction false} CallFewer(w: World, fewer: Variables, vars: Variables, complete: bool, name: string, args: seq<string>)
    requires Fewer(fewer, vars, complete) && Counted(vars) && Counted(fewer)
    ensures Stricter(Call(w, vars, name, args), Call(w, fewer, name, args), complete)
    decreases Budget(vars), 0, 1, 0
  {
    FewerFind(fewer, vars, complete, name);
    var i := Find(vars, name);
    if i < |vars| {
      ValueFewer(w, fewer, vars, complete, i, args);
    }
  }

  lemma {:induction false} ValueFewer(w: World, fewer: Variables, vars: Variables, complete: bool, i: nat, args: seq<string>)
    requires Fewer(fewer, vars, complete) && Counted(vars) && Counted(fewer) && i < |vars|
    ensures Stricter(Value(w, vars, i, args), Value(w, fewer, i, args), complete)
    decreases Budget(vars), 0, 0, 0
  {
    var v := vars[i];
    assert Freer(fewer[i], v, complete);
    if v.flavor.Recursive? && v.value.Some? && v.count <= MAX_DEPTH && (args != [] || v.count == 0) {
      EnteringCosts(vars, i);
      EnteringCosts(fewer, i);
      CountersOnlyFail(w, Entered(fewer, i), Entered(vars, i), complete, v.value.value, Never(), args);
    }
  }

  /** A clause that calls the named variable or function, with any arguments, references among them:
      its parentheses are closed within it, and it is not the number of an argument. */
  predicate Calls(clause: string, name: string) {
    && Close(clause + ")", 0, 0) == |clause| && Numbers.ParseUnsigned(clause, 10).NotNumber?
    && Pieces(clause, 0)[0] == name && '$' !in name
  }

  /** A variable or function whose value refers to itself, with any arguments and behind any text
      whose references are closed, has no expansion: every attempt ends in an error. */
  lemma {:induction false} SelfReferenceFails(w: World, vars: Variables, i: nat, before: string, clause: string, after: string, args: seq<string>)
    requires Counted(vars) && i < |vars| && Find(vars, vars[i].name) == i
    requires Whole(before) && Calls(clause, vars[i].name)
    requires vars[i].flavor.Recursive? && vars[i].value == Some(before + (Reference(clause) + after))
    ensures Value(w, vars, i, args).Failed?
    decreases Budget(vars)
  {
    var v := vars[i];
    if v.count <= MAX_DEPTH && (args != [] || v.count == 0) {
      EnteringCosts(vars, i);
      var vars' := Entered(vars, i);
      SameNames(vars', vars, v.name);
      forall words
        ensures Call(w, vars', v.name, words).Failed?
      {
        SelfReferenceFails(w, vars', i, before, clause, after, words);
      }
      FailingReference(w, vars', v.name, clause, before, after, args);
    }
  }

  /** A reference with its clause. */
  function Reference(clause: string): string {
    "$(" + clause + ")"
  }

  lemma ReferenceShape(clause: string, after: string)
    ensures (Reference(clause) + after)[0] == '$'
    ensures (Reference(clause) + after)[1..] == "(" + (clause + ")") + after
  {
  }

  lemma FailingReference(w: World, vars: Variables, name: string, clause: string, before: string, after: string, args: seq<string>)
    requires Counted(vars) && Whole(before) && Calls(clause, name)
    requires forall words :: Call(w, vars, name, words).Failed?
    ensures ExpandAll(w, vars, before + (Reference(clause) + after), args).Failed?
  {
    var rest := Reference(clause) + after;
    ReferenceShape(clause, after);
    CloseInside(rest[1..], clause + ")", after, 0, 0);
    assert rest[1..][1..1 + |clause|] == clause;
    FailingClause(w, vars, name, clause, args);
    assert Expand(w, vars, rest, Never(), args).Failed?;
    ExpansionConcatenates(w, vars, before, rest, args);
  }

  lemma {:induction false} CloseInside(text: string, inner: string, after: string, k: nat, nest: nat)
    requires text == "(" + inner + after && k <= |inner| && Close(inner, k, nest) < |inner|
    ensures Close(text, 1 + k, nest) == 1 + Close(inner, k, nest)
    decreases |inner| - k
  {
    assert text[1 + k] == inner[k];
    if inner[k] == '(' {
      CloseInside(text, inner, after, k + 1, nest + 1);
    } else if inner[k] != ')' {
      CloseInside(text, inner, after, k + 1, nest);
    } else if nest > 0 {
      CloseInside(text, inner, after, k + 1, nest - 1);
    }
  }

  /** Its pieces are expanded first, of which the name is one that stays; then the call fails. */
  lemma FailingClause(w: World, vars: Variables, name: string, clause: string, args: seq<string>)
    requires Counted(vars) && Calls(clause, name)
    requires forall words :: Call(w, vars, name, words).Failed?
    ensures Clause(w, vars, clause, args).Failed?
  {
    PiecesAreShort(clause, 0);
    TextBefore(w, vars, name, "", Never(), args);
    assert name + "" == name;
    assert ExpandAll(w, vars, name, args) == Ok(name);
    var words := ExpandEach(w, vars, Pieces(clause, 0), |clause|, args);
    if words.Ok? {
      assert words.value[0] == name;
      assert Call(w, vars, name, words.value[1..]).Failed?;
    }
  }

  lemma SameNames(a: Variables, b: Variables, name: string)
    requires |a| == |b| && forall i | 0 <= i < |a| :: a[i].name == b[i].name
    ensures Find(a, name) == Find(b, name)
  {
    var i, j := Find(a, name), Find(b, name);
    assert i < |a| ==> b[i].name == name;
    assert j < |b| ==> a[j].name == name;
  }

  /** Text without dollar signs expands to itself, whatever follows. */
  lemma {:induction false} TextBefore(w: World, vars: Variables, before: string, rest: string, stop: char -> bool, args: seq<string>)
    requires Counted(vars) && forall c | c in before :: c != '$' && !stop(c)
    ensures Expand(w, vars, before + rest, stop, args) == Prepend(before, Expand(w, vars, rest, stop, args))
  {
    if before == "" {
      assert before + rest == rest;
      PrependTwice("", "", Expand(w, vars, rest, stop, args));
    } else {
      var text := before + rest;
      assert text[0] == before[0] && before[0] in before && text[1..] == before[1..] + rest;
      assert forall c | c in before[1..] :: c in before;
      assert Expand(w, vars, text, stop, args) == Prepend([before[0]], Expand(w, vars, text[1..], stop, args));
      TextBefore(w, vars, before[1..], rest, stop, args);
      PrependTwice([before[0]], before[1..], Expand(w, vars, rest, stop, args));
      assert [before[0]] + before[1..] == before;
    }
  }

  lemma PrependTwice(a: string, b: string, r: Reading)
    ensures Prepend(a, Prepend(b, r)) == Prepend(a + b, r)
    ensures Prepend("", r) == r
  {
    if r.Ok? {
      assert a + (b + r.value.0) == a + b + r.value.0;
      assert "" + r.value.0 == r.value.0;
    }
  }

  /** Every reference is closed, and no dollar sign is left open at the end. */
  predicate Whole(text: string)
    decreases |text|
  {
    if text == "" then true
    else if text[0] != '$' then Whole(text[1..])
    else if |text| == 1 then false
    else if text[1] != '(' then Whole(text[1..])
    else
      var q := Close(text[1..], 1, 0);
      q < |text| - 1 && Whole(text[1..][q + 1..])
  }

  function Then(first: Reading, second: Reading): Reading {
    match first
    case Ok(read) => Prepend(read.0, second)
    case Failed(_) => first
  }

  /** Expansion goes through a text piece by piece: the expansion of a text whose references are all
      closed, followed by another, is one expansion followed by the other. */
  lemma {:induction false} ExpansionConcatenates(w: World, vars: Variables, a: string, b: string, args: seq<string>)
    requires Counted(vars) && Whole(a)
    ensures Expand(w, vars, a + b, Never(), args) == Then(Expand(w, vars, a, Never(), args), Expand(w, vars, b, Never(), args))
    decreases |a|
  {
    var ab := a + b;
    if a == "" {
      assert ab == b;
      PrependTwice("", "", Expand(w, vars, b, Never(), args));
    } else {
      assert ab[0] == a[0] && ab[1..] == a[1..] + b;
      if a[0] != '$' {
        ExpansionConcatenates(w, vars, a[1..], b, args);
        ThenPrepend([a[0]], Expand(w, vars, a[1..], Never(), args), Expand(w, vars, b, Never(), args));
      } else if a[1] != '(' {
        assert ab[1] == a[1];
        ExpansionConcatenates(w, vars, a[1..], b, args);
        ThenPrepend("$", Expand(w, vars, a[1..], Never(), args), Expand(w, vars, b, Never(), args));
      } else {
        WholeReference(w, vars, a[1..], b, args);
        var q := Close(a[1..], 1, 0);
        var rest := a[1..][q + 1..];
        ExpansionConcatenates(w, vars, rest, b, args);
        var d := Dollar(w, vars, a[1..], args);
        if d.Ok? {
          ThenPrepend(d.value.0, Expand(w, vars, rest, Never(), args), Expand(w, vars, b, Never(), args));
        }
      }
    }
  }

  lemma ThenPrepend(s: string, first: Reading, second: Reading)
    ensures Then(Prepend(s, first), second) == Prepend(s, Then(first, second))
  {
    if first.Ok? {
      PrependTwice(s, first.value.0, second);
    }
  }

  /** What follows a closed reference does not change it. */
  lemma WholeReference(w: World, vars: Variables, text: string, b: string, args: seq<string>)
    requires Counted(vars) && text != "" && text[0] == '(' && Close(text, 1, 0) < |text|
    ensures var q, d := Close(text, 1, 0), Dollar(w, vars, text, args);
      Dollar(w, vars, text + b, args) == (if d.Ok? then Ok((d.value.0, text[q + 1..] + b)) else d)
      && (d.Ok? ==> d.value.1 == text[q + 1..])
  {
    CloseAppend(text, b, 1, 0);
    var q := Close(text, 1, 0);
    assert (text + b)[1..q] == text[1..q] && (text + b)[q + 1..] == text[q + 1..] + b;
  }

  lemma {:induction false} CloseAppend(text: string, b: string, from: nat, nest: nat)
    requires from <= |text| && Close(text, from, nest) < |text|
    ensures Close(text + b, from, nest) == Close(text, from, nest)
    decreases |text| - from
  {
    assert (text + b)[from] == text[from];
    if text[from] == '(' {
      CloseAppend(text, b, from + 1, nest + 1);
    } else if text[from] == ')' {
      if nest > 0 {
        CloseAppend(text, b, from + 1, nest - 1);
      }
    } else {
      CloseAppend(text, b, from + 1, nest);
    }
  }

  // ---- The implementation ------------------------------------------------------------------------

  /** A clause is cut by one pass over it. */
  method Split(clause: string) returns (pieces: Outcome<seq<string>>)
    ensures pieces == if |Pieces(clause, 0)| > MAX_ARGUMENTS then Failed(TooManyArguments) else Ok(Pieces(clause, 0))
  {
    var argv: seq<string> := [];
    var nest, prev, p := 0, 0, 0;
    ghost var all := Pieces(clause, 0);
    ghost var piece, text := "", clause;
    PrefixFirstNothing(all);
    while p < |clause|
      invariant prev <= p <= |clause| && |argv| <= MAX_ARGUMENTS
      invariant piece == clause[prev..p] && text == clause[p..]
      invariant argv + PrefixFirst(piece, Pieces(text, nest)) == all
    {
      if nest == 0 && clause[p] == ',' {
        PieceEnds(argv, piece, text);
        if |argv| >= MAX_ARGUMENTS {
          return Failed(TooManyArguments);
        }
        argv := argv + [clause[prev..p]];
        prev := p + 1;
        piece := "";
      } else {
        PieceGrows(piece, text, nest);
        assert clause[prev..p + 1] == clause[prev..p] + [clause[p]];
        nest := Nested(clause[p], nest);
        piece := piece + [clause[p]];
      }
      text := text[1..];
      p := p + 1;
    }
    assert PrefixFirst(piece, Pieces(text, nest)) == [piece] by {
      assert text == "" && piece + "" == piece;
    }
    if |argv| >= MAX_ARGUMENTS {
      return Failed(TooManyArguments);
    }
    argv := argv + [clause[prev..p]];
    pieces := Ok(argv);
  }

  lemma PieceEnds(argv: seq<string>, piece: string, text: string)
    requires text != "" && text[0] == ','
    ensures argv + PrefixFirst(piece, Pieces(text, 0)) == argv + [piece] + PrefixFirst("", Pieces(text[1..], 0))
    ensures |Pieces(text, 0)| >= 2
  {
    var rest := Pieces(text[1..], 0);
    PrefixFirstNothing(rest);
    assert Pieces(text, 0) == [""] + rest && piece + "" == piece;
    assert PrefixFirst(piece, [""] + rest) == [piece] + rest;
    assert argv + ([piece] + rest) == argv + [piece] + rest;
  }

  lemma PieceGrows(piece: string, text: string, nest: int)
    requires text != "" && !(nest == 0 && text[0] == ',')
    ensures PrefixFirst(piece, Pieces(text, nest))
         == PrefixFirst(piece + [text[0]], Pieces(text[1..], Nested(text[0], nest)))
  {
    PrefixFirstOne(piece, text[0], Pieces(text[1..], Nested(text[0], nest)));
  }

  function PrefixFirst(s: string, ps: seq<string>): (r: seq<string>)
    requires |ps| > 0
    ensures |r| == |ps|
  {
    [s + ps[0]] + ps[1..]
  }

  lemma PrefixFirstNothing(ps: seq<string>)
    requires |ps| > 0
    ensures PrefixFirst("", ps) == ps
  {
    assert "" + ps[0] == ps[0];
  }

  lemma PrefixFirstOne(s: string, c: char, ps: seq<string>)
    requires |ps| > 0
    ensures PrefixFirst(s, PrefixFirst([c], ps)) == PrefixFirst(s + [c], ps)
  {
    assert s + ([c] + ps[0]) == s + [c] + ps[0];
  }

  /** The closing parenthesis is found by counting. */
  method FindClose(text: string) returns (q: nat)
    requires text != ""
    ensures q == Close(text, 1, 0)
  {
    var nest := 0;
    q := 1;
    while q < |text|
      invariant q <= |text| && nest >= 0 && Close(text, q, nest) == Close(text, 1, 0)
    {
      if text[q] == '(' {
        nest := nest + 1;
      } else if text[q] == ')' {
        if nest == 0 {
          break;
        }
        nest := nest - 1;
      }
      q := q + 1;
    }
  }

  /** Where expand_one_token stops. */
  predicate IsEndOfToken(c: char) {
    !('a' <= c <= 'z' || 'A' <= c <= 'Z' || '0' <= c <= '9' || c in "_-./")
  }

  class Preprocessor {
    var vars: Variables
    const w: World

    constructor (w: World)
      ensures vars == [] && this.w == w
    {
      this.w, vars := w, [];
    }

    method Lookup(name: string) returns (i: nat)
      ensures i == Find(vars, name)
    {
      i := 0;
      while i < |vars| && vars[i].name != name
        invariant i <= |vars| && forall j | 0 <= j < i :: vars[j].name != name
      {
        i := i + 1;
      }
      var f := Find(vars, name);
      assert f < |vars| ==> vars[f].name == name;
    }

    lemma NothingYet(out: string, text: string, p: nat)
      requires p <= |text|
      ensures out + text[p..p] == out
    {
    }

    lemma OneMoreChar(out: string, text: string, from: nat, p: nat)
      requires from <= p < |text|
      ensures out + text[from..p + 1] == out + text[from..p] + [text[p]]
    {
      assert text[from..p + 1] == text[from..p] + [text[p]];
    }

    /** A string is expanded reference by reference; when that succeeds, every counter is back at its
        old value. It always ends: an expansion inside an expansion has a smaller budget, and the
        pieces of a text are shorter than the text. */
    method ExpandString(text: string, stop: char -> bool, args: seq<string>) returns (r: Reading)
      requires Counted(vars)
      modifies this`vars
      ensures r == Expand(w, old(vars), text, stop, args) && (r.Ok? ==> vars == old(vars))
      decreases Budget(vars), |text|, 2, 0
    {
      var out, from, p := "", 0, 0;
      PrependTwice("", "", Expand(w, vars, text, stop, args));
      while true
        invariant from <= p <= |text| && vars == old(vars)
        invariant Prepend(out + text[from..p], Expand(w, vars, text[p..], stop, args)) == Expand(w, vars, text, stop, args)
        decreases |text| - p
      {
        ghost var here := out + text[from..p];
        if p < |text| && text[p] == '$' {
          var expansion, next := ExpandDollar(text, p + 1, args);
          if expansion.Failed? {
            return Failed(expansion.failure);
          }
          PrependTwice(here, expansion.value, Expand(w, vars, text[next..], stop, args));
          out := out + text[from..p] + expansion.value;
          from, p := next, next;
          NothingYet(out, text, p);
        } else {
          if p == |text| || stop(text[p]) {
            break;
          }
          PrependTwice(here, [text[p]], Expand(w, vars, text[p + 1..], stop, args));
          OneMoreChar(out, text, from, p);
          p := p + 1;
        }
      }
      out := out + text[from..p];
      assert out + "" == out;
      return Ok((out, text[p..]));
    }

    method ExpandWhole(text: string, args: seq<string>) returns (r: Outcome<string>)
      requires Counted(vars)
      modifies this`vars
      ensures r == ExpandAll(w, old(vars), text, args) && (r.Ok? ==> vars == old(vars))
      decreases Budget(vars), |text|, 3, 0
    {
      var read := ExpandString(text, Never(), args);
      r := match read case Ok(v) => Ok(v.0) case Failed(f) => Failed(f);
    }

    /** After a dollar sign: the reference up to its closing parenthesis, or the bare sign. */
    method ExpandDollar(text: string, at: nat, args: seq<string>) returns (r: Outcome<string>, next: nat)
      requires Counted(vars) && at <= |text|
      modifies this`vars
      ensures at <= next <= |text| && (r.Ok? ==> vars == old(vars))
      ensures Dollar(w, old(vars), text[at..], args)
           == match r case Ok(s) => Ok((s, text[next..])) case Failed(f) => Failed(f)
      decreases Budget(vars), |text| - at, 1, 0
    {
      next := at;
      if at == |text| || text[at] != '(' {
        return Ok("$"), at;
      }
      var q := FindClose(text[at..]);
      if q == |text| - at {
        return Failed(Unterminated), at;
      }
      next := at + q + 1;
      assert text[at..][q + 1..] == text[next..];
      r := EvalClause(text[at..][1..q], args);
    }

    /** A clause: an argument, or a name with arguments, each expanded before the name is looked up. */
    method EvalClause(clause: string, args: seq<string>) returns (r: Outcome<string>)
      requires Counted(vars)
      modifies this`vars
      ensures r == Clause(w, old(vars), clause, args) && (r.Ok? ==> vars == old(vars))
      decreases Budget(vars), |clause|, 5, 0
    {
      var a := Argument(clause, args);
      if a.Some? {
        return Ok(a.value);
      }
      var split := Split(clause);
      if split.Failed? {
        return Failed(split.failure);
      }
      PiecesAreShort(clause, 0);
      var words := ExpandPieces(split.value, |clause|, args);
      if words.Failed? {
        return Failed(words.failure);
      }
      var name, argv := words.value[0], words.value[1..];
      var v := VariableExpand(name, argv);
      if v.Failed? {
        return Failed(v.failure);
      }
      if v.value.Some? {
        return Ok(v.value.value);
      }
      var f := Builtin(w, name, argv);
      if f.Failed? {
        return Failed(f.failure);
      }
      if f.value.Some? {
        return Ok(f.value.value);
      }
      if argv == [] {
        var e := Environment(w, name);
        if e.Some? {
          return Ok(e.value);
        }
      }
      return Ok("");
    }

    method ExpandPieces(pieces: seq<string>, ghost bound: nat, args: seq<string>) returns (words: Outcome<seq<string>>)
      requires Counted(vars) && forall p | p in pieces :: |p| <= bound
      modifies this`vars
      ensures words == ExpandEach(w, old(vars), pieces, bound, args) && (words.Ok? ==> vars == old(vars))
      decreases Budget(vars), bound, 4, |pieces|
    {
      var done: seq<string> := [];
      BeforeNothing(ExpandEach(w, vars, pieces, bound, args));
      assert pieces[0..] == pieces;
      for i := 0 to |pieces|
        invariant vars == old(vars)
        invariant forall p | p in pieces[i..] :: |p| <= bound
        invariant Before(done, ExpandEach(w, vars, pieces[i..], bound, args)) == ExpandEach(w, vars, pieces, bound, args)
      {
        var s := ExpandWhole(pieces[i], args);
        if s.Failed? {
          return Failed(s.failure);
        }
        assert pieces[i..][1..] == pieces[i + 1..];
        BeforeTwice(done, s.value, ExpandEach(w, vars, pieces[i + 1..], bound, args));
        done := done + [s.value];
      }
      assert done + [] == done;
      words := Ok(done);
    }

    /** The counter of the variable is one higher while its value is expanded. */
    method VariableExpand(name: string, args: seq<string>) returns (r: Outcome<Option<string>>)
      requires Counted(vars)
      modifies this`vars
      ensures r.Ok? ==> vars == old(vars)
      ensures var i := Find(old(vars), name);
        r == if i == |old(vars)| then Ok(None)
             else match Value(w, old(vars), i, args) case Ok(s) => Ok(Some(s)) case Failed(f) => Failed(f)
      decreases Budget(vars), 0, 0, 0
    {
      var i := Lookup(name);
      if i == |vars| {
        return Ok(None);
      }
      var v := vars[i];
      if args == [] && v.count > 0 {
        return Failed(SelfReference);
      }
      if v.count > MAX_DEPTH {
        return Failed(TooDeep);
      }
      if v.value.None? {
        return Failed(NoValue);
      }
      EnteringCosts(vars, i);
      vars := Entered(vars, i);
      if v.flavor.Recursive? {
        var res := ExpandWhole(v.value.value, args);
        if res.Failed? {
          return Failed(res.failure);
        }
        r := Ok(Some(res.value));
      } else {
        r := Ok(Some(v.value.value));
      }
      vars := vars[i := vars[i].(count := vars[i].count - 1)];
    }

    /** A definition. */
    method Add(name: string, value: string, how: Assignment) returns (failure: Option<Failure>)
      requires Counted(vars)
      modifies this`vars
      ensures match Added(w, old(vars), name, value, how)
        case Ok(vs) => failure == None && vars == vs
        case Failed(f) => failure == Some(f)
    {
      ghost var was := vars;
      var i := Lookup(name);
      if i < |vars| {
        var v := vars[i];
        vars := vars[i := v.(flavor := FlavorOf(how, v.flavor), value := if how.Append? then v.value else None)];
      } else {
        vars := vars + [Variable(name, None, FlavorOf(how, Recursive), 0)];
      }
      assert vars == Opened(was, name, how);
      var added := value;
      if vars[i].flavor.Simple? {
        var r := ExpandWhole(value, []);
        if r.Failed? {
          return Some(r.failure);
        }
        added := r.value;
      }
      vars := vars[i := vars[i].(value := Some(Joined(vars[i].value, added)))];
      failure := None;
    }

    /** A token that starts with references, up to the first separator. */
    method ExpandOneToken(text: string) returns (r: Reading)
      requires Counted(vars)
      modifies this`vars
      ensures r == Expand(w, old(vars), text, IsEndOfToken, []) && (r.Ok? ==> vars == old(vars))
    {
      r := ExpandString(text, IsEndOfToken, []);
    }
  }

  function Before(done: seq<string>, words: Outcome<seq<string>>): Outcome<seq<string>> {
    match words
    case Ok(ws) => Ok(done + ws)
    case Failed(f) => Failed(f)
  }

  lemma BeforeNothing(words: Outcome<seq<string>>)
    ensures Before([], words) == words
  {
    if words.Ok? {
      assert [] + words.value == words.value;
    }
  }

  lemma BeforeTwice(done: seq<string>, s: string, words: Outcome<seq<string>>)
    ensures Before(done, Before([s], words)) == Before(done + [s], words)
  {
    if words.Ok? {
      assert done + ([s] + words.value) == done + [s] + words.value;
    }
  }

  // ---- Definitions -------------------------------------------------------------------------------

  function FlavorOf(how: Assignment, inherited: Flavor): Flavor {
    match how
    case SetSimple => Simple
    case SetRecursive => Recursive
    case Append => inherited
  }

  /** The variables while the value of a definition is being expanded: the defined one has lost its
      value, unless the definition appends to it. */
  function Opened(vars: Variables, name: string, how: Assignment): (r: Variables)
    ensures Find(vars, name) < |r|
    ensures Counted(vars) ==> Counted(r)
  {
    var i := Find(vars, name);
    if i < |vars| then
      var v := vars[i];
      vars[i := v.(flavor := FlavorOf(how, v.flavor), value := if how.Append? then v.value else None)]
    else vars + [Variable(name, None, FlavorOf(how, Recursive), 0)]
  }

  function Joined(before: Option<string>, added: string): string {
    if before.Some? then before.value + " " + added else added
  }

  /** variable_add. */
  function Added(w: World, vars: Variables, name: string, value: string, how: Assignment): Outcome<Variables>
    requires Counted(vars)
  {
    var i, vs := Find(vars, name), Opened(vars, name, how);
    var added := if vs[i].flavor.Simple? then ExpandAll(w, vs, value, []) else Ok(value);
    match added
    case Failed(f) => Failed(f)
    case Ok(s) => Ok(vs[i := vs[i].(value := Some(Joined(vs[i].value, s)))])
  }

  /** A := definition takes the expansion of its text at once, and that is what it stands for from
      then on, however the other variables change. */
  lemma SimpleDefinition(w: World, vars: Variables, name: string, value: string, later: Variables)
    requires Counted(vars) && Added(w, vars, name, value, SetSimple).Ok?
    requires var i := Find(vars, name);
      Counted(later) && Find(later, name) == i < |later| && later[i] == Added(w, vars, name, value, SetSimple).value[i]
      && later[i].count == 0
    ensures Call(w, later, name, []) == ExpandAll(w, Opened(vars, name, SetSimple), value, [])
    ensures Find(vars, name) < |vars| ==> Call(w, later, name, []) == ExpandAll(w, vars, value, [])
  {
    var i := Find(vars, name);
    if i < |vars| {
      CountersOnlyFail(w, vars, Opened(vars, name, SetSimple), false, value, Never(), []);
    }
  }

  /** A = definition keeps its text and stands for whatever that expands to when it is used, success or
      error; only where the text comes back to the name itself, or counters run out, is it an error of
      theirs instead. */
  lemma RecursiveDefinition(w: World, vars: Variables, name: string, value: string, later: Variables)
    requires Counted(vars) && Added(w, vars, name, value, SetRecursive).Ok?
    requires var i := Find(vars, name);
      Counted(later) && Find(later, name) == i < |later| && later[i] == Added(w, vars, name, value, SetRecursive).value[i]
      && later[i].count == 0
    ensures Call(w, later, name, []) == ExpandAll(w, Entered(later, Find(vars, name)), value, [])
    ensures Stricter(Call(w, later, name, []), ExpandAll(w, later, value, []), true)
  {
    var i := Find(vars, name);
    EnteringCosts(later, i);
    CountersOnlyFail(w, later, Entered(later, i), true, value, Never(), []);
  }
}
