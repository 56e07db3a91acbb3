/** Results that span the expression optimiser, the menu tree and the symbol evaluator. */
module Configuration {
  import opened Tristate
  import opened Exprs
  import opened ExprDups
  import opened ExprSyms
  import opened ExprTransform
  import opened Options
  import opened Symbols
  import opened SymbolTables
  import opened MenuDeps
  import opened BuiltSymbols

  /** For a symbol that menu_finalize built, a write that passes the range test sticks, except exactly
      when something selects the symbol while its visible prompt was forgotten. */
  lemma BuiltSymbolKeepsWrite(g: Graph, modules: bool, user: UserValues, rank: Sym -> nat,
                              s: Sym, o: Origin, modulesSym: Sym, val: Tri)
    requires WellTyped(g) && Ranked(g, rank) && s in g && BuiltFrom(g[s], o, s.Type(), modulesSym)
    requires WithinRange(s, Spec(g, modules, user, rank, s), val, modules)
    ensures var env := SpecEnv(g, modules, user, rank);
      Spec(g, modules, WithUser(user, s, val), rank, s).curr.tri == val
      <==> !(Forgotten(o.sites, modulesSym, env) && Selected(o, modulesSym, env))
  {
    var env := SpecEnv(g, modules, user, rank);
    SpecEnvIsValid(g, modules, user, rank);
    SpecIsFixpoint(g, modules, user, rank, s);
    VisibleBuiltSymbol(s, g[s], o, modulesSym, env);
    SelectedBuiltSymbol(s, g[s], o, modulesSym, env);
    WriteSticks(g, modules, user, rank, s, val);
  }

  // A write that is accepted and lost. A is defined with a prompt and no dependencies, and once more
  // where it depends on X; X is n, and B, which is m, selects A.
  const A := Config("A", SymType.Tristate)
  const B := Config("B", SymType.Tristate)
  const X := Config("X", Boolean)

  function LostSites(): seq<Site> {
    [Site([], [Null]), Site([Ptr(Leaf(X))], [])]
  }

  function LostOrigin(): Origin {
    Origin(LostSites(), [Selector(B, [], Null)], [])
  }

  function LostGraph(modulesSym: Sym): Graph {
    map[A := Definition(DirectDep(LostSites(), modulesSym), ReverseDep([Selector(B, [], Null)], modulesSym), Null,
                        Prompts(LostSites(), SymType.Tristate, modulesSym)),
        B := Definition(Null, Null, Null, [Property(Default, Null, Ptr(Leaf(SymMod)))]),
        X := Definition(Null, Null, Null, [])]
  }

  function LostRank(s: Sym): nat {
    if s == A then 2 else if s == B || s == X then 1 else 0
  }

  lemma LostParts(modulesSym: Sym)
    ensures DirectDep(LostSites(), modulesSym) == Ptr(Leaf(X))
    ensures Prompts(LostSites(), SymType.Tristate, modulesSym) == [Property(Prompt, Null, Null)]
  {
    var first, second := Site([], [Null]), Site([Ptr(Leaf(X))], []);
    var sites := LostSites();
    assert sites[..1] == [first] && sites[1] == second && [first][..0] == [] && second.chain[..0] == [];
    assert NodeDep(first.chain, modulesSym) == Null;
    assert EliminateDups(Leaf(X)) == Leaf(X);
    assert NodeDep(second.chain, modulesSym) == Ptr(Leaf(X));
    assert DirectDep([first], modulesSym) == Null;
    assert SitePrompts(first, SymType.Tristate, modulesSym) == [Property(Prompt, Null, Null)];
    assert Prompts([first], SymType.Tristate, modulesSym) == [Property(Prompt, Null, Null)];
    assert SitePrompts(second, SymType.Tristate, modulesSym) == [];
  }

  lemma LostDefinition(modulesSym: Sym)
    ensures var d := LostGraph(modulesSym)[A];
      && d == Definition(Ptr(Leaf(X)), Ptr(Leaf(B)), Null, [Property(Prompt, Null, Null)])
      && BuiltFrom(d, LostOrigin(), SymType.Tristate, modulesSym)
  {
    var sel := Selector(B, [], Null);
    assert [sel][..0] == [] && ReverseDep([], modulesSym) == Null;
    assert SelectorDep(sel, modulesSym) == Ptr(Leaf(B));
    assert ReverseDep([sel], modulesSym) == Ptr(Leaf(B));
    LostParts(modulesSym);
  }

  lemma LostIsRanked(modulesSym: Sym)
    ensures Ranked(LostGraph(modulesSym), LostRank)
  {
    LostDefinition(modulesSym);
    var props, default := [Property(Prompt, Null, Null)], [Property(Default, Null, Ptr(Leaf(SymMod)))];
    assert props[1..] == [] && default[1..] == [] && PropSyms([]) == {};
    assert PropSyms(props) == {} && PropSyms(default) == {SymMod};
    var g := LostGraph(modulesSym);
    assert Deps(g[A]) == {X, B} && Deps(g[B]) == {SymMod} && Deps(g[X]) == {};
  }

  lemma BlankIsNo(s: Sym, env: Env)
    requires s.Type() == Boolean
    ensures Compute(s, Definition(Null, Null, Null, []), None, env).curr.tri == NO
  {
    assert FirstDefault([], env) == None && AnyPrompt([], env) == NO;
  }

  lemma DefaultIsMod(s: Sym, env: Env)
    requires s.Type() == SymType.Tristate && env.modules && env.curr(SymMod).tri == MOD
    ensures Compute(s, Definition(Null, Null, Null, [Property(Default, Null, Ptr(Leaf(SymMod)))]), None, env).curr.tri == MOD
  {
    var default := [Property(Default, Null, Ptr(Leaf(SymMod)))];
    assert FirstDefault(default, env) == Some(default[0]);
    assert default[1..] == [] && AnyPrompt(default, env) == NO;
  }

  lemma ForgottenState(s: Sym, d: Definition, env: Env)
    requires d == Definition(Ptr(Leaf(X)), Ptr(Leaf(B)), Null, [Property(Prompt, Null, Null)])
    requires s.Type() == SymType.Tristate && env.modules && env.curr(X).tri == NO && env.curr(B).tri == MOD
    ensures var st := Compute(s, d, None, env);
      st.visible == YES && st.dirDep == NO && st.revDep == MOD && st.implied == NO
  {
    assert d.props[1..] == [] && AnyPrompt([], env) == NO && AnyPrompt(d.props, env) == YES;
  }

  lemma LostConstants(modulesSym: Sym)
    ensures SpecEnv(LostGraph(modulesSym), true, map[], LostRank).curr(SymMod).tri == MOD
  {
    assert SymMod !in LostGraph(modulesSym);
  }

  lemma LostValues(modulesSym: Sym)
    ensures var env := SpecEnv(LostGraph(modulesSym), true, map[], LostRank);
      env.curr(X).tri == NO && env.curr(B).tri == MOD
  {
    var g := LostGraph(modulesSym);
    var env := SpecEnv(g, true, map[], LostRank);
    LostIsRanked(modulesSym);
    LostConstants(modulesSym);
    SpecIsFixpoint(g, true, map[], LostRank, X);
    BlankIsNo(X, env);
    SpecIsFixpoint(g, true, map[], LostRank, B);
    DefaultIsMod(B, env);
  }

  lemma LostState(modulesSym: Sym)
    ensures var st := Spec(LostGraph(modulesSym), true, map[], LostRank, A);
      st.visible == YES && st.dirDep == NO && st.revDep == MOD && st.implied == NO
  {
    var g := LostGraph(modulesSym);
    LostDefinition(modulesSym);
    LostIsRanked(modulesSym);
    LostValues(modulesSym);
    SpecIsFixpoint(g, true, map[], LostRank, A);
    ForgottenState(A, g[A], SpecEnv(g, true, map[], LostRank));
  }

  /** A forgotten prompt of a symbol selected at m: y is accepted and comes to nothing. */
  lemma ForgottenWrite(g: Graph, rank: Sym -> nat, s: Sym)
    requires Ranked(g, rank) && s in g && s.Type() == SymType.Tristate
    requires var st := Spec(g, true, map[], rank, s);
      st.visible == YES && st.dirDep == NO && st.revDep == MOD && st.implied == NO
    ensures WithinRange(s, Spec(g, true, map[], rank, s), YES, true)
    ensures Spec(g, true, WithUser(map[], s, YES), rank, s).curr.tri == NO
  {
    WriteMovesOnlyValue(g, true, map[], rank, s, YES);
  }

  lemma LostIsProper(modulesSym: Sym)
    ensures var g := LostGraph(modulesSym);
      WellTyped(g) && Ranked(g, LostRank) && BuiltFrom(g[A], LostOrigin(), A.Type(), modulesSym)
  {
    LostDefinition(modulesSym);
    LostIsRanked(modulesSym);
  }

  lemma LostWrite(modulesSym: Sym)
    ensures var g := LostGraph(modulesSym);
      && WithinRange(A, Spec(g, true, map[], LostRank, A), YES, true)
      && Spec(g, true, WithUser(map[], A, YES), LostRank, A).curr.tri == NO
  {
    LostIsRanked(modulesSym);
    LostState(modulesSym);
    ForgottenWrite(LostGraph(modulesSym), LostRank, A);
  }

  /** Writing y to A is within range, and A is n at the next calculation. */
  lemma AcceptedWriteIsLost(modulesSym: Sym)
    ensures var g := LostGraph(modulesSym);
      && WellTyped(g) && Ranked(g, LostRank) && BuiltFrom(g[A], LostOrigin(), A.Type(), modulesSym)
      && SpecEnv(g, true, map[], LostRank).curr(B).tri == MOD
      && WithinRange(A, Spec(g, true, map[], LostRank, A), YES, true)
      && Spec(g, true, WithUser(map[], A, YES), LostRank, A).curr.tri == NO
  {
    LostIsProper(modulesSym);
    LostValues(modulesSym);
    LostWrite(modulesSym);
  }

  function OptimisePtr(p: ExprPtr): ExprPtr {
    if p.Null? then p else Ptr(EliminateDups(Transform(p.e)))
  }

  /** Default values of string symbols are read as single symbols, so only conditions are rewritten. */
  function OptimiseProps(props: seq<Property>): seq<Property> {
    if props == [] then []
    else [props[0].(cond := OptimisePtr(props[0].cond))] + OptimiseProps(props[1..])
  }

  function OptimiseDefinition(d: Definition): Definition {
    Definition(OptimisePtr(d.dirDep), OptimisePtr(d.revDep), OptimisePtr(d.implied), OptimiseProps(d.props))
  }

  function Optimise(g: Graph): Graph {
    map s | s in g :: OptimiseDefinition(g[s])
  }

  predicate PlainDefinition(d: Definition) {
    && PlainPtr(d.dirDep) && PlainPtr(d.revDep) && PlainPtr(d.implied)
    && forall p | p in d.props :: PlainPtr(p.cond)
  }

  lemma OptimisePtrKeepsValue(p: ExprPtr, env: Env)
    requires ValidEnv(env) && PlainPtr(p)
    ensures ValPtr(OptimisePtr(p), env) == ValPtr(p, env)
    ensures ValOr(OptimisePtr(p), NO, env) == ValOr(p, NO, env)
  {
    if p.Ptr? {
      TransformKeepsValue(p.e, env);
      TransformKeepsPlainConsts(p.e);
      EliminateDupsKeepsValue(Transform(p.e), env);
    }
  }

  lemma {:induction false} OptimisePropsKeepValues(props: seq<Property>, env: Env)
    requires ValidEnv(env) && forall p | p in props :: PlainPtr(p.cond)
    ensures AnyPrompt(OptimiseProps(props), env) == AnyPrompt(props, env)
    ensures var before, after := FirstDefault(props, env), FirstDefault(OptimiseProps(props), env);
      && (before.Some? <==> after.Some?)
      && (before.Some? ==> after.value.value == before.value.value
                           && ValPtr(after.value.cond, env) == ValPtr(before.value.cond, env))
  {
    if props != [] {
      assert props[0] in props;
      OptimisePtrKeepsValue(props[0].cond, env);
      OptimisePropsKeepValues(props[1..], env);
      assert OptimiseProps(props)[1..] == OptimiseProps(props[1..]);
    }
  }

  lemma OptimisedStateIsSame(s: Sym, d: Definition, user: Option<SymVal>, env: Env)
    requires ValidEnv(env) && PlainDefinition(d)
    ensures Compute(s, OptimiseDefinition(d), user, env) == Compute(s, d, user, env)
  {
    OptimisePtrKeepsValue(d.dirDep, env);
    OptimisePtrKeepsValue(d.revDep, env);
    OptimisePtrKeepsValue(d.implied, env);
    OptimisePropsKeepValues(d.props, env);
  }

  lemma OptimisePtrSyms(p: ExprPtr)
    ensures SymsPtr(OptimisePtr(p)) <= SymsPtr(p) + CONSTANTS
  {
    if p.Ptr? {
      OptimisedSyms(p.e);
    }
  }

  lemma {:induction false} OptimisePropsSyms(props: seq<Property>)
    ensures PropSyms(OptimiseProps(props)) <= PropSyms(props) + CONSTANTS
  {
    if props != [] {
      OptimisePtrSyms(props[0].cond);
      OptimisePropsSyms(props[1..]);
      assert OptimiseProps(props)[1..] == OptimiseProps(props[1..]);
    }
  }

  /** The constants below all symbols of the graph. */
  function Raised(g: Graph, rank: Sym -> nat): Sym -> nat {
    s => if s in g then rank(s) + 1 else 0
  }

  /** The optimised expressions mention no new symbols but constants, so they keep the order in which
      the symbols can be evaluated. */
  lemma OptimiseKeepsRank(g: Graph, rank: Sym -> nat)
    requires WellTyped(g) && Ranked(g, rank)
    ensures Ranked(Optimise(g), Raised(g, rank))
  {
    forall s, x | s in Optimise(g) && x in Deps(Optimise(g)[s])
      ensures Raised(g, rank)(x) < Raised(g, rank)(s)
    {
      var d := g[s];
      OptimisePtrSyms(d.dirDep);
      OptimisePtrSyms(d.revDep);
      OptimisePtrSyms(d.implied);
      OptimisePropsSyms(d.props);
      assert x in Deps(d) || x in CONSTANTS;
    }
  }

  /** Running expr_transform and expr_eliminate_dups over every dependency and condition of a
      configuration keeps it acyclic and changes no symbol's visibility, dependencies or value, for any
      user values. */
  lemma OptimiseIsTransparent(g: Graph, modules: bool, user: UserValues, rank: Sym -> nat, s: Sym)
    requires WellTyped(g) && Ranked(g, rank)
    requires forall x | x in g :: PlainDefinition(g[x])
    ensures Ranked(Optimise(g), Raised(g, rank))
    ensures Spec(Optimise(g), modules, user, Raised(g, rank), s) == Spec(g, modules, user, rank, s)
  {
    OptimiseKeepsRank(g, rank);
    var f := x => Spec(g, modules, user, rank, x);
    SpecSolves(g, modules, user, rank);
    SpecEnvIsValid(g, modules, user, rank);
    var env := EnvOf(modules, f);
    assert ValidEnv(env) by {
      forall x
        ensures ValidValue(x, env.curr(x), modules)
      {
        assert env.curr(x) == SpecEnv(g, modules, user, rank).curr(x);
      }
    }
    forall x | x in Optimise(g)
      ensures f(x) == Compute(x, Optimise(g)[x], UserValue(user, x), env)
    {
      SolvesAt(g, modules, user, f, x);
      OptimisedStateIsSame(x, g[x], UserValue(user, x), env);
    }
    SpecIsUnique(Optimise(g), modules, user, Raised(g, rank), f, s);
  }

  /** Why equal writes need the condition of SetTristateValue: with a prompt that is only m-visible
      and a default of y, writing y to a symbol that already is y makes it m at the next calculation. */
  lemma EqualWriteCanMoveValue()
    ensures var a := Config("A", Tristate);
      var g: Graph := map[a := Definition(Null, Null, Null,
        [Property(Prompt, Ptr(Leaf(SymMod)), Null), Property(Default, Null, Ptr(Leaf(SymYes)))])];
      var rank := (x: Sym) => if x == a then 1 else 0;
      && Ranked(g, rank)
      && Spec(g, true, map[], rank, a).curr.tri == YES
      && Spec(g, true, WithUser(map[], a, YES), rank, a).curr.tri == MOD
  {
    var a := Config("A", Tristate);
    var prompt, def := Property(Prompt, Ptr(Leaf(SymMod)), Null), Property(Default, Null, Ptr(Leaf(SymYes)));
    var d := Definition(Null, Null, Null, [prompt, def]);
    var g: Graph := map[a := d];
    var rank := (x: Sym) => if x == a then 1 else 0;
    assert d.props[1..] == [def] && [def][1..] == [];
    assert PropSyms([def]) == {SymYes} by { assert PropSyms([]) == {}; }
    assert PropSyms(d.props) == {SymMod, SymYes};
    assert Ranked(g, rank);
    var env := SpecEnv(g, true, map[], rank);
    assert env.curr(SymMod).tri == MOD && env.curr(SymYes).tri == YES;
    assert AnyPrompt([def], env) == NO && AnyPrompt(d.props, env) == MOD;
    assert FirstDefault([def], env) == Some(def) && FirstDefault(d.props, env) == Some(def);
    SpecIsFixpoint(g, true, map[], rank, a);
    WriteMovesOnlyValue(g, true, map[], rank, a, YES);
  }
}
