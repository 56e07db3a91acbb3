/** Calculating again from calculated values, as conf_read does with what conf_write has saved. */
module Reload {
  import opened Tristate
  import opened Exprs
  import opened Options
  import opened Symbols

  /** Every visible symbol has got the value it was calculated to as its user value; only what has no
      user value at all may be without one. The user values of invisible symbols do not matter. */
  ghost predicate Reloaded(g: Graph, modules: bool, user: UserValues, rank: Sym -> nat, loaded: UserValues) {
    forall s | s in g && Spec(g, modules, user, rank, s).visible != NO ::
      TakesOver(s, UserValue(user, s), Spec(g, modules, user, rank, s).curr, UserValue(loaded, s))
  }

  predicate TakesOver(s: Sym, user: Option<SymVal>, curr: SymVal, loaded: Option<SymVal>) {
    if loaded.None? then user.None?
    else if s.IsTristateLike() then loaded.value.tri == curr.tri
    else loaded.value.val == curr.val
  }

  /** A default has made the symbol y, though its prompt only allows m, and nothing else makes it y. */
  predicate AbovePrompt(s: Sym, st: SymState) {
    s.IsTristateLike() && st.visible == MOD && st.curr.tri == YES && st.revDep != YES && st.implied != YES
  }

  /** One symbol, all others being equal. */
  lemma RecomputeOne(s: Sym, d: Definition, user: Option<SymVal>, loaded: Option<SymVal>, env: Env)
    requires var st := Compute(s, d, user, env); st.visible != NO ==> TakesOver(s, user, st.curr, loaded)
    ensures Compute(s, d, loaded, env) == Compute(s, d, user, env)
            <==> !(loaded.Some? && AbovePrompt(s, Compute(s, d, user, env)))
    ensures loaded.Some? && AbovePrompt(s, Compute(s, d, user, env)) ==> Compute(s, d, loaded, env).curr.tri == MOD
  {
  }

  /** No symbol whose value was loaded stands above its prompt. */
  ghost predicate NoneAbovePrompt(g: Graph, modules: bool, user: UserValues, rank: Sym -> nat, loaded: UserValues) {
    forall s | s in g && s in loaded :: !AbovePrompt(s, Spec(g, modules, user, rank, s))
  }

  ghost predicate SameValue(g: Graph, modules: bool, user: UserValues, rank: Sym -> nat, loaded: UserValues, s: Sym) {
    Spec(g, modules, loaded, rank, s).curr == Spec(g, modules, user, rank, s).curr
  }

  lemma OneIsSame(g: Graph, modules: bool, user: UserValues, rank: Sym -> nat, loaded: UserValues, s: Sym)
    requires Ranked(g, rank) && Reloaded(g, modules, user, rank, loaded) && s in g
    requires forall x | x in Deps(g[s]) :: SameValue(g, modules, user, rank, loaded, x)
    ensures SameValue(g, modules, user, rank, loaded, s)
            <==> !(s in loaded && AbovePrompt(s, Spec(g, modules, user, rank, s)))
  {
    var env1, env2 := SpecEnv(g, modules, user, rank), SpecEnv(g, modules, loaded, rank);
    forall x | x in Deps(g[s])
      ensures env1.curr(x) == env2.curr(x)
    {
      assert SameValue(g, modules, user, rank, loaded, x);
    }
    SpecIsFixpoint(g, modules, user, rank, s);
    SpecIsFixpoint(g, modules, loaded, rank, s);
    ComputeReadsDeps(s, g[s], UserValue(loaded, s), env1, env2);
    RecomputeOne(s, g[s], UserValue(user, s), UserValue(loaded, s), env1);
  }

  lemma {:induction false} ReloadKeepsOne(
    g: Graph, modules: bool, user: UserValues, rank: Sym -> nat, loaded: UserValues, s: Sym)
    requires Ranked(g, rank) && Reloaded(g, modules, user, rank, loaded)
    requires NoneAbovePrompt(g, modules, user, rank, loaded)
    ensures SameValue(g, modules, user, rank, loaded, s)
    decreases rank(s)
  {
    if s in g {
      forall x | x in Deps(g[s])
        ensures SameValue(g, modules, user, rank, loaded, x)
      {
        ReloadKeepsOne(g, modules, user, rank, loaded, x);
      }
      OneIsSame(g, modules, user, rank, loaded, s);
    }
  }

  /** Loading the calculated values and calculating again gives every symbol the value it had, exactly
      when no loaded symbol stands above its prompt. */
  lemma ReloadKeepsValues(g: Graph, modules: bool, user: UserValues, rank: Sym -> nat, loaded: UserValues)
    requires Ranked(g, rank) && Reloaded(g, modules, user, rank, loaded)
    ensures (forall s :: SameValue(g, modules, user, rank, loaded, s)) <==> NoneAbovePrompt(g, modules, user, rank, loaded)
  {
    if NoneAbovePrompt(g, modules, user, rank, loaded) {
      forall s
        ensures SameValue(g, modules, user, rank, loaded, s)
      {
        ReloadKeepsOne(g, modules, user, rank, loaded, s);
      }
    }
    if forall s :: SameValue(g, modules, user, rank, loaded, s) {
      forall s | s in g && s in loaded
        ensures !AbovePrompt(s, Spec(g, modules, user, rank, s))
      {
        OneIsSame(g, modules, user, rank, loaded, s);
      }
    }
  }
}
