/** The memoised evaluator of scripts/config/symbol.c: sym_calc_value and its helpers over one
    mutable symbol table, user writes and invalidation. */
module SymbolTables {
  import opened Tristate
  import opened Exprs
  import opened Options
  import opened Symbols

  /** sym_tristate_within_range for a symbol outside choices. */
  predicate WithinRange(s: Sym, st: SymState, val: Tri, modules: bool) {
    && st.visible != NO
    && s.IsTristateLike()
    && !(ActsAsBool(s, modules) && val == MOD)
    && st.visible > st.revDep
    && !(st.implied == YES && val == MOD)
    && st.revDep <= val <= st.visible
  }

  /** The value that an accepted or equal user value has once it is recalculated. */
  function Recalculated(s: Sym, st: SymState, val: Tri, modules: bool): Tri {
    if st.visible == NO then st.curr.tri
    else FinalTri(s, And(val, st.visible), st.dirDep, st.revDep, st.implied, modules)
  }

  function WithUser(user: UserValues, s: Sym, val: Tri): UserValues {
    user[s := if s in user then user[s].(tri := val) else SymVal("", val)]
  }

  /** How a user value enters the calculation of one symbol, all other values being equal. */
  lemma ComputeWithUser(s: Sym, d: Definition, user: UserValues, val: Tri, env: Env)
    requires s.IsTristateLike()
    ensures var before, after :=
        Compute(s, d, UserValue(user, s), env), Compute(s, d, UserValue(WithUser(user, s, val), s), env);
      && after.visible == before.visible && after.dirDep == before.dirDep
      && after.revDep == before.revDep && after.implied == before.implied
      && after.curr.tri == Recalculated(s, before, val, env.modules)
      && (after == before || after.curr.tri != before.curr.tri)
  {
  }

  /** A user write moves neither the visibility nor the dependencies of the symbol itself, and its
      new value is the recalculated one. */
  lemma WriteMovesOnlyValue(g: Graph, modules: bool, user: UserValues, rank: Sym -> nat, s: Sym, val: Tri)
    requires Ranked(g, rank) && s in g && s.IsTristateLike()
    ensures var before, after :=
        Spec(g, modules, user, rank, s), Spec(g, modules, WithUser(user, s, val), rank, s);
      && after.visible == before.visible && after.dirDep == before.dirDep
      && after.revDep == before.revDep && after.implied == before.implied
      && after.curr.tri == Recalculated(s, before, val, modules)
      && (after == before || after.curr.tri != before.curr.tri)
  {
    var user' := WithUser(user, s, val);
    var env, env' := SpecEnv(g, modules, user, rank), SpecEnv(g, modules, user', rank);
    SpecIsFixpoint(g, modules, user, rank, s);
    SpecIsFixpoint(g, modules, user', rank, s);
    forall x | x in Deps(g[s])
      ensures Spec(g, modules, user, rank, x) == Spec(g, modules, user', rank, x)
    {
      SpecIgnoresHigherUsers(g, modules, user, user', rank, x);
    }
    ComputeReadsDeps(s, g[s], UserValue(user', s), env, env');
    ComputeWithUser(s, g[s], user, val, env);
  }

  /** A write that passes the range test sticks exactly when the symbol's own dependencies hold or
      nothing selects it. */
  lemma WriteSticks(g: Graph, modules: bool, user: UserValues, rank: Sym -> nat, s: Sym, val: Tri)
    requires Ranked(g, rank) && s in g
    requires WithinRange(s, Spec(g, modules, user, rank, s), val, modules)
    ensures var before := Spec(g, modules, user, rank, s);
      Spec(g, modules, WithUser(user, s, val), rank, s).curr.tri == val
      <==> before.dirDep != NO || before.revDep == NO
  {
    WriteMovesOnlyValue(g, modules, user, rank, s, val);
  }

  /** Equal states before and after leave every other symbol as it was. */
  lemma {:induction false} UnmovedSymbolMovesNothing(
    g: Graph, modules: bool, user: UserValues, rank: Sym -> nat, s: Sym, val: Tri, x: Sym)
    requires Ranked(g, rank) && s in g
    requires Spec(g, modules, WithUser(user, s, val), rank, s) == Spec(g, modules, user, rank, s)
    ensures Spec(g, modules, WithUser(user, s, val), rank, x) == Spec(g, modules, user, rank, x)
    decreases rank(x)
  {
    if x in g && x != s {
      var user' := WithUser(user, s, val);
      forall y | y in Deps(g[x])
        ensures Spec(g, modules, user', rank, y) == Spec(g, modules, user, rank, y)
      {
        UnmovedSymbolMovesNothing(g, modules, user, rank, s, val, y);
      }
      SpecIsFixpoint(g, modules, user, rank, x);
      SpecIsFixpoint(g, modules, user', rank, x);
      ComputeReadsDeps(x, g[x], UserValue(user, x), SpecEnv(g, modules, user', rank), SpecEnv(g, modules, user, rank));
    }
  }

  lemma SpecSolves(g: Graph, modules: bool, user: UserValues, rank: Sym -> nat)
    requires Ranked(g, rank)
    ensures Solves(g, modules, user, s => Spec(g, modules, user, rank, s))
  {
    var f := s => Spec(g, modules, user, rank, s);
    forall s | s in g
      ensures f(s) == Compute(s, g[s], UserValue(user, s), EnvOf(modules, f))
    {
      SpecIsFixpoint(g, modules, user, rank, s);
      ComputeReadsDeps(s, g[s], UserValue(user, s), SpecEnv(g, modules, user, rank), EnvOf(modules, f));
    }
  }

  lemma ComputeTristate(s: Sym, d: Definition, user: Option<SymVal>, env: Env)
    requires s.IsTristateLike()
    ensures var v, dd, r, i := Visibility(s, d, env), DirDep(s, d, env), RevDep(s, d, env), Implied(s, d, env);
      Compute(s, d, user, env) ==
        SymState(v, dd, r, i, SymVal("n", FinalTri(s, OwnTri(d, user, v, i, env), dd, r, i, env.modules)),
                 Written(s, d, user, v, r, i, env))
  {
  }

  lemma ComputeString(s: Sym, d: Definition, user: Option<SymVal>, env: Env)
    requires !s.IsTristateLike()
    ensures var v, dd, r, i := Visibility(s, d, env), DirDep(s, d, env), RevDep(s, d, env), Implied(s, d, env);
      Compute(s, d, user, env) ==
        SymState(v, dd, r, i, SymVal(OwnVal(d, user, v, env), NO), Written(s, d, user, v, r, i, env))
  {
  }

  lemma SolvesAt(g: Graph, modules: bool, user: UserValues, f: Sym -> SymState, s: Sym)
    requires Solves(g, modules, user, f) && s in g
    ensures f(s) == Compute(s, g[s], UserValue(user, s), EnvOf(modules, f))
  {
  }

  /** The caches hold the specified states. */
  ghost predicate CachesRight(
    g: Graph, modules: bool, user: UserValues, rank: Sym -> nat, valid: set<Sym>, state: map<Sym, SymState>)
    requires valid <= state.Keys
  {
    forall x | x in valid :: state[x] == Spec(g, modules, user, rank, x)
  }

  /** A write equal to the cached value leaves right caches right exactly when recalculation would
      give that value again. */
  lemma EqualWrite(g: Graph, modules: bool, user: UserValues, rank: Sym -> nat,
                   valid: set<Sym>, state: map<Sym, SymState>, s: Sym, val: Tri)
    requires Ranked(g, rank) && s in g && s.IsTristateLike() && s in valid && valid <= state.Keys
    requires CachesRight(g, modules, user, rank, valid, state) && state[s].curr.tri == val
    ensures CachesRight(g, modules, WithUser(user, s, val), rank, valid, state)
            <==> Recalculated(s, state[s], val, modules) == val
  {
    WriteMovesOnlyValue(g, modules, user, rank, s, val);
    if Recalculated(s, state[s], val, modules) == val {
      forall x | x in valid
        ensures state[x] == Spec(g, modules, WithUser(user, s, val), rank, x)
      {
        UnmovedSymbolMovesNothing(g, modules, user, rank, s, val, x);
      }
    }
  }

  lemma FixedOutside(g: Graph, modules: bool, user: UserValues, rank: Sym -> nat, s: Sym)
    ensures s !in g ==> Spec(g, modules, user, rank, s).curr == FixedVal(s)
  {
  }

  class SymbolTable {
    const g: Graph
    const modules: bool
    const modulesSym: Sym
    ghost const rank: Sym -> nat

    var user: UserValues       // def[S_DEF_USER], present when SYMBOL_DEF_USER is set
    var valid: set<Sym>        // the symbols with SYMBOL_VALID
    var state: map<Sym, SymState>
    ghost var goal: Sym -> SymState  // the state every symbol ought to have

    /** VALID means that the cached state is the specified one. */
    ghost predicate Sound(s: Sym)
      requires state.Keys == g.Keys && valid <= g.Keys
      reads this
    {
      s in valid ==> state[s] == goal(s)
    }

    ghost predicate WellFormed()
      reads this
    {
      WellTyped(g) && Ranked(g, rank) && state.Keys == g.Keys && valid <= g.Keys
    }

    /** All caches of lower rank are right; those above may belong to calculations in progress. */
    ghost predicate SoundBelow(bound: nat)
      reads this
    {
      WellFormed() && Solves(g, modules, user, goal) && forall s | rank(s) < bound :: Sound(s)
    }

    ghost predicate Inv()
      reads this
    {
      WellFormed() && Solves(g, modules, user, goal) && forall s :: Sound(s)
    }

    constructor (g: Graph, modules: bool, modulesSym: Sym, ghost rank: Sym -> nat)
      requires WellTyped(g) && Ranked(g, rank)
      ensures Inv() && user == map[] && valid == {}
      ensures this.g == g && this.modules == modules && this.modulesSym == modulesSym && this.rank == rank
    {
      this.g := g;
      this.modules := modules;
      this.modulesSym := modulesSym;
      this.rank := rank;
      user, valid := map[], {};
      state := map s | s in g :: BLANK;
      goal := s => Spec(g, modules, map[], rank, s);
      SpecSolves(g, modules, map[], rank);
    }

    /** sym->curr */
    function Current(s: Sym): SymVal
      requires state.Keys == g.Keys
      reads this
    {
      if s in g then state[s].curr else FixedVal(s)
    }

    /** What a calculation confined to ranks below a bound leaves alone. */
    twostate predicate KeepsFrom(bound: nat)
      requires state.Keys == g.Keys == old(state.Keys)
      reads this
    {
      && user == old(user) && goal == old(goal) && old(valid) <= valid
      && forall s | s in g && rank(s) >= bound :: state[s] == old(state[s]) && (s in valid <==> s in old(valid))
    }

    /** expr_calc_value; both operands are always calculated. */
    method CalcExpr(e: Expr, ghost bound: nat) returns (t: Tri)
      requires SoundBelow(bound) && forall s | s in Syms(e) :: rank(s) < bound
      modifies this
      ensures SoundBelow(bound) && KeepsFrom(bound)
      ensures t == Val(e, EnvOf(modules, goal))
      decreases bound, 0, e
    {
      match e
      case Leaf(s) =>
        CalcValue(s, bound);
        t := Current(s).tri;
      case Neg(a) =>
        t := CalcExpr(a, bound);
        t := Not(t);
      case Bin(op, l, r) =>
        var t1 := CalcExpr(l, bound);
        var t2 := CalcExpr(r, bound);
        t := op.Apply(t1, t2);
      case Rel(rel, s1, s2) =>
        CalcValue(s1, bound);
        CalcValue(s2, bound);
        var str1 := StringOf(s1, Current(s1), modules);
        var str2 := StringOf(s2, Current(s2), modules);
        t := Truth(rel.Holds(CompareStrings(s1, str1, s2, str2)));
    }

    method CalcExprPtr(p: ExprPtr, absent: Tri, ghost bound: nat) returns (t: Tri)
      requires SoundBelow(bound) && forall s | s in SymsPtr(p) :: rank(s) < bound
      modifies this
      ensures SoundBelow(bound) && KeepsFrom(bound)
      ensures t == ValOr(p, absent, EnvOf(modules, goal))
      decreases bound, 1
    {
      t := absent;
      if p.Ptr? {
        t := CalcExpr(p.e, bound);
      }
    }

    /** sym_get_default_prop, returning the condition's value with the property. */
    method DefaultProp(props: seq<Property>, ghost bound: nat) returns (def: Option<Property>, cond: Tri)
      requires SoundBelow(bound) && forall s | s in PropSyms(props) :: rank(s) < bound
      modifies this
      ensures SoundBelow(bound) && KeepsFrom(bound)
      ensures def == FirstDefault(props, EnvOf(modules, goal))
      ensures def.Some? ==> cond == ValPtr(def.value.cond, EnvOf(modules, goal))
      decreases bound, 2
    {
      for i := 0 to |props|
        invariant SoundBelow(bound) && KeepsFrom(bound)
        invariant forall s | s in PropSyms(props[i..]) :: rank(s) < bound
        invariant FirstDefault(props, EnvOf(modules, goal)) == FirstDefault(props[i..], EnvOf(modules, goal))
      {
        assert props[i..][0] == props[i] && props[i..][1..] == props[i + 1..];
        if props[i].kind.Default? {
          cond := CalcExprPtr(props[i].cond, YES, bound);
          if cond != NO {
            return Some(props[i]), cond;
          }
        }
      }
      return None, NO;
    }

    /** The prompt loop of sym_calc_visibility. */
    method AnyPromptVisible(props: seq<Property>, ghost bound: nat) returns (tri: Tri)
      requires SoundBelow(bound) && forall s | s in PropSyms(props) :: rank(s) < bound
      modifies this
      ensures SoundBelow(bound) && KeepsFrom(bound)
      ensures tri == AnyPrompt(props, EnvOf(modules, goal))
      decreases bound, 2
    {
      tri := NO;
      for i := 0 to |props|
        invariant SoundBelow(bound) && KeepsFrom(bound)
        invariant forall s | s in PropSyms(props[i..]) :: rank(s) < bound
        invariant Or(tri, AnyPrompt(props[i..], EnvOf(modules, goal)))
                  == AnyPrompt(props, EnvOf(modules, goal))
      {
        assert props[i..][0] == props[i] && props[i..][1..] == props[i + 1..];
        if props[i].kind.Prompt? {
          var t := CalcExprPtr(props[i].cond, YES, bound);
          tri := Or(tri, t);
        }
      }
    }

    /** Only the state of one symbol among those of its rank and above has changed. */
    twostate predicate KeepsOthers(s: Sym)
      requires state.Keys == g.Keys == old(state.Keys)
      reads this
    {
      && user == old(user) && goal == old(goal) && old(valid) <= valid
      && forall x | x in g && rank(x) >= rank(s) ::
           (x != s ==> state[x] == old(state[x])) && (x in valid <==> x in old(valid))
    }

    /** Overwrites the fields of one symbol. */
    method Store(s: Sym, st: SymState)
      requires SoundBelow(rank(s)) && s in g
      modifies this`state
      ensures SoundBelow(rank(s)) && KeepsOthers(s) && state[s] == st && valid == old(valid)
    {
      state := state[s := st];
    }

    /** The four stages of sym_calc_visibility: prompts, direct, reverse and weak dependencies. */
    method StoreVisible(s: Sym)
      requires SoundBelow(rank(s)) && s in g
      modifies this
      ensures SoundBelow(rank(s)) && KeepsOthers(s)
      ensures state[s] == old(state[s]).(visible := Visibility(s, g[s], EnvOf(modules, goal)))
      decreases rank(s), 3
    {
      var tri := AnyPromptVisible(g[s].props, rank(s));
      if tri == MOD && (s.Type() != Tristate || !modules) {
        tri := YES;
      }
      Store(s, state[s].(visible := tri));
    }

    method StoreDirDep(s: Sym)
      requires SoundBelow(rank(s)) && s in g
      modifies this
      ensures SoundBelow(rank(s)) && KeepsOthers(s)
      ensures state[s] == old(state[s]).(dirDep := DirDep(s, g[s], EnvOf(modules, goal)))
      decreases rank(s), 3
    {
      var tri := CalcExprPtr(g[s].dirDep, YES, rank(s));
      Store(s, state[s].(dirDep := Promote(s, tri, modules)));
    }

    method StoreRevDep(s: Sym)
      requires SoundBelow(rank(s)) && s in g
      modifies this
      ensures SoundBelow(rank(s)) && KeepsOthers(s)
      ensures state[s] == old(state[s]).(revDep := RevDep(s, g[s], EnvOf(modules, goal)))
      decreases rank(s), 3
    {
      var tri := CalcExprPtr(g[s].revDep, NO, rank(s));
      Store(s, state[s].(revDep := Promote(s, tri, modules)));
    }

    method StoreImplied(s: Sym)
      requires SoundBelow(rank(s)) && s in g
      requires state[s].dirDep == DirDep(s, g[s], EnvOf(modules, goal))
      modifies this
      ensures SoundBelow(rank(s)) && KeepsOthers(s)
      ensures state[s] == old(state[s]).(implied := Implied(s, g[s], EnvOf(modules, goal)))
      decreases rank(s), 3
    {
      var tri := NO;
      if state[s].dirDep != NO {
        tri := CalcExprPtr(g[s].implied, NO, rank(s));
      }
      Store(s, state[s].(implied := Promote(s, tri, modules)));
    }

    /** sym_calc_visibility for a symbol outside choices. */
    method CalcVisibility(s: Sym)
      requires SoundBelow(rank(s)) && s in g
      modifies this
      ensures SoundBelow(rank(s)) && KeepsOthers(s)
      ensures var d, env := g[s], EnvOf(modules, goal);
        state[s] == old(state[s]).(visible := Visibility(s, d, env), dirDep := DirDep(s, d, env),
                                   revDep := RevDep(s, d, env), implied := Implied(s, d, env))
      decreases rank(s), 4
    {
      StoreVisible(s);
      StoreDirDep(s);
      StoreRevDep(s);
      StoreImplied(s);
    }

    /** The user value, or else the first default raised to the weak reverse dependency. */
    method CalcOwnTri(s: Sym, visible: Tri, revDep: Tri, implied: Tri) returns (t: Tri, write: bool)
      requires SoundBelow(rank(s)) && s in g && s.IsTristateLike()
      modifies this
      ensures SoundBelow(rank(s)) && KeepsFrom(rank(s))
      ensures t == OwnTri(g[s], UserValue(user, s), visible, implied, EnvOf(modules, goal))
      ensures write == Written(s, g[s], UserValue(user, s), visible, revDep, implied, EnvOf(modules, goal))
      decreases rank(s), 4
    {
      t, write := NO, visible != NO;
      if visible != NO && s in user {
        t := And(user[s].tri, visible);
        return;
      }
      write := write || revDep != NO;
      var def, cond := DefaultProp(g[s].props, rank(s));
      if def.Some? {
        write := true;
        PropsAgree(g[s].props, EnvOf(modules, goal), EnvOf(modules, goal));
        t := CalcExprPtr(def.value.value, YES, rank(s));
        t := And(t, cond);
      }
      if implied != NO {
        write := true;
        t := Or(t, implied);
      }
    }

    /** The user value of a string, int or hex symbol, or else its first default. */
    method CalcOwnVal(s: Sym) returns (val: string, write: bool)
      requires SoundBelow(rank(s)) && s in g && !s.IsTristateLike()
      requires state[s].visible == Visibility(s, g[s], EnvOf(modules, goal))
      modifies this
      ensures SoundBelow(rank(s)) && KeepsFrom(rank(s))
      ensures var d, env, st := g[s], EnvOf(modules, goal), state[s];
        && val == OwnVal(d, UserValue(user, s), st.visible, env)
        && write == Written(s, d, UserValue(user, s), st.visible, st.revDep, st.implied, env)
      decreases rank(s), 4
    {
      var st := state[s];
      val, write := "", st.visible != NO;
      if st.visible != NO && s in user {
        val := user[s].val;
      } else {
        var def, _ := DefaultProp(g[s].props, rank(s));
        if def.Some? && def.value.value.Ptr? && def.value.value.e.Leaf? {
          write := true;
          PropsAgree(g[s].props, EnvOf(modules, goal), EnvOf(modules, goal));
          CalcValue(def.value.value.e.sym, rank(s));
          val := Current(def.value.value.e.sym).val;
        }
      }
    }

    /** The last steps of the bool and tristate case. */
    method Settle(s: Sym, own: Tri, dirDep: Tri, revDep: Tri, implied: Tri) returns (t: Tri)
      ensures t == FinalTri(s, own, dirDep, revDep, implied, modules)
    {
      if dirDep == NO && revDep != NO {
        t := NO;
      } else {
        t := Or(own, revDep);
      }
      if t == MOD && (ActsAsBool(s, modules) || implied == YES) {
        t := YES;
      }
    }

    /** The bool and tristate case of sym_calc_value, after the visibility is known. */
    method CalcTristate(s: Sym)
      requires SoundBelow(rank(s)) && s in g && s.IsTristateLike()
      requires var d, env, st := g[s], EnvOf(modules, goal), state[s];
        && st.visible == Visibility(s, d, env) && st.dirDep == DirDep(s, d, env)
        && st.revDep == RevDep(s, d, env) && st.implied == Implied(s, d, env)
      modifies this
      ensures SoundBelow(rank(s)) && KeepsOthers(s)
      ensures state[s] == Compute(s, g[s], UserValue(user, s), EnvOf(modules, goal))
      decreases rank(s), 5
    {
      var st := state[s];
      Store(s, st.(write := st.visible != NO, curr := SymVal("n", NO)));
      var own, write := CalcOwnTri(s, st.visible, st.revDep, st.implied);
      var t := Settle(s, own, st.dirDep, st.revDep, st.implied);
      Store(s, st.(write := write, curr := SymVal("n", t)));
      ComputeTristate(s, g[s], UserValue(user, s), EnvOf(modules, goal));
    }

    /** The string, int and hex case. */
    method CalcString(s: Sym)
      requires SoundBelow(rank(s)) && s in g && !s.IsTristateLike()
      requires var d, env, st := g[s], EnvOf(modules, goal), state[s];
        && st.visible == Visibility(s, d, env) && st.dirDep == DirDep(s, d, env)
        && st.revDep == RevDep(s, d, env) && st.implied == Implied(s, d, env)
      modifies this
      ensures SoundBelow(rank(s)) && KeepsOthers(s)
      ensures state[s] == Compute(s, g[s], UserValue(user, s), EnvOf(modules, goal))
      decreases rank(s), 5
    {
      var st := state[s];
      Store(s, st.(write := st.visible != NO, curr := SymVal("", NO)));
      var val, write := CalcOwnVal(s);
      Store(s, st.(write := write, curr := SymVal(val, NO)));
      ComputeString(s, g[s], UserValue(user, s), EnvOf(modules, goal));
    }

    /** The body of sym_calc_value, between setting VALID and using the result: the whole state of the
        symbol is what the values of its dependencies make it. */
    method CalcState(s: Sym)
      requires SoundBelow(rank(s)) && s in g
      modifies this
      ensures SoundBelow(rank(s)) && KeepsOthers(s)
      ensures state[s] == Compute(s, g[s], UserValue(user, s), EnvOf(modules, goal))
      decreases rank(s), 6
    {
      Store(s, state[s].(write := false));
      CalcVisibility(s);
      if s.IsTristateLike() {
        CalcTristate(s);
      } else {
        CalcString(s);
      }
    }

    /** sym_calc_value for a symbol outside choices. VALID is set before the calculation starts. */
    method CalcValue(s: Sym, ghost bound: nat)
      requires SoundBelow(bound) && rank(s) < bound
      modifies this
      ensures SoundBelow(bound) && KeepsFrom(bound)
      ensures Current(s) == goal(s).curr
      ensures s in g ==> s in valid && state[s] == goal(s)
      decreases rank(s), 7
    {
      if s !in g {
        return;
      }
      if s in valid {
        assert Sound(s);
        return;
      }
      valid := valid + {s};
      CalcState(s);
      SolvesAt(g, modules, user, goal, s);
      assert state[s] == goal(s);
      forall x | rank(s) <= rank(x) < bound
        ensures Sound(x)
      {
        assert old(Sound(x));
      }
    }

    /** The invariant in terms of the specification. */
    lemma InvMeansSpec()
      requires WellFormed() && Solves(g, modules, user, goal)
      ensures Inv() <==> CachesRight(g, modules, user, rank, valid, state)
      ensures forall s :: goal(s) == Spec(g, modules, user, rank, s)
    {
      forall s
        ensures goal(s) == Spec(g, modules, user, rank, s)
      {
        SpecIsUnique(g, modules, user, rank, goal, s);
      }
      if CachesRight(g, modules, user, rank, valid, state) {
        forall s
          ensures Sound(s)
        {
        }
      }
      if Inv() {
        forall s | s in valid
          ensures state[s] == Spec(g, modules, user, rank, s)
        {
          assert Sound(s);
        }
      }
    }

    method EnsureValid(s: Sym)
      requires Inv()
      modifies this
      ensures Inv() && user == old(user) && old(valid) <= valid
      ensures s in g ==> s in valid
    {
      assert SoundBelow(rank(s) + 1) by {
        forall x
          ensures Sound(x)
        {
        }
      }
      CalcValue(s, rank(s) + 1);
      forall x
        ensures Sound(x)
      {
        assert old(Sound(x));
      }
    }

    /** A call of sym_calc_value from outside: the value is the specified one. */
    method Calculate(s: Sym)
      requires Inv()
      modifies this
      ensures Inv() && user == old(user) && old(valid) <= valid
      ensures Current(s) == Spec(g, modules, user, rank, s).curr
      ensures s in g ==> s in valid && state[s] == Spec(g, modules, user, rank, s)
      ensures CachesRight(g, modules, user, rank, valid, state)
    {
      EnsureValid(s);
      InvMeansSpec();
      FixedOutside(g, modules, user, rank, s);
    }

    lemma AllCurrent(order: seq<Sym>)
      requires Inv() && forall j | 0 <= j < |order| :: order[j] in g ==> order[j] in valid
      ensures forall j | 0 <= j < |order| :: Current(order[j]) == Spec(g, modules, user, rank, order[j]).curr
    {
      InvMeansSpec();
      forall j | 0 <= j < |order|
        ensures Current(order[j]) == Spec(g, modules, user, rank, order[j]).curr
      {
        FixedOutside(g, modules, user, rank, order[j]);
      }
    }

    /** The calculation loop of conf_read over all symbols, in whatever order the hash table gives. */
    method CalculateAll(order: seq<Sym>)
      requires Inv()
      modifies this
      ensures Inv() && user == old(user)
      ensures forall j | 0 <= j < |order| :: Current(order[j]) == Spec(g, modules, user, rank, order[j]).curr
    {
      for i := 0 to |order|
        invariant Inv() && user == old(user)
        invariant forall j | 0 <= j < i :: order[j] in g ==> order[j] in valid
      {
        EnsureValid(order[i]);
      }
      AllCurrent(order);
    }

    /** sym_clear_all_valid */
    method ClearAllValid()
      requires WellFormed()
      modifies this
      ensures Inv() && user == old(user)
    {
      valid := {};
      ghost var writes := user;
      goal := s => Spec(g, modules, writes, rank, s);
      SpecSolves(g, modules, user, rank);
      Calculate(modulesSym);
    }

    /** sym_set_tristate_value for a symbol outside choices whose state has been calculated. A write
        that changes the value is refused outside the range and otherwise invalidates every cache. A
        write equal to the current value skips both, and the caches stay right exactly when
        recalculation would give that value again. */
    method SetTristateValue(s: Sym, val: Tri) returns (ok: bool)
      requires Inv() && s in g && s in valid && s.IsTristateLike()
      modifies this
      ensures WellFormed()
      ensures ok == (old(state[s].curr.tri) == val || WithinRange(s, old(state[s]), val, modules))
      ensures !ok ==> user == old(user) && valid == old(valid) && state == old(state) && Inv()
      ensures ok ==> user == WithUser(old(user), s, val)
      ensures old(state[s].curr.tri) != val ==> Inv()
      ensures ok && old(state[s].curr.tri) == val ==>
        && valid == old(valid) && state == old(state)
        && (CachesRight(g, modules, user, rank, valid, state)
            <==> Recalculated(s, old(state[s]), val, modules) == val)
    {
      InvMeansSpec();
      var oldval := state[s].curr.tri;
      if oldval != val && !WithinRange(s, state[s], val, modules) {
        return false;
      }
      EqualWriteIf(s, val);
      user := WithUser(user, s, val);
      if oldval != val {
        ClearAllValid();
      }
      return true;
    }

    lemma EqualWriteIf(s: Sym, val: Tri)
      requires WellFormed() && CachesRight(g, modules, user, rank, valid, state)
      requires s in g && s in valid && s.IsTristateLike()
      ensures state[s].curr.tri == val ==>
        (CachesRight(g, modules, WithUser(user, s, val), rank, valid, state)
         <==> Recalculated(s, state[s], val, modules) == val)
    {
      if state[s].curr.tri == val {
        EqualWrite(g, modules, user, rank, valid, state, s, val);
      }
    }

    /** An accepted write followed by a calculation: the symbol holds the written value, provided its
        own dependencies hold or nothing selects it. */
    method SetAndRead(s: Sym, val: Tri) returns (ok: bool, t: Tri)
      requires Inv() && s in g && s in valid && s.IsTristateLike() && val != state[s].curr.tri
      modifies this
      ensures Inv()
      ensures ok <==> WithinRange(s, old(state[s]), val, modules)
      ensures ok ==> (t == val <==> old(state[s].dirDep) != NO || old(state[s].revDep) == NO)
      ensures !ok ==> t == old(state[s].curr.tri)
    {
      InvMeansSpec();
      ghost var before := user;
      ok := SetTristateValue(s, val);
      Calculate(s);
      t := Current(s).tri;
      if ok {
        WriteSticks(g, modules, before, rank, s, val);
      }
    }
  }
}
