/** Configuration symbols and the value sym_calc_value of scripts/config/symbol.c assigns to them,
    as a recursive specification over an acyclic dependency graph. Symbols of choice groups are in
    module Choice. */
module Symbols {
  import opened Tristate
  import opened Exprs
  import opened Options

  /** enum prop_type, with P_COMMENT and P_MENU counted as prompts: all three carry a text. */
  datatype PropKind = Prompt | Default | Select | Imply | Range | OtherProp

  datatype Property = Property(kind: PropKind, cond: ExprPtr, value: ExprPtr)

  datatype Definition = Definition(dirDep: ExprPtr, revDep: ExprPtr, implied: ExprPtr, props: seq<Property>)

  /** The symbols that have a type; all others, constants and undefined names, never change. */
  type Graph = map<Sym, Definition>

  type UserValues = map<Sym, SymVal>

  function UserValue(user: UserValues, s: Sym): Option<SymVal> {
    if s in user then Some(user[s]) else None
  }

  /** The fields of struct symbol that sym_calc_value computes. */
  datatype SymState =
    SymState(visible: Tri, dirDep: Tri, revDep: Tri, implied: Tri, curr: SymVal, write: bool)

  predicate WellTyped(g: Graph) {
    forall s | s in g :: s.Config? && s.typ != Unknown
  }

  function SymsPtr(p: ExprPtr): set<Sym> {
    if p.Null? then {} else Syms(p.e)
  }

  /** The symbols an evaluation of the property list may read. */
  function PropSyms(props: seq<Property>): set<Sym> {
    if props == [] then {}
    else
      var p := props[0];
      var here := match p.kind
        case Prompt => SymsPtr(p.cond)
        case Default => SymsPtr(p.cond) + SymsPtr(p.value)
        case _ => {};
      here + PropSyms(props[1..])
  }

  function Deps(d: Definition): set<Sym> {
    SymsPtr(d.dirDep) + SymsPtr(d.revDep) + SymsPtr(d.implied) + PropSyms(d.props)
  }

  /** The dependency graph is acyclic, witnessed by a rank. */
  ghost predicate Ranked(g: Graph, rank: Sym -> nat) {
    forall s, x | s in g && x in Deps(g[s]) :: rank(x) < rank(s)
  }

  /** sym_get_type reports a bool. */
  predicate ActsAsBool(s: Sym, modules: bool) {
    s.Type() == Boolean || (s.Type() == Tristate && !modules)
  }

  function Promote(s: Sym, t: Tri, modules: bool): Tri {
    if t == MOD && ActsAsBool(s, modules) then YES else t
  }

  /** The disjunction of the prompt conditions. */
  function AnyPrompt(props: seq<Property>, env: Env): Tri {
    if props == [] then NO
    else
      var rest := AnyPrompt(props[1..], env);
      if props[0].kind.Prompt? then Or(ValPtr(props[0].cond, env), rest) else rest
  }

  /** sym_get_default_prop: the first default whose condition is not n. */
  function FirstDefault(props: seq<Property>, env: Env): Option<Property> {
    if props == [] then None
    else if props[0].kind.Default? && ValPtr(props[0].cond, env) != NO then Some(props[0])
    else FirstDefault(props[1..], env)
  }

  /** sym_calc_visibility */
  function Visibility(s: Sym, d: Definition, env: Env): Tri {
    var t := AnyPrompt(d.props, env);
    if t == MOD && (s.Type() != Tristate || !env.modules) then YES else t
  }

  function DirDep(s: Sym, d: Definition, env: Env): Tri {
    Promote(s, ValPtr(d.dirDep, env), env.modules)
  }

  function ValOr(p: ExprPtr, absent: Tri, env: Env): Tri {
    if p.Null? then absent else Val(p.e, env)
  }

  function RevDep(s: Sym, d: Definition, env: Env): Tri {
    Promote(s, ValOr(d.revDep, NO, env), env.modules)
  }

  function Implied(s: Sym, d: Definition, env: Env): Tri {
    Promote(s, if DirDep(s, d, env) != NO then ValOr(d.implied, NO, env) else NO, env.modules)
  }

  /** The value of a bool or tristate before it is weighed against the reverse dependency. */
  function OwnTri(d: Definition, user: Option<SymVal>, visible: Tri, implied: Tri, env: Env): Tri {
    if visible != NO && user.Some? then And(user.value.tri, visible)
    else
      var def := FirstDefault(d.props, env);
      var t := if def.Some? then And(ValPtr(def.value.value, env), ValPtr(def.value.cond, env)) else NO;
      if implied != NO then Or(t, implied) else t
  }

  function FinalTri(s: Sym, own: Tri, dirDep: Tri, revDep: Tri, implied: Tri, modules: bool): Tri {
    var t := if dirDep == NO && revDep != NO then NO else Or(own, revDep);
    if t == MOD && (ActsAsBool(s, modules) || implied == YES) then YES else t
  }

  /** The value of a string, int or hex symbol; a default that is not a single symbol is ignored. */
  function OwnVal(d: Definition, user: Option<SymVal>, visible: Tri, env: Env): string {
    if visible != NO && user.Some? then user.value.val
    else
      var def := FirstDefault(d.props, env);
      if def.Some? && def.value.value.Ptr? && def.value.value.e.Leaf? then env.curr(def.value.value.e.sym).val
      else ""
  }

  predicate Written(s: Sym, d: Definition, user: Option<SymVal>, visible: Tri, revDep: Tri, implied: Tri, env: Env) {
    if visible != NO then true
    else if s.IsTristateLike() then revDep != NO || FirstDefault(d.props, env).Some? || implied != NO
    else
      var def := FirstDefault(d.props, env);
      def.Some? && def.value.value.Ptr? && def.value.value.e.Leaf?
  }

  /** sym_calc_value for one symbol, given the values of all others. */
  function Compute(s: Sym, d: Definition, user: Option<SymVal>, env: Env): SymState {
    var visible, dirDep, revDep, implied :=
      Visibility(s, d, env), DirDep(s, d, env), RevDep(s, d, env), Implied(s, d, env);
    var curr :=
      if s.IsTristateLike() then
        SymVal("n", FinalTri(s, OwnTri(d, user, visible, implied, env), dirDep, revDep, implied, env.modules))
      else SymVal(OwnVal(d, user, visible, env), NO);
    SymState(visible, dirDep, revDep, implied, curr, Written(s, d, user, visible, revDep, implied, env))
  }

  /** The value of a symbol outside the graph. */
  function FixedVal(s: Sym): SymVal {
    match s
    case SymYes => SymVal("y", YES)
    case SymMod => SymVal("m", MOD)
    case _ => SymVal(s.Name(), NO)
  }

  const BLANK := SymState(NO, NO, NO, NO, SymVal("", NO), false)

  /** The state every symbol ought to have: a recursion along the rank, without any cache. */
  ghost function Spec(g: Graph, modules: bool, user: UserValues, rank: Sym -> nat, s: Sym): SymState
    decreases rank(s)
  {
    if s in g then
      var below := Env(modules, x => if rank(x) < rank(s) then Spec(g, modules, user, rank, x).curr else BLANK.curr);
      Compute(s, g[s], UserValue(user, s), below)
    else BLANK.(curr := FixedVal(s))
  }

  ghost function SpecEnv(g: Graph, modules: bool, user: UserValues, rank: Sym -> nat): Env {
    Env(modules, x => Spec(g, modules, user, rank, x).curr)
  }

  /** The two environments give the same value to every symbol of the set. */
  ghost predicate Agree(env1: Env, env2: Env, syms: set<Sym>) {
    env1.modules == env2.modules && forall s | s in syms :: env1.curr(s) == env2.curr(s)
  }

  lemma ValPtrAgrees(p: ExprPtr, env1: Env, env2: Env)
    requires Agree(env1, env2, SymsPtr(p))
    ensures ValPtr(p, env1) == ValPtr(p, env2)
    ensures ValOr(p, NO, env1) == ValOr(p, NO, env2)
  {
    if p.Ptr? {
      ValReadsOnlySyms(p.e, env1, env2);
    }
  }

  lemma {:induction false} PropsAgree(props: seq<Property>, env1: Env, env2: Env)
    requires Agree(env1, env2, PropSyms(props))
    ensures AnyPrompt(props, env1) == AnyPrompt(props, env2)
    ensures FirstDefault(props, env1) == FirstDefault(props, env2)
    ensures var def := FirstDefault(props, env1);
      def.Some? ==> def.value in props && def.value.kind.Default?
                    && SymsPtr(def.value.cond) + SymsPtr(def.value.value) <= PropSyms(props)
  {
    if props != [] {
      var p := props[0];
      if p.kind.Prompt? || p.kind.Default? {
        ValPtrAgrees(p.cond, env1, env2);
      }
      PropsAgree(props[1..], env1, env2);
    }
  }

  lemma DependenciesAgree(s: Sym, d: Definition, env1: Env, env2: Env)
    requires Agree(env1, env2, Deps(d))
    ensures Visibility(s, d, env1) == Visibility(s, d, env2)
    ensures DirDep(s, d, env1) == DirDep(s, d, env2)
    ensures RevDep(s, d, env1) == RevDep(s, d, env2)
    ensures Implied(s, d, env1) == Implied(s, d, env2)
  {
    ValPtrAgrees(d.dirDep, env1, env2);
    ValPtrAgrees(d.revDep, env1, env2);
    ValPtrAgrees(d.implied, env1, env2);
    PropsAgree(d.props, env1, env2);
  }

  lemma DefaultsAgree(d: Definition, user: Option<SymVal>, visible: Tri, revDep: Tri, implied: Tri, env1: Env, env2: Env)
    requires Agree(env1, env2, Deps(d))
    ensures OwnTri(d, user, visible, implied, env1) == OwnTri(d, user, visible, implied, env2)
    ensures OwnVal(d, user, visible, env1) == OwnVal(d, user, visible, env2)
    ensures forall s :: Written(s, d, user, visible, revDep, implied, env1) == Written(s, d, user, visible, revDep, implied, env2)
  {
    PropsAgree(d.props, env1, env2);
    var def := FirstDefault(d.props, env1);
    if def.Some? {
      ValPtrAgrees(def.value.cond, env1, env2);
      ValPtrAgrees(def.value.value, env1, env2);
    }
  }

  /** A symbol's state is determined by the values of its dependencies. */
  lemma ComputeReadsDeps(s: Sym, d: Definition, user: Option<SymVal>, env1: Env, env2: Env)
    requires Agree(env1, env2, Deps(d))
    ensures Compute(s, d, user, env1) == Compute(s, d, user, env2)
  {
    DependenciesAgree(s, d, env1, env2);
    DefaultsAgree(d, user, Visibility(s, d, env1), RevDep(s, d, env1), Implied(s, d, env1), env1, env2);
  }

  /** The specification solves the equations: every symbol is computed from the specified values of
      all symbols. */
  lemma SpecIsFixpoint(g: Graph, modules: bool, user: UserValues, rank: Sym -> nat, s: Sym)
    requires Ranked(g, rank) && s in g
    ensures Spec(g, modules, user, rank, s)
            == Compute(s, g[s], UserValue(user, s), SpecEnv(g, modules, user, rank))
  {
    var below := Env(modules, x => if rank(x) < rank(s) then Spec(g, modules, user, rank, x).curr else BLANK.curr);
    assert Spec(g, modules, user, rank, s) == Compute(s, g[s], UserValue(user, s), below);
    ComputeReadsDeps(s, g[s], UserValue(user, s), below, SpecEnv(g, modules, user, rank));
  }

  ghost function EnvOf(modules: bool, f: Sym -> SymState): Env {
    Env(modules, x => f(x).curr)
  }

  /** An assignment of states that solves the equations. */
  ghost predicate Solves(g: Graph, modules: bool, user: UserValues, f: Sym -> SymState) {
    && (forall s {:trigger Compute(s, g[s], UserValue(user, s), EnvOf(modules, f))} | s in g ::
          f(s) == Compute(s, g[s], UserValue(user, s), EnvOf(modules, f)))
    && (forall s | s !in g :: f(s) == BLANK.(curr := FixedVal(s)))
  }

  /** It is the only solution, so the rank chosen does not matter. */
  lemma {:induction false} SpecIsUnique(
    g: Graph, modules: bool, user: UserValues, rank: Sym -> nat, f: Sym -> SymState, s: Sym)
    requires Ranked(g, rank) && Solves(g, modules, user, f)
    ensures f(s) == Spec(g, modules, user, rank, s)
    decreases rank(s)
  {
    if s in g {
      forall x | x in Deps(g[s])
        ensures f(x) == Spec(g, modules, user, rank, x)
      {
        SpecIsUnique(g, modules, user, rank, f, x);
      }
      SpecIsFixpoint(g, modules, user, rank, s);
      ComputeReadsDeps(s, g[s], UserValue(user, s), EnvOf(modules, f), SpecEnv(g, modules, user, rank));
    }
  }

  /** No bool is ever m, no tristate is m without modules, and the rest of what expressions rely on:
      the specified values form a valid environment. */
  lemma SpecEnvIsValid(g: Graph, modules: bool, user: UserValues, rank: Sym -> nat)
    requires WellTyped(g)
    ensures ValidEnv(SpecEnv(g, modules, user, rank))
  {
    var env := SpecEnv(g, modules, user, rank);
    forall s
      ensures ValidValue(s, env.curr(s), modules)
    {
    }
  }

  /** The value of a symbol does not depend on user values of symbols of the same or higher rank
      other than itself. */
  lemma {:induction false} SpecIgnoresHigherUsers(
    g: Graph, modules: bool, user1: UserValues, user2: UserValues, rank: Sym -> nat, s: Sym)
    requires Ranked(g, rank)
    requires forall x | rank(x) < rank(s) || x == s :: UserValue(user1, x) == UserValue(user2, x)
    ensures Spec(g, modules, user1, rank, s) == Spec(g, modules, user2, rank, s)
    decreases rank(s)
  {
    if s in g {
      forall x | x in Deps(g[s])
        ensures Spec(g, modules, user1, rank, x) == Spec(g, modules, user2, rank, x)
      {
        SpecIgnoresHigherUsers(g, modules, user1, user2, rank, x);
      }
      SpecIsFixpoint(g, modules, user1, rank, s);
      SpecIsFixpoint(g, modules, user2, rank, s);
      ComputeReadsDeps(s, g[s], UserValue(user1, s), SpecEnv(g, modules, user1, rank), SpecEnv(g, modules, user2, rank));
    }
  }
}
