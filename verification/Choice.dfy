/** Bool choice groups of scripts/config/symbol.c: sym_calc_choice, sym_choice_default, the choice
    branches of sym_calc_value and sym_set_tristate_value. The members have no defaults of their own. */
module Choice {
  import opened Tristate
  import opened Exprs
  import opened Options
  import opened Symbols

  /** A default of the choice: the member it names and its condition. */
  datatype ChoiceDefault = ChoiceDefault(cond: ExprPtr, member: Sym)

  /** sym_calc_visibility of a bool member: its prompts only. */
  function MemberVisibility(props: seq<Property>, env: Env): Tri {
    var t := AnyPrompt(props, env);
    if t == MOD then YES else t
  }

  /** The first default whose condition holds and whose member is visible. */
  function FirstVisibleDefault(defaults: seq<ChoiceDefault>, visible: Sym -> bool, env: Env): Option<Sym> {
    if defaults == [] then None
    else if ValPtr(defaults[0].cond, env) != NO && visible(defaults[0].member) then Some(defaults[0].member)
    else FirstVisibleDefault(defaults[1..], visible, env)
  }

  function FirstVisible(members: seq<Sym>, visible: Sym -> bool): Option<Sym> {
    if members == [] then None
    else if visible(members[0]) then Some(members[0])
    else FirstVisible(members[1..], visible)
  }

  /** The member a choice in mode y selects: the user's pick, else a default, else the first member,
      each only if visible. */
  function Selection(members: seq<Sym>, defaults: seq<ChoiceDefault>, pick: Option<Sym>,
                     visible: Sym -> bool, env: Env): Option<Sym> {
    if pick.Some? && visible(pick.value) then pick
    else
      var def := FirstVisibleDefault(defaults, visible, env);
      if def.Some? then def else FirstVisible(members, visible)
  }

  lemma {:induction false} FirstVisibleIsMember(members: seq<Sym>, visible: Sym -> bool)
    ensures var r := FirstVisible(members, visible);
      if r.Some? then r.value in members && visible(r.value) else forall m | m in members :: !visible(m)
  {
    if members != [] {
      FirstVisibleIsMember(members[1..], visible);
    }
  }

  lemma {:induction false} DefaultIsVisible(defaults: seq<ChoiceDefault>, visible: Sym -> bool, env: Env)
    ensures var r := FirstVisibleDefault(defaults, visible, env);
      r.Some? ==> visible(r.value) && exists d :: d in defaults && d.member == r.value
  {
    if defaults != [] {
      DefaultIsVisible(defaults[1..], visible, env);
      assert defaults[0] in defaults;
    }
  }

  /** A selection is a visible member, and there is none only when no member is visible. */
  lemma SelectionIsVisible(members: seq<Sym>, defaults: seq<ChoiceDefault>, pick: Option<Sym>,
                           visible: Sym -> bool, env: Env)
    requires pick.Some? ==> pick.value in members
    requires forall d | d in defaults :: d.member in members
    ensures var r := Selection(members, defaults, pick, visible, env);
      && (r.Some? ==> r.value in members && visible(r.value))
      && (r.None? <==> forall m | m in members :: !visible(m))
  {
    FirstVisibleIsMember(members, visible);
    DefaultIsVisible(defaults, visible, env);
  }

  /** The choice's own value as a bool: unlike other symbols, a choice has no defaults and no weak
      dependencies. */
  function OwnValue(choice: Sym, def: Definition, user: Option<Tri>, env: Env): Tri {
    var visible := Visibility(choice, def, env);
    var own := if visible != NO && user.Some? then And(user.value, visible) else NO;
    FinalTri(choice, own, DirDep(choice, def, env), RevDep(choice, def, env), NO, env.modules)
  }

  lemma {:induction false} NoDefaults(props: seq<Property>, env: Env)
    requires forall p | p in props :: !p.kind.Default?
    ensures FirstDefault(props, env) == None
  {
    if props != [] {
      NoDefaults(props[1..], env);
    }
  }

  /** It is what the evaluator computes for a symbol with the same dependencies and prompts. */
  lemma OwnValueIsComputed(choice: Sym, def: Definition, user: Option<Tri>, env: Env)
    requires choice.Type() == Boolean && def.implied == Null && forall p | p in def.props :: !p.kind.Default?
    ensures OwnValue(choice, def, user, env)
            == Compute(choice, def, if user.Some? then Some(SymVal("", user.value)) else None, env).curr.tri
  {
    NoDefaults(def.props, env);
  }

  /** An own value of y stays y when the choice gets a user value. */
  lemma OwnValueStays(choice: Sym, def: Definition, user: Option<Tri>, tri: Tri, env: Env)
    requires choice.Type() == Boolean && OwnValue(choice, def, user, env) == YES && (user.Some? ==> user.value == tri)
    ensures OwnValue(choice, def, Some(tri), env) == YES
  {
  }

  /** The calculation with the given value for the choice symbol. */
  function WithChoice(env: Env, choice: Sym, t: Tri): Env {
    Env(env.modules, x => if x == choice then SymVal("n", t) else env.curr(x))
  }

  /** The members are written below the choice: where that is n, they are invisible. */
  ghost predicate BelowChoice(choice: Sym, props: map<Sym, seq<Property>>) {
    forall m, env {:trigger MemberVisibility(props[m], env)} | m in props && ValidEnv(env) && env.curr(choice).tri == NO ::
      MemberVisibility(props[m], env) == NO
  }

  lemma WithChoiceIsValid(env: Env, choice: Sym, t: Tri)
    requires ValidEnv(env) && choice.Type() == Boolean && t != MOD
    ensures ValidEnv(WithChoice(env, choice, t))
  {
    var env' := WithChoice(env, choice, t);
    forall s
      ensures ValidValue(s, env'.curr(s), env'.modules)
    {
      assert ValidValue(s, env.curr(s), env.modules);
    }
  }

  class ChoiceGroup {
    const choice: Sym
    const def: Definition        // of the choice symbol
    const members: seq<Sym>
    const props: map<Sym, seq<Property>>
    const defaults: seq<ChoiceDefault>

    var visible: map<Sym, Tri>   // of the members
    var decided: set<Sym>        // members with SYMBOL_DEF_USER
    var pick: Option<Sym>        // def[S_DEF_USER].val of the choice
    var userTri: Tri             // def[S_DEF_USER].tri of the choice
    var userSet: bool            // SYMBOL_DEF_USER of the choice
    var selected: Option<Sym>    // curr.val of the choice
    var mode: Tri                // curr.tri of the choice

    ghost predicate Valid()
      reads this
    {
      && choice.Type() == Boolean && BelowChoice(choice, props)
      && visible.Keys == props.Keys == (set m | m in members)
      && (pick.Some? ==> pick.value in members)
      && forall d | d in defaults :: d.member in members
    }

    constructor (choice: Sym, def: Definition, members: seq<Sym>, props: map<Sym, seq<Property>>,
                 defaults: seq<ChoiceDefault>, userTri: Tri)
      requires choice.Type() == Boolean && BelowChoice(choice, props)
      requires props.Keys == (set m | m in members) && forall d | d in defaults :: d.member in members
      ensures Valid() && this.members == members && this.props == props && this.defaults == defaults
      ensures this.choice == choice && this.def == def && this.userTri == userTri
      ensures pick == None && mode == NO
    {
      this.choice, this.def, this.members, this.props, this.defaults := choice, def, members, props, defaults;
      visible := map m | m in props :: NO;
      decided, pick, userSet, selected, mode, this.userTri := {}, None, false, None, NO, userTri;
    }

    /** The choice's own value under the given values of all other symbols. */
    function Own(env: Env): Tri
      reads this`userSet, this`userTri
    {
      OwnValue(choice, def, if userSet then Some(userTri) else None, env)
    }

    function IsVisible(): Sym -> bool
      reads this
    {
      var v := visible;
      m => m in v && v[m] != NO
    }

    /** sym_choice_default */
    method DefaultMember(env: Env) returns (def: Option<Sym>)
      requires Valid()
      ensures def == (var d := FirstVisibleDefault(defaults, IsVisible(), env);
                      if d.Some? then d else FirstVisible(members, IsVisible()))
    {
      for i := 0 to |defaults|
        invariant FirstVisibleDefault(defaults, IsVisible(), env)
                  == FirstVisibleDefault(defaults[i..], IsVisible(), env)
      {
        assert defaults[i..][0] == defaults[i] && defaults[i..][1..] == defaults[i + 1..];
        if ValPtr(defaults[i].cond, env) != NO && visible[defaults[i].member] != NO {
          return Some(defaults[i].member);
        }
      }
      for i := 0 to |members|
        invariant FirstVisible(members, IsVisible()) == FirstVisible(members[i..], IsVisible())
      {
        assert members[i..][0] == members[i] && members[i..][1..] == members[i + 1..];
        if visible[members[i]] != NO {
          return Some(members[i]);
        }
      }
      return None;
    }

    /** The first loop of sym_calc_choice. */
    method CalcMembers(env: Env) returns (all: bool)
      requires Valid()
      modifies this`visible
      ensures Valid()
      ensures forall m | m in members :: visible[m] == MemberVisibility(props[m], env)
      ensures all == forall m | m in members && visible[m] != NO :: m in decided
    {
      all := true;
      for i := 0 to |members|
        invariant Valid()
        invariant forall m | m in members[..i] :: visible[m] == MemberVisibility(props[m], env)
        invariant all == forall m | m in members[..i] && MemberVisibility(props[m], env) != NO :: m in decided
      {
        var m := members[i];
        assert members[..i + 1] == members[..i] + [m];
        visible := visible[m := MemberVisibility(props[m], env)];
        if visible[m] != NO && m !in decided {
          all := false;
        }
      }
      assert members[..|members|] == members;
    }

    /** sym_calc_choice, given the values of all other symbols and y for the choice itself. The
        choice keeps SYMBOL_DEF_USER only if every visible member has it. */
    method CalcChoice(env: Env) returns (def: Option<Sym>)
      requires Valid()
      modifies this`visible, this`userSet, this`mode
      ensures Valid()
      ensures forall m | m in members :: visible[m] == MemberVisibility(props[m], env)
      ensures userSet == (old(userSet) && forall m | m in members && visible[m] != NO :: m in decided)
      ensures def == Selection(members, defaults, pick, IsVisible(), env)
      ensures mode == if def.None? then NO else old(mode)
    {
      var all := CalcMembers(env);
      userSet := userSet && all;
      if pick.Some? && visible[pick.value] != NO {
        return pick;
      }
      def := DefaultMember(env);
      if def.None? {
        mode := NO;
      }
    }

    /** sym_calc_value for the choice symbol, given the values of all symbols outside the group. */
    method CalcValue(env: Env)
      requires Valid()
      modifies this
      ensures Valid() && pick == old(pick) && decided == old(decided) && userTri == old(userTri) && mode != MOD
      ensures old(Own(env)) != YES ==> mode == NO && selected == None && userSet == old(userSet)
      ensures old(Own(env)) == YES ==>
        && (forall m | m in members :: visible[m] == MemberVisibility(props[m], WithChoice(env, choice, YES)))
        && selected == Selection(members, defaults, pick, IsVisible(), WithChoice(env, choice, YES))
        && mode == Truth(selected.Some?)
        && userSet == (old(userSet) && forall m | m in members && visible[m] != NO :: m in decided)
    {
      mode, selected := Own(env), None;
      if mode == YES {
        selected := CalcChoice(WithChoice(env, choice, YES));
      }
    }

    /** sym_calc_value for a member whose visibility has been calculated: without defaults, selects and
        weak dependencies of its own, an invisible member is n. */
    function MemberValue(m: Sym): Tri
      requires Valid() && m in members
      reads this
    {
      if visible[m] == YES then Truth(selected == Some(m)) else NO
    }

    /** What holds after the group has been calculated. */
    ghost predicate Calculated(env: Env)
      reads this
      requires Valid()
    {
      && (forall m | m in members :: visible[m] == MemberVisibility(props[m], WithChoice(env, choice, mode)))
      && mode != MOD && (mode == YES ==> OwnValue(choice, def, Some(userTri), env) == YES)
    }

    /** sym_calc_value for the choice and then for its members. Exclusivity: in mode y exactly one member
        is y, it is visible, and it is the user's pick whenever that is visible; the mode is y exactly
        when the choice's own value is and some member is visible under it, and otherwise no member is
        y. */
    method CalcGroup(env: Env) returns (chosen: Option<Sym>)
      requires Valid() && ValidEnv(env)
      modifies this
      ensures Valid() && Calculated(env)
      ensures pick == old(pick) && decided == old(decided) && userTri == old(userTri)
      ensures mode == YES <==> chosen.Some?
      ensures chosen.Some? ==> chosen.value in members && visible[chosen.value] == YES
      ensures forall m | m in members :: MemberValue(m) == YES <==> chosen == Some(m)
      ensures chosen.Some? && pick.Some? && visible[pick.value] == YES ==> chosen == pick
      ensures mode == YES <==>
        old(Own(env)) == YES && exists m :: m in members && MemberVisibility(props[m], WithChoice(env, choice, YES)) != NO
      ensures mode == YES ==> userSet == (old(userSet) && forall m | m in members && visible[m] != NO :: m in decided)
    {
      ghost var user := if userSet then Some(userTri) else None;
      CalcValue(env);
      chosen := selected;
      SelectionIsVisible(members, defaults, pick, IsVisible(), WithChoice(env, choice, YES));
      if user.None? && mode == YES {
        OwnValueStays(choice, def, user, userTri, env);
      }
      WithChoiceIsValid(env, choice, mode);
      var _ := CalcMembers(WithChoice(env, choice, mode));
    }

    /** sym_set_tristate_value with y on a visible member, as accepted by sym_tristate_within_range. */
    method PickMember(m: Sym)
      requires Valid() && m in members && visible[m] == YES
      modifies this`pick, this`userSet, this`decided
      ensures Valid() && pick == Some(m) && userSet
      ensures decided == old(decided) + {m} + set x | x in members && visible[x] != NO
    {
      pick, userSet := Some(m), true;
      decided := decided + {m};
      for i := 0 to |members|
        invariant Valid() && pick == Some(m) && userSet
        invariant decided == old(decided) + {m} + set x | x in members[..i] && visible[x] != NO
      {
        assert members[..i + 1] == members[..i] + [members[i]];
        if visible[members[i]] != NO {
          decided := decided + {members[i]};
        }
      }
      assert members[..|members|] == members;
    }

    /** The symbols outside the group that it is calculated from. */
    ghost function GroupDeps(): set<Sym> {
      Deps(def) + set m, s | m in props && s in PropSyms(props[m]) && s != choice :: s
    }

    /** Picking a visible member and recalculating selects that member and deselects all others, whatever
        the pick does to symbols that the group does not depend on. */
    method PickAndRead(m: Sym, env: Env, after: Env)
      requires Valid() && ValidEnv(env) && ValidEnv(after) && Calculated(env)
      requires m in members && visible[m] == YES && Agree(env, after, GroupDeps())
      modifies this
      ensures Valid() && Calculated(after)
      ensures mode == YES && userSet && forall x | x in members :: MemberValue(x) == Truth(x == m)
    {
      WithChoiceIsValid(env, choice, mode);
      assert mode == YES;
      PickMember(m);
      DependenciesAgree(choice, def, env, after);
      forall x | x in members
        ensures MemberVisibility(props[x], WithChoice(after, choice, YES)) == MemberVisibility(props[x], WithChoice(env, choice, YES))
      {
        PropsAgree(props[x], WithChoice(env, choice, YES), WithChoice(after, choice, YES));
      }
      var chosen := CalcGroup(after);
      assert chosen == Some(m);
    }
  }

  /** In an acyclic configuration the group depends on symbols of lower rank only, and a user write to the
      choice or to symbols above it does not move these. */
  lemma PickLeavesDeps(g: Graph, modules: bool, user: UserValues, user': UserValues, rank: Sym -> nat, deps: set<Sym>, level: nat)
    requires Ranked(g, rank) && forall s | s in deps :: rank(s) < level
    requires forall s | rank(s) < level :: UserValue(user, s) == UserValue(user', s)
    ensures Agree(SpecEnv(g, modules, user, rank), SpecEnv(g, modules, user', rank), deps)
  {
    forall s | s in deps
      ensures Spec(g, modules, user, rank, s) == Spec(g, modules, user', rank, s)
    {
      SpecIgnoresHigherUsers(g, modules, user, user', rank, s);
    }
  }
}
