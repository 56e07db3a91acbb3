/** What menu_finalize of scripts/config/menu.c does to dependency expressions: propagation from
    parent to child and to properties, the direct dependency of a symbol, and the superset test of
    automatic submenus. */
module MenuDeps {
  import opened Tristate
  import opened Exprs
  import opened ExprReduce
  import opened ExprJoin
  import opened ExprDups
  import opened ExprTransform
  import opened Symbols

  predicate TidyPtr(p: ExprPtr) {
    p.Ptr? ==> Tidy(p.e)
  }

  predicate PlainPtr(p: ExprPtr) {
    p.Ptr? ==> PlainConsts(p.e)
  }

  function DupsPtr(p: ExprPtr): ExprPtr {
    if p.Null? then p else Ptr(EliminateDups(p.e))
  }

  /** rewrite_m and expr_transform on a dependency as written. */
  function Rewritten(p: ExprPtr, modulesSym: Sym): ExprPtr {
    if p.Null? then p else Ptr(RewriteM(p.e, modulesSym))
  }

  function Prepared(p: ExprPtr, modulesSym: Sym): ExprPtr {
    if p.Null? then p else Ptr(Transform(RewriteM(p.e, modulesSym)))
  }

  /** The dependency of a child node below a parent with the given dependency. */
  function Propagate(parentDep: ExprPtr, dep: ExprPtr, modulesSym: Sym): ExprPtr {
    DupsPtr(AllocAnd(parentDep, Prepared(dep, modulesSym)))
  }

  /** The condition of a property of a symbol of the given type at a node with the given dependency. */
  function PropagateToProperty(baseDep: ExprPtr, cond: ExprPtr, owner: SymType, modulesSym: Sym): ExprPtr {
    var p := Propagate(baseDep, cond, modulesSym);
    if owner == Tristate || p.Null? then p else Ptr(TransBool(p.e))
  }

  /** Whatever is simplified away, a child depends on exactly its parent's dependency and its own. */
  lemma PropagateMeaning(parentDep: ExprPtr, dep: ExprPtr, modulesSym: Sym, env: Env)
    requires ValidEnv(env) && TidyPtr(parentDep) && PlainPtr(dep)
    ensures ValPtr(Propagate(parentDep, dep, modulesSym), env)
            == And(ValPtr(parentDep, env), ValPtr(Rewritten(dep, modulesSym), env))
    ensures TidyPtr(Propagate(parentDep, dep, modulesSym))
    ensures Propagate(parentDep, dep, modulesSym).Null? <==> parentDep.Null? && dep.Null?
  {
    if dep.Ptr? {
      var e := RewriteM(dep.e, modulesSym);
      RewriteMKeepsPlainConsts(dep.e, modulesSym);
      TransformKeepsValue(e, env);
      TransformNormalises(e);
      TransformKeepsPlainConsts(e);
      TransformedIsNotOnLeaves(Transform(e));
    }
    var p := AllocAnd(parentDep, Prepared(dep, modulesSym));
    if p.Ptr? {
      EliminateDupsKeepsValue(p.e, env);
    }
  }

  /** A property condition is n exactly when the node's dependency or the written condition is; for a
      tristate owner it is their exact conjunction. */
  lemma PropertyMeaning(baseDep: ExprPtr, cond: ExprPtr, owner: SymType, modulesSym: Sym, env: Env)
    requires ValidEnv(env) && TidyPtr(baseDep) && PlainPtr(cond)
    ensures var v := ValPtr(PropagateToProperty(baseDep, cond, owner, modulesSym), env);
      var w := And(ValPtr(baseDep, env), ValPtr(Rewritten(cond, modulesSym), env));
      && (v == NO <==> w == NO) && v <= w && (owner == Tristate ==> v == w)
  {
    PropagateMeaning(baseDep, cond, modulesSym, env);
    var p := Propagate(baseDep, cond, modulesSym);
    if owner != Tristate && p.Ptr? {
      QuietBelowLeaves(p.e);
      TransBoolKeepsNo(p.e, env);
    }
  }

  /** The dependency of a node below a chain of menus, outermost first. */
  function NodeDep(chain: seq<ExprPtr>, modulesSym: Sym): ExprPtr {
    if chain == [] then Null
    else Propagate(NodeDep(chain[..|chain| - 1], modulesSym), chain[|chain| - 1], modulesSym)
  }

  function ChainValue(chain: seq<ExprPtr>, modulesSym: Sym, env: Env): Tri {
    if chain == [] then YES
    else And(ChainValue(chain[..|chain| - 1], modulesSym, env), ValPtr(Rewritten(chain[|chain| - 1], modulesSym), env))
  }

  /** At any depth, the dependency of a node is the conjunction of all dependencies written on the way
      down to it. */
  lemma {:induction false} NodeDepMeaning(chain: seq<ExprPtr>, modulesSym: Sym, env: Env)
    requires ValidEnv(env) && forall p | p in chain :: PlainPtr(p)
    ensures ValPtr(NodeDep(chain, modulesSym), env) == ChainValue(chain, modulesSym, env)
    ensures TidyPtr(NodeDep(chain, modulesSym))
    ensures NodeDep(chain, modulesSym).Null? <==> forall p | p in chain :: p.Null?
  {
    if chain != [] {
      var up := chain[..|chain| - 1];
      assert chain == up + [chain[|chain| - 1]];
      NodeDepMeaning(up, modulesSym, env);
      PropagateMeaning(NodeDep(up, modulesSym), chain[|chain| - 1], modulesSym, env);
    }
  }

  /** One place where a symbol is defined: the written dependencies of the enclosing menus and of the
      entry itself, and the written condition of each prompt there. */
  datatype Site = Site(chain: seq<ExprPtr>, prompts: seq<ExprPtr>)

  predicate PlainSite(site: Site) {
    (forall p | p in site.chain :: PlainPtr(p)) && (forall p | p in site.prompts :: PlainPtr(p))
  }

  /** The direct dependency menu_finalize collects over the places where a symbol is defined. */
  function DirectDep(sites: seq<Site>, modulesSym: Sym): ExprPtr {
    if sites == [] then Null
    else AllocOr(DirectDep(sites[..|sites| - 1], modulesSym), NodeDep(sites[|sites| - 1].chain, modulesSym))
  }

  function SitePrompts(site: Site, owner: SymType, modulesSym: Sym): seq<Property> {
    seq(|site.prompts|, i requires 0 <= i < |site.prompts| =>
      Property(Prompt, PropagateToProperty(NodeDep(site.chain, modulesSym), site.prompts[i], owner, modulesSym), Null))
  }

  function Prompts(sites: seq<Site>, owner: SymType, modulesSym: Sym): seq<Property> {
    if sites == [] then []
    else Prompts(sites[..|sites| - 1], owner, modulesSym) + SitePrompts(sites[|sites| - 1], owner, modulesSym)
  }

  predicate Unconditional(site: Site) {
    forall p | p in site.chain :: p.Null?
  }

  lemma {:induction false} AnyPromptAppend(a: seq<Property>, b: seq<Property>, env: Env)
    ensures AnyPrompt(a + b, env) == Or(AnyPrompt(a, env), AnyPrompt(b, env))
  {
    if a == [] {
      assert a + b == b;
    } else {
      assert (a + b)[1..] == a[1..] + b && (a + b)[0] == a[0];
      AnyPromptAppend(a[1..], b, env);
    }
  }

  predicate HoldsAsWritten(p: ExprPtr, modulesSym: Sym, env: Env) {
    ValPtr(Rewritten(p, modulesSym), env) != NO
  }

  /** A prompt is visible exactly where its place's dependencies and its written condition hold. */
  lemma SitePromptsMeaning(site: Site, owner: SymType, modulesSym: Sym, env: Env)
    requires ValidEnv(env) && PlainSite(site)
    ensures AnyPrompt(SitePrompts(site, owner, modulesSym), env) != NO
            <==> ChainValue(site.chain, modulesSym, env) != NO && exists p :: p in site.prompts && HoldsAsWritten(p, modulesSym, env)
  {
    NodeDepMeaning(site.chain, modulesSym, env);
    var ps := SitePrompts(site, owner, modulesSym);
    AnyPromptHolds(ps, env);
    forall i | 0 <= i < |ps|
      ensures ValPtr(ps[i].cond, env) != NO
              <==> ChainValue(site.chain, modulesSym, env) != NO && HoldsAsWritten(site.prompts[i], modulesSym, env)
    {
      PropertyMeaning(NodeDep(site.chain, modulesSym), site.prompts[i], owner, modulesSym, env);
    }
    if p :| p in site.prompts && HoldsAsWritten(p, modulesSym, env) {
      var i :| 0 <= i < |ps| && site.prompts[i] == p;
      assert ps[i] in ps;
    }
  }

  lemma {:induction false} AnyPromptHolds(props: seq<Property>, env: Env)
    requires forall p | p in props :: p.kind.Prompt?
    ensures AnyPrompt(props, env) != NO <==> exists p :: p in props && ValPtr(p.cond, env) != NO
  {
    if props != [] {
      AnyPromptHolds(props[1..], env);
      assert forall p :: p in props <==> p == props[0] || p in props[1..];
    }
  }

  /** The symbol has a visible prompt at the place. */
  predicate Opens(site: Site, modulesSym: Sym, env: Env) {
    ChainValue(site.chain, modulesSym, env) != NO && exists p :: p in site.prompts && HoldsAsWritten(p, modulesSym, env)
  }

  /** A symbol is visible exactly when some place has a visible prompt. */
  lemma {:induction false} PromptsMeaning(sites: seq<Site>, owner: SymType, modulesSym: Sym, env: Env)
    requires ValidEnv(env) && forall site | site in sites :: PlainSite(site)
    ensures AnyPrompt(Prompts(sites, owner, modulesSym), env) != NO
            <==> exists site :: site in sites && Opens(site, modulesSym, env)
  {
    if sites != [] {
      var before, last := sites[..|sites| - 1], sites[|sites| - 1];
      assert sites == before + [last] && last in sites;
      assert forall site :: site in sites <==> site in before || site == last;
      PromptsMeaning(before, owner, modulesSym, env);
      SitePromptsMeaning(last, owner, modulesSym, env);
      AnyPromptAppend(Prompts(before, owner, modulesSym), SitePrompts(last, owner, modulesSym), env);
    }
  }

  predicate SomeConditional(sites: seq<Site>) {
    exists site :: site in sites && !Unconditional(site)
  }

  /** The dependencies of no place that has any hold. */
  predicate NoneHolds(sites: seq<Site>, modulesSym: Sym, env: Env) {
    forall site | site in sites && !Unconditional(site) :: ChainValue(site.chain, modulesSym, env) == NO
  }

  lemma OneSiteMore(sites: seq<Site>, site: Site, modulesSym: Sym, env: Env)
    ensures SomeConditional(sites + [site]) <==> SomeConditional(sites) || !Unconditional(site)
    ensures NoneHolds(sites + [site], modulesSym, env)
            <==> NoneHolds(sites, modulesSym, env) && (Unconditional(site) || ChainValue(site.chain, modulesSym, env) == NO)
  {
    assert forall x :: x in sites + [site] <==> x in sites || x == site;
  }

  lemma AllocOrMeaning(p: ExprPtr, q: ExprPtr, env: Env)
    ensures AllocOr(p, q).Null? <==> p.Null? && q.Null?
    ensures ValPtr(AllocOr(p, q), env) == NO
            <==> (p.Ptr? || q.Ptr?) && (p.Ptr? ==> ValPtr(p, env) == NO) && (q.Ptr? ==> ValPtr(q, env) == NO)
  {
  }

  /** The collected direct dependency is the disjunction over the places that have dependencies, and y
      only when none has: an unconditional place beside others counts for nothing. */
  lemma {:induction false} DirectDepMeaning(sites: seq<Site>, modulesSym: Sym, env: Env)
    requires ValidEnv(env) && forall site | site in sites :: PlainSite(site)
    ensures DirectDep(sites, modulesSym).Ptr? <==> SomeConditional(sites)
    ensures ValPtr(DirectDep(sites, modulesSym), env) == NO <==> SomeConditional(sites) && NoneHolds(sites, modulesSym, env)
  {
    if sites != [] {
      var before, last := sites[..|sites| - 1], sites[|sites| - 1];
      assert sites == before + [last] && last in sites;
      DirectDepMeaning(before, modulesSym, env);
      NodeDepMeaning(last.chain, modulesSym, env);
      AllocOrMeaning(DirectDep(before, modulesSym), NodeDep(last.chain, modulesSym), env);
      OneSiteMore(before, last, modulesSym, env);
      if !SomeConditional(before) {
        assert NoneHolds(before, modulesSym, env);
      }
    }
  }

  lemma {:induction false} UnconditionalChain(chain: seq<ExprPtr>, modulesSym: Sym, env: Env)
    requires forall p | p in chain :: p.Null?
    ensures ChainValue(chain, modulesSym, env) == YES
  {
    if chain != [] {
      assert chain[|chain| - 1] in chain;
      UnconditionalChain(chain[..|chain| - 1], modulesSym, env);
    }
  }

  /** Some places have dependencies, none of these hold, and the symbol has a prompt with a condition
      that holds at a place without any. */
  ghost predicate Forgotten(sites: seq<Site>, modulesSym: Sym, env: Env) {
    && SomeConditional(sites) && NoneHolds(sites, modulesSym, env)
    && exists site :: site in sites && Unconditional(site) && exists p :: p in site.prompts && HoldsAsWritten(p, modulesSym, env)
  }

  /** A symbol is visible without its direct dependency in exactly this case. */
  lemma VisibleWithoutDirectDep(sites: seq<Site>, owner: SymType, modulesSym: Sym, env: Env)
    requires ValidEnv(env) && forall site | site in sites :: PlainSite(site)
    ensures AnyPrompt(Prompts(sites, owner, modulesSym), env) != NO && ValPtr(DirectDep(sites, modulesSym), env) == NO
            <==> Forgotten(sites, modulesSym, env)
  {
    PromptsMeaning(sites, owner, modulesSym, env);
    DirectDepMeaning(sites, modulesSym, env);
    forall site | site in sites && Unconditional(site)
      ensures Opens(site, modulesSym, env) <==> exists p :: p in site.prompts && HoldsAsWritten(p, modulesSym, env)
    {
      UnconditionalChain(site.chain, modulesSym, env);
    }
  }

  /** In particular it never is when no unconditional place has a prompt, or all places are
      unconditional. */
  lemma VisibleNeedsDirectDep(sites: seq<Site>, owner: SymType, modulesSym: Sym, env: Env)
    requires ValidEnv(env) && forall site | site in sites :: PlainSite(site)
    requires || (forall site | site in sites :: Unconditional(site))
             || (forall site | site in sites && site.prompts != [] :: !Unconditional(site))
    ensures AnyPrompt(Prompts(sites, owner, modulesSym), env) != NO
            ==> ValPtr(DirectDep(sites, modulesSym), env) != NO
  {
    VisibleWithoutDirectDep(sites, owner, modulesSym, env);
  }

  /** The case occurs: a symbol defined once without dependencies and with a prompt, and
      once more under a symbol X, has X as its direct dependency. */
  lemma UnconditionalPlaceIsForgotten(owner: SymType, modulesSym: Sym)
    requires owner == Boolean || owner == Tristate
    ensures var x := Config("X", Boolean);
      var sites := [Site([], [Null]), Site([Ptr(Leaf(x))], [])];
      exists env :: ValidEnv(env)
        && AnyPrompt(Prompts(sites, owner, modulesSym), env) == YES
        && ValPtr(DirectDep(sites, modulesSym), env) == NO
  {
    var x := Config("X", Boolean);
    var first, second := Site([], [Null]), Site([Ptr(Leaf(x))], []);
    var sites := [first, second];
    var env := SomeEnv(Config("T", Tristate), NO, true);
    assert sites[..1] == [first] && [first][..0] == [];
    assert Prompts([first], owner, modulesSym) == SitePrompts(first, owner, modulesSym);
    assert Prompts(sites, owner, modulesSym) == SitePrompts(first, owner, modulesSym);
    assert SitePrompts(first, owner, modulesSym)[0] == Property(Prompt, Null, Null);
    assert second.chain[..0] == [];
    assert EliminateDups(Leaf(x)) == Leaf(x);
    assert NodeDep(second.chain, modulesSym) == Ptr(Leaf(x));
    assert DirectDep([first], modulesSym) == Null;
    assert DirectDep(sites, modulesSym) == Ptr(Leaf(x));
    assert env.curr(x).tri == NO;
  }

  /** A select or imply: the symbol it stands at, the written dependencies down to there, and its own
      written condition. */
  datatype Selector = Selector(sym: Sym, chain: seq<ExprPtr>, cond: ExprPtr)

  predicate PlainSelector(sel: Selector) {
    (forall p | p in sel.chain :: PlainPtr(p)) && PlainPtr(sel.cond)
  }

  /** What one of them adds to the reverse dependency of its target. */
  function SelectorDep(sel: Selector, modulesSym: Sym): ExprPtr {
    AllocAnd(Ptr(Leaf(sel.sym)),
             PropagateToProperty(NodeDep(sel.chain, modulesSym), sel.cond, sel.sym.Type(), modulesSym))
  }

  /** The reverse or weak reverse dependency that menu_finalize collects over the selecting places. */
  function ReverseDep(sels: seq<Selector>, modulesSym: Sym): ExprPtr {
    if sels == [] then Null
    else AllocOr(ReverseDep(sels[..|sels| - 1], modulesSym), SelectorDep(sels[|sels| - 1], modulesSym))
  }

  /** The selecting symbol is on, and so is everything written for the select. */
  predicate Pulls(sel: Selector, modulesSym: Sym, env: Env) {
    && env.curr(sel.sym).tri != NO && ChainValue(sel.chain, modulesSym, env) != NO
    && HoldsAsWritten(sel.cond, modulesSym, env)
  }

  lemma SelectorDepMeaning(sel: Selector, modulesSym: Sym, env: Env)
    requires ValidEnv(env) && PlainSelector(sel)
    ensures SelectorDep(sel, modulesSym).Ptr?
    ensures ValPtr(SelectorDep(sel, modulesSym), env) != NO <==> Pulls(sel, modulesSym, env)
  {
    NodeDepMeaning(sel.chain, modulesSym, env);
    PropertyMeaning(NodeDep(sel.chain, modulesSym), sel.cond, sel.sym.Type(), modulesSym, env);
    AndIsNo(ValPtr(NodeDep(sel.chain, modulesSym), env), ValPtr(Rewritten(sel.cond, modulesSym), env));
    var p := PropagateToProperty(NodeDep(sel.chain, modulesSym), sel.cond, sel.sym.Type(), modulesSym);
    assert Val(Leaf(sel.sym), env) == env.curr(sel.sym).tri;
    AndIsNo(env.curr(sel.sym).tri, ValPtr(p, env));
  }

  lemma AndIsNo(a: Tri, b: Tri)
    ensures And(a, b) == NO <==> a == NO || b == NO
  {
  }

  /** A collected reverse dependency holds exactly when some selecting place and its selector do. */
  lemma {:induction false} ReverseDepMeaning(sels: seq<Selector>, modulesSym: Sym, env: Env)
    requires ValidEnv(env) && forall sel | sel in sels :: PlainSelector(sel)
    ensures ReverseDep(sels, modulesSym).Null? <==> sels == []
    ensures ValOr(ReverseDep(sels, modulesSym), NO, env) != NO <==> exists sel :: sel in sels && Pulls(sel, modulesSym, env)
  {
    if sels != [] {
      var before, last := sels[..|sels| - 1], sels[|sels| - 1];
      assert sels == before + [last];
      assert forall sel :: sel in sels <==> sel in before || sel == last;
      ReverseDepMeaning(before, modulesSym, env);
      SelectorDepMeaning(last, modulesSym, env);
    }
  }

  /** expr_contains_symbol */
  predicate ContainsSymbol(e: Expr, s: Sym) {
    match e
    case Bin(_, l, r) => ContainsSymbol(l, s) || ContainsSymbol(r, s)
    case Neg(a) => ContainsSymbol(a, s)
    case Leaf(x) => x == s
    case Rel(_, x, y) => x == s || y == s
  }

  /** expr_depends_symbol */
  predicate DependsOnSymbol(e: Expr, s: Sym) {
    match e
    case Bin(Conj, l, r) => DependsOnSymbol(l, s) || DependsOnSymbol(r, s)
    case Leaf(x) => x == s
    case Rel(EQ, x, c) => x == s && c in {SymYes, SymMod}
    case Rel(NE, x, c) => x == s && c == SymNo
    case _ => false
  }

  lemma {:induction false} ContainsIsMention(e: Expr, s: Sym)
    ensures ContainsSymbol(e, s) <==> s in Syms(e)
  {
    match e
    case Bin(_, l, r) => ContainsIsMention(l, s); ContainsIsMention(r, s);
    case Neg(a) => ContainsIsMention(a, s);
    case _ =>
  }

  /** An absolute dependency on a bool or tristate symbol holds at most when the symbol is not n. */
  lemma {:induction false} DependsOnSymbolMeaning(e: Expr, s: Sym, env: Env)
    requires ValidEnv(env) && s.IsTristateLike() && DependsOnSymbol(e, s)
    ensures Val(e, env) != NO ==> env.curr(s).tri != NO
    ensures ContainsSymbol(e, s)
  {
    match e
    case Bin(Conj, l, r) =>
      if DependsOnSymbol(l, s) {
        DependsOnSymbolMeaning(l, s, env);
      } else {
        DependsOnSymbolMeaning(r, s, env);
      }
    case Rel(_, _, c) => CompareToConst(env, s, c);
    case _ =>
  }

  /** expr_trans_compare, expr_transform and expr_eliminate_dups as the submenu test applies them. */
  function AgainstNo(p: ExprPtr): Expr {
    EliminateDups(Transform(TransComparePtr(p, NE, SymNo)))
  }

  /** The test by which an entry whose dependencies contain a symbol joins the symbol's submenu. */
  predicate IsSuperset(dep: ExprPtr, baseDep: ExprPtr) {
    IsYes(EliminateEqPtr(Ptr(AgainstNo(dep)), Ptr(AgainstNo(baseDep))).1)
  }

  predicate TristatePtr(p: ExprPtr) {
    p.Ptr? ==> TristateLeaves(p.e)
  }

  /** The two-valued reading of a condition against n. */
  predicate ReadingPtr(p: ExprPtr, env: Env) {
    p.Ptr? ==> Reading(p.e, SymNo, env)
  }

  lemma {:induction false} TransCompareKeepsPlainConsts(e: Expr, rel: Relation, c: Sym)
    requires PlainConsts(e) && (rel == EQ || rel == NE) && c in {SymYes, SymMod, SymNo}
    ensures PlainConsts(TransCompare(e, rel, c))
  {
    match e
    case Neg(a) => TransCompareKeepsPlainConsts(a, if rel == EQ then NE else EQ, c);
    case Bin(_, l, r) =>
      TransCompareKeepsPlainConsts(l, EQ, c);
      TransCompareKeepsPlainConsts(r, EQ, c);
    case _ =>
  }

  /** What the test looks at is the two-valued reading. */
  lemma AgainstNoMeaning(p: ExprPtr, env: Env)
    requires ValidEnv(env) && PlainPtr(p) && TristatePtr(p)
    ensures Val(AgainstNo(p), env) == Truth(ReadingPtr(p, env))
  {
    var e := TransComparePtr(p, NE, SymNo);
    YnValues(env);
    if p.Ptr? {
      TransCompareReads(p.e, NE, SymNo, env);
      TransCompareKeepsPlainConsts(p.e, NE, SymNo);
    }
    TransformKeepsValue(e, env);
    TransformKeepsPlainConsts(e);
    EliminateDupsKeepsValue(Transform(e), env);
  }

  /** Where an entry passes the test, its reading implies that of the symbol's prompt. */
  lemma SupersetReads(dep: ExprPtr, baseDep: ExprPtr, env: Env)
    requires ValidEnv(env) && IsSuperset(dep, baseDep)
    requires PlainPtr(dep) && TristatePtr(dep) && PlainPtr(baseDep) && TristatePtr(baseDep)
    ensures ReadingPtr(dep, env) ==> ReadingPtr(baseDep, env)
  {
    AgainstNoMeaning(dep, env);
    AgainstNoMeaning(baseDep, env);
    EliminateEqSuperset(Ptr(AgainstNo(dep)), Ptr(AgainstNo(baseDep)), env);
  }

  /** A condition as propagation leaves it: NOT stands only above symbols, all bools or tristates. */
  predicate OrdinaryPtr(p: ExprPtr) {
    p.Ptr? ==> TristateLeaves(p.e) && NotOnLeaves(p.e) && PlainConsts(p.e)
  }

  /** An entry that passes the test is never visible by its reading while the symbol's own prompt is
      not. */
  lemma SupersetMeaning(dep: ExprPtr, baseDep: ExprPtr, env: Env)
    requires ValidEnv(env) && IsSuperset(dep, baseDep)
    requires PlainPtr(dep) && TristatePtr(dep) && OrdinaryPtr(baseDep)
    ensures ReadingPtr(dep, env) ==> ValPtr(baseDep, env) != NO
  {
    SupersetReads(dep, baseDep, env);
    if baseDep.Ptr? && ReadingPtr(dep, env) {
      ReadingIsLow(baseDep.e, env);
    }
  }

  /** The whole test: an entry with dependency dep joins the submenu of a symbol whose prompt has the
      condition baseDep. */
  predicate JoinsSubmenu(dep: ExprPtr, s: Sym, baseDep: ExprPtr) {
    && dep.Ptr? && ContainsSymbol(dep.e, s)
    && (DependsOnSymbol(dep.e, s) || IsSuperset(dep, baseDep))
  }

  /** What joining a submenu means: the entry needs the symbol or, by its reading, at least whatever its
      prompt needs. Where neither holds, the entry is visible exactly by what the reading misses. */
  lemma JoinsSubmenuMeaning(dep: ExprPtr, s: Sym, baseDep: ExprPtr, env: Env)
    requires ValidEnv(env) && s.IsTristateLike() && JoinsSubmenu(dep, s, baseDep)
    requires PlainPtr(dep) && TristatePtr(dep) && OrdinaryPtr(baseDep)
    ensures ValPtr(dep, env) != NO ==> env.curr(s).tri != NO || ValPtr(baseDep, env) != NO || !ReadingPtr(dep, env)
  {
    if DependsOnSymbol(dep.e, s) {
      DependsOnSymbolMeaning(dep.e, s, env);
    } else {
      SupersetMeaning(dep, baseDep, env);
    }
  }
}
