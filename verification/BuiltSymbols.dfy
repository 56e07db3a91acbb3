/** What menu_finalize leaves of a symbol that was written at several places of the menu tree. */
module BuiltSymbols {
  import opened Tristate
  import opened Exprs
  import opened Options
  import opened Symbols
  import opened Choice
  import opened MenuDeps
  import opened MenuTree
  import opened MenuFinalize

  /** Where a symbol comes from: the places that define it, and those that select and imply it. */
  datatype Origin = Origin(sites: seq<Site>, selects: seq<Selector>, implies: seq<Selector>)

  predicate PlainOrigin(o: Origin) {
    && (forall site | site in o.sites :: PlainSite(site))
    && (forall sel | sel in o.selects :: PlainSelector(sel)) && (forall sel | sel in o.implies :: PlainSelector(sel))
  }

  /** A definition as menu_finalize leaves it. */
  predicate BuiltFrom(d: Definition, o: Origin, owner: SymType, modulesSym: Sym) {
    && d.dirDep == DirectDep(o.sites, modulesSym)
    && d.revDep == ReverseDep(o.selects, modulesSym) && d.implied == ReverseDep(o.implies, modulesSym)
    && OnlyPrompts(d.props) == OnlyPrompts(Prompts(o.sites, owner, modulesSym))
    && PlainOrigin(o)
  }

  /** Some symbol that is on selects this one where everything written for the select holds. */
  ghost predicate Selected(o: Origin, modulesSym: Sym, env: Env) {
    exists sel :: sel in o.selects && Pulls(sel, modulesSym, env)
  }

  function OnlyPrompts(props: seq<Property>): set<Property> {
    set p | p in props && p.kind.Prompt?
  }

  lemma {:induction false} PromptsAreOpen(props: seq<Property>, env: Env)
    ensures AnyPrompt(props, env) != NO <==> exists p :: p in OnlyPrompts(props) && ValPtr(p.cond, env) != NO
  {
    if props != [] {
      PromptsAreOpen(props[1..], env);
      assert forall p :: p in props <==> p == props[0] || p in props[1..];
      assert forall p :: p in OnlyPrompts(props[1..]) ==> p in OnlyPrompts(props);
    }
  }

  /** The prompts of a symbol in a finalised tree. */
  ghost function NodePrompts(f: Forest, s: Sym): set<Property>
    reads Nodes(f)`cond
  {
    match f
    case Nil => {}
    case Cons(n, k, r) =>
      (if n.sym == Some(s) && n.hasPrompt then {Property(Prompt, n.cond, Null)} else {}) + NodePrompts(k, s) + NodePrompts(r, s)
  }

  function PlacePrompts(places: multiset<Entry>, s: Sym, modulesSym: Sym): set<Property> {
    set e, p | e in places && e.Place? && e.sym == s && p in SitePrompts(e.site, s.Type(), modulesSym) :: p
  }

  /** Every node of the symbol was written without children, as config and menuconfig entries are. */
  predicate Childless(f: Forest, s: Sym) {
    match f
    case Nil => true
    case Cons(n, k, r) => (n.sym == Some(s) ==> k.Nil?) && Childless(k, s) && Childless(r, s)
  }

  lemma NodePrompt(n: Menu, s: Sym, chain: seq<ExprPtr>, run: Run)
    requires n.cond == Inherited(n, chain, run).cond && n.sym == Some(s)
    ensures forall p :: p in SitePrompts(SiteOf(n, chain, run), s.Type(), run.modulesSym)
              <==> n.hasPrompt && p == Property(Prompt, n.cond, Null)
  {
    var ps := SitePrompts(SiteOf(n, chain, run), s.Type(), run.modulesSym);
    assert n.hasPrompt ==> ps == [Property(Prompt, n.cond, Null)];
  }

  lemma OnePlacePrompts(e: Entry, s: Sym, modulesSym: Sym)
    ensures PlacePrompts(multiset{e}, s, modulesSym)
            == if e.Place? && e.sym == s then OnlyPrompts(SitePrompts(e.site, s.Type(), modulesSym)) else {}
  {
    assert e in multiset{e};
  }

  lemma HerePrompts(n: Menu, k: Forest, s: Sym, chain: seq<ExprPtr>, run: Run)
    requires n.cond == Inherited(n, chain, run).cond && (n.sym == Some(s) ==> k.Nil?)
    ensures PlacePrompts(Here(n, k, chain, run), s, run.modulesSym)
            == if n.sym == Some(s) && n.hasPrompt then {Property(Prompt, n.cond, Null)} else {}
  {
    if k.Nil? && n.sym.Some? {
      OnePlacePrompts(Place(n.sym.value, SiteOf(n, chain, run)), s, run.modulesSym);
    }
    if n.sym == Some(s) {
      NodePrompt(n, s, chain, run);
    }
  }

  lemma PlacePromptsUnion(a: multiset<Entry>, b: multiset<Entry>, s: Sym, modulesSym: Sym)
    ensures PlacePrompts(a + b, s, modulesSym) == PlacePrompts(a, s, modulesSym) + PlacePrompts(b, s, modulesSym)
  {
  }

  lemma {:induction false} PullListHasPulls(s: Sym, chain: seq<ExprPtr>, written: seq<Weak>)
    ensures forall e | e in Bag(PullList(s, chain, written)) ::
      e.Pull? && exists w :: w in written && e.selector == Selector(s, chain, w.cond)
  {
    if written != [] {
      var before := written[..|written| - 1];
      PullListHasPulls(s, chain, before);
      Extended(PullList(s, chain, before), PullList(s, chain, written)[|before|]);
      assert forall w :: w in before ==> w in written;
    }
  }

  lemma {:induction false} PullsHaveNoPrompts(f: Forest, s: Sym, chain: seq<ExprPtr>, run: Run)
    ensures PlacePrompts(TopPulls(f, chain, run), s, run.modulesSym) == {}
  {
    if f.Cons? {
      var n := f.node;
      if n.sym.Some? {
        PullListHasPulls(n.sym.value, chain + [At(n, run).dep], At(n, run).selects);
      }
      assert PlacePrompts(PullsOf(n, chain, run), s, run.modulesSym) == {};
      PullsHaveNoPrompts(f.rest, s, chain, run);
      PlacePromptsUnion(PullsOf(n, chain, run), TopPulls(f.rest, chain, run), s, run.modulesSym);
    }
  }

  lemma {:induction false} NodePromptsArePlaces(f: Forest, s: Sym, chain: seq<ExprPtr>, run: Run)
    requires Done(f, chain, run) && Childless(f, s)
    ensures NodePrompts(f, s) == PlacePrompts(Places(f, chain, run), s, run.modulesSym)
  {
    if f.Cons? {
      var n, m := f.node, run.modulesSym;
      var below := KidsChain(n, chain, run);
      var here, kids := Here(n, f.kids, chain, run), Below(f.kids, below, run);
      HerePrompts(n, f.kids, s, chain, run);
      NodePromptsArePlaces(f.kids, s, below, run);
      NodePromptsArePlaces(f.rest, s, chain, run);
      PullsHaveNoPrompts(f.kids, s, below, run);
      PlacePromptsUnion(TopPulls(f.kids, below, run), Places(f.kids, below, run), s, m);
      PlacePromptsUnion(here, kids, s, m);
      PlacePromptsUnion(here + kids, Places(f.rest, chain, run), s, m);
    }
  }

  lemma MorePrompts(sites: seq<Site>, site: Site, owner: SymType, modulesSym: Sym)
    ensures OnlyPrompts(Prompts(sites + [site], owner, modulesSym))
            == OnlyPrompts(Prompts(sites, owner, modulesSym)) + OnlyPrompts(SitePrompts(site, owner, modulesSym))
  {
    assert (sites + [site])[..|sites|] == sites;
  }

  lemma {:induction false} LoggedPrompts(log: seq<Entry>, s: Sym, modulesSym: Sym)
    ensures OnlyPrompts(Prompts(SitesOf(log, s), s.Type(), modulesSym)) == PlacePrompts(multiset(log), s, modulesSym)
  {
    if log != [] {
      var before, last := log[..|log| - 1], log[|log| - 1];
      assert log == before + [last];
      assert multiset(log) == multiset(before) + multiset{last};
      LoggedPrompts(before, s, modulesSym);
      PlacePromptsUnion(multiset(before), multiset{last}, s, modulesSym);
      OnePlacePrompts(last, s, modulesSym);
      Extended(SitesOf(before, s), if last.Place? then last.site else Site([], []));
      if last.Place? && last.sym == s {
        MorePrompts(SitesOf(before, s), last.site, s.Type(), modulesSym);
      }
    }
  }

  predicate PlainEntry(e: Entry) {
    match e
    case Place(_, site) => PlainSite(site)
    case Pull(_, _, sel) => PlainSelector(sel)
  }

  /** All conditions are as an ordinary Kconfig file has them. */
  predicate PlainLabel(at: Label) {
    PlainPtr(at.dep) && PlainPtr(at.cond) && forall w | w in at.selects :: PlainPtr(w.cond)
  }

  predicate PlainRun(run: Run) {
    forall n | n in run.written :: PlainLabel(run.written[n])
  }

  lemma PullsArePlain(n: Menu, chain: seq<ExprPtr>, run: Run)
    requires PlainRun(run) && forall p | p in chain :: PlainPtr(p)
    ensures forall e | e in PullsOf(n, chain, run) :: PlainEntry(e)
  {
    assert PlainLabel(At(n, run));
    if n.sym.Some? {
      PullListHasPulls(n.sym.value, chain + [At(n, run).dep], At(n, run).selects);
    }
  }

  lemma {:induction false} TopPullsArePlain(f: Forest, chain: seq<ExprPtr>, run: Run)
    requires PlainRun(run) && forall p | p in chain :: PlainPtr(p)
    ensures forall e | e in TopPulls(f, chain, run) :: PlainEntry(e)
  {
    if f.Cons? {
      PullsArePlain(f.node, chain, run);
      TopPullsArePlain(f.rest, chain, run);
    }
  }

  lemma {:induction false} PlacesArePlain(f: Forest, chain: seq<ExprPtr>, run: Run)
    requires PlainRun(run) && forall p | p in chain :: PlainPtr(p)
    ensures forall e | e in Places(f, chain, run) :: PlainEntry(e)
  {
    if f.Cons? {
      assert PlainLabel(At(f.node, run));
      var below := KidsChain(f.node, chain, run);
      TopPullsArePlain(f.kids, below, run);
      PlacesArePlain(f.kids, below, run);
      PlacesArePlain(f.rest, chain, run);
    }
  }

  lemma {:induction false} LogIsPlain(log: seq<Entry>, s: Sym)
    requires forall e | e in log :: PlainEntry(e)
    ensures forall site | site in SitesOf(log, s) :: PlainSite(site)
    ensures forall imply, sel | sel in SelectorsOf(log, imply, s) :: PlainSelector(sel)
  {
    if log != [] {
      var before := log[..|log| - 1];
      assert log[|log| - 1] in log && forall e | e in before :: e in log;
      LogIsPlain(before, s);
    }
  }

  function OriginOf(log: seq<Entry>, s: Sym): Origin {
    Origin(SitesOf(log, s), SelectorsOf(log, false, s), SelectorsOf(log, true, s))
  }

  /** The definition of a symbol with what was collected for it, and the prompts of its nodes. */
  ghost predicate IsFinalized(d: Definition, f: Forest, deps: Deps, s: Sym)
    reads Nodes(f)`cond
  {
    && d.dirDep == Find(deps.direct, s) && d.revDep == Find(deps.reverse, s) && d.implied == Find(deps.implied, s)
    && OnlyPrompts(d.props) == NodePrompts(f, s)
  }

  /** In a finalised tree, a symbol is built from the places where it was written, and where others select
      and imply it. */
  lemma FinalizedIsBuilt(f: Forest, run: Run, log: seq<Entry>, s: Sym, d: Definition)
    requires Done(f, [], run) && multiset(log) == Places(f, [], run) && Childless(f, s) && PlainRun(run)
    requires IsFinalized(d, f, DepsOf(log, run.modulesSym), s)
    ensures BuiltFrom(d, OriginOf(log, s), s.Type(), run.modulesSym)
  {
    CollectedDeps(log, s, run.modulesSym);
    NodePromptsArePlaces(f, s, [], run);
    LoggedPrompts(log, s, run.modulesSym);
    PlacesArePlain(f, [], run);
    forall e | e in log
      ensures PlainEntry(e)
    {
      assert e in multiset(log);
    }
    LogIsPlain(log, s);
  }

  /** In any calculation, a symbol is visible without its direct dependency exactly when a prompt at a
      place without dependencies was forgotten. */
  lemma VisibleBuiltSymbol(s: Sym, d: Definition, o: Origin, modulesSym: Sym, env: Env)
    requires ValidEnv(env) && BuiltFrom(d, o, s.Type(), modulesSym)
    ensures Visibility(s, d, env) != NO && DirDep(s, d, env) == NO <==> Forgotten(o.sites, modulesSym, env)
  {
    PromptsAreOpen(d.props, env);
    PromptsAreOpen(Prompts(o.sites, s.Type(), modulesSym), env);
    VisibleWithoutDirectDep(o.sites, s.Type(), modulesSym, env);
  }

  /** And its reverse dependency holds exactly when some place that selects it does. */
  lemma SelectedBuiltSymbol(s: Sym, d: Definition, o: Origin, modulesSym: Sym, env: Env)
    requires ValidEnv(env) && BuiltFrom(d, o, s.Type(), modulesSym)
    ensures RevDep(s, d, env) != NO <==> Selected(o, modulesSym, env)
  {
    ReverseDepMeaning(o.selects, modulesSym, env);
  }

  lemma {:induction false} ChainNeedsFirst(chain: seq<ExprPtr>, modulesSym: Sym, env: Env)
    requires chain != [] && ChainValue(chain, modulesSym, env) != NO
    ensures ValPtr(Rewritten(chain[0], modulesSym), env) != NO
  {
    if |chain| > 1 {
      ChainNeedsFirst(chain[..|chain| - 1], modulesSym, env);
    } else {
      assert chain[..|chain| - 1] == [];
    }
  }

  /** What is written below a choice is invisible where the choice is n. */
  lemma MembersNeedChoice(choice: Sym, sites: seq<Site>, modulesSym: Sym, env: Env)
    requires ValidEnv(env) && choice.Config? && env.curr(choice).tri == NO
    requires forall site | site in sites :: PlainSite(site) && site.chain != [] && site.chain[0] == Ptr(Leaf(choice))
    ensures MemberVisibility(Prompts(sites, Boolean, modulesSym), env) == NO
  {
    PromptsMeaning(sites, Boolean, modulesSym, env);
    if site :| site in sites && Opens(site, modulesSym, env) {
      ChainNeedsFirst(site.chain, modulesSym, env);
    }
  }

  /** So a choice group with its members' prompts as menu_finalize leaves them is in order. */
  lemma BuiltMembersAreBelow(choice: Sym, places: map<Sym, seq<Site>>, modulesSym: Sym)
    requires choice.Config?
    requires forall m, site | m in places && site in places[m] ::
      PlainSite(site) && site.chain != [] && site.chain[0] == Ptr(Leaf(choice))
    ensures BelowChoice(choice, map m | m in places :: Prompts(places[m], Boolean, modulesSym))
  {
    var props := map m | m in places :: Prompts(places[m], Boolean, modulesSym);
    forall m, env | m in props && ValidEnv(env) && env.curr(choice).tri == NO
      ensures MemberVisibility(props[m], env) == NO
    {
      MembersNeedChoice(choice, places[m], modulesSym, env);
    }
  }
}
